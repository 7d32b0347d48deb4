/**
 * The match finder over whole runs: one walk for each position of a stream, and what becomes of its
 * results when all stored positions are shifted on the way.
 */
module MatchRuns {
  import opened MatchTree
  import opened MatchWalk
  import opened MatchFinder

  /** What one position asks for: the candidate the hash tables gave, the walk's limits, and the bytes left to compare. */
  datatype Query = Query(m: int, cut: nat, maxLen: nat, lenLimit: nat)

  /** The frame for a query: the bytes to compare never grow in number. */
  function Framed(f: Frame, q: Query): Frame {
    f.(lenLimit := q.lenLimit)
  }

  /** The candidate is an inserted position or outside the window, and there are that many bytes to compare. */
  ghost predicate QueryOk(f: Frame, nodes: set<int>, pos: int, q: Query) {
    && q.m < pos && (q.m > f.low ==> q.m in nodes)
    && 0 < q.lenLimit <= f.lenLimit && q.maxLen < q.lenLimit && pos - f.base + q.lenLimit <= |f.data|
  }

  /** As many bytes at the next position, or one less at the end of the stream. */
  function Next(f: Frame, pos: int, q: Query): Frame
    requires q.lenLimit > 0
  {
    Onward(f, if pos + 1 - f.base + q.lenLimit <= |f.data| then q.lenLimit else q.lenLimit - 1)
  }

  ghost predicate Ready(f: Frame, son: seq<int>, nodes: set<int>, pos: int) {
    Rooted(f, son, nodes, pos) && Entries(f, son, pos)
  }

  /** The queries of consecutive positions. */
  ghost predicate QueriesOk(f: Frame, nodes: set<int>, pos: int, qs: seq<Query>)
    decreases |qs|
  {
    qs == [] || (QueryOk(f, nodes, pos, qs[0]) && QueriesOk(Next(f, pos, qs[0]), nodes + {pos}, pos + 1, qs[1..]))
  }

  /** The walk one query starts. */
  ghost function Answer(f: Frame, son: seq<int>, nodes: set<int>, pos: int, q: Query): (r: (seq<int>, seq<Match>))
    requires Ready(f, son, nodes, pos) && QueryOk(f, nodes, pos, q)
    ensures |r.0| == |son|
  {
    ReadyFramed(f, son, nodes, pos, q);
    Walk(Framed(f, q), pos, Walker(son, q.m, pos, pos, 0, 0), q.cut, q.maxLen, [])
  }

  /** Fewer bytes to compare: the trees are search trees still. */
  lemma ReadyFramed(f: Frame, son: seq<int>, nodes: set<int>, pos: int, q: Query)
    requires Ready(f, son, nodes, pos) && QueryOk(f, nodes, pos, q)
    ensures Ready(Framed(f, q), son, nodes, pos) && Usable(Framed(f, q), pos, Walker(son, q.m, pos, pos, 0, 0))
  {
    var g := Framed(f, q);
    forall u, t: nat | t <= 1 ensures Child(g, son, u, t) == Child(f, son, u, t) { }
    assert Linked(g, son, nodes) && Placed(g, nodes, pos) by { hide Sorted, Below, ChildBelow; }
    assert Sorted(g, son, nodes) by { SortedFramed(f, q, son, nodes); }
    hide Linked, Placed, Sorted;
  }

  lemma SortedFramed(f: Frame, q: Query, son: seq<int>, nodes: set<int>)
    requires FrameOk(f, son) && Sorted(f, son, nodes) && q.lenLimit <= f.lenLimit
    ensures Sorted(Framed(f, q), son, nodes)
  {
    var g := Framed(f, q);
    forall u, v | u in nodes && f.low < u
      ensures v in ChildBelow(g, son, nodes, u, 0) ==> LeAt(g, v, u)
      ensures v in ChildBelow(g, son, nodes, u, 1) ==> LeAt(g, u, v)
    {
      FramedBelow(f, q, son, nodes, u);
      if v in ChildBelow(g, son, nodes, u, 0) { LeShorter(f.data, v - f.base, u - f.base, f.lenLimit, q.lenLimit); }
      if v in ChildBelow(g, son, nodes, u, 1) { LeShorter(f.data, u - f.base, v - f.base, f.lenLimit, q.lenLimit); }
    }
  }

  lemma {:induction false} FramedBelow(f: Frame, q: Query, son: seq<int>, nodes: set<int>, u: int)
    requires FrameOk(f, son)
    ensures Below(Framed(f, q), son, nodes, u) == Below(f, son, nodes, u)
    ensures u > f.low && u in nodes ==> forall t :: 0 <= t <= 1 ==>
      ChildBelow(Framed(f, q), son, nodes, u, t) == ChildBelow(f, son, nodes, u, t)
    decreases if u > f.low then u - f.low else 0
  {
    if u > f.low && u in nodes {
      forall t | 0 <= t <= 1 ensures ChildBelow(Framed(f, q), son, nodes, u, t) == ChildBelow(f, son, nodes, u, t) {
        var c := Child(f, son, u, t);
        assert Child(Framed(f, q), son, u, t) == c;
        if c < u { FramedBelow(f, q, son, nodes, c); }
      }
    }
  }

  /** A walk stores only positions it met. */
  lemma {:induction false} WalkEntries(f: Frame, pos: int, w: Walker, cut: nat, maxLen: nat, ds: seq<Match>)
    requires Usable(f, pos, w)
    ensures Entries(f, Walk(f, pos, w, cut, maxLen, ds).0, pos)
    decreases cut
  {
    hide Put, Noted, Length, SideOf, Slot, Ptr;
    if cut > 0 && w.m > f.low && Length(f, pos, w) < f.lenLimit {
      var len, s := Length(f, pos, w), SideOf(f, pos, w);
      PutUsable(f, pos, w, s, len);
      WalkEntries(f, pos, Put(f, pos, w, s, len), cut - 1, Longer(maxLen, len), Noted(ds, maxLen, len, pos - w.m - 1));
    }
  }

  /** One query: its matches are true and rise, and the finder is ready for the next position. */
  lemma AnswerGood(f: Frame, son: seq<int>, nodes: set<int>, pos: int, q: Query)
    requires Ready(f, son, nodes, pos) && QueryOk(f, nodes, pos, q)
    ensures TrueMatches(Framed(f, q), pos, Answer(f, son, nodes, pos, q).1, 0, q.maxLen)
    ensures Ready(Next(f, pos, q), Answer(f, son, nodes, pos, q).0, nodes + {pos}, pos + 1)
  {
    hide Walk, Torn, TrueMatches, Rooted, WalkOk;
    ReadyFramed(f, son, nodes, pos, q);
    var g := Framed(f, q);
    var w := Walker(son, q.m, pos, pos, 0, 0);
    WalkReports(g, son, nodes, pos, q.m, q.cut, q.maxLen, []);
    WalkEntries(g, pos, w, q.cut, q.maxLen, []);
    TornRooted(g, son, Answer(f, son, nodes, pos, q).0, nodes, pos, Next(f, pos, q).lenLimit);
  }

  /** The reports of a whole run, position by position. */
  ghost function Reports(f: Frame, son: seq<int>, nodes: set<int>, pos: int, qs: seq<Query>): (r: seq<seq<Match>>)
    requires Ready(f, son, nodes, pos) && QueriesOk(f, nodes, pos, qs)
    ensures |r| == |qs|
    decreases |qs|
  {
    if qs == [] then [] else
      AnswerGood(f, son, nodes, pos, qs[0]);
      var a := Answer(f, son, nodes, pos, qs[0]);
      [a.1] + Reports(Next(f, pos, qs[0]), a.0, nodes + {pos}, pos + 1, qs[1..])
  }

  /** The frame of the k-th query. */
  function FrameAt(f: Frame, q: Query, k: nat): Frame {
    f.(low := f.low + k, lenLimit := q.lenLimit)
  }

  /** Every match of every position of a run is a true match inside its window, each longer than the one before. */
  lemma {:induction false} RunsReportTrueMatches(f: Frame, son: seq<int>, nodes: set<int>, pos: int, qs: seq<Query>, k: nat)
    requires Ready(f, son, nodes, pos) && QueriesOk(f, nodes, pos, qs) && k < |qs|
    ensures TrueMatches(FrameAt(f, qs[k], k), pos + k, Reports(f, son, nodes, pos, qs)[k], 0, qs[k].maxLen)
    decreases k
  {
    hide TrueMatches, Ready, Answer;
    AnswerGood(f, son, nodes, pos, qs[0]);
    if k > 0 {
      RunsReportTrueMatches(Next(f, pos, qs[0]), Answer(f, son, nodes, pos, qs[0]).0, nodes + {pos}, pos + 1, qs[1..], k - 1);
      assert FrameAt(Next(f, pos, qs[0]), qs[k], k - 1) == FrameAt(f, qs[k], k);
    }
  }

  // ---------------------------------------------------------------- the shift

  ghost function ShiftedNodes(nodes: set<int>, sub: nat): set<int> {
    set u | u in nodes :: u - sub
  }

  function ShiftedQuery(q: Query, sub: nat): Query {
    q.(m := Reduced(q.m, sub))
  }

  function ShiftedQueries(qs: seq<Query>, sub: nat): (r: seq<Query>)
    ensures |r| == |qs| && forall k :: 0 <= k < |qs| ==> r[k] == ShiftedQuery(qs[k], sub)
  {
    seq(|qs|, k requires 0 <= k < |qs| => ShiftedQuery(qs[k], sub))
  }

  lemma ShiftedChild(f: Frame, son: seq<int>, sub: nat, q: int, t: nat)
    requires FrameOk(f, son) && sub <= f.low && t <= 1
    ensures Child(Shifted(f, sub), Normalized(son, sub), q - sub, t) == Reduced(Child(f, son, q, t), sub)
  {
    ShiftSlots(f, sub, q, q);
  }

  /** Shifted trees are the trees with every position shifted. */
  lemma {:induction false} ShiftedBelow(f: Frame, son: seq<int>, nodes: set<int>, sub: nat, q: int)
    requires FrameOk(f, son) && sub <= f.low
    ensures Below(Shifted(f, sub), Normalized(son, sub), ShiftedNodes(nodes, sub), q - sub)
         == ShiftedNodes(Below(f, son, nodes, q), sub)
    ensures q > f.low && q in nodes ==> forall t :: 0 <= t <= 1 ==>
      ChildBelow(Shifted(f, sub), Normalized(son, sub), ShiftedNodes(nodes, sub), q - sub, t)
      == ShiftedNodes(ChildBelow(f, son, nodes, q, t), sub)
    decreases if q > f.low then q - f.low else 0
  {
    hide Slot, Normalized, Child;
    var g, tau, ns := Shifted(f, sub), Normalized(son, sub), ShiftedNodes(nodes, sub);
    if q > f.low && q in nodes {
      forall t: nat | t <= 1
        ensures ChildBelow(g, tau, ns, q - sub, t) == ShiftedNodes(ChildBelow(f, son, nodes, q, t), sub)
      {
        var c := Child(f, son, q, t);
        ShiftedChild(f, son, sub, q, t);
        if f.low < c < q { ShiftedBelow(f, son, nodes, sub, c); }
      }
      assert q - sub in ns;
      ShiftedSum(q, ChildBelow(f, son, nodes, q, 0), ChildBelow(f, son, nodes, q, 1), sub);
    } else if q > f.low {
      assert q - sub !in ns;
    }
  }

  lemma ShiftedSum(q: int, a: set<int>, b: set<int>, sub: nat)
    ensures ShiftedNodes({q} + a + b, sub) == {q - sub} + ShiftedNodes(a, sub) + ShiftedNodes(b, sub)
  {
    forall v | v in {q - sub} + ShiftedNodes(a, sub) + ShiftedNodes(b, sub) ensures v in ShiftedNodes({q} + a + b, sub) {
      assert v + sub in {q} + a + b;
    }
  }

  lemma SortedShifted(f: Frame, son: seq<int>, nodes: set<int>, sub: nat)
    requires FrameOk(f, son) && sub <= f.low && Sorted(f, son, nodes)
    ensures Sorted(Shifted(f, sub), Normalized(son, sub), ShiftedNodes(nodes, sub))
  {
    var g, tau, ns := Shifted(f, sub), Normalized(son, sub), ShiftedNodes(nodes, sub);
    hide Below, ChildBelow, Normalized, Le, LeAt, Sorted;
    forall u, v, t: nat | u in ns && g.low < u && t <= 1 && v in ChildBelow(g, tau, ns, u, t) ensures Side(g, t, v, u) {
      ShiftedBelow(f, son, nodes, sub, u + sub);
      SortedSide(f, son, nodes, u + sub, v + sub, t);
      ShiftedSide(f, sub, t, v, u);
    }
    AllSides(g, tau, ns);
  }

  lemma ShiftedSide(f: Frame, sub: nat, t: nat, v: int, u: int)
    requires Side(f, t, v + sub, u + sub)
    ensures Side(Shifted(f, sub), t, v, u)
  {
  }

  lemma AllSides(f: Frame, son: seq<int>, nodes: set<int>)
    requires FrameOk(f, son)
    requires forall u, v, t: nat :: u in nodes && f.low < u && t <= 1 && v in ChildBelow(f, son, nodes, u, t) ==> Side(f, t, v, u)
    ensures Sorted(f, son, nodes)
  {
    hide Below, ChildBelow, LeAt;
    forall u, v | u in nodes && f.low < u
      ensures v in ChildBelow(f, son, nodes, u, 0) ==> LeAt(f, v, u)
      ensures v in ChildBelow(f, son, nodes, u, 1) ==> LeAt(f, u, v)
    {
      assert v in ChildBelow(f, son, nodes, u, 0) ==> Side(f, 0, v, u);
      assert v in ChildBelow(f, son, nodes, u, 1) ==> Side(f, 1, v, u);
    }
  }

  lemma ReadyShifted(f: Frame, son: seq<int>, nodes: set<int>, pos: int, sub: nat)
    requires Ready(f, son, nodes, pos) && sub <= f.low
    ensures Ready(Shifted(f, sub), Normalized(son, sub), ShiftedNodes(nodes, sub), pos - sub)
  {
    SortedShifted(f, son, nodes, sub);
    hide Sorted, Child;
    LinkedShifted(f, son, nodes, sub);
    hide Linked;
  }

  lemma LinkedShifted(f: Frame, son: seq<int>, nodes: set<int>, sub: nat)
    requires FrameOk(f, son) && sub <= f.low && Linked(f, son, nodes)
    ensures Linked(Shifted(f, sub), Normalized(son, sub), ShiftedNodes(nodes, sub))
  {
    hide Slot, Normalized;
    var g, tau, ns := Shifted(f, sub), Normalized(son, sub), ShiftedNodes(nodes, sub);
    forall u, t | u in ns && g.low < u && 0 <= t <= 1
      ensures Child(g, tau, u, t) < u && (Child(g, tau, u, t) > g.low ==> Child(g, tau, u, t) in ns)
    {
      ShiftedChild(f, son, sub, u + sub, t);
      assert u + sub in nodes;
    }
  }

  lemma {:induction false} QueriesShifted(f: Frame, nodes: set<int>, pos: int, qs: seq<Query>, sub: nat)
    requires QueriesOk(f, nodes, pos, qs) && sub <= f.low < pos
    ensures QueriesOk(Shifted(f, sub), ShiftedNodes(nodes, sub), pos - sub, ShiftedQueries(qs, sub))
    decreases |qs|
  {
    hide QueryOk, ShiftedNodes;
    if qs != [] {
      QueryShifted(f, nodes, pos, qs[0], sub);
      QueriesShifted(Next(f, pos, qs[0]), nodes + {pos}, pos + 1, qs[1..], sub);
      NextShifted(f, nodes, pos, qs, sub);
    }
  }

  lemma QueryShifted(f: Frame, nodes: set<int>, pos: int, q: Query, sub: nat)
    requires QueryOk(f, nodes, pos, q) && sub <= f.low < pos
    ensures QueryOk(Shifted(f, sub), ShiftedNodes(nodes, sub), pos - sub, ShiftedQuery(q, sub)) && q.lenLimit > 0
  {
    if q.m > f.low {
      assert q.m in nodes;
      assert q.m - sub in ShiftedNodes(nodes, sub);
    }
  }

  lemma NextShifted(f: Frame, nodes: set<int>, pos: int, qs: seq<Query>, sub: nat)
    requires qs != [] && qs[0].lenLimit > 0 && sub <= f.low
    ensures Next(Shifted(f, sub), pos - sub, ShiftedQuery(qs[0], sub)) == Shifted(Next(f, pos, qs[0]), sub)
    ensures ShiftedNodes(nodes + {pos}, sub) == ShiftedNodes(nodes, sub) + {pos - sub}
    ensures ShiftedQueries(qs[1..], sub) == ShiftedQueries(qs, sub)[1..]
  {
    forall v | v in ShiftedNodes(nodes, sub) + {pos - sub} ensures v in ShiftedNodes(nodes + {pos}, sub) {
      assert v + sub in nodes + {pos};
    }
  }

  /** Shifting all stored positions, at any point, changes nothing that is reported from then on. */
  lemma {:induction false} ShiftChangesNoReport(f: Frame, son: seq<int>, nodes: set<int>, pos: int, qs: seq<Query>, sub: nat)
    requires Ready(f, son, nodes, pos) && QueriesOk(f, nodes, pos, qs) && sub <= f.low
    ensures Ready(Shifted(f, sub), Normalized(son, sub), ShiftedNodes(nodes, sub), pos - sub)
    ensures QueriesOk(Shifted(f, sub), ShiftedNodes(nodes, sub), pos - sub, ShiftedQueries(qs, sub))
    ensures Reports(Shifted(f, sub), Normalized(son, sub), ShiftedNodes(nodes, sub), pos - sub, ShiftedQueries(qs, sub))
         == Reports(f, son, nodes, pos, qs)
    decreases |qs|
  {
    hide Ready, Answer, Reports, QueriesOk, QueryOk, Next, Shifted, Normalized, ShiftedNodes, ShiftedQueries, ShiftedQuery;
    LowBefore(f, son, nodes, pos);
    ReadyShifted(f, son, nodes, pos, sub);
    QueriesShifted(f, nodes, pos, qs, sub);
    var g, tau, ns, rs := Shifted(f, sub), Normalized(son, sub), ShiftedNodes(nodes, sub), ShiftedQueries(qs, sub);
    if qs == [] {
      ReportsNone(f, son, nodes, pos, qs);
      ReportsNone(g, tau, ns, pos - sub, rs);
    } else {
      ReportsHead(f, son, nodes, pos, qs);
      ReportsHead(g, tau, ns, pos - sub, rs);
      AnswerShifted(f, son, nodes, pos, qs[0], sub);
      NextShifted(f, nodes, pos, qs, sub);
      ShiftChangesNoReport(Next(f, pos, qs[0]), Answer(f, son, nodes, pos, qs[0]).0, nodes + {pos}, pos + 1, qs[1..], sub);
    }
  }

  lemma LowBefore(f: Frame, son: seq<int>, nodes: set<int>, pos: int)
    requires Ready(f, son, nodes, pos)
    ensures f.low < pos
  {
    hide Linked, Placed, Sorted, Entries;
  }

  lemma ReportsNone(f: Frame, son: seq<int>, nodes: set<int>, pos: int, qs: seq<Query>)
    requires Ready(f, son, nodes, pos) && QueriesOk(f, nodes, pos, qs) && qs == []
    ensures Reports(f, son, nodes, pos, qs) == []
  {
    hide Ready;
  }

  lemma ReportsHead(f: Frame, son: seq<int>, nodes: set<int>, pos: int, qs: seq<Query>)
    requires Ready(f, son, nodes, pos) && QueriesOk(f, nodes, pos, qs) && qs != []
    ensures QueryOk(f, nodes, pos, qs[0]) && qs[0].lenLimit > 0
    ensures QueriesOk(Next(f, pos, qs[0]), nodes + {pos}, pos + 1, qs[1..]) && Next(f, pos, qs[0]).low == f.low + 1
    ensures var a := Answer(f, son, nodes, pos, qs[0]);
            Ready(Next(f, pos, qs[0]), a.0, nodes + {pos}, pos + 1) &&
            Reports(f, son, nodes, pos, qs) == [a.1] + Reports(Next(f, pos, qs[0]), a.0, nodes + {pos}, pos + 1, qs[1..])
  {
    hide Ready, Answer;
    AnswerGood(f, son, nodes, pos, qs[0]);
  }

  lemma AnswerShifted(f: Frame, son: seq<int>, nodes: set<int>, pos: int, q: Query, sub: nat)
    requires Ready(f, son, nodes, pos) && QueryOk(f, nodes, pos, q) && sub <= f.low
    requires Ready(Shifted(f, sub), Normalized(son, sub), ShiftedNodes(nodes, sub), pos - sub)
    requires QueryOk(Shifted(f, sub), ShiftedNodes(nodes, sub), pos - sub, ShiftedQuery(q, sub))
    ensures Answer(Shifted(f, sub), Normalized(son, sub), ShiftedNodes(nodes, sub), pos - sub, ShiftedQuery(q, sub)).1
         == Answer(f, son, nodes, pos, q).1
    ensures Answer(Shifted(f, sub), Normalized(son, sub), ShiftedNodes(nodes, sub), pos - sub, ShiftedQuery(q, sub)).0
         == Normalized(Answer(f, son, nodes, pos, q).0, sub)
  {
    hide Walk, Usable, Ready, QueryOk, Normalized, ShiftedNodes;
    ReadyFramed(f, son, nodes, pos, q);
    ReadyFramed(Shifted(f, sub), Normalized(son, sub), ShiftedNodes(nodes, sub), pos - sub, ShiftedQuery(q, sub));
    var w := Walker(son, q.m, pos, pos, 0, 0);
    assert ShiftedWalker(w, sub) == Walker(Normalized(son, sub), Reduced(q.m, sub), pos - sub, pos - sub, 0, 0);
    assert Framed(Shifted(f, sub), ShiftedQuery(q, sub)) == Shifted(Framed(f, q), sub);
    WalkShifted(Framed(f, q), pos, w, sub, q.cut, q.maxLen, []);
  }
}
