/**
 * The 25-bit branch words of the x86 filter: adding or subtracting the position, again and again until
 * a chosen byte is neither 0 nor 255, is a map that undoes itself the other way round.
 */
module BranchWords {
  import opened Permutations
  import opened Residues

  const WORDS: nat := 0x200_0000

  predicate Edge(b: int) { b == 0 || b == 255 }

  function Low(j: nat): (p: nat)
    ensures p >= 1
  {
    if j == 0 then 1 else if j == 1 then 256 else if j == 2 then 65536 else 16777216
  }

  /** Byte j of a word, j = 1 the lowest. */
  function ByteAt(x: nat, j: nat): nat
    requires 1 <= j <= 3
  {
    (x / Low(j - 1)) % 256
  }

  /** All bits up to and including byte j turned over. */
  function Flip(x: nat, j: nat): (y: nat)
    requires 1 <= j <= 3
    ensures x < WORDS ==> y < WORDS
  {
    FlipBound(x, Low(j));
    x - x % Low(j) + (Low(j) - 1 - x % Low(j))
  }

  lemma FlipBound(x: nat, p: nat)
    requires p == 256 || p == 65536 || p == 16777216
    ensures x - x % p >= 0 && (x < WORDS ==> x - x % p + p <= WORDS)
  {
  }

  lemma FlipTwice(x: nat, j: nat)
    requires 1 <= j <= 3
    ensures Flip(Flip(x, j), j) == x
  {
  }

  lemma ByteOf(q: nat, c: nat, l: nat, j: nat)
    requires 1 <= j <= 3 && c < 256 && l < Low(j - 1)
    ensures ByteAt(Low(j) * q + Low(j - 1) * c + l, j) == c
  {
    var v := Low(j) * q + Low(j - 1) * c + l;
    assert Low(j) == 256 * Low(j - 1);
    if j == 1 {
      QuotientUnique(v, 1, 256 * q + c, 0);
    } else if j == 2 {
      QuotientUnique(v, 256, 256 * q + c, l);
    } else {
      QuotientUnique(v, 65536, 256 * q + c, l);
    }
    QuotientUnique(256 * q + c, 256, q, c);
  }

  lemma ByteParts(x: nat, j: nat) returns (q: nat, c: nat, l: nat)
    requires 1 <= j <= 3
    ensures c < 256 && l < Low(j - 1) && x == Low(j) * q + Low(j - 1) * c + l
    ensures x % Low(j) == Low(j - 1) * c + l && c == ByteAt(x, j)
  {
    q := x / Low(j);
    c := (x % Low(j)) / Low(j - 1);
    l := (x % Low(j)) % Low(j - 1);
    ByteOf(q, c, l, j);
  }

  lemma FlipByte(x: nat, j: nat)
    requires 1 <= j <= 3
    ensures ByteAt(Flip(x, j), j) == 255 - ByteAt(x, j)
  {
    var q, c, l := ByteParts(x, j);
    hide ByteAt;
    assert Flip(x, j) == Low(j) * q + Low(j - 1) * (255 - c) + (Low(j - 1) - 1 - l);
    ByteOf(q, 255 - c, Low(j - 1) - 1 - l, j);
  }

  function Turn(x: int, a: int, encoding: bool): (y: nat)
    ensures y < WORDS
  {
    if encoding then (x + a) % WORDS else (x - a) % WORDS
  }

  lemma TurnBack(x: nat, a: int, encoding: bool)
    requires x < WORDS
    ensures Turn(Turn(x, a, encoding), a, !encoding) == x
  {
  }

  /** The words tried for x: each turned from the flipped one before, all but the last with an edge byte. */
  ghost predicate Chain(c: seq<int>, x: nat, a: int, encoding: bool, j: nat) {
    && 1 <= j <= 3 && x < WORDS && !Edge(ByteAt(x, j)) && |c| >= 1 && InRange(c, WORDS)
    && c[0] == Turn(x, a, encoding)
    && (forall i :: 0 <= i < |c| - 1 ==> Edge(ByteAt(c[i], j)))
    && (forall i, k :: 0 <= i < |c| && 0 <= k < |c| && k == i + 1 ==> c[k] == Turn(Flip(c[i], j), a, encoding))
  }

  /** No word is tried twice: going back, a repetition would reach x, whose byte is no edge. */
  lemma {:induction false} ChainNoReturn(c: seq<int>, x: nat, a: int, encoding: bool, j: nat, i: nat, k: nat)
    requires Chain(c, x, a, encoding, j) && i < k < |c|
    ensures c[i] != c[k]
    decreases i
  {
    if c[i] == c[k] {
      TurnBack(Flip(c[k - 1], j), a, encoding);
      FlipTwice(c[k - 1], j);
      if i == 0 {
        TurnBack(x, a, encoding);
        FlipByte(c[k - 1], j);
        assert false;
      } else {
        TurnBack(Flip(c[i - 1], j), a, encoding);
        FlipTwice(c[i - 1], j);
        ChainNoReturn(c, x, a, encoding, j, i - 1, k - 1);
      }
    }
  }

  lemma ChainShort(c: seq<int>, x: nat, a: int, encoding: bool, j: nat)
    requires Chain(c, x, a, encoding, j)
    ensures |c| <= WORDS
  {
    forall i, k | 0 <= i < k < |c| ensures c[i] != c[k] {
      ChainNoReturn(c, x, a, encoding, j, i, k);
    }
    Pigeonhole(c, WORDS);
  }

  lemma ChainGrows(c: seq<int>, x: nat, a: int, encoding: bool, j: nat)
    requires Chain(c, x, a, encoding, j) && Edge(ByteAt(c[|c| - 1], j))
    ensures Chain(c + [Turn(Flip(c[|c| - 1], j), a, encoding)], x, a, encoding, j)
    ensures |c| < WORDS
  {
    hide Turn, Flip, ByteAt, Edge;
    ChainShort(c + [Turn(Flip(c[|c| - 1], j), a, encoding)], x, a, encoding, j);
  }

  /** The first tried word whose byte is no edge. */
  ghost function Settle(c: seq<int>, x: nat, a: int, encoding: bool, j: nat): (r: seq<int>)
    requires Chain(c, x, a, encoding, j)
    ensures Chain(r, x, a, encoding, j) && !Edge(ByteAt(r[|r| - 1], j)) && c <= r
    decreases WORDS - |c|
  {
    if Edge(ByteAt(c[|c| - 1], j)) then
      ChainGrows(c, x, a, encoding, j);
      ChainShort(c + [Turn(Flip(c[|c| - 1], j), a, encoding)], x, a, encoding, j);
      Settle(c + [Turn(Flip(c[|c| - 1], j), a, encoding)], x, a, encoding, j)
    else c
  }

  /** What a branch word is converted to at position a; j chooses the byte to keep off the edges, 0 none. */
  ghost function Converted(x: nat, a: int, encoding: bool, j: nat): (y: nat)
    requires x < WORDS && j <= 3 && (j > 0 ==> !Edge(ByteAt(x, j)))
    ensures y < WORDS && (j > 0 ==> !Edge(ByteAt(y, j)))
  {
    if j == 0 then Turn(x, a, encoding)
    else
      var r := Settle([Turn(x, a, encoding)], x, a, encoding, j);
      r[|r| - 1]
  }

  /** A chain that ends off the edges ends at the converted word. */
  lemma ChainEnds(c: seq<int>, x: nat, a: int, encoding: bool, j: nat)
    requires Chain(c, x, a, encoding, j) && !Edge(ByteAt(c[|c| - 1], j))
    ensures c[|c| - 1] == Converted(x, a, encoding, j)
  {
    var r := Settle([Turn(x, a, encoding)], x, a, encoding, j);
    ChainsAgree(c, r, x, a, encoding, j);
  }

  lemma ChainsAgree(c: seq<int>, r: seq<int>, x: nat, a: int, encoding: bool, j: nat)
    requires Chain(c, x, a, encoding, j) && !Edge(ByteAt(c[|c| - 1], j))
    requires Chain(r, x, a, encoding, j) && !Edge(ByteAt(r[|r| - 1], j))
    ensures c == r
  {
    hide ByteAt, Edge;
    var n := if |c| < |r| then |c| else |r|;
    ChainsMatch(c, r, x, a, encoding, j, n - 1);
    ChainsMatchAll(c, r, x, a, encoding, j, n);
  }

  lemma ChainsMatchAll(c: seq<int>, r: seq<int>, x: nat, a: int, encoding: bool, j: nat, n: nat)
    requires Chain(c, x, a, encoding, j) && Chain(r, x, a, encoding, j) && n <= |c| && n <= |r|
    ensures forall i :: 0 <= i < n ==> c[i] == r[i]
  {
    forall i | 0 <= i < n ensures c[i] == r[i] {
      ChainsMatch(c, r, x, a, encoding, j, i);
    }
  }

  lemma {:induction false} ChainsMatch(c: seq<int>, r: seq<int>, x: nat, a: int, encoding: bool, j: nat, i: nat)
    requires Chain(c, x, a, encoding, j) && Chain(r, x, a, encoding, j) && i < |c| && i < |r|
    ensures c[i] == r[i]
  {
    hide ByteAt, Edge, Turn, Flip;
    if i > 0 { ChainsMatch(c, r, x, a, encoding, j, i - 1); }
  }

  /** The tried words backwards, flipped, and then x: the chain of the way back. */
  ghost function Mirror(c: seq<int>, x: nat, j: nat): (d: seq<int>)
    requires |c| >= 1 && 1 <= j <= 3 && InRange(c, WORDS) && x < WORDS
    ensures |d| == |c| && InRange(d, WORDS)
  {
    seq(|c|, i requires 0 <= i < |c| => if i == |c| - 1 then x else Flip(c[|c| - 2 - i], j))
  }

  lemma MirrorChain(c: seq<int>, x: nat, a: int, encoding: bool, j: nat)
    requires Chain(c, x, a, encoding, j) && !Edge(ByteAt(c[|c| - 1], j))
    ensures Chain(Mirror(c, x, j), c[|c| - 1], a, !encoding, j)
  {
    hide ByteAt, Edge, Flip, Turn;
    var d := Mirror(c, x, j);
    var n := |c|;
    forall i | 0 <= i < n - 1 ensures Edge(ByteAt(d[i], j)) {
      FlipByte(c[n - 2 - i], j);
      EdgeMirrored(ByteAt(c[n - 2 - i], j));
    }
    MirrorStart(c, x, a, encoding, j);
    forall i, k | 0 <= i < n && 0 <= k < n && k == i + 1 ensures d[k] == Turn(Flip(d[i], j), a, !encoding) {
      MirrorStep(c, x, a, encoding, j, i);
    }
  }

  lemma EdgeMirrored(b: int)
    ensures Edge(255 - b) == Edge(b)
  {
  }

  lemma MirrorStart(c: seq<int>, x: nat, a: int, encoding: bool, j: nat)
    requires Chain(c, x, a, encoding, j)
    ensures Mirror(c, x, j)[0] == Turn(c[|c| - 1], a, !encoding)
  {
    hide ByteAt, Edge, Flip, Turn;
    if |c| == 1 {
      TurnBack(x, a, encoding);
    } else {
      TurnBack(Flip(c[|c| - 2], j), a, encoding);
    }
  }

  lemma MirrorStep(c: seq<int>, x: nat, a: int, encoding: bool, j: nat, i: nat)
    requires Chain(c, x, a, encoding, j) && i + 1 < |c|
    ensures InRange(Mirror(c, x, j), WORDS) && Mirror(c, x, j)[i + 1] == Turn(Flip(Mirror(c, x, j)[i], j), a, !encoding)
  {
    hide ByteAt, Edge, Flip, Turn;
    var m := |c| - 2 - i;
    FlipTwice(c[m], j);
    if m == 0 {
      TurnBack(x, a, encoding);
    } else {
      TurnBack(Flip(c[m - 1], j), a, encoding);
    }
  }

  /** Converting back gives the word back. */
  lemma ConvertBack(x: nat, a: int, encoding: bool, j: nat)
    requires x < WORDS && j <= 3 && (j > 0 ==> !Edge(ByteAt(x, j)))
    ensures Converted(Converted(x, a, encoding, j), a, !encoding, j) == x
  {
    if j == 0 {
      TurnBack(x, a, encoding);
    } else {
      var c := Settle([Turn(x, a, encoding)], x, a, encoding, j);
      MirrorChain(c, x, a, encoding, j);
      ChainEnds(Mirror(c, x, j), c[|c| - 1], a, !encoding, j);
    }
  }
}
