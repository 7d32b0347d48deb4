/**
 * Where assembled entries end up: the most each may take, what linking saves on branches and alignment, and final
 * addresses. Entries are those of all sections, in the order in which the sections are put together.
 */
module DasmLayout {
  import Residues
  import opened DasmActions

  function Most(k: Kind): nat {
    match k
    case Imm(a, _) => ImmSize(a)
    case Space(n, _) => n
    case Rel(_, _, _) => 4
    case Addr(_, _) => 4
    case Align(m) => m
    case _ => 0
  }

  /** The offset of entry i if nothing is saved. */
  function Upper(cs: seq<Cell>, i: nat): nat
    requires i <= |cs|
  {
    if i == 0 then 0 else Upper(cs, i - 1) + Most(cs[i - 1].kind) + |cs[i - 1].tail|
  }

  /** References aim at the index of a label, or, below 0, at a global of other code. */
  predicate Aimed(cs: seq<Cell>, aim: seq<int>) {
    && |aim| == |cs|
    && forall i :: 0 <= i < |cs| && (cs[i].kind.Rel? || cs[i].kind.Addr?) && aim[i] >= 0 ==>
         aim[i] < |cs| && cs[aim[i]].kind.Label?
  }

  /** A branch comes after its opcode, which does not reach into the entry before. */
  predicate Branches(cs: seq<Cell>) {
    forall i :: 0 <= i < |cs| && cs[i].kind.Rel? ==>
      && 0 < i && i + 1 < |cs| && cs[i].tail == [] && cs[i + 1].kind.Est? && Opcode(cs[i - 1].tail, cs[i].kind.op)
  }

  predicate Masks(cs: seq<Cell>) {
    forall i :: 0 <= i < |cs| && cs[i].kind.Align? ==> IsMask(cs[i].kind.mask)
  }

  /**
   * What linking saves on the branch at i: a label ahead is as far away as the estimates say, a label behind
   * at its final distance.
   */
  function Shrink(cs: seq<Cell>, aim: seq<int>, i: nat): nat
    requires i < |cs| && cs[i].kind.Rel? && Aimed(cs, aim)
    decreases i, 1
  {
    var s := ShortBy(cs[i].kind.op);
    if s == 0 || aim[i] < 0 then 0 else
    var far :=
      if aim[i] > i then Upper(cs, aim[i]) - (Upper(cs, i) + 4)
      else if aim[i] < i then Upper(cs, aim[i]) + Saved(cs, aim, aim[i]) - Saved(cs, aim, i) - (Upper(cs, i) + 4)
      else 0;
    if -128 - s <= far <= 127 then s else 0
  }

  /** How far entry i is moved by linking, never forward. */
  function Saved(cs: seq<Cell>, aim: seq<int>, i: nat): int
    requires i <= |cs| && Aimed(cs, aim)
    decreases i, 0
  {
    if i == 0 then 0 else
    var before := Saved(cs, aim, i - 1);
    match cs[i - 1].kind
    case Rel(_, _, _) => before - Shrink(cs, aim, i - 1)
    case Align(m) => before - (Upper(cs, i - 1) + m + before) % (m + 1)
    case _ => before
  }

  /** The final offset of entry i. */
  function Final(cs: seq<Cell>, aim: seq<int>, i: nat): int
    requires i <= |cs| && Aimed(cs, aim)
  {
    Upper(cs, i) + Saved(cs, aim, i)
  }

  lemma Remainder(x: int, d: int)
    requires d > 0
    ensures 0 <= x % d < d
  {
  }

  lemma Step(cs: seq<Cell>, aim: seq<int>, i: nat)
    requires i < |cs| && Aimed(cs, aim) && Branches(cs)
    ensures 0 <= Final(cs, aim, i + 1) - Final(cs, aim, i) <= Upper(cs, i + 1) - Upper(cs, i)
    ensures Upper(cs, i + 1) == Upper(cs, i) + Most(cs[i].kind) + |cs[i].tail|
  {
    var k := cs[i].kind;
    var before := Saved(cs, aim, i);
    if k.Align? {
      Remainder(Upper(cs, i) + k.mask + before, k.mask + 1);
      assert Saved(cs, aim, i + 1) == before - (Upper(cs, i) + k.mask + before) % (k.mask + 1);
    } else if k.Rel? {
      assert Saved(cs, aim, i + 1) == before - Shrink(cs, aim, i);
    } else {
      assert Saved(cs, aim, i + 1) == before;
    }
  }

  /** Distances shrink, and nothing changes places. */
  lemma {:induction false} Between(cs: seq<Cell>, aim: seq<int>, i: nat, j: nat)
    requires i <= j <= |cs| && Aimed(cs, aim) && Branches(cs)
    ensures 0 <= Final(cs, aim, j) - Final(cs, aim, i) <= Upper(cs, j) - Upper(cs, i)
  {
    if i < j {
      Between(cs, aim, i, j - 1);
      Step(cs, aim, j - 1);
    }
  }

  lemma FinalFrom0(cs: seq<Cell>, aim: seq<int>, i: nat)
    requires i <= |cs| && Aimed(cs, aim) && Branches(cs)
    ensures 0 <= Final(cs, aim, i) <= Upper(cs, i)
  {
    Between(cs, aim, 0, i);
  }

  /** A branch made short reaches its label with a signed byte, although code between them may still change size. */
  lemma ShortFits(cs: seq<Cell>, aim: seq<int>, i: nat)
    requires i < |cs| && cs[i].kind.Rel? && Aimed(cs, aim) && Branches(cs)
    requires Shrink(cs, aim, i) > 0
    ensures aim[i] >= 0 && -128 <= Final(cs, aim, aim[i]) - Final(cs, aim, i + 1) <= 127
  {
    var j := aim[i];
    assert Upper(cs, i + 1) == Upper(cs, i) + 4;
    if j > i {
      Between(cs, aim, i + 1, j);
    } else {
      Between(cs, aim, j, i);
      Step(cs, aim, i);
    }
  }

  /**
   * What a branch gives up if it is made short: a jump (e9) three bytes, a conditional jump (0f 80 to 0f 8f) four,
   * anything else nothing.
   */
  predicate Gives(op: nat, saved: nat, short: bool) {
    && (op == 0xe9 ==> saved == if short then 3 else 0)
    && (0x80 <= op <= 0x8f ==> saved == if short then 4 else 0)
    && (op != 0xe9 && !(0x80 <= op <= 0x8f) ==> saved == 0)
  }

  /** A branch back is made short exactly if a signed byte reaches its label. */
  lemma BackExact(cs: seq<Cell>, aim: seq<int>, i: nat)
    requires i < |cs| && cs[i].kind.Rel? && Aimed(cs, aim) && Branches(cs) && 0 <= aim[i] < i
    ensures var far := Final(cs, aim, aim[i]) - Final(cs, aim, i);
            Gives(cs[i].kind.op, Shrink(cs, aim, i), far - (if cs[i].kind.op == 0xe9 then 1 else 0) >= -128)
  {
    Between(cs, aim, aim[i], i);
  }

  /** A branch ahead is made short exactly if one reaches its label with everything between at its longest. */
  lemma AheadExact(cs: seq<Cell>, aim: seq<int>, i: nat)
    requires i < |cs| && cs[i].kind.Rel? && Aimed(cs, aim) && Branches(cs) && aim[i] > i
    ensures Gives(cs[i].kind.op, Shrink(cs, aim, i), Upper(cs, aim[i]) - Upper(cs, i + 1) <= 127)
  {
    assert Upper(cs, i + 1) == Upper(cs, i) + 4;
    Between(cs, aim, i + 1, aim[i]);
  }

  /** A branch to other code stays long. */
  lemma OutsideLong(cs: seq<Cell>, aim: seq<int>, i: nat)
    requires i < |cs| && cs[i].kind.Rel? && Aimed(cs, aim) && aim[i] < 0
    ensures Shrink(cs, aim, i) == 0
  {
  }

  predicate Multiple(x: int, d: int)
    requires d > 0
  {
    x % d == 0
  }

  /** The least number of bytes that makes `x` a multiple of `d`. */
  function Pad(x: nat, d: nat): (n: nat)
    requires d > 0
    ensures n < d && Multiple(x + n, d)
    ensures forall y :: x <= y < x + n ==> !Multiple(y, d)
  {
    PadIs(x, d);
    d - 1 - (x + d - 1) % d
  }

  lemma PadIs(x: nat, d: nat)
    requires d > 0
    ensures 0 <= d - 1 - (x + d - 1) % d < d
    ensures Multiple(x + d - 1 - (x + d - 1) % d, d)
    ensures forall y :: x <= y < x + d - 1 - (x + d - 1) % d ==> !Multiple(y, d)
  {
    var v := x + d - 1;
    var r := v % d;
    Remainder(v, d);
    Residues.ModIs(v - r, d, v / d, 0);
    forall y {:trigger Multiple(y, d)} | x <= y < v - r ensures !Multiple(y, d) {
      NotBefore(v - r, y, d);
    }
  }

  lemma NotBefore(z: int, y: int, d: int)
    requires d > 0 && z % d == 0 && z - d < y < z
    ensures y % d != 0
  {
    if y % d == 0 {
      var a, b := y / d, z / d;
      assert y == a * d && z == b * d;
      if a < b { Residues.Times(a + 1, b, d); } else { Residues.Times(b, a, d); }
    }
  }

  /** After alignment the offset is the next multiple. */
  lemma Aligned(cs: seq<Cell>, aim: seq<int>, i: nat)
    requires i < |cs| && cs[i].kind.Align? && Aimed(cs, aim) && Branches(cs)
    ensures Final(cs, aim, i) >= 0
    ensures Final(cs, aim, i + 1) == Final(cs, aim, i) + Pad(Final(cs, aim, i), cs[i].kind.mask + 1) + |cs[i].tail|
  {
    FinalFrom0(cs, aim, i);
    var m, before := cs[i].kind.mask, Saved(cs, aim, i);
    assert Saved(cs, aim, i + 1) == before - (Upper(cs, i) + m + before) % (m + 1);
  }
}
