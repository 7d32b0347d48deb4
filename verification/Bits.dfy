/** Bit strings, most significant bit first. */
module Bits {
  import opened Residues

  function Pow2(n: nat): (p: nat)
    ensures p >= 1
  {
    if n == 0 then 1 else 2 * Pow2(n - 1)
  }

  lemma {:induction false} Pow2Add(a: nat, b: nat)
    ensures Pow2(a + b) == Pow2(a) * Pow2(b)
  {
    if a > 0 {
      Pow2Add(a - 1, b);
      assert 2 * (Pow2(a - 1) * Pow2(b)) == (2 * Pow2(a - 1)) * Pow2(b);
    }
  }

  function Bit(b: bool): (n: nat)
    ensures n <= 1
  {
    if b then 1 else 0
  }

  /** The number a bit string spells. */
  function ValueOf(s: seq<bool>): (v: nat)
  {
    if s == [] then 0 else 2 * ValueOf(s[..|s| - 1]) + Bit(s[|s| - 1])
  }

  /** The n low bits of v. */
  function BitsOf(v: nat, n: nat): (s: seq<bool>)
    ensures |s| == n
  {
    if n == 0 then [] else BitsOf(v / 2, n - 1) + [v % 2 == 1]
  }

  lemma ValueSnoc(s: seq<bool>, b: bool)
    ensures ValueOf(s + [b]) == 2 * ValueOf(s) + Bit(b)
  {
    assert (s + [b])[..|s|] == s;
  }

  lemma {:induction false} ValueOfBits(v: nat, n: nat)
    requires v < Pow2(n)
    ensures ValueOf(BitsOf(v, n)) == v
  {
    if n > 0 {
      ValueOfBits(v / 2, n - 1);
      ValueSnoc(BitsOf(v / 2, n - 1), v % 2 == 1);
    }
  }

  /** The first k of n bits are the bits of the number without its n - k lowest. */
  lemma {:induction false} BitsPrefix(v: nat, n: nat, k: nat)
    requires k <= n
    ensures BitsOf(v, n)[..k] == BitsOf(v / Pow2(n - k), k)
    decreases n
  {
    if k < n {
      BitsPrefix(v / 2, n - 1, k);
      assert BitsOf(v, n)[..k] == BitsOf(v / 2, n - 1)[..k];
      HalveDiv(v, Pow2(n - 1 - k));
    } else {
      assert v / 1 == v;
    }
  }

  lemma HalveDiv(v: nat, p: nat)
    requires p >= 1
    ensures (v / 2) / p == v / (2 * p)
  {
    var q, r := (v / 2) / p, (v / 2) % p;
    assert v / 2 == q * p + r;
    assert v == 2 * (q * p + r) + v % 2;
    assert 2 * (q * p) == q * (2 * p);
    QuotientUnique(v, 2 * p, q, 2 * r + v % 2);
  }
}
