/** Bytes and the big-endian numbers they spell. */
module Bytes {
  import opened Residues

  type Byte = x: int | 0 <= x < 256

  datatype Option<+T> = None | Some(value: T)

  function Pow256(n: nat): (p: nat)
    ensures p >= 1
  {
    if n == 0 then 1 else 256 * Pow256(n - 1)
  }

  /** The number whose big-endian base-256 digits are `s`. */
  function Num(s: seq<Byte>): nat {
    if |s| == 0 then 0 else 256 * Num(s[..|s| - 1]) + s[|s| - 1]
  }

  lemma NumSnoc(s: seq<Byte>, b: Byte)
    ensures Num(s + [b]) == 256 * Num(s) + b
  {
    assert (s + [b])[..|s|] == s;
  }

  /** The `n` low big-endian digits of `v`. */
  function BigEndian(v: nat, n: nat): (s: seq<Byte>)
    ensures |s| == n
    ensures v < Pow256(n) ==> Num(s) == v
  {
    if n == 0 then [] else
      var t := BigEndian(v / 256, n - 1);
      NumSnoc(t, v % 256);
      t + [v % 256]
  }

  lemma {:induction false} NumIsBigEndian(s: seq<Byte>)
    ensures Num(s) < Pow256(|s|)
    ensures BigEndian(Num(s), |s|) == s
  {
    if |s| > 0 {
      NumIsBigEndian(s[..|s| - 1]);
    }
  }

  /** A number short by one digit has a leading zero. */
  lemma {:induction false} BigEndianLead(v: nat, n: nat)
    requires n >= 1 && v < Pow256(n - 1)
    ensures BigEndian(v, n)[0] == 0
  {
    if n > 1 {
      assert v / 256 < Pow256(n - 2);
      BigEndianLead(v / 256, n - 1);
    }
  }

  lemma DivDiv(v: nat, p: nat)
    requires p >= 1
    ensures (v / 256) / p == v / (256 * p)
  {
    var q := (v / 256) / p;
    var r := (v / 256) % p;
    assert v / 256 == q * p + r;
    var s := v % 256;
    assert v == 256 * (q * p + r) + s;
    assert v == q * (256 * p) + (256 * r + s) by {
      assert 256 * (q * p) == q * (256 * p);
    }
    assert 0 <= 256 * r + s < 256 * p;
    QuotientUnique(v, 256 * p, q, 256 * r + s);
  }
}
