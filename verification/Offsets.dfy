/** The eight-byte sign-and-magnitude numbers of the patch format. */
module Offsets {
  import opened Bytes

  const LIMIT: int := 0x8000_0000_0000_0000

  /** The number whose little-endian base-256 digits are s. */
  function Little(s: seq<Byte>): nat {
    if s == [] then 0 else s[0] + 256 * Little(s[1..])
  }

  function Digits(v: nat, n: nat): (s: seq<Byte>)
    ensures |s| == n
  {
    if n == 0 then [] else [v % 256] + Digits(v / 256, n - 1)
  }

  lemma {:induction false} LittleDigits(v: nat, n: nat)
    requires v < Pow256(n)
    ensures Little(Digits(v, n)) == v
  {
    if n > 0 {
      LittleDigits(v / 256, n - 1);
      assert Digits(v, n)[1..] == Digits(v / 256, n - 1);
    }
  }

  function Abs(x: int): nat { if x < 0 then -x else x }

  /** Magnitude in the low 63 bits, sign in the top bit of the last byte. */
  function Written(x: int): (s: seq<Byte>)
    requires -LIMIT < x < LIMIT
    ensures |s| == 8
  {
    var d := Digits(Abs(x), 8);
    if x < 0 && d[7] < 128 then d[7 := d[7] as int + 128] else d
  }

  function Read(s: seq<Byte>): int
    requires |s| == 8
  {
    if s[7] >= 128 then 0 - Little(s[7 := s[7] - 128]) else Little(s)
  }

  lemma TopDigit(v: nat)
    requires v < LIMIT
    ensures Digits(v, 8)[7] < 128 && Little(Digits(v, 8)) == v
  {
    hide Digits, Pow256, Little;
    Powers();
    LittleDigits(v, 8);
    TopOf(v, 7);
  }

  lemma Powers()
    ensures Pow256(8) == 2 * LIMIT && Pow256(7) == 0x100_0000_0000_0000
  {
  }

  lemma {:induction false} TopOf(v: nat, n: nat)
    ensures Digits(v, n + 1)[n] == (v / Pow256(n)) % 256
  {
    if n > 0 {
      TopOf(v / 256, n - 1);
      DivDiv(v, Pow256(n - 1));
    }
  }

  /** offtin undoes offtout. */
  lemma ReadWritten(x: int)
    requires -LIMIT < x < LIMIT
    ensures Read(Written(x)) == x
  {
    TopDigit(Abs(x));
    var d := Digits(Abs(x), 8);
    if x < 0 {
      assert d[7 := d[7] as int + 128][7 := d[7]] == d;
    }
  }

  lemma DigitsStep(v: nat, n: nat)
    requires n > 0
    ensures Digits(v, n) == [v % 256] + Digits(v / 256, n - 1)
  {
  }

  lemma EightDigits(v0: nat, v1: nat, v2: nat, v3: nat, v4: nat, v5: nat, v6: nat, v7: nat)
    requires v1 == v0 / 256 && v2 == v1 / 256 && v3 == v2 / 256 && v4 == v3 / 256
    requires v5 == v4 / 256 && v6 == v5 / 256 && v7 == v6 / 256
    ensures Digits(v0, 8) == [v0 % 256, v1 % 256, v2 % 256, v3 % 256, v4 % 256, v5 % 256, v6 % 256, v7 % 256]
  {
    hide Digits;
    assert Digits(v4, 4) == [v4 % 256, v5 % 256, v6 % 256, v7 % 256] by {
      DigitsStep(v4, 4); DigitsStep(v5, 3); DigitsStep(v6, 2); DigitsStep(v7, 1);
    }
    DigitsStep(v0, 8); DigitsStep(v1, 7); DigitsStep(v2, 6); DigitsStep(v3, 5);
  }

  method OffOut(x: int, buf: array<Byte>)
    requires buf.Length == 8 && -LIMIT < x < LIMIT
    modifies buf
    ensures buf[..] == Written(x)
  {
    hide Digits;
    var y0: nat := if x < 0 then -x else x;
    buf[0] := y0 % 256;
    var y1 := y0 / 256;
    buf[1] := y1 % 256;
    var y2 := y1 / 256;
    buf[2] := y2 % 256;
    var y3 := y2 / 256;
    buf[3] := y3 % 256;
    var y4 := y3 / 256;
    buf[4] := y4 % 256;
    var y5 := y4 / 256;
    buf[5] := y5 % 256;
    var y6 := y5 / 256;
    buf[6] := y6 % 256;
    var y7 := y6 / 256;
    buf[7] := y7 % 256;
    EightDigits(y0, y1, y2, y3, y4, y5, y6, y7);
    TopDigit(y0);
    if x < 0 && buf[7] < 128 {
      buf[7] := buf[7] as int + 128;
    }
  }

  lemma LittleStep(s: seq<Byte>, i: nat)
    requires i < |s|
    ensures Little(s[i..]) == s[i] + 256 * Little(s[i + 1..])
  {
    assert s[i..][1..] == s[i + 1..];
  }

  /** The bytes from the last to the first, as the reader takes them. */
  lemma LittleEight(s: seq<Byte>, y4: nat)
    requires |s| == 8 && y4 == ((s[7] as int * 256 + s[6]) * 256 + s[5]) * 256 + s[4]
    ensures Little(s) == (((y4 * 256 + s[3]) * 256 + s[2]) * 256 + s[1]) * 256 + s[0]
  {
    hide Little;
    assert Little(s[4..]) == y4 by {
      LittleNone(s[8..]);
      LittleStep(s, 7); LittleStep(s, 6); LittleStep(s, 5); LittleStep(s, 4);
    }
    LittleStep(s, 3); LittleStep(s, 2); LittleStep(s, 1); LittleStep(s, 0);
    assert s[0..] == s;
  }

  method OffIn(buf: seq<Byte>) returns (y: int)
    requires |buf| == 8
    ensures y == Read(buf)
  {
    hide Little;
    ghost var s := buf[7 := buf[7] % 128];
    y := buf[7] % 128;
    y := y * 256 + buf[6];
    y := y * 256 + buf[5];
    y := y * 256 + buf[4];
    LittleEight(s, y);
    y := y * 256 + buf[3];
    y := y * 256 + buf[2];
    y := y * 256 + buf[1];
    y := y * 256 + buf[0];
    if buf[7] >= 128 {
      assert s == buf[7 := buf[7] - 128];
      y := -y;
    } else {
      assert s == buf;
    }
  }

  lemma LittleNone(s: seq<Byte>)
    requires s == []
    ensures Little(s) == 0
  {
  }
}
