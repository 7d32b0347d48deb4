/** Writing into the code buffer at `cp`: what is before is extended or, for a short branch, rewritten at its end. */
module DasmEmit {
  import opened Bytes
  import opened DasmActions
  import opened DasmCode
  import opened DasmLayout

  /** `c` is the end of `part` in the buffer, and nothing behind has been written. */
  ghost predicate Emitted(now: seq<Byte>, then_: seq<Byte>, c: nat, part: seq<Byte>) {
    && |now| == |then_| && c == |part| <= |now| && now[..c] == part && now[c..] == then_[c..]
  }

  lemma EmittedTwice(a: seq<Byte>, b: seq<Byte>, d: seq<Byte>, c: nat, c': nat, p: seq<Byte>, q: seq<Byte>)
    requires Emitted(b, a, c, p) && Emitted(d, b, c', q) && c <= c'
    ensures Emitted(d, a, c', q)
  {
    assert forall k :: c' <= k < |d| ==> d[k] == d[c'..][k - c'] == b[c'..][k - c'] == b[k];
    assert forall k :: c <= k < |b| ==> b[k] == b[c..][k - c] == a[c..][k - c] == a[k];
  }

  method EmitByte(buffer: array<Byte>, cp: nat, b: Byte) returns (c: nat)
    requires cp < buffer.Length
    modifies buffer
    ensures c == cp + 1 && Emitted(buffer[..], old(buffer[..]), c, old(buffer[..cp]) + [b])
  {
    buffer[cp] := b;
    c := cp + 1;
  }

  method EmitWord4(buffer: array<Byte>, cp: nat, v: int) returns (c: nat)
    requires cp + 4 <= buffer.Length
    modifies buffer
    ensures c == cp + 4 && Emitted(buffer[..], old(buffer[..]), c, old(buffer[..cp]) + Word4(v))
  {
    hide Low;
    buffer[cp], buffer[cp + 1], buffer[cp + 2], buffer[cp + 3] :=
      Low(v), Low(v / 0x100), Low(v / 0x1_0000), Low(v / 0x100_0000);
    c := cp + 4;
  }

  method EmitImm(buffer: array<Byte>, cp: nat, a: Byte, v: int) returns (c: nat)
    requires IsImm(a) && cp + ImmSize(a) <= buffer.Length
    modifies buffer
    ensures Emitted(buffer[..], old(buffer[..]), c, old(buffer[..cp]) + ImmBytes(a, v))
  {
    if a == IMM_D {
      c := EmitWord4(buffer, cp, v);
    } else if a == IMM_W {
      hide Low;
      buffer[cp], buffer[cp + 1] := Low(v), Low(v / 256);
      c := cp + 2;
    } else {
      c := EmitByte(buffer, cp, Low(v));
    }
  }

  lemma FillSnoc(out: seq<Byte>, n: nat, b: Byte)
    ensures out + Fill(n + 1, b) == out + Fill(n, b) + [b]
  {
  }

  method EmitSpace(buffer: array<Byte>, cp: nat, n: nat, b: Byte) returns (c: nat)
    requires cp + n <= buffer.Length
    modifies buffer
    ensures Emitted(buffer[..], old(buffer[..]), c, old(buffer[..cp]) + Fill(n, b))
  {
    hide Fill;
    c := cp;
    var left := n;
    while left > 0
      invariant 0 <= left <= n && c == cp + n - left
      invariant buffer[..c] == old(buffer[..cp]) + Fill(n - left, b)
      invariant buffer[c..] == old(buffer[c..])
    {
      FillSnoc(old(buffer[..cp]), n - left, b);
      buffer[c] := b;
      assert buffer[..c + 1] == buffer[..c] + [b];
      c, left := c + 1, left - 1;
    }
  }

  /** No-operations up to a multiple of m + 1. */
  method EmitPad(buffer: array<Byte>, cp: nat, m: nat) returns (c: nat)
    requires cp + Pad(cp, m + 1) <= buffer.Length
    modifies buffer
    ensures Emitted(buffer[..], old(buffer[..]), c, old(buffer[..cp]) + Fill(Pad(cp, m + 1), 0x90))
  {
    hide Fill, Pad;
    c := cp;
    while c % (m + 1) != 0
      invariant cp <= c <= cp + Pad(cp, m + 1)
      invariant buffer[..c] == old(buffer[..cp]) + Fill(c - cp, 0x90)
      invariant buffer[c..] == old(buffer[c..])
      decreases cp + Pad(cp, m + 1) - c
    {
      assert Multiple(cp + Pad(cp, m + 1), m + 1) && !Multiple(c, m + 1);
      FillSnoc(old(buffer[..cp]), c - cp, 0x90);
      buffer[c] := 0x90;
      assert buffer[..c + 1] == buffer[..c] + [0x90];
      c := c + 1;
    }
    assert Multiple(c, m + 1);
  }

  /** A branch: its displacement, the opcode before it made short if `s` bytes are saved. */
  method EmitBranch(buffer: array<Byte>, cp: nat, s: nat, d: int) returns (c: nat)
    requires cp <= buffer.Length && (s == 0 || s == 3 || s == 4) && (s == 3 ==> cp >= 1) && (s == 4 ==> cp >= 2)
    requires cp + 4 - s <= buffer.Length
    modifies buffer
    ensures c == cp + 4 - s && Emitted(buffer[..], old(buffer[..]), c, Branched(old(buffer[..cp]), s, d))
  {
    hide Low, Word4;
    if s == 0 {
      c := EmitWord4(buffer, cp, d);
    } else if s == 4 {
      buffer[cp - 2] := Low(buffer[cp - 1] as int - 0x10);
      buffer[cp - 1] := Low(d);
      c := cp;
      assert buffer[..c] == old(buffer[..cp - 2]) + [Low(old(buffer[cp - 1]) as int - 0x10), Low(d)];
      assert old(buffer[..cp])[..cp - 2] == old(buffer[..cp - 2]);
    } else {
      buffer[cp - 1] := 0xeb;
      buffer[cp] := Low(d);
      c := cp + 1;
      assert buffer[..c] == old(buffer[..cp - 1]) + [0xeb, Low(d)];
      assert old(buffer[..cp])[..cp - 1] == old(buffer[..cp - 1]);
    }
  }
}
