/** LZMA streams in pieces: however the input is cut, the same bytes are written and the same is said. */
module LzmaSlices {
  import opened Bytes
  import opened LzmaFeed
  import opened LzmaCore
  import opened LzmaStream
  import opened LzmaWork
  import opened LzmaDecoder

  function Joined(pieces: seq<seq<Byte>>): seq<Byte> {
    if pieces == [] then [] else Joined(pieces[..|pieces| - 1]) + pieces[|pieces| - 1]
  }

  /** Input after an error changes nothing. */
  lemma WrongStays(pr: Props, g: Goal, x: seq<Byte>, more: seq<Byte>)
    requires VerdictOn(pr, g, x) == Wrong
    ensures VerdictOn(pr, g, x + more) == Wrong
  {
    hide Pump, DecoderOk, Lzma, Start;
    LzmaMayBeFed(pr, g);
    var d, k := Lzma(pr, g), Kept(Start(pr), true, x);
    if Pump(d, k).None? {
      PumpBad(d, k, more);
    } else {
      PumpLater(d, k, more);
      LzmaParts(pr, g, Pump(d, k).value.s, []);
      PumpStopped(d, Plus(Pump(d, k).value, more));
    }
  }

  lemma JoinedMore(pieces: seq<seq<Byte>>, i: nat)
    requires i < |pieces|
    ensures Joined(pieces[..i + 1]) == Joined(pieces[..i]) + pieces[i]
  {
    assert pieces[..i + 1][..i] == pieces[..i];
  }

  /** Joined pieces begin with the pieces before. */
  lemma {:induction false} JoinedBegins(pieces: seq<seq<Byte>>, i: nat) returns (rest: seq<Byte>)
    requires i <= |pieces|
    ensures Joined(pieces) == Joined(pieces[..i]) + rest
    decreases |pieces| - i
  {
    if i == |pieces| {
      rest := [];
      assert pieces[..i] == pieces;
    } else {
      JoinedMore(pieces, i);
      rest := JoinedBegins(pieces, i + 1);
      rest := pieces[i] + rest;
    }
  }

  /**
   * A stream is decoded from pieces, what a call leaves over being offered again with the next piece.  The
   * outcome is that of the joined pieces.
   */
  method InPieces(d: LzmaDec, pieces: seq<seq<Byte>>, destLen: nat, finish: bool) returns (ok: bool, dest: seq<Byte>, status: Status)
    requires d.Valid() && d.pr.dicSize <= d.dic.Length && pieces != []
    modifies d, d.probs, d.dic
    ensures VerdictOn(d.pr, old(d.BufGoal(destLen, finish)), old(d.fed) + Joined(pieces))
            == if ok then Fine(d.out, |d.fed| - |d.tempBuf|, status) else Wrong
    ensures ok ==> d.Valid() && d.out == old(d.out) + dest
  {
    hide LzmaDec.Valid, VerdictOn, Joined;
    ghost var g, x := d.BufGoal(destLen, finish), d.fed;
    var pending, i := [], 0;
    ok, dest, status := true, [], NotSpecified;
    NoPieces(pieces);
    while i < |pieces|
      invariant 0 <= i <= |pieces| && ok && d.Valid() && d.out == old(d.out) + dest && |dest| <= destLen
      invariant d.fed + pending == x + Joined(pieces[..i])
      invariant if d.remainLen == SPEC_LEN_START then NoTighter(d.goal, g) else g == Goal(|d.out| + (destLen - |dest|), finish)
      invariant i > 0 ==> VerdictOn(d.pr, g, x + Joined(pieces[..i])) == Fine(d.out, |d.fed| - |d.tempBuf|, status)
    {
      var bytes, srcLen;
      ghost var fed0, g0, input := d.fed, d.BufGoal(destLen - |dest|, finish), pending + pieces[i];
      JoinedMore(pieces, i);
      assert fed0 + input == x + Joined(pieces[..i + 1]) by {
        assert fed0 + input == (fed0 + pending) + pieces[i];
      }
      ok, bytes, srcLen, status := d.DecodeToBuf(destLen - |dest|, pending + pieces[i], finish);
      if g0 != g { SameVerdict(d.pr, g0, g, fed0 + input); }
      if !ok {
        ghost var rest := JoinedBegins(pieces, i + 1);
        WrongStays(d.pr, g, fed0 + input, rest);
        assert x + Joined(pieces[..i + 1]) + rest == x + Joined(pieces);
        return;
      }
      assert d.fed + input[srcLen..] == fed0 + input;
      dest, pending, i := dest + bytes, (pending + pieces[i])[srcLen..], i + 1;
    }
    assert pieces[..i] == pieces;
  }

  lemma NoPieces(pieces: seq<seq<Byte>>)
    ensures Joined(pieces[..0]) == []
  {
  }
}
