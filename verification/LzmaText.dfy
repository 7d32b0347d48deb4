/** A text encoded and decoded again: the encoder's bytes, cut anywhere, give the text back from the decoder. */
module LzmaText {
  import opened Bytes
  import RangeCoder
  import opened LzmaCore
  import opened LzmaStream
  import opened LzmaWork
  import opened LzmaDecoder
  import opened LzmaSlices
  import opened LzmaRoundTrip
  import opened LzmaEncoder

  /** A way to cut input into pieces. */
  ghost predicate Cuts(cut: seq<Byte> -> seq<seq<Byte>>) {
    forall x :: cut(x) != [] && Joined(cut(x)) == x
  }

  /** Encoded as planned without an end mark, a text of known length is decoded whole, whatever comes behind it. */
  method CodeAndDecode(pr: Props, text: seq<Byte>, plan: seq<Choice>, rest: seq<Byte>, cut: seq<Byte> -> seq<seq<Byte>>, finish: bool)
    returns (ok: bool, dest: seq<Byte>, status: Status)
    requires PropsOk(pr) && pr.dicSize <= 0x4000_0000 && Cuts(cut)
    requires (forall c :: c in plan ==> ChoiceOk(c)) && AllFit(pr, text, AT_START, AllPackets(text, plan))
    ensures ok && dest == text && status == MaybeFinishedWithoutMark
  {
    hide AllFit, LzmaDec.Valid, LzmaEnc.Valid, VerdictOn, LzmaBytes, Joined, RangeCoder.RangeEnc.Abs, InitProbs;
    var enc := new LzmaEnc(pr);
    enc.Encode(text, plan, false);
    var bytes := enc.rc.out;
    var dec := new LzmaDec(pr, pr.dicSize);
    var pieces := cut(bytes + rest);
    assert dec.BufGoal(|text|, finish) == Goal(|text|, finish) && dec.fed + (bytes + rest) == bytes + rest;
    ThereAndBack(pr, text, AllPackets(text, plan), finish, rest);
    ok, dest, status := InPieces(dec, pieces, |text|, finish);
  }

  /** With an end mark its length need not be known: any room for more bytes will do. */
  method CodeAndDecodeMarked(pr: Props, text: seq<Byte>, plan: seq<Choice>, rest: seq<Byte>, cut: seq<Byte> -> seq<seq<Byte>>,
                             room: nat, finish: bool) returns (ok: bool, dest: seq<Byte>, status: Status)
    requires PropsOk(pr) && pr.dicSize <= 0x4000_0000 && Cuts(cut) && |text| < room
    requires (forall c :: c in plan ==> ChoiceOk(c)) && AllFit(pr, text, AT_START, AllPackets(text, plan))
    ensures ok && dest == text && status == FinishedWithMark
  {
    hide AllFit, LzmaDec.Valid, LzmaEnc.Valid, VerdictOn, LzmaBytes, Joined, RangeCoder.RangeEnc.Abs, InitProbs;
    var enc := new LzmaEnc(pr);
    enc.Encode(text, plan, true);
    var bytes := enc.rc.out;
    var dec := new LzmaDec(pr, pr.dicSize);
    var pieces := cut(bytes + rest);
    assert dec.BufGoal(room, finish) == Goal(room, finish) && dec.fed + (bytes + rest) == bytes + rest;
    ThereAndBackMarked(pr, text, AllPackets(text, plan), Goal(room, finish), rest);
    ok, dest, status := InPieces(dec, pieces, room, finish);
  }
}
