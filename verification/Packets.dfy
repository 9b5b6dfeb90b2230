/** What the CRC stages do to a stream of packets. */
module Packets {
  import opened Words
  import Crc

  /** The CRC register after a stream of beats: restarted at the end of every packet. */
  function CrcAfter(bs: seq<Beat>): Dword {
    if bs == [] || Last(bs).last then Crc.INITIAL_CRC
    else Crc.Advance(CrcAfter(Init(bs)), Last(bs).data)
  }

  predicate MidPacket(bs: seq<Beat>) {
    bs != [] && !Last(bs).last
  }

  lemma MidSnoc(bs: seq<Beat>, b: Beat)
    ensures MidPacket(bs + [b]) == !b.last
  {
    Snoc(bs, b);
  }

  /** What one accepted beat adds to the stream with CRCs. */
  function CrcWords(crc: Dword, b: Beat): seq<Beat> {
    [Beat(b.data, false)] + if b.last then [Beat(Crc.Advance(crc, b.data), true)] else []
  }

  /** The stream with the CRC of each packet appended to it. */
  function AppendCrc(bs: seq<Beat>): seq<Beat> {
    if bs == [] then [] else AppendCrc(Init(bs)) + CrcWords(CrcAfter(Init(bs)), Last(bs))
  }

  /** A word handed to the transport layer. */
  datatype RxBeat = RxBeat(data: Dword, last: bool, abort: bool)

  function Held(bs: seq<Beat>): Option<Dword> {
    if MidPacket(bs) then Some(Last(bs).data) else None
  }

  function Release(held: Option<Dword>, crc: Dword, b: Beat): seq<RxBeat> {
    if held.None? then [] else [RxBeat(held.value, b.last, b.last && crc != b.data)]
  }

  /** The stream with CRCs checked and removed: each word waits for the next one. */
  function CheckCrc(bs: seq<Beat>): seq<RxBeat> {
    if bs == [] then []
    else CheckCrc(Init(bs)) + Release(Held(Init(bs)), CrcAfter(Init(bs)), Last(bs))
  }

  /** Beats delivered without abort. */
  function Good(bs: seq<Beat>): (r: seq<RxBeat>)
    ensures |r| == |bs|
  {
    seq(|bs|, i requires 0 <= i < |bs| => RxBeat(bs[i].data, bs[i].last, false))
  }

  lemma AppendSnoc(bs: seq<Beat>, b: Beat)
    ensures AppendCrc(bs + [b]) == AppendCrc(bs) + CrcWords(CrcAfter(bs), b)
  {
    Snoc(bs, b);
  }

  lemma CheckSnoc(bs: seq<Beat>, b: Beat)
    ensures CheckCrc(bs + [b]) == CheckCrc(bs) + Release(Held(bs), CrcAfter(bs), b)
    ensures Held(bs + [b]) == if b.last then None else Some(b.data)
  {
    Snoc(bs, b);
  }

  lemma CrcSnoc(bs: seq<Beat>, b: Beat)
    ensures CrcAfter(bs + [b])
         == if b.last then Crc.INITIAL_CRC else Crc.Advance(CrcAfter(bs), b.data)
  {
    Snoc(bs, b);
  }

  /** Checking `a` gives back `i` without an abort, except that the last word of an
      unfinished packet is still held. */
  ghost predicate Checks(i: seq<Beat>, a: seq<Beat>) {
    && CheckCrc(a) == Good(if MidPacket(i) then Init(i) else i)
    && CrcAfter(a) == CrcAfter(i)
    && Held(a) == Held(i)
  }

  /** Checking undoes appending, on every stream. */
  lemma {:induction false} CheckAppend(bs: seq<Beat>)
    ensures Checks(bs, AppendCrc(bs))
    decreases |bs|
  {
    if bs != [] {
      CheckAppend(Init(bs));
      if Last(bs).last {
        CheckAppendEnd(Init(bs), Last(bs).data);
      } else {
        CheckAppendMiddle(Init(bs), Last(bs).data);
      }
    }
  }

  lemma CheckPayload(i: seq<Beat>, a: seq<Beat>, d: Dword)
    requires Checks(i, a)
    ensures CheckCrc(a + [Beat(d, false)]) == Good(i)
    ensures CrcAfter(a + [Beat(d, false)]) == Crc.Advance(CrcAfter(i), d)
    ensures Held(a + [Beat(d, false)]) == Some(d)
  {
    CheckSnoc(a, Beat(d, false));
    CrcSnoc(a, Beat(d, false));
    ReleaseHeld(i);
  }

  lemma CheckFinalWord(i: seq<Beat>, a: seq<Beat>, d: Dword)
    requires CheckCrc(a) == Good(i) && Held(a) == Some(d)
    ensures Checks(i + [Beat(d, true)], a + [Beat(CrcAfter(a), true)])
  {
    var b, c := Beat(d, true), Beat(CrcAfter(a), true);
    Snoc(i, b);
    CheckSnoc(a, c);
    CrcSnoc(a, c);
    assert Good(i + [b]) == Good(i) + [RxBeat(d, true, false)];
  }

  lemma CheckAppendMiddle(i: seq<Beat>, d: Dword)
    requires Checks(i, AppendCrc(i))
    ensures Checks(i + [Beat(d, false)], AppendCrc(i + [Beat(d, false)]))
  {
    CheckPayload(i, AppendCrc(i), d);
    AppendSnoc(i, Beat(d, false));
    Snoc(i, Beat(d, false));
  }

  lemma CheckAppendEnd(i: seq<Beat>, d: Dword)
    requires Checks(i, AppendCrc(i))
    ensures Checks(i + [Beat(d, true)], AppendCrc(i + [Beat(d, true)]))
  {
    CheckPayload(i, AppendCrc(i), d);
    CheckFinalWord(i, AppendCrc(i) + [Beat(d, false)], d);
    AppendEnd(i, d);
  }

  lemma AppendEnd(i: seq<Beat>, d: Dword)
    ensures AppendCrc(i + [Beat(d, true)])
         == AppendCrc(i) + [Beat(d, false)] + [Beat(Crc.Advance(CrcAfter(i), d), true)]
  {
    AppendSnoc(i, Beat(d, true));
  }

  lemma ReleaseHeld(i: seq<Beat>)
    ensures forall crc, d :: Good(if MidPacket(i) then Init(i) else i)
                             + Release(Held(i), crc, Beat(d, false)) == Good(i)
  {
    if MidPacket(i) {
      assert Good(i) == Good(Init(i)) + [RxBeat(Last(i).data, false, false)];
    }
  }

  lemma {:induction false} CheckPrefix(a: seq<Beat>, b: seq<Beat>)
    requires a <= b
    ensures CheckCrc(a) <= CheckCrc(b)
    decreases |b|
  {
    if |a| < |b| {
      assert a <= Init(b);
      CheckPrefix(a, Init(b));
    } else {
      assert a == b;
    }
  }

  /** The beats of one packet. */
  function PacketBeats(ws: seq<Dword>): (bs: seq<Beat>)
    ensures |bs| == |ws|
  {
    seq(|ws|, i requires 0 <= i < |ws| => Beat(ws[i], i == |ws| - 1))
  }

  function OpenBeats(ws: seq<Dword>): (bs: seq<Beat>)
    ensures |bs| == |ws|
  {
    seq(|ws|, i requires 0 <= i < |ws| => Beat(ws[i], false))
  }

  lemma {:induction false} OpenBeatsCrc(before: seq<Beat>, ws: seq<Dword>)
    requires !MidPacket(before)
    ensures CrcAfter(before + OpenBeats(ws)) == Crc.CrcOf(ws)
    decreases |ws|
  {
    if ws == [] {
      assert before + OpenBeats(ws) == before;
    } else {
      var x := Beat(Last(ws), false);
      assert before + OpenBeats(ws) == (before + OpenBeats(Init(ws))) + [x];
      Snoc(before + OpenBeats(Init(ws)), x);
      OpenBeatsCrc(before, Init(ws));
    }
  }

  /** The verdict on a received packet of at least one payload word is its CRC:
      it is aborted on its last word exactly when it is not intact. */
  lemma AbortIffDamaged(before: seq<Beat>, ws: seq<Dword>)
    requires !MidPacket(before) && |ws| >= 2
    ensures var r := CheckCrc(before + PacketBeats(ws));
            r != [] && Last(r) == RxBeat(ws[|ws| - 2], true, !Crc.Intact(ws))
  {
    var a := before + OpenBeats(Init(ws));
    PacketShape(before, ws);
    OpenBeatsCrc(before, Init(ws));
    Verdict(a, Last(ws));
  }

  lemma PacketShape(before: seq<Beat>, ws: seq<Dword>)
    requires |ws| >= 2
    ensures before + PacketBeats(ws) == before + OpenBeats(Init(ws)) + [Beat(Last(ws), true)]
    ensures Last(before + OpenBeats(Init(ws))) == Beat(ws[|ws| - 2], false)
  {
  }

  lemma Verdict(a: seq<Beat>, crc: Dword)
    requires MidPacket(a)
    ensures var r := CheckCrc(a + [Beat(crc, true)]);
            r != [] && Last(r) == RxBeat(Last(a).data, true, CrcAfter(a) != crc)
  {
    CheckSnoc(a, Beat(crc, true));
  }
}
