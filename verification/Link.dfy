/** The link layer end to end. */
module LinkCodec {
  import opened Words
  import opened Packets
  import opened Crc
  import opened Scrambler
  import opened Framing
  import opened TxPacketStage
  import opened RxScramblerStage
  import opened RxPacketStage

  /** The beats a receiver can already be sure of: the last word of an unfinished
      packet is held back. */
  function Finished(bs: seq<Beat>): seq<Beat> {
    if MidPacket(bs) then Init(bs) else bs
  }

  lemma SwapAllTwice(little: bool, bs: seq<Beat>)
    ensures SwapAll(little, SwapAll(little, bs)) == bs
  {
    hide SwapEndian;
    forall i | 0 <= i < |bs| ensures SwapAll(little, SwapAll(little, bs))[i] == bs[i] {
      SwapTwice(little, bs[i].data);
    }
  }

  lemma SwapGood(little: bool, bs: seq<Beat>)
    ensures SwapRx(little, Good(Finished(SwapAll(little, bs)))) == Good(Finished(bs))
  {
    hide SwapEndian;
    forall i | 0 <= i < |bs| ensures SwapEndian(little, SwapEndian(little, bs[i].data)) == bs[i].data {
      SwapTwice(little, bs[i].data);
    }
  }

  /** Round trip of the codec, with both sides configured to scramble and to check:
      every packet comes back whole, with its last mark and without an abort. */
  lemma DecodeEncode(little: bool, bs: seq<Beat>)
    ensures Decode(little, true, Encode(little, bs)) == Good(Finished(bs))
  {
    hide SwapAll, SwapRx, Scramble, AppendCrc, CheckCrc, CrcAfter, Held, MidPacket, Good;
    var a := AppendCrc(SwapAll(little, bs));
    SwapAllTwice(little, Scramble(a));
    ScrambleTwice(a);
    CheckAppend(SwapAll(little, bs));
    SwapGood(little, bs);
  }

  // ---- Errors on the line ----

  /** The words of one packet under the scrambler, which starts afresh with each packet. */
  function Masked(ws: seq<Dword>): (r: seq<Dword>)
    ensures |r| == |ws|
  {
    if ws == [] then [] else Masked(Init(ws)) + [Xor(Last(ws), Prn(FillAt(|ws| - 1)))]
  }

  lemma {:induction false} ScrambleOpen(before: seq<Beat>, ws: seq<Dword>)
    requires !MidPacket(before)
    ensures Scramble(before + OpenBeats(ws)) == Scramble(before) + OpenBeats(Masked(ws))
    ensures FillAfter(before + OpenBeats(ws)) == FillAt(|ws|)
    decreases |ws|
  {
    hide Prn, NextFill, Xor, MidPacket, Scramble, FillAfter, OpenBeats;
    if ws == [] {
      NoOpenBeats(before);
      NoOpenBeats(Scramble(before));
      FillAtStart(before);
    } else {
      var i, x := Init(ws), Beat(Last(ws), false);
      ScrambleOpen(before, i);
      MaskedSnoc(i, Last(ws));
      OneMore(before, i, Last(ws));
      ScrambleSnoc(before + OpenBeats(i), x);
      OneMore(Scramble(before), Masked(i), Last(Masked(ws)));
    }
  }

  lemma NoOpenBeats(before: seq<Beat>)
    ensures before + OpenBeats([]) == before
  {
  }

  lemma OneMore(before: seq<Beat>, ws: seq<Dword>, w: Dword)
    ensures before + OpenBeats(ws + [w]) == (before + OpenBeats(ws)) + [Beat(w, false)]
  {
    assert OpenBeats(ws + [w]) == OpenBeats(ws) + [Beat(w, false)];
  }

  lemma ScramblePacket(before: seq<Beat>, ws: seq<Dword>)
    requires !MidPacket(before) && ws != []
    ensures Scramble(before + PacketBeats(ws)) == Scramble(before) + PacketBeats(Masked(ws))
  {
    hide Prn, NextFill, Xor, Scramble, FillAfter, FillAt;
    var i, x := Init(ws), Beat(Last(ws), true);
    ScrambleOpen(before, i);
    PacketIsOpen(before, ws);
    ScrambleSnoc(before + OpenBeats(i), x);
    PacketIsOpen(Scramble(before), Masked(ws));
    MaskedSnoc(i, Last(ws));
  }

  lemma MaskedSnoc(ws: seq<Dword>, w: Dword)
    ensures Masked(ws + [w]) == Masked(ws) + [Xor(w, Prn(FillAt(|ws|)))]
  {
    Snoc(ws, w);
  }

  lemma PacketIsOpen(before: seq<Beat>, ws: seq<Dword>)
    requires ws != []
    ensures before + PacketBeats(ws) == (before + OpenBeats(Init(ws))) + [Beat(Last(ws), true)]
  {
  }

  lemma {:induction false} AppendOpen(before: seq<Beat>, ws: seq<Dword>)
    requires !MidPacket(before)
    ensures AppendCrc(before + OpenBeats(ws)) == AppendCrc(before) + OpenBeats(ws)
    decreases |ws|
  {
    hide CrcAfter, Init, Last, MidPacket;
    if ws == [] {
      assert before + OpenBeats(ws) == before && AppendCrc(before) + OpenBeats([]) == AppendCrc(before);
    } else {
      var i, x := Init(ws), Beat(Last(ws), false);
      AppendOpen(before, i);
      assert before + OpenBeats(ws) == (before + OpenBeats(i)) + [x];
      AppendSnoc(before + OpenBeats(i), x);
    }
  }

  lemma AppendPacket(before: seq<Beat>, ws: seq<Dword>)
    requires !MidPacket(before) && ws != []
    ensures AppendCrc(before + PacketBeats(ws)) == AppendCrc(before) + PacketBeats(ws + [CrcOf(ws)])
  {
    hide CrcAfter, Advance, AppendCrc;
    var i, x := Init(ws), Beat(Last(ws), true);
    AppendOpen(before, i);
    PacketIsOpen(before, ws);
    AppendSnoc(before + OpenBeats(i), x);
    OpenBeatsCrc(before, i);
    assert Init(ws + [CrcOf(ws)]) == ws;
    PacketIsOpen(AppendCrc(before), ws + [CrcOf(ws)]);
    assert OpenBeats(ws) == OpenBeats(i) + [Beat(Last(ws), false)];
  }

  /** Descrambling passes bit errors on unchanged, each in its place. */
  lemma {:induction false} MaskedKeepsErrors(a: seq<Dword>, b: seq<Dword>, j: nat)
    requires |a| == |b| && j < 32 * |a|
    ensures (WordBits(Masked(a))[j] == WordBits(Masked(b))[j]) <==> (WordBits(a)[j] == WordBits(b)[j])
    decreases |a|
  {
    hide Prn, FillAt, Xor;
    var m := Prn(FillAt(|a| - 1));
    WordBitsLast(a);
    WordBitsLast(b);
    WordBitsLast(Masked(a));
    WordBitsLast(Masked(b));
    hide WordBits;
    if j < 32 * (|a| - 1) {
      MaskedKeepsErrors(Init(a), Init(b), j);
    } else {
      XorBit(Last(a), m, j - 32 * (|a| - 1));
      XorBit(Last(b), m, j - 32 * (|a| - 1));
    }
  }

  lemma WordBitsLast(ws: seq<Dword>)
    ensures ws != [] ==> WordBits(ws) == WordBits(Init(ws)) + Unpack(Last(ws))
  {
  }

  lemma XorBit(a: Dword, m: Dword, i: nat)
    requires i < 32
    ensures Unpack(Xor(a, m))[i] == (Unpack(a)[i] != Unpack(m)[i])
  {
    UnpackPack(XorBits(Unpack(a), Unpack(m)));
  }

  lemma BurstUnmasked(a: seq<Dword>, b: seq<Dword>)
    requires |a| == |b| && Burst(WordBits(a), WordBits(b))
    ensures Burst(WordBits(Masked(a)), WordBits(Masked(b)))
  {
    hide WordBits, Masked;
    var x, y := WordBits(Masked(a)), WordBits(Masked(b));
    var i: nat :| BurstAt(WordBits(a), WordBits(b), i);
    forall j: nat | j < |x| ensures (x[j] == y[j]) <==> (WordBits(a)[j] == WordBits(b)[j]) {
      MaskedKeepsErrors(a, b, j);
    }
    SamePrefix(WordBits(a), WordBits(b), x, y, i);
    assert BurstAt(x, y, i);
  }

  lemma SamePrefix(a: seq<bool>, b: seq<bool>, x: seq<bool>, y: seq<bool>, i: nat)
    requires |a| == |b| == |x| == |y| && i <= |a| && a[..i] == b[..i]
    requires forall j: nat :: j < |x| ==> ((x[j] == y[j]) <==> (a[j] == b[j]))
    ensures x[..i] == y[..i]
  {
    forall j: nat | j < i ensures x[j] == y[j] {
      assert a[..i][j] == b[..i][j];
    }
  }

  lemma {:induction false} MaskedTwice(ws: seq<Dword>)
    ensures Masked(Masked(ws)) == ws
    decreases |ws|
  {
    hide Prn, FillAt, Xor;
    if ws != [] {
      MaskedTwice(Init(ws));
      XorTwice(Last(ws), Prn(FillAt(|ws| - 1)));
      assert Init(Masked(ws)) == Masked(Init(ws));
    }
  }

  /** The contents of the frames on the line when the last one carries `words`. */
  function OnLine(little: bool, before: seq<Beat>, words: seq<Dword>): seq<Beat> {
    Encode(little, before) + SwapAll(little, PacketBeats(words))
  }

  lemma SwapConcat(little: bool, a: seq<Beat>, b: seq<Beat>)
    ensures SwapAll(little, a + b) == SwapAll(little, a) + SwapAll(little, b)
  {
    hide SwapEndian;
  }

  /** A sender puts the masked payload and its CRC on the line. */
  lemma SentOnLine(little: bool, before: seq<Beat>, payload: seq<Dword>)
    requires !MidPacket(before) && payload != []
    ensures Encode(little, before + SwapAll(little, PacketBeats(payload)))
         == OnLine(little, before, Masked(payload + [CrcOf(payload)]))
  {
    hide SwapAll, Scramble, AppendCrc, MidPacket, Masked;
    var b, p := SwapAll(little, before), PacketBeats(payload);
    MidSwap(little, before);
    MidAppend(b);
    SwapConcat(little, before, SwapAll(little, p));
    SwapAllTwice(little, p);
    AppendPacket(b, payload);
    ScramblePacket(AppendCrc(b), payload + [CrcOf(payload)]);
    SwapConcat(little, Scramble(AppendCrc(b)), PacketBeats(Masked(payload + [CrcOf(payload)])));
  }

  /** CRC strength at the link. Let the words of a frame change on the line in nothing
      but one window of 32 consecutive bits, at any offset and across word
      boundaries: the transport layer is handed the packet with an abort on its last
      word, and everything before it unharmed. */
  lemma BurstAborts(little: bool, before: seq<Beat>, payload: seq<Dword>, line: seq<Dword>)
    requires !MidPacket(before) && payload != [] && |line| == |payload| + 1
    requires Burst(WordBits(Masked(payload + [CrcOf(payload)])), WordBits(line))
    ensures var out := Decode(little, true, OnLine(little, before, line));
            out != [] && Last(out).last && Last(out).abort && Good(before) <= out
  {
    hide SwapAll, SwapRx, Scramble, AppendCrc, MidPacket, Masked, CheckCrc, Encode, OnLine, Decode, Init, Last;
    DamagedInCheck(little, before, payload, line);
    DecodeOf(little, OnLine(little, before, line));
    SwapRxLast(little, CheckCrc(Scramble(SwapAll(little, OnLine(little, before, line)))));
    DecodeEncode(little, before);
    EncodeFirst(little, before, line);
    DecodePrefix(little, true, Encode(little, before), OnLine(little, before, line));
    FinishedAll(before);
  }

  lemma FinishedAll(bs: seq<Beat>)
    ensures !MidPacket(bs) ==> Finished(bs) == bs
  {
  }

  lemma EncodeFirst(little: bool, before: seq<Beat>, line: seq<Dword>)
    ensures Encode(little, before) <= OnLine(little, before, line)
  {
    hide Encode, SwapAll;
  }

  lemma DecodeOf(little: bool, bs: seq<Beat>)
    ensures Decode(little, true, bs) == SwapRx(little, CheckCrc(Scramble(SwapAll(little, bs))))
  {
  }

  lemma SwapRxLast(little: bool, r: seq<RxBeat>)
    ensures r != [] ==> SwapRx(little, r) != [] && Last(SwapRx(little, r)).last == Last(r).last
                        && Last(SwapRx(little, r)).abort == Last(r).abort
  {
    hide SwapEndian;
  }

  lemma DamagedInCheck(little: bool, before: seq<Beat>, payload: seq<Dword>, line: seq<Dword>)
    requires !MidPacket(before) && payload != [] && |line| == |payload| + 1
    requires Burst(WordBits(Masked(payload + [CrcOf(payload)])), WordBits(line))
    ensures var r := CheckCrc(Scramble(SwapAll(little, OnLine(little, before, line))));
            r != [] && Last(r).last && Last(r).abort
  {
    hide SwapAll, Scramble, AppendCrc, MidPacket, Masked, CheckCrc, WordBits, Burst, Intact, CrcOf, OnLine, Last;
    var sent := payload + [CrcOf(payload)];
    ReceivedLine(little, before, line);
    AbortIffDamaged(AppendCrc(SwapAll(little, before)), Masked(line));
    BurstUnmasked(Masked(sent), line);
    MaskedTwice(sent);
    IntactSent(payload);
    BurstDetected(sent, Masked(line));
  }

  lemma IntactSent(payload: seq<Dword>)
    ensures Intact(payload + [CrcOf(payload)])
  {
    Snoc(payload, CrcOf(payload));
  }

  lemma ReceivedLine(little: bool, before: seq<Beat>, line: seq<Dword>)
    requires !MidPacket(before) && line != []
    ensures var a := AppendCrc(SwapAll(little, before));
            && !MidPacket(a)
            && Scramble(SwapAll(little, OnLine(little, before, line))) == a + PacketBeats(Masked(line))
  {
    hide SwapAll, Scramble, AppendCrc, MidPacket, Masked;
    var a := AppendCrc(SwapAll(little, before));
    MidSwap(little, before);
    MidAppend(SwapAll(little, before));
    SwapConcat(little, Encode(little, before), SwapAll(little, PacketBeats(line)));
    SwapAllTwice(little, Scramble(a));
    SwapAllTwice(little, PacketBeats(line));
    ScramblePacket(Scramble(a), line);
    ScrambleTwice(a);
  }
}
