/** The device's frame codec in bench/cpp/satasim.cpp, and its agreement with the design. */
module DeviceModel {
  import opened Words
  import opened Crc
  import opened Packets
  import opened Scrambler
  import opened Framing
  import opened TxPacketStage
  import opened RxPacketStage
  import opened LinkCodec

  const FIS_TYPE_DATA := 0x46

  /** The codec state of SATASIM. */
  class SataSim {
    var fill: Fill             // m_scrambler_fill
    var crc: Dword             // m_crc
    var dataCount: nat
    var crcMatched: bool
    var dataResponse: bool
    ghost var words: seq<Dword>  // of the frame so far, descrambled

    /** The scrambler and the CRC follow the words of the frame. */
    ghost predicate Valid()
      reads this
    {
      && fill == FillAt(|words|) && crc == CrcOf(words)
      && (dataCount == 0 <==> words == [])
      && crcMatched == (|words| >= 2 && Intact(words))
    }

    constructor ()
      ensures Valid() && words == []
    {
      fill, crc, dataCount, crcMatched, dataResponse := INITIAL, INITIAL_CRC, 0, false, false;
      words := [];
    }

    method ResetDataBuffer()
      modifies this
      ensures Valid() && words == [] && dataResponse == old(dataResponse)
    {
      fill, crc, dataCount, crcMatched := INITIAL, INITIAL_CRC, 0, false;
      words := [];
    }

    method ScrambleData(data: Dword) returns (r: Dword)
      modifies `fill
      ensures r == Xor(data, Prn(old(fill))) && fill == NextFill(old(fill))
    {
      hide Prn, NextFill, Xor;
      var prn, next := ScrambleWord(fill);
      fill := next;
      r := Xor(data, prn);
    }

    /** device_link_sends for a payload word; the callers count the words. */
    method Sends(data: Dword) returns (line: Dword)
      requires fill == FillAt(|words|) && crc == CrcOf(words)
      modifies `fill, `crc, `words
      ensures words == old(words) + [data] && fill == FillAt(|words|) && crc == CrcOf(words)
      ensures line == SwapEndian(false, Last(Masked(words)))
    {
      hide Prn, NextFill, Xor, SwapEndian, Advance;
      MaskedSnoc(words, data);
      CrcOfSnoc(words, data);
      var r := ScrambleData(data);
      line := SwapEndian(false, r);
      crc := AdvanceCrc(crc, data);
      words := words + [data];
    }

    /** device_link_sends for the CRC that ends a frame. */
    method SendsLast() returns (line: Dword)
      requires fill == FillAt(|words|) && crc == CrcOf(words)
      modifies `fill
      ensures line == SwapEndian(false, Last(Masked(words + [CrcOf(words)])))
    {
      hide Prn, NextFill, Xor, SwapEndian, Advance, CrcOf;
      MaskedSnoc(words, crc);
      var r := ScrambleData(crc);
      line := SwapEndian(false, r);
    }

    /** A whole frame, as the response functions send it: what goes on the line are the
        masked words of the payload and its CRC. */
    method SendFrame(payload: seq<Dword>) returns (line: seq<Dword>)
      modifies this
      ensures line == SwapWords(Masked(payload + [CrcOf(payload)]))
    {
      hide Prn, FillAt, Xor, SwapEndian, CrcOf;
      ResetDataBuffer();
      line := [];
      assert line == SwapWords(Masked([]));
      for k := 0 to |payload|
        invariant words == payload[..k] && fill == FillAt(|words|) && crc == CrcOf(words)
        invariant line == SwapWords(Masked(payload[..k]))
      {
        assert payload[..k + 1] == payload[..k] + [payload[k]];
        SwapWordsSnoc(payload[..k], payload[k]);
        var w := Sends(payload[k]);
        line := line + [w];
      }
      assert payload[..|payload|] == payload;
      SwapWordsSnoc(payload, CrcOf(payload));
      var w := SendsLast();
      line := line + [w];
    }

    /** device_link_receives for a data word. */
    method Receives(line: Dword)
      requires Valid()
      modifies this
      ensures Valid() && words == old(words) + [Xor(SwapEndian(false, line), Prn(FillAt(|old(words)|)))]
      ensures dataResponse == (old(dataResponse) || (old(words) == [] && Last(words) % 0x100 == 0x46))
      ensures dataCount == if old(words) == [] then 1
                           else old(dataCount) + if !crcMatched && dataResponse then 1 else 0
    {
      hide Prn, NextFill, Xor, SwapEndian, Advance, Intact, CrcOf, FillAt;
      if dataCount == 0 { ResetDataBuffer(); }
      ghost var before := words;
      FillAtNext(|words|);
      var first := dataCount == 0;
      var raw := ScrambleData(SwapEndian(false, line));
      CrcOfSnoc(before, raw);
      IntactLast(before, raw);
      if first {
        dataCount := 1;
        if raw % 0x100 == FIS_TYPE_DATA { dataResponse := true; }
      } else {
        crcMatched := raw == crc;
        if !crcMatched {
          if dataResponse { dataCount := dataCount + 1; }
        }
      }
      crc := AdvanceCrc(crc, raw);
      words := words + [raw];
    }

    /** A whole frame. The device finds its CRC good exactly when the words, unmasked,
        end in the CRC of those before: any burst on the line is noticed here too. */
    method ReceiveFrame(line: seq<Dword>)
      modifies this
      ensures Valid() && words == Masked(SwapWords(line))
      ensures crcMatched <==> |line| >= 2 && Intact(Masked(SwapWords(line)))
    {
      hide Prn, FillAt, Xor, SwapEndian, CrcOf, Intact, Masked, SwapWords;
      ResetDataBuffer();
      NoWords(line);
      for k := 0 to |line|
        invariant Valid() && words == Masked(SwapWords(line[..k]))
      {
        NextWord(line, k);
        Receives(line[k]);
      }
      assert line[..|line|] == line;
    }
  }

  function SwapWords(ws: seq<Dword>): (r: seq<Dword>)
    ensures |r| == |ws|
  {
    seq(|ws|, i requires 0 <= i < |ws| => SwapEndian(false, ws[i]))
  }

  lemma SwapWordsSnoc(ws: seq<Dword>, w: Dword)
    ensures SwapWords(Masked(ws + [w])) == SwapWords(Masked(ws)) + [SwapEndian(false, Last(Masked(ws + [w])))]
  {
    hide SwapEndian, Masked, Prn, FillAt, Xor;
    MaskedSnoc(ws, w);
  }

  lemma FillAtNext(k: nat)
    ensures FillAt(k + 1) == NextFill(FillAt(k))
  {
    hide NextFill;
  }

  lemma CrcOfSnoc(ws: seq<Dword>, w: Dword)
    ensures CrcOf(ws + [w]) == Advance(CrcOf(ws), w)
  {
    hide Advance;
    Snoc(ws, w);
  }

  lemma IntactLast(ws: seq<Dword>, w: Dword)
    ensures Intact(ws + [w]) == (CrcOf(ws) == w)
  {
    Snoc(ws, w);
  }

  lemma NoWords(line: seq<Dword>)
    ensures Masked(SwapWords(line[..0])) == []
  {
  }

  lemma NextWord(line: seq<Dword>, k: nat)
    requires k < |line|
    ensures |Masked(SwapWords(line[..k]))| == k
    ensures Masked(SwapWords(line[..k + 1]))
         == Masked(SwapWords(line[..k])) + [Xor(SwapEndian(false, line[k]), Prn(FillAt(k)))]
  {
    hide SwapEndian, Xor, Prn, FillAt;
    assert SwapWords(line[..k + 1]) == SwapWords(line[..k]) + [SwapEndian(false, line[k])];
    MaskedSnoc(SwapWords(line[..k]), SwapEndian(false, line[k]));
  }

  lemma SwapWordsTwice(ws: seq<Dword>)
    ensures SwapWords(SwapWords(ws)) == ws
  {
    hide SwapEndian;
    forall i | 0 <= i < |ws| ensures SwapWords(SwapWords(ws))[i] == ws[i] {
      SwapTwice(false, ws[i]);
    }
  }

  lemma SwapPacket(ws: seq<Dword>)
    ensures SwapAll(false, PacketBeats(ws)) == PacketBeats(SwapWords(ws))
  {
    hide SwapEndian;
  }

  /** What the design's packetizer puts on the line for a payload, behind whole packets, the
      device takes in as that payload, with its CRC found good after the last word. */
  lemma HostToDevice(before: seq<Beat>, payload: seq<Dword>)
    requires !MidPacket(before) && payload != []
    ensures var line := SwapWords(Masked(payload + [CrcOf(payload)]));
            && Encode(false, before + SwapAll(false, PacketBeats(payload)))
               == Encode(false, before) + PacketBeats(line)
            && Masked(SwapWords(line)) == payload + [CrcOf(payload)] && Intact(Masked(SwapWords(line)))
  {
    hide SwapWords, Masked, SwapAll, Encode, MidPacket;
    var sent := payload + [CrcOf(payload)];
    SentOnLine(false, before, payload);
    SwapPacket(Masked(sent));
    SwapWordsTwice(Masked(sent));
    MaskedTwice(sent);
    IntactSent(payload);
  }

  lemma {:induction false} CheckOpen(before: seq<Beat>, ws: seq<Dword>)
    requires !MidPacket(before)
    ensures CheckCrc(before + OpenBeats(ws)) == CheckCrc(before) + Good(OpenBeats(if ws == [] then [] else Init(ws)))
    ensures Held(before + OpenBeats(ws)) == if ws == [] then None else Some(Last(ws))
    decreases |ws|
  {
    hide CrcAfter, CheckCrc, MidPacket;
    if ws == [] {
      assert before + OpenBeats(ws) == before && CheckCrc(before) + Good(OpenBeats([])) == CheckCrc(before);
    } else {
      var i, x := Init(ws), Beat(Last(ws), false);
      CheckOpen(before, i);
      assert before + OpenBeats(ws) == (before + OpenBeats(i)) + [x];
      CheckSnoc(before + OpenBeats(i), x);
      if i != [] {
        assert Good(OpenBeats(i)) == Good(OpenBeats(Init(i))) + [RxBeat(Last(i), false, false)];
      }
    }
  }

  /** Behind whole packets, a packet that ends in its CRC is delivered without it, unaborted. */
  lemma CheckPacket(before: seq<Beat>, ws: seq<Dword>)
    requires !MidPacket(before) && ws != []
    ensures CheckCrc(before + PacketBeats(ws + [CrcOf(ws)])) == CheckCrc(before) + Good(PacketBeats(ws))
  {
    hide CrcAfter, CheckCrc, MidPacket, CrcOf;
    var c := CrcOf(ws);
    PacketIsOpen(before, ws + [c]);
    assert Init(ws + [c]) == ws;
    CheckOpen(before, ws);
    OpenBeatsCrc(before, ws);
    CheckSnoc(before + OpenBeats(ws), Beat(c, true));
    assert Good(PacketBeats(ws)) == Good(OpenBeats(Init(ws))) + [RxBeat(Last(ws), true, false)];
  }

  /** What the device sends, the design's receive path hands to the transport layer as
      that payload, unchanged and without an abort, behind whatever whole frames came before. */
  lemma DeviceToHost(before: seq<Beat>, payload: seq<Dword>)
    requires !MidPacket(before) && payload != []
    ensures var line := SwapWords(Masked(payload + [CrcOf(payload)]));
            Decode(false, true, before + PacketBeats(line))
            == Decode(false, true, before) + SwapRx(false, Good(PacketBeats(payload)))
  {
    hide SwapWords, Masked, SwapAll, Scramble, CheckCrc, MidPacket, CrcOf, SwapRx, Good;
    var sent, b := payload + [CrcOf(payload)], SwapAll(false, before);
    SwapPacket(SwapWords(Masked(sent)));
    SwapWordsTwice(Masked(sent));
    SwapConcat(false, before, PacketBeats(SwapWords(Masked(sent))));
    MidSwap(false, before);
    ScramblePacket(b, Masked(sent));
    MaskedTwice(sent);
    MidScramble(b);
    CheckPacket(Scramble(b), payload);
    SwapRxConcat(CheckCrc(Scramble(b)), Good(PacketBeats(payload)));
    DecodeOf(false, before);
    DecodeOf(false, before + PacketBeats(SwapWords(Masked(sent))));
  }

  lemma MidScramble(bs: seq<Beat>)
    ensures MidPacket(Scramble(bs)) == MidPacket(bs)
  {
    if bs != [] { ScrambleSnoc(Init(bs), Last(bs)); }
  }

  lemma SwapRxConcat(a: seq<RxBeat>, b: seq<RxBeat>)
    ensures SwapRx(false, a + b) == SwapRx(false, a) + SwapRx(false, b)
  {
    hide SwapEndian;
  }
}
