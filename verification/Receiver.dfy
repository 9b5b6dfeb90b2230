/** The packet receiver and the link state machine of rtl/sata_link.v side by side: how a frame
    from the line is answered. */
module LinkReceiver {
  import opened Words
  import opened Packets
  import Crc
  import opened Framing
  import opened Scrambler
  import opened TxPacketStage
  import opened RxFramerStage
  import opened RxScramblerStage
  import opened RxCrcStage
  import opened RxPacketStage
  import opened LinkFsmStage
  import opened LinkCodec

  // ---- The packet at the end of a stream ----

  /** The words of the packet that is open at the end of a stream. */
  function OpenWords(bs: seq<Beat>): seq<Dword> {
    if MidPacket(bs) then OpenWords(Init(bs)) + [Last(bs).data] else []
  }

  /** The words of the packet that ends the stream. */
  function LastPacket(bs: seq<Beat>): seq<Dword>
    requires bs != []
  {
    OpenWords(Init(bs)) + [Last(bs).data]
  }

  lemma {:induction false} OpenCrc(bs: seq<Beat>)
    ensures CrcAfter(bs) == Crc.CrcOf(OpenWords(bs)) && (MidPacket(bs) <==> OpenWords(bs) != [])
    decreases |bs|
  {
    hide Crc.Advance;
    if MidPacket(bs) {
      var i := Init(bs);
      OpenCrc(i);
      CrcSnoc(i, Last(bs));
      Snoc(OpenWords(i), Last(bs).data);
    } else {
      IdleAfter(bs);
    }
  }

  lemma IdleAfter(bs: seq<Beat>)
    requires !MidPacket(bs)
    ensures CrcAfter(bs) == Crc.INITIAL_CRC
  {
  }

  /** With two words of a packet through, what was released last is neither its last nor aborted. */
  lemma OpenChecks(bs: seq<Beat>)
    requires |OpenWords(bs)| >= 2
    ensures CheckCrc(bs) != [] && !Last(CheckCrc(bs)).last && !Last(CheckCrc(bs)).abort
  {
    hide CheckCrc, CrcAfter;
    var i := Init(bs);
    OpenCrc(i);
    CheckSnoc(i, Last(bs));
  }

  /** At its end the packet is judged by its CRC. */
  lemma EndChecks(bs: seq<Beat>)
    requires bs != [] && Last(bs).last && |LastPacket(bs)| >= 2
    ensures var r := CheckCrc(bs);
            r != [] && Last(r).last && Last(r).abort == !Crc.Intact(LastPacket(bs))
  {
    hide CheckCrc, CrcAfter, Crc.CrcOf;
    var i, d := Init(bs), Last(bs).data;
    OpenCrc(i);
    Verdict(i, d);
    assert bs == i + [Beat(d, true)];
    Snoc(OpenWords(i), d);
  }

  lemma OpenSnoc(bs: seq<Beat>, w: Dword)
    ensures OpenWords(bs + [Beat(w, false)]) == OpenWords(bs) + [w]
  {
    Snoc(bs, Beat(w, false));
  }

  lemma {:induction false} OpenBehind(before: seq<Beat>, ws: seq<Dword>)
    requires !MidPacket(before)
    ensures OpenWords(before + OpenBeats(ws)) == ws
    decreases |ws|
  {
    hide OpenBeats;
    if ws == [] {
      NoOpenBeats(before);
    } else {
      OpenBehind(before, Init(ws));
      OneMore(before, Init(ws), Last(ws));
      OpenSnoc(before + OpenBeats(Init(ws)), Last(ws));
    }
  }

  /** A frame with these words on the line ends the receiver's contents with their descrambled
      form, behind whole packets. */
  lemma FrameOnLine(little: bool, before: seq<Beat>, line: seq<Dword>)
    requires !MidPacket(before) && line != []
    ensures EndsWith(Descramble(true, SwapAll(little, OnLine(little, before, line))), Masked(line))
  {
    hide SwapAll, Scramble, AppendCrc, MidPacket, Masked, OnLine, OpenWords;
    var a, ws := AppendCrc(SwapAll(little, before)), Masked(line);
    ReceivedLine(little, before, line);
    PacketIsOpen(a, ws);
    OpenBehind(a, Init(ws));
    Snoc(a + OpenBeats(Init(ws)), Beat(Last(ws), true));
  }

  // ---- The way of a frame through the receiver ----

  /** The stream ends with the packet of these words. */
  predicate EndsWith(bs: seq<Beat>, words: seq<Dword>) {
    bs != [] && Last(bs).last && LastPacket(bs) == words
  }

  /** All that the framer has handed on, descrambled. */
  ghost function Contents(rx: RxPacket): seq<Beat>
    reads rx, rx.framer
  {
    Descramble(rx.scrambler.scramblerEn, SwapAll(rx.little, rx.framer.produced))
  }

  /** Where the end of a frame is, so many clocks after its EOF. */
  ghost predicate Stage(rx: RxPacket, age: nat, words: seq<Dword>)
    reads rx, rx.framer, rx.scrambler, rx.crc
  {
    if age == 0 then rx.framer.mValid && EndsWith(Contents(rx), words)
    else if age == 1 then rx.scrambler.mValid && EndsWith(rx.scrambler.produced, words)
    else rx.crc.mLast && rx.crc.mAbort == !Crc.Intact(words)
  }

  /** The beat on show at the framer is the one the descrambler lacks. */
  lemma ContentsBehind(rx: RxPacket)
    requires rx.Valid() && rx.Clean()
    ensures rx.framer.mValid ==> Contents(rx) != [] && rx.scrambler.produced == Init(Contents(rx))
    ensures !rx.framer.mValid ==> rx.scrambler.produced == Contents(rx)
  {
    hide Deframe, SwapAll, Scramble, FillAfter, Xor, Prn, RxCrc.Valid, RxFramer.Valid;
    var taken, beat := rx.scrambler.accepted, SwapBeat(rx.little, Beat(rx.framer.mData, rx.framer.mLast));
    ScrambleSnoc(taken, beat);
    Snoc(taken, beat);
    Snoc(Scramble(taken), Beat(Xor(beat.data, Prn(FillAfter(taken))), beat.last));
  }

  /** The beat on show at the descrambler is the one the checker lacks. */
  lemma CheckedBehind(rx: RxPacket)
    requires rx.Valid() && rx.Clean()
    ensures rx.scrambler.mValid ==> rx.scrambler.produced != [] && rx.crc.accepted == Init(rx.scrambler.produced)
    ensures !rx.scrambler.mValid ==> rx.crc.accepted == rx.scrambler.produced
    ensures rx.crc.produced == CheckCrc(rx.crc.accepted) && Shows(rx.crc.produced, rx.crc.mLast, rx.crc.mAbort)
  {
    hide Deframe, SwapAll, RxScrambler.Valid, RxFramer.Valid, CheckCrc, Shows;
    Snoc(rx.crc.accepted, Beat(rx.scrambler.mData, rx.scrambler.mLast));
  }

  /** Until then the receiver judges nothing, if the frame has four words, the CRC included:
      that many clear the last mark of the frame before. */
  lemma NotYet(rx: RxPacket, age: nat, words: seq<Dword>)
    requires rx.Valid() && rx.Clean() && Stage(rx, age, words) && age < 2 && |words| >= 4
    ensures !rx.crc.mLast && !rx.crc.mAbort
  {
    hide CheckCrc, RxPacket.Valid, RxPacket.Clean, Contents, MidPacket;
    ContentsBehind(rx);
    CheckedBehind(rx);
    if age == 0 { FewerOpen(rx.scrambler.produced); }
    OpenChecks(rx.crc.accepted);
  }

  lemma FewerOpen(bs: seq<Beat>)
    ensures bs != [] ==> |OpenWords(bs)| <= |OpenWords(Init(bs))| + 1
  {
  }

  /** What a clock of the receiver does to the descrambled beats and those checked: each stage has
      what the one before had, and its output grows by the beat it shows. */
  lemma StagesMove(rx: RxPacket, framed: seq<Beat>, contents: seq<Beat>, sent: seq<Beat>)
    requires rx.Valid() && rx.Clean()
    requires contents == Descramble(rx.scrambler.scramblerEn, SwapAll(rx.little, framed))
    requires rx.framer.produced == Push(framed, rx.framer.mValid, Beat(rx.framer.mData, rx.framer.mLast))
    requires rx.scrambler.produced
             == Push(sent, rx.scrambler.mValid, Beat(rx.scrambler.mData, rx.scrambler.mLast))
    ensures rx.scrambler.produced == contents && rx.crc.accepted == sent
    ensures rx.framer.mValid ==> Contents(rx) != [] && Last(Contents(rx)).last == rx.framer.mLast
  {
    hide Deframe, SwapEndian, RxFramer.Valid, RxScrambler.Valid, RxCrc.Valid, CheckCrc, Xor, Prn;
    var beat := Beat(rx.framer.mData, rx.framer.mLast);
    ContentsBehind(rx);
    CheckedBehind(rx);
    SwapPush(rx.little, framed, rx.framer.mValid, beat);
    DescramblePush(rx.scrambler.scramblerEn, SwapAll(rx.little, framed), SwapBeat(rx.little, beat));
    Snoc(sent, Beat(rx.scrambler.mData, rx.scrambler.mLast));
  }

  lemma DescramblePush(en: bool, bs: seq<Beat>, b: Beat)
    ensures var r := Descramble(en, bs + [b]);
            r != [] && Init(r) == Descramble(en, bs) && Last(r).last == b.last
  {
    hide Xor, Prn, FillAfter, Scramble;
    ScrambleSnoc(bs, b);
    Snoc(bs, b);
    Snoc(Scramble(bs), Beat(Xor(b.data, Prn(FillAfter(bs))), b.last));
  }

  /** A frame on its way: none, its EOF so many clocks ago, or its answer due. */
  datatype Reply = NoFrame | Ended(age: nat, words: seq<Dword>) | Answered(words: seq<Dword>)

  function NextReply(r: Reply, i: Input, ends: Option<seq<Dword>>): Reply {
    if !i.iPhyReady then NoFrame
    else match r
      case NoFrame => if ends.Some? then Ended(0, ends.value) else NoFrame
      case Ended(age, words) => if age < 2 then Ended(age + 1, words) else Answered(words)
      case Answered(words) => if i.Receives(SYNC) then NoFrame else r
  }

  function Verdicts(words: seq<Dword>): State {
    if Crc.Intact(words) then L_GOODEND else L_BADEND
  }

  class Receiver {
    const rx: RxPacket
    const fsm: LinkFsm
    ghost var reply: Reply

    ghost predicate Valid()
      reads this, rx, rx.framer, rx.scrambler, rx.crc, fsm
    {
      rx.Valid() && fsm.Valid() && (rx.Clean() ==> Replies())
    }

    /** After its EOF a frame is on its way to the verdict, which is then given and kept. */
    ghost predicate Replies()
      reads this, rx, rx.framer, rx.scrambler, rx.crc, fsm
    {
      match reply
      case NoFrame => true
      case Ended(age, words) => fsm.linkState.L_RCVEOF? && age <= 2 && |words| >= 4 && Stage(rx, age, words)
      case Answered(words) => |words| >= 4 && fsm.linkState == Verdicts(words)
    }

    constructor (little: bool, scramblerEn: bool)
      ensures Valid() && rx.Clean() && reply == NoFrame
    {
      hide RxPacket.Valid, LinkFsm.Valid, Deframe;
      rx := new RxPacket(little, scramblerEn, true);
      fsm := new LinkFsm();
      reply := NoFrame;
      new;
      DeframeNothing();
    }

    /** What the state machine samples: the outputs of the packet receiver among the rest. */
    function Sampled(i: Input): Input
      reads rx, rx.crc
    {
      i.(mLast := rx.crc.mLast, mAbort := rx.crc.mAbort)
    }

    /** The words of the frame that ends in a clock, if it has three of payload and its CRC. */
    ghost function Ends(s: State, i: Input): Option<seq<Dword>>
      reads rx, rx.framer
    {
      if EndsFrame(s, i) && rx.framer.mValid && rx.framer.mLast && Contents(rx) != []
         && |LastPacket(Contents(rx))| >= 4
      then Some(LastPacket(Contents(rx))) else None
    }

    /** One clock of both. */
    method Clock(i: Input)
      requires Valid()
      requires fsm.rReady ==> i.sValid && i.sLast == (i.sData == Prim(EOF)) && i.sData != Prim(CONT)
      modifies this, rx, rx.framer, rx.scrambler, rx.crc, fsm
      ensures Valid()
      ensures fsm.linkState == Next(old(fsm.linkState), old(Sampled(i)))
      ensures rx.framer.received
              == if i.iPhyReady then Push(old(rx.framer.received), i.rx.Some?, WordOf(i)) else []
      ensures reply == NextReply(old(reply), i, Ends(old(fsm.linkState), i))
    {
      hide RxPacket.Valid, LinkFsm.Valid, RxPacket.Clean, Next, NextReply, Stage, EndsFrame, Push, NextWord;
      hide Descramble, SwapAll, Receiver.Replies, Receiver.Ends, Stands, Deframe, Contents, Receiver.Sampled, WordOf;
      ghost var r, state, received, cut := reply, fsm.linkState, rx.framer.received, rx.cut;
      ghost var framed, contents := rx.framer.produced, Contents(rx);
      ghost var sent, checked, clean := rx.scrambler.produced, rx.crc.produced, rx.Clean();
      var both := Sampled(i);
      Standing(i, both);
      ClockBoth(i);
      reply := NextReply(reply, i, Ends(state, i));
      RepliesOn(clean, cut, received, r, state, both, i, framed, contents, sent, checked);
    }

    /** The registers of both, sampling the same edge. */
    method ClockBoth(i: Input)
      requires rx.Valid() && fsm.Valid()
      requires fsm.rReady ==> i.sValid && i.sLast == (i.sData == Prim(EOF)) && i.sData != Prim(CONT)
      modifies rx, rx.framer, rx.scrambler, rx.crc, fsm
      ensures rx.Valid() && fsm.Valid() && fsm.linkState == Next(old(fsm.linkState), old(Sampled(i)))
      ensures rx.cut == (old(rx.cut) || (!i.iPhyReady && old(rx.framer.received) != []))
      ensures rx.framer.received
              == if i.iPhyReady then Push(old(rx.framer.received), i.rx.Some?, WordOf(i)) else []
      ensures i.iPhyReady ==> rx.framer.produced == Push(old(rx.framer.produced), rx.framer.mValid,
                                                         Beat(rx.framer.mData, rx.framer.mLast))
      ensures rx.scrambler.produced == Push(old(rx.scrambler.produced), rx.scrambler.mValid,
                                            Beat(rx.scrambler.mData, rx.scrambler.mLast))
      ensures rx.crc.produced == Push(old(rx.crc.produced), rx.crc.mValid,
                                      RxBeat(rx.crc.mData, rx.crc.mLast, rx.crc.mAbort))
    {
      hide RxPacket.Valid, LinkFsm.Valid, RxPacket.Clean, Next, NextWord, Push, Deframe;
      var both := Sampled(i);
      rx.Step(i.rx.Some?, WordOf(i), i.iPhyReady);
      fsm.Step(both);
    }

    /** The answer to a frame of three words and its CRC, or more: R_OK is on its way if and only if
        its words end in the CRC of those before, and R_ERR otherwise. */
    lemma Answer()
      requires Valid() && rx.Clean() && reply.Answered?
      ensures fsm.linkState.L_GOODEND? <==> Crc.Intact(reply.words)
      ensures fsm.linkState.L_BADEND? <==> !Crc.Intact(reply.words)
    {
      hide RxPacket.Valid, RxPacket.Clean, LinkFsm.Valid, Crc.Intact;
    }

    /** So a frame damaged on the line within 32 consecutive bits is answered R_ERR. */
    lemma AnswersBurst(payload: seq<Dword>, line: seq<Dword>)
      requires Valid() && rx.Clean() && reply.Answered? && reply.words == Masked(line)
      requires payload != [] && |line| == |payload| + 1
      requires Crc.Burst(Crc.WordBits(Masked(payload + [Crc.CrcOf(payload)])), Crc.WordBits(line))
      ensures fsm.linkState.L_BADEND?
    {
      hide Receiver.Valid, RxPacket.Clean, Crc.Intact, Crc.CrcOf, Masked, Crc.WordBits, Crc.Burst;
      var sent := payload + [Crc.CrcOf(payload)];
      Answer();
      BurstUnmasked(Masked(sent), line);
      MaskedTwice(sent);
      IntactSent(payload);
      Crc.BurstDetected(sent, Masked(line));
    }

    /** What the stages show before a clock. */
    lemma Standing(j: Input, i: Input)
      requires Valid() && i == Sampled(j)
      ensures rx.Clean() ==> Stands(reply, fsm.linkState, i, Contents(rx), rx.scrambler.produced, rx.crc.produced)
      ensures rx.Clean() == (rx.crc.crcEn && !rx.cut && !Deframe(rx.framer.received).bad)
      ensures Contents(rx) == Descramble(rx.scrambler.scramblerEn, SwapAll(rx.little, rx.framer.produced))
      ensures rx.Valid() && fsm.Valid() && i == j.(mLast := i.mLast, mAbort := i.mAbort)
    {
      hide RxPacket.Valid, LinkFsm.Valid, CheckCrc, Deframe, Descramble, SwapAll, Stands, Receiver.Replies;
      if rx.Clean() { StandingClean(j, i); }
    }

    lemma StandingClean(j: Input, i: Input)
      requires rx.Valid() && rx.Clean() && Replies() && i == Sampled(j)
      ensures Stands(reply, fsm.linkState, i, Contents(rx), rx.scrambler.produced, rx.crc.produced)
    {
      hide RxPacket.Valid, RxPacket.Clean, Contents, CheckCrc, Crc.Intact;
      ContentsBehind(rx);
      CheckedBehind(rx);
      if reply.Ended? {
        if reply.age < 2 { NotYet(rx, reply.age, reply.words); }
      }
    }

    /** And after it. */
    lemma RepliesOn(clean: bool, cut: bool, received: seq<Word>, r: Reply, s: State, both: Input, i: Input,
                    framed: seq<Beat>, contents: seq<Beat>, sent: seq<Beat>, checked: seq<RxBeat>)
      requires rx.Valid() && (cut ==> rx.cut) && clean == (rx.crc.crcEn && !cut && !Deframe(received).bad)
      requires rx.framer.received == if i.iPhyReady then Push(received, i.rx.Some?, WordOf(i)) else []
      requires clean ==> Stands(r, s, both, contents, sent, checked)
      requires both == i.(mLast := both.mLast, mAbort := both.mAbort)
      requires contents == Descramble(rx.scrambler.scramblerEn, SwapAll(rx.little, framed))
      requires i.iPhyReady
               ==> rx.framer.produced == Push(framed, rx.framer.mValid, Beat(rx.framer.mData, rx.framer.mLast))
      requires rx.scrambler.produced
               == Push(sent, rx.scrambler.mValid, Beat(rx.scrambler.mData, rx.scrambler.mLast))
      requires rx.crc.produced == Push(checked, rx.crc.mValid, RxBeat(rx.crc.mData, rx.crc.mLast, rx.crc.mAbort))
      requires fsm.linkState == Next(s, both) && reply == NextReply(r, i, Ends(s, i))
      ensures rx.Clean() ==> Replies()
    {
      hide RxPacket.Valid, RxPacket.Clean, Contents, Next, Receiver.Ends, SwapAll, Descramble, Push, Stands;
      hide Deframe;
      WasClean(received, i, cut, clean);
      if rx.Clean() && i.iPhyReady { CleanReplies(r, s, both, i, framed, contents, sent, checked); }
    }

    lemma CleanReplies(r: Reply, s: State, both: Input, i: Input, framed: seq<Beat>, contents: seq<Beat>,
                       sent: seq<Beat>, checked: seq<RxBeat>)
      requires rx.Valid() && rx.Clean() && i.iPhyReady && both == i.(mLast := both.mLast, mAbort := both.mAbort)
      requires Stands(r, s, both, contents, sent, checked)
      requires contents == Descramble(rx.scrambler.scramblerEn, SwapAll(rx.little, framed))
      requires rx.framer.produced == Push(framed, rx.framer.mValid, Beat(rx.framer.mData, rx.framer.mLast))
      requires rx.scrambler.produced
               == Push(sent, rx.scrambler.mValid, Beat(rx.scrambler.mData, rx.scrambler.mLast))
      requires rx.crc.produced == Push(checked, rx.crc.mValid, RxBeat(rx.crc.mData, rx.crc.mLast, rx.crc.mAbort))
      requires fsm.linkState == Next(s, both) && reply == NextReply(r, i, Ends(s, i))
      ensures Replies()
    {
      hide RxPacket.Valid, RxPacket.Clean, Contents, CheckCrc, CrcAfter, MidPacket, Next, NextWord, Crc.Intact;
      hide SwapAll;
      StagesMove(rx, framed, contents, sent);
      CheckedBehind(rx);
      EndStep(s, Prim(ALIGN), both);
      match r {
        case NoFrame =>
        case Answered(words) =>
        case Ended(age, words) =>
          if age == 1 {
            EndChecks(sent);
            OneMoreChecked(sent);
          }
      }
    }

    lemma WasClean(received: seq<Word>, i: Input, cut: bool, clean: bool)
      requires rx.framer.received == if i.iPhyReady then Push(received, i.rx.Some?, WordOf(i)) else []
      requires cut ==> rx.cut
      requires clean == (rx.crc.crcEn && !cut && !Deframe(received).bad)
      ensures rx.Clean() && i.iPhyReady ==> clean
    {
      hide Deframe;
      StillClean(received, i.rx.Some?, WordOf(i));
    }
  }

  /** What is known of a frame before a clock, from what each stage has put out. */
  ghost predicate Stands(r: Reply, s: State, i: Input, contents: seq<Beat>, sent: seq<Beat>, checked: seq<RxBeat>) {
    match r
    case NoFrame => true
    case Answered(words) => |words| >= 4 && s == Verdicts(words)
    case Ended(age, words) =>
      && s.L_RCVEOF? && |words| >= 4
      && if age == 0 then EndsWith(contents, words) && sent == Init(contents) && !i.mLast && !i.mAbort
         else if age == 1 then EndsWith(sent, words) && checked == CheckCrc(Init(sent)) && !i.mLast && !i.mAbort
         else age == 2 && i.mLast && i.mAbort == !Crc.Intact(words)
  }

  /** The last word of a packet releases one more beat. */
  lemma OneMoreChecked(bs: seq<Beat>)
    requires bs != [] && MidPacket(Init(bs))
    ensures |CheckCrc(bs)| == |CheckCrc(Init(bs))| + 1
  {
    hide CheckCrc, CrcAfter;
    CheckSnoc(Init(bs), Last(bs));
  }

  function WordOf(i: Input): Word {
    if i.rx.Some? then i.rx.value else Prim(ALIGN)
  }
}
