/** A sender and a receiver built as rtl/sata_link.v builds them, joined by a line. */
module Channel {
  import opened Words
  import opened Packets
  import opened Framing
  import opened TxFramerStage
  import opened TxPacketStage
  import opened LinkFsmStage
  import opened AlignStage
  import opened RmContStage
  import opened RxFramerStage
  import opened RxPacketStage
  import opened LinkCodec

  /** What the rest of both sides and the far line present to a sender at a clock edge. */
  datatype Signals = Signals(mFull: bool, mEmpty: bool, mLast: bool, mAbort: bool, back: Option<Word>, iPhyReady: bool,
                             continueEn: bool, mask: Dword)
  {
    function ToFsm(valid: bool, data: Word, last: bool, phyReady: bool): Input {
      Input(valid, data, last, false, mFull, mEmpty, mLast, mAbort, back, phyReady, iPhyReady)
    }

    /** The far side goes along with the state machine. */
    predicate Oblige(s: LinkFsmStage.State) {
      Answers(s, ToFsm(false, Prim(SYNC), false, true))
    }
  }

  class Channel {
    const tx: TxPacket
    const fsm: LinkFsm
    const align: Align
    const rm: RmCont
    const rx: RxPacket

    ghost predicate Valid()
      reads this, tx, tx.crc, tx.scrambler, tx.framer, fsm, align, rm, rx, rx.framer, rx.scrambler, rx.crc
    {
      && Fed() && align.Valid() && rm.Valid() && rx.Valid()
      && !rx.cut && rx.little == tx.little && rx.scrambler.scramblerEn && rx.crc.crcEn
      && fsm.slots != [] && Handed(fsm.Presented(), align.h.accepted)
      && (!align.iReady ==> fsm.Presented() == [] && fsm.mPhyData == Prim(ALIGN))
      && !align.h.contSeen
      && (align.h.pending.Some? ==> fsm.mPhyData == align.h.pending.value)
      && rm.received <= align.h.sent
      && rx.framer.received <= rm.produced
    }

    constructor (little: bool, skid: bool)
      ensures Valid() && tx.accepted == [] && !fsm.broken
    {
      hide TxPacket.Valid, LinkFsm.Valid, Align.Valid, RmCont.Valid, RxPacket.Valid;
      tx := new TxPacket(little);
      fsm := new LinkFsm();
      align := new Align(skid);
      rm := new RmCont();
      rx := new RxPacket(little, true, true);
    }

    /** The packetizer feeds the state machine, which never finds it empty mid-frame. */
    ghost predicate Fed()
      reads tx, tx.crc, tx.scrambler, tx.framer, fsm
    {
      && tx.Valid() && fsm.Valid()
      && fsm.taken == tx.framer.emitted
      && (fsm.Wants() ==> tx.framer.mValid)
    }

    /** The moves the sender still has to make, the stalls of the line aside. */
    ghost function SourceWork(): nat
      requires fsm.slots != []
      reads tx, tx.crc, tx.scrambler, tx.framer, fsm
    {
      20 * tx.Work() + 2 * Distance(fsm.linkState) + Behind(fsm.slots)
    }

    /** The packetizer is empty, and its last word has been taken by the line side. */
    ghost predicate Over()
      requires fsm.slots != []
      reads tx, tx.crc, tx.scrambler, tx.framer, fsm
    {
      tx.Drained() && Behind(fsm.slots) == 0
    }

    /** One clock of the packetizer and the state machine. */
    method ClockBoth(sValid: bool, s: Beat, sig: Signals, phyReady: bool)
      requires Fed()
      modifies tx, tx.crc, tx.scrambler, tx.framer, fsm
      ensures Fed() && fsm.slots != []
      ensures tx.accepted == Push(old(tx.accepted), sValid && old(tx.Ready(fsm.Ready(phyReady))), s)
      ensures old(fsm.slots) != [] && fsm.Presented() == Push(old(fsm.Presented()), phyReady, old(fsm.mPhyData))
      ensures !phyReady ==> fsm.mPhyData == old(fsm.mPhyData)
      ensures fsm.broken && !old(fsm.broken)
              ==> !sig.iPhyReady || (old(fsm.linkState.MidFrame()) && sig.back == Some(Prim(SYNC)))
      ensures !sValid && old(tx.Drained()) ==> tx.Drained() && tx.framer.emitted == old(tx.framer.emitted)
      ensures tx.accepted == old(tx.accepted)
              ==> Progresses(old(tx.Work()), tx.Work(), old(tx.framer.mValid && !fsm.Ready(phyReady)),
                             !sValid && old(tx.Drained() || MidPacket(tx.accepted)))
      ensures var i := sig.ToFsm(old(tx.framer.mValid), old(tx.framer.mData), old(tx.framer.mLast), phyReady);
              fsm.linkState == LinkFsmStage.Next(old(fsm.linkState), i)
      ensures Behind(fsm.slots) == if !phyReady then old(Behind(fsm.slots))
                                   else if old(fsm.linkState.L_SENDDATA?) then 1 else 0
    {
      hide TxPacket.Valid, LinkFsm.Valid, TxPacket.Ready, Push, TxPacket.Work, Behind, MidPacket;
      hide Next, NextWord, Progresses;
      var ready, valid, data, last := fsm.Ready(phyReady), tx.framer.mValid, tx.framer.mData, tx.framer.mLast;
      tx.Offers();
      tx.Step(sValid, s, ready);
      fsm.Step(sig.ToFsm(valid, data, last, phyReady));
    }

    method ClockSource(sValid: bool, s: Beat, sig: Signals, phyReady: bool)
      requires Fed()
      modifies tx, tx.crc, tx.scrambler, tx.framer, fsm
      ensures Fed() && fsm.slots != []
      ensures tx.accepted == Push(old(tx.accepted), sValid && old(tx.Ready(fsm.Ready(phyReady))), s)
      ensures old(fsm.slots) != [] && fsm.Presented() == Push(old(fsm.Presented()), phyReady, old(fsm.mPhyData))
      ensures !phyReady ==> fsm.mPhyData == old(fsm.mPhyData)
      ensures fsm.broken && !old(fsm.broken)
              ==> !sig.iPhyReady || (old(fsm.linkState.MidFrame()) && sig.back == Some(Prim(SYNC)))
      ensures !sValid && old(tx.Drained()) ==> tx.Drained() && tx.framer.emitted == old(tx.framer.emitted)
      ensures Pressing(sValid, sig, old(fsm.linkState), old(tx.accepted)) && tx.accepted == old(tx.accepted)
              ==> Progresses(old(SourceWork()), SourceWork(), !phyReady, !sValid && old(Over()))
    {
      hide Fed, TxPacket.Ready, Push, TxPacket.Work, Distance, Behind, MidPacket, Next, NextWord, Progresses;
      hide TxPacket.Drained, Answers, Pressing, LinkFsm.Presented;
      SendsOnlyReady();
      ghost var state, send, work, behind := fsm.linkState, fsm.Ready(phyReady), tx.Work(), Behind(fsm.slots);
      ghost var drained, accepted := tx.Drained(), tx.accepted;
      ghost var i := sig.ToFsm(tx.framer.mValid, tx.framer.mData, tx.framer.mLast, phyReady);
      ClockBoth(sValid, s, sig, phyReady);
      SourceStep(Both(Pressing(sValid, sig, state, accepted), tx.accepted == accepted), sValid, sig, state, accepted,
                 i, send, drained, work, tx.Work(), behind, Behind(fsm.slots));
    }

    lemma SendsOnlyReady()
      requires Fed()
      ensures fsm.slots != []
      ensures fsm.linkState.L_SENDDATA? ==> fsm.rReady && tx.framer.mValid
      ensures tx.Drained() ==> !tx.framer.mValid
      ensures Behind(fsm.slots) <= 1
    {
    }

    /** The moves the sender still has to make, and the clocks the line may make it wait. */
    ghost function Work(): nat
      reads tx, tx.crc, tx.scrambler, tx.framer, fsm, align
    {
      if fsm.slots == [] then 0 else 6 * SourceWork() + align.Pause()
    }

    /** However the sender stands, its work is bounded. */
    lemma WorkBounded()
      requires Valid()
      ensures Work() <= 2849
    {
      hide TxPacket.Valid, TxPacket.Work, Align.Valid, Handed, RmCont.Valid, RxPacket.Valid;
      SendsOnlyReady();
      tx.WorkBounded();
      assert Distance(fsm.linkState) <= 6;
    }

    /** Everything accepted is on the line. */
    ghost predicate Settled()
      reads tx, tx.crc, tx.scrambler, tx.framer, fsm, align
    {
      fsm.slots != [] && Over() && !align.rValid
    }

    /** One clock of the sender. With a far side that goes along, every clock gets something
        done until the beat on offer is taken or, whole packets accepted and none on offer,
        until all is on the line. */
    method TxClock(sValid: bool, s: Beat, sig: Signals)
      requires Valid()
      modifies tx, tx.crc, tx.scrambler, tx.framer, fsm, align
      ensures Valid()
      ensures tx.accepted == Push(old(tx.accepted), sValid && old(TxReady(sig)), s)
      ensures fsm.broken && !old(fsm.broken)
              ==> !sig.iPhyReady || (old(fsm.linkState.MidFrame()) && sig.back == Some(Prim(SYNC)))
      ensures old(align.h.sent) <= align.h.sent
      ensures !sValid && old(tx.Drained()) ==> tx.Drained() && tx.framer.emitted == old(tx.framer.emitted)
      ensures Pressing(sValid, sig, old(fsm.linkState), old(tx.accepted)) && (sValid || !old(Settled()))
              ==> tx.accepted != old(tx.accepted) || Work() < old(Work())
    {
      hide Fed, Align.Valid, RmCont.Valid, RxPacket.Valid, Channel.SourceWork, Channel.Over, Align.Pause, Pressing;
      hide Push, Handed, Choose, Edge, After, TxPacket.Ready, LinkFsm.Ready, Align.Ready, MidPacket;
      var phyReady, word := align.Ready(fsm.mPhyData, sig.continueEn, sig.mask), fsm.mPhyData;
      NotCont();
      if phyReady { ReadyLetsGo(sig); }
      HandedStep(fsm.Presented(), align.h.accepted, phyReady, align.skid, align.iReady, word);
      ClockSource(sValid, s, sig, phyReady);
      align.Step(word, sig.continueEn, sig.mask);
    }

    /** A ready skid buffer is empty. */
    lemma ReadyLetsGo(sig: Signals)
      requires align.Valid() && align.Ready(fsm.mPhyData, sig.continueEn, sig.mask)
      ensures !align.rValid
    {
    }

    lemma NotCont()
      requires Fed()
      ensures fsm.mPhyData != Prim(CONT) && fsm.slots != []
    {
    }

    predicate TxReady(sig: Signals)
      reads tx.crc, tx.scrambler, tx.framer, fsm, align
    {
      tx.Ready(fsm.Ready(align.Ready(fsm.mPhyData, sig.continueEn, sig.mask)))
    }

    /** One clock of the receiver's line side: the next word of the line may arrive. */
    method LineClock(iValid: bool, w: Word)
      requires Valid()
      requires iValid ==> NextIs(align.h.sent, rm.received, w)
      modifies rm
      ensures Valid()
      ensures rm.received == Push(old(rm.received), iValid, w)
    {
      hide Fed, Align.Valid, RxPacket.Valid, Handed;
      PushPrefix(align.h.sent, rm.received, iValid, w);
      RemoveContPrefix(rm.received, Push(rm.received, iValid, w));
      rm.Step(iValid, w);
    }

    /** One clock of the receiver's link side: the clock crossing may deliver a word. */
    method RxClock(valid: bool, w: Word)
      requires Valid()
      requires valid ==> NextIs(rm.produced, rx.framer.received, w)
      modifies rx, rx.framer, rx.scrambler, rx.crc
      ensures Valid()
      ensures (!valid ==> !rx.framer.mValid) && (rx.scrambler.mValid ==> old(rx.framer.mValid))
      ensures rx.framer.received == Push(old(rx.framer.received), valid, w)
    {
      hide Fed, Align.Valid, RxPacket.Valid, RmCont.Valid, Handed;
      PushPrefix(rm.produced, rx.framer.received, valid, w);
      rx.Step(valid, w, true);
    }

    /** The line reads as no more than the framer has emitted, and no cut frame. */
    lemma SentReads()
      requires Valid() && !fsm.broken
      ensures Deframe(RemoveCont(align.h.sent)).out <= Deframe(tx.framer.emitted).out
      ensures !Deframe(tx.framer.emitted).bad ==> !Deframe(RemoveCont(align.h.sent)).bad
      ensures fsm.slots != [] && Behind(fsm.slots) == 0 && !align.rValid ==> Sent()
    {
      hide Deframe, RemoveCont, Squash, Invariant, TxPacket.Valid, RxPacket.Valid;
      fsm.ReadsTaken();
      DeframePrefix(fsm.Presented(), fsm.Presented() + [fsm.mPhyData]);
      DeframeAfterAlign(align.h.accepted);
      AlignReads();
      DeframePrefix(align.h.taken, align.h.accepted);
    }

    /** The line reads as everything the framer has emitted. */
    ghost predicate Sent()
      reads tx, tx.framer, align
    {
      Deframe(RemoveCont(align.h.sent)).out == Deframe(tx.framer.emitted).out
    }

    /** The receiver reads no more than the framer has emitted, and no cut frame. */
    lemma LineReads()
      requires Valid() && !fsm.broken
      ensures Deframe(rx.framer.received).out <= Deframe(tx.framer.emitted).out
      ensures !Deframe(tx.framer.emitted).bad ==> !Deframe(rx.framer.received).bad
      ensures LineDrained() ==> Deframe(rx.framer.received).out == Deframe(tx.framer.emitted).out
    {
      hide Deframe, RemoveCont, Invariant, TxPacket.Valid, RxPacket.Valid, LinkFsm.Valid;
      SentReads();
      RemoveContPrefix(rm.received, align.h.sent);
      DeframePrefix(rm.produced, RemoveCont(align.h.sent));
      DeframePrefix(rx.framer.received, rm.produced);
    }

    lemma AlignReads()
      requires Valid()
      ensures Deframe(RemoveCont(align.h.sent)) == Deframe(align.h.taken)
      ensures align.h.taken <= align.h.accepted && (!align.rValid ==> align.h.taken == align.h.accepted)
    {
      Transparent(align.skid, align.Regs(), align.h);
    }

    /** Every word of the packetizer has reached the receiver. */
    ghost predicate LineDrained()
      reads fsm, align, rm, rx, rx.framer
    {
      && fsm.slots != [] && Last(fsm.slots).inserted && !align.rValid
      && rm.received == align.h.sent && rx.framer.received == rm.produced
    }

    /** The link round trip. Whatever the stalls of the sender, the delays of the line
        and the words coming back, as long as no frame is broken off the receiver
        delivers exactly the packets accepted, in order, with their last marks, and
        none of it aborted; once everything has drained, it has delivered them all. */
    lemma RoundTrip()
      requires Valid() && !fsm.broken
      ensures rx.Clean()
      ensures rx.Delivered() <= Good(tx.accepted)
      ensures tx.Drained() && LineDrained() && !rx.framer.mValid && !rx.scrambler.mValid
              ==> rx.Delivered() == Good(Finished(tx.accepted))
    {
      hide Deframe, Decode, Encode, LineDrained, Good, Finished, RxPacket.Delivered, TxPacket.Drained;
      hide TxPacket.Valid, LinkFsm.Valid, Align.Valid, RmCont.Valid, RxPacket.Valid, Handed;
      tx.Reads();
      LineReads();
      rx.Delivers();
      DecodePrefix(tx.little, true, Deframe(rx.framer.received).out, Encode(tx.little, tx.accepted));
      DecodeEncode(tx.little, tx.accepted);
      FinishedPrefix(tx.accepted);
    }

    /** One clock of an idle sender whose far side goes along: what is on the line stays there,
        and until all is there, something gets done. */
    method IdleClock(s: Beat, sig: Signals)
      requires Valid() && !fsm.broken && Pressing(false, sig, fsm.linkState, tx.accepted)
      modifies tx, tx.crc, tx.scrambler, tx.framer, fsm, align
      ensures Valid() && !fsm.broken && tx.accepted == old(tx.accepted)
      ensures old(align.h.sent) <= align.h.sent
      ensures old(tx.Drained() && Sent()) ==> tx.Drained() && Sent()
      ensures !old(Settled()) ==> Work() < old(Work())
    {
      hide Channel.Valid, Channel.Work, Channel.Settled, TxPacket.Drained, Deframe, RemoveCont, MidPacket;
      NoBreak(sig);
      ghost var sent := align.h.sent;
      TxClock(false, s, sig);
      SentReads();
      RemoveContPrefix(sent, align.h.sent);
      DeframePrefix(RemoveCont(sent), RemoveCont(align.h.sent));
    }

    lemma NoBreak(sig: Signals)
      requires sig.Oblige(fsm.linkState)
      ensures sig.iPhyReady && !(fsm.linkState.MidFrame() && sig.back == Some(Prim(SYNC)))
    {
    }

    /** Progress of the sender. With whole packets accepted, and a far side that goes along at
        every clock, everything is on the line after more clocks than there is work. */
    method IdleClocks(n: nat, s: Beat, far: (nat, LinkFsmStage.State) -> Signals)
      requires Valid() && !fsm.broken && !MidPacket(tx.accepted) && n > Work()
      requires forall k: nat, state :: far(k, state).Oblige(state)
      modifies tx, tx.crc, tx.scrambler, tx.framer, fsm, align
      ensures Valid() && !fsm.broken && tx.accepted == old(tx.accepted)
      ensures tx.Drained() && Sent()
    {
      hide Channel.Valid, Channel.Work, Channel.Sent, TxPacket.Drained, Signals.Oblige, MidPacket;
      for k := 0 to n
        invariant Valid() && !fsm.broken && tx.accepted == old(tx.accepted)
        invariant (tx.Drained() && Sent()) || Work() + k <= old(Work())
      {
        SettledSent();
        IdleClock(s, far(k, fsm.linkState));
      }
    }

    /** Acceptance. With a far side that goes along at every clock, a beat that stays on offer is
        taken after no more clocks than there is work, and nothing else is. */
    method Offer(s: Beat, far: (nat, LinkFsmStage.State) -> Signals) returns (clocks: nat)
      requires Valid() && !fsm.broken
      requires forall k: nat, state :: far(k, state).Oblige(state)
      modifies tx, tx.crc, tx.scrambler, tx.framer, fsm, align
      ensures Valid() && !fsm.broken && tx.accepted == old(tx.accepted) + [s]
      ensures 1 <= clocks <= old(Work()) + 1
    {
      hide Channel.Valid, Channel.Work, Signals.Oblige, MidPacket, Channel.TxReady;
      clocks := 0;
      var taken := false;
      while !taken
        invariant Valid() && !fsm.broken
        invariant if taken then tx.accepted == old(tx.accepted) + [s] && 1 <= clocks <= old(Work()) + 1
                  else tx.accepted == old(tx.accepted) && Work() + clocks <= old(Work())
        decreases !taken, Work()
      {
        var sig := far(clocks, fsm.linkState);
        NoBreak(sig);
        taken := TxReady(sig);
        TxClock(true, s, sig);
        clocks := clocks + 1;
      }
    }

    lemma SettledSent()
      requires Valid() && !fsm.broken
      ensures Settled() ==> tx.Drained() && Sent()
    {
      hide Channel.Valid, Channel.Sent, TxPacket.Drained;
      SentReads();
    }

    /** Progress of the receiver. Once it has been handed the line as it was at a time when all
        was sent, and its first stages are empty, as two clocks without a word leave them, it
        has delivered every packet. */
    lemma Arrives(line: seq<Word>)
      requires Valid() && !fsm.broken && tx.Drained() && !MidPacket(tx.accepted)
      requires Deframe(RemoveCont(line)).out == Deframe(tx.framer.emitted).out
      requires RemoveCont(line) <= rx.framer.received
      requires !rx.framer.mValid && !rx.scrambler.mValid
      ensures rx.Delivered() == Good(tx.accepted)
    {
      hide Deframe, RemoveCont, Decode, Encode, Good, RxPacket.Delivered, TxPacket.Drained, MidPacket;
      hide TxPacket.Valid, LinkFsm.Valid, Align.Valid, RmCont.Valid, RxPacket.Valid, Handed;
      tx.Reads();
      LineReads();
      DeframePrefix(RemoveCont(line), rx.framer.received);
      SameEnds(Deframe(RemoveCont(line)).out, Deframe(rx.framer.received).out);
      rx.Delivers();
      DecodeEncode(tx.little, tx.accepted);
      FinishedAll(tx.accepted);
    }
  }

  /** A far side that goes along, and nothing to wait for from the packet source: a beat is
      on offer, or whole packets only have been accepted. */
  predicate Pressing(sValid: bool, sig: Signals, s: LinkFsmStage.State, accepted: seq<Beat>) {
    sig.Oblige(s) && (sValid || !MidPacket(accepted))
  }

  lemma SameEnds(a: seq<Beat>, b: seq<Beat>)
    ensures a <= b && b <= a ==> a == b
  {
  }

  /** What a clock of the source gets done. */
  lemma SourceStep(pressed: bool, sValid: bool, sig: Signals, s: LinkFsmStage.State, accepted: seq<Beat>, i: Input,
                   send: bool, drained: bool, work: nat, work2: nat, behind: nat, behind2: nat)
    requires pressed ==> Pressing(sValid, sig, s, accepted)
    requires i == sig.ToFsm(i.sValid, i.sData, i.sLast, i.mPhyReady)
    requires s.L_SENDDATA? && i.mPhyReady ==> send && i.sValid
    requires send ==> i.mPhyReady
    requires drained ==> !i.sValid
    requires pressed ==> Progresses(work, work2, i.sValid && !send, !sValid && (drained || MidPacket(accepted)))
    requires behind <= 1 && behind2 == if !i.mPhyReady then behind else if s.L_SENDDATA? then 1 else 0
    ensures pressed ==> Progresses(20 * work + 2 * Distance(s) + behind,
                                20 * work2 + 2 * Distance(LinkFsmStage.Next(s, i)) + behind2,
                                !i.mPhyReady, !sValid && drained && behind == 0)
  {
    hide Distance, LinkFsmStage.Next;
    if pressed {
      DistanceStep(s, i);
      DistanceSmall(s);
    }
  }

  lemma DistanceSmall(s: LinkFsmStage.State)
    ensures s.L_SENDDATA? ==> Distance(s) == 0
  {
  }

  lemma FinishedPrefix(bs: seq<Beat>)
    ensures Good(Finished(bs)) <= Good(bs)
  {
  }

  ghost predicate NextIs(all: seq<Word>, soFar: seq<Word>, w: Word) {
    |soFar| < |all| && all[|soFar|] == w
  }

  lemma PushPrefix(all: seq<Word>, soFar: seq<Word>, valid: bool, w: Word)
    requires soFar <= all && (valid ==> NextIs(all, soFar, w))
    ensures Push(soFar, valid, w) <= all
  {
  }

  lemma HandedStep(presented: seq<Word>, accepted: seq<Word>, ready: bool, skid: bool, iReady: bool, w: Word)
    requires Handed(presented, accepted)
    requires !iReady ==> presented == [] && w == Prim(ALIGN)
    ensures Handed(Push(presented, ready, w), Push(accepted, Accepts(skid, iReady, ready), w))
  {
  }

  /** The skid buffer misses the word on offer in its first clock, an ALIGN. */
  predicate Handed(presented: seq<Word>, accepted: seq<Word>) {
    presented == accepted || presented == [Prim(ALIGN)] + accepted
  }
}
