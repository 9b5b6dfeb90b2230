/** rtl/satalnk_rmcont.v */
module RmContStage {
  import opened Words
  import opened Framing

  class RmCont {
    var rActive: bool
    var rLast: Primitive
    var oValid: bool
    var oWord: Word
    ghost var received: seq<Word>
    ghost var produced: seq<Word>

    /** Everything but ALIGN, CONT and the words under a CONT is passed on, once and in order. */
    ghost predicate Valid()
      reads this
    {
      && rActive == Suppressing(received)
      && produced == RemoveCont(received)
    }

    constructor ()
      ensures Valid() && received == [] && produced == []
    {
      rActive, rLast, oValid, oWord := false, ALIGN, false, Prim(ALIGN);
      received, produced := [], [];
    }

    method Step(iValid: bool, w: Word)
      requires Valid()
      modifies this
      ensures Valid()
      ensures received == Push(old(received), iValid, w)
      ensures produced == Push(old(produced), oValid, oWord)
    {
      hide RemoveCont, Suppressing;
      RemoveContSnoc(received, w);
      var active := rActive;
      oValid, oWord := iValid, w;
      if iValid && w == Prim(ALIGN) { oValid := false; }
      if iValid && w.Data? && active { oValid := false; }
      if iValid && w.Prim? {
        rActive := false;
        if w.p.CONT? {
          rActive := true;
          oWord := Prim(rLast);
          oValid := false;
        } else {
          rLast := w.p;
        }
      } else if iValid && active {
        oWord := Prim(rLast);
      }
      if iValid {
        received := received + [w];
        produced := produced + Passed(active, w);
      }
    }
  }
}

/** rtl/satarx_framer.v */
module RxFramerStage {
  import opened Words
  import opened Packets
  import opened Framing

  class RxFramer {
    var rData: bool  // r_state == S_DATA
    var rValid: bool
    var rWord: Dword
    var mValid: bool
    var mData: Dword
    var mLast: bool
    var mAbort: bool
    ghost var received: seq<Word>  // since the PHY last came up
    ghost var produced: seq<Beat>

    function Held(): Option<Dword>
      reads this
    {
      if rValid then Some(rWord) else None
    }

    function Output(): seq<Beat>
      reads this
    {
      if mValid then [Beat(mData, mLast)] else []
    }

    /** The registers are those of a reader of the words received so far. */
    ghost predicate Valid()
      reads this
    {
      var r := Deframe(received);
      && rData == r.inFrame && Held() == r.held && produced == r.out
      && Settled(r)
      && Shown(r, mValid, mLast)
    }

    constructor ()
      ensures Valid() && received == [] && produced == [] && !mValid && !mAbort
    {
      rData, rValid, rWord := false, false, 0;
      mValid, mData, mLast, mAbort := false, 0, false, false;
      received, produced := [], [];
    }

    /** The registers after one clock edge: one step of a reader, whose output is
        registered, and an abort for a frame cut off or opened twice. */
    method Clock(sValid: bool, w: Word, sAbort: bool)
      modifies `rData, `rValid, `rWord, `mValid, `mData, `mLast, `mAbort
      ensures sAbort ==> !rData && !rValid && !mValid && mAbort == old(rValid)
      ensures !sAbort ==>
                var n := ReadIf(sValid, old(rData), old(Held()), w);
                rData == n.inFrame && Held() == n.held && Output() == n.out
                && mAbort == (n.bad || (sValid && w == Prim(SOF) && (old(rData) || (old(mValid) && !old(mLast)))))
      ensures mValid && mLast ==> !rData
      ensures mValid && !mLast ==> rValid
    {
      var word, open := rWord, Reopened(sValid, w, rData, mValid, mLast);
      mValid, mData, mLast, mAbort := false, 0, false, false;
      if sAbort {
        mAbort := rValid;
        rData, rValid := false, false;
      } else if sValid {
        match w {
          case Data(d) =>
            if rData {
              mValid, mData := rValid, word;
              rWord := d;
            }
            rValid := rData;
          case Prim(p) =>
            match p {
              case SOF =>
                mAbort := if rValid then true else open;
                rData := true;
              case EOF =>
                mValid, mData, mLast := rValid, word, true;
                rData, rValid, rWord := false, false, 0;
              case WTRM =>
                mLast, mAbort := rValid, rValid;
                rData, rValid := false, false;
              case SYNC =>
                mLast, mAbort := rValid, rValid;
                rData, rValid := false, false;
              case _ =>
            }
        }
      }
    }

    method Step(sValid: bool, w: Word, sAbort: bool)
      requires Valid()
      modifies this
      ensures Valid()
      ensures sAbort ==> received == [] && produced == [] && !mValid && mAbort == old(rValid)
      ensures !sAbort ==> received == Push(old(received), sValid, w)
      ensures !sAbort ==> produced == Push(old(produced), mValid, Beat(mData, mLast))
      ensures !sAbort && !sValid ==> !mValid
      ensures !sAbort && mAbort && !Deframe(received).bad
              ==> !old(mValid) && !mValid && !MidPacket(produced)
    {
      hide Deframe, Read, MidPacket, Push, Last;
      ReadStep(received, sValid, w);
      SettledStep(Deframe(received), sValid, w, mValid, mLast);
      Clock(sValid, w, sAbort);
      PushBeats(produced, mValid, Beat(mData, mLast));
      received := if sAbort then [] else Push(received, sValid, w);
      produced := if sAbort then [] else produced + Output();
      if sAbort { DeframeNothing(); }
    }
  }

  lemma PushBeats(bs: seq<Beat>, valid: bool, b: Beat)
    ensures Push(bs, valid, b) == bs + if valid then [b] else []
  {
  }

  function ReadIf(sValid: bool, inFrame: bool, held: Option<Dword>, w: Word): Reader {
    var r := Reader(inFrame, held, [], false);
    if sValid then Read(r, w) else r
  }

  /** A SOF while a frame is open, or right behind a beat that is not its last. */
  predicate Reopened(sValid: bool, w: Word, inFrame: bool, mValid: bool, mLast: bool) {
    sValid && w == Prim(SOF) && (inFrame || (mValid && !mLast))
  }

  /** A reader holding no word is between packets, unless a frame was cut off. */
  ghost predicate Settled(r: Reader) {
    (r.held.Some? ==> r.inFrame) && (!r.bad && r.held.None? ==> !MidPacket(r.out))
  }

  /** What the output register says about the reader: the last beat of a packet is
      shown outside frames, any other with the next word already held. */
  predicate Shown(r: Reader, mValid: bool, mLast: bool) {
    mValid ==> if mLast then !r.inFrame else r.held.Some?
  }

  lemma ReadStep(received: seq<Word>, sValid: bool, w: Word)
    ensures var r, n := Deframe(received), Deframe(Push(received, sValid, w));
            var d := ReadIf(sValid, r.inFrame, r.held, w);
            n == Advance(r, d)
  {
    hide Deframe;
    if sValid {
      DeframeSnoc(received, w);
    } else {
      assert Deframe(received).out + [] == Deframe(received).out;
    }
  }

  function Advance(r: Reader, d: Reader): Reader {
    Reader(d.inFrame, d.held, r.out + d.out, r.bad || d.bad)
  }

  /** An abort while no frame is cut off can only be a doubled SOF: nothing is in flight. */
  lemma SettledStep(r: Reader, sValid: bool, w: Word, mValid: bool, mLast: bool)
    requires Settled(r) && Shown(r, mValid, mLast)
    ensures var d := ReadIf(sValid, r.inFrame, r.held, w);
            var n := Advance(r, d);
            && Settled(n)
            && ((d.bad || Reopened(sValid, w, r.inFrame, mValid, mLast)) && !n.bad
                ==> !mValid && d.out == [] && !MidPacket(n.out))
  {
    var d := ReadIf(sValid, r.inFrame, r.held, w);
    assert d.out == [] ==> r.out + d.out == r.out;
  }

  lemma DeframeNothing()
    ensures Deframe([]) == Reader(false, None, [], false) && !MidPacket([])
  {
  }
}

/** rtl/satarx_scrambler.v with M_AXIS_TREADY tied high, as satalnk_rxpacket ties it. */
module RxScramblerStage {
  import opened Words
  import opened Packets
  import opened Scrambler

  class RxScrambler {
    const scramblerEn: bool  // i_cfg_scrambler_en
    var rActive: bool
    var midpacket: bool
    var fill: Fill
    var mValid: bool
    var mData: Dword
    var mLast: bool
    var mAbort: bool
    ghost var accepted: seq<Beat>
    ghost var produced: seq<Beat>
    ghost var disturbed: bool  // an abort has cut a packet short

    /** Without a packet cut short, the output is the input descrambled and never aborts. */
    ghost predicate Valid()
      reads this
    {
      !disturbed ==>
        && produced == Descramble(scramblerEn, accepted)
        && Follows(scramblerEn, accepted, fill, midpacket, rActive)
        && !mAbort
    }

    constructor (scramblerEn: bool)
      ensures Valid() && accepted == [] && produced == [] && !disturbed && !mValid
      ensures this.scramblerEn == scramblerEn
    {
      this.scramblerEn := scramblerEn;
      rActive, midpacket, fill := false, false, INITIAL;
      mValid, mData, mLast, mAbort := false, 0, false, false;
      accepted, produced, disturbed := [], [], false;
    }

    /** The registers after one clock edge, from those before it. */
    method Clock(sValid: bool, s: Beat, sAbort: bool)
      modifies `rActive, `midpacket, `fill, `mValid, `mData, `mLast, `mAbort
      ensures mValid == (sValid && (old(midpacket) || !sAbort))
      ensures Beat(mData, mLast) == DescrambleBeat(scramblerEn, old(fill), s)
      ensures mAbort == (sAbort && old(midpacket))
      ensures midpacket == (!sAbort && NextActive(old(midpacket), sValid, s))
      ensures rActive == NextActive(old(rActive), sValid, s)
      ensures fill == FillRegister(scramblerEn, old(fill), old(rActive), sValid, s)
    {
      hide Prn, NextFill, Xor, Low16, Zeros;
      var prn, nextFill := ScrambleWord(fill);
      mValid := sValid;
      if !midpacket {
        if sAbort { mValid := false; }
      }
      mData, mLast := if scramblerEn then Xor(s.data, prn) else s.data, s.last;
      mAbort := false;
      if sAbort { mAbort := midpacket; }

      if sAbort {
        midpacket := false;
      } else if sValid {
        midpacket := !s.last;
      }
      if sValid {
        if s.last {
          fill := if scramblerEn then INITIAL else Zeros(16);
        } else {
          fill := nextFill;
        }
        rActive := !s.last;
      } else if !rActive {
        fill := if scramblerEn then INITIAL else Zeros(16);
      }
    }

    method Step(sValid: bool, s: Beat, sAbort: bool)
      requires Valid()
      modifies this
      ensures Valid()
      ensures accepted == Push(old(accepted), sValid, s)
      ensures produced == Push(old(produced), mValid, Beat(mData, mLast))
      ensures disturbed == CutsShort(old(disturbed), sValid, old(midpacket), sAbort)
      ensures mValid ==> sValid
    {
      hide Descramble, DescrambleBeat, Follows, NextActive, FillRegister, Push;
      disturbed := CutsShort(disturbed, sValid, midpacket, sAbort);
      if !disturbed { FollowsStep(scramblerEn, accepted, fill, midpacket, rActive, sValid, s); }
      Clock(sValid, s, sAbort);
      accepted := Push(accepted, sValid, s);
      produced := Push(produced, mValid, Beat(mData, mLast));
    }
  }

  function Descramble(en: bool, bs: seq<Beat>): seq<Beat> {
    if en then Scramble(bs) else bs
  }

  function DescrambleBeat(en: bool, fill: Fill, b: Beat): Beat {
    Beat(if en then Xor(b.data, Prn(fill)) else b.data, b.last)
  }

  predicate NextActive(active: bool, sValid: bool, s: Beat) {
    if sValid then !s.last else active
  }

  function FillRegister(en: bool, fill: Fill, active: bool, sValid: bool, s: Beat): Fill {
    if sValid && !s.last then NextFill(fill)
    else if !sValid && active then fill
    else if en then INITIAL else Zeros(16)
  }

  predicate CutsShort(before: bool, sValid: bool, midpacket: bool, sAbort: bool) {
    before || (sAbort && (sValid || midpacket))
  }

  /** The registers are in step with the beats taken so far. */
  ghost predicate Follows(en: bool, taken: seq<Beat>, fill: Fill, midpacket: bool, active: bool) {
    && (en ==> fill == FillAfter(taken))
    && midpacket == active == MidPacket(taken)
  }

  lemma FollowsStep(en: bool, taken: seq<Beat>, fill: Fill, midpacket: bool, active: bool, sValid: bool, s: Beat)
    requires Follows(en, taken, fill, midpacket, active)
    ensures Follows(en, Push(taken, sValid, s), FillRegister(en, fill, active, sValid, s),
                    NextActive(midpacket, sValid, s), NextActive(active, sValid, s))
    ensures Descramble(en, Push(taken, sValid, s))
         == Push(Descramble(en, taken), sValid, DescrambleBeat(en, fill, s))
    ensures !sValid && !midpacket ==> !NextActive(midpacket, sValid, s)
  {
    hide Scramble, FillAfter, Prn, NextFill, Xor, Init, Last, MidPacket, Low16, Zeros;
    if sValid {
      ScrambleSnoc(taken, s);
      MidSnoc(taken, s);
    } else {
      FillAtStart(taken);
    }
  }

  lemma FillAtStart(bs: seq<Beat>)
    ensures !MidPacket(bs) ==> FillAfter(bs) == INITIAL
  {
  }
}

/** rtl/satarx_crc.v */
module RxCrcStage {
  import opened Words
  import opened Packets
  import Crc

  class RxCrc {
    const crcEn: bool  // i_cfg_crc_en
    var crc: Dword
    var rValid: bool
    var rData: Dword
    var rLast: bool
    var mValid: bool
    var mData: Dword
    var mLast: bool
    var mAbort: bool
    ghost var accepted: seq<Beat>
    ghost var produced: seq<RxBeat>
    ghost var disturbed: bool  // a reset or an abort has hit a packet

    function Waiting(): Option<Beat>
      reads this
    {
      if rValid then Some(Beat(rData, rLast)) else None
    }

    /** Undisturbed, the output is exactly the checked input: a packet aborts on its
        last word if and only if its CRC is wrong. */
    ghost predicate Valid()
      reads this
    {
      !disturbed ==> Tracks(crcEn, accepted, produced, crc, Waiting()) && Shows(produced, mLast, mAbort)
    }

    constructor (crcEn: bool)
      ensures Valid() && accepted == [] && produced == [] && !disturbed && !rValid && !mValid
      ensures this.crcEn == crcEn
    {
      this.crcEn := crcEn;
      crc, rValid, rData, rLast := Crc.INITIAL_CRC, false, 0, false;
      mValid, mData, mLast, mAbort := false, 0, false, false;
      accepted, produced, disturbed := [], [], false;
    }

    /** The registers after one clock edge, from those before it. */
    method Clock(reset: bool, sValid: bool, s: Beat, sAbort: bool)
      modifies `crc, `rValid, `rData, `rLast, `mValid, `mData, `mLast, `mAbort
      ensures mValid == (!reset && old(rValid) && (sValid || !crcEn))
      ensures mValid ==> mData == old(rData) && mLast == if crcEn then s.last else old(rLast)
      ensures !mValid ==> mLast == old(mLast)
      ensures !reset ==>
                mAbort == ((crcEn && old(rValid) && sValid && s.last && old(crc) != s.data)
                           || (sAbort && (old(rValid) || !crcEn)))
      ensures reset ==> !mAbort
      ensures crc == if reset then Crc.INITIAL_CRC else NextCrc(old(crc), sValid, s)
      ensures Waiting() == if reset || sAbort then None else NextWaiting(crcEn, old(Waiting()), sValid, s)
    {
      hide Crc.Advance;
      var held, abort := rValid, Aborts(crcEn, rValid, crc, sValid, s, sAbort);
      mValid, mAbort := false, false;
      if reset {
        crc, rValid, rData, rLast := Crc.INITIAL_CRC, false, 0, false;
      } else {
        mAbort := abort;
        if sValid {
          if held { mValid, mData, mLast := held, rData, if crcEn then s.last else rLast; }
          rValid, rData, rLast := !crcEn || !s.last, s.data, s.last;
          if s.last {
            crc := Crc.INITIAL_CRC;
          } else {
            crc := Crc.AdvanceCrc(crc, s.data);
          }
        } else if !crcEn {
          if held { mValid, mData, mLast := held, rData, rLast; }
          rValid := false;
        }
        if sAbort { rValid := false; }
      }
    }

    method Step(reset: bool, sValid: bool, s: Beat, sAbort: bool)
      requires Valid()
      modifies this
      ensures Valid()
      ensures accepted == Push(old(accepted), sValid, s)
      ensures produced == Push(old(produced), mValid, RxBeat(mData, mLast, mAbort))
      ensures disturbed == Disturbs(old(disturbed), reset, sValid, old(rValid), sAbort)
      ensures !disturbed && mAbort ==> mValid
    {
      hide Tracks, NextCrc, NextWaiting, Shows, Push;
      ghost var held, acc, wasLast, wasAbort := Waiting(), crc, mLast, mAbort;
      disturbed := Disturbs(disturbed, reset, sValid, rValid, sAbort);
      Clock(reset, sValid, s, sAbort);
      KeepsTrack(!disturbed, crcEn, accepted, produced, acc, held, wasLast, wasAbort, reset, sValid, s,
                 mValid, mData, mLast, mAbort);
      accepted := Push(accepted, sValid, s);
      produced := Push(produced, mValid, RxBeat(mData, mLast, mAbort));
    }
  }

  /** The registers after an undisturbed clock go with the beats after it. */
  lemma KeepsTrack(calm: bool, crcEn: bool, taken: seq<Beat>, out: seq<RxBeat>, crc: Dword, held: Option<Beat>,
                   wasLast: bool, wasAbort: bool, reset: bool, sValid: bool, s: Beat,
                   mValid: bool, mData: Dword, mLast: bool, mAbort: bool)
    requires calm ==> Tracks(crcEn, taken, out, crc, held) && Shows(out, wasLast, wasAbort)
    requires calm && reset ==> !sValid && held.None?
    requires mValid == (!reset && held.Some? && (sValid || !crcEn))
    requires mValid ==> mData == held.value.data && mLast == if crcEn then s.last else held.value.last
    requires !mValid ==> mLast == wasLast
    requires calm ==> mAbort == (!reset && Aborts(crcEn, held.Some?, crc, sValid, s, false))
    ensures calm ==>
              && Tracks(crcEn, Push(taken, sValid, s), Push(out, mValid, RxBeat(mData, mLast, mAbort)),
                        if reset then Crc.INITIAL_CRC else NextCrc(crc, sValid, s),
                        if reset then None else NextWaiting(crcEn, held, sValid, s))
              && Shows(Push(out, mValid, RxBeat(mData, mLast, mAbort)), mLast, mAbort)
              && (mAbort ==> mValid)
  {
    hide Tracks, NextCrc, NextWaiting;
    if calm {
      TracksStep(crcEn, taken, out, crc, held, reset, sValid, s);
      assert Released(crcEn, out, crc, held, sValid, s) == Push(out, mValid, RxBeat(mData, mLast, mAbort));
    }
  }

  /** The last mark stays on show after its beat; an abort shows with it. */
  predicate Shows(produced: seq<RxBeat>, mLast: bool, mAbort: bool) {
    && (produced != [] ==> mLast == Last(produced).last)
    && (mAbort ==> produced != [] && Last(produced).abort)
  }

  predicate Disturbs(before: bool, reset: bool, sValid: bool, held: bool, sAbort: bool) {
    before || (reset && (sValid || held)) || sAbort
  }

  /** The abort decision: a last word that is not the CRC, or an abort from upstream. */
  predicate Aborts(crcEn: bool, held: bool, crc: Dword, sValid: bool, s: Beat, sAbort: bool) {
    || (held && sValid && s.last && crc != s.data && crcEn)
    || ((held || !crcEn) && sAbort)
  }

  function NextCrc(crc: Dword, sValid: bool, s: Beat): Dword {
    if !sValid then crc else if s.last then Crc.INITIAL_CRC else Crc.Advance(crc, s.data)
  }

  function NextWaiting(crcEn: bool, held: Option<Beat>, sValid: bool, s: Beat): Option<Beat> {
    if sValid then if crcEn && s.last then None else Some(s) else if crcEn then held else None
  }

  /** The held word and the CRC register follow the beats taken so far. */
  ghost predicate Tracks(crcEn: bool, taken: seq<Beat>, out: seq<RxBeat>, crc: Dword, held: Option<Beat>) {
    if crcEn then
      && out == CheckCrc(taken)
      && crc == CrcAfter(taken)
      && (if held.Some? then Some(held.value.data) else None) == Held(taken)
    else
      Good(taken) == out + if held.Some? then [RxBeat(held.value.data, held.value.last, false)] else []
  }

  lemma TracksTake(crcEn: bool, taken: seq<Beat>, out: seq<RxBeat>, crc: Dword, held: Option<Beat>, s: Beat)
    requires Tracks(crcEn, taken, out, crc, held)
    ensures Tracks(crcEn, Push(taken, true, s), Released(crcEn, out, crc, held, true, s),
                   NextCrc(crc, true, s), NextWaiting(crcEn, held, true, s))
  {
    hide CheckCrc, CrcAfter, Crc.Advance, Init, Last, Good;
    CheckSnoc(taken, s);
    CrcSnoc(taken, s);
    GoodSnoc(taken, s);
  }

  /** Everything released so far, after one more clock that no abort disturbs. */
  function Released(crcEn: bool, out: seq<RxBeat>, crc: Dword, held: Option<Beat>, sValid: bool, s: Beat): seq<RxBeat> {
    if held.None? || (crcEn && !sValid) then out
    else out + [RxBeat(held.value.data, if crcEn then s.last else held.value.last,
                       Aborts(crcEn, true, crc, sValid, s, false))]
  }

  lemma TracksStep(crcEn: bool, taken: seq<Beat>, out: seq<RxBeat>, crc: Dword, held: Option<Beat>,
                   reset: bool, sValid: bool, s: Beat)
    requires Tracks(crcEn, taken, out, crc, held)
    requires reset ==> !sValid && held.None?
    ensures Tracks(crcEn, Push(taken, sValid, s), Released(crcEn, out, crc, held, sValid, s),
                   if reset then Crc.INITIAL_CRC else NextCrc(crc, sValid, s),
                   if reset then None else NextWaiting(crcEn, held, sValid, s))
  {
    if sValid {
      TracksTake(crcEn, taken, out, crc, held, s);
    } else if reset {
      IdleCrc(taken);
    }
  }

  lemma IdleCrc(bs: seq<Beat>)
    ensures Held(bs).None? ==> CrcAfter(bs) == Crc.INITIAL_CRC
  {
  }

  lemma GoodSnoc(bs: seq<Beat>, b: Beat)
    ensures Good(bs + [b]) == Good(bs) + [RxBeat(b.data, b.last, false)]
  {
  }
}

/** rtl/satalnk_rxpacket.v */
module RxPacketStage {
  import opened Words
  import opened Packets
  import opened Scrambler
  import opened Framing
  import opened TxPacketStage
  import opened RxFramerStage
  import opened RxScramblerStage
  import opened RxCrcStage

  function SwapRx(little: bool, bs: seq<RxBeat>): (r: seq<RxBeat>)
    ensures |r| == |bs|
  {
    seq(|bs|, i requires 0 <= i < |bs| => bs[i].(data := SwapEndian(little, bs[i].data)))
  }

  /** What the transport layer is handed for the contents of frames read off the line. */
  function Decode(little: bool, scramblerEn: bool, bs: seq<Beat>): seq<RxBeat> {
    SwapRx(little, CheckCrc(Descramble(scramblerEn, SwapAll(little, bs))))
  }

  class RxPacket {
    const little: bool
    const framer: RxFramer
    const scrambler: RxScrambler
    const crc: RxCrc
    ghost var cut: bool  // the PHY went away after words had been received

    ghost predicate Valid()
      reads this, framer, scrambler, crc
    {
      && framer.Valid() && scrambler.Valid() && crc.Valid()
      && (Clean() ==> Flows())
    }

    /** The CRC is checked, the PHY stayed up, and no frame was cut off on the line. */
    ghost predicate Clean()
      reads this, framer, crc
    {
      crc.crcEn && !cut && !Deframe(framer.received).bad
    }

    /** The stages hand each beat on once, and nothing in them is ever aborted: the
        abort of a doubled SOF meets empty stages. */
    ghost predicate Flows()
      reads this, framer, scrambler, crc
    {
      && SwapAll(little, framer.produced)
         == Push(scrambler.accepted, framer.mValid, SwapBeat(little, Beat(framer.mData, framer.mLast)))
      && scrambler.produced == Push(crc.accepted, scrambler.mValid, Beat(scrambler.mData, scrambler.mLast))
      && !scrambler.disturbed && !crc.disturbed
      && (framer.mAbort ==> !framer.mValid && !scrambler.mValid && !MidPacket(framer.produced))
    }

    constructor (little: bool, scramblerEn: bool, crcEn: bool)
      ensures Valid() && !cut && framer.received == [] && crc.produced == []
      ensures this.little == little && scrambler.scramblerEn == scramblerEn && crc.crcEn == crcEn
      ensures fresh(framer) && fresh(scrambler) && fresh(crc)
    {
      this.little := little;
      framer := new RxFramer();
      scrambler := new RxScrambler(scramblerEn);
      crc := new RxCrc(crcEn);
      cut := false;
    }

    /** No stage holds anything when the deframer aborts. */
    lemma Quiet()
      requires Valid() && Clean() && framer.mAbort
      ensures !framer.mValid && !scrambler.mValid && !scrambler.midpacket && !crc.rValid
    {
      MidSwap(little, framer.produced);
      MidDescramble(scrambler.scramblerEn, scrambler.accepted);
    }

    lemma CleanIsQuiet()
      requires Valid()
      ensures Clean() && framer.mAbort
              ==> !framer.mValid && !scrambler.mValid && !scrambler.midpacket && !crc.rValid
    {
      hide Deframe, MidPacket, RxFramer.Valid, RxScrambler.Valid, RxCrc.Valid;
      if Clean() && framer.mAbort { Quiet(); }
    }

    ghost function Delivered(): seq<RxBeat>
      reads this, crc
    {
      SwapRx(little, crc.produced)
    }

    /** What has been delivered is the decoded contents of the frames read off the
        line, up to the beats still inside. */
    lemma Delivers()
      requires Valid() && Clean()
      ensures var all := Decode(little, scrambler.scramblerEn, Deframe(framer.received).out);
              Delivered() <= all && (!framer.mValid && !scrambler.mValid ==> Delivered() == all)
    {
      hide Deframe, MidPacket, SwapEndian, SwapAll, SwapRx, CheckCrc, CrcAfter, Descramble;
      var en, all := scrambler.scramblerEn, SwapAll(little, framer.produced);
      DescramblePrefix(en, scrambler.accepted, all);
      CheckPrefix(crc.accepted, scrambler.produced);
      CheckPrefix(scrambler.produced, Descramble(en, all));
      SwapRxPrefix(little, crc.produced, CheckCrc(Descramble(en, all)));
    }

    method Step(valid: bool, w: Word, phyReady: bool)
      requires Valid()
      modifies this, framer, scrambler, crc
      ensures Valid()
      ensures cut == (old(cut) || (!phyReady && old(framer.received) != []))
      ensures framer.received == if phyReady then Push(old(framer.received), valid, w) else []
      ensures Clean() && crc.mAbort ==> crc.mValid
      ensures phyReady && !valid ==> !framer.mValid
      ensures phyReady
              ==> framer.produced == Push(old(framer.produced), framer.mValid, Beat(framer.mData, framer.mLast))
      ensures scrambler.produced
              == Push(old(scrambler.produced), scrambler.mValid, Beat(scrambler.mData, scrambler.mLast))
      ensures crc.produced == Push(old(crc.produced), crc.mValid, RxBeat(crc.mData, crc.mLast, crc.mAbort))
      ensures scrambler.mValid ==> old(framer.mValid)
    {
      hide Deframe, MidPacket, Scramble, FillAfter, SwapEndian, SwapAll, CheckCrc, CrcAfter, Descramble;
      var fValid, fBeat, fAbort := framer.mValid, SwapBeat(little, Beat(framer.mData, framer.mLast)), framer.mAbort;
      var sValid, sBeat, sAbort := scrambler.mValid, Beat(scrambler.mData, scrambler.mLast), scrambler.mAbort;
      hide RxFramer.Valid, RxScrambler.Valid, RxCrc.Valid, Push;
      ghost var received, before := framer.received, framer.produced;
      DeframeNothing();
      StillClean(received, valid, w);
      CleanIsQuiet();
      cut := Cut(cut, phyReady, framer.received);
      framer.Step(valid, w, !phyReady);
      SwapPush(little, before, framer.mValid, Beat(framer.mData, framer.mLast));
      scrambler.Step(fValid, fBeat, fAbort);
      crc.Step(fAbort, sValid, sBeat, sAbort);
    }
  }

  lemma {:induction false} DescramblePrefix(en: bool, a: seq<Beat>, b: seq<Beat>)
    requires a <= b
    ensures Descramble(en, a) <= Descramble(en, b)
  {
    ScramblePrefix(a, b);
  }

  lemma SwapRxPrefix(little: bool, a: seq<RxBeat>, b: seq<RxBeat>)
    requires a <= b
    ensures SwapRx(little, a) <= SwapRx(little, b)
  {
    hide SwapEndian;
  }

  lemma DecodePrefix(little: bool, en: bool, a: seq<Beat>, b: seq<Beat>)
    requires a <= b
    ensures Decode(little, en, a) <= Decode(little, en, b)
  {
    hide SwapAll, SwapRx, Descramble, CheckCrc;
    SwapPrefix(little, a, b);
    DescramblePrefix(en, SwapAll(little, a), SwapAll(little, b));
    var x, y := Descramble(en, SwapAll(little, a)), Descramble(en, SwapAll(little, b));
    CheckPrefix(x, y);
    SwapRxPrefix(little, CheckCrc(x), CheckCrc(y));
  }

  lemma StillClean(received: seq<Word>, valid: bool, w: Word)
    ensures !Deframe(Push(received, valid, w)).bad ==> !Deframe(received).bad
  {
    DeframeSnoc(received, w);
  }

  lemma MidDescramble(en: bool, bs: seq<Beat>)
    ensures MidPacket(Descramble(en, bs)) == MidPacket(bs)
  {
    if bs != [] { ScrambleSnoc(Init(bs), Last(bs)); }
  }

  ghost predicate Cut(before: bool, phyReady: bool, received: seq<Word>) {
    before || (!phyReady && received != [])
  }
}
