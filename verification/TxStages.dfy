/** rtl/satatx_crc.v */
module TxCrcStage {
  import opened Words
  import opened Packets
  import Crc

  datatype State = S_IDLE | S_DATA | S_CRC

  class TxCrc {
    var state: State
    var crc: Dword
    var mValid: bool
    var mData: Dword
    var mLast: bool
    ghost var accepted: seq<Beat>
    ghost var emitted: seq<Beat>

    predicate Ready(mReady: bool)
      reads this
    {
      (state != S_CRC || mLast) && (!mValid || mReady)
    }

    /** The beats inside the stage: the output register, then a CRC still to be sent. */
    ghost function InFlight(): seq<Beat>
      reads this
    {
      (if mValid then [Beat(mData, mLast)] else []) + if state.S_CRC? then [Beat(crc, true)] else []
    }

    /** Nothing is lost, repeated or reordered: what left and what is inside is
        what was accepted, with the CRC of each finished packet behind it. */
    ghost predicate Valid()
      reads this
    {
      && emitted + InFlight() == AppendCrc(accepted)
      && (state.S_CRC? ==> mValid && !mLast && CrcAfter(accepted) == Crc.INITIAL_CRC)
      && (!state.S_CRC? ==> crc == CrcAfter(accepted))
      && (state.S_DATA? <==> MidPacket(accepted))
    }

    constructor ()
      ensures Valid() && accepted == [] && emitted == [] && !mValid
    {
      state, crc := S_IDLE, Crc.INITIAL_CRC;
      mValid, mData, mLast := false, 0, false;
      accepted, emitted := [], [];
    }

    method Step(sValid: bool, s: Beat, mReady: bool)
      requires Valid()
      modifies this
      ensures Valid()
      ensures accepted == Push(old(accepted), sValid && old(Ready(mReady)), s)
      ensures emitted == Push(old(emitted), old(mValid) && mReady, Beat(old(mData), old(mLast)))
      ensures sValid && (!old(mValid) || mReady) && |old(InFlight())| <= 1 ==> accepted == old(accepted) + [s]
      ensures accepted == old(accepted)
              ==> |InFlight()| == |old(InFlight())| - if old(mValid) && mReady then 1 else 0
    {
      hide AppendCrc, CrcAfter, Crc.Advance, Init, Last;
      var take, out := sValid && Ready(mReady), mValid && mReady;
      var free := !mValid || mReady;
      var nextCrc := Crc.AdvanceCrc(crc, s.data);
      var wasCrc, wasLast, oldCrc := state.S_CRC?, mLast, crc;

      if take {
        AppendSnoc(accepted, s);
        CrcSnoc(accepted, s);
        Snoc(accepted, s);
        accepted := accepted + [s];
      }
      if out { emitted := emitted + [Beat(mData, mLast)]; }

      if take {
        state := if s.last then S_CRC else S_DATA;
        crc := nextCrc;
      } else {
        if out && wasCrc { state := S_IDLE; }
        if wasCrc && free { crc := Crc.INITIAL_CRC; }
      }
      if free {
        mValid := take || wasCrc;
        mData := if wasCrc then oldCrc else s.data;
        mLast := wasCrc && !wasLast;
      }
    }
  }
}

/** rtl/satatx_scrambler.v */
module TxScramblerStage {
  import opened Words
  import opened Scrambler

  class TxScrambler {
    var fill: Fill
    var mValid: bool
    var mData: Dword
    var mLast: bool
    ghost var accepted: seq<Beat>
    ghost var emitted: seq<Beat>

    predicate Ready(mReady: bool)
      reads this
    {
      !mValid || mReady
    }

    ghost predicate Valid()
      reads this
    {
      && emitted + (if mValid then [Beat(mData, mLast)] else []) == Scramble(accepted)
      && fill == FillAfter(accepted)
    }

    constructor ()
      ensures Valid() && accepted == [] && emitted == [] && !mValid
    {
      fill := INITIAL;
      mValid, mData, mLast := false, 0, false;
      accepted, emitted := [], [];
    }

    method Step(sValid: bool, s: Beat, mReady: bool)
      requires Valid()
      modifies this
      ensures Valid()
      ensures accepted == Push(old(accepted), sValid && old(Ready(mReady)), s)
      ensures emitted == Push(old(emitted), old(mValid) && mReady, Beat(old(mData), old(mLast)))
      ensures sValid && (!old(mValid) || mReady) ==> accepted == old(accepted) + [s]
      ensures mValid == if old(Ready(mReady)) then sValid else old(mValid)
    {
      hide Scramble, FillAfter, Prn, NextFill, Init, Last, Xor;
      var take := sValid && Ready(mReady);
      var prn, nextFill := ScrambleWord(fill);
      if mValid && mReady { emitted := emitted + [Beat(mData, mLast)]; }
      if !mValid || mReady {
        mValid := sValid;
        mData := Xor(s.data, prn);
        mLast := s.last;
      }
      if take {
        fill := if s.last then INITIAL else nextFill;
        ScrambleSnoc(accepted, s);
        accepted := accepted + [s];
      }
    }
  }
}

/** rtl/satatx_framer.v */
module TxFramerStage {
  import opened Words
  import opened Packets
  import opened Framing

  datatype State = S_IDLE | S_DATA | S_EOF

  /** Up to HOLDs the issued words are the frames of the accepted beats: a frame is
      opened before its first beat and its EOF is all that can be owed. */
  ghost predicate IssuedFrames(state: State, issued: seq<Word>, accepted: seq<Beat>) {
    match state
    case S_IDLE => NoHold(issued) == Frame(accepted) && !MidPacket(accepted)
    case S_DATA => NoHold(issued) == Frame(accepted) + if MidPacket(accepted) then [] else [Prim(SOF)]
    case S_EOF => NoHold(issued) + [Prim(EOF)] == Frame(accepted) && !MidPacket(accepted)
  }

  class TxFramer {
    var state: State
    var mValid: bool
    var mData: Word
    var mLast: bool
    ghost var accepted: seq<Beat>
    ghost var emitted: seq<Word>

    predicate Ready(mReady: bool)
      reads this
    {
      (!mValid || mReady) && state.S_DATA?
    }

    ghost function Issued(): seq<Word>
      reads this
    {
      emitted + if mValid then [mData] else []
    }

    /** How far the stage is from having nothing left but to wait for beats. */
    function Turns(): nat
      reads this
    {
      match state
      case S_EOF => 3
      case S_IDLE => if mValid then 2 else 1
      case S_DATA => 0
    }

    ghost predicate Valid()
      reads this
    {
      && IssuedFrames(state, Issued(), accepted)
      && (!state.S_IDLE? ==> mValid)
      && (mValid ==> mLast == (mData == Prim(EOF)) == state.S_IDLE?)
      && mData != Prim(CONT)
    }

    constructor ()
      ensures Valid() && accepted == [] && emitted == [] && !mValid
    {
      state := S_IDLE;
      mValid, mData, mLast := false, Prim(SOF), false;
      accepted, emitted := [], [];
    }

    method Step(sValid: bool, s: Beat, mReady: bool)
      requires Valid()
      modifies this
      ensures Valid()
      ensures accepted == Push(old(accepted), sValid && old(Ready(mReady)), s)
      ensures emitted == Push(old(emitted), old(mValid) && mReady, old(mData))
      ensures old(state).S_DATA? && sValid && (!old(mValid) || mReady) ==> accepted == old(accepted) + [s]
      ensures old(mValid) && !mReady ==> mValid && mData == old(mData)
      ensures old(mValid) && old(mData) != Prim(EOF) ==> mValid
      ensures state == NextState(old(state), sValid, s, old(mValid), mReady)
      ensures Turns() == NextTurns(old(state), old(Turns()), sValid, s, old(mValid), mReady)
    {
      hide NoHold, Frame, Init, Last, MidPacket;
      var free := !mValid || mReady;
      ghost var issued := Issued();
      if mValid && mReady { emitted := emitted + [mData]; }
      if mReady { mValid := false; }
      assert free ==> emitted == issued && !mValid;

      match state {
        case S_IDLE =>
          if free {
            mData, mLast := Prim(SOF), false;
            if sValid {
              NoHoldSnoc(issued, Prim(SOF));
              state := S_DATA;
              mValid := true;
            } else {
              assert Issued() == issued;
            }
          }
        case S_DATA =>
          mValid := true;
          if free {
            mData := Prim(HOLD);
            if sValid {
              mData := Data(s.data);
              if s.last { state := S_EOF; }
              TakeBeat(issued, accepted, s);
              accepted := accepted + [s];
            } else {
              NoHoldSnoc(issued, Prim(HOLD));
            }
          }
        case S_EOF =>
          if mReady {
            NoHoldSnoc(issued, Prim(EOF));
            state := S_IDLE;
            mValid := true;
            mData := Prim(EOF);
            mLast := true;
          }
      }
    }
  }

  function NextState(state: State, sValid: bool, s: Beat, mValid: bool, mReady: bool): State {
    if mValid && !mReady then state
    else match state
      case S_IDLE => if sValid then S_DATA else S_IDLE
      case S_DATA => if sValid && s.last then S_EOF else S_DATA
      case S_EOF => if mReady then S_IDLE else S_EOF
  }

  function NextTurns(state: State, turns: nat, sValid: bool, s: Beat, mValid: bool, mReady: bool): nat {
    if mValid && !mReady then turns
    else match state
      case S_IDLE => if sValid then 0 else 1
      case S_DATA => if sValid && s.last then 3 else 0
      case S_EOF => 2
  }

  /** A receiver of issued words reads beats that were accepted, and no cut frame. */
  lemma IssuedReads(state: State, issued: seq<Word>, accepted: seq<Beat>)
    requires IssuedFrames(state, issued, accepted)
    ensures Deframe(issued).out <= accepted && !Deframe(issued).bad
    ensures state.S_IDLE? ==> Deframe(issued).out == accepted
  {
    hide NoHold, Frame, Deframe, MidPacket, Init, Last;
    DeframeNoHold(issued);
    DeframeFrame(accepted);
    ExpectedOut(accepted);
    DeframeSnoc(NoHold(issued), Prim(EOF));
    DeframeSnoc(Frame(accepted), Prim(SOF));
    assert state.S_DATA? && MidPacket(accepted) ==> NoHold(issued) == Frame(accepted);
  }

  lemma ExpectedOut(bs: seq<Beat>)
    ensures Expected(bs).out <= bs && !Expected(bs).bad
    ensures !MidPacket(bs) ==> Expected(bs).out == bs && Expected(bs).held.None?
  {
  }

  lemma TakeBeat(issued: seq<Word>, accepted: seq<Beat>, s: Beat)
    requires NoHold(issued) == Frame(accepted) + if MidPacket(accepted) then [] else [Prim(SOF)]
    ensures NoHold(issued + [Data(s.data)]) + (if s.last then [Prim(EOF)] else [])
         == Frame(accepted + [s])
    ensures MidPacket(accepted + [s]) == !s.last
  {
    NoHoldSnoc(issued, Data(s.data));
    FrameSnoc(accepted, s);
    FrameShape(Frame(accepted), !MidPacket(accepted), s);
    Snoc(accepted, s);
  }
}

/** rtl/satalnk_txpacket.v, built as sata_link builds it: no skid buffer. */
module TxPacketStage {
  import opened Words
  import opened Packets
  import opened Scrambler
  import opened Framing
  import opened TxCrcStage
  import opened TxScramblerStage
  import opened TxFramerStage

  function SwapBeat(little: bool, b: Beat): Beat {
    Beat(SwapEndian(little, b.data), b.last)
  }

  function SwapAll(little: bool, bs: seq<Beat>): (r: seq<Beat>)
    ensures |r| == |bs|
  {
    seq(|bs|, i requires 0 <= i < |bs| => SwapBeat(little, bs[i]))
  }

  /** The beats of a frame's contents on the line: CRC appended, scrambled. */
  function Encode(little: bool, bs: seq<Beat>): seq<Beat> {
    SwapAll(little, Scramble(AppendCrc(SwapAll(little, bs))))
  }

  lemma SwapPrefix(little: bool, a: seq<Beat>, b: seq<Beat>)
    requires a <= b
    ensures SwapAll(little, a) <= SwapAll(little, b)
  {
    hide SwapEndian;
  }

  lemma SwapPush(little: bool, bs: seq<Beat>, valid: bool, b: Beat)
    ensures SwapAll(little, Push(bs, valid, b)) == Push(SwapAll(little, bs), valid, SwapBeat(little, b))
  {
    hide SwapEndian;
  }

  lemma MidSwap(little: bool, bs: seq<Beat>)
    ensures MidPacket(SwapAll(little, bs)) == MidPacket(bs)
  {
    hide SwapEndian;
  }

  lemma MidAppend(bs: seq<Beat>)
    ensures !MidPacket(bs) ==> !MidPacket(AppendCrc(bs)) && !MidPacket(Scramble(AppendCrc(bs)))
  {
    if bs != [] { AppendSnoc(Init(bs), Last(bs)); }
  }

  class TxPacket {
    const little: bool
    const crc: TxCrc
    const scrambler: TxScrambler
    const framer: TxFramer
    ghost var accepted: seq<Beat>

    /** Backpressure runs combinationally from the framer to the CRC stage. */
    predicate Ready(mReady: bool)
      reads crc, scrambler, framer
    {
      crc.Ready(scrambler.Ready(framer.Ready(mReady)))
    }

    ghost predicate Valid()
      reads this, crc, scrambler, framer
    {
      && crc.Valid() && scrambler.Valid() && framer.Valid()
      && crc.accepted == SwapAll(little, accepted)
      && scrambler.accepted == crc.emitted
      && framer.accepted == SwapAll(little, scrambler.emitted)
      && (framer.state.S_DATA? && !MidPacket(framer.accepted) ==> scrambler.mValid)
    }

    /** How many moves the beats inside still have to make. */
    ghost function Work(): nat
      reads crc, scrambler, framer
    {
      4 * (2 * |crc.InFlight()| + (if scrambler.mValid then 1 else 0)) + framer.Turns()
    }

    lemma WorkBounded()
      ensures Work() <= 23
    {
    }

    constructor (little: bool)
      ensures Valid() && accepted == [] && framer.emitted == [] && !framer.mValid
      ensures this.little == little
      ensures fresh(crc) && fresh(scrambler) && fresh(framer)
    {
      this.little := little;
      crc := new TxCrc();
      scrambler := new TxScrambler();
      framer := new TxFramer();
      accepted := [];
    }

    /** The word on offer. */
    lemma Offers()
      requires Valid()
      ensures framer.mValid ==> framer.mLast == (framer.mData == Prim(EOF)) && framer.mData != Prim(CONT)
    {
    }

    /** Nothing is left inside. */
    ghost predicate Drained()
      reads crc, scrambler, framer
    {
      crc.InFlight() == [] && !scrambler.mValid && framer.state.S_IDLE? && !framer.mValid
    }

    /** What leaves reads as the encoded packets, and once drained as all of them. */
    lemma Reads()
      requires Valid()
      ensures Deframe(framer.emitted).out <= Encode(little, accepted) && !Deframe(framer.emitted).bad
      ensures Drained() ==> Deframe(framer.emitted).out == Encode(little, accepted)
    {
      hide Deframe, AppendCrc, CrcAfter, Scramble, FillAfter, NoHold, Frame, SwapAll;
      IssuedReads(framer.state, framer.Issued(), framer.accepted);
      DeframePrefix(framer.emitted, framer.Issued());
      assert framer.emitted + [] == framer.emitted && scrambler.emitted + [] == scrambler.emitted;
      var appended := AppendCrc(crc.accepted);
      assert crc.emitted <= appended && (crc.InFlight() == [] ==> crc.emitted == appended);
      ScramblePrefix(crc.emitted, appended);
      SwapPrefix(little, scrambler.emitted, Scramble(appended));
    }

    method Step(sValid: bool, s: Beat, mReady: bool)
      requires Valid()
      modifies this, crc, scrambler, framer
      ensures Valid()
      ensures accepted == Push(old(accepted), sValid && old(Ready(mReady)), s)
      ensures framer.emitted == Push(old(framer.emitted), old(framer.mValid) && mReady, old(framer.mData))
      ensures old(framer.mValid) && !mReady ==> framer.mValid && framer.mData == old(framer.mData)
      ensures old(framer.mValid) && old(framer.mData) != Prim(EOF) ==> framer.mValid
      ensures !sValid && old(Drained()) ==> Drained() && framer.emitted == old(framer.emitted)
      ensures accepted == old(accepted)
              ==> Progresses(old(Work()), Work(), old(framer.mValid) && !mReady,
                             !sValid && old(Drained() || MidPacket(accepted)))
    {
      hide SwapEndian, SwapAll, Push, TxCrc.Valid, TxScrambler.Valid, TxFramer.Valid, TxCrc.InFlight;
      hide MidPacket, NextState, NextTurns, AppendCrc;
      var framerReady := framer.Ready(mReady);
      var scramblerReady := scrambler.Ready(framerReady);
      var fromCrc, crcBeat := crc.mValid, Beat(crc.mData, crc.mLast);
      var fromScrambler, scrambled := scrambler.mValid, Beat(scrambler.mData, scrambler.mLast);
      ghost var take, pass := Both(sValid, crc.Ready(scramblerReady)), Both(fromScrambler, framerReady);
      ghost var inside, state, turns, shown := |crc.InFlight()|, framer.state, framer.Turns(), framer.mValid;
      ghost var drained, framed := Drained(), framer.accepted;
      PushedIff(framer.emitted, Both(framer.mValid, mReady), framer.mData);
      PushedIff(accepted, take, s);
      PushedIff(crc.accepted, take, SwapBeat(little, s));
      SwapPush(little, accepted, take, s);
      SwapPush(little, scrambler.emitted, pass, scrambled);
      Waiting();
      accepted := Push(accepted, take, s);
      crc.Step(sValid, SwapBeat(little, s), scramblerReady);
      scrambler.Step(fromCrc, crcBeat, framerReady);
      framer.Step(fromScrambler, SwapBeat(little, scrambled), mReady);
      OpenFrame(state, fromScrambler, SwapBeat(little, scrambled), shown, mReady, framed);
      WorkStep(take, sValid, inside, state, turns, fromScrambler, SwapBeat(little, scrambled), shown, mReady,
               |crc.InFlight()|, scrambler.mValid);
    }

    lemma Waiting()
      requires Valid()
      ensures crc.mValid <==> crc.InFlight() != []
      ensures crc.InFlight() == [] ==> !crc.state.S_CRC?
      ensures !MidPacket(accepted) && framer.state.S_DATA? ==> crc.mValid || scrambler.mValid
      ensures framer.state.S_EOF? ==> framer.mValid
    {
      hide SwapAll, AppendCrc, CrcAfter, MidPacket;
      if !MidPacket(accepted) { NeverStuck(); }
    }

    /** With whole packets accepted, an open frame still has beats to come. */
    lemma NeverStuck()
      requires Valid() && !MidPacket(accepted)
      ensures framer.state.S_DATA? ==> crc.mValid || scrambler.mValid
    {
      hide SwapAll, AppendCrc, CrcAfter, Scramble, FillAfter, MidPacket;
      MidSwap(little, accepted);
      MidAppend(crc.accepted);
      MidSwap(little, scrambler.emitted);
      assert crc.emitted + [] == crc.emitted && scrambler.emitted + [] == scrambler.emitted;
    }
  }

  lemma PushedIff<T>(s: seq<T>, transfer: bool, x: T)
    ensures Push(s, transfer, x) == s <==> !transfer
  {
  }

  /** Work gets done in every clock that the framer is not held up in. */
  predicate Progresses(before: nat, now: nat, held: bool, done: bool) {
    now <= before && (!held && !done ==> now < before)
  }

  lemma OpenFrame(state: TxFramerStage.State, sValid: bool, s: Beat, mValid: bool, mReady: bool, framed: seq<Beat>)
    requires state.S_DATA? && !MidPacket(framed) ==> sValid
    ensures var take := Both(sValid, Both(!Both(mValid, !mReady), state.S_DATA?));
            NextState(state, sValid, s, mValid, mReady).S_DATA? && !MidPacket(Push(framed, take, s))
            ==> sValid && !take
  {
    MidSnoc(framed, s);
  }

  lemma WorkStep(fed: bool, offered: bool, inside: nat, state: TxFramerStage.State, turns: nat, sValid: bool, s: Beat,
                 mValid: bool, mReady: bool, inside2: nat, sValid2: bool)
    requires turns == (match state case S_EOF => 3 case S_IDLE => if mValid then 2 else 1 case S_DATA => 0)
    requires var ready := (!mValid || mReady) && state.S_DATA?;
             fed || (&& (offered ==> inside > 0)
                     && inside2 == (if inside > 0 && (!sValid || ready) then inside - 1 else inside)
                     && sValid2 == ((sValid && !ready) || inside2 < inside))
    ensures !fed && inside == 0 && !sValid && state.S_IDLE? && !mValid
            ==> inside2 == 0 && !sValid2 && NextTurns(state, turns, sValid, s, mValid, mReady) == 1
    ensures fed || Progresses(4 * (2 * inside + (if sValid then 1 else 0)) + turns,
                              4 * (2 * inside2 + (if sValid2 then 1 else 0))
                              + NextTurns(state, turns, sValid, s, mValid, mReady),
                              mValid && !mReady,
                              !offered && inside == 0 && !sValid && (state.S_DATA? || (state.S_IDLE? && !mValid)))
  {
  }
}
