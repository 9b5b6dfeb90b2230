/** rtl/satalnk_fsm.v */
module LinkFsmStage {
  import opened Words
  import opened Framing

  datatype State =
    | L_IDLE | L_SYNCESCAPE | L_NOCOMMERR | L_NOCOMM | L_SENDALIGN | L_RESET
    | L_SENDCHKRDY | L_SENDDATA | L_RCVRHOLD | L_WAIT
    | L_RCVCHKRDY | L_RCVWAITFIFO | L_RCVDATA | L_HOLD | L_RCVHOLD | L_RCVEOF | L_GOODEND | L_BADEND
    | L_PMDENY
  {
    /** A frame is being sent, or waits for its verdict. */
    predicate Sending() {
      L_SENDDATA? || L_RCVRHOLD? || L_WAIT?
    }

    predicate Receiving() {
      || L_RCVCHKRDY? || L_RCVWAITFIFO? || L_RCVDATA? || L_HOLD?
      || L_RCVHOLD? || L_RCVEOF? || L_GOODEND? || L_BADEND?
    }

    predicate MidFrame() {
      L_SENDDATA? || L_RCVRHOLD?
    }

    /** The packetizer has a frame on offer. */
    predicate Wanting() {
      MidFrame() || L_SENDCHKRDY?
    }

    /** States that a lost PHY does not move. */
    predicate Offline() {
      L_RESET? || L_NOCOMMERR? || L_NOCOMM?
    }

    /** The primitive each state inserts; L_SENDDATA forwards the packetizer instead. */
    function Inserts(): Primitive {
      match this
      case L_IDLE => SYNC
      case L_SYNCESCAPE => SYNC
      case L_RCVWAITFIFO => SYNC
      case L_SENDCHKRDY => X_RDY
      case L_SENDDATA => SYNC
      case L_RCVRHOLD => HOLDA
      case L_RCVHOLD => HOLDA
      case L_HOLD => HOLD
      case L_WAIT => WTRM
      case L_RCVCHKRDY => R_RDY
      case L_RCVDATA => R_IP
      case L_RCVEOF => R_IP
      case L_GOODEND => R_OK
      case L_BADEND => R_ERR
      case L_PMDENY => PMNAK
      case _ => ALIGN
    }
  }

  /** What the module samples at a clock edge: the packetizer, the packet receiver, the words
      from the line, and the PHY. */
  datatype Input = Input(
    sValid: bool, sData: Word, sLast: bool, sAbort: bool,
    mFull: bool, mEmpty: bool, mLast: bool, mAbort: bool,
    rx: Option<Word>, mPhyReady: bool, iPhyReady: bool)
  {
    predicate Receives(p: Primitive) {
      rx == Some(Prim(p))
    }

    predicate ReceivesPrimitive() {
      rx.Some? && rx.value.Prim?
    }
  }

  /** A word on its way to the PHY, and whether the state machine made it up. */
  datatype Slot = Slot(word: Word, inserted: bool)

  function Line(slots: seq<Slot>): seq<Word> {
    if slots == [] then [] else Line(Init(slots)) + [Last(slots).word]
  }

  /** The words that came from the packetizer. */
  function Own(slots: seq<Slot>): seq<Word> {
    if slots == [] then []
    else if Last(slots).inserted then Own(Init(slots))
    else Own(Init(slots)) + [Last(slots).word]
  }

  /** Everything inserted is a primitive that neither opens nor closes a frame, and
      between SOF and EOF it is a HOLDA. */
  ghost predicate Harmless(slots: seq<Slot>) {
    slots != [] ==>
      && Harmless(Init(slots))
      && (Last(slots).inserted ==> HarmlessAfter(Own(Init(slots)), Last(slots).word))
  }

  predicate HarmlessAfter(own: seq<Word>, w: Word) {
    w.Prim? && !w.p.SOF? && !w.p.EOF? && (Deframe(own).inFrame ==> w.p.HOLDA?)
  }

  lemma SlotSnoc(slots: seq<Slot>, x: Slot)
    ensures Line(slots + [x]) == Line(slots) + [x.word]
    ensures Own(slots + [x]) == if x.inserted then Own(slots) else Own(slots) + [x.word]
    ensures Harmless(slots + [x])
        <==> Harmless(slots) && (x.inserted ==> HarmlessAfter(Own(slots), x.word))
  {
    Snoc(slots, x);
  }

  /** A receiver reads the line as if nothing had been inserted. */
  lemma {:induction false} InsertedUnread(slots: seq<Slot>)
    requires Harmless(slots)
    ensures Deframe(Line(slots)) == Deframe(Own(slots))
    decreases |slots|
  {
    if slots != [] {
      var i, w := Init(slots), Last(slots).word;
      InsertedUnread(i);
      HeldInFrame(Own(i));
      DeframeSnoc(Line(i), w);
      if !Last(slots).inserted { DeframeSnoc(Own(i), w); }
    }
  }

  class LinkFsm {
    var linkState: State
    var rReady: bool
    var mPhyData: Word
    var sSuccess: bool
    var sFailed: bool
    ghost var taken: seq<Word>   // words accepted from the packetizer
    ghost var slots: seq<Slot>   // words the PHY has consumed, and the one offered to it
    ghost var broken: bool       // a frame was cut: aborted, or ended by a SYNC, or the PHY lost
    ghost var attempts: nat
    ghost var successes: nat
    ghost var failures: nat
    ghost var dropped: nat       // attempts that an abort or the loss of the PHY ended

    predicate Ready(mPhyReady: bool)
      reads this
    {
      rReady && mPhyReady
    }

    /** What the PHY has consumed. */
    ghost function Presented(): seq<Word>
      requires slots != []
      reads this
    {
      Line(Init(slots))
    }

    predicate Wants()
      reads this
    {
      rReady || linkState.Wanting()
    }

    ghost predicate Valid()
      reads this
    {
      && slots != [] && Last(slots).word == mPhyData
      && Regular(linkState, rReady, mPhyData)
      && Accounted(linkState)
      && (!broken ==> Forwards(linkState, rReady, taken, slots))
    }

    /** Every attempt to send a frame has had exactly one verdict, or is in flight. */
    ghost predicate Accounted(s: State)
      reads `attempts, `successes, `failures, `dropped
    {
      attempts == successes + failures + dropped + if s.Sending() then 1 else 0
    }

    constructor ()
      ensures Valid() && !broken && taken == [] && !Wants()
      ensures Presented() == [] && mPhyData == Prim(ALIGN)
      ensures attempts == dropped == 0
    {
      linkState, rReady, mPhyData := L_RESET, false, Prim(ALIGN);
      sSuccess, sFailed := false, false;
      taken, slots, broken := [], [Slot(Prim(ALIGN), true)], false;
      attempts, successes, failures, dropped := 0, 0, 0, 0;
      SlotSnoc([], Slot(Prim(ALIGN), true));
      assert [] + [Slot(Prim(ALIGN), true)] == [Slot(Prim(ALIGN), true)];
    }

    /** Unless a frame was cut, the far side reads exactly the words taken. */
    lemma ReadsTaken()
      requires Valid() && !broken
      ensures Deframe(Presented() + [mPhyData]) == Deframe(taken)
      ensures Last(slots).inserted ==> Deframe(Presented()) == Deframe(taken)
    {
      SlotSnoc(Init(slots), Last(slots));
      InsertedUnread(slots);
      InsertedUnread(Init(slots));
    }

    /** L_SENDCHKRDY, L_SENDDATA, L_RCVRHOLD and L_WAIT: our side has a frame to send. */
    method ClockSend(i: Input)
      requires Transmitting(linkState)
      requires !rReady && !sSuccess && !sFailed
      modifies `linkState, `rReady, `mPhyData, `sSuccess, `sFailed
      ensures linkState == SendNext(old(linkState), i)
      ensures mPhyData == NextWord(old(linkState), i, old(mPhyData))
      ensures rReady == NextReady(old(linkState), i)
      ensures sSuccess == Succeeds(old(linkState), i) && sFailed == Fails(old(linkState), i)
    {
      match linkState {
        case L_SENDCHKRDY =>
          if i.mPhyReady {
            mPhyData := Prim(X_RDY);
            if i.Receives(R_RDY) {
              linkState := L_SENDDATA;
              rReady := true;
            } else if i.Receives(X_RDY) {
              linkState := L_RCVWAITFIFO;
            }
          }
        case L_SENDDATA =>
          ClockSendData(i);
        case L_RCVRHOLD =>
          if i.mPhyReady {
            mPhyData := Prim(HOLDA);
            if i.ReceivesPrimitive() {
              if i.Receives(SYNC) {
                linkState, sFailed := L_IDLE, true;
              } else if !i.Receives(HOLD) {
                linkState, rReady := L_SENDDATA, true;
              }
            }
          }
          if i.sAbort { linkState := L_SYNCESCAPE; }
        case L_WAIT =>
          if i.mPhyReady {
            mPhyData := Prim(WTRM);
            if i.Receives(SYNC) {
              linkState, sFailed := L_IDLE, true;
            } else if i.Receives(R_OK) {
              linkState, sSuccess := L_IDLE, true;
            } else if i.Receives(R_ERR) {
              linkState, sFailed := L_IDLE, true;
            }
          }
      }
    }

    /** L_SENDDATA: the packetizer's words go out. */
    method ClockSendData(i: Input)
      requires linkState.L_SENDDATA? && !rReady && !sSuccess && !sFailed
      modifies `linkState, `rReady, `mPhyData, `sSuccess, `sFailed
      ensures linkState == SendNext(L_SENDDATA, i)
      ensures mPhyData == NextWord(L_SENDDATA, i, old(mPhyData))
      ensures rReady == NextReady(L_SENDDATA, i)
      ensures sSuccess == Succeeds(L_SENDDATA, i) && sFailed == Fails(L_SENDDATA, i)
    {
      rReady := true;
      if i.mPhyReady {
        mPhyData := i.sData;
        if i.Receives(SYNC) {
          linkState, sFailed, rReady := L_IDLE, true, false;
        } else if i.sLast {
          linkState, rReady := L_WAIT, false;
        } else if i.Receives(HOLD) {
          linkState, rReady := L_RCVRHOLD, false;
        }
      }
      if i.sAbort {
        mPhyData, sFailed, linkState, rReady := Prim(SYNC), false, L_SYNCESCAPE, false;
      }
    }

    /** The idle, start-up and power management states. */
    method ClockIdle(i: Input)
      requires !linkState.Receiving() && !Transmitting(linkState)
      requires Parked(linkState, mPhyData)
      modifies `linkState, `mPhyData
      ensures linkState == IdleNext(old(linkState), i)
      ensures mPhyData == NextWord(old(linkState), i, old(mPhyData))
    {
      match linkState {
        case L_RESET =>
          linkState, mPhyData := L_NOCOMM, Prim(ALIGN);
        case L_NOCOMMERR =>
          if i.mPhyReady { linkState, mPhyData := L_NOCOMM, Prim(ALIGN); }
        case L_NOCOMM =>
          if i.iPhyReady { linkState, mPhyData := L_SENDALIGN, Prim(ALIGN); }
        case L_SENDALIGN =>
          if i.mPhyReady { linkState, mPhyData := L_IDLE, Prim(ALIGN); }
        case L_IDLE =>
          if i.mPhyReady {
            mPhyData := Prim(SYNC);
            if i.Receives(X_RDY) {
              linkState := L_RCVWAITFIFO;
            } else if i.Receives(PMREQ_S) {
              linkState := L_PMDENY;
            } else if i.Receives(PMREQ_P) {
              linkState := L_PMDENY;
            } else if i.sValid {
              linkState := L_SENDCHKRDY;
            }
          }
        case L_SYNCESCAPE =>
          if i.mPhyReady {
            mPhyData := Prim(SYNC);
            if i.Receives(X_RDY) {
              linkState := L_IDLE;
            } else if i.Receives(SYNC) {
              linkState := L_IDLE;
            }
          }
        case L_PMDENY =>
          if i.mPhyReady { mPhyData := Prim(PMNAK); }
          if i.rx.Some? {
            if i.rx.value.Data? { linkState := L_IDLE; }
          }
      }
    }

    /** The receive states. */
    method ClockReceive(i: Input)
      requires linkState.Receiving()
      modifies `linkState, `mPhyData
      ensures linkState == ReceiveNext(old(linkState), i)
      ensures mPhyData == NextWord(old(linkState), i, old(mPhyData))
    {
      if i.mPhyReady { mPhyData := Prim(linkState.Inserts()); }
      match linkState {
        case L_RCVCHKRDY =>
          if i.rx.Some? {
            if i.mPhyReady { linkState := L_IDLE; }
            if i.Receives(SOF) {
              linkState := L_RCVDATA;
            } else if i.Receives(X_RDY) {
              linkState := L_RCVCHKRDY;
            }
          }
        case L_RCVWAITFIFO =>
          if i.rx.Some? {
            if i.mPhyReady {
              linkState := L_IDLE;
              if i.Receives(X_RDY) {
                linkState := if i.mFull then L_RCVWAITFIFO else L_RCVCHKRDY;
              }
            }
          }
        case L_RCVDATA =>
          if i.mFull { linkState := L_HOLD; }
          if i.Receives(HOLD) {
            linkState := L_RCVHOLD;
          } else if i.Receives(EOF) {
            linkState := L_RCVEOF;
          } else if i.Receives(WTRM) {
            linkState := L_BADEND;
          } else if i.Receives(SYNC) {
            linkState := L_IDLE;
          }
        case L_HOLD =>
          if i.mPhyReady {
            if i.mEmpty { linkState := L_RCVDATA; }
          }
          if i.Receives(HOLD) {
            linkState := L_RCVHOLD;
          } else if i.Receives(EOF) {
            linkState := L_RCVEOF;
          } else if i.Receives(SYNC) {
            linkState := L_IDLE;
          }
        case L_RCVHOLD =>
          if i.rx.Some? {
            if i.Receives(EOF) {
              linkState := L_RCVEOF;
            } else if i.Receives(SYNC) {
              linkState := L_IDLE;
            } else if !i.Receives(HOLD) {
              linkState := L_RCVDATA;
            }
          }
        case L_RCVEOF =>
          if i.mLast { linkState := L_GOODEND; }
          if i.mAbort { linkState := L_BADEND; }
        case L_GOODEND =>
          if i.Receives(SYNC) { linkState := L_IDLE; }
        case L_BADEND =>
          if i.Receives(SYNC) { linkState := L_IDLE; }
      }
    }

    /** The registers after one clock edge. */
    method Clock(i: Input)
      requires Parked(linkState, mPhyData)
      modifies `linkState, `rReady, `mPhyData, `sSuccess, `sFailed
      ensures linkState == Next(old(linkState), i)
      ensures mPhyData == NextWord(old(linkState), i, old(mPhyData))
      ensures rReady == NextReady(old(linkState), i)
      ensures sSuccess == Succeeds(old(linkState), i) && sFailed == Fails(old(linkState), i)
    {
      hide SendNext, IdleNext, ReceiveNext, NextWord, NextReady, Succeeds, Fails, Parked;
      var was := linkState;
      rReady, sSuccess, sFailed := false, false, false;
      QuietStates(was, i);
      if Transmitting(was) {
        ClockSend(i);
      } else if was.Receiving() {
        ClockReceive(i);
      } else {
        ClockIdle(i);
      }
      if !i.iPhyReady {
        if !was.Offline() { linkState := L_NOCOMMERR; }
      }
    }

    /** The bookkeeping of attempts and verdicts. */
    ghost method Count(was: State, i: Input)
      requires linkState == Next(was, i) && sSuccess == Succeeds(was, i) && sFailed == Fails(was, i)
      requires Accounted(was)
      modifies `attempts, `successes, `failures, `dropped
      ensures Accounted(linkState)
      ensures !i.sAbort && i.iPhyReady ==> dropped == old(dropped)
      ensures successes != old(successes) ==> i.Receives(R_OK)
    {
      hide Next, Succeeds, Fails, State.Sending;
      VerdictStep(was, i);
      if sSuccess { successes := successes + 1; }
      if sFailed { failures := failures + 1; }
      if was.Sending() {
        if !linkState.Sending() {
          if sSuccess == sFailed { dropped := dropped + 1; }
        }
      } else if linkState.Sending() {
        attempts := attempts + 1;
      }
    }

    /** One clock. A frame only breaks by an abort, a SYNC received, or the loss of the PHY. */
    method Step(i: Input)
      requires Valid()
      requires rReady ==> i.sValid && i.sLast == (i.sData == Prim(EOF)) && i.sData != Prim(CONT)
      modifies this
      ensures Valid()
      ensures linkState == Next(old(linkState), i) && mPhyData == NextWord(old(linkState), i, old(mPhyData))
      ensures taken == Push(old(taken), i.sValid && old(Ready(i.mPhyReady)), i.sData)
      ensures Presented() == Push(old(Presented()), i.mPhyReady, old(mPhyData))
      ensures !i.mPhyReady && !(i.sAbort && old(linkState.L_SENDDATA?)) ==> mPhyData == old(mPhyData)
      ensures Wants() ==> (old(Wants()) || i.sValid) && !(old(Ready(i.mPhyReady)) && i.sData == Prim(EOF))
      ensures broken && !old(broken)
              ==> !i.iPhyReady || (old(linkState.MidFrame()) && (i.sAbort || i.Receives(SYNC)))
      ensures !i.sAbort && i.iPhyReady ==> dropped == old(dropped)
      ensures successes != old(successes) ==> i.Receives(R_OK)
      ensures !i.sAbort ==> slots != [] && Behind(slots) == if !i.mPhyReady then old(Behind(slots))
                                                             else if old(linkState.L_SENDDATA?) then 1 else 0
    {
      hide Forwards, Harmless, Own, Line, Deframe, Push, Last, Init, Next, NextWord, NextReady, Offer, Parked;
      hide Inserted, Breaks, Regular, Succeeds, Fails, State.Sending, State.Receiving, State.Inserts, State.Offline;
      ghost var was, ready, word := linkState, rReady, mPhyData;
      RegularStep(was, ready, i, word);
      Clock(i);
      Count(was, i);
      BehindStep(slots, NextWord(was, i, word), i, was);
      Record(was, ready, word, i);
    }

    /** What has been taken and forwarded. */
    ghost method Record(was: State, ready: bool, word: Word, i: Input)
      requires Regular(was, ready, word) && slots != [] && Last(slots).word == word
      requires linkState == Next(was, i) && mPhyData == NextWord(was, i, word) && rReady == NextReady(was, i)
      requires ready ==> i.sValid && i.sLast == (i.sData == Prim(EOF))
      requires !broken ==> Forwards(was, ready, taken, slots)
      modifies `taken, `slots, `broken
      ensures slots == Offer(old(slots), mPhyData, i.mPhyReady, Inserted(was, i.sAbort))
      ensures slots != [] && Last(slots).word == mPhyData
      ensures Line(Init(slots)) == Push(old(Line(Init(slots))), i.mPhyReady, word)
      ensures taken == Push(old(taken), Both(i.sValid, Both(ready, i.mPhyReady)), i.sData)
      ensures !broken ==> Forwards(linkState, rReady, taken, slots)
      ensures broken && !old(broken) ==> !i.iPhyReady || (was.MidFrame() && (i.sAbort || i.Receives(SYNC)))
    {
      hide Forwards, Line, Deframe, Push, Last, Init, Next, NextWord, NextReady, Offer, Inserted, Breaks, Regular;
      OfferLine(slots, mPhyData, i.mPhyReady, Inserted(was, i.sAbort));
      BreaksOnly(was, i, ready, taken, word);
      ForwardsStep(was, i, ready, taken, slots, word);
      slots := Offer(slots, mPhyData, i.mPhyReady, Inserted(was, i.sAbort));
      taken := Push(taken, Both(i.sValid, Both(ready, i.mPhyReady)), i.sData);
      broken := !Both(!broken, !Breaks(was, linkState, i.sAbort, i.iPhyReady, Deframe(taken).inFrame));
    }
  }

  predicate Inserted(s: State, sAbort: bool) {
    !s.L_SENDDATA? || sAbort
  }

  predicate Breaks(s: State, t: State, sAbort: bool, iPhyReady: bool, inFrame: bool) {
    || (s.MidFrame() && (sAbort || (!t.MidFrame() && inFrame)))
    || (!iPhyReady && (s.MidFrame() || s.L_SENDCHKRDY?))
  }

  lemma BreaksOnly(s: State, i: Input, rReady: bool, taken: seq<Word>, word: Word)
    requires Regular(s, rReady, word)
    requires rReady ==> i.sValid && i.sLast == (i.sData == Prim(EOF))
    ensures var taken2 := Push(taken, Both(i.sValid, Both(rReady, i.mPhyReady)), i.sData);
            Breaks(s, Next(s, i), i.sAbort, i.iPhyReady, Deframe(taken2).inFrame)
            ==> !i.iPhyReady || (s.MidFrame() && (i.sAbort || i.Receives(SYNC)))
  {
    hide Deframe;
    DeframeSnoc(taken, i.sData);
  }

  /** Between clocks: in L_SENDDATA the module is ready, and hardly ever elsewhere. */
  predicate Regular(s: State, rReady: bool, w: Word) {
    && Parked(s, w) && w != Prim(CONT)
    && (s.L_SENDDATA? ==> rReady)
    && (rReady ==> s.L_SENDDATA? || s.L_SYNCESCAPE? || s.L_NOCOMMERR?)
  }

  lemma RegularStep(s: State, rReady: bool, i: Input, before: Word)
    requires Regular(s, rReady, before)
    requires rReady ==> i.sLast == (i.sData == Prim(EOF)) && i.sData != Prim(CONT)
    ensures Parked(s, before)
    ensures var t, ready, w := Next(s, i), NextReady(s, i), NextWord(s, i, before);
            && Regular(t, ready, w)
            && (!i.mPhyReady && !(i.sAbort && s.L_SENDDATA?) ==> w == before)
            && (ready || t.Wanting()
                ==> (s.Wanting() || i.sValid) && !(rReady && i.mPhyReady && i.sData == Prim(EOF)))
  {
  }

  lemma QuietStates(s: State, i: Input)
    ensures Transmitting(s) ==> !s.Receiving() && !s.Offline()
    ensures !Transmitting(s) ==> !NextReady(s, i) && !Succeeds(s, i) && !Fails(s, i)
  {
  }

  /** Each attempt ends in one verdict, unless an abort or the loss of the PHY takes it. */
  lemma VerdictStep(s: State, i: Input)
    ensures var t := Next(s, i);
            && !(Succeeds(s, i) && Fails(s, i))
            && (Succeeds(s, i) ==> i.Receives(R_OK))
            && (Succeeds(s, i) || Fails(s, i) ==> s.Sending() && !t.Sending())
            && (s.Sending() && !t.Sending() && !Succeeds(s, i) && !Fails(s, i) ==> i.sAbort || !i.iPhyReady)
  {
  }

  /** One if the word on offer to the PHY is still one of the packetizer's. */
  ghost function Behind(slots: seq<Slot>): nat
    requires slots != []
  {
    if Last(slots).inserted then 0 else 1
  }

  lemma BehindStep(slots: seq<Slot>, w: Word, i: Input, s: State)
    requires slots != []
    ensures var n := Offer(slots, w, i.mPhyReady, Inserted(s, i.sAbort));
            n != [] && (!i.sAbort && w == NextWord(s, i, Last(slots).word)
                        ==> Behind(n) == if !i.mPhyReady then Behind(slots) else if s.L_SENDDATA? then 1 else 0)
  {
  }

  // ---- Progress ----

  /** The far side goes along with whatever the machine is about, and the PHY stays up. */
  predicate Answers(s: State, i: Input) {
    && i.iPhyReady && !i.sAbort
    && match s
       case L_SENDCHKRDY => i.Receives(R_RDY)
       case L_SENDDATA => !i.Receives(SYNC) && !i.Receives(HOLD)
       case L_RCVRHOLD => i.ReceivesPrimitive() && !i.Receives(SYNC) && !i.Receives(HOLD)
       case L_WAIT => i.Receives(R_OK)
       case L_IDLE => !i.Receives(X_RDY) && !i.Receives(PMREQ_S) && !i.Receives(PMREQ_P)
       case L_PMDENY => i.rx.Some? && i.rx.value.Data?
       case L_RCVEOF => i.mLast || i.mAbort
       case _ => i.Receives(SYNC)
  }

  /** How many moves away L_SENDDATA is. */
  function Distance(s: State): nat {
    match s
    case L_SENDDATA => 0
    case L_SENDCHKRDY => 1
    case L_RCVRHOLD => 1
    case L_IDLE => 2
    case L_NOCOMM => 4
    case L_RCVEOF => 4
    case L_NOCOMMERR => 5
    case L_RESET => 6
    case _ => 3
  }

  /** With such answers every clock of the PHY brings the machine closer to sending, unless it
      sends already, or has nothing to send. */
  lemma DistanceStep(s: State, i: Input)
    requires Answers(s, i)
    ensures !s.L_SENDDATA? ==> Distance(Next(s, i)) <= Distance(s)
    ensures !s.L_SENDDATA? && i.mPhyReady && (s.L_IDLE? ==> i.sValid) ==> Distance(Next(s, i)) < Distance(s)
    ensures s.L_SENDDATA? ==> Distance(Next(s, i)) <= if i.mPhyReady then 3 else 0
  {
  }

  /** The slots after a clock: one more when the PHY took the word on offer. */
  ghost function Offer(slots: seq<Slot>, w: Word, mPhyReady: bool, inserted: bool): seq<Slot>
    requires slots != []
  {
    if mPhyReady then slots + [Slot(w, inserted)]
    else if Last(slots).word == w then slots
    else Init(slots) + [Slot(w, true)]
  }

  lemma OfferLine(slots: seq<Slot>, w: Word, mPhyReady: bool, inserted: bool)
    requires slots != []
    ensures var n := Offer(slots, w, mPhyReady, inserted);
            && n != [] && Last(n).word == w
            && Line(Init(n)) == Push(Line(Init(slots)), mPhyReady, Last(slots).word)
  {
    hide Line;
    SlotSnoc(Init(slots), Last(slots));
  }

  /** A clock that breaks no frame keeps the words taken and those forwarded the same. */
  lemma ForwardsStep(s: State, i: Input, rReady: bool, taken: seq<Word>, slots: seq<Slot>, word: Word)
    requires slots != [] && Last(slots).word == word
    requires rReady ==> i.sValid && i.sLast == (i.sData == Prim(EOF))
    ensures var t, taken2 := Next(s, i), Push(taken, Both(i.sValid, Both(rReady, i.mPhyReady)), i.sData);
            Forwards(s, rReady, taken, slots) && !Breaks(s, t, i.sAbort, i.iPhyReady, Deframe(taken2).inFrame)
            ==> Forwards(t, NextReady(s, i), taken2,
                         Offer(slots, NextWord(s, i, word), i.mPhyReady, Inserted(s, i.sAbort)))
  {
    hide Own, Line, Harmless, Deframe, Next, NextWord, NextReady;
    var taken2 := Push(taken, Both(i.sValid, Both(rReady, i.mPhyReady)), i.sData);
    SlotSnoc(slots, Slot(NextWord(s, i, word), Inserted(s, i.sAbort)));
    DeframeSnoc(taken, i.sData);
    UnbrokenFacts(s, i, word, Deframe(taken2).inFrame);
  }

  lemma UnbrokenFacts(s: State, i: Input, before: Word, inFrame: bool)
    ensures var t, w := Next(s, i), NextWord(s, i, before);
            !Breaks(s, t, i.sAbort, i.iPhyReady, inFrame) ==>
              && NextReady(s, i) == t.L_SENDDATA?
              && (s.MidFrame() ==> !i.sAbort) && (s.MidFrame() && inFrame ==> t.MidFrame())
              && w == (if !i.mPhyReady then before else if s.L_SENDDATA? then i.sData else Prim(s.Inserts()))
  {
  }

  predicate Transmitting(s: State) {
    s.Sending() || s.L_SENDCHKRDY?
  }

  // ---- The registers after a clock edge ----

  function Next(s: State, i: Input): State {
    if !i.iPhyReady && !s.Offline() then L_NOCOMMERR
    else if Transmitting(s) then SendNext(s, i)
    else if s.Receiving() then ReceiveNext(s, i)
    else IdleNext(s, i)
  }

  /** m_phy_data */
  function NextWord(s: State, i: Input, before: Word): Word {
    if s.L_SENDDATA? && i.sAbort then Prim(SYNC)
    else if !i.mPhyReady then before
    else if s.L_SENDDATA? then i.sData
    else Prim(s.Inserts())
  }

  /** r_ready: an abort clears it in L_SENDDATA only. */
  predicate NextReady(s: State, i: Input) {
    match s
    case L_SENDCHKRDY => i.mPhyReady && i.Receives(R_RDY)
    case L_SENDDATA => SendNext(s, i).L_SENDDATA?
    case L_RCVRHOLD => i.mPhyReady && i.ReceivesPrimitive() && !i.Receives(SYNC) && !i.Receives(HOLD)
    case _ => false
  }

  predicate Succeeds(s: State, i: Input) {
    s.L_WAIT? && i.mPhyReady && i.Receives(R_OK)
  }

  predicate Fails(s: State, i: Input) {
    && i.mPhyReady
    && ((s.L_SENDDATA? && i.Receives(SYNC) && !i.sAbort)
        || (s.L_RCVRHOLD? && i.Receives(SYNC))
        || (s.L_WAIT? && (i.Receives(SYNC) || i.Receives(R_ERR))))
  }

  function SendNext(s: State, i: Input): State {
    match s
    case L_SENDCHKRDY =>
      if !i.mPhyReady then s
      else if i.Receives(R_RDY) then L_SENDDATA else if i.Receives(X_RDY) then L_RCVWAITFIFO else s
    case L_SENDDATA =>
      if i.sAbort then L_SYNCESCAPE else if !i.mPhyReady then s
      else if i.Receives(SYNC) then L_IDLE else if i.sLast then L_WAIT
      else if i.Receives(HOLD) then L_RCVRHOLD else s
    case L_RCVRHOLD =>
      if i.sAbort then L_SYNCESCAPE else if !i.mPhyReady || !i.ReceivesPrimitive() || i.Receives(HOLD) then s
      else if i.Receives(SYNC) then L_IDLE else L_SENDDATA
    case _ =>
      if i.mPhyReady && (i.Receives(SYNC) || i.Receives(R_OK) || i.Receives(R_ERR)) then L_IDLE else s
  }

  function IdleNext(s: State, i: Input): State {
    match s
    case L_RESET => L_NOCOMM
    case L_NOCOMMERR => if i.mPhyReady then L_NOCOMM else s
    case L_NOCOMM => if i.iPhyReady then L_SENDALIGN else s
    case L_SENDALIGN => if i.mPhyReady then L_IDLE else s
    case L_IDLE =>
      if !i.mPhyReady then s
      else if i.Receives(X_RDY) then L_RCVWAITFIFO
      else if i.Receives(PMREQ_S) || i.Receives(PMREQ_P) then L_PMDENY
      else if i.sValid then L_SENDCHKRDY else s
    case L_SYNCESCAPE =>
      if i.mPhyReady && (i.Receives(X_RDY) || i.Receives(SYNC)) then L_IDLE else s
    case _ => if i.rx.Some? && i.rx.value.Data? then L_IDLE else s
  }

  function ReceiveNext(s: State, i: Input): State {
    match s
    case L_RCVCHKRDY =>
      if i.Receives(SOF) then L_RCVDATA
      else if i.Receives(X_RDY) then s
      else if i.rx.Some? && i.mPhyReady then L_IDLE else s
    case L_RCVWAITFIFO =>
      if i.rx.None? || !i.mPhyReady then s
      else if !i.Receives(X_RDY) then L_IDLE else if i.mFull then s else L_RCVCHKRDY
    case L_RCVDATA =>
      if i.Receives(HOLD) then L_RCVHOLD
      else if i.Receives(EOF) then L_RCVEOF
      else if i.Receives(WTRM) then L_BADEND
      else if i.Receives(SYNC) then L_IDLE
      else if i.mFull then L_HOLD else s
    case L_HOLD =>
      if i.Receives(HOLD) then L_RCVHOLD
      else if i.Receives(EOF) then L_RCVEOF
      else if i.Receives(SYNC) then L_IDLE
      else if i.mEmpty && i.mPhyReady then L_RCVDATA else s
    case L_RCVHOLD =>
      if i.rx.None? || i.Receives(HOLD) then s
      else if i.Receives(EOF) then L_RCVEOF
      else if i.Receives(SYNC) then L_IDLE else L_RCVDATA
    case L_RCVEOF => if i.mAbort then L_BADEND else if i.mLast then L_GOODEND else s
    case _ => if i.Receives(SYNC) then L_IDLE else s
  }

  /** Until the link is up the PHY is offered nothing but ALIGN. */
  predicate Parked(s: State, mPhyData: Word) {
    s.L_RESET? || s.L_NOCOMM? ==> mPhyData == Prim(ALIGN)
  }

  /** Every word taken is offered to the PHY exactly once and in order. */
  ghost predicate Forwards(s: State, rReady: bool, taken: seq<Word>, slots: seq<Slot>) {
    && Own(slots) == taken
    && Harmless(slots)
    && rReady == s.L_SENDDATA?
    && (!s.MidFrame() ==> !Deframe(taken).inFrame)
  }

  // ---- Answering a frame received ----

  /** The states and the words offered to the PHY over the clocks of a run. */
  ghost predicate Run(ins: seq<Input>, states: seq<State>, words: seq<Word>) {
    && |states| == |words| == |ins| + 1
    && states[0] == L_RESET && words[0] == Prim(ALIGN)
    && forall k :: 0 <= k < |ins| ==> Goes(states[k], words[k], ins[k], states[k + 1], words[k + 1])
  }

  predicate Goes(s: State, w: Word, i: Input, t: State, v: Word) {
    t == Next(s, i) && v == NextWord(s, i, w)
  }

  predicate IsVerdict(w: Word) {
    w == Prim(R_OK) || w == Prim(R_ERR)
  }

  /** A frame has begun to come in, and has no verdict. */
  predicate Incoming(s: State) {
    s.Receiving() && !s.L_GOODEND? && !s.L_BADEND?
  }

  /** While a frame comes in no verdict is on offer, and after it only its own. */
  predicate Answering(s: State, w: Word) {
    && (Incoming(s) ==> !IsVerdict(w))
    && (s.L_GOODEND? ==> w != Prim(R_ERR))
    && (s.L_BADEND? ==> w != Prim(R_OK))
  }

  lemma AnsweringStep(s: State, w: Word, i: Input)
    requires Answering(s, w)
    ensures Answering(Next(s, i), NextWord(s, i, w))
    ensures Next(s, i).L_GOODEND? && !s.L_GOODEND? ==> s.L_RCVEOF? && i.mLast && !i.mAbort
  {
  }

  lemma {:induction false} RunAnswers(ins: seq<Input>, states: seq<State>, words: seq<Word>, n: nat)
    requires Run(ins, states, words) && n <= |ins|
    ensures Answering(states[n], words[n])
  {
    hide Answering, Next, NextWord;
    if n == 0 {
      Unanswered();
    } else {
      RunAnswers(ins, states, words, n - 1);
      assert Goes(states[n - 1], words[n - 1], ins[n - 1], states[n], words[n]);
      AnsweringStep(states[n - 1], words[n - 1], ins[n - 1]);
    }
  }

  lemma Unanswered()
    ensures Answering(L_RESET, Prim(ALIGN))
  {
  }

  /** A clock that receives the EOF of a frame. */
  predicate EndsFrame(s: State, i: Input) {
    i.iPhyReady && i.Receives(EOF) && (s.L_RCVDATA? || s.L_HOLD? || s.L_RCVHOLD?)
  }

  /** What the packet receiver makes of the frame. */
  function Judged(i: Input): Option<Primitive> {
    if !i.iPhyReady then None else if i.mAbort then Some(R_ERR) else if i.mLast then Some(R_OK) else None
  }

  function VerdictState(p: Primitive): State {
    if p.R_OK? then L_GOODEND else L_BADEND
  }

  /** The machine waits for the verdict, and keeps it until a SYNC. */
  lemma EndStep(s: State, w: Word, i: Input)
    requires i.iPhyReady
    ensures EndsFrame(s, i) ==> Next(s, i).L_RCVEOF?
    ensures s.L_RCVEOF? ==> Next(s, i) == if Judged(i).Some? then VerdictState(Judged(i).value) else s
    ensures s.L_GOODEND? || s.L_BADEND? ==> Next(s, i) == if i.Receives(SYNC) then L_IDLE else s
    ensures s.L_GOODEND? && i.mPhyReady ==> NextWord(s, i, w) == Prim(R_OK)
    ensures s.L_BADEND? && i.mPhyReady ==> NextWord(s, i, w) == Prim(R_ERR)
    ensures !i.mPhyReady && !s.L_SENDDATA? ==> NextWord(s, i, w) == w
  {
  }

  /** From the EOF on the machine waits, offering no verdict. */
  lemma {:induction false} WaitsForVerdict(ins: seq<Input>, states: seq<State>, words: seq<Word>, k: nat, n: nat)
    requires Run(ins, states, words) && k < n <= |ins| && EndsFrame(states[k], ins[k])
    requires forall j :: k < j < n ==> ins[j].iPhyReady && Judged(ins[j]).None?
    ensures states[n].L_RCVEOF? && !IsVerdict(words[n])
    decreases n
  {
    hide Next, NextWord, IsVerdict;
    if k + 1 < n { WaitsForVerdict(ins, states, words, k, n - 1); }
    assert Goes(states[n - 1], words[n - 1], ins[n - 1], states[n], words[n]);
    EndStep(states[n - 1], words[n - 1], ins[n - 1]);
    RunAnswers(ins, states, words, n);
  }

  /** The answer to a frame. After each EOF the machine offers no verdict until the packet
      receiver has judged the frame, at clock v; then R_OK or R_ERR as it was judged, from the
      first clock that the PHY is ready on, and never the other one, until a SYNC comes. */
  lemma {:induction false} OneVerdict(ins: seq<Input>, states: seq<State>, words: seq<Word>, k: nat, v: nat, n: nat)
    requires Run(ins, states, words) && k < v < n <= |ins| && EndsFrame(states[k], ins[k])
    requires forall j :: k < j < v ==> ins[j].iPhyReady && Judged(ins[j]).None?
    requires Judged(ins[v]).Some?
    requires forall j :: v < j < n ==> ins[j].iPhyReady && !ins[j].Receives(SYNC)
    ensures states[n] == VerdictState(Judged(ins[v]).value)
    ensures IsVerdict(words[n]) ==> words[n] == Prim(Judged(ins[v]).value)
    ensures (exists j :: v < j < n && ins[j].mPhyReady) ==> IsVerdict(words[n])
    ensures n < |ins| && ins[n].iPhyReady && ins[n].Receives(SYNC) ==> states[n + 1].L_IDLE?
    decreases n
  {
    hide Next, NextWord;
    if v + 1 < n {
      OneVerdict(ins, states, words, k, v, n - 1);
    } else {
      WaitsForVerdict(ins, states, words, k, v);
    }
    assert Goes(states[n - 1], words[n - 1], ins[n - 1], states[n], words[n]);
    EndStep(states[n - 1], words[n - 1], ins[n - 1]);
    RunAnswers(ins, states, words, n);
    if n < |ins| {
      assert Goes(states[n], words[n], ins[n], states[n + 1], words[n + 1]);
      if ins[n].iPhyReady { EndStep(states[n], words[n], ins[n]); }
    }
  }

  /** And R_OK answers nothing else: the machine is only ever in L_GOODEND because a frame has
      ended, and was then judged good, with no SYNC since. */
  lemma {:induction false} GoodEndOnly(ins: seq<Input>, states: seq<State>, words: seq<Word>, n: nat)
      returns (v: nat)
    requires Run(ins, states, words) && n <= |ins| && states[n].L_GOODEND?
    ensures v < n && states[v].L_RCVEOF? && ins[v].mLast && !ins[v].mAbort
    ensures forall j :: v < j <= n ==> states[j].L_GOODEND?
    ensures forall j :: v < j < n ==> !ins[j].Receives(SYNC)
  {
    hide NextWord, IsVerdict;
    assert n > 0;
    assert Goes(states[n - 1], words[n - 1], ins[n - 1], states[n], words[n]);
    RunAnswers(ins, states, words, n - 1);
    AnsweringStep(states[n - 1], words[n - 1], ins[n - 1]);
    if states[n - 1].L_GOODEND? {
      v := GoodEndOnly(ins, states, words, n - 1);
    } else {
      v := n - 1;
    }
  }
}
