/** rtl/satalnk_align.v, with the skid buffer of rtl/sata_skid.v in front of it. */
module AlignStage {
  import opened Words
  import opened Arithmetic
  import opened Framing

  datatype State =
    | S_ALIGN1 | S_ALIGN2 | S_PRIMITIVE1 | S_PRIMITIVE2 | S_CONT | S_SCRAMBLED | S_RPT1 | S_RPT2 | S_DATA

  const ALIGN_TIMEOUT := 257
  const PERIOD := ALIGN_TIMEOUT + 1

  /** next_fsm, next_data and skd_ready. */
  datatype Choice = Choice(state: State, word: Word, ready: bool)

  /** The combinational half of the state machine. */
  function Choose(state: State, trigger: bool, needRepeat: bool, oWord: Word, next: Word,
                  continueEn: bool, lastPrimitive: Primitive, mask: Dword): Choice
  {
    if trigger then Choice(S_ALIGN1, Prim(ALIGN), false)
    else match state
      case S_ALIGN1 => Choice(S_ALIGN2, Prim(ALIGN), false)
      case S_ALIGN2 =>
        if needRepeat then Choice(S_RPT1, Prim(lastPrimitive), true)
        else Choice(if next.Prim? then S_PRIMITIVE1 else S_DATA, next, true)
      case S_PRIMITIVE1 => Choice(S_PRIMITIVE2, oWord, false)
      case S_PRIMITIVE2 =>
        if next.Data? then Choice(S_DATA, next, true)
        else if continueEn && next == oWord then Choice(S_CONT, Prim(CONT), true)
        else Choice(S_PRIMITIVE1, next, true)
      case S_CONT =>
        if next.Data? then Choice(S_RPT1, Prim(lastPrimitive), false)
        else if next == oWord then Choice(S_SCRAMBLED, Data(mask), true)
        else Choice(S_PRIMITIVE1, next, true)
      case S_SCRAMBLED =>
        if next.Data? then Choice(S_RPT1, Prim(lastPrimitive), false)
        else if oWord == Data(Code(next.p)) then Choice(S_SCRAMBLED, Data(mask), true)
        else Choice(S_PRIMITIVE1, next, true)
      case S_RPT1 => Choice(S_RPT2, Prim(lastPrimitive), false)
      case S_RPT2 => Choice(S_DATA, next, true)
      case S_DATA => Choice(if next.Prim? then S_PRIMITIVE1 else S_DATA, next, true)
  }

  // ---- What the line carries ----

  /** taken are the words consumed from the skid buffer, sent those put on the line, and
      known is the next word to be consumed when it can no longer change. A receiver
      that removes ALIGN and CONT gets the words taken, up to repeated primitives. */
  ghost predicate Carries(state: State, oWord: Word, lastPrimitive: Primitive,
                          taken: seq<Word>, sent: seq<Word>, known: Option<Word>)
  {
    && Squash(RemoveCont(sent)) == Squash(taken)
    && Suppressing(sent) == state.S_CONT?
    && LastOf(taken) != Some(Prim(CONT)) && known != Some(Prim(CONT))
    && Repeats(state, oWord, lastPrimitive, LastOf(taken), known)
  }

  /** lastPrimitive is sampled from the input of the skid buffer, one word ahead of
      what is being sent; it is right whenever it will be used. */
  predicate Repeats(state: State, oWord: Word, lastPrimitive: Primitive, current: Option<Word>, known: Option<Word>) {
    match state
    case S_PRIMITIVE1 => current == Some(oWord) && oWord.Prim?
                         && (known.None? || known == current ==> Prim(lastPrimitive) == oWord)
    case S_PRIMITIVE2 => current == Some(oWord) && oWord.Prim?
                         && (known.None? || known == current ==> Prim(lastPrimitive) == oWord)
    case S_CONT => oWord == Prim(CONT)
                   && (known.None? || known.value.Data? ==> current == Some(Prim(lastPrimitive)))
                   && current.Some? && current.value.Prim?
    case S_RPT1 => known.Some? && known.value.Data? && current == Some(Prim(lastPrimitive))
    case S_RPT2 => known.Some? && known.value.Data? && current == Some(Prim(lastPrimitive))
    case S_SCRAMBLED => false
    case _ => true
  }

  /** Emitting an ALIGN, or once more the primitive that was taken last, changes nothing. */
  lemma EmitIdle(taken: seq<Word>, sent: seq<Word>, w: Word)
    requires Squash(RemoveCont(sent)) == Squash(taken)
    requires w == Prim(ALIGN) || (taken != [] && w == Last(taken) && w.Prim? && !w.p.CONT?)
    ensures Squash(RemoveCont(sent + [w])) == Squash(taken) && !Suppressing(sent + [w])
  {
    RemoveContSnoc(sent, w);
    SquashSnoc(RemoveCont(sent), w);
    if w != Prim(ALIGN) { SquashAgain(taken); }
    if w == Prim(ALIGN) { assert RemoveCont(sent) + [] == RemoveCont(sent); }
  }

  lemma SquashAgain(ws: seq<Word>)
    requires ws != [] && Last(ws).Prim?
    ensures SquashWord(Squash(ws), Last(ws)) == Squash(ws)
  {
  }

  /** Taking a word and emitting it. */
  lemma EmitTaken(taken: seq<Word>, sent: seq<Word>, w: Word)
    requires Squash(RemoveCont(sent)) == Squash(taken)
    requires w != Prim(CONT) && (Suppressing(sent) ==> w.Prim?)
    ensures Squash(RemoveCont(sent + [w])) == Squash(taken + [w]) && !Suppressing(sent + [w])
  {
    RemoveContSnoc(sent, w);
    SquashSnoc(RemoveCont(sent), w);
    SquashSnoc(taken, w);
    if w == Prim(ALIGN) { assert RemoveCont(sent) + [] == RemoveCont(sent); }
  }

  /** Taking the same primitive a second time and emitting a CONT for it. */
  lemma EmitCont(taken: seq<Word>, sent: seq<Word>)
    requires Squash(RemoveCont(sent)) == Squash(taken)
    requires taken != [] && Last(taken).Prim?
    ensures Squash(RemoveCont(sent + [Prim(CONT)])) == Squash(taken + [Last(taken)])
    ensures Suppressing(sent + [Prim(CONT)])
  {
    RemoveContSnoc(sent, Prim(CONT));
    assert RemoveCont(sent) + [] == RemoveCont(sent);
    SquashSnoc(taken, Last(taken));
    SquashAgain(taken);
  }

  /** The three things a clock can put on the line. */
  predicate Emits(c: Choice, suppressing: bool, current: Option<Word>, next: Word) {
    if c.word == Prim(CONT) then c.ready && c.state.S_CONT? && current == Some(next) && next.Prim?
    else
      && !c.state.S_CONT?
      && (if c.ready then c.word == next && (suppressing ==> next.Prim?)
          else c.word == Prim(ALIGN) || (current == Some(c.word) && c.word.Prim?))
  }

  /** sData is the word at the input of the skid buffer: the one consumed, or, when
      `after` is known, the one behind it. */
  lemma RepeatsStep(state: State, trigger: bool, needRepeat: bool, oWord: Word, next: Word, continueEn: bool,
                    lastPrimitive: Primitive, mask: Dword, current: Option<Word>, known: Option<Word>,
                    sData: Word, after: Option<Word>)
    requires Repeats(state, oWord, lastPrimitive, current, known)
    requires current != Some(Prim(CONT)) && next != Prim(CONT) && sData != Prim(CONT)
    requires known.Some? ==> known.value == next
    requires if after.Some? then sData == after.value else sData == next
    requires state.S_ALIGN2? ==> !needRepeat
    ensures var c := Choose(state, trigger, needRepeat, oWord, next, continueEn, lastPrimitive, mask);
            && Emits(c, state.S_CONT?, current, next)
            && Repeats(c.state, c.word, Sampled(c.ready, sData, lastPrimitive),
                       if c.ready then Some(next) else current, if c.ready then after else Some(next))
  {
  }

  /** What is known of the next word after a clock; nothing need be known while ALIGNs go out. */
  predicate KnownNext(c: Choice, next: Word, after: Option<Word>, known: Option<Word>) {
    known == (if c.ready then after else Some(next)) || (known.None? && c.state.S_ALIGN1?)
  }

  /** One clock keeps the line faithful. */
  lemma CarriesStep(state: State, trigger: bool, needRepeat: bool, oWord: Word, next: Word, continueEn: bool,
                    lastPrimitive: Primitive, mask: Dword, taken: seq<Word>, sent: seq<Word>, known: Option<Word>,
                    sData: Word, after: Option<Word>, known2: Option<Word>)
    requires known.Some? ==> known.value == next
    requires known.None? ==> next == sData
    requires if after.Some? then sData == after.value else sData == next
    requires state.S_ALIGN2? ==> !needRepeat
    requires var c := Choose(state, trigger, needRepeat, oWord, next, continueEn, lastPrimitive, mask);
             KnownNext(c, next, after, known2)
    ensures var c := Choose(state, trigger, needRepeat, oWord, next, continueEn, lastPrimitive, mask);
            Carries(state, oWord, lastPrimitive, taken, sent, known) && sData != Prim(CONT)
            ==> Carries(c.state, c.word, Sampled(c.ready, sData, lastPrimitive),
                        Push(taken, c.ready, next), sent + [c.word], known2)
  {
    hide Squash, RemoveCont, Suppressing;
    var c := Choose(state, trigger, needRepeat, oWord, next, continueEn, lastPrimitive, mask);
    if Carries(state, oWord, lastPrimitive, taken, sent, known) && sData != Prim(CONT) {
      RepeatsStep(state, trigger, needRepeat, oWord, next, continueEn, lastPrimitive, mask, LastOf(taken), known,
                  sData, after);
      EmitsStep(c, taken, sent, next);
    }
  }

  function LastOf(ws: seq<Word>): Option<Word> {
    if ws == [] then None else Some(Last(ws))
  }

  lemma EmitsStep(c: Choice, taken: seq<Word>, sent: seq<Word>, next: Word)
    requires Squash(RemoveCont(sent)) == Squash(taken)
    requires Emits(c, Suppressing(sent), LastOf(taken), next)
    requires next != Prim(CONT)
    ensures Squash(RemoveCont(sent + [c.word])) == Squash(Push(taken, c.ready, next))
    ensures Suppressing(sent + [c.word]) == c.state.S_CONT?
    ensures LastOf(Push(taken, c.ready, next)) == if c.ready then Some(next) else LastOf(taken)
  {
    hide Squash, RemoveCont, Suppressing;
    if c.word == Prim(CONT) {
      EmitCont(taken, sent);
    } else if c.ready {
      EmitTaken(taken, sent, next);
    } else {
      EmitIdle(taken, sent, c.word);
    }
  }

  // ---- Cadence ----

  /** After n words: when the next ALIGN pair is due, and where in it we are. */
  predicate OnBeat(n: nat, trigger: bool, counter: nat, state: State) {
    OnBeatAt(n % PERIOD, n == 0, trigger, counter, state)
  }

  predicate OnBeatAt(m: nat, first: bool, trigger: bool, counter: nat, state: State) {
    && trigger == (m == 0)
    && (!trigger ==> counter == PERIOD - m)
    && (state.S_ALIGN1? <==> first || m == 1)
    && (state.S_ALIGN2? <==> m == 2)
  }

  /** How many clocks in a row the input can have been stalled on reaching a state. */
  function MaxStall(state: State): nat {
    match state
    case S_ALIGN1 => 3
    case S_ALIGN2 => 4
    case S_PRIMITIVE2 => 1
    case S_RPT1 => 1
    case S_RPT2 => 2
    case _ => 0
  }

  /** For how many clocks an ALIGN at the input can still show on the line. */
  const ECHO := 10

  /** An ALIGN was offered at clock j, or not long before. */
  ghost predicate Echoes(offered: seq<Word>, j: nat) {
    exists i :: 0 <= i < |offered| && j - ECHO <= i <= j && offered[i] == Prim(ALIGN)
  }

  /** Two ALIGNs, then 256 words that are not, and so on; any other ALIGN is an echo. */
  ghost predicate Cadence(sent: seq<Word>, offered: seq<Word>) {
    && |offered| == |sent|
    && forall j :: 0 <= j < |sent| ==>
         && (j % 258 < 2 ==> sent[j] == Prim(ALIGN))
         && (sent[j] == Prim(ALIGN) ==> j % 258 < 2 || Echoes(offered, j))
  }

  /** age is the number of clocks since an ALIGN was offered, or more than ECHO. */
  ghost predicate Aged(offered: seq<Word>, age: nat) {
    if age < |offered| then offered[|offered| - 1 - age] == Prim(ALIGN) else age > ECHO
  }

  function NextAge(age: nat, sData: Word): nat {
    if sData == Prim(ALIGN) then 0 else age + 1
  }

  /** How long ago an ALIGN must have been offered for the registers to hold one still. */
  predicate Fades(state: State, oWord: Word, lastPrimitive: Primitive, current: Option<Word>, known: Option<Word>,
                  stalled: nat, age: nat)
  {
    && (known == Some(Prim(ALIGN)) ==> age <= stalled)
    && (current == Some(Prim(ALIGN)) ==> age <= stalled + 5)
    && (state.S_PRIMITIVE1? || state.S_PRIMITIVE2? ==>
          && current == Some(oWord) && oWord.Prim?
          && (known.None? || known == current ==> Prim(lastPrimitive) == oWord))
    && (lastPrimitive.ALIGN? ==>
          && (state.S_CONT? || state.S_SCRAMBLED? ==> age == 0 || (age <= 7 && known.Some? && known.value.Data?))
          && (state.S_RPT1? ==> age <= 8)
          && (state.S_RPT2? ==> age <= 9))
  }

  /** In any state, CONT at the input or not, an ALIGN goes out only when due or as an echo. */
  lemma FadesStep(state: State, trigger: bool, needRepeat: bool, oWord: Word, next: Word, continueEn: bool,
                  lastPrimitive: Primitive, mask: Dword, current: Option<Word>, known: Option<Word>,
                  sData: Word, after: Option<Word>, known2: Option<Word>, stalled: nat, age: nat)
    requires Fades(state, oWord, lastPrimitive, current, known, stalled, age) && stalled <= MaxStall(state)
    requires known.Some? ==> known.value == next
    requires known.None? ==> next == sData
    requires if after.Some? then sData == after.value else sData == next
    requires state.S_ALIGN2? ==> !needRepeat
    requires var c := Choose(state, trigger, needRepeat, oWord, next, continueEn, lastPrimitive, mask);
             KnownNext(c, next, after, known2)
    ensures var c := Choose(state, trigger, needRepeat, oWord, next, continueEn, lastPrimitive, mask);
            && Fades(c.state, c.word, Sampled(c.ready, sData, lastPrimitive), if c.ready then Some(next) else current,
                     known2, StallNext(c.ready, stalled), NextAge(age, sData))
            && (trigger || state.S_ALIGN1? ==> c.word == Prim(ALIGN))
            && (c.word == Prim(ALIGN) ==> trigger || state.S_ALIGN1? || NextAge(age, sData) <= ECHO)
  {
  }

  lemma BeatStep(n: nat, trigger: bool, counter: nat, needRepeat: bool, state: State, oWord: Word, next: Word,
                 continueEn: bool, lastPrimitive: Primitive, mask: Dword, stalled: nat)
    requires OnBeat(n, trigger, counter, state) && stalled <= MaxStall(state)
    requires n == 0 ==> stalled == 0
    requires state.S_ALIGN2? ==> !needRepeat
    ensures var c := Choose(state, trigger, needRepeat, oWord, next, continueEn, lastPrimitive, mask);
            && OnBeat(n + 1, NextTrigger(trigger, counter), NextCounter(trigger, counter), c.state)
            && StallNext(c.ready, stalled) <= MaxStall(c.state)
            && (n % 258 < 2 <==> trigger || state.S_ALIGN1?)
            && (n == 0 ==> !c.ready && c.state.S_ALIGN1?)
  {
    ModNext(n, PERIOD);
    CounterStep(n % PERIOD, trigger, counter);
  }

  lemma CounterStep(m: nat, trigger: bool, counter: nat)
    requires m < PERIOD && trigger == (m == 0) && (!trigger ==> counter == PERIOD - m)
    ensures NextTrigger(trigger, counter) == (m == PERIOD - 1)
    ensures m < PERIOD - 1 ==> NextCounter(trigger, counter) == PERIOD - m - 1
  {
  }

  function StallNext(ready: bool, stalled: nat): nat {
    if ready then 0 else stalled + 1
  }

  predicate NextTrigger(trigger: bool, counter: nat) {
    !trigger && counter <= 1
  }

  /** align_counter is nine bits wide. */
  function NextCounter(trigger: bool, counter: nat): nat {
    if trigger then ALIGN_TIMEOUT else (counter + 511) % 512
  }

  // ---- The registers, with those of the skid buffer ----

  datatype Registers = Registers(
    state: State, oWord: Word, lastPrimitive: Primitive, trigger: bool, counter: nat, needRepeat: bool,
    iReady: bool,  // the skid buffer's i_valid: low for the first clock
    rValid: bool, rData: Word)
  {
    /** skd_data: the word on offer to the state machine. */
    function Next(sData: Word): Word {
      if rValid then rData else sData
    }

    function Chosen(sData: Word, continueEn: bool, mask: Dword): Choice {
      Choose(state, trigger, needRepeat, oWord, Next(sData), continueEn, lastPrimitive, mask)
    }

    /** s_ready */
    predicate Ready(skid: bool, sData: Word, continueEn: bool, mask: Dword) {
      if skid then !rValid else Chosen(sData, continueEn, mask).ready
    }
  }

  /** The registers after a clock edge. */
  function Edge(skid: bool, r: Registers, sData: Word, continueEn: bool, mask: Dword): Registers {
    var c := r.Chosen(sData, continueEn, mask);
    Registers(c.state, c.word, Sampled(c.ready, sData, r.lastPrimitive),
              NextTrigger(r.trigger, r.counter), NextCounter(r.trigger, r.counter),
              Interrupted(r.trigger, r.state, r.needRepeat), true,
              NextHeld(skid, r.iReady, r.rValid, c.ready), NextStored(skid, r.rValid, r.rData, sData))
  }

  predicate NextHeld(skid: bool, iReady: bool, rValid: bool, ready: bool) {
    skid && !ready && (rValid || iReady)
  }

  function NextStored(skid: bool, rValid: bool, rData: Word, sData: Word): Word {
    if skid && !rValid then sData else rData
  }

  function Sampled(ready: bool, sData: Word, lastPrimitive: Primitive): Primitive {
    if ready && sData.Prim? then sData.p else lastPrimitive
  }

  /** need_repeat: an ALIGN pair cuts into a primitive that has to go out twice. */
  predicate Interrupted(trigger: bool, state: State, needRepeat: bool) {
    trigger && match state
               case S_ALIGN1 => needRepeat
               case S_ALIGN2 => needRepeat
               case S_PRIMITIVE1 => true
               case S_RPT1 => true
               case _ => false
  }

  /** What has passed by. */
  datatype History = History(
    accepted: seq<Word>,   // at the input
    taken: seq<Word>,      // out of the skid buffer
    sent: seq<Word>,       // since the reset word
    pending: Option<Word>, // offered, not accepted: must be offered again
    offered: seq<Word>,    // at the input, clock by clock
    contSeen: bool,        // a CONT was one of them
    age: nat,              // clocks since an ALIGN was the last of them
    stalled: nat)          // clocks in a row that skd_ready has been low

  /** The skid buffer is not yet listening in its first clock. */
  predicate Accepts(skid: bool, iReady: bool, ready: bool) {
    ready && (skid ==> iReady)
  }

  ghost function After(skid: bool, r: Registers, h: History, sData: Word, continueEn: bool, mask: Dword): History {
    var c, ready := r.Chosen(sData, continueEn, mask), r.Ready(skid, sData, continueEn, mask);
    History(Push(h.accepted, Accepts(skid, r.iReady, ready), sData), Push(h.taken, c.ready, r.Next(sData)),
            h.sent + [c.word], if ready then None else Some(sData),
            h.offered + [sData], h.contSeen || sData == Prim(CONT), NextAge(h.age, sData),
            StallNext(c.ready, h.stalled))
  }

  ghost function Known(r: Registers, h: History): Option<Word> {
    if r.rValid then Some(r.rData) else h.pending
  }

  /** The invariant of every run. */
  ghost predicate Invariant(skid: bool, r: Registers, h: History) {
    && Queued(skid, r, h)
    && OnBeat(|h.sent|, r.trigger, r.counter, r.state)
    && (r.state.S_ALIGN2? ==> !r.needRepeat)
    && h.stalled <= MaxStall(r.state) && (h.sent == [] ==> h.stalled == 0)
    && OnLine(h.contSeen, r.state, r.oWord, r.lastPrimitive, h.taken, h.sent, Known(r, h))
    && Punctual(r, h)
  }

  ghost predicate Punctual(r: Registers, h: History) {
    && Fades(r.state, r.oWord, r.lastPrimitive, LastOf(h.taken), Known(r, h), h.stalled, h.age)
    && Aged(h.offered, h.age) && Cadence(h.sent, h.offered)
  }

  /** Words pass through the skid buffer in order, each once. */
  ghost predicate Queued(skid: bool, r: Registers, h: History) {
    && h.accepted == h.taken + (if r.rValid then [r.rData] else [])
    && (r.rValid ==> skid)
    && (skid && !r.iReady ==> h.sent == [] && !r.rValid)
  }

  lemma QueuedStep(skid: bool, r: Registers, h: History, sData: Word, continueEn: bool, mask: Dword)
    requires Queued(skid, r, h)
    requires h.pending.Some? ==> sData == h.pending.value
    requires h.sent == [] ==> !r.Chosen(sData, continueEn, mask).ready
    ensures Queued(skid, Edge(skid, r, sData, continueEn, mask), After(skid, r, h, sData, continueEn, mask))
  {
    hide Choose;
    var h2 := After(skid, r, h, sData, continueEn, mask);
    assert h2.taken + [] == h2.taken;
  }

  lemma InvariantStep(skid: bool, r: Registers, h: History, sData: Word, continueEn: bool, mask: Dword)
    requires Invariant(skid, r, h)
    requires h.pending.Some? ==> sData == h.pending.value
    ensures Invariant(skid, Edge(skid, r, sData, continueEn, mask), After(skid, r, h, sData, continueEn, mask))
  {
    hide Choose, OnLine, OnBeat, Queued, Punctual, StallNext, NextAge, Push, Sampled, Interrupted, MaxStall;
    hide NextHeld, NextStored, NextTrigger, NextCounter;
    var r2, h2 := Edge(skid, r, sData, continueEn, mask), After(skid, r, h, sData, continueEn, mask);
    BeatStep(|h.sent|, r.trigger, r.counter, r.needRepeat, r.state, r.oWord, r.Next(sData), continueEn,
             r.lastPrimitive, mask, h.stalled);
    QueuedStep(skid, r, h, sData, continueEn, mask);
    NextKnown(skid, r, h, sData, continueEn, mask);
    LineStep(h.contSeen, r.state, r.trigger, r.needRepeat, r.oWord, r.Next(sData), continueEn,
             r.lastPrimitive, mask, h.taken, h.sent, Known(r, h), sData,
             if r.rValid then Some(sData) else None, Known(r2, h2));
    PunctualStep(skid, r, h, sData, continueEn, mask);
    NoRepeat(r.state, r.trigger, r.needRepeat, r.oWord, r.Next(sData), continueEn, r.lastPrimitive, mask);
  }

  lemma PunctualStep(skid: bool, r: Registers, h: History, sData: Word, continueEn: bool, mask: Dword)
    requires Punctual(r, h) && Queued(skid, r, h) && h.stalled <= MaxStall(r.state)
    requires h.pending.Some? ==> sData == h.pending.value
    requires r.state.S_ALIGN2? ==> !r.needRepeat
    requires h.sent == [] ==> var c := r.Chosen(sData, continueEn, mask); !c.ready && c.state.S_ALIGN1?
    requires |h.sent| % 258 < 2 <==> r.trigger || r.state.S_ALIGN1?
    ensures Punctual(Edge(skid, r, sData, continueEn, mask), After(skid, r, h, sData, continueEn, mask))
  {
    hide Choose, Fades, Aged, Cadence, LastOf, MaxStall, StallNext, NextAge, Push, Sampled, Interrupted, Queued;
    hide NextHeld, NextStored, NextTrigger, NextCounter;
    var r2, h2 := Edge(skid, r, sData, continueEn, mask), After(skid, r, h, sData, continueEn, mask);
    NextKnown(skid, r, h, sData, continueEn, mask);
    FadesStep(r.state, r.trigger, r.needRepeat, r.oWord, r.Next(sData), continueEn, r.lastPrimitive, mask,
              LastOf(h.taken), Known(r, h), sData, if r.rValid then Some(sData) else None, Known(r2, h2),
              h.stalled, h.age);
    LastTaken(h.taken, r.Chosen(sData, continueEn, mask).ready, r.Next(sData));
    CadenceStep(h.sent, h.offered, h.age, r.Chosen(sData, continueEn, mask).word, sData);
  }

  /** In every run without a CONT at the input, a receiver that removes ALIGN and CONT
      sees the words taken up to repeated primitives, and reads the same frames. */
  lemma Transparent(skid: bool, r: Registers, h: History)
    requires Invariant(skid, r, h) && !h.contSeen
    ensures Squash(RemoveCont(h.sent)) == Squash(h.taken)
    ensures Deframe(RemoveCont(h.sent)) == Deframe(h.taken)
    ensures h.accepted == h.taken + if r.rValid then [r.rData] else []
  {
    DeframeSquash(RemoveCont(h.sent));
    DeframeSquash(h.taken);
  }

  /** In every run the ALIGN pairs come on time, the line carries no others but echoes of an
      ALIGN just offered, and the input never waits longer than four clocks. */
  lemma OnTime(skid: bool, r: Registers, h: History)
    requires Invariant(skid, r, h)
    ensures h.stalled <= 4
    ensures Cadence(h.sent, h.offered)
  {
    hide OnLine, OnBeat, Queued, Cadence, Fades, Aged;
  }

  // ---- CONT ----

  /** A primitive just taken goes out twice, the input waiting for the second; then the same
      primitive, offered again, goes out as CONT if continueEn is up, and as itself if not.
      Anything else goes out as it is. */
  lemma ThirdIsCont(skid: bool, r: Registers, h: History, a: Word, b: Word, c: Word, en: bool, mask: Dword, en2: bool)
    requires Invariant(skid, r, h) && !h.contSeen && a != Prim(CONT) && (h.pending.Some? ==> a == h.pending.value)
    requires var now := r.Chosen(a, en, mask); now.ready && now.word.Prim? && now.word == r.Next(a)
    requires var r1 := Edge(skid, r, a, en, mask); !r1.trigger && !Edge(skid, r1, b, en, mask).trigger
    ensures var p, r1 := r.Next(a), Edge(skid, r, a, en, mask);
            var r2 := Edge(skid, r1, b, en, mask);
            && r1.oWord == r2.oWord == p && !r1.Chosen(b, en, mask).ready && r2.Chosen(c, en2, mask).ready
            && Edge(skid, r2, c, en2, mask).oWord == if r2.Next(c) == p && en2 then Prim(CONT) else r2.Next(c)
  {
    hide OnBeat, Punctual, Squash, RemoveCont, Suppressing;
  }

  /** What is at the input in a clock. */
  datatype Offered = Offered(word: Word, continueEn: bool, mask: Dword)

  /** The registers over a run. */
  ghost predicate Run(skid: bool, ins: seq<Offered>, regs: seq<Registers>) {
    && |regs| == |ins| + 1 && regs[0] == Reset()
    && forall k :: 0 <= k < |ins| ==> regs[k + 1] == Clocked(skid, regs[k], ins[k])
  }

  function Clocked(skid: bool, r: Registers, i: Offered): Registers {
    Edge(skid, r, i.word, i.continueEn, i.mask)
  }

  function Reset(): Registers {
    Registers(S_ALIGN1, Prim(ALIGN), ALIGN, true, 0, false, false, false, Data(0))
  }

  /** No CONT in any register. */
  predicate NoneHeld(r: Registers) {
    r.oWord != Prim(CONT) && !r.lastPrimitive.CONT? && r.rData != Prim(CONT) && !r.state.S_CONT?
  }

  lemma NoneHeldStep(skid: bool, r: Registers, i: Offered)
    requires NoneHeld(r) && !i.continueEn && i.word != Prim(CONT)
    ensures NoneHeld(Clocked(skid, r, i))
  {
  }

  /** Without continueEn no CONT goes on the line that was not an input. */
  lemma {:induction false} NoCont(skid: bool, ins: seq<Offered>, regs: seq<Registers>, n: nat)
    requires Run(skid, ins, regs) && n <= |ins|
    requires forall k :: 0 <= k < n ==> !ins[k].continueEn && ins[k].word != Prim(CONT)
    ensures regs[n].oWord != Prim(CONT) && NoneHeld(regs[n])
  {
    hide Clocked;
    if n > 0 {
      NoCont(skid, ins, regs, n - 1);
      NoneHeldStep(skid, regs[n - 1], ins[n - 1]);
    }
  }

  lemma LastTaken(taken: seq<Word>, ready: bool, w: Word)
    ensures LastOf(Push(taken, ready, w)) == if ready then Some(w) else LastOf(taken)
  {
  }

  /** How soon the skid buffer lets go, counted so that a clock in which it does not counts. */
  function Waiting(rValid: bool, stalled: nat): nat {
    (if rValid then 6 else 0) + if stalled <= 5 then 5 - stalled else 0
  }

  /** A clock that keeps the input waiting brings the next word closer; any other costs little. */
  lemma WaitingStep(skid: bool, r: Registers, h: History, sData: Word, continueEn: bool, mask: Dword)
    requires Invariant(skid, r, h)
    requires h.pending.Some? ==> sData == h.pending.value
    ensures var r2, h2 := Edge(skid, r, sData, continueEn, mask), After(skid, r, h, sData, continueEn, mask);
            if r.Ready(skid, sData, continueEn, mask)
            then Waiting(r2.rValid, h2.stalled) <= Waiting(r.rValid, h.stalled) + 5
            else Waiting(r2.rValid, h2.stalled) < Waiting(r.rValid, h.stalled)
  {
    hide Choose, OnLine, OnBeat, Punctual;
    InvariantStep(skid, r, h, sData, continueEn, mask);
    OnTime(skid, Edge(skid, r, sData, continueEn, mask), After(skid, r, h, sData, continueEn, mask));
    OnTime(skid, r, h);
  }

  lemma NextKnown(skid: bool, r: Registers, h: History, sData: Word, continueEn: bool, mask: Dword)
    requires Queued(skid, r, h)
    requires h.pending.Some? ==> sData == h.pending.value
    requires h.sent == [] ==> var c := r.Chosen(sData, continueEn, mask); !c.ready && c.state.S_ALIGN1?
    ensures Known(r, h).Some? ==> Known(r, h).value == r.Next(sData)
    ensures Known(r, h).None? ==> r.Next(sData) == sData
    ensures KnownNext(r.Chosen(sData, continueEn, mask), r.Next(sData), if r.rValid then Some(sData) else None,
                      Known(Edge(skid, r, sData, continueEn, mask), After(skid, r, h, sData, continueEn, mask)))
  {
    hide Choose;
  }

  lemma NoRepeat(state: State, trigger: bool, needRepeat: bool, oWord: Word, next: Word, continueEn: bool,
                 lastPrimitive: Primitive, mask: Dword)
    ensures Choose(state, trigger, needRepeat, oWord, next, continueEn, lastPrimitive, mask).state.S_ALIGN2?
            ==> !Interrupted(trigger, state, needRepeat)
  {
  }

  lemma CadenceStep(sent: seq<Word>, offered: seq<Word>, age: nat, w: Word, sData: Word)
    requires Cadence(sent, offered) && Aged(offered, age)
    requires |sent| % 258 < 2 ==> w == Prim(ALIGN)
    requires w == Prim(ALIGN) ==> |sent| % 258 < 2 || NextAge(age, sData) <= ECHO
    ensures Cadence(sent + [w], offered + [sData]) && Aged(offered + [sData], NextAge(age, sData))
  {
    var o2, n := offered + [sData], |sent|;
    if NextAge(age, sData) <= ECHO {
      assert o2[n - NextAge(age, sData)] == Prim(ALIGN);
    }
    forall j | 0 <= j < n && Echoes(offered, j) ensures Echoes(o2, j) {
      var i :| 0 <= i < n && j - ECHO <= i <= j && offered[i] == Prim(ALIGN);
      assert o2[i] == Prim(ALIGN);
    }
  }

  ghost predicate OnLine(contSeen: bool, state: State, oWord: Word, lastPrimitive: Primitive,
                         taken: seq<Word>, sent: seq<Word>, known: Option<Word>)
  {
    !contSeen ==> Carries(state, oWord, lastPrimitive, taken, sent, known)
  }

  lemma LineStep(contSeen: bool, state: State, trigger: bool, needRepeat: bool, oWord: Word,
                 next: Word, continueEn: bool, lastPrimitive: Primitive, mask: Dword,
                 taken: seq<Word>, sent: seq<Word>, known: Option<Word>,
                 sData: Word, after: Option<Word>, known2: Option<Word>)
    requires OnLine(contSeen, state, oWord, lastPrimitive, taken, sent, known)
    requires known.Some? ==> known.value == next
    requires known.None? ==> next == sData
    requires if after.Some? then sData == after.value else sData == next
    requires state.S_ALIGN2? ==> !needRepeat
    requires var c := Choose(state, trigger, needRepeat, oWord, next, continueEn, lastPrimitive, mask);
             KnownNext(c, next, after, known2)
    ensures var c := Choose(state, trigger, needRepeat, oWord, next, continueEn, lastPrimitive, mask);
            OnLine(contSeen || sData == Prim(CONT), c.state, c.word,
                   Sampled(c.ready, sData, lastPrimitive), Push(taken, c.ready, next), sent + [c.word], known2)
  {
    hide Carries, LastOf, Choose;
    CarriesStep(state, trigger, needRepeat, oWord, next, continueEn, lastPrimitive, mask, taken, sent, known,
                sData, after, known2);
  }

  class Align {
    const skid: bool  // OPT_SKIDBUFFER
    var state: State
    var oWord: Word   // o_primitive, o_data
    var lastPrimitive: Primitive
    var alignTrigger: bool
    var alignCounter: nat
    var needRepeat: bool
    var iReady: bool
    var rValid: bool
    var rData: Word
    ghost var h: History

    function Regs(): Registers
      reads this
    {
      Registers(state, oWord, lastPrimitive, alignTrigger, alignCounter, needRepeat, iReady, rValid, rData)
    }

    predicate Ready(sData: Word, continueEn: bool, mask: Dword)
      reads this
    {
      Regs().Ready(skid, sData, continueEn, mask)
    }

    ghost predicate Valid()
      reads this
    {
      Invariant(skid, Regs(), h)
    }

    ghost function Pause(): nat
      reads this
    {
      Waiting(rValid, h.stalled)
    }

    constructor (skid: bool)
      ensures Valid() && this.skid == skid && Regs() == Reset()
      ensures h == History([], [], [], None, [], false, ECHO + 1, 0)
    {
      this.skid := skid;
      state, oWord, lastPrimitive := S_ALIGN1, Prim(ALIGN), ALIGN;
      alignTrigger, alignCounter, needRepeat := true, 0, false;
      iReady, rValid, rData := false, false, Data(0);
      h := History([], [], [], None, [], false, ECHO + 1, 0);
    }

    method ClockCounter()
      modifies `alignTrigger, `alignCounter
      ensures alignTrigger == NextTrigger(old(alignTrigger), old(alignCounter))
      ensures alignCounter == NextCounter(old(alignTrigger), old(alignCounter))
    {
      if alignTrigger {
        alignCounter, alignTrigger := ALIGN_TIMEOUT, false;
      } else {
        alignCounter, alignTrigger := (alignCounter + 511) % 512, alignCounter <= 1;
      }
    }

    /** The skid buffer. */
    method ClockSkid(sData: Word, ready: bool)
      modifies `iReady, `rValid, `rData
      ensures rValid == NextHeld(skid, old(iReady), old(rValid), ready)
      ensures rData == NextStored(skid, old(rValid), old(rData), sData)
      ensures iReady
    {
      if !skid {
        rValid := false;
      } else if !rValid {
        rData := sData;
        if iReady { rValid := !ready; }
      } else if ready {
        rValid := false;
      }
      iReady := true;
    }

    /** One clock: the registers of the specification. */
    method Clock(sData: Word, continueEn: bool, mask: Dword)
      modifies `state, `oWord, `lastPrimitive, `alignTrigger, `alignCounter, `needRepeat, `iReady, `rValid, `rData
      ensures Regs() == Edge(skid, old(Regs()), sData, continueEn, mask)
    {
      hide Choose, Interrupted, Sampled, NextHeld, NextStored, NextTrigger, NextCounter;
      var c := Regs().Chosen(sData, continueEn, mask);
      ClockSkid(sData, c.ready);
      lastPrimitive := Sampled(c.ready, sData, lastPrimitive);
      needRepeat := Interrupted(alignTrigger, state, needRepeat);
      state, oWord := c.state, c.word;
      ClockCounter();
    }

    method Step(sData: Word, continueEn: bool, mask: Dword)
      requires Valid()
      requires h.pending.Some? ==> sData == h.pending.value
      modifies this
      ensures Valid()
      ensures Regs() == Edge(skid, old(Regs()), sData, continueEn, mask) && iReady
      ensures h.accepted
              == Push(old(h.accepted), Accepts(skid, old(iReady), old(Ready(sData, continueEn, mask))), sData)
      ensures h.pending == if old(Ready(sData, continueEn, mask)) then None else Some(sData)
      ensures h.sent == old(h.sent) + [oWord] && h.offered == old(h.offered) + [sData]
      ensures h.contSeen == (old(h.contSeen) || sData == Prim(CONT))
      ensures if old(Ready(sData, continueEn, mask)) then Pause() <= old(Pause()) + 5 else Pause() < old(Pause())
    {
      hide Invariant, Choose, Waiting;
      WaitingStep(skid, Regs(), h, sData, continueEn, mask);
      InvariantStep(skid, Regs(), h, sData, continueEn, mask);
      h := After(skid, Regs(), h, sData, continueEn, mask);
      Clock(sData, continueEn, mask);
    }
  }
}
