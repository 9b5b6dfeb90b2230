/** What rtl/satalnk_fsm.v offers the far side over whole runs: granting and asking for
    frames, flow control, verdicts and power requests. */
module Handshake {
  import opened Words
  import opened LinkFsmStage

  /** The clocks from k to n in which the PHY takes a word. */
  function Takes(ins: seq<Input>, k: nat, n: nat): nat
    requires k <= n <= |ins|
    decreases n - k
  {
    if k == n then 0 else Takes(ins, k, n - 1) + if ins[n - 1].mPhyReady then 1 else 0
  }

  /** The word received, if any, is none of these. */
  predicate Spared(i: Input, ps: set<Primitive>) {
    forall p <- ps :: !i.Receives(p)
  }

  predicate Always(ins: seq<Input>, k: nat, n: nat, good: Input -> bool)
    requires n <= |ins|
  {
    forall j :: k <= j < n ==> good(ins[j])
  }

  /** A state that no input of a kind moves the machine from is kept, and so is its word
      once the PHY has taken the one before. */
  lemma {:induction false} Persists(ins: seq<Input>, states: seq<State>, words: seq<Word>, k: nat, n: nat,
                                    s: State, good: Input -> bool)
    requires Run(ins, states, words) && k <= n <= |ins| && states[k] == s && !s.L_SENDDATA?
    requires forall i :: good(i) ==> Next(s, i) == s
    requires Always(ins, k, n, good)
    ensures states[n] == s
    ensures words[n] == if Takes(ins, k, n) > 0 then Prim(s.Inserts()) else words[k]
    decreases n
  {
    hide Next;
    if k < n {
      Persists(ins, states, words, k, n - 1, s, good);
      assert Goes(states[n - 1], words[n - 1], ins[n - 1], states[n], words[n]);
      assert good(ins[n - 1]);
    }
  }

  /** One clock of a run. */
  lemma Steps(ins: seq<Input>, states: seq<State>, words: seq<Word>, k: nat)
    requires Run(ins, states, words) && k < |ins|
    ensures states[k + 1] == Next(states[k], ins[k]) && words[k + 1] == NextWord(states[k], ins[k], words[k])
  {
    assert Goes(states[k], words[k], ins[k], states[k + 1], words[k + 1]);
  }

  // ---- Coming up ----

  /** With the PHY up the machine idles three clocks after reset, */
  lemma ComesUp(ins: seq<Input>, states: seq<State>, words: seq<Word>)
    requires Run(ins, states, words) && |ins| >= 3
    requires Always(ins, 0, 3, (i: Input) => i.iPhyReady && i.mPhyReady)
    ensures states[3].L_IDLE? && words[..4] == [Prim(ALIGN), Prim(ALIGN), Prim(ALIGN), Prim(ALIGN)]
  {
    for k := 0 to 3
      invariant states[k] == [L_RESET, L_NOCOMM, L_SENDALIGN, L_IDLE][k]
      invariant forall j :: 0 <= j <= k ==> words[j] == Prim(ALIGN)
    {
      Steps(ins, states, words, k);
    }
  }

  /** and three clocks after a PHY that was lost is back. */
  lemma ComesBack(ins: seq<Input>, states: seq<State>, words: seq<Word>, k: nat)
    requires Run(ins, states, words) && k + 4 <= |ins|
    requires !ins[k].iPhyReady && !states[k].Offline()
    requires Always(ins, k + 1, k + 4, (i: Input) => i.iPhyReady && i.mPhyReady)
    ensures states[k + 1].L_NOCOMMERR? && states[k + 4].L_IDLE?
    ensures words[k + 2] == words[k + 3] == words[k + 4] == Prim(ALIGN)
  {
    for j := k to k + 4
      invariant states[j] == if j == k then states[k] else [L_NOCOMMERR, L_NOCOMM, L_SENDALIGN, L_IDLE][j - k - 1]
      invariant forall m :: k + 2 <= m <= j ==> words[m] == Prim(ALIGN)
    {
      Steps(ins, states, words, j);
    }
  }

  // ---- Letting a frame in ----

  /** The machine is free to let a frame in, or does so already. */
  predicate Willing(s: State) {
    s.L_IDLE? || s.L_SENDCHKRDY? || s.L_RCVWAITFIFO? || s.L_RCVCHKRDY?
  }

  predicate Asked(i: Input) {
    i.iPhyReady && i.Receives(X_RDY)
  }

  /** How far the machine has come with an X_RDY. */
  function Granting(s: State, w: Word): nat {
    match s
    case L_RCVWAITFIFO => 1
    case L_RCVCHKRDY => if w == Prim(R_RDY) then 3 else 2
    case _ => 0
  }

  lemma AskedStep(s: State, w: Word, i: Input)
    requires Willing(s) && Asked(i)
    ensures var t, v := Next(s, i), NextWord(s, i, w);
            && Willing(t)
            && (s.L_RCVCHKRDY? ==> t.L_RCVCHKRDY?)
            && (!i.mFull && i.mPhyReady ==> Granting(t, v) == 3 || Granting(t, v) > Granting(s, w))
            && (!i.mPhyReady ==> Granting(t, v) == Granting(s, w))
  {
  }

  /** The grant. As long as X_RDY keeps coming in, the third clock after the FIFO has found
      room, of those in which the PHY takes a word, has R_RDY on offer, and R_RDY it stays. A
      machine with a frame of its own to send gives way. */
  lemma {:induction false} Granted(ins: seq<Input>, states: seq<State>, words: seq<Word>, k: nat, m: nat, n: nat)
    requires Run(ins, states, words) && k <= m <= n <= |ins| && Willing(states[k])
    requires Always(ins, k, n, Asked) && Always(ins, m, n, (i: Input) => !i.mFull)
    ensures Willing(states[n])
    ensures Granting(states[n], words[n]) >= if Takes(ins, m, n) <= 3 then Takes(ins, m, n) else 3
    ensures Takes(ins, m, n) >= 3 ==> words[n] == Prim(R_RDY) && states[n].L_RCVCHKRDY?
    decreases n
  {
    hide Next, NextWord, Willing, Granting;
    if k < n {
      Granted(ins, states, words, k, if m < n then m else n - 1, n - 1);
      Steps(ins, states, words, n - 1);
      AskedStep(states[n - 1], words[n - 1], ins[n - 1]);
    }
    GrantedWord(states[n], words[n]);
  }

  lemma GrantedWord(s: State, w: Word)
    ensures Granting(s, w) <= 3 && (Granting(s, w) == 3 ==> s.L_RCVCHKRDY? && w == Prim(R_RDY))
  {
  }

  /** Nothing else makes the machine say R_RDY: it was asked, found room, and was still being
      asked at every word the PHY took; only the packetizer could offer one otherwise. */
  lemma {:induction false} GrantHadRoom(ins: seq<Input>, states: seq<State>, words: seq<Word>, n: nat)
      returns (v: nat)
    requires Run(ins, states, words) && n <= |ins| && states[n].L_RCVCHKRDY?
    ensures v < n && states[v].L_RCVWAITFIFO? && Asked(ins[v]) && ins[v].mPhyReady && !ins[v].mFull
    ensures forall j :: v < j < n ==> ins[j].iPhyReady && (ins[j].mPhyReady && ins[j].rx.Some? ==> Asked(ins[j]))
  {
    assert n > 0;
    Steps(ins, states, words, n - 1);
    if states[n - 1].L_RCVCHKRDY? {
      v := GrantHadRoom(ins, states, words, n - 1);
    } else {
      v := n - 1;
    }
  }

  lemma GrantsOnly(ins: seq<Input>, states: seq<State>, words: seq<Word>, n: nat)
    requires Run(ins, states, words) && n < |ins| && words[n + 1] == Prim(R_RDY) != words[n]
    ensures states[n].L_RCVCHKRDY? || (states[n].L_SENDDATA? && ins[n].sData == Prim(R_RDY))
  {
    Steps(ins, states, words, n);
  }

  /** While the FIFO is full R_RDY is not newly offered, whatever comes in. */
  lemma {:induction false} FullNoGrant(ins: seq<Input>, states: seq<State>, words: seq<Word>, k: nat, n: nat)
    requires Run(ins, states, words) && k <= n <= |ins| && !states[k].L_RCVCHKRDY?
    requires Always(ins, k, n, (i: Input) => i.mFull && i.sData != Prim(R_RDY))
    ensures !states[n].L_RCVCHKRDY? && (words[n] == Prim(R_RDY) ==> words[k] == Prim(R_RDY))
    decreases n
  {
    if k < n {
      FullNoGrant(ins, states, words, k, n - 1);
      Steps(ins, states, words, n - 1);
      if words[n] == Prim(R_RDY) != words[n - 1] { GrantsOnly(ins, states, words, n - 1); }
    }
  }

  /** While it waits for room the machine says SYNC. */
  lemma WaitsForRoom(ins: seq<Input>, states: seq<State>, words: seq<Word>, k: nat, n: nat)
    requires Run(ins, states, words) && k <= n <= |ins| && states[k].L_RCVWAITFIFO?
    requires Always(ins, k, n, (i: Input) => Asked(i) && i.mFull)
    ensures states[n].L_RCVWAITFIFO? && (Takes(ins, k, n) > 0 ==> words[n] == Prim(SYNC))
  {
    Persists(ins, states, words, k, n, L_RCVWAITFIFO, (i: Input) => Asked(i) && i.mFull);
  }

  /** A grant stands until the frame opens, or the far side stops asking at a word the PHY takes. */
  lemma GrantStands(ins: seq<Input>, states: seq<State>, words: seq<Word>, k: nat, n: nat)
    requires Run(ins, states, words) && k <= n <= |ins| && states[k].L_RCVCHKRDY?
    requires Always(ins, k, n, (i: Input) => i.iPhyReady && !i.Receives(SOF)
                                             && (i.mPhyReady && i.rx.Some? ==> i.Receives(X_RDY)))
    ensures states[n].L_RCVCHKRDY? && (Takes(ins, k, n) > 0 ==> words[n] == Prim(R_RDY))
    ensures n < |ins| && ins[n].iPhyReady && ins[n].mPhyReady && ins[n].rx.Some? && Spared(ins[n], {SOF, X_RDY})
            ==> states[n + 1].L_IDLE?
  {
    Persists(ins, states, words, k, n, L_RCVCHKRDY,
             (i: Input) => i.iPhyReady && !i.Receives(SOF) && (i.mPhyReady && i.rx.Some? ==> i.Receives(X_RDY)));
    if n < |ins| { Steps(ins, states, words, n); }
  }

  /** A SOF opens the frame let in, and nothing else opens one. */
  lemma Opens(ins: seq<Input>, states: seq<State>, words: seq<Word>, n: nat)
    requires Run(ins, states, words) && n < |ins| && ins[n].iPhyReady
    requires !states[n].L_RCVDATA? && !states[n].L_HOLD? && !states[n].L_RCVHOLD?
    ensures states[n + 1].L_RCVDATA? || states[n + 1].L_HOLD? || states[n + 1].L_RCVHOLD?
            <==> states[n].L_RCVCHKRDY? && ins[n].Receives(SOF)
    ensures states[n].L_RCVCHKRDY? && ins[n].Receives(SOF) ==> states[n + 1].L_RCVDATA?
  {
    Steps(ins, states, words, n);
  }

  // ---- Flow control of a frame coming in ----

  /** With room, R_IP is offered while the frame comes in. */
  lemma TakesIn(ins: seq<Input>, states: seq<State>, words: seq<Word>, k: nat, n: nat)
    requires Run(ins, states, words) && k <= n <= |ins| && states[k].L_RCVDATA?
    requires Always(ins, k, n, (i: Input) => i.iPhyReady && !i.mFull && Spared(i, {HOLD, EOF, WTRM, SYNC}))
    ensures states[n].L_RCVDATA? && (Takes(ins, k, n) > 0 ==> words[n] == Prim(R_IP))
  {
    Persists(ins, states, words, k, n, L_RCVDATA,
             (i: Input) => i.iPhyReady && !i.mFull && Spared(i, {HOLD, EOF, WTRM, SYNC}));
  }

  /** A FIFO that fills up is answered by HOLD until it has emptied, */
  lemma HoldsOff(ins: seq<Input>, states: seq<State>, words: seq<Word>, k: nat, n: nat)
    requires Run(ins, states, words) && k < n <= |ins| && states[k].L_RCVDATA? && ins[k].mFull
    requires Always(ins, k, n, (i: Input) => i.iPhyReady && Spared(i, {HOLD, EOF, WTRM, SYNC}))
    requires Always(ins, k + 1, n, (i: Input) => !(i.mEmpty && i.mPhyReady))
    ensures states[n].L_HOLD? && (Takes(ins, k + 1, n) > 0 ==> words[n] == Prim(HOLD))
    ensures n < |ins| && ins[n].iPhyReady && ins[n].mEmpty && ins[n].mPhyReady && Spared(ins[n], {HOLD, EOF, SYNC})
            ==> states[n + 1].L_RCVDATA?
  {
    Steps(ins, states, words, k);
    Persists(ins, states, words, k + 1, n, L_HOLD,
             (i: Input) => i.iPhyReady && Spared(i, {HOLD, EOF, WTRM, SYNC}) && !(i.mEmpty && i.mPhyReady));
    if n < |ins| { Steps(ins, states, words, n); }
  }

  /** and a HOLD of the far side by HOLDA until it ends. */
  lemma Acknowledges(ins: seq<Input>, states: seq<State>, words: seq<Word>, k: nat, n: nat)
    requires Run(ins, states, words) && k < n <= |ins| && ins[k].Receives(HOLD)
    requires states[k].L_RCVDATA? || states[k].L_HOLD? || states[k].L_RCVHOLD?
    requires Always(ins, k, n, (i: Input) => i.iPhyReady && (i.rx.None? || i.Receives(HOLD)))
    ensures states[n].L_RCVHOLD? && (Takes(ins, k + 1, n) > 0 ==> words[n] == Prim(HOLDA))
    ensures n < |ins| && ins[n].iPhyReady && ins[n].rx.Some? && Spared(ins[n], {HOLD, EOF, SYNC})
            ==> states[n + 1].L_RCVDATA?
  {
    Steps(ins, states, words, k);
    Persists(ins, states, words, k + 1, n, L_RCVHOLD, (i: Input) => i.iPhyReady && (i.rx.None? || i.Receives(HOLD)));
    if n < |ins| { Steps(ins, states, words, n); }
  }

  /** A WTRM in place of an EOF is answered by R_ERR until a SYNC. */
  lemma AnswersCut(ins: seq<Input>, states: seq<State>, words: seq<Word>, k: nat, n: nat)
    requires Run(ins, states, words) && k < n <= |ins| && states[k].L_RCVDATA? && ins[k].Receives(WTRM)
    requires ins[k].iPhyReady && Always(ins, k + 1, n, (i: Input) => i.iPhyReady && !i.Receives(SYNC))
    ensures states[n].L_BADEND? && (Takes(ins, k + 1, n) > 0 ==> words[n] == Prim(R_ERR))
    ensures n < |ins| && ins[n].iPhyReady && ins[n].Receives(SYNC) ==> states[n + 1].L_IDLE?
  {
    Steps(ins, states, words, k);
    Persists(ins, states, words, k + 1, n, L_BADEND, (i: Input) => i.iPhyReady && !i.Receives(SYNC));
    if n < |ins| { Steps(ins, states, words, n); }
  }

  /** From the EOF to the verdict R_IP is offered. */
  lemma StillReceiving(ins: seq<Input>, states: seq<State>, words: seq<Word>, k: nat, n: nat)
    requires Run(ins, states, words) && k < n <= |ins| && EndsFrame(states[k], ins[k])
    requires Always(ins, k + 1, n, (i: Input) => i.iPhyReady && !i.mLast && !i.mAbort)
    ensures states[n].L_RCVEOF? && (Takes(ins, k + 1, n) > 0 ==> words[n] == Prim(R_IP))
  {
    Steps(ins, states, words, k);
    Persists(ins, states, words, k + 1, n, L_RCVEOF, (i: Input) => i.iPhyReady && !i.mLast && !i.mAbort);
  }

  // ---- Sending a frame ----

  /** A machine with a frame to send asks with X_RDY until it is let send or is asked itself. */
  lemma Asks(ins: seq<Input>, states: seq<State>, words: seq<Word>, k: nat, n: nat)
    requires Run(ins, states, words) && k < n <= |ins| && Always(ins, k, n, (i: Input) => i.iPhyReady)
    requires states[k].L_IDLE? && ins[k].sValid && ins[k].mPhyReady && Spared(ins[k], {X_RDY, PMREQ_P, PMREQ_S})
    requires Always(ins, k + 1, n, (i: Input) => i.mPhyReady ==> Spared(i, {R_RDY, X_RDY}))
    ensures states[n].L_SENDCHKRDY? && words[n] == if Takes(ins, k + 1, n) > 0 then Prim(X_RDY) else Prim(SYNC)
    ensures n < |ins| && ins[n].iPhyReady && ins[n].mPhyReady
            ==> && (ins[n].Receives(R_RDY) ==> states[n + 1].L_SENDDATA?)
                && (ins[n].Receives(X_RDY) ==> states[n + 1].L_RCVWAITFIFO?)
  {
    Steps(ins, states, words, k);
    Persists(ins, states, words, k + 1, n, L_SENDCHKRDY,
             (i: Input) => i.iPhyReady && (i.mPhyReady ==> Spared(i, {R_RDY, X_RDY})));
    if n < |ins| { Steps(ins, states, words, n); }
  }

  /** In L_RCVRHOLD no word of the packetizer is taken. */
  lemma TakesNothing(s: State, i: Input)
    ensures Next(s, i).L_RCVRHOLD? ==> !NextReady(s, i)
  {
  }

  predicate Resumes(i: Input) {
    && i.iPhyReady && !i.sAbort && i.mPhyReady
    && i.ReceivesPrimitive() && Spared(i, {SYNC, HOLD})
  }

  /** A HOLD stops the frame: until another primitive ends it the machine stays in L_RCVRHOLD,
      and offers HOLDA once the PHY has taken what was on offer. */
  lemma Pauses(ins: seq<Input>, states: seq<State>, words: seq<Word>, k: nat, n: nat)
    requires Run(ins, states, words) && k < n <= |ins| && Always(ins, k, n, (i: Input) => i.iPhyReady && !i.sAbort)
    requires states[k].L_SENDDATA? && ins[k].mPhyReady && ins[k].Receives(HOLD) && !ins[k].sLast
    requires Always(ins, k + 1, n, (i: Input) => i.mPhyReady && i.ReceivesPrimitive() ==> i.Receives(HOLD))
    ensures states[n].L_RCVRHOLD? && words[n] == if Takes(ins, k + 1, n) > 0 then Prim(HOLDA) else ins[k].sData
    ensures n < |ins| && Resumes(ins[n]) ==> states[n + 1].L_SENDDATA?
  {
    Steps(ins, states, words, k);
    Persists(ins, states, words, k + 1, n, L_RCVRHOLD,
             (i: Input) => i.iPhyReady && !i.sAbort && (i.mPhyReady && i.ReceivesPrimitive() ==> i.Receives(HOLD)));
    if n < |ins| { Steps(ins, states, words, n); }
  }

  /** An abort breaks the frame off with SYNC at once, until the far side says SYNC or X_RDY. */
  lemma Escapes(ins: seq<Input>, states: seq<State>, words: seq<Word>, k: nat, n: nat)
    requires Run(ins, states, words) && k < n <= |ins| && Always(ins, k, n, (i: Input) => i.iPhyReady)
    requires states[k].L_SENDDATA? && ins[k].sAbort
    requires Always(ins, k + 1, n, (i: Input) => i.mPhyReady ==> Spared(i, {SYNC, X_RDY}))
    ensures states[n].L_SYNCESCAPE? && words[n] == Prim(SYNC)
    ensures n < |ins| && ins[n].iPhyReady
            ==> (states[n + 1].L_IDLE? <==> ins[n].mPhyReady && !Spared(ins[n], {SYNC, X_RDY}))
  {
    Steps(ins, states, words, k);
    Persists(ins, states, words, k + 1, n, L_SYNCESCAPE,
             (i: Input) => i.iPhyReady && (i.mPhyReady ==> Spared(i, {SYNC, X_RDY})));
    if n < |ins| { Steps(ins, states, words, n); }
  }

  /** After its EOF a frame waits with WTRM for its verdict: R_OK is success, R_ERR and SYNC are
      failure, and any of them ends the wait. */
  lemma Awaits(ins: seq<Input>, states: seq<State>, words: seq<Word>, k: nat, n: nat)
    requires Run(ins, states, words) && k < n <= |ins| && Always(ins, k, n, (i: Input) => i.iPhyReady)
    requires states[k].L_SENDDATA? && ins[k].mPhyReady && ins[k].sLast && !ins[k].sAbort && !ins[k].Receives(SYNC)
    requires Always(ins, k + 1, n, (i: Input) => i.mPhyReady ==> Spared(i, {SYNC, R_OK, R_ERR}))
    ensures states[n].L_WAIT? && words[n] == if Takes(ins, k + 1, n) > 0 then Prim(WTRM) else ins[k].sData
    ensures n < |ins| && ins[n].iPhyReady && ins[n].mPhyReady && !Spared(ins[n], {SYNC, R_OK, R_ERR})
            ==> && states[n + 1].L_IDLE?
                && (Succeeds(states[n], ins[n]) <==> ins[n].Receives(R_OK))
                && (Fails(states[n], ins[n]) <==> ins[n].Receives(R_ERR) || ins[n].Receives(SYNC))
  {
    Steps(ins, states, words, k);
    Persists(ins, states, words, k + 1, n, L_WAIT,
             (i: Input) => i.iPhyReady && (i.mPhyReady ==> Spared(i, {SYNC, R_OK, R_ERR})));
    if n < |ins| { Steps(ins, states, words, n); }
  }

  // ---- Power management ----

  /** A power request is denied with PMNAK. The machine leaves L_PMDENY exactly when a data word
      comes in; no primitive moves it, not the SYNC that ends the request. */
  lemma Denies(ins: seq<Input>, states: seq<State>, words: seq<Word>, k: nat, n: nat)
    requires Run(ins, states, words) && k < n <= |ins| && Always(ins, k, n, (i: Input) => i.iPhyReady)
    requires states[k].L_IDLE? && ins[k].mPhyReady && (ins[k].Receives(PMREQ_P) || ins[k].Receives(PMREQ_S))
    requires Always(ins, k + 1, n, (i: Input) => i.rx.None? || i.ReceivesPrimitive())
    ensures states[n].L_PMDENY? && words[n] == if Takes(ins, k + 1, n) > 0 then Prim(PMNAK) else Prim(SYNC)
    ensures n < |ins| && ins[n].iPhyReady && ins[n].rx.Some? && !ins[n].ReceivesPrimitive() ==> states[n + 1].L_IDLE?
  {
    Steps(ins, states, words, k);
    Persists(ins, states, words, k + 1, n, L_PMDENY,
             (i: Input) => i.iPhyReady && (i.rx.None? || i.ReceivesPrimitive()));
    if n < |ins| { Steps(ins, states, words, n); }
  }
}
