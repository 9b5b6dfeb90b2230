/** The command machine of rtl/satatrn_fsm.v. The shadow registers and the Wishbone decoder
    stay outside: a recognised command arrives as an input, with the sector count. */
module TransportFsm {
  import opened Words
  import opened Arithmetic

  const FIS_REG_TO_HOST := 0x34
  const FIS_DMA_ACTIVATE := 0x39
  const FIS_PIO_SETUP := 0x5f

  const CHUNK := 2048
  const COUNTER := 0x1_0000  // dma_length is 16 bits wide

  datatype Command = CMD_NONDATA | CMD_PIO_READ | CMD_PIO_WRITE | CMD_DMA_READ | CMD_DMA_WRITE

  datatype State =
    | FSM_IDLE | FSM_COMMAND | FSM_PIO_IN_SETUP | FSM_PIO_RXDATA | FSM_PIO_OUT_SETUP | FSM_PIO_TXDATA
    | FSM_DMA_IN | FSM_DMA_IN_FINAL | FSM_DMA_OUT_SETUP | FSM_DMA_TXDATA | FSM_WAIT_REG

  /** command is known_cmd with r_count; fis is the type of a FIS that starts, with the
      BSY bit of a PIO setup; down stands for a lost link, a failed transfer or a PHY reset. */
  datatype Input = Input(
    down: bool, command: Option<nat>, cmdType: Command, fis: Option<nat>, bsy: bool,
    s2mmBusy: bool, mm2sBusy: bool, tranBusy: bool)

  datatype Registers = Registers(
    state: State, returnToIdle: bool, tranReq: bool, tranLen: nat, s2mmRequest: bool, mm2sRequest: bool,
    dmaLength: nat, lastRxFis: bool)
  {
    predicate Hears(i: Input, fis: nat) {
      i.fis == Some(fis)
    }
  }

  /** The bytes of a command: the product wraps in dma_length. */
  function Wanted(count: nat): nat {
    count * 512 % COUNTER
  }

  function Idle(r: Registers): Registers {
    r.(state := FSM_IDLE, returnToIdle := true)
  }

  function EdgeIdle(r: Registers, i: Input): Registers {
    if i.command.None? then r
    else r.(state := FSM_COMMAND, tranReq := true, tranLen := 20, dmaLength := Wanted(i.command.value))
  }

  function EdgeCommand(r: Registers, i: Input): Registers {
    if !r.tranReq then r
    else match i.cmdType
      case CMD_NONDATA => r.(tranReq := false, state := FSM_WAIT_REG)
      case CMD_PIO_READ => r.(tranReq := false, state := FSM_PIO_IN_SETUP)
      case CMD_PIO_WRITE => r.(tranReq := false, state := FSM_PIO_OUT_SETUP)
      case CMD_DMA_READ => r.(tranReq := false, state := FSM_DMA_IN, s2mmRequest := true)
      case CMD_DMA_WRITE => r.(tranReq := false, state := FSM_DMA_OUT_SETUP)
  }

  function EdgePioIn(r: Registers, i: Input): Registers {
    if r.Hears(i, FIS_REG_TO_HOST) then Idle(r).(lastRxFis := false)
    else if r.Hears(i, FIS_PIO_SETUP) then r.(state := FSM_PIO_RXDATA, s2mmRequest := true, lastRxFis := i.bsy)
    else r.(lastRxFis := false)
  }

  function EdgePioRx(r: Registers, i: Input): Registers {
    var q := r.(s2mmRequest := r.s2mmRequest && i.s2mmBusy);
    if !r.Hears(i, FIS_REG_TO_HOST) then q
    else if r.lastRxFis then q.(state := FSM_PIO_IN_SETUP) else Idle(q)
  }

  function EdgePioOut(r: Registers, i: Input): Registers {
    if r.Hears(i, FIS_REG_TO_HOST) then Idle(r).(mm2sRequest := false)
    else if r.Hears(i, FIS_PIO_SETUP) then
      r.(state := FSM_PIO_TXDATA, mm2sRequest := true, tranReq := true, tranLen := Min(CHUNK, r.dmaLength))
    else r.(mm2sRequest := false)
  }

  function EdgePioTx(r: Registers, i: Input): Registers {
    var q := r.(tranReq := r.tranReq && i.tranBusy, mm2sRequest := r.mm2sRequest && i.mm2sBusy);
    if r.mm2sRequest || i.mm2sBusy then q else q.(state := FSM_PIO_OUT_SETUP)
  }

  function EdgeDmaIn(r: Registers, i: Input): Registers {
    var q := r.(s2mmRequest := r.s2mmRequest && i.s2mmBusy);
    if r.Hears(i, FIS_REG_TO_HOST) then q.(state := FSM_DMA_IN_FINAL) else q
  }

  function EdgeDmaOut(r: Registers, i: Input): Registers {
    var q := r.(mm2sRequest := false, tranLen := Min(CHUNK, r.dmaLength));
    if r.Hears(i, FIS_REG_TO_HOST) then Idle(q)
    else if r.Hears(i, FIS_DMA_ACTIVATE) then
      q.(state := FSM_DMA_TXDATA, mm2sRequest := true, tranReq := true, dmaLength := Left(r.dmaLength))
    else q
  }

  function Left(n: nat): nat {
    if n >= CHUNK then n - CHUNK else 0
  }

  function EdgeDmaTx(r: Registers, i: Input): Registers {
    var q := r.(tranReq := r.tranReq && i.tranBusy, mm2sRequest := r.mm2sRequest && i.mm2sBusy);
    if r.tranReq || i.tranBusy || r.mm2sRequest || i.mm2sBusy then q else q.(state := FSM_DMA_OUT_SETUP)
  }

  function Edge(r: Registers, i: Input): Registers {
    if i.down then
      r.(state := FSM_IDLE, returnToIdle := !r.state.FSM_IDLE?, s2mmRequest := false, mm2sRequest := false)
    else Run(r.(returnToIdle := false), i)
  }

  function Run(r: Registers, i: Input): Registers {
    match r.state
    case FSM_IDLE => EdgeIdle(r, i)
    case FSM_COMMAND => EdgeCommand(r, i)
    case FSM_PIO_IN_SETUP => EdgePioIn(r, i)
    case FSM_PIO_RXDATA => EdgePioRx(r, i)
    case FSM_PIO_OUT_SETUP => EdgePioOut(r, i)
    case FSM_PIO_TXDATA => EdgePioTx(r, i)
    case FSM_DMA_IN => EdgeDmaIn(r, i)
    case FSM_DMA_IN_FINAL => if i.s2mmBusy then r else Idle(r)
    case FSM_DMA_OUT_SETUP => EdgeDmaOut(r, i)
    case FSM_DMA_TXDATA => EdgeDmaTx(r, i)
    case FSM_WAIT_REG => if r.Hears(i, FIS_REG_TO_HOST) then Idle(r) else r
  }

  /** How a clock moves the machine, as far as the accounts below can tell. */
  predicate Moves(s: State, len: nat, tran: nat, t: State, pulse: bool, len2: nat, tran2: nat) {
    && pulse == (!s.FSM_IDLE? && t.FSM_IDLE?)
    && (s.FSM_IDLE? ==> t.FSM_IDLE? || t.FSM_COMMAND?)
    && (t.FSM_PIO_OUT_SETUP? ==> len2 == len && (s.FSM_COMMAND? || s.FSM_PIO_OUT_SETUP? || s.FSM_PIO_TXDATA?))
    && (t.FSM_PIO_TXDATA? ==>
          && len2 == len && (s.FSM_PIO_OUT_SETUP? || s.FSM_PIO_TXDATA?)
          && tran2 == if s.FSM_PIO_TXDATA? then tran else Min(CHUNK, len))
    && (t.FSM_COMMAND? ==> s.FSM_IDLE? || (s.FSM_COMMAND? && len2 == len))
    && (t.FSM_DMA_OUT_SETUP? ==> len2 == len && (s.FSM_COMMAND? || s.FSM_DMA_OUT_SETUP? || s.FSM_DMA_TXDATA?))
    && (t.FSM_DMA_TXDATA? ==>
          if s.FSM_DMA_TXDATA? then len2 == len && tran2 == tran
          else s.FSM_DMA_OUT_SETUP? && len2 == Left(len) && tran2 == Min(CHUNK, len))
  }

  lemma RunMoves(r: Registers, i: Input)
    requires !r.returnToIdle
    ensures var n := Run(r, i); Moves(r.state, r.dmaLength, r.tranLen, n.state, n.returnToIdle, n.dmaLength, n.tranLen)
  {
    hide Wanted;
    match r.state {
      case FSM_IDLE =>
      case FSM_COMMAND =>
      case FSM_DMA_OUT_SETUP =>
      case FSM_DMA_TXDATA =>
      case FSM_PIO_OUT_SETUP =>
      case FSM_PIO_TXDATA =>
      case _ =>
    }
  }

  lemma EdgeBegins(r: Registers, i: Input)
    ensures var n := Edge(r, i);
            && (Begins(r, i) <==> r.state.FSM_IDLE? && n.state.FSM_COMMAND?)
            && (Begins(r, i) ==> n.dmaLength == Wanted(i.command.value))
  {
    hide Wanted, EdgeCommand, EdgePioIn, EdgePioRx, EdgePioOut, EdgePioTx, EdgeDmaIn, EdgeDmaOut, EdgeDmaTx;
  }

  lemma EdgeMoves(r: Registers, i: Input)
    ensures var n := Edge(r, i); Moves(r.state, r.dmaLength, r.tranLen, n.state, n.returnToIdle, n.dmaLength, n.tranLen)
  {
    hide Run;
    RunMoves(r.(returnToIdle := false), i);
  }

  // ---- Accounting ----

  datatype History = History(
    started: nat,        // commands begun
    returned: nat,       // pulses of return_to_idle
    total: nat,          // the bytes of the command
    chunks: seq<nat>)    // o_tran_len of each DMA Activate since

  function Sum(s: seq<nat>): nat {
    if s == [] then 0 else Sum(Init(s)) + Last(s)
  }

  /** A command begins. */
  predicate Begins(r: Registers, i: Input) {
    !i.down && r.state.FSM_IDLE? && i.command.Some?
  }

  function After(r: Registers, h: History, i: Input): History {
    var n := Edge(r, i);
    History(
      if Begins(r, i) then h.started + 1 else h.started,
      if n.returnToIdle then h.returned + 1 else h.returned,
      if Begins(r, i) then Wanted(i.command.value) else h.total,
      if Begins(r, i) then [] else Push(h.chunks, r.state.FSM_DMA_OUT_SETUP? && n.state.FSM_DMA_TXDATA?, n.tranLen))
  }

  /** What the k-th DMA Activate of a write of n bytes moves. */
  function ChunkOf(n: nat, k: nat): nat {
    Min(2048, n - Min(n, 2048 * k))
  }

  ghost predicate Chunked(n: nat, left: nat, chunks: seq<nat>) {
    && Sum(chunks) == Min(n, 2048 * |chunks|)
    && left == n - Min(n, 2048 * |chunks|)
    && forall k :: 0 <= k < |chunks| ==> chunks[k] == ChunkOf(n, k)
  }

  /** Every command begun has returned to idle once, or is under way; and the lengths
      handed to a DMA write are those of its successive chunks; a PIO write is handed its first
      chunk each time. */
  ghost predicate Invariant(r: Registers, h: History) {
    && h.started == h.returned + (if r.state.FSM_IDLE? then 0 else 1)
    && Writing(r, h)
  }

  ghost predicate Writing(r: Registers, h: History) {
    && (r.state.FSM_COMMAND? || r.state.FSM_DMA_OUT_SETUP? || r.state.FSM_DMA_TXDATA?
        ==> Chunked(h.total, r.dmaLength, h.chunks))
    && (r.state.FSM_DMA_TXDATA? ==> h.chunks != [] && r.tranLen == Last(h.chunks))
    && (r.state.FSM_COMMAND? || r.state.FSM_PIO_OUT_SETUP? || r.state.FSM_PIO_TXDATA? ==> r.dmaLength == h.total)
    && (r.state.FSM_PIO_TXDATA? ==> r.tranLen == ChunkOf(h.total, 0))
  }

  lemma ChunkedStep(n: nat, left: nat, chunks: seq<nat>)
    requires Chunked(n, left, chunks)
    ensures Chunked(n, Left(left), chunks + [Min(CHUNK, left)])
  {
    Snoc(chunks, Min(CHUNK, left));
  }

  /** Every clock keeps the accounts, link loss included. */
  lemma InvariantStep(r: Registers, h: History, i: Input)
    requires Invariant(r, h)
    ensures Invariant(Edge(r, i), After(r, h, i))
  {
    hide Writing, Edge, Wanted;
    EdgeMoves(r, i);
    EdgeBegins(r, i);
    WritingStep(r, h, i);
  }

  lemma WritingStep(r: Registers, h: History, i: Input)
    requires Writing(r, h)
    ensures Writing(Edge(r, i), After(r, h, i))
  {
    hide Chunked, Edge, Left, Wanted, Begins;
    EdgeMoves(r, i);
    EdgeBegins(r, i);
    NoChunks(Edge(r, i).dmaLength);
    if r.state.FSM_DMA_OUT_SETUP? { ChunkedStep(h.total, r.dmaLength, h.chunks); }
    Snoc(h.chunks, Edge(r, i).tranLen);
  }

  lemma NoChunks(n: nat)
    ensures Chunked(n, n, [])
  {
  }

  /** Enough activations move the whole of a DMA write, and no more. */
  lemma WholeWrite(r: Registers, h: History)
    requires Invariant(r, h) && (r.state.FSM_DMA_OUT_SETUP? || r.state.FSM_DMA_TXDATA?)
    ensures Sum(h.chunks) <= h.total
    ensures Sum(h.chunks) == h.total <==> r.dmaLength == 0
    ensures 2048 * |h.chunks| >= h.total <==> Sum(h.chunks) == h.total
  {
  }

  /** The byte count is that of the sectors asked for if and only if they are fewer than
      128: from there on the 16-bit product wraps. */
  lemma CountWraps(count: nat)
    ensures Wanted(count) == count * 512 <==> count < 128
    ensures count == 128 ==> Wanted(count) == 0
  {
  }

  // ---- Requests ----

  /** One request line, since the last command began: how often its transfer was called for, how
      often that raised it, and how often it was still raised; and whether the other side has
      been seen idle since. */
  datatype Account = Account(calls: nat, rises: nat, kept: nat, seen: bool) {
    function Book(before: bool, after: bool, call: bool, idle: bool): Account {
      Account(calls + Count(call), rises + Count(!before && after), kept + Count(before && call),
              !call && (seen || idle))
    }

    predicate Balanced(request: bool) {
      rises + kept == calls && request == !seen
    }

    predicate Untouched() {
      calls == rises == kept == 0
    }
  }

  function Count(b: bool): nat {
    if b then 1 else 0
  }

  /** command is the type sent to the device, setups the PIO setups acted on since, and busy the
      BSY bit of the last of them. */
  datatype Ledger = Ledger(command: Option<Command>, setups: nat, busy: bool,
                           writer: Account, reader: Account, tran: Account)

  const Nothing := Ledger(None, 0, false, Account(0, 0, 0, true), Account(0, 0, 0, true), Account(0, 0, 0, true))

  /** A read of the device, by DMA or PIO: the memory writer is to take a transfer. */
  predicate CallsWriter(r: Registers, i: Input) {
    && !i.down
    && ((r.state.FSM_COMMAND? && i.cmdType.CMD_DMA_READ?) || (r.state.FSM_PIO_IN_SETUP? && i.fis == Some(0x5f)))
  }

  /** The device asks for data: the memory reader is to send a transfer. */
  predicate CallsReader(r: Registers, i: Input) {
    && !i.down
    && ((r.state.FSM_DMA_OUT_SETUP? && i.fis == Some(0x39)) || (r.state.FSM_PIO_OUT_SETUP? && i.fis == Some(0x5f)))
  }

  predicate HearsSetup(r: Registers, i: Input) {
    !i.down && (r.state.FSM_PIO_IN_SETUP? || r.state.FSM_PIO_OUT_SETUP?) && i.fis == Some(0x5f)
  }

  predicate SeesWriter(r: Registers, i: Input) {
    i.down || ((r.state.FSM_DMA_IN? || r.state.FSM_PIO_RXDATA?) && !i.s2mmBusy)
  }

  predicate Sending(s: State) {
    s.FSM_DMA_TXDATA? || s.FSM_PIO_TXDATA?
  }

  predicate SeesReader(r: Registers, i: Input) {
    i.down || (Sending(r.state) && !i.mm2sBusy)
  }

  /** The request for the command itself is up for one clock, whoever is busy. */
  predicate SeesTran(r: Registers, i: Input) {
    !i.down && (r.state.FSM_COMMAND? || (Sending(r.state) && !i.tranBusy))
  }

  function Booked(r: Registers, l: Ledger, i: Input): Ledger {
    var n := Edge(r, i);
    if Begins(r, i) then
      Ledger(None, 0, false, Account(0, 0, 0, l.writer.seen), Account(0, 0, 0, l.reader.seen), Account(0, 0, 0, false))
    else
      Ledger(if !i.down && r.state.FSM_COMMAND? then Some(i.cmdType) else l.command,
             l.setups + Count(HearsSetup(r, i)), if HearsSetup(r, i) then i.bsy else l.busy,
             l.writer.Book(r.s2mmRequest, n.s2mmRequest, CallsWriter(r, i), SeesWriter(r, i)),
             l.reader.Book(r.mm2sRequest, n.mm2sRequest, CallsReader(r, i), SeesReader(r, i)),
             l.tran.Book(r.tranReq, n.tranReq, CallsReader(r, i), SeesTran(r, i)))
  }

  /** The command that a state belongs to. */
  function Serves(s: State): Option<Command> {
    match s
    case FSM_PIO_IN_SETUP => Some(CMD_PIO_READ)
    case FSM_PIO_RXDATA => Some(CMD_PIO_READ)
    case FSM_PIO_OUT_SETUP => Some(CMD_PIO_WRITE)
    case FSM_PIO_TXDATA => Some(CMD_PIO_WRITE)
    case FSM_DMA_IN => Some(CMD_DMA_READ)
    case FSM_DMA_IN_FINAL => Some(CMD_DMA_READ)
    case FSM_DMA_OUT_SETUP => Some(CMD_DMA_WRITE)
    case FSM_DMA_TXDATA => Some(CMD_DMA_WRITE)
    case FSM_WAIT_REG => Some(CMD_NONDATA)
    case _ => None
  }

  /** Data moves in the direction of the command only: a DMA read calls for the writer once, a
      PIO read once for each setup, a DMA write for the reader once for each Activate, and a PIO
      write once for each setup. */
  ghost predicate Directed(l: Ledger, activates: nat) {
    match l.command
    case None => Dataless(l) && l.setups == activates == 0
    case Some(CMD_NONDATA) => Dataless(l)
    case Some(CMD_DMA_READ) => l.writer.calls == 1 && l.reader.Untouched() && l.tran.Untouched()
    case Some(CMD_PIO_READ) => l.writer.calls == l.setups && l.reader.Untouched() && l.tran.Untouched()
    case Some(CMD_DMA_WRITE) =>
      && l.writer.Untouched()
      && l.reader.rises == l.tran.rises == activates && l.reader.kept == l.tran.kept == 0
    case Some(CMD_PIO_WRITE) =>
      && l.writer.Untouched()
      && l.reader.rises == l.tran.calls == l.setups && l.reader.kept == 0
  }

  ghost predicate Dataless(l: Ledger) {
    l.writer.Untouched() && l.reader.Untouched() && l.tran.Untouched()
  }

  /** A request is up from when it is called for until the other side has been seen idle. */
  ghost predicate Balances(r: Registers, l: Ledger) {
    l.writer.Balanced(r.s2mmRequest) && l.reader.Balanced(r.mm2sRequest) && l.tran.Balanced(r.tranReq)
  }

  /** The machine is about the command in the ledger. */
  ghost predicate Placed(r: Registers, l: Ledger) {
    && (!r.state.FSM_IDLE? ==> l.command == Serves(r.state))
    && (r.state.FSM_COMMAND? ==> r.tranLen == 20)
    && (r.state.FSM_PIO_RXDATA? ==> r.lastRxFis == l.busy)
  }

  /** The reader is only asked while its data is being sent, and the link for a command in the
      one clock of FSM_COMMAND. */
  ghost predicate Steady(r: Registers) {
    && (r.state.FSM_COMMAND? ==> r.tranReq)
    && (r.mm2sRequest ==> Sending(r.state))
    && (r.state.FSM_DMA_OUT_SETUP? ==> !r.tranReq)
  }

  /** Every request is accounted for. */
  ghost predicate Accounts(r: Registers, h: History, l: Ledger) {
    Balances(r, l) && Directed(l, |h.chunks|) && Placed(r, l) && Steady(r)
  }

  /** Which requests a clock raises and lowers. */
  predicate Requested(r: Registers, i: Input, n: Registers) {
    && (n.s2mmRequest <==> CallsWriter(r, i) || (r.s2mmRequest && !SeesWriter(r, i)))
    && (n.mm2sRequest <==> CallsReader(r, i) || (r.mm2sRequest && !SeesReader(r, i)))
    && (n.tranReq <==> Begins(r, i) || CallsReader(r, i) || (r.tranReq && !SeesTran(r, i)))
  }

  /** How the states change, as far as requests go. */
  predicate Staged(r: Registers, i: Input, n: Registers) {
    && (n.state.FSM_COMMAND? <==> Begins(r, i)) && (n.state.FSM_COMMAND? ==> n.tranLen == 20)
    && (!n.state.FSM_IDLE? && !n.state.FSM_COMMAND?
        ==> !i.down && Serves(n.state) == if r.state.FSM_COMMAND? then Some(i.cmdType) else Serves(r.state))
    && (r.state.FSM_DMA_OUT_SETUP? ==> (n.state.FSM_DMA_TXDATA? <==> CallsReader(r, i)))
    && (n.mm2sRequest ==> Sending(n.state))
    && (n.state.FSM_DMA_OUT_SETUP? ==> !n.tranReq)
    && (n.state.FSM_PIO_RXDATA?
        ==> if HearsSetup(r, i) then n.lastRxFis == i.bsy
            else r.state.FSM_PIO_RXDATA? && n.lastRxFis == r.lastRxFis)
  }

  lemma PioInRequests(r: Registers, i: Input)
    requires Steady(r) && !i.down && (r.state.FSM_PIO_IN_SETUP? || r.state.FSM_PIO_RXDATA?)
    ensures Requested(r, i, Run(r, i)) && Staged(r, i, Run(r, i))
  {
    hide EdgeIdle, EdgeCommand, EdgePioOut, EdgePioTx, EdgeDmaIn, EdgeDmaOut, EdgeDmaTx;
  }

  lemma PioOutRequests(r: Registers, i: Input)
    requires Steady(r) && !i.down && (r.state.FSM_PIO_OUT_SETUP? || r.state.FSM_PIO_TXDATA?)
    ensures Requested(r, i, Run(r, i)) && Staged(r, i, Run(r, i))
  {
    hide EdgeIdle, EdgeCommand, EdgePioIn, EdgePioRx, EdgeDmaIn, EdgeDmaOut, EdgeDmaTx;
  }

  lemma DmaInRequests(r: Registers, i: Input)
    requires Steady(r) && !i.down && (r.state.FSM_DMA_IN? || r.state.FSM_DMA_IN_FINAL?)
    ensures Requested(r, i, Run(r, i)) && Staged(r, i, Run(r, i))
  {
    hide EdgeIdle, EdgeCommand, EdgePioIn, EdgePioRx, EdgePioOut, EdgePioTx, EdgeDmaOut, EdgeDmaTx;
  }

  lemma DmaOutRequests(r: Registers, i: Input)
    requires Steady(r) && !i.down && (r.state.FSM_DMA_OUT_SETUP? || r.state.FSM_DMA_TXDATA?)
    ensures Requested(r, i, Run(r, i)) && Staged(r, i, Run(r, i))
  {
    hide EdgeIdle, EdgeCommand, EdgePioIn, EdgePioRx, EdgePioOut, EdgePioTx, EdgeDmaIn, Left;
  }

  lemma OtherRequests(r: Registers, i: Input)
    requires Steady(r) && !i.down && (r.state.FSM_IDLE? || r.state.FSM_COMMAND? || r.state.FSM_WAIT_REG?)
    ensures Requested(r, i, Run(r, i)) && Staged(r, i, Run(r, i))
  {
    hide EdgePioIn, EdgePioRx, EdgePioOut, EdgePioTx, EdgeDmaIn, EdgeDmaOut, EdgeDmaTx, Wanted;
  }

  lemma RunRequests(r: Registers, i: Input)
    requires Steady(r) && !i.down
    ensures Requested(r, i, Run(r, i)) && Staged(r, i, Run(r, i))
  {
    hide Run, Requested, Staged, Steady;
    match r.state {
      case FSM_IDLE => OtherRequests(r, i);
      case FSM_COMMAND => OtherRequests(r, i);
      case FSM_WAIT_REG => OtherRequests(r, i);
      case FSM_DMA_IN => DmaInRequests(r, i);
      case FSM_DMA_IN_FINAL => DmaInRequests(r, i);
      case FSM_DMA_OUT_SETUP => DmaOutRequests(r, i);
      case FSM_DMA_TXDATA => DmaOutRequests(r, i);
      case FSM_PIO_IN_SETUP => PioInRequests(r, i);
      case FSM_PIO_RXDATA => PioInRequests(r, i);
      case _ => PioOutRequests(r, i);
    }
  }

  lemma EdgeRequests(r: Registers, i: Input)
    requires Steady(r)
    ensures Requested(r, i, Edge(r, i)) && Staged(r, i, Edge(r, i))
  {
    hide Run;
    var q := r.(returnToIdle := false);
    if !i.down { RunRequests(q, i); }
  }

  lemma Booking(a: Account, before: bool, after: bool, call: bool, idle: bool)
    requires a.Balanced(before) && (after <==> call || (before && !idle))
    ensures var b := a.Book(before, after, call, idle);
            && b.Balanced(after)
            && (!call ==> b.calls == a.calls && b.rises == a.rises && b.kept == a.kept)
            && (call ==> b.calls == a.calls + 1 && if before then b.kept == a.kept + 1 && b.rises == a.rises
                                                   else b.rises == a.rises + 1 && b.kept == a.kept)
  {
  }

  lemma BookingAll(r: Registers, l: Ledger, i: Input, n: Registers)
    requires Requested(r, i, n) && Balances(r, l)
    ensures l.writer.Book(r.s2mmRequest, n.s2mmRequest, CallsWriter(r, i), SeesWriter(r, i)).Balanced(n.s2mmRequest)
    ensures l.reader.Book(r.mm2sRequest, n.mm2sRequest, CallsReader(r, i), SeesReader(r, i)).Balanced(n.mm2sRequest)
    ensures !Begins(r, i) ==>
              l.tran.Book(r.tranReq, n.tranReq, CallsReader(r, i), SeesTran(r, i)).Balanced(n.tranReq)
  {
    hide CallsWriter, CallsReader, SeesWriter, SeesReader, SeesTran, Begins, Account.Book, Account.Balanced;
    Booking(l.writer, r.s2mmRequest, n.s2mmRequest, CallsWriter(r, i), SeesWriter(r, i));
    Booking(l.reader, r.mm2sRequest, n.mm2sRequest, CallsReader(r, i), SeesReader(r, i));
    if !Begins(r, i) { Booking(l.tran, r.tranReq, n.tranReq, CallsReader(r, i), SeesTran(r, i)); }
  }

  lemma BalancesStep(r: Registers, l: Ledger, i: Input)
    requires Requested(r, i, Edge(r, i)) && Balances(r, l)
    ensures Balances(Edge(r, i), Booked(r, l, i))
  {
    hide Edge, Account.Book;
    BookingAll(r, l, i, Edge(r, i));
  }

  lemma PlacedStep(r: Registers, l: Ledger, i: Input)
    requires Requested(r, i, Edge(r, i)) && Staged(r, i, Edge(r, i)) && Placed(r, l)
    ensures Placed(Edge(r, i), Booked(r, l, i)) && Steady(Edge(r, i))
  {
    hide Edge, Account.Book, CallsWriter, CallsReader, SeesWriter, SeesReader, SeesTran;
  }

  /** What a clock does to the counts. */
  ghost predicate Counted(r: Registers, l: Ledger, i: Input, l2: Ledger) {
    && Counts(l.writer, l2.writer, r.s2mmRequest, CallsWriter(r, i))
    && Counts(l.reader, l2.reader, r.mm2sRequest, CallsReader(r, i))
    && Counts(l.tran, l2.tran, r.tranReq, CallsReader(r, i))
  }

  ghost predicate Counts(a: Account, b: Account, before: bool, call: bool) {
    && b.calls == a.calls + Count(call)
    && b.rises == a.rises + Count(call && !before)
    && b.kept == a.kept + Count(call && before)
  }

  lemma CountedStep(r: Registers, l: Ledger, i: Input)
    requires Requested(r, i, Edge(r, i)) && !Begins(r, i)
    ensures Counted(r, l, i, Booked(r, l, i))
  {
    hide Edge, CallsWriter, CallsReader, SeesWriter, SeesReader, SeesTran;
  }

  lemma DirectedStep(r: Registers, h: History, l: Ledger, i: Input)
    requires Requested(r, i, Edge(r, i)) && Staged(r, i, Edge(r, i))
    requires Directed(l, |h.chunks|) && Steady(r) && (!r.state.FSM_IDLE? ==> l.command == Serves(r.state))
    ensures Directed(Booked(r, l, i), |After(r, h, i).chunks|)
  {
    hide Edge, SeesWriter, SeesReader, SeesTran, Account.Book;
    var l2 := Booked(r, l, i);
    if !Begins(r, i) {
      CountedStep(r, l, i);
    }
  }

  lemma AccountsStep(r: Registers, h: History, l: Ledger, i: Input)
    requires Accounts(r, h, l)
    ensures Accounts(Edge(r, i), After(r, h, i), Booked(r, l, i))
  {
    hide Edge, After, Booked, Balances, Directed, Placed, Requested, Staged;
    EdgeRequests(r, i);
    BalancesStep(r, l, i);
    PlacedStep(r, l, i);
    ServesNow(r, l);
    DirectedStep(r, h, l, i);
  }

  lemma ServesNow(r: Registers, l: Ledger)
    requires Placed(r, l)
    ensures !r.state.FSM_IDLE? ==> l.command == Serves(r.state)
  {
  }

  // ---- Ends ----

  /** What ends a command: for most the register FIS of the device, for a DMA read the memory
      writer after that, for a PIO read one that follows a setup with BSY clear. */
  predicate Ends(r: Registers, i: Input) {
    match r.state
    case FSM_IDLE => false
    case FSM_COMMAND => false
    case FSM_PIO_RXDATA => i.fis == Some(0x34) && !r.lastRxFis
    case FSM_PIO_TXDATA => false
    case FSM_DMA_IN => false
    case FSM_DMA_IN_FINAL => !i.s2mmBusy
    case FSM_DMA_TXDATA => false
    case _ => i.fis == Some(0x34)
  }

  lemma RunReturns(r: Registers, i: Input)
    requires !r.returnToIdle
    ensures Run(r, i).returnToIdle <==> Ends(r, i)
    ensures r.state.FSM_DMA_IN? ==> (Run(r, i).state.FSM_DMA_IN_FINAL? <==> i.fis == Some(0x34))
    ensures r.state.FSM_PIO_RXDATA?
            ==> (Run(r, i).state.FSM_PIO_IN_SETUP? <==> i.fis == Some(0x34) && r.lastRxFis)
  {
    hide Wanted, Left;
    match r.state {
      case FSM_IDLE =>
      case FSM_COMMAND =>
      case FSM_PIO_IN_SETUP =>
      case FSM_PIO_RXDATA =>
      case FSM_PIO_OUT_SETUP =>
      case FSM_DMA_IN =>
      case FSM_DMA_OUT_SETUP =>
      case FSM_DMA_TXDATA =>
      case _ =>
    }
  }

  lemma Returns(r: Registers, i: Input)
    ensures Edge(r, i).returnToIdle <==> if i.down then !r.state.FSM_IDLE? else Ends(r, i)
  {
    hide Run;
    RunReturns(r.(returnToIdle := false), i);
  }

  /** Data is being sent until the reader, and for a DMA write the link too, has taken the request
      and come to rest; two clocks at rest are enough. */
  lemma SendEnds(r: Registers, i: Input, j: Input)
    requires Sending(r.state) && !i.down && !j.down
    ensures !Sending(Edge(r, i).state)
            <==> !r.mm2sRequest && !i.mm2sBusy && (r.state.FSM_DMA_TXDATA? ==> !r.tranReq && !i.tranBusy)
    ensures !i.mm2sBusy && !i.tranBusy && !j.mm2sBusy && !j.tranBusy
            ==> !Sending(Edge(r, i).state) || !Sending(Edge(Edge(r, i), j).state)
  {
    hide EdgeIdle, EdgeCommand, EdgePioIn, EdgePioRx, EdgePioOut, EdgeDmaIn, EdgeDmaOut;
  }

  /** A PIO setup that comes before the register FIS after the last one is passed over: nothing
      is called for. */
  lemma SetupUnheard(r: Registers, i: Input)
    requires r.state.FSM_PIO_RXDATA? && i.fis == Some(0x5f)
    ensures Edge(r, i) == Edge(r, i.(fis := None))
  {
    hide EdgeIdle, EdgeCommand, EdgePioIn, EdgePioOut, EdgePioTx, EdgeDmaIn, EdgeDmaOut, EdgeDmaTx;
  }

  /** The machine over a run from reset. */
  function Runs(ins: seq<Input>): Registers {
    if ins == [] then Reset else Edge(Runs(Init(ins)), Last(ins))
  }

  const Reset := Registers(FSM_IDLE, false, false, 0, false, false, 0, false)

  lemma ResetAccounts()
    ensures Invariant(Reset, History(0, 0, 0, [])) && Accounts(Reset, History(0, 0, 0, []), Nothing)
  {
  }

  function Sample(command: Option<nat>, cmdType: Command, fis: Option<nat>, s2mmBusy: bool, tranBusy: bool): Input {
    Input(false, command, cmdType, fis, false, s2mmBusy, false, tranBusy)
  }

  /** A DMA read that the writer is busy throughout returns with its request still up, for the
      writer to take when the read is over. */
  lemma WriterLeftAsked()
    ensures var r := Runs([Sample(Some(1), CMD_DMA_READ, None, true, false),
                           Sample(None, CMD_DMA_READ, None, true, false),
                           Sample(None, CMD_DMA_READ, Some(0x34), true, false),
                           Sample(None, CMD_DMA_READ, None, false, false)]);
            r.state.FSM_IDLE? && r.returnToIdle && r.s2mmRequest
  {
    hide EdgePioIn, EdgePioRx, EdgePioOut, EdgePioTx, EdgeDmaOut, EdgeDmaTx;
    var a := [Sample(Some(1), CMD_DMA_READ, None, true, false)];
    var b := a + [Sample(None, CMD_DMA_READ, None, true, false)];
    var c := b + [Sample(None, CMD_DMA_READ, Some(0x34), true, false)];
    var d := c + [Sample(None, CMD_DMA_READ, None, false, false)];
    Snoc([], a[0]);
    assert Runs(a).state.FSM_COMMAND? && Runs(a).tranReq;
    assert Runs(b).state.FSM_DMA_IN? && Runs(b).s2mmRequest;
    assert Runs(c).state.FSM_DMA_IN_FINAL? && Runs(c).s2mmRequest;
    assert Runs(d).state.FSM_IDLE? && Runs(d).s2mmRequest && Runs(d).returnToIdle;
    assert d == [a[0], b[1], c[2], d[3]];
  }

  /** And a PIO write that the link is busy throughout returns with o_tran_req still up. */
  lemma LinkLeftAsked()
    ensures var r := Runs([Sample(Some(1), CMD_PIO_WRITE, None, false, true),
                           Sample(None, CMD_PIO_WRITE, None, false, true),
                           Sample(None, CMD_PIO_WRITE, Some(0x5f), false, true),
                           Sample(None, CMD_PIO_WRITE, None, false, true),
                           Sample(None, CMD_PIO_WRITE, None, false, true),
                           Sample(None, CMD_PIO_WRITE, Some(0x34), false, false)]);
            r.state.FSM_IDLE? && r.returnToIdle && r.tranReq
  {
    hide EdgePioIn, EdgePioRx, EdgeDmaIn, EdgeDmaOut, EdgeDmaTx, Wanted;
    var a := [Sample(Some(1), CMD_PIO_WRITE, None, false, true)];
    var b := a + [Sample(None, CMD_PIO_WRITE, None, false, true)];
    var c := b + [Sample(None, CMD_PIO_WRITE, Some(0x5f), false, true)];
    var d := c + [Sample(None, CMD_PIO_WRITE, None, false, true)];
    var e := d + [Sample(None, CMD_PIO_WRITE, None, false, true)];
    var f := e + [Sample(None, CMD_PIO_WRITE, Some(0x34), false, false)];
    Snoc([], a[0]);
    assert Runs(a).state.FSM_COMMAND? && Runs(a).tranReq;
    assert Runs(b).state.FSM_PIO_OUT_SETUP?;
    assert Runs(c).state.FSM_PIO_TXDATA? && Runs(c).tranReq;
    assert Runs(d).state.FSM_PIO_TXDATA? && Runs(d).tranReq && !Runs(d).mm2sRequest;
    assert Runs(e).state.FSM_PIO_OUT_SETUP? && Runs(e).tranReq;
    assert Runs(f).state.FSM_IDLE? && Runs(f).tranReq && Runs(f).returnToIdle;
    assert f == [a[0], b[1], c[2], d[3], e[4], f[5]];
  }

  class TranFsm {
    var fsmState: State
    var returnToIdle: bool
    var oTranReq: bool
    var oTranLen: nat
    var oS2mmRequest: bool
    var oMm2sRequest: bool
    var dmaLength: nat
    var lastRxFis: bool
    ghost var h: History
    ghost var l: Ledger

    function Regs(): Registers
      reads this
    {
      Registers(fsmState, returnToIdle, oTranReq, oTranLen, oS2mmRequest, oMm2sRequest, dmaLength, lastRxFis)
    }

    ghost predicate Valid()
      reads this
    {
      Invariant(Regs(), h) && Accounts(Regs(), h, l)
    }

    constructor ()
      ensures Valid() && h == History(0, 0, 0, []) && l == Nothing
      ensures Regs() == Reset
    {
      hide Invariant, Accounts;
      fsmState, returnToIdle, oTranReq, oTranLen := FSM_IDLE, false, false, 0;
      oS2mmRequest, oMm2sRequest, dmaLength, lastRxFis := false, false, 0, false;
      h, l := History(0, 0, 0, []), Nothing;
      ResetAccounts();
    }

    /** The states that move data for a command. */
    method ClockData(i: Input)
      requires fsmState.FSM_DMA_IN? || fsmState.FSM_DMA_IN_FINAL? || fsmState.FSM_DMA_OUT_SETUP?
               || fsmState.FSM_DMA_TXDATA?
      requires !returnToIdle
      modifies `fsmState, `returnToIdle, `oTranReq, `oTranLen, `oS2mmRequest, `oMm2sRequest, `dmaLength
      ensures Regs() == Run(old(Regs()), i)
    {
      hide EdgeIdle, EdgeCommand, EdgePioIn, EdgePioRx, EdgePioOut, EdgePioTx, Wanted;
      var r := Regs();
      match fsmState {
        case FSM_DMA_IN =>
          if !i.s2mmBusy { oS2mmRequest := false; }
          if i.fis == Some(FIS_REG_TO_HOST) { fsmState := FSM_DMA_IN_FINAL; }
        case FSM_DMA_IN_FINAL =>
          if !i.s2mmBusy { fsmState, returnToIdle := FSM_IDLE, true; }
        case FSM_DMA_OUT_SETUP =>
          oMm2sRequest, oTranLen := false, Min(CHUNK, dmaLength);
          if i.fis == Some(FIS_REG_TO_HOST) {
            fsmState, returnToIdle := FSM_IDLE, true;
          } else if i.fis == Some(FIS_DMA_ACTIVATE) {
            fsmState, oMm2sRequest, oTranReq := FSM_DMA_TXDATA, true, true;
            dmaLength := if dmaLength >= CHUNK then dmaLength - CHUNK else 0;
          }
        case FSM_DMA_TXDATA =>
          if !i.mm2sBusy {
            oMm2sRequest := false;
            if !r.mm2sRequest {
              if !i.tranBusy {
                if !r.tranReq { fsmState := FSM_DMA_OUT_SETUP; }
              }
            }
          }
          if !i.tranBusy { oTranReq := false; }
      }
    }

    /** Programmed transfers from the device. */
    method ClockPioIn(i: Input)
      requires fsmState.FSM_PIO_IN_SETUP? || fsmState.FSM_PIO_RXDATA?
      requires !returnToIdle
      modifies `fsmState, `returnToIdle, `oS2mmRequest, `lastRxFis
      ensures Regs() == Run(old(Regs()), i)
    {
      hide EdgeIdle, EdgeCommand, EdgePioOut, EdgePioTx, EdgeDmaIn, EdgeDmaOut, EdgeDmaTx, Wanted;
      match fsmState {
        case FSM_PIO_IN_SETUP =>
          lastRxFis := false;
          if i.fis == Some(FIS_REG_TO_HOST) {
            fsmState, returnToIdle := FSM_IDLE, true;
          } else if i.fis == Some(FIS_PIO_SETUP) {
            fsmState, oS2mmRequest, lastRxFis := FSM_PIO_RXDATA, true, i.bsy;
          }
        case FSM_PIO_RXDATA =>
          if !i.s2mmBusy { oS2mmRequest := false; }
          if i.fis == Some(FIS_REG_TO_HOST) {
            if lastRxFis {
              fsmState := FSM_PIO_IN_SETUP;
            } else {
              fsmState, returnToIdle := FSM_IDLE, true;
            }
          }
      }
    }

    /** Programmed transfers to the device. */
    method ClockPioOut(i: Input)
      requires fsmState.FSM_PIO_OUT_SETUP? || fsmState.FSM_PIO_TXDATA?
      requires !returnToIdle
      modifies `fsmState, `returnToIdle, `oTranReq, `oTranLen, `oMm2sRequest
      ensures Regs() == Run(old(Regs()), i)
    {
      hide EdgeIdle, EdgeCommand, EdgePioIn, EdgePioRx, EdgeDmaIn, EdgeDmaOut, EdgeDmaTx, Wanted;
      var r := Regs();
      match fsmState {
        case FSM_PIO_OUT_SETUP =>
          oMm2sRequest := false;
          if i.fis == Some(FIS_REG_TO_HOST) {
            fsmState, returnToIdle := FSM_IDLE, true;
          } else if i.fis == Some(FIS_PIO_SETUP) {
            fsmState, oMm2sRequest, oTranReq := FSM_PIO_TXDATA, true, true;
            oTranLen := if dmaLength >= CHUNK then CHUNK else dmaLength;
          }
        case FSM_PIO_TXDATA =>
          if !i.tranBusy { oTranReq := false; }
          if !i.mm2sBusy {
            oMm2sRequest := false;
            if !r.mm2sRequest { fsmState := FSM_PIO_OUT_SETUP; }
          }
      }
    }

    /** One clock: the registers of the specification. */
    method Clock(i: Input)
      modifies this
      ensures Regs() == Edge(old(Regs()), i) && h == old(h) && l == old(l)
    {
      hide Wanted;
      if i.down {
        returnToIdle := !fsmState.FSM_IDLE?;
        fsmState, oS2mmRequest, oMm2sRequest := FSM_IDLE, false, false;
        return;
      }
      returnToIdle := false;
      match fsmState {
        case FSM_IDLE =>
          if i.command.Some? {
            fsmState, oTranReq, oTranLen, dmaLength := FSM_COMMAND, true, 20, Wanted(i.command.value);
          }
        case FSM_COMMAND =>
          if oTranReq {
            oTranReq := false;
            match i.cmdType {
              case CMD_NONDATA => fsmState := FSM_WAIT_REG;
              case CMD_PIO_READ => fsmState := FSM_PIO_IN_SETUP;
              case CMD_PIO_WRITE => fsmState := FSM_PIO_OUT_SETUP;
              case CMD_DMA_READ => fsmState, oS2mmRequest := FSM_DMA_IN, true;
              case CMD_DMA_WRITE => fsmState := FSM_DMA_OUT_SETUP;
            }
          }
        case FSM_WAIT_REG =>
          if i.fis == Some(FIS_REG_TO_HOST) { fsmState, returnToIdle := FSM_IDLE, true; }
        case FSM_DMA_IN => ClockData(i);
        case FSM_DMA_IN_FINAL => ClockData(i);
        case FSM_DMA_OUT_SETUP => ClockData(i);
        case FSM_DMA_TXDATA => ClockData(i);
        case FSM_PIO_IN_SETUP => ClockPioIn(i);
        case FSM_PIO_RXDATA => ClockPioIn(i);
        case _ => ClockPioOut(i);
      }
    }

    method Step(i: Input)
      requires Valid()
      modifies this
      ensures Valid()
      ensures Regs() == Edge(old(Regs()), i) && h == After(old(Regs()), old(h), i) 
      ensures l == Booked(old(Regs()), old(l), i)
    {
      hide Edge, After, Invariant, Accounts, Booked;
      InvariantStep(Regs(), h, i);
      AccountsStep(Regs(), h, l, i);
      ghost var h2, l2 := After(Regs(), h, i), Booked(Regs(), l, i);
      Clock(i);
      h, l := h2, l2;
    }
  }
}
