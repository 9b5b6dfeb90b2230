/** rtl/satadma_s2mm.v at i_inc = 1 and size SZ_BUS, the way the transport layer uses it.
    Byte lanes are numbered in address order, whatever the endianness of the bus. */
module StreamWriter {
  import opened Words
  import opened ByteLanes
  import opened Arithmetic

  /** The bus: bytes a word, words in all, and LGPIPE. */
  datatype Bus = Bus(width: nat, words: nat, lgpipe: nat) {
    predicate Valid() {
      width > 0 && words > 0 && lgpipe >= 3
    }

    function Most(): nat {
      Pow2(lgpipe) - 1
    }

    function Bytes(): nat {
      width * words
    }
  }

  /** What the module samples at a clock edge. */
  datatype Input = Input(request: bool, addr: nat, valid: bool, s: ByteBeat, stall: bool, ack: bool, err: bool)

  datatype Registers = Registers(
    busy: bool, err: bool, cyc: bool, stb: bool, addr: nat, sub: nat, last: bool,
    outstanding: nat, full: bool,
    wrData: seq<Byte>, wrSel: seq<bool>, data: seq<Byte>, sel: seq<bool>)
  {
    /** The byte address of the word on the bus, and of the one being put together. */
    function At(b: Bus): nat {
      addr * b.width
    }

    function Base(b: Bus): nat {
      At(b) + if stb then b.width else 0
    }

    predicate Shaped(b: Bus) {
      && |wrData| == |wrSel| == |data| == |sel| == b.width
      && sub < b.width && addr < b.words
    }

    /** A strobe that the bus takes in this clock. */
    predicate Issues(i: Input) {
      stb && !i.stall
    }

    predicate Moves(i: Input) {
      !stb || !i.stall
    }

    /** S_READY */
    predicate Ready(i: Input) {
      !last && busy && Moves(i) && !full
    }

    predicate Accepts(i: Input) {
      i.valid && Ready(i)
    }

    /** addr_overflow */
    predicate Overflows(b: Bus, i: Input) {
      Issues(i) && addr + 1 == b.words
    }

    predicate Flushes() {
      last && exists k :: 0 <= k < |sel| && sel[k]
    }

    predicate Stopped(i: Input) {
      !busy || err || (cyc && i.err)
    }
  }

  // ---- The combinational next_data and next_sel, two bus words wide ----

  function Lane(r: Registers, take: bool, s: ByteBeat, k: nat): Byte
    requires |r.data| == |r.sel|
  {
    Or(if k < |r.sel| && r.sel[k] then r.data[k] else 0,
       if take && r.sub <= k < r.sub + |s.data| then s.data[k - r.sub] else 0)
  }

  predicate Enabled(r: Registers, take: bool, s: ByteBeat, k: nat) {
    (k < |r.sel| && r.sel[k]) || (take && r.sub <= k < r.sub + s.bytes)
  }

  function NextData(w: nat, r: Registers, take: bool, s: ByteBeat): (d: seq<Byte>)
    requires |r.data| == |r.sel|
    ensures |d| == 2 * w
  {
    seq(2 * w, k requires 0 <= k => Lane(r, take, s, k))
  }

  function NextSel(w: nat, r: Registers, take: bool, s: ByteBeat): (d: seq<bool>)
    ensures |d| == 2 * w
  {
    seq(2 * w, k requires 0 <= k => Enabled(r, take, s, k))
  }

  // ---- The registers after a clock edge, one always block at a time ----

  /** wb_outstanding, LGPIPE bits wide. */
  function NextOutstanding(b: Bus, r: Registers, i: Input): nat {
    if !r.cyc || i.err then 0
    else if r.Issues(i) && !i.ack then if r.outstanding == b.Most() then 0 else r.outstanding + 1
    else if !r.Issues(i) && i.ack then if r.outstanding == 0 then b.Most() else r.outstanding - 1
    else r.outstanding
  }

  /** wb_pipeline_full: its two upper-bit tests as bounds on the count before the clock. */
  predicate NextFull(b: Bus, r: Registers, i: Input) {
    if !r.cyc || i.err then false
    else if r.Issues(i) && !i.ack then b.Most() - 2 <= r.outstanding
    else if !r.Issues(i) && i.ack then r.outstanding == b.Most()
    else r.full
  }

  function NextAddr(b: Bus, r: Registers, i: Input): nat {
    if r.Stopped(i) then if b.width == 0 then 0 else i.addr / b.width
    else if r.Issues(i) then if r.addr + 1 == b.words then 0 else r.addr + 1
    else r.addr
  }

  predicate Sends(r: Registers, i: Input) {
    !r.full && (r.Flushes() || (i.valid && !r.last))
  }

  /** Nothing left to send, and the last acknowledgement is here. */
  predicate Quits(r: Registers, i: Input) {
    !r.full && !Sends(r, i) && r.outstanding + (if r.stb then 1 else 0) == if i.ack then 1 else 0
  }

  predicate NextCyc(b: Bus, r: Registers, i: Input) {
    if r.Stopped(i) then false
    else if !r.Moves(i) then r.cyc
    else !r.Overflows(b, i) && (Sends(r, i) || (r.cyc && !Quits(r, i)))
  }

  predicate NextStb(b: Bus, r: Registers, i: Input) {
    !r.Stopped(i) && if r.Moves(i) then !r.Overflows(b, i) && Sends(r, i) else r.stb
  }

  predicate NextBusy(b: Bus, r: Registers, i: Input) {
    if r.Stopped(i) then i.request && !r.busy
    else if r.Moves(i) && !r.Overflows(b, i) && Quits(r, i) then !r.last
    else r.busy
  }

  predicate NextErr(b: Bus, r: Registers, i: Input) {
    if r.Stopped(i) then r.cyc && i.err else r.Overflows(b, i)
  }

  predicate NextLast(r: Registers, i: Input) {
    !r.Stopped(i) && (r.last || (r.Moves(i) && i.valid && i.s.last))
  }

  predicate Loads(r: Registers, i: Input) {
    r.Moves(i) && !r.full && (r.last || i.valid)
  }

  function Edge(b: Bus, r: Registers, i: Input): Registers
    requires b.Valid() && r.Shaped(b)
  {
    var take := i.valid && !r.last;
    var d, s := NextData(b.width, r, take, i.s), NextSel(b.width, r, take, i.s);
    Registers(NextBusy(b, r, i), NextErr(b, r, i), NextCyc(b, r, i), NextStb(b, r, i), NextAddr(b, r, i),
              if r.Stopped(i) then i.addr % b.width else r.sub, NextLast(r, i),
              NextOutstanding(b, r, i), NextFull(b, r, i),
              if !r.busy then Nothing(b.width) else if Loads(r, i) then d[..b.width] else r.wrData,
              if !r.busy then Off(b.width) else if Loads(r, i) then s[..b.width] else r.wrSel,
              if !r.busy then Nothing(b.width) else if Loads(r, i) then d[b.width..] else r.data,
              if !r.busy then Off(b.width) else if Loads(r, i) then s[b.width..] else r.sel)
  }

  /** An idle module starts exactly when asked, at the address asked for and with nothing in it. */
  lemma Starts(b: Bus, r: Registers, i: Input)
    requires b.Valid() && r.Shaped(b) && !r.busy
    ensures var e := Edge(b, r, i);
            && e.busy == i.request && !e.cyc && !e.stb && !e.last
            && e.addr * b.width + e.sub == i.addr && e.sub < b.width
            && e.sel == e.wrSel == Off(b.width)
  {
    DivMod(i.addr, b.width);
  }

  /** o_err goes up exactly for a bus error, or a write of the top word of memory. The bus is let
      go in that clock, and the module is idle, o_err down, no later than one clock after it. */
  lemma FailureEnds(b: Bus, r: Registers, i: Input, j: Input)
    requires b.Valid() && r.Shaped(b) && r.busy && !r.err && Edge(b, r, i).Shaped(b)
    ensures var e, fails := Edge(b, r, i), (r.cyc && i.err) || (r.stb && !i.stall && r.addr + 1 == b.words);
            && (e.err <==> fails)
            && (fails ==> !e.cyc && !e.stb && !Edge(b, e, j).err && (e.busy ==> !Edge(b, e, j).busy))
  {
    hide NextData, NextSel, NextAddr, NextOutstanding, NextFull, Sends, Quits;
  }

  // ---- The bus and its memory ----

  /** A write through byte enables: the word that starts at byte `at`. */
  function Write(mem: seq<Byte>, at: nat, data: seq<Byte>, sel: seq<bool>): (m: seq<Byte>)
    requires |data| == |sel|
    ensures |m| == |mem|
  {
    seq(|mem|, x requires 0 <= x < |mem| => if at <= x < at + |sel| && sel[x - at] then data[x - at] else mem[x])
  }

  function Count(sel: seq<bool>): nat {
    if sel == [] then 0 else Count(Init(sel)) + if Last(sel) then 1 else 0
  }

  /** What happened since the last request. */
  datatype History = History(
    start: nat, before: seq<Byte>,  // the address asked for, and memory as it was then
    mem: seq<Byte>,
    acc: seq<Byte>,                 // the bytes of the beats accepted
    pending: nat,                   // bus requests not acknowledged yet
    writes: nat,                    // byte lanes written
    finished: bool,                 // the last beat has been accepted
    lost: bool,                     // the last beat has been taken for accepted when it was not
    failed: bool)                   // a bus error, or the top word written

  /** What the stream and the bus guarantee. */
  predicate Legal(b: Bus, r: Registers, h: History, i: Input) {
    && |i.s.data| == b.width
    && (i.valid ==> 1 <= i.s.bytes <= b.width && (!i.s.last ==> i.s.bytes == b.width))
    && i.addr < b.Bytes()
    && (i.ack ==> r.cyc && h.pending + (if r.Issues(i) then 1 else 0) > 0)
  }

  /** The flaw: S_LAST is sampled in a clock that S_READY keeps the beat out of. */
  predicate Loses(r: Registers, i: Input) {
    !r.Stopped(i) && r.Moves(i) && r.full && i.valid && i.s.last && !r.last
  }

  function After(b: Bus, r: Registers, h: History, i: Input): History
    requires b.Valid() && r.Shaped(b) && Legal(b, r, h, i)
  {
    var mem := if r.Issues(i) then Write(h.mem, r.At(b), r.wrData, r.wrSel) else h.mem;
    if !r.busy then History(i.addr, mem, mem, [], 0, 0, false, false, false)
    else History(
      h.start, h.before, mem,
      if r.Accepts(i) then h.acc + i.s.data[..i.s.bytes] else h.acc,
      if !r.cyc || i.err then 0
      else h.pending + (if r.Issues(i) then 1 else 0) - if i.ack then 1 else 0,
      h.writes + if r.Issues(i) then Count(r.wrSel) else 0,
      h.finished || (r.Accepts(i) && i.s.last),
      h.lost || Loses(r, i),
      h.failed || r.Stopped(i) || r.Overflows(b, i))
  }

  // ---- The invariant ----

  /** A bus word at byte `at`: enabled lanes are exactly the accepted bytes that belong there. */
  ghost predicate Lanes(w: nat, at: nat, data: seq<Byte>, sel: seq<bool>, start: nat, acc: seq<Byte>) {
    && |data| == |sel| == w
    && (forall k :: 0 <= k < w ==> (sel[k] <==> start <= at + k < start + |acc|))
    && (forall k :: 0 <= k < w && sel[k] ==> data[k] == acc[at + k - start])
  }

  /** Memory holds the accepted bytes that lie below `at`, and is otherwise as it was. */
  ghost predicate Written(mem: seq<Byte>, before: seq<Byte>, at: nat, start: nat, acc: seq<Byte>) {
    && |mem| == |before|
    && forall x :: 0 <= x < |mem| ==>
         mem[x] == if start <= x < start + |acc| && x < at then acc[x - start] else before[x]
  }

  /** How many of the accepted bytes lie below `at`. */
  function Below(at: nat, start: nat, n: nat): nat {
    if at <= start then 0 else if at < start + n then at - start else n
  }

  /** Where the accepted bytes are: in memory below `at`, in the word on the bus, and
      in the word being put together at `base`. */
  ghost predicate Placed(b: Bus, r: Registers, h: History, at: nat, base: nat) {
    var end := h.start + |h.acc|;
    && base == at + (if r.stb then b.width else 0)
    && end <= base + b.width
    && (if h.acc == [] then base <= h.start && !r.stb else h.start < base)
    && (if r.last then h.finished != h.lost else end == base + r.sub && !h.finished && !h.lost)
    && Lanes(b.width, base, r.data, r.sel, h.start, h.acc)
    && (r.stb ==> Lanes(b.width, at, r.wrData, r.wrSel, h.start, h.acc))
    && Written(h.mem, h.before, at, h.start, h.acc)
    && h.writes == Below(at, h.start, |h.acc|)
    && (!r.cyc ==> r.outstanding == 0)
  }

  /** wb_outstanding counts exactly and never overflows; the pipeline is full two short of its end. */
  predicate Piped(b: Bus, r: Registers, h: History) {
    && r.outstanding == h.pending
    && r.outstanding + (if r.stb then 1 else 0) <= b.Most()
    && r.full == (b.Most() - 1 <= r.outstanding)
    && (r.stb ==> r.cyc)
    && (!r.busy ==> !r.cyc)
  }

  ghost predicate Invariant(b: Bus, r: Registers, h: History) {
    && b.Valid() && r.Shaped(b) && |h.mem| == b.Bytes()
    && Piped(b, r, h)
    && (r.busy && !h.failed ==>
          && !r.err
          && Placed(b, r, h, r.At(b), r.Base(b)))
  }

  lemma MostAtLeast(b: Bus)
    requires b.Valid()
    ensures b.Most() >= 7
  {
    Pow2Grows(b.lgpipe);
  }

  lemma {:induction false} Pow2Grows(n: nat)
    requires n >= 3
    ensures Pow2(n) >= 8
  {
    if n == 3 {
      assert Pow2(2) == 2 * Pow2(1);
    } else {
      Pow2Grows(n - 1);
    }
  }

  lemma PipedStep(b: Bus, r: Registers, h: History, i: Input)
    requires b.Valid() && r.Shaped(b) && Piped(b, r, h) && Legal(b, r, h, i)
    ensures Piped(b, Edge(b, r, i), After(b, r, h, i))
  {
    hide NextData, NextSel, Write, Count, NextLast;
    MostAtLeast(b);
  }

  /** Issuing a word writes its lanes, each for the first time. */
  lemma WordWritten(b: Bus, r: Registers, h: History, at: nat)
    requires Lanes(b.width, at, r.wrData, r.wrSel, h.start, h.acc)
    requires Written(h.mem, h.before, at, h.start, h.acc)
    requires h.start < at + b.width
    ensures Written(Write(h.mem, at, r.wrData, r.wrSel), h.before, at + b.width, h.start, h.acc)
    ensures Below(at, h.start, |h.acc|) + Count(r.wrSel) == Below(at + b.width, h.start, |h.acc|)
  {
    var lo, hi := if h.start <= at then 0 else h.start - at,
                  if h.start + |h.acc| <= at then 0
                  else if h.start + |h.acc| <= at + b.width then h.start + |h.acc| - at else b.width;
    CountRange(r.wrSel, lo, if lo <= hi then hi else lo);
  }

  lemma {:induction false} CountRange(sel: seq<bool>, lo: nat, hi: nat)
    requires lo <= hi && forall k :: 0 <= k < |sel| ==> (sel[k] <==> lo <= k < hi)
    ensures Count(sel) == if |sel| <= lo then 0 else if |sel| <= hi then |sel| - lo else hi - lo
    decreases |sel|
  {
    if sel != [] {
      var t := Init(sel);
      assert forall k :: 0 <= k < |t| ==> t[k] == sel[k];
      CountRange(t, lo, hi);
      assert Last(sel) <==> lo <= |t| < hi;
    }
  }

  lemma LaneOfData(r: Registers, take: bool, s: ByteBeat, k: nat)
    requires |r.data| == |r.sel|
    ensures k < |r.sel| && r.sel[k] && (!take || k < r.sub) ==> Lane(r, take, s, k) == r.data[k]
    ensures take && r.sub <= k < r.sub + |s.data| && !(k < |r.sel| && r.sel[k])
            ==> Lane(r, take, s, k) == s.data[k - r.sub]
  {
    hide Or;
    OrZero(if k < |r.sel| && r.sel[k] then r.data[k] else 0);
    OrZero(if take && r.sub <= k < r.sub + |s.data| then s.data[k - r.sub] else 0);
  }

  /** Taking a beat: its bytes go behind those in hand, across two bus words. */
  lemma LoadTake(w: nat, r: Registers, s: ByteBeat, base: nat, start: nat, acc: seq<Byte>)
    requires Lanes(w, base, r.data, r.sel, start, acc) && r.sub < w
    requires start + |acc| == base + r.sub && |s.data| == w && s.bytes <= w
    ensures var d, n, acc2 := NextData(w, r, true, s), NextSel(w, r, true, s), acc + s.data[..s.bytes];
            Lanes(w, base, d[..w], n[..w], start, acc2) && Lanes(w, base + w, d[w..], n[w..], start, acc2)
  {
    hide Lane;
    var d, n, acc2 := NextData(w, r, true, s), NextSel(w, r, true, s), acc + s.data[..s.bytes];
    forall k: nat | k < 2 * w
      ensures n[k] <==> start <= base + k < start + |acc2|
      ensures n[k] ==> d[k] == acc2[base + k - start]
    {
      LaneOfData(r, true, s, k);
    }
  }

  /** Flushing: only the word in hand goes out. */
  lemma LoadFlush(w: nat, r: Registers, s: ByteBeat, base: nat, start: nat, acc: seq<Byte>)
    requires Lanes(w, base, r.data, r.sel, start, acc)
    requires start + |acc| <= base + w
    ensures var d, n := NextData(w, r, false, s), NextSel(w, r, false, s);
            Lanes(w, base, d[..w], n[..w], start, acc) && Lanes(w, base + w, d[w..], n[w..], start, acc)
  {
    hide Lane;
    var d, n := NextData(w, r, false, s), NextSel(w, r, false, s);
    forall k: nat | k < 2 * w
      ensures n[k] <==> k < w && r.sel[k]
      ensures n[k] ==> d[k] == r.data[k]
    {
      LaneOfData(r, false, s, k);
    }
  }

  /** Runs that go on: neither an error nor the top of memory. */
  predicate Proceeds(b: Bus, r: Registers, i: Input) {
    !r.Stopped(i) && !r.Overflows(b, i)
  }

  /** The data registers after a clock in which the bus moves. */
  lemma LanesStep(b: Bus, r: Registers, h: History, i: Input, base: nat)
    requires b.Valid() && r.Shaped(b) && Legal(b, r, h, i) && Proceeds(b, r, i) && r.Moves(i)
    requires Lanes(b.width, base, r.data, r.sel, h.start, h.acc)
    requires h.start + |h.acc| <= base + b.width
    requires !r.last ==> h.start + |h.acc| == base + r.sub
    ensures var r2, h2 := Edge(b, r, i), After(b, r, h, i);
            var base2 := base + if r2.stb then b.width else 0;
            && Lanes(b.width, base2, r2.data, r2.sel, h.start, h2.acc)
            && (r2.stb ==> Lanes(b.width, base, r2.wrData, r2.wrSel, h.start, h2.acc))
  {
    hide NextData, NextSel, Lanes, NextOutstanding, NextFull, Quits, Write, Count;
    if !r.full && i.valid && !r.last {
      LoadTake(b.width, r, i.s, base, h.start, h.acc);
    } else if r.last {
      LoadFlush(b.width, r, i.s, base, h.start, h.acc);
      var d, n := NextData(b.width, r, false, i.s), NextSel(b.width, r, false, i.s);
      EmptyWord(b.width, base, r.data, r.sel, d[b.width..], n[b.width..], h.start, h.acc);
    }
  }

  lemma EmptyWord(w: nat, base: nat, data: seq<Byte>, sel: seq<bool>, data2: seq<Byte>, sel2: seq<bool>,
                  start: nat, acc: seq<Byte>)
    requires Lanes(w, base, data, sel, start, acc) && Lanes(w, base + w, data2, sel2, start, acc)
    requires start + |acc| <= base + w
    ensures (forall k :: 0 <= k < |sel| ==> !sel[k]) ==> Lanes(w, base, data2, sel2, start, acc)
  {
    if forall k :: 0 <= k < |sel| ==> !sel[k] {
      forall k | 0 <= k < w ensures !sel2[k] && !(start <= base + k < start + |acc|) {
        assert !sel[k];
      }
    }
  }

  lemma LongerAccepted(mem: seq<Byte>, before: seq<Byte>, at: nat, start: nat, acc: seq<Byte>, more: seq<Byte>)
    requires Written(mem, before, at, start, acc) && at <= start + |acc|
    ensures Written(mem, before, at, start, acc + more)
    ensures Below(at, start, |acc|) == Below(at, start, |acc + more|)
  {
  }

  /** Memory after a clock in which the bus moves. */
  lemma MemoryStep(b: Bus, r: Registers, h: History, i: Input)
    requires b.Valid() && r.Shaped(b) && Legal(b, r, h, i) && Proceeds(b, r, i) && r.Moves(i)
    requires Placed(b, r, h, r.At(b), r.Base(b))
    ensures var r2, h2 := Edge(b, r, i), After(b, r, h, i);
            && r2.At(b) == r.Base(b)
            && Written(h2.mem, h2.before, r2.At(b), h.start, h2.acc)
            && h2.writes == Below(r2.At(b), h.start, |h2.acc|)
  {
    hide NextData, NextSel, Write, Count, NextOutstanding, NextFull, Quits, Lanes, Below, Written;
    var at := r.At(b);
    assert (r.addr + 1) * b.width == at + b.width;
    if r.stb { WordWritten(b, r, h, at); }
    if r.Accepts(i) {
      var mem := if r.stb then Write(h.mem, at, r.wrData, r.wrSel) else h.mem;
      LongerAccepted(mem, h.before, at + if r.stb then b.width else 0, h.start, h.acc, i.s.data[..i.s.bytes]);
    }
  }

  lemma PlacedStep(b: Bus, r: Registers, h: History, i: Input)
    requires b.Valid() && r.Shaped(b) && Legal(b, r, h, i) && Proceeds(b, r, i) && Piped(b, r, h)
    requires Placed(b, r, h, r.At(b), r.Base(b))
    ensures var r2, h2 := Edge(b, r, i), After(b, r, h, i);
            Placed(b, r2, h2, r2.At(b), r2.Base(b))
  {
    hide NextData, NextSel, Write, Count, Lanes, Below, Written;
    if r.Moves(i) {
      LanesStep(b, r, h, i, r.Base(b));
      MemoryStep(b, r, h, i);
      NoneHeld(b.width, r.Base(b), r.data, r.sel, h.start, h.acc);
    }
  }

  lemma NoneHeld(w: nat, at: nat, data: seq<Byte>, sel: seq<bool>, start: nat, acc: seq<Byte>)
    requires Lanes(w, at, data, sel, start, acc)
    ensures acc == [] ==> forall k :: 0 <= k < |sel| ==> !sel[k]
  {
  }

  lemma AddrInRange(b: Bus, a: nat)
    requires b.Valid() && a < b.Bytes()
    ensures a / b.width < b.words
  {
    DivMod(a, b.width);
    MulMonotone(b.words, a / b.width, b.width);
  }

  /** A request starts with nothing accepted and nothing in hand. */
  lemma StartStep(b: Bus, r: Registers, h: History, i: Input)
    requires b.Valid() && r.Shaped(b) && Legal(b, r, h, i) && Piped(b, r, h) && !r.busy
    ensures var r2, h2 := Edge(b, r, i), After(b, r, h, i);
            r2.busy ==> !r2.err && !r2.stb && Placed(b, r2, h2, r2.At(b), r2.At(b))
  {
    hide NextData, NextSel, Write, Count;
    DivMod(i.addr, b.width);
  }

  /** Every clock keeps the invariant, whatever the stream and the bus do. */
  lemma InvariantStep(b: Bus, r: Registers, h: History, i: Input)
    requires Invariant(b, r, h) && Legal(b, r, h, i)
    ensures Invariant(b, Edge(b, r, i), After(b, r, h, i))
  {
    hide NextData, NextSel, Write, Count, Piped, Placed;
    AddrInRange(b, i.addr);
    PipedStep(b, r, h, i);
    if !r.busy {
      StartStep(b, r, h, i);
    } else if !h.failed && Proceeds(b, r, i) {
      PlacedStep(b, r, h, i);
    }
  }

  /** Memory is as before but for exactly the accepted bytes, at the address asked for. */
  ghost predicate Copied(h: History) {
    && |h.mem| == |h.before| && (h.acc != [] ==> h.start + |h.acc| <= |h.mem|)
    && forall x :: 0 <= x < |h.mem| ==>
         h.mem[x] == if h.start <= x < h.start + |h.acc| then h.acc[x - h.start] else h.before[x]
  }

  /** What the module is for. When it goes idle without an error, memory is as before
      the request except for exactly the bytes accepted, from the address asked for
      on; each was written once, every write has been acknowledged, and the last beat
      has been accepted if and only if it was not lost. */
  lemma Finishes(b: Bus, r: Registers, h: History, i: Input)
    requires Invariant(b, r, h) && Legal(b, r, h, i) && r.busy
    ensures var r2, h2 := Edge(b, r, i), After(b, r, h, i);
            !r2.busy && !h2.failed ==>
              && Copied(h2) && h2.writes == |h2.acc|
              && h2.pending == 0 && !r2.cyc
              && h2.finished == !h2.lost
  {
    hide NextData, NextSel, Write, Count, Lanes, Below, Written, NextOutstanding;
    var r2, h2 := Edge(b, r, i), After(b, r, h, i);
    if !r2.busy && !h2.failed {
      PipedStep(b, r, h, i);
      PlacedStep(b, r, h, i);
      var at, base := r.At(b), r.Base(b);
      assert !r.Flushes() && r.last && r.Moves(i);
      MemoryStep(b, r, h, i);
      AllBelow(b.width, base, r.data, r.sel, h.start, h.acc);
      WrittenAll(h2.mem, h2.before, base, h.start, h.acc);
      BaseInside(b, r);
    }
  }

  lemma BaseInside(b: Bus, r: Registers)
    requires r.Shaped(b) && (r.stb ==> r.addr + 1 < b.words)
    ensures r.Base(b) <= b.Bytes()
  {
    MulMonotone(if r.stb then r.addr + 1 else r.addr, b.words, b.width);
  }

  lemma AllBelow(w: nat, base: nat, data: seq<Byte>, sel: seq<bool>, start: nat, acc: seq<Byte>)
    requires Lanes(w, base, data, sel, start, acc) && start + |acc| <= base + w
    requires acc != [] ==> start < base
    requires forall k :: 0 <= k < |sel| ==> !sel[k]
    ensures acc != [] ==> start + |acc| <= base
  {
    if acc != [] { InWord(w, base, data, sel, start, acc, start + |acc| - 1); }
  }

  lemma InWord(w: nat, base: nat, data: seq<Byte>, sel: seq<bool>, start: nat, acc: seq<Byte>, x: nat)
    requires Lanes(w, base, data, sel, start, acc)
    ensures base <= x < base + w && start <= x < start + |acc| ==> sel[x - base]
  {
  }

  lemma WrittenAll(mem: seq<Byte>, before: seq<Byte>, at: nat, start: nat, acc: seq<Byte>)
    requires Written(mem, before, at, start, acc) && (acc != [] ==> start + |acc| <= at)
    ensures |mem| == |before|
    ensures forall x :: 0 <= x < |mem| ==>
              mem[x] == if start <= x < start + |acc| then acc[x - start] else before[x]
    ensures Below(at, start, |acc|) == |acc|
  {
  }

  lemma StepsOn(b: Bus, r: Registers, h: History, i: Input)
    requires Invariant(b, r, h) && Legal(b, r, h, i)
    ensures b.Valid() && r.Shaped(b) && |i.s.data| == b.width && (i.valid ==> i.s.bytes <= b.width)
    ensures var r2, h2 := Edge(b, r, i), After(b, r, h, i);
            && Invariant(b, r2, h2)
            && (r.busy && !r2.busy && !h2.failed
                ==> Copied(h2) && h2.writes == |h2.acc| && h2.pending == 0 && h2.finished == !h2.lost)
  {
    hide Edge, After, Copied;
    InvariantStep(b, r, h, i);
    if r.busy { Finishes(b, r, h, i); }
  }

  // ---- Runs ----

  function Reset(b: Bus): Registers {
    Registers(false, false, false, false, 0, 0, false, 0, false,
              Nothing(b.width), Off(b.width), Nothing(b.width), Off(b.width))
  }

  /** The inputs `ins` lead from reset, with memory `mem`, to r and h. */
  ghost predicate Reaches(b: Bus, mem: seq<Byte>, ins: seq<Input>, r: Registers, h: History)
    requires b.Valid()
    decreases |ins|
  {
    if ins == [] then r == Reset(b) && h == History(0, mem, mem, [], 0, 0, false, false, false)
    else exists r0, h0 :: Reaches(b, mem, Init(ins), r0, h0) && Goes(b, r0, h0, Last(ins), r, h)
  }

  ghost predicate Goes(b: Bus, r0: Registers, h0: History, i: Input, r: Registers, h: History)
    requires b.Valid()
  {
    r0.Shaped(b) && Legal(b, r0, h0, i) && r == Edge(b, r0, i) && h == After(b, r0, h0, i)
  }

  lemma {:induction false} RunInvariant(b: Bus, mem: seq<Byte>, ins: seq<Input>, r: Registers, h: History)
    requires b.Valid() && |mem| == b.Bytes() && Reaches(b, mem, ins, r, h)
    ensures Invariant(b, r, h)
    decreases |ins|
  {
    if ins == [] {
      MostAtLeast(b);
    } else {
      var r0, h0 :| Reaches(b, mem, Init(ins), r0, h0) && Goes(b, r0, h0, Last(ins), r, h);
      RunInvariant(b, mem, Init(ins), r0, h0);
      InvariantStep(b, r0, h0, Last(ins));
    }
  }

  lemma RunSnoc(b: Bus, mem: seq<Byte>, ins: seq<Input>, r: Registers, h: History, i: Input)
    requires b.Valid() && Reaches(b, mem, ins, r, h) && r.Shaped(b) && Legal(b, r, h, i)
    ensures Reaches(b, mem, ins + [i], Edge(b, r, i), After(b, r, h, i))
  {
    hide Edge, After, Legal;
    Snoc(ins, i);
    assert Goes(b, r, h, i, Edge(b, r, i), After(b, r, h, i));
  }

  // ---- Transfers that cannot lose their last beat ----

  /** The first byte that is not on one of the k bus words from the one of `start` on. */
  function Reach(b: Bus, start: nat, k: nat): nat
    requires b.Valid()
  {
    (start / b.width + k) * b.width
  }

  /** Only words of this transfer are outstanding, and a last beat is lost only behind as
      many of them as fill the pipeline. */
  ghost predicate Spread(b: Bus, r: Registers, h: History) {
    b.Valid() && (r.busy && !h.failed ==>
      && h.start / b.width + r.outstanding <= r.addr
      && (h.lost ==> h.start + |h.acc| >= Reach(b, h.start, b.Most() - 1)))
  }

  lemma SpreadStep(b: Bus, r: Registers, h: History, i: Input)
    requires Invariant(b, r, h) && Legal(b, r, h, i) && Spread(b, r, h)
    ensures Spread(b, Edge(b, r, i), After(b, r, h, i))
  {
    hide NextData, NextSel, Write, Count, Reach, Placed, NextBusy, NextErr, NextCyc, NextStb, NextLast, Loads, Loses;
    WordsOut(b, r, i, if r.busy then h.start / b.width else 0);
    if r.busy && !h.failed && Loses(r, i) { LosesFar(b, r, h, i); }
  }

  lemma WordsOut(b: Bus, r: Registers, i: Input, first: nat)
    requires b.Valid() && (!r.busy ==> !r.cyc) && (r.outstanding == 0 ==> !i.ack || r.Issues(i))
    requires r.outstanding < b.Most() || !r.stb
    ensures r.busy && first + r.outstanding <= r.addr && Proceeds(b, r, i)
            ==> first + NextOutstanding(b, r, i) <= NextAddr(b, r, i)
    ensures !r.busy ==> NextOutstanding(b, r, i) == 0 && NextAddr(b, r, i) == i.addr / b.width
  {
  }

  /** Every run keeps that, the clocks of earlier transfers included. */
  lemma {:induction false} RunSpread(b: Bus, mem: seq<Byte>, ins: seq<Input>, r: Registers, h: History)
    requires b.Valid() && |mem| == b.Bytes() && Reaches(b, mem, ins, r, h)
    ensures Spread(b, r, h)
    decreases |ins|
  {
    hide Spread, Edge, After;
    if ins == [] {
      Unspread(b, mem);
    } else {
      var r0, h0 :| Reaches(b, mem, Init(ins), r0, h0) && Goes(b, r0, h0, Last(ins), r, h);
      RunInvariant(b, mem, Init(ins), r0, h0);
      RunSpread(b, mem, Init(ins), r0, h0);
      SpreadStep(b, r0, h0, Last(ins));
    }
  }

  lemma Unspread(b: Bus, mem: seq<Byte>)
    requires b.Valid()
    ensures Spread(b, Reset(b), History(0, mem, mem, [], 0, 0, false, false, false))
  {
  }

  /** What a caller can check beforehand: a transfer that touches fewer bus words than fill
      the pipeline never loses its last beat. `total` counts the bytes of the whole
      stream, of which a lost beat has at least one that was not accepted. */
  lemma ShortTransfer(b: Bus, mem: seq<Byte>, ins: seq<Input>, r: Registers, h: History, total: nat)
    requires b.Valid() && |mem| == b.Bytes() && Reaches(b, mem, ins, r, h)
    requires r.busy && !h.failed
    requires h.start + total <= Reach(b, h.start, b.Most() - 1)
    requires |h.acc| <= total && (h.lost ==> |h.acc| < total)
    ensures !h.lost && r.Shaped(b)
    ensures forall i :: Legal(b, r, h, i) && |h.acc| + i.s.bytes <= total ==> !Loses(r, i)
    ensures forall i :: Legal(b, r, h, i) && |h.acc| + i.s.bytes <= total
              && !Edge(b, r, i).busy && !After(b, r, h, i).failed
              ==> Copied(After(b, r, h, i)) && After(b, r, h, i).finished
  {
    hide Reaches, Edge, Placed, Piped, Copied, Loses, Reach;
    RunSpread(b, mem, ins, r, h);
    RunInvariant(b, mem, ins, r, h);
    forall i | Legal(b, r, h, i) && |h.acc| + i.s.bytes <= total
      ensures !Loses(r, i)
      ensures !Edge(b, r, i).busy && !After(b, r, h, i).failed
              ==> Copied(After(b, r, h, i)) && After(b, r, h, i).finished
    {
      if Loses(r, i) { LosesFar(b, r, h, i); }
      Finishes(b, r, h, i);
    }
  }

  lemma LosesFar(b: Bus, r: Registers, h: History, i: Input)
    requires Invariant(b, r, h) && Spread(b, r, h) && r.busy && !h.failed && Loses(r, i)
    ensures h.start + |h.acc| >= Reach(b, h.start, b.Most() - 1) && i.valid
  {
    hide Lanes, Written, Below;
    MostAtLeast(b);
    MulMonotone(h.start / b.width + (b.Most() - 1), r.addr, b.width);
  }

  // ---- Progress ----

  /** The stream has `rem` beats left, and when it offers one, the last is marked. */
  predicate Feeds(r: Registers, i: Input, rem: nat) {
    !r.last ==> rem > 0 && (i.valid ==> i.s.last == (rem == 1))
  }

  function Left(r: Registers, i: Input, rem: nat): nat {
    if r.Accepts(i) && rem > 0 then rem - 1 else rem
  }

  /** The bus takes a word or acknowledges one, or the stream gives a beat. */
  predicate Moved(r: Registers, i: Input) {
    r.Issues(i) || i.ack || r.Accepts(i)
  }

  /** There is a word on offer to the bus, or one that it has not acknowledged, or room for a beat. */
  predicate Waits(r: Registers, h: History) {
    r.stb || h.pending > 0 || !r.last
  }

  /** How long the module has been waiting for the bus and the stream. */
  function NextWaited(r: Registers, h: History, i: Input, waited: nat): nat {
    if Waits(r, h) && !Moved(r, i) then waited + 1 else 0
  }

  /** What is still to be done: beats to take, words to send, acknowledgements to await. */
  function Owed(r: Registers, h: History, rem: nat): nat {
    (if !r.last then 3 * rem + 3 else if r.Flushes() then 3 else 0) + (if r.stb then 2 else 0) + h.pending
  }

  lemma FlushEmpties(b: Bus, r: Registers, i: Input)
    requires b.Valid() && r.Shaped(b) && r.busy && Loads(r, i) && r.last
    ensures !Edge(b, r, i).Flushes()
  {
    hide NextBusy, NextErr, NextCyc, NextStb, NextAddr, NextLast, NextOutstanding, NextFull, Lane;
  }

  lemma KeepsFlushing(b: Bus, r: Registers, i: Input)
    requires b.Valid() && r.Shaped(b) && r.busy && !Loads(r, i)
    ensures r.last && NextLast(r, i) ==> Edge(b, r, i).Flushes() == r.Flushes()
    ensures !r.last ==> !r.Flushes()
  {
    hide NextBusy, NextErr, NextCyc, NextStb, NextAddr, NextLast, NextOutstanding, NextFull;
  }

  /** Every clock in which the bus or the stream moves gets something done, and so does every
      clock in which the module waits for neither, but the one that ends the transfer. */
  lemma ProgressStep(b: Bus, r: Registers, h: History, i: Input, rem: nat)
    requires Invariant(b, r, h) && Legal(b, r, h, i) && r.busy && !h.failed
    requires !i.err && Feeds(r, i, rem) && !r.Overflows(b, i)
    ensures var r2, h2 := Edge(b, r, i), After(b, r, h, i);
            && !h2.failed
            && (r2.busy ==>
                  && Owed(r2, h2, Left(r, i, rem)) <= Owed(r, h, rem)
                  && (Moved(r, i) || !Waits(r, h) ==> Owed(r2, h2, Left(r, i, rem)) < Owed(r, h, rem)))
  {
    hide NextData, NextSel, Write, Count, Lanes, Written, Below, Registers.Flushes;
    MostAtLeast(b);
    if Loads(r, i) {
      if r.last { FlushEmpties(b, r, i); }
    } else {
      KeepsFlushing(b, r, i);
    }
  }

  /** Inputs of a bus and a stream that keep the module waiting for no more than `delay` clocks
      in a row, be it by stalls, by late acknowledgements or by pauses between beats. */
  ghost predicate Driven(b: Bus, r: Registers, h: History, rem: nat, delay: nat, waited: nat, ins: seq<Input>)
    requires b.Valid()
    decreases |ins|
  {
    && waited <= delay
    && (ins != [] ==>
          && r.Shaped(b) && Legal(b, r, h, ins[0]) && !ins[0].err && Feeds(r, ins[0], rem)
          && Driven(b, Edge(b, r, ins[0]), After(b, r, h, ins[0]), Left(r, ins[0], rem), delay,
                    NextWaited(r, h, ins[0], waited), ins[1..]))
  }

  /** On the way the transfer ends: the copy is made, or the top of memory is reached. */
  ghost predicate Ends(b: Bus, r: Registers, h: History, ins: seq<Input>)
    requires b.Valid()
    decreases |ins|
  {
    && ins != [] && r.Shaped(b) && Legal(b, r, h, ins[0])
    && var r2, h2 := Edge(b, r, ins[0]), After(b, r, h, ins[0]);
       || r.Overflows(b, ins[0])
       || (!r2.busy && !h2.failed && Copied(h2) && h2.pending == 0 && h2.finished == !h2.lost)
       || Ends(b, r2, h2, ins[1..])
  }

  /** A transfer ends within a number of clocks computed from the work left and the delay. */
  lemma {:induction false} Completes(b: Bus, r: Registers, h: History, rem: nat, delay: nat, waited: nat,
                                     ins: seq<Input>)
    requires Invariant(b, r, h) && r.busy && !h.failed && Driven(b, r, h, rem, delay, waited, ins)
    requires |ins| > Budget(Owed(r, h, rem), delay, waited)
    ensures Ends(b, r, h, ins)
    decreases |ins|
  {
    hide Edge, After, Copied, Owed, Feeds, Legal, Budget, Moved, Waits;
    var i := ins[0];
    if !r.Overflows(b, i) {
      ProgressStep(b, r, h, i, rem);
      StepsOn(b, r, h, i);
      var r2, h2, rem2, waited2 := Edge(b, r, i), After(b, r, h, i), Left(r, i, rem), NextWaited(r, h, i, waited);
      if r2.busy {
        assert waited2 <= delay;
        BudgetStep(Owed(r, h, rem), Owed(r2, h2, rem2), delay, waited, waited2);
        Completes(b, r2, h2, rem2, delay, waited2, ins[1..]);
      }
    }
  }

  // ---- A run that loses its last beat ----

  function Idle(b: Bus, request: bool, ack: bool): Input {
    Input(request, 0, false, ByteBeat(Nothing(b.width), 0, false), false, ack, false)
  }

  function Offer(b: Bus, last: bool): Input {
    Input(false, 0, true, ByteBeat(Nothing(b.width), b.width, last), false, false, false)
  }

  /** k words are on the bus unacknowledged, and one more is offered to it. */
  ghost predicate Filling(b: Bus, r: Registers, h: History, k: nat) {
    && r.Shaped(b) && r.sel == Off(b.width) && r.sub == 0 && r.addr == k
    && r.busy && !r.err && r.cyc && r.stb && !r.last
    && r.outstanding == h.pending == k && r.full == (b.Most() - 1 <= k)
    && !h.failed && !h.lost && !h.finished
  }

  /** The last beat is lost, and k words wait for their acknowledgements. */
  ghost predicate Draining(b: Bus, r: Registers, h: History, k: nat) {
    && r.Shaped(b) && r.sel == Off(b.width)
    && r.busy && !r.err && r.cyc && !r.stb && r.last
    && r.outstanding == h.pending == k && r.full == (b.Most() - 1 <= k)
    && !h.failed && h.lost && !h.finished
  }

  lemma FillStep(b: Bus, r: Registers, h: History, k: nat)
    requires b.Valid() && Filling(b, r, h, k) && k < b.Most() - 1 && k + 1 < b.words
    ensures Legal(b, r, h, Offer(b, false))
    ensures Filling(b, Edge(b, r, Offer(b, false)), After(b, r, h, Offer(b, false)), k + 1)
  {
    hide NextData, Write, Count;
    var i := Offer(b, false);
    assert Edge(b, r, i).sel == Off(b.width);
  }

  lemma LoseStep(b: Bus, r: Registers, h: History, k: nat)
    requires b.Valid() && Filling(b, r, h, k) && k == b.Most() - 1 && k + 1 < b.words
    ensures Legal(b, r, h, Offer(b, true)) && !r.Ready(Offer(b, true))
    ensures Draining(b, Edge(b, r, Offer(b, true)), After(b, r, h, Offer(b, true)), k + 1)
  {
    hide NextData, NextSel, Write, Count;
  }

  lemma DrainStep(b: Bus, r: Registers, h: History, k: nat)
    requires b.Valid() && Draining(b, r, h, k) && 1 <= k <= b.Most()
    ensures var i := Idle(b, false, true);
            && Legal(b, r, h, i)
            && var r2, h2 := Edge(b, r, i), After(b, r, h, i);
               if k > 1 then Draining(b, r2, h2, k - 1)
               else !r2.busy && h2.lost && !h2.finished && !h2.failed
  {
    hide NextData, Write, Count;
    MostAtLeast(b);
    assert Edge(b, r, Idle(b, false, true)).sel == Off(b.width);
  }

  lemma {:induction false} Fills(b: Bus, mem: seq<Byte>, k: nat) returns (ins: seq<Input>, r: Registers, h: History)
    requires b.Valid() && b.words > b.Most() + 1 && k <= b.Most() - 1
    ensures Reaches(b, mem, ins, r, h) && Filling(b, r, h, k)
  {
    hide Reaches, Edge, After;
    if k == 0 {
      ins, r, h := FirstWord(b, mem);
    } else {
      ins, r, h := Fills(b, mem, k - 1);
      FillStep(b, r, h, k - 1);
      RunSnoc(b, mem, ins, r, h, Offer(b, false));
      ins, r, h := ins + [Offer(b, false)], Edge(b, r, Offer(b, false)), After(b, r, h, Offer(b, false));
    }
  }

  ghost predicate Started(b: Bus, r: Registers, h: History) {
    && r.Shaped(b) && r.sel == Off(b.width) && r.sub == 0 && r.addr == 0
    && r.busy && !r.err && !r.cyc && !r.stb && !r.last
    && r.outstanding == h.pending == 0 && !r.full
    && !h.failed && !h.lost && !h.finished
  }

  lemma StartedStep(b: Bus, mem: seq<Byte>)
    requires b.Valid()
    ensures var r, h, i := Reset(b), History(0, mem, mem, [], 0, 0, false, false, false), Idle(b, true, false);
            r.Shaped(b) && Legal(b, r, h, i) && Started(b, Edge(b, r, i), After(b, r, h, i))
  {
    hide NextData, NextSel, Write, Count;
    MulMonotone(1, b.words, b.width);
  }

  lemma FirstStep(b: Bus, r: Registers, h: History)
    requires b.Valid() && Started(b, r, h)
    ensures Legal(b, r, h, Offer(b, false))
    ensures Filling(b, Edge(b, r, Offer(b, false)), After(b, r, h, Offer(b, false)), 0)
  {
    hide NextData, Write, Count;
    MostAtLeast(b);
    MulMonotone(1, b.words, b.width);
    assert Edge(b, r, Offer(b, false)).sel == Off(b.width);
  }

  lemma FirstWord(b: Bus, mem: seq<Byte>) returns (ins: seq<Input>, r: Registers, h: History)
    requires b.Valid() && b.words > 1
    ensures Reaches(b, mem, ins, r, h) && Filling(b, r, h, 0)
  {
    hide Edge, After, Legal;
    var i, j := Idle(b, true, false), Offer(b, false);
    r, h := Reset(b), History(0, mem, mem, [], 0, 0, false, false, false);
    StartedStep(b, mem);
    RunSnoc(b, mem, [], r, h, i);
    ins, r, h := [] + [i], Edge(b, r, i), After(b, r, h, i);
    FirstStep(b, r, h);
    RunSnoc(b, mem, ins, r, h, j);
    ins, r, h := ins + [j], Edge(b, r, j), After(b, r, h, j);
  }

  lemma {:induction false} Drains(b: Bus, mem: seq<Byte>, ins: seq<Input>, r: Registers, h: History, k: nat)
      returns (ins2: seq<Input>, r2: Registers, h2: History)
    requires b.Valid() && Reaches(b, mem, ins, r, h) && Draining(b, r, h, k) && 1 <= k <= b.Most()
    ensures Reaches(b, mem, ins2, r2, h2) && !r2.busy && h2.lost && !h2.finished && !h2.failed
    decreases k
  {
    hide Reaches, Edge, After;
    DrainStep(b, r, h, k);
    var i := Idle(b, false, true);
    RunSnoc(b, mem, ins, r, h, i);
    if k == 1 {
      ins2, r2, h2 := ins + [i], Edge(b, r, i), After(b, r, h, i);
    } else {
      ins2, r2, h2 := Drains(b, mem, ins + [i], Edge(b, r, i), After(b, r, h, i), k - 1);
    }
  }

  /** The source does not always copy the whole stream: on every bus of more than
      2^LGPIPE words there is a legal run that ends idle, without an error, and with
      the last beat never accepted. */
  lemma LastBeatLost(b: Bus, mem: seq<Byte>)
    requires b.Valid() && b.words > b.Most() + 1
    ensures exists ins, r, h :: Reaches(b, mem, ins, r, h) && !r.busy && h.lost && !h.finished && !h.failed
  {
    hide Reaches, Edge, After;
    var k := b.Most() - 1;
    var ins, r, h := Fills(b, mem, k);
    LoseStep(b, r, h, k);
    RunSnoc(b, mem, ins, r, h, Offer(b, true));
    var ins2, r2, h2 := Drains(b, mem, ins + [Offer(b, true)], Edge(b, r, Offer(b, true)),
                              After(b, r, h, Offer(b, true)), k + 1);
  }

  // ---- The module ----

  class S2mm {
    const b: Bus
    var oBusy: bool
    var oErr: bool
    var oWrCyc: bool
    var oWrStb: bool
    var oWrAddr: nat
    var subaddr: nat
    var rLast: bool
    var wbOutstanding: nat
    var wbPipelineFull: bool
    var oWrData: seq<Byte>
    var oWrSel: seq<bool>
    var rData: seq<Byte>
    var rSel: seq<bool>
    ghost var h: History

    function Regs(): Registers
      reads this
    {
      Registers(oBusy, oErr, oWrCyc, oWrStb, oWrAddr, subaddr, rLast, wbOutstanding, wbPipelineFull,
                oWrData, oWrSel, rData, rSel)
    }

    ghost predicate Valid()
      reads this
    {
      Invariant(b, Regs(), h)
    }

    constructor (b: Bus, ghost mem: seq<Byte>)
      requires b.Valid() && |mem| == b.Bytes()
      ensures Valid() && this.b == b && !oBusy && h.mem == mem
    {
      this.b := b;
      oBusy, oErr, oWrCyc, oWrStb, oWrAddr, subaddr, rLast := false, false, false, false, 0, 0, false;
      wbOutstanding, wbPipelineFull := 0, false;
      oWrData, oWrSel, rData, rSel := Nothing(b.width), Off(b.width), Nothing(b.width), Off(b.width);
      h := History(0, mem, mem, [], 0, 0, false, false, false);
      MostAtLeast(b);
    }

    /** next_data and next_sel: clear the lanes not in use, then merge the beat in. */
    method Compose(r: Registers, take: bool, s: ByteBeat) returns (nextData: seq<Byte>, nextSel: seq<bool>)
      requires r.Shaped(b) && |s.data| == b.width && (take ==> s.bytes <= b.width)
      ensures nextData == NextData(b.width, r, take, s) && nextSel == NextSel(b.width, r, take, s)
    {
      var w := b.width;
      var kept := r.data;
      for ik := 0 to w
        invariant |kept| == w
        invariant forall k :: 0 <= k < w ==> kept[k] == if k < ik && !r.sel[k] then 0 else r.data[k]
      {
        if !r.sel[ik] { kept := kept[ik := 0]; }
      }
      var preSel := Off(w);
      for ik := 0 to w
        invariant |preSel| == w
        invariant forall k :: 0 <= k < w ==> preSel[k] == (k < ik && k < s.bytes)
      {
        if ik < s.bytes { preSel := preSel[ik := true]; }
      }
      nextData, nextSel := kept + Nothing(w), r.sel + Off(w);
      if take {
        var shifted := Nothing(r.sub) + s.data + Nothing(w - r.sub);
        var shiftedSel := Off(r.sub) + preSel + Off(w - r.sub);
        nextData := seq(2 * w, k requires 0 <= k < 2 * w => Or((kept + Nothing(w))[k], shifted[k]));
        nextSel := seq(2 * w, k requires 0 <= k < 2 * w => (r.sel + Off(w))[k] || shiftedSel[k]);
      }
    }

    /** wb_outstanding and wb_pipeline_full; r holds the registers before the edge. */
    method ClockPipe(r: Registers, i: Input)
      modifies `wbOutstanding, `wbPipelineFull
      requires wbOutstanding == r.outstanding && wbPipelineFull == r.full && b.Valid()
      ensures wbOutstanding == NextOutstanding(b, r, i) && wbPipelineFull == NextFull(b, r, i)
    {
      var issues := r.Issues(i);
      if !r.cyc {
        wbPipelineFull, wbOutstanding := false, 0;
      } else if i.err {
        wbPipelineFull, wbOutstanding := false, 0;
      } else if issues {
        if !i.ack {
          wbPipelineFull := b.Most() - 2 <= wbOutstanding;
          wbOutstanding := if wbOutstanding == b.Most() then 0 else wbOutstanding + 1;
        }
      } else if i.ack {
        wbPipelineFull := wbOutstanding == b.Most();
        wbOutstanding := if wbOutstanding == 0 then b.Most() else wbOutstanding - 1;
      }
    }

    /** The bus machine. */
    method ClockBus(r: Registers, i: Input)
      requires b.Valid() && Same(r)
      modifies `oBusy, `oErr, `oWrCyc, `oWrStb, `rLast
      ensures oBusy == NextBusy(b, r, i) && oErr == NextErr(b, r, i)
      ensures oWrCyc == NextCyc(b, r, i) && oWrStb == NextStb(b, r, i)
      ensures rLast == NextLast(r, i)
    {
      hide Sends;
      var stopped, overflow, sends, quits := r.Stopped(i), r.Overflows(b, i), Sends(r, i), Quits(r, i);
      if stopped {
        oBusy := if r.busy then false else i.request;
        oErr := if r.cyc then i.err else false;
        oWrCyc, oWrStb, rLast := false, false, false;
      } else if r.Moves(i) {
        oWrStb := false;
        if overflow {
          oErr, oWrCyc := true, false;
        } else if sends {
          oWrCyc, oWrStb := true, true;
        } else if quits {
          oWrCyc, oBusy := false, !r.last;
        }
        if i.valid {
          if !r.last { rLast := i.s.last; }
        }
      }
    }

    /** Its address registers. */
    method ClockAddr(r: Registers, i: Input)
      requires b.Valid() && oWrAddr == r.addr && subaddr == r.sub
      modifies `oWrAddr, `subaddr
      ensures oWrAddr == NextAddr(b, r, i)
      ensures subaddr == if r.Stopped(i) then i.addr % b.width else r.sub
    {
      if r.Stopped(i) {
        oWrAddr, subaddr := i.addr / b.width, i.addr % b.width;
      } else if r.Moves(i) {
        if r.stb { oWrAddr := if r.addr + 1 == b.words then 0 else r.addr + 1; }
      }
    }

    /** The fields of the bus machine are those of r. */
    predicate Same(r: Registers)
      reads this
    {
      oBusy == r.busy && oErr == r.err && oWrCyc == r.cyc && oWrStb == r.stb && rLast == r.last
    }

    /** The output word and the one in hand. */
    method ClockData(r: Registers, i: Input)
      requires b.Valid() && r.Shaped(b) && |i.s.data| == b.width && (i.valid ==> i.s.bytes <= b.width)
      requires oWrData == r.wrData && oWrSel == r.wrSel && rData == r.data && rSel == r.sel
      modifies `oWrData, `oWrSel, `rData, `rSel
      ensures var e := Edge(b, r, i); oWrData == e.wrData && oWrSel == e.wrSel && rData == e.data && rSel == e.sel
    {
      hide NextData, NextSel, Loads;
      var loads, take := Loads(r, i), Both(i.valid, !r.last);
      var nextData, nextSel := Compose(r, take, i.s);
      if !r.busy {
        rData, oWrData, rSel, oWrSel := Nothing(b.width), Nothing(b.width), Off(b.width), Off(b.width);
      } else if loads {
        oWrData, rData := nextData[..b.width], nextData[b.width..];
        oWrSel, rSel := nextSel[..b.width], nextSel[b.width..];
      }
    }

    /** One clock: the registers of the specification, all blocks sampling the same edge. */
    method Clock(i: Input)
      requires b.Valid() && Regs().Shaped(b) && |i.s.data| == b.width && (i.valid ==> i.s.bytes <= b.width)
      modifies `oBusy, `oErr, `oWrCyc, `oWrStb, `oWrAddr, `subaddr, `rLast, `wbOutstanding, `wbPipelineFull,
               `oWrData, `oWrSel, `rData, `rSel
      ensures Regs() == Edge(b, old(Regs()), i)
    {
      hide NextData, NextSel, NextBusy, NextErr, NextCyc, NextStb, NextAddr, NextLast, NextOutstanding, NextFull, Loads;
      var r := Regs();
      ClockPipe(r, i);
      ClockBus(r, i);
      ClockAddr(r, i);
      ClockData(r, i);
    }

    method Step(i: Input)
      requires Valid() && Legal(b, Regs(), h, i)
      modifies this
      ensures Valid()
      ensures Regs() == Edge(b, old(Regs()), i) && h == After(b, old(Regs()), old(h), i)
      ensures old(oBusy) && !oBusy && !h.failed
              ==> Copied(h) && h.writes == |h.acc| && h.pending == 0 && h.finished == !h.lost
    {
      hide Edge, After, Invariant, Copied, Legal;
      StepsOn(b, Regs(), h, i);
      h := After(b, Regs(), h, i);
      Clock(i);
    }
  }
}
