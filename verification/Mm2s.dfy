/** rtl/satadma_mm2s.v at i_inc = 1 and size SZ_BUS, the way the transport layer uses it. */
module StreamReader {
  import opened Words
  import opened ByteLanes
  import opened Arithmetic

  /** What the module samples at a clock edge. */
  datatype Input = Input(request: bool, addr: nat, len: nat, stall: bool, ack: bool, data: seq<Byte>, err: bool)

  datatype Registers = Registers(
    busy: bool, err: bool, cyc: bool, stb: bool, addr: nat, sub: nat,
    stbSize: nat, stbLen: nat, wrap: bool, outstanding: nat,
    ackLen: nat, ackSize: nat, preShift: nat, fill: nat,
    mValid: bool, mLast: bool, mBytes: nat, sreg: seq<Byte>, rAddr: nat, rLen: nat)
  {
    predicate Issues(i: Input) {
      stb && !i.stall
    }

    predicate Fails(i: Input) {
      (cyc && i.err) || err
    }

    function NextByte(w: nat, i: Input): nat {
      addr * w + sub + if Issues(i) then stbSize else 0
    }

    function NextFill(i: Input): nat {
      (if mValid then 0 else fill) + if i.ack then ackSize else 0
    }

    function Beat(): ByteBeat {
      ByteBeat(sreg, mBytes, mLast)
    }
  }

  // ---- The sizes ----

  /** first_size */
  function FirstSize(w: nat, addr: nat, len: nat): nat
    requires w > 0
  {
    Min(w - addr % w, len)
  }

  /** nxtstb_size of a bus wider than 32 bits. */
  function WideSize(w: nat, stbLen: nat, stbSize: nat): nat {
    if stbSize <= stbLen < stbSize + w then stbLen - stbSize else w
  }

  /** nxtstb_size of a 32-bit bus, where size SZ_BUS shares the arithmetic of SZ_32B. */
  function StandardSize(stbLen: nat, stbSize: nat, rAddr: nat, rLen: nat): nat {
    if rLen < 8 then
      if rLen % 4 + rAddr % 4 == 0 then 4
      else if stbSize <= stbLen < stbSize + 4 then (rAddr % 4 + rLen % 4) % 4 else 4
    else if 4 <= stbLen < 8 then stbLen - 4 else 4
  }

  /** The bytes of a transfer that share a bus word with the byte at offset p. */
  function Chunk(w: nat, start: nat, len: nat, p: nat): nat
    requires w > 0 && p <= len
  {
    Min(w - (start + p) % w, len - p)
  }

  /** Residues modulo four, spelled out. */
  lemma LastBytes(start: nat, len: nat, next: nat)
    requires (start + next) % 4 == 0 && next < len < next + 4
    ensures (start % 4 + len % 4) % 4 == len - next
  {
    var k := (start + next) / 4;
    assert start + len == 4 * k + (len - next);
    var a, b := start / 4, len / 4;
    assert start % 4 + len % 4 == 4 * (k - a - b) + (len - next);
  }

  /** The two builds agree: both are the rest of the transfer, a word at most. */
  lemma SizesAgree(start: nat, len: nat, p: nat)
    requires p < len && (p == 0 || (start + p) % 4 == 0)
    ensures var size := Chunk(4, start, len, p);
            var next := p + size;
            next < len ==>
              && StandardSize(len - p, size, start, len) == Chunk(4, start, len, next)
              && WideSize(4, len - p, size) == Chunk(4, start, len, next)
  {
    var size := Chunk(4, start, len, p);
    var next := p + size;
    if next < len {
      WordEnd(start + p, size);
      if len < next + 4 { LastBytes(start, len, next); }
    }
  }

  lemma WordEnd(x: nat, size: nat)
    requires size == 4 - x % 4
    ensures (x + size) % 4 == 0
  {
    assert x + size == 4 * (x / 4 + 1);
  }

  /** The bus: bytes a word, and which build. BUS_WIDTH = 32 has its own arithmetic. */
  datatype Bus = Bus(width: nat, words: nat) {
    predicate Valid() {
      width > 0 && words > 0
    }

    function Bytes(): nat {
      width * words
    }

    function NextSize(r: Registers): nat {
      if width == 4 then StandardSize(r.stbLen, r.stbSize, r.rAddr, r.rLen)
      else WideSize(width, r.stbLen, r.stbSize)
    }
  }

  // ---- The registers after a clock edge ----

  predicate Overflow(b: Bus, r: Registers, i: Input) {
    r.wrap || r.NextByte(b.width, i) >= b.Bytes()
  }

  predicate MoreToAsk(r: Registers) {
    r.stbLen > r.stbSize
  }

  predicate NextBusy(r: Registers, i: Input) {
    if r.Fails(i) then r.cyc && i.err
    else if !r.busy then i.request
    else !(r.mValid && r.mLast)
  }

  predicate NextErr(b: Bus, r: Registers, i: Input) {
    if r.Fails(i) then r.cyc && i.err else r.busy && MoreToAsk(r) && Overflow(b, r, i)
  }

  /** r_wrap: the last request taken was for the top of memory. */
  predicate NextWrap(b: Bus, r: Registers, i: Input) {
    !r.Fails(i) && r.busy && if r.Issues(i) then r.NextByte(b.width, i) >= b.Bytes() else r.wrap
  }

  /** Nothing asked for is still to come back. */
  predicate AllBack(r: Registers, i: Input) {
    r.outstanding == (if i.ack then 1 else 0) && !r.stb
  }

  predicate NextCyc(b: Bus, r: Registers, i: Input) {
    !r.Fails(i) && if !r.busy then i.request
                   else r.cyc && !(MoreToAsk(r) && Overflow(b, r, i))
                        && !AllBack(r, i)
  }

  predicate NextStb(b: Bus, r: Registers, i: Input) {
    !r.Fails(i) && if !r.busy then i.request
                   else if MoreToAsk(r) then !Overflow(b, r, i)
                   else r.stb && i.stall
  }

  /** The byte address { o_rd_addr, subaddr }. */
  function NextAddr(b: Bus, r: Registers, i: Input): nat {
    if r.Fails(i) then 0
    else if !r.busy then i.addr
    else if !r.Issues(i) then r.addr * b.width + r.sub
    else if r.NextByte(b.width, i) >= b.Bytes() then 0 else r.NextByte(b.width, i)
  }

  function NextStbSize(b: Bus, r: Registers, i: Input): nat
    requires b.Valid()
  {
    if r.Fails(i) then 0
    else if !r.busy then FirstSize(b.width, i.addr, i.len)
    else if r.Issues(i) then b.NextSize(r) else r.stbSize
  }

  function NextStbLen(r: Registers, i: Input): nat {
    if r.Fails(i) then 0
    else if !r.busy then i.len
    else if r.Issues(i) then if MoreToAsk(r) then r.stbLen - r.stbSize else 0
    else r.stbLen
  }

  function NextOutstanding(r: Registers, i: Input): nat {
    if !r.cyc || i.err then 0
    else if r.Issues(i) && !i.ack then r.outstanding + 1
    else if !r.Issues(i) && i.ack && r.outstanding > 0 then r.outstanding - 1
    else r.outstanding
  }

  function NextAckLen(r: Registers, i: Input): nat {
    if !r.busy then i.len
    else if i.ack then if r.ackLen <= r.ackSize then 0 else r.ackLen - r.ackSize
    else r.ackLen
  }

  function NextAckSize(b: Bus, r: Registers, i: Input): nat
    requires b.Valid()
  {
    if !r.busy then FirstSize(b.width, i.addr, i.len)
    else if !i.ack then r.ackSize
    else if r.ackLen > b.width + r.ackSize then b.width
    else if r.ackLen < r.ackSize then 0 else r.ackLen - r.ackSize
  }

  predicate NextValid(r: Registers, i: Input) {
    r.busy && (((!r.mValid || !r.mLast) && r.ackLen == 0 && r.fill > 0) || (r.cyc && i.ack))
  }

  predicate NextLast(b: Bus, r: Registers, i: Input)
    requires b.Valid()
  {
    if !r.busy then (i.addr + i.len - 1) / b.width != i.addr / b.width
    else if i.ack then r.ackLen <= r.ackSize && r.NextFill(i) <= b.width
    else r.ackLen == 0 || r.mLast
  }

  function NextBytes(b: Bus, r: Registers, i: Input): nat {
    if !r.busy then 0
    else if i.ack then Min(b.width, r.NextFill(i))
    else if r.ackLen == 0 then r.NextFill(i)
    else r.mBytes
  }

  /** The returned word, shifted so that the first byte wanted comes first. */
  function Shifted(data: seq<Byte>, amount: nat): (d: seq<Byte>)
    requires amount <= |data|
    ensures |d| == |data|
  {
    data[amount..] + Nothing(amount)
  }

  function NextSreg(b: Bus, r: Registers, i: Input): seq<Byte> {
    if !r.busy then Nothing(b.width)
    else if r.cyc && i.ack then if r.preShift <= |i.data| then Shifted(i.data, r.preShift) else Nothing(b.width)
    else if r.mValid then Nothing(b.width)
    else r.sreg
  }

  /** pre_shift: only the first word of a transfer can start inside a bus word. */
  function NextPreShift(b: Bus, r: Registers, i: Input): nat
    requires b.Valid()
  {
    if !r.busy then LaneOf(b, i.addr) else if r.cyc && i.ack then 0 else r.preShift
  }

  /** Registers that an idle module loads afresh. */
  function Held(busy: bool, value: nat, idle: nat): nat {
    if busy then value else idle
  }

  function WordOf(b: Bus, addr: nat): nat
    requires b.Valid()
  {
    addr / b.width
  }

  function LaneOf(b: Bus, addr: nat): (l: nat)
    requires b.Valid()
  {
    addr % b.width
  }

  function Edge(b: Bus, r: Registers, i: Input): Registers
    requires b.Valid()
  {
    Registers(
      NextBusy(r, i), NextErr(b, r, i), NextCyc(b, r, i), NextStb(b, r, i),
      WordOf(b, NextAddr(b, r, i)), LaneOf(b, NextAddr(b, r, i)),
      NextStbSize(b, r, i), NextStbLen(r, i),
      NextWrap(b, r, i),
      NextOutstanding(r, i), NextAckLen(r, i), NextAckSize(b, r, i),
      NextPreShift(b, r, i), Held(r.busy, r.NextFill(i), 0),
      NextValid(r, i), NextLast(b, r, i), NextBytes(b, r, i), NextSreg(b, r, i),
      Held(r.busy, r.rAddr, i.addr), Held(r.busy, r.rLen, i.len))
  }

  // ---- The bus, the stream, and the invariant ----

  /** What happened since the last request. */
  datatype History = History(
    start: nat, len: nat,
    asked: nat,           // bytes covered by the requests the bus has taken
    got: nat,             // bytes covered by the acknowledgements
    pend: seq<nat>,       // word addresses requested and not acknowledged, oldest first
    out: seq<ByteBeat>,   // the beats that have left
    failed: bool)         // a bus error

  function Queue(r: Registers, h: History, i: Input): seq<nat> {
    Push(h.pend, r.Issues(i), r.addr)
  }

  function Word(b: Bus, mem: seq<Byte>, k: nat): seq<Byte>
    requires |mem| == b.Bytes()
  {
    if (k + 1) * b.width <= |mem| then mem[k * b.width..(k + 1) * b.width] else []
  }

  /** What the caller and the bus guarantee: a nonempty transfer within memory, and
      one acknowledgement a request, in order, with the word requested. */
  predicate Legal(b: Bus, mem: seq<Byte>, r: Registers, h: History, i: Input)
    requires |mem| == b.Bytes()
  {
    && (!r.busy && i.request ==> i.len > 0 && i.addr + i.len <= b.Bytes())
    && |i.data| == b.width
    && (i.ack ==> r.cyc && Queue(r, h, i) != [] && i.data == Word(b, mem, Queue(r, h, i)[0]))
  }

  function After(b: Bus, mem: seq<Byte>, r: Registers, h: History, i: Input): History
    requires |mem| == b.Bytes() && Legal(b, mem, r, h, i)
  {
    if !r.busy then History(i.addr, i.len, 0, 0, [], [], false)
    else History(
      h.start, h.len,
      h.asked + (if r.Issues(i) then r.stbSize else 0),
      h.got + (if i.ack then r.ackSize else 0),
      if i.ack then Queue(r, h, i)[1..] else Queue(r, h, i),
      Push(h.out, r.mValid, r.Beat()),
      h.failed || r.Fails(i))
  }

  /** pend are the words of the bytes from p up to q. */
  ghost predicate Chain(w: nat, start: nat, len: nat, p: nat, q: nat, pend: seq<nat>)
    requires w > 0
    decreases |pend|
  {
    if pend == [] then p == q
    else p < len && pend[0] == Quotient(start + p, w) && Chain(w, start, len, p + Chunk(w, start, len, p), q, pend[1..])
  }

  predicate AtWord(w: nat, start: nat, len: nat, p: nat)
    requires w > 0
  {
    p <= len && (p == 0 || p == len || (start + p) % w == 0)
  }

  /** The request side has come to byte h.asked of the transfer. */
  predicate Asking(b: Bus, r: Registers, h: History)
    requires b.Valid()
  {
    && AtWord(b.width, h.start, h.len, h.asked)
    && r.rAddr == h.start && r.rLen == h.len
    && r.stbLen == h.len - h.asked
    && r.stb == (h.asked < h.len)
    && (r.stb ==> && r.addr == Quotient(h.start + h.asked, b.width) && r.sub == (h.start + h.asked) % b.width
                  && r.stbSize == Chunk(b.width, h.start, h.len, h.asked))
    && (r.wrap ==> h.asked == h.len)
  }

  /** The return side has come to byte h.got. */
  predicate Getting(b: Bus, r: Registers, h: History)
    requires b.Valid()
  {
    && AtWord(b.width, h.start, h.len, h.got)
    && r.ackLen == h.len - h.got
    && (h.got < h.len ==> && r.cyc && r.ackSize == Chunk(b.width, h.start, h.len, h.got)
                          && r.preShift == (h.start + h.got) % b.width)
  }

  /** Every byte that has come back is in a beat, in order; no beat is empty, and the
      one on show is the last exactly when the transfer is complete. */
  ghost predicate Showing(b: Bus, mem: seq<Byte>, r: Registers, h: History) {
    && h.start + h.got <= |mem| && |r.sreg| == b.width
    && Join(Push(h.out, r.mValid, r.Beat())) == mem[h.start..h.start + h.got]
    && Midway(h.out)
    && (if r.mValid then 1 <= r.mBytes <= b.width && r.fill == r.mBytes && r.mLast == (h.got == h.len)
        else r.fill == 0 && h.got < h.len)
  }

  /** Beats before the last: none is empty. */
  predicate Midway(out: seq<ByteBeat>) {
    forall k :: 0 <= k < |out| ==> out[k].bytes >= 1 && !out[k].last
  }

  ghost predicate Invariant(b: Bus, mem: seq<Byte>, r: Registers, h: History)
    requires |mem| == b.Bytes()
  {
    && b.Valid() && r.sub < b.width
    && (!r.busy ==> !r.cyc)
    && (r.busy && h.failed ==> r.err)
    && (r.busy && !h.failed ==>
          && !r.err && h.len > 0 && h.start + h.len <= |mem|
          && Chain(b.width, h.start, h.len, h.got, h.asked, h.pend)
          && r.outstanding == |h.pend|
          && Asking(b, r, h) && Getting(b, r, h) && Showing(b, mem, r, h))
  }

  // ---- The steps ----

  /** From a chunk's end on, the offsets are word aligned. */
  lemma ChunkEnd(w: nat, start: nat, len: nat, p: nat)
    requires w > 0 && p < len
    ensures var n := p + Chunk(w, start, len, p);
            && p < n <= len && AtWord(w, start, len, n)
            && (n < len ==> Quotient(start + n, w) == Quotient(start + p, w) + 1)
  {
    var x := start + p;
    DivMod(x, w);
    if w - x % w <= len - p {
      DivModUnique(x + (w - x % w), x / w + 1, 0, w);
    }
  }

  lemma {:induction false} ChainPush(w: nat, start: nat, len: nat, p: nat, q: nat, pend: seq<nat>)
    requires w > 0 && p <= len && q < len && Chain(w, start, len, p, q, pend)
    ensures Chain(w, start, len, p, q + Chunk(w, start, len, q), pend + [Quotient(start + q, w)])
    decreases |pend|
  {
    if pend == [] {
      assert (pend + [Quotient(start + q, w)])[1..] == [];
      ChunkEnd(w, start, len, p);
    } else {
      assert (pend + [Quotient(start + q, w)])[1..] == pend[1..] + [Quotient(start + q, w)];
      ChunkEnd(w, start, len, p);
      ChainPush(w, start, len, p + Chunk(w, start, len, p), q, pend[1..]);
    }
  }

  /** Pending requests are at most the bytes they cover: the count cannot outgrow the length. */
  lemma {:induction false} ChainLength(w: nat, start: nat, len: nat, p: nat, q: nat, pend: seq<nat>)
    requires w > 0 && p <= len && Chain(w, start, len, p, q, pend)
    ensures p + |pend| <= q <= len
    decreases |pend|
  {
    if pend != [] {
      ChunkEnd(w, start, len, p);
      ChainLength(w, start, len, p + Chunk(w, start, len, p), q, pend[1..]);
    }
  }

  /** The next size is the next chunk, in either build. */
  lemma NextSizeIsChunk(b: Bus, r: Registers, h: History)
    requires b.Valid() && Asking(b, r, h) && h.asked < h.len
    ensures var n := h.asked + r.stbSize;
            && n <= h.len
            && (n < h.len ==> b.NextSize(r) == Chunk(b.width, h.start, h.len, n))
  {
    ChunkEnd(b.width, h.start, h.len, h.asked);
    if b.width == 4 { SizesAgree(h.start, h.len, h.asked); }
  }

  lemma AskStep(b: Bus, mem: seq<Byte>, r: Registers, h: History, i: Input)
    requires |mem| == b.Bytes() && b.Valid() && Legal(b, mem, r, h, i)
    requires r.busy && !r.Fails(i) && Asking(b, r, h) && h.start + h.len <= |mem|
    ensures Asking(b, Edge(b, r, i), After(b, mem, r, h, i))
    ensures !NextErr(b, r, i)
    ensures r.Issues(i) ==> h.asked < h.len && r.addr == Quotient(h.start + h.asked, b.width)
                            && r.stbSize == Chunk(b.width, h.start, h.len, h.asked)
  {
    hide Chunk;
    if r.stb {
      var x := h.start + h.asked;
      DivMod(x, b.width);
      DivModUnique(x, r.addr, r.sub, b.width);
      ChunkEnd(b.width, h.start, h.len, h.asked);
      NextSizeIsChunk(b, r, h);
    }
  }

  /** A transfer over the top of memory is an error: in the clock in which the bus takes the
      request for the last word there is, with more to ask for, and in no other, o_err goes up
      and the bus is let go. */
  lemma OverTheTop(b: Bus, r: Registers, h: History, i: Input)
    requires b.Valid() && r.busy && !r.Fails(i) && Asking(b, r, h)
    requires h.asked < h.len ==> h.start + h.asked < b.Bytes()
    ensures var over := r.Issues(i) && b.Bytes() <= h.start + h.asked + r.stbSize < h.start + h.len;
            && (Edge(b, r, i).err <==> over)
            && (over ==> !Edge(b, r, i).cyc && !Edge(b, r, i).stb)
  {
    hide Chunk;
    if r.stb {
      var x := h.start + h.asked;
      DivMod(x, b.width);
      DivModUnique(x, r.addr, r.sub, b.width);
      ChunkEnd(b.width, h.start, h.len, h.asked);
    }
  }

  /** An idle module starts exactly when asked, with a request for the word asked for first. */
  lemma Starts(b: Bus, r: Registers, i: Input)
    requires b.Valid() && !r.busy && !r.Fails(i)
    ensures var e := Edge(b, r, i);
            && e.busy == e.cyc == e.stb == i.request && !e.err && !e.mValid
            && e.addr * b.width + e.sub == i.addr && e.sub < b.width && e.stbLen == e.ackLen == i.len
  {
    DivMod(i.addr, b.width);
  }

  /** A failure lets go of the bus at once and leaves no request; o_err is up for one clock, and
      the module idle after it. */
  lemma FailureEnds(b: Bus, r: Registers, i: Input, j: Input)
    requires b.Valid() && r.Fails(i)
    ensures var e := Edge(b, r, i);
            && !e.cyc && !e.stb && e.addr == e.sub == e.stbSize == e.stbLen == 0
            && e.busy == e.err == (r.cyc && i.err)
            && (e.busy ==> !Edge(b, e, j).busy && !Edge(b, e, j).err)
  {
    DivModUnique(0, 0, 0, b.width);
  }

  predicate Returned(b: Bus, mem: seq<Byte>, h: History, data: seq<Byte>)
    requires |mem| == b.Bytes() && b.Valid()
  {
    data == Word(b, mem, Quotient(h.start + h.got, b.width))
  }

  /** The word an acknowledgement brings is the one that holds byte h.got. */
  lemma HeadOfQueue(b: Bus, mem: seq<Byte>, r: Registers, h: History, i: Input)
    requires |mem| == b.Bytes() && b.Valid() && Legal(b, mem, r, h, i) && i.ack
    requires Chain(b.width, h.start, h.len, h.got, h.asked, h.pend) && h.got <= h.len
    requires r.Issues(i) ==> h.asked < h.len && r.addr == Quotient(h.start + h.asked, b.width)
    ensures h.got < h.len && Returned(b, mem, h, i.data)
  {
    hide Word, Chunk;
    ChainLength(b.width, h.start, h.len, h.got, h.asked, h.pend);
  }

  lemma ChainStep(b: Bus, mem: seq<Byte>, r: Registers, h: History, i: Input)
    requires |mem| == b.Bytes() && b.Valid() && Legal(b, mem, r, h, i) && r.busy && h.got <= h.len
    requires Chain(b.width, h.start, h.len, h.got, h.asked, h.pend)
    requires r.Issues(i) ==> h.asked < h.len && r.addr == Quotient(h.start + h.asked, b.width)
                             && r.stbSize == Chunk(b.width, h.start, h.len, h.asked)
    requires h.got < h.len ==> r.ackSize == Chunk(b.width, h.start, h.len, h.got)
    ensures var h2 := After(b, mem, r, h, i); Chain(b.width, h.start, h.len, h2.got, h2.asked, h2.pend)
  {
    hide Word, Chunk;
    if r.Issues(i) { ChainPush(b.width, h.start, h.len, h.got, h.asked, h.pend); }
    if i.ack { HeadOfQueue(b, mem, r, h, i); }
  }

  lemma GetStep(b: Bus, mem: seq<Byte>, r: Registers, h: History, i: Input)
    requires |mem| == b.Bytes() && b.Valid() && Legal(b, mem, r, h, i)
    requires r.busy && !r.Fails(i) && !NextErr(b, r, i) && Asking(b, r, h) && Getting(b, r, h)
    requires Chain(b.width, h.start, h.len, h.got, h.asked, h.pend) && r.outstanding == |h.pend|
    ensures Getting(b, Edge(b, r, i), After(b, mem, r, h, i))
    ensures Edge(b, r, i).outstanding == |After(b, mem, r, h, i).pend|
  {
    hide Word, Chunk, Chain;
    ChainEnds(b, h);
    if i.ack {
      HeadOfQueue(b, mem, r, h, i);
      ChunkEnd(b.width, h.start, h.len, h.got);
      NextChunk(b.width, h.start, h.len, h.got);
    }
  }

  lemma ChainEnds(b: Bus, h: History)
    requires b.Valid() && h.got <= h.len && Chain(b.width, h.start, h.len, h.got, h.asked, h.pend)
    ensures h.pend == [] ==> h.got == h.asked
    ensures |h.pend| == 1 ==> h.got < h.len && h.got + Chunk(b.width, h.start, h.len, h.got) == h.asked
    ensures |h.pend| >= 1 ==> h.got < h.len
  {
    if |h.pend| == 1 { assert h.pend[1..] == []; }
  }

  lemma NextChunk(w: nat, start: nat, len: nat, p: nat)
    requires w > 0 && p < len
    ensures var c := Chunk(w, start, len, p);
            p + c < len ==> Chunk(w, start, len, p + c) == (if len - p > w + c then w else len - p - c)
                            && (start + (p + c)) % w == 0
  {
    ChunkEnd(w, start, len, p);
  }

  lemma WordInside(b: Bus, x: nat)
    requires b.Valid() && x < b.Bytes()
    ensures (x / b.width + 1) * b.width == x / b.width * b.width + b.width <= b.Bytes()
  {
    DivMod(x, b.width);
    MulMonotone(b.words, x / b.width, b.width);
    MulMonotone(x / b.width + 1, b.words, b.width);
  }

  lemma SliceOfSlice(mem: seq<Byte>, at: nat, w: nat, sub: nat, n: nat)
    requires at + w <= |mem| && sub + n <= w
    ensures Shifted(mem[at..at + w], sub)[..n] == mem[at + sub..at + sub + n]
  {
  }

  /** The shifted word begins with the wanted bytes. */
  lemma ShiftedWord(b: Bus, mem: seq<Byte>, x: nat, n: nat)
    requires b.Valid() && |mem| == b.Bytes() && x + n <= |mem| && 1 <= n <= b.width - x % b.width
    ensures var word := Word(b, mem, x / b.width);
            |word| == b.width && Shifted(word, x % b.width)[..n] == mem[x..x + n]
  {
    hide Shifted;
    DivMod(x, b.width);
    WordInside(b, x);
    SliceOfSlice(mem, x / b.width * b.width, b.width, x % b.width, n);
  }

  /** An acknowledged word becomes a beat. */
  lemma ShowAck(b: Bus, mem: seq<Byte>, r: Registers, h: History, i: Input)
    requires |mem| == b.Bytes() && b.Valid() && Legal(b, mem, r, h, i) && i.ack && r.busy
    requires Getting(b, r, h) && Showing(b, mem, r, h) && h.start + h.len <= |mem|
    requires h.got < h.len && Returned(b, mem, h, i.data)
    ensures Showing(b, mem, Edge(b, r, i), After(b, mem, r, h, i))
  {
    hide Word, Shifted, Join, Chunk, Getting, Returned, Edge, After, Midway, Push;
    var n := Chunk(b.width, h.start, h.len, h.got);
    AckFacts(b, mem, r, h, i);
    BeatOfAck(b, r, i);
    AfterAck(b, mem, r, h, i);
    ShownNext(mem, h.out, r.mValid, r.Beat(), Edge(b, r, i).Beat(), h.start, h.got, n);
  }

  lemma ShownNext(mem: seq<Byte>, out: seq<ByteBeat>, shown: bool, beat: ByteBeat, next: ByteBeat,
                  start: nat, got: nat, n: nat)
    requires Midway(out) && (shown ==> beat.bytes >= 1 && !beat.last)
    requires start + got + n <= |mem| && Join(Push(out, shown, beat)) == mem[start..start + got]
    requires next.bytes == n <= |next.data| && next.data[..n] == mem[start + got..start + got + n]
    ensures Midway(Push(out, shown, beat))
    ensures Join(Push(Push(out, shown, beat), true, next)) == mem[start..start + (got + n)]
  {
    hide Join;
    JoinSnoc(Push(out, shown, beat), next);
    SliceAppend(mem, start, got, n);
  }

  /** The acknowledged word holds the bytes that are due. */
  lemma AckFacts(b: Bus, mem: seq<Byte>, r: Registers, h: History, i: Input)
    requires |mem| == b.Bytes() && b.Valid() && |i.data| == b.width
    requires Getting(b, r, h) && h.got < h.len && h.start + h.len <= |mem| && Returned(b, mem, h, i.data)
    ensures var n := Chunk(b.width, h.start, h.len, h.got);
            && 1 <= n == r.ackSize <= b.width && r.ackLen == h.len - h.got >= n && r.preShift <= b.width && r.cyc
            && Shifted(i.data, r.preShift)[..n] == mem[h.start + h.got..h.start + h.got + n]
  {
    hide Word, Shifted, Chunk;
    var n := Chunk(b.width, h.start, h.len, h.got);
    ChunkEnd(b.width, h.start, h.len, h.got);
    ChunkFits(b.width, h.start, h.len, h.got);
    ShiftedWord(b, mem, h.start + h.got, n);
  }

  lemma AfterAck(b: Bus, mem: seq<Byte>, r: Registers, h: History, i: Input)
    requires |mem| == b.Bytes() && Legal(b, mem, r, h, i) && i.ack && r.busy
    ensures var h2 := After(b, mem, r, h, i);
            && h2.out == Push(h.out, r.mValid, r.Beat()) && h2.got == h.got + r.ackSize
            && h2.start == h.start && h2.len == h.len
  {
    hide Word;
  }

  lemma ChunkFits(w: nat, start: nat, len: nat, p: nat)
    requires w > 0 && p < len
    ensures 1 <= Chunk(w, start, len, p) <= w - (start + p) % w
  {
  }

  lemma SliceAppend(mem: seq<Byte>, a: nat, p: nat, n: nat)
    requires a + p + n <= |mem|
    ensures mem[a..a + p] + mem[a + p..a + p + n] == mem[a..a + (p + n)]
  {
  }

  lemma BeatOfAck(b: Bus, r: Registers, i: Input)
    requires b.Valid() && r.busy && r.cyc && i.ack && |i.data| == b.width && r.preShift <= b.width
    requires (r.mValid || r.fill == 0) && r.ackSize <= b.width
    ensures var e := Edge(b, r, i);
            && e.mValid && e.Beat() == ByteBeat(Shifted(i.data, r.preShift), r.ackSize, r.ackLen <= r.ackSize)
            && e.fill == r.ackSize && |e.sreg| == b.width
  {
  }

  lemma ShowIdle(b: Bus, mem: seq<Byte>, r: Registers, h: History, i: Input)
    requires |mem| == b.Bytes() && b.Valid() && Legal(b, mem, r, h, i) && !i.ack && r.busy
    requires Getting(b, r, h) && Showing(b, mem, r, h) && !(r.mValid && r.mLast)
    ensures Showing(b, mem, Edge(b, r, i), After(b, mem, r, h, i))
  {
    hide Word, Join;
  }

  lemma StartStep(b: Bus, mem: seq<Byte>, r: Registers, h: History, i: Input)
    requires |mem| == b.Bytes() && b.Valid() && Legal(b, mem, r, h, i) && !r.busy && !r.cyc
    ensures Invariant(b, mem, Edge(b, r, i), After(b, mem, r, h, i))
  {
    hide Word;
    if i.request { assert mem[i.addr..i.addr + 0] == []; }
  }

  /** The last beat goes out: nothing is left on the bus. */
  lemma StopStep(b: Bus, mem: seq<Byte>, r: Registers, h: History, i: Input)
    requires |mem| == b.Bytes() && Invariant(b, mem, r, h) && Legal(b, mem, r, h, i)
    requires r.busy && !h.failed && r.mValid && r.mLast && !i.ack
    ensures r.Fails(i) || (!Edge(b, r, i).cyc && !Edge(b, r, i).busy)
  {
    hide Word, Chunk, Chain, Join;
    ChainEnds(b, h);
  }

  /** Every clock keeps the invariant, whatever the stalls and delays of the bus. */
  lemma InvariantStep(b: Bus, mem: seq<Byte>, r: Registers, h: History, i: Input)
    requires |mem| == b.Bytes() && Invariant(b, mem, r, h) && Legal(b, mem, r, h, i)
    ensures Invariant(b, mem, Edge(b, r, i), After(b, mem, r, h, i))
  {
    hide Word, Chunk, Chain, Join;
    hide NextAddr, NextStbSize, NextStbLen, NextAckLen, NextAckSize, NextBytes, NextSreg, NextLast, NextValid, NextStb;
    if !r.busy {
      StartStep(b, mem, r, h, i);
    } else if !h.failed && !r.Fails(i) {
      AskStep(b, mem, r, h, i);
      ChainStep(b, mem, r, h, i);
      GetStep(b, mem, r, h, i);
      if i.ack {
        HeadOfQueue(b, mem, r, h, i);
        ShowAck(b, mem, r, h, i);
      } else if r.mValid && r.mLast {
        StopStep(b, mem, r, h, i);
      } else {
        ShowIdle(b, mem, r, h, i);
      }
    }
  }

  /** Exactly the last of these beats is marked last, and none is empty. */
  ghost predicate OnePacket(out: seq<ByteBeat>) {
    && out != [] && Last(out).last
    && forall k :: 0 <= k < |out| ==> out[k].bytes >= 1 && (out[k].last ==> k == |out| - 1)
  }

  ghost predicate Delivered(mem: seq<Byte>, h: History) {
    && h.start + h.len <= |mem|
    && Join(h.out) == mem[h.start..h.start + h.len] && OnePacket(h.out)
  }

  /** What the module is for. When it goes idle without an error, the beats that have
      left are one packet whose bytes are memory from the address asked for on, as
      many as asked for. */
  lemma Finishes(b: Bus, mem: seq<Byte>, r: Registers, h: History, i: Input)
    requires |mem| == b.Bytes() && Invariant(b, mem, r, h) && Legal(b, mem, r, h, i)
    requires r.busy && !h.failed && !r.Fails(i) && !Edge(b, r, i).busy
    ensures var h2 := After(b, mem, r, h, i);
            Delivered(mem, h2) && h2.pend == []
  {
    hide Word, Chunk, Chain, Join;
    ChainEnds(b, h);
    if i.ack {
      AskStep(b, mem, r, h, i);
      HeadOfQueue(b, mem, r, h, i);
    }
  }

  // ---- Progress ----

  /** The bus takes a request, or acknowledges one. */
  predicate Moved(r: Registers, i: Input) {
    r.Issues(i) || i.ack
  }

  /** How long the module has been waiting for the bus. */
  function NextWaited(r: Registers, h: History, i: Input, waited: nat): nat {
    if (r.stb || h.pend != []) && !Moved(r, i) then waited + 1 else 0
  }

  /** Bytes to ask for, and bytes to get. */
  function Owed(h: History): nat {
    if h.asked <= h.len && h.got <= h.len then (h.len - h.asked) + (h.len - h.got) else 0
  }

  /** Every clock in which the bus moves gets bytes asked for or back, and the first in which the
      module does not wait for it ends the transfer. */
  lemma ProgressStep(b: Bus, mem: seq<Byte>, r: Registers, h: History, i: Input)
    requires |mem| == b.Bytes() && Invariant(b, mem, r, h) && Legal(b, mem, r, h, i)
    requires r.busy && !h.failed && !i.err
    ensures var r2, h2 := Edge(b, r, i), After(b, mem, r, h, i);
            && !h2.failed
            && (r2.busy ==> Owed(h2) <= Owed(h) && if Moved(r, i) then Owed(h2) < Owed(h) else r.stb || h.pend != [])
  {
    hide Word, Chunk, Chain, Join, Showing, Shifted;
    ChainEnds(b, h);
    if h.got < h.len { ChunkFits(b.width, h.start, h.len, h.got); }
    if h.asked < h.len { ChunkFits(b.width, h.start, h.len, h.asked); }
    InvariantStep(b, mem, r, h, i);
    if h.got == h.len { ShownLast(b, mem, r, h); }
  }

  lemma ShownLast(b: Bus, mem: seq<Byte>, r: Registers, h: History)
    requires Showing(b, mem, r, h) && h.got == h.len
    ensures r.mValid && r.mLast
  {
  }

  /** Inputs of a bus that keeps the module waiting for no more than `delay` clocks in a row, be it
      by stalls or by late acknowledgements. */
  ghost predicate Driven(b: Bus, mem: seq<Byte>, r: Registers, h: History, delay: nat, waited: nat, ins: seq<Input>)
    requires |mem| == b.Bytes() && b.Valid()
    decreases |ins|
  {
    && waited <= delay
    && (ins != [] ==>
          && Legal(b, mem, r, h, ins[0]) && !ins[0].err
          && Driven(b, mem, Edge(b, r, ins[0]), After(b, mem, r, h, ins[0]), delay,
                    NextWaited(r, h, ins[0], waited), ins[1..]))
  }

  /** On the way the module goes idle, with its packet delivered. */
  ghost predicate Ends(b: Bus, mem: seq<Byte>, r: Registers, h: History, ins: seq<Input>)
    requires |mem| == b.Bytes() && b.Valid()
    decreases |ins|
  {
    && ins != [] && Legal(b, mem, r, h, ins[0])
    && var r2, h2 := Edge(b, r, ins[0]), After(b, mem, r, h, ins[0]);
       (!r2.busy && !h2.failed && Delivered(mem, h2)) || Ends(b, mem, r2, h2, ins[1..])
  }

  /** A transfer ends within a number of clocks computed from the bytes to come and the delay. */
  lemma {:induction false} Completes(b: Bus, mem: seq<Byte>, r: Registers, h: History, delay: nat, waited: nat,
                                     ins: seq<Input>)
    requires |mem| == b.Bytes() && Invariant(b, mem, r, h) && r.busy && !h.failed
    requires Driven(b, mem, r, h, delay, waited, ins) && |ins| > Budget(Owed(h), delay, waited)
    ensures Ends(b, mem, r, h, ins)
    decreases |ins|
  {
    hide Edge, After, Delivered, Legal, Owed, Budget, Moved;
    var i := ins[0];
    ProgressStep(b, mem, r, h, i);
    StepsOn(b, mem, r, h, i);
    var r2, h2, waited2 := Edge(b, r, i), After(b, mem, r, h, i), NextWaited(r, h, i, waited);
    if r2.busy {
      assert waited2 <= delay;
      BudgetStep(Owed(h), Owed(h2), delay, waited, waited2);
      Completes(b, mem, r2, h2, delay, waited2, ins[1..]);
    }
  }

  /** The requests outstanding never outnumber the bytes still to come. */
  lemma OutstandingBound(b: Bus, mem: seq<Byte>, r: Registers, h: History)
    requires |mem| == b.Bytes() && Invariant(b, mem, r, h) && r.busy && !h.failed
    ensures r.outstanding <= r.ackLen <= h.len
  {
    hide Chunk, Chain, Join;
    ChainLength(b.width, h.start, h.len, h.got, h.asked, h.pend);
  }

  lemma KeptAddr(b: Bus, r: Registers, i: Input)
    requires b.Valid() && r.sub < b.width
    ensures WordOf(b, 0) == 0 == LaneOf(b, 0)
    ensures !r.Fails(i) && r.busy && !r.Issues(i)
            ==> WordOf(b, NextAddr(b, r, i)) == r.addr && LaneOf(b, NextAddr(b, r, i)) == r.sub
  {
    DivModUnique(0, 0, 0, b.width);
    DivModUnique(r.addr * b.width + r.sub, r.addr, r.sub, b.width);
  }

  lemma StepsOn(b: Bus, mem: seq<Byte>, r: Registers, h: History, i: Input)
    requires |mem| == b.Bytes() && Invariant(b, mem, r, h) && Legal(b, mem, r, h, i)
    ensures b.Valid() && r.sub < b.width
    ensures var r2, h2 := Edge(b, r, i), After(b, mem, r, h, i);
            Invariant(b, mem, r2, h2) && r2.sub < b.width
            && (r.busy && !r2.busy && !h2.failed ==> Delivered(mem, h2))
  {
    hide Word, Chunk, Chain, Join, Delivered;
    InvariantStep(b, mem, r, h, i);
    if r.busy && !h.failed && !r.Fails(i) && !Edge(b, r, i).busy { Finishes(b, mem, r, h, i); }
  }

  // ---- The module ----

  class Mm2s {
    const b: Bus
    ghost const mem: seq<Byte>
    var oBusy: bool
    var oErr: bool
    var oRdCyc: bool
    var oRdStb: bool
    var oRdAddr: nat
    var subaddr: nat
    var rdstbSize: nat
    var rdstbLen: nat
    var rWrap: bool
    var wbOutstanding: nat
    var rdackLen: nat
    var rdackSize: nat
    var preShift: nat
    var fill: nat
    var mValid: bool
    var mLast: bool
    var mBytes: nat
    var sreg: seq<Byte>
    var rAddr: nat
    var rTransferlen: nat
    ghost var h: History

    function Regs(): Registers
      reads this
    {
      Registers(oBusy, oErr, oRdCyc, oRdStb, oRdAddr, subaddr, rdstbSize, rdstbLen, rWrap, wbOutstanding,
                rdackLen, rdackSize, preShift, fill, mValid, mLast, mBytes, sreg, rAddr, rTransferlen)
    }

    ghost predicate Valid()
      reads this
    {
      |mem| == b.Bytes() && Invariant(b, mem, Regs(), h)
    }

    constructor (b: Bus, ghost mem: seq<Byte>)
      requires b.Valid() && |mem| == b.Bytes()
      ensures Valid() && this.b == b && this.mem == mem && !oBusy
    {
      this.b, this.mem := b, mem;
      oBusy, oErr, oRdCyc, oRdStb, oRdAddr, subaddr := false, false, false, false, 0, 0;
      rdstbSize, rdstbLen, rWrap, wbOutstanding, rdackLen, rdackSize := 0, 0, false, 0, 0, 0;
      preShift, fill, mValid, mLast, mBytes, sreg := 0, 0, false, false, 0, Nothing(b.width);
      rAddr, rTransferlen := 0, 0;
      h := History(0, 0, 0, 0, [], [], false);
    }

    /** The bus machine: o_rd_cyc, o_rd_stb, o_busy, o_err. r is the state before the edge. */
    method ClockBus(r: Registers, i: Input)
      requires b.Valid()
      requires oBusy == r.busy && oErr == r.err && oRdCyc == r.cyc && oRdStb == r.stb && rWrap == r.wrap
      modifies `oBusy, `oErr, `oRdCyc, `oRdStb, `rWrap
      ensures oBusy == NextBusy(r, i) && oErr == NextErr(b, r, i)
      ensures oRdCyc == NextCyc(b, r, i) && oRdStb == NextStb(b, r, i)
      ensures rWrap == NextWrap(b, r, i)
    {
      hide Overflow, MoreToAsk;
      var fails, overflow, more, done := r.Fails(i), Overflow(b, r, i), MoreToAsk(r), AllBack(r, i);
      rWrap := NextWrap(b, r, i);
      if fails {
        oRdCyc, oRdStb := false, false;
        oBusy := if r.cyc then i.err else false;
        oErr := oBusy;
      } else if !r.busy {
        oRdCyc, oRdStb, oBusy, oErr := i.request, i.request, i.request, false;
      } else {
        if !i.stall { oRdStb := false; }
        if more {
          if overflow {
            oErr, oRdCyc, oRdStb := true, false, false;
          } else {
            oRdStb := true;
          }
        }
        if done { oRdCyc := false; }
        if r.mValid {
          if r.mLast { oBusy := false; }
        }
      }
    }

    /** The address and the lengths of the request side. */
    method ClockAsk(r: Registers, i: Input)
      requires b.Valid()
      requires oRdAddr == r.addr && subaddr == r.sub && rdstbSize == r.stbSize && rdstbLen == r.stbLen
      requires wbOutstanding == r.outstanding && r.sub < b.width && rAddr == r.rAddr && rTransferlen == r.rLen
      modifies `oRdAddr, `subaddr, `rdstbSize, `rdstbLen, `wbOutstanding, `rAddr, `rTransferlen
      ensures oRdAddr == WordOf(b, NextAddr(b, r, i)) && subaddr == LaneOf(b, NextAddr(b, r, i))
      ensures rdstbSize == NextStbSize(b, r, i) && rdstbLen == NextStbLen(r, i)
      ensures wbOutstanding == NextOutstanding(r, i)
      ensures rAddr == Held(r.busy, r.rAddr, i.addr) && rTransferlen == Held(r.busy, r.rLen, i.len)
    {
      hide WordOf, LaneOf, Overflow;
      var issues, fails, next, size := r.Issues(i), r.Fails(i), NextAddr(b, r, i), b.NextSize(r);
      KeptAddr(b, r, i);
      wbOutstanding := NextOutstanding(r, i);
      if !r.busy { rAddr, rTransferlen := i.addr, i.len; }
      if fails {
        oRdAddr, subaddr, rdstbSize, rdstbLen := 0, 0, 0, 0;
      } else if !r.busy {
        oRdAddr, subaddr := WordOf(b, i.addr), LaneOf(b, i.addr);
        rdstbSize, rdstbLen := FirstSize(b.width, i.addr, i.len), i.len;
      } else if issues {
        oRdAddr, subaddr := WordOf(b, next), LaneOf(b, next);
        rdstbSize := size;
        rdstbLen := if r.stbLen <= r.stbSize then 0 else r.stbLen - r.stbSize;
      }
    }

    /** The lengths of the return side. */
    method ClockReturn(r: Registers, i: Input)
      requires b.Valid() && rdackLen == r.ackLen && rdackSize == r.ackSize && preShift == r.preShift && fill == r.fill
      modifies `rdackLen, `rdackSize, `preShift, `fill
      ensures rdackLen == NextAckLen(r, i) && rdackSize == NextAckSize(b, r, i)
      ensures preShift == NextPreShift(b, r, i)
      ensures fill == Held(r.busy, r.NextFill(i), 0)
    {
      var nextFill := r.NextFill(i);
      if !r.busy {
        rdackLen, rdackSize, preShift, fill := i.len, FirstSize(b.width, i.addr, i.len), LaneOf(b, i.addr), 0;
      } else {
        fill := nextFill;
        if i.ack {
          rdackLen := if r.ackLen <= r.ackSize then 0 else r.ackLen - r.ackSize;
          rdackSize := if r.ackLen > b.width + r.ackSize then b.width
                       else if r.ackLen < r.ackSize then 0 else r.ackLen - r.ackSize;
          if r.cyc { preShift := 0; }
        }
      }
    }

    /** The outgoing beat. */
    method ClockOut(r: Registers, i: Input)
      requires b.Valid() && mValid == r.mValid && mLast == r.mLast && mBytes == r.mBytes && sreg == r.sreg
      modifies `mValid, `mLast, `mBytes, `sreg
      ensures mValid == NextValid(r, i) && mLast == NextLast(b, r, i)
      ensures mBytes == NextBytes(b, r, i) && sreg == NextSreg(b, r, i)
    {
      hide NextSreg;
      var valid, last, nextFill := NextValid(r, i), NextLast(b, r, i), r.NextFill(i);
      sreg := NextSreg(b, r, i);
      mValid, mLast := valid, last;
      if !r.busy {
        mBytes := 0;
      } else if i.ack {
        mBytes := Min(b.width, nextFill);
      } else if r.ackLen == 0 {
        mBytes := nextFill;
      }
    }

    method ClockRequests(r: Registers, i: Input)
      requires b.Valid() && subaddr < b.width && Regs() == r
      modifies `oBusy, `oErr, `oRdCyc, `oRdStb, `oRdAddr, `subaddr, `rdstbSize, `rdstbLen, `rWrap, `wbOutstanding,
               `rAddr, `rTransferlen
      ensures var e := Edge(b, r, i);
              && oBusy == e.busy && oErr == e.err && oRdCyc == e.cyc && oRdStb == e.stb && rWrap == e.wrap
              && oRdAddr == e.addr && subaddr == e.sub && rdstbSize == e.stbSize && rdstbLen == e.stbLen
              && wbOutstanding == e.outstanding && rAddr == e.rAddr && rTransferlen == e.rLen
    {
      hide NextBusy, NextErr, NextCyc, NextStb, NextWrap, NextAddr, NextStbSize, NextStbLen, NextOutstanding;
      hide NextAckLen, NextAckSize, NextValid, NextLast, NextBytes, NextSreg, NextPreShift, WordOf, LaneOf, Held;
      ClockBus(r, i);
      ClockAsk(r, i);
    }

    method ClockReplies(r: Registers, i: Input)
      requires b.Valid()
      requires rdackLen == r.ackLen && rdackSize == r.ackSize && preShift == r.preShift && fill == r.fill
      requires mValid == r.mValid && mLast == r.mLast && mBytes == r.mBytes && sreg == r.sreg
      modifies `rdackLen, `rdackSize, `preShift, `fill, `mValid, `mLast, `mBytes, `sreg
      ensures var e := Edge(b, r, i);
              && rdackLen == e.ackLen && rdackSize == e.ackSize && preShift == e.preShift && fill == e.fill
              && mValid == e.mValid && mLast == e.mLast && mBytes == e.mBytes && sreg == e.sreg
    {
      hide NextBusy, NextErr, NextCyc, NextStb, NextWrap, NextAddr, NextStbSize, NextStbLen, NextOutstanding;
      hide NextAckLen, NextAckSize, NextValid, NextLast, NextBytes, NextSreg, NextPreShift, WordOf, LaneOf, Held;
      ClockReturn(r, i);
      ClockOut(r, i);
    }

    /** One clock: the registers of the specification, all blocks sampling the same edge. */
    method Clock(i: Input)
      requires b.Valid() && subaddr < b.width
      modifies this
      ensures Regs() == Edge(b, old(Regs()), i)
    {
      hide Edge;
      var r := Regs();
      ClockRequests(r, i);
      ClockReplies(r, i);
    }

    method Step(i: Input)
      requires Valid() && Legal(b, mem, Regs(), h, i)
      modifies this
      ensures Valid()
      ensures Regs() == Edge(b, old(Regs()), i) && h == After(b, mem, old(Regs()), old(h), i)
      ensures old(oBusy) && !oBusy && !h.failed ==> Delivered(mem, h)
    {
      hide Edge, After, Invariant, Legal, Delivered;
      StepsOn(b, mem, Regs(), h, i);
      ghost var h2 := After(b, mem, Regs(), h, i);
      Clock(i);
      h := h2;
    }
  }
}
