/** The DMA paths of rtl/sata_transport.v end to end: memory, reader, gears, line, gears,
    writer, memory, with the FIFOs and the link between them as identities. */
module DmaLoop {
  import opened Words
  import opened ByteLanes
  import opened Arithmetic
  import Reader = StreamReader
  import Pack = PackingGears
  import Cut = UnpackingGears
  import Writer = StreamWriter
  import Fifo = SyncFifo

  // ---- Streams and their bytes ----

  function Flatten(ps: seq<seq<Byte>>): seq<Byte> {
    if ps == [] then [] else Flatten(Init(ps)) + Last(ps)
  }

  lemma {:induction false} JoinIsParcels(bs: seq<ByteBeat>)
    ensures Join(bs) == Flatten(Parcel(bs).done) + Parcel(bs).open
    decreases |bs|
  {
    if bs != [] {
      JoinIsParcels(Init(bs));
      JoinAdd(Parcel(Init(bs)), Last(bs));
    }
  }

  lemma JoinAdd(p: Parcels, b: ByteBeat)
    ensures var n := p.Add(b); Flatten(n.done) + n.open == Flatten(p.done) + p.open + Payload(b)
  {
    if b.last { Snoc(p.done, p.open + Payload(b)); }
  }

  /** A stream that is one packet. */
  lemma OneParcel(bs: seq<ByteBeat>)
    requires Reader.OnePacket(bs)
    ensures Parcel(bs) == Parcels([Join(bs)], [])
  {
    OpenParcel(Init(bs));
    assert Parcels([], Join(Init(bs))).Add(Last(bs)) == Parcels([Join(bs)], []);
  }

  lemma {:induction false} OpenParcel(bs: seq<ByteBeat>)
    requires forall k :: 0 <= k < |bs| ==> !bs[k].last
    ensures Parcel(bs) == Parcels([], Join(bs))
    decreases |bs|
  {
    if bs != [] { OpenParcel(Init(bs)); }
  }

  // ---- The line between the two gear boxes ----

  /** The low bits of a byte count, as the FIFOs carry it, and the count rebuilt from them. */
  function Narrow(w: nat, bytes: nat): nat
    requires w > 0
  {
    bytes % w
  }

  function Widen(w: nat, low: nat): nat {
    if low == 0 then w else low
  }

  /** Dropping the top bit of a byte count loses nothing. */
  lemma CountSurvives(w: nat, bytes: nat)
    requires 1 <= bytes <= w
    ensures Widen(w, Narrow(w, bytes)) == bytes
  {
    if bytes < w { DivModUnique(bytes, 0, bytes, w); } else { DivModUnique(bytes, 1, 0, w); }
  }

  /** What the receive side makes of a word: i_data_data takes lane 0 as its top byte,
      and the receive gears are handed the bytes from the bottom up. */
  function Turn(w: nat, b: ByteBeat): ByteBeat {
    if w < 4 || |b.data| != w then b
    else ByteBeat([b.data[3], b.data[2], b.data[1], b.data[0]] + Nothing(w - 4), 4, b.last)
  }

  function TurnAll(w: nat, bs: seq<ByteBeat>): (r: seq<ByteBeat>)
    ensures |r| == |bs|
  {
    seq(|bs|, k requires 0 <= k < |bs| => Turn(w, bs[k]))
  }

  /** Each group of four bytes back to front. */
  function Reversed(s: seq<Byte>): (r: seq<Byte>)
    ensures |r| == |s|
  {
    seq(|s|, k requires 0 <= k < |s| => if k / 4 * 4 + 3 < |s| then s[k / 4 * 4 + 3 - k % 4] else s[k])
  }

  lemma ReversedConcat(a: seq<Byte>, b: seq<Byte>)
    requires |a| % 4 == 0 && |b| == 4
    ensures Reversed(a + b) == Reversed(a) + [b[3], b[2], b[1], b[0]]
  {
  }

  predicate WholeDone(done: seq<seq<Byte>>) {
    forall k :: 0 <= k < |done| ==> |done[k]| % 4 == 0
  }

  /** Packets of whole words. */
  predicate WholeWords(p: Parcels) {
    |p.open| % 4 == 0 && WholeDone(p.done)
  }

  function ReversedParcels(p: Parcels): Parcels
    requires WholeWords(p)
  {
    Parcels(seq(|p.done|, k requires 0 <= k < |p.done| => Reversed(p.done[k])), Reversed(p.open))
  }

  /** A beat of a packet of whole words, cut to four bytes. */
  predicate Quad(w: nat, b: ByteBeat) {
    w >= 4 && |b.data| == w && 1 <= b.bytes <= 4 && (!b.last ==> b.bytes == 4)
  }

  predicate Quads(w: nat, bs: seq<ByteBeat>) {
    w >= 4 && forall k :: 0 <= k < |bs| ==> Quad(w, bs[k])
  }

  lemma QuadsSnoc(w: nat, bs: seq<ByteBeat>)
    requires Quads(w, bs) && bs != []
    ensures Quads(w, Init(bs)) && Quad(w, Last(bs))
    ensures TurnAll(w, bs) == TurnAll(w, Init(bs)) + [Turn(w, Last(bs))]
  {
  }

  lemma {:induction false} TurnedParcels(w: nat, bs: seq<ByteBeat>)
    requires Quads(w, bs) && WholeDone(Parcel(bs).done)
    ensures WholeWords(Parcel(bs)) && Parcel(TurnAll(w, bs)) == ReversedParcels(Parcel(bs))
    decreases |bs|
  {
    hide Quads, Quad, WholeDone, ReversedParcels, Turn;
    if bs != [] {
      var i, b := Init(bs), Last(bs);
      QuadsSnoc(w, bs);
      DoneGrows(Parcel(i), b);
      TurnedParcels(w, i);
      TurnAdd(w, Parcel(i), b);
      Snoc(TurnAll(w, i), Turn(w, b));
    } else {
      NoParcels();
    }
  }

  lemma NoParcels()
    ensures WholeWords(Parcels([], [])) && ReversedParcels(Parcels([], [])) == Parcels([], [])
  {
  }

  lemma DoneGrows(p: Parcels, b: ByteBeat)
    ensures WholeDone(p.Add(b).done) ==> WholeDone(p.done)
    ensures WholeDone(p.Add(b).done) && b.last ==> |p.open + Payload(b)| % 4 == 0
  {
    var n := p.Add(b).done;
    if WholeDone(n) {
      forall k | 0 <= k < |p.done| ensures |p.done[k]| % 4 == 0 { assert n[k] == p.done[k]; }
      if b.last { assert n[|p.done|] == p.open + Payload(b); }
    }
  }

  lemma TurnAdd(w: nat, p: Parcels, b: ByteBeat)
    requires Quad(w, b) && WholeWords(p)
    requires b.last ==> |p.open + Payload(b)| % 4 == 0
    ensures WholeWords(p.Add(b)) && ReversedParcels(p).Add(Turn(w, b)) == ReversedParcels(p.Add(b))
  {
    assert b.bytes == 4;
    ReversedConcat(p.open, Payload(b));
    assert Payload(Turn(w, b)) == [b.data[3], b.data[2], b.data[1], b.data[0]];
    assert Reversed([]) == [];
  }

  /** One packet of whole words turned on the line and packed again. */
  lemma TurnedPacket(w: nat, src: seq<Byte>, cut: seq<ByteBeat>, packed: seq<ByteBeat>)
    requires Quads(w, cut) && |src| % 4 == 0
    requires Parcel(cut) == Parcels([src], []) && Parcel(packed) == Parcel(TurnAll(w, cut))
    ensures Join(packed) == Reversed(src)
  {
    hide Parcel, Quads, TurnAll, ReversedParcels, Flatten;
    TurnedParcels(w, cut);
    JoinIsParcels(packed);
    ReversedOne(src);
  }

  lemma ReversedOne(src: seq<Byte>)
    requires |src| % 4 == 0
    ensures WholeWords(Parcels([src], []))
    ensures var r := ReversedParcels(Parcels([src], [])); Flatten(r.done) + r.open == Reversed(src)
  {
    hide Reversed;
    var r := ReversedParcels(Parcels([src], []));
    assert r.done == [] + [Reversed(src)] && r.open == [];
    Snoc([], Reversed(src));
    assert Flatten(r.done) == [] + Reversed(src);
  }

  lemma {:induction false} ParcelPrefix(a: seq<ByteBeat>, b: seq<ByteBeat>)
    requires a <= b
    ensures Parcel(a).done <= Parcel(b).done
    decreases |b|
  {
    if |a| < |b| {
      assert a <= Init(b);
      ParcelPrefix(a, Init(b));
    } else {
      assert a == b;
    }
  }

  /** Cutting undoes packing at every beat size: at any time the packets that have come
      out of both gear boxes are the first of those that went in, byte for byte, and
      once both are empty they are all of them. */
  lemma GearsKeepPackets(w: nat, size: Cut.Size, p: Pack.Registers, ph: Pack.History,
                         c: Cut.Registers, ch: Cut.History)
    requires Pack.Invariant(w, p, ph) && Cut.Invariant(w, size, c, ch) && ch.acc <= ph.out
    ensures Parcel(ch.out).done <= Parcel(ph.acc).done
    ensures Cut.Sized(w, size.Bytes(w), ch.out)
    ensures p.fill == 0 && !c.mValid && ch.acc == ph.out ==> Parcel(ch.out) == Parcel(ph.acc)
  {
    hide Parcel;
    Pack.PacketsKept(w, p, ph);
    Cut.PacketsKept(w, size, c, ch);
    ParcelPrefix(ch.acc, ph.out);
  }

  // ---- The stages side by side ----

  /** The bus words that n bytes take. */
  function WordsOf(w: nat, n: nat): (k: nat)
    requires w > 0
    ensures n > 0 ==> k > 0
  {
    if n == 0 then 0 else if n <= w then 1 else 1 + WordsOf(w, n - w)
  }

  lemma OneWordMore(w: nat, n: nat)
    requires w > 0
    ensures WordsOf(w, n + w) == WordsOf(w, n) + 1
  {
  }

  /** The words that the gears will still send when `rem` more bytes of a packet come in. */
  function ToCome(w: nat, p: Pack.Registers, rem: nat): nat
    requires w > 0
  {
    if p.mLast || p.rLast then WordsOf(w, p.fill) + WordsOf(w, rem) else WordsOf(w, p.fill + rem)
  }

  /** Each word sent is one less to come; taking bytes in changes nothing. */
  lemma ToComeStep(w: nat, p: Pack.Registers, j: Pack.Input, rem: nat)
    requires Pack.Filled(w, p) && Pack.Legal(w, j)
    requires p.Accepts(w, j) ==> j.s.bytes <= rem && j.s.last == (j.s.bytes == rem)
    ensures p.mValid ==> ToCome(w, p, rem) > 0
    ensures ToCome(w, Pack.Edge(w, p, j), if p.Accepts(w, j) then rem - j.s.bytes else rem)
            + (if p.Sends(j) then 1 else 0) == ToCome(w, p, rem)
  {
    hide Pack.NextSreg;
    if p.Sends(j) && p.fill >= w {
      OneWordMore(w, p.fill - w);
      OneWordMore(w, p.fill - w + rem);
    }
  }

  /** The bytes of a transfer that have not been shown. */
  function Remaining(r: Reader.Registers, h: Reader.History): nat {
    if r.busy && h.got <= h.len then h.len - h.got + if r.mValid then r.mBytes else 0 else 0
  }

  lemma RemainingStep(b: Reader.Bus, mem: seq<Byte>, r: Reader.Registers, h: Reader.History, i: Reader.Input)
    requires |mem| == b.Bytes() && Reader.Invariant(b, mem, r, h) && Reader.Legal(b, mem, r, h, i)
    requires r.busy && !h.failed && !Reader.After(b, mem, r, h, i).failed
    ensures r.mValid ==> r.mBytes <= Remaining(r, h) && r.mLast == (r.mBytes == Remaining(r, h))
    ensures Remaining(Reader.Edge(b, r, i), Reader.After(b, mem, r, h, i))
            == if r.mValid then Remaining(r, h) - r.mBytes else Remaining(r, h)
  {
    hide Reader.Chunk, Reader.Chain, Reader.Word, Reader.Shifted, Join;
    if i.ack {
      ComesEarly(b, mem, r, h, i);
      Reader.AskStep(b, mem, r, h, i);
      Reader.HeadOfQueue(b, mem, r, h, i);
      Reader.AckFacts(b, mem, r, h, i);
      Reader.BeatOfAck(b, r, i);
    } else if r.mValid && r.mLast {
      Reader.StopStep(b, mem, r, h, i);
    }
  }

  /** The packing gears behind the reader, which does not look at their ready: whatever
      the reader has shown since its request has been accepted. `base` is what they had
      accepted before that. */
  ghost predicate Fed(r: Reader.Registers, h: Reader.History, p: Pack.Registers, ph: Pack.History,
                      base: seq<ByteBeat>)
  {
    && ph.acc == base + h.out
    && (!r.busy ==> !r.mValid && (p.fill == 0 || p.mLast || p.rLast))
    && (r.busy ==> !p.rLast && (p.mLast ==> !r.mValid))
  }

  /** The FIFO behind the gears has room for all that the transfer will bring. */
  predicate Room(b: Reader.Bus, r: Reader.Registers, h: Reader.History, p: Pack.Registers,
                 fifo: seq<ByteBeat>, depth: nat)
    requires b.Valid()
  {
    |fifo| + ToCome(b.width, p, Remaining(r, h)) <= depth
  }

  /** What the packing gears sample: the reader and the FIFO. */
  function GearInput(b: Reader.Bus, r: Reader.Registers, fifo: seq<ByteBeat>, depth: nat): Pack.Input {
    Pack.Input(r.mValid, if r.mValid then r.Beat() else Blank(b.width), |fifo| < depth)
  }

  /** The same clock for the reader, the packing gears and the FIFO behind them. If each request
      finds room for its bytes in the FIFO, beside what is on its way there, then the FIFO is
      never full when the gears have a word for it, and the gears are ready for every beat
      of the reader, from one transfer to the next: nothing is lost between the three. */
  lemma FedStep(b: Reader.Bus, mem: seq<Byte>, r: Reader.Registers, h: Reader.History, i: Reader.Input,
                p: Pack.Registers, ph: Pack.History, base: seq<ByteBeat>,
                fifo: seq<ByteBeat>, depth: nat, read: bool)
    requires |mem| == b.Bytes() && Reader.Invariant(b, mem, r, h) && Reader.Legal(b, mem, r, h, i)
    requires Pack.Invariant(b.width, p, ph) && Fed(r, h, p, ph, base) && Room(b, r, h, p, fifo, depth)
    requires !h.failed && !Reader.After(b, mem, r, h, i).failed && (read ==> fifo != [])
    requires !r.busy && i.request ==> |fifo| + ToCome(b.width, p, 0) + WordsOf(b.width, i.len) <= depth
    ensures var j := GearInput(b, r, fifo, depth);
            var r2, h2 := Reader.Edge(b, r, i), Reader.After(b, mem, r, h, i);
            var p2, ph2 := Pack.Edge(b.width, p, j), Pack.After(b.width, p, ph, j);
            && Pack.Legal(b.width, j) && (r.mValid ==> p.Accepts(b.width, j)) && (p.mValid ==> |fifo| < depth)
            && Fed(r2, h2, p2, ph2, if r.busy then base else ph.acc)
            && Room(b, r2, h2, p2, Fifo.Moved(fifo, p.mValid && |fifo| < depth, p.Beat(b.width), read), depth)
  {
    hide Pack.NextSreg, Pack.Conserved, ToCome, WordsOf, Remaining, Fed, Parcel, Pack.Edge, Pack.After;
    hide Reader.Invariant, Reader.Legal, Reader.Edge, Reader.After;
    var j, w := GearInput(b, r, fifo, depth), b.width;
    BeatLegal(b, mem, r, h, j, p, ph, base);
    BytesLeft(b, mem, r, h, i, p, ph, base);
    ToComeStep(w, p, j, Remaining(r, h));
    FedOn(b, mem, r, h, i, p, ph, base, j);
    RoomOn(b, mem, r, h, i, p, ph, base, j);
  }

  /** The beat on show is one that the gears can take. */
  lemma BeatLegal(b: Reader.Bus, mem: seq<Byte>, r: Reader.Registers, h: Reader.History, j: Pack.Input,
                  p: Pack.Registers, ph: Pack.History, base: seq<ByteBeat>)
    requires |mem| == b.Bytes() && Reader.Invariant(b, mem, r, h) && Fed(r, h, p, ph, base) && !h.failed
    requires j.valid == r.mValid && j.s == if r.mValid then r.Beat() else Blank(b.width)
    ensures b.Valid() && Pack.Legal(b.width, j)
  {
    hide Reader.Chunk, Reader.Chain, Reader.Asking, Reader.Getting, Join;
  }

  /** The bytes not shown, before and after. */
  lemma BytesLeft(b: Reader.Bus, mem: seq<Byte>, r: Reader.Registers, h: Reader.History, i: Reader.Input,
                  p: Pack.Registers, ph: Pack.History, base: seq<ByteBeat>)
    requires |mem| == b.Bytes() && Reader.Invariant(b, mem, r, h) && Reader.Legal(b, mem, r, h, i)
    requires Fed(r, h, p, ph, base) && !h.failed && !Reader.After(b, mem, r, h, i).failed
    ensures b.Valid()
    ensures r.mValid ==> r.busy && r.mBytes <= Remaining(r, h) && r.mLast == (r.mBytes == Remaining(r, h))
    ensures Remaining(Reader.Edge(b, r, i), Reader.After(b, mem, r, h, i))
            == if !r.busy then if Reader.Edge(b, r, i).busy then i.len else 0
               else if r.mValid then Remaining(r, h) - r.mBytes else Remaining(r, h)
    ensures !r.busy && Reader.Edge(b, r, i).busy ==> i.request
    ensures !r.busy ==> Remaining(r, h) == 0 && (p.fill == 0 || p.mLast || p.rLast)
  {
    hide Reader.Chunk, Reader.Chain, Reader.Word, Reader.Shifted, Reader.Asking, Reader.Getting, Reader.Showing;
    if r.busy { RemainingStep(b, mem, r, h, i); }
  }

  lemma FedOn(b: Reader.Bus, mem: seq<Byte>, r: Reader.Registers, h: Reader.History, i: Reader.Input,
              p: Pack.Registers, ph: Pack.History, base: seq<ByteBeat>, j: Pack.Input)
    requires |mem| == b.Bytes() && Reader.Invariant(b, mem, r, h) && Reader.Legal(b, mem, r, h, i)
    requires Pack.Invariant(b.width, p, ph) && Fed(r, h, p, ph, base)
    requires !h.failed && !Reader.After(b, mem, r, h, i).failed
    requires j.valid == r.mValid && j.s == if r.mValid then r.Beat() else Blank(b.width)
    requires p.mValid ==> j.mReady
    ensures r.mValid ==> p.Accepts(b.width, j)
    ensures Fed(Reader.Edge(b, r, i), Reader.After(b, mem, r, h, i),
                Pack.Edge(b.width, p, j), Pack.After(b.width, p, ph, j), if r.busy then base else ph.acc)
  {
    hide Reader.Chunk, Reader.Chain, Reader.Word, Reader.Shifted, Join, Parcel, Pack.NextSreg;
    if r.busy && r.mValid && r.mLast && !i.ack { Reader.StopStep(b, mem, r, h, i); }
    if r.busy && i.ack { ComesEarly(b, mem, r, h, i); }
  }

  /** Room at the request is room all the way. */
  lemma RoomOn(b: Reader.Bus, mem: seq<Byte>, r: Reader.Registers, h: Reader.History, i: Reader.Input,
               p: Pack.Registers, ph: Pack.History, base: seq<ByteBeat>, j: Pack.Input)
    requires |mem| == b.Bytes() && Reader.Invariant(b, mem, r, h) && Reader.Legal(b, mem, r, h, i)
    requires Pack.Filled(b.width, p) && Pack.Legal(b.width, j) && Fed(r, h, p, ph, base)
    requires !h.failed && !Reader.After(b, mem, r, h, i).failed
    requires j.valid == r.mValid && j.s == if r.mValid then r.Beat() else Blank(b.width)
    requires r.mValid ==> p.Accepts(b.width, j)
    requires p.mValid ==> j.mReady
    ensures ToCome(b.width, Pack.Edge(b.width, p, j), Remaining(Reader.Edge(b, r, i), Reader.After(b, mem, r, h, i)))
            + (if p.mValid then 1 else 0)
            == ToCome(b.width, p, Remaining(r, h))
               + if !r.busy && Reader.Edge(b, r, i).busy then WordsOf(b.width, i.len) else 0
  {
    hide Reader.Invariant, Reader.Legal, Reader.Edge, Reader.After, Pack.NextSreg, ToCome, WordsOf, Remaining, Fed;
    var w := b.width;
    BytesLeft(b, mem, r, h, i, p, ph, base);
    ToComeStep(w, p, j, Remaining(r, h));
    if !r.busy {
      StillEnded(w, p, j);
      Behind(w, Pack.Edge(w, p, j), Remaining(Reader.Edge(b, r, i), Reader.After(b, mem, r, h, i)));
    }
  }

  /** Between packets the gears hold no more than the end of one. */
  lemma StillEnded(w: nat, p: Pack.Registers, j: Pack.Input)
    requires Pack.Filled(w, p) && !j.valid && (p.mValid ==> j.mReady)
    ensures p.fill == 0 || p.mLast || p.rLast
            ==> var n := Pack.Edge(w, p, j); n.fill == 0 || n.mLast || n.rLast
  {
    hide Pack.NextSreg;
  }

  lemma Behind(w: nat, p: Pack.Registers, n: nat)
    requires w > 0 && (p.fill == 0 || p.mLast || p.rLast)
    ensures ToCome(w, p, n) == ToCome(w, p, 0) + WordsOf(w, n)
  {
  }

  lemma {:induction false} WordsFit(w: nat, n: nat, k: nat)
    requires w > 0 && n <= k * w
    ensures WordsOf(w, n) <= k
    decreases k
  {
    if n > w {
      assert (k - 1) * w == k * w - w;
      WordsFit(w, n - w, k - 1);
    }
  }

  /** A FIFO of two chunks, as the transport layer builds it by default, that is short of half
      full by the two words the gears may still hold, has room for a chunk. */
  lemma ChunkHasRoom(w: nat, p: Pack.Registers, chunk: nat, len: nat, fifo: nat, depth: nat)
    requires Pack.Filled(w, p) && len <= chunk * w && depth == 2 * chunk && fifo + 2 <= chunk
    ensures fifo + ToCome(w, p, 0) + WordsOf(w, len) <= depth
  {
    WordsFit(w, len, chunk);
    WordsFit(w, p.fill, 2);
  }

  function Blank(w: nat): ByteBeat {
    ByteBeat(Nothing(w), 0, false)
  }

  /** While acknowledgements come, the last beat is not on show. */
  lemma ComesEarly(b: Reader.Bus, mem: seq<Byte>, r: Reader.Registers, h: Reader.History, i: Reader.Input)
    requires |mem| == b.Bytes() && Reader.Invariant(b, mem, r, h) && Reader.Legal(b, mem, r, h, i)
    requires r.busy && !h.failed && !Reader.After(b, mem, r, h, i).failed && i.ack
    ensures !(r.mValid && r.mLast)
  {
    hide Reader.Chunk, Reader.Chain, Reader.Word, Reader.Showing;
    Reader.AskStep(b, mem, r, h, i);
    Reader.HeadOfQueue(b, mem, r, h, i);
    LastIsLast(b, mem, r, h);
  }

  lemma LastIsLast(b: Reader.Bus, mem: seq<Byte>, r: Reader.Registers, h: Reader.History)
    requires Reader.Showing(b, mem, r, h)
    ensures r.mValid ==> r.mLast == (h.got == h.len)
  {
  }

  /** What the other stages hand on is what the next one demands. */
  lemma StagesFit(b: Writer.Bus, p: Pack.Registers, ph: Pack.History, c: Cut.Registers, ch: Cut.History, k: nat)
    requires b.width >= 4 && Pack.Invariant(b.width, p, ph) && Cut.Invariant(b.width, Cut.SZ_32B, c, ch)
    ensures k < |ph.out| ==> forall i: Cut.Input :: i.s == ph.out[k] ==> Cut.Legal(b.width, i)
    ensures k < |ch.out| ==> forall i: Pack.Input :: i.s == Turn(b.width, ch.out[k]) ==> Pack.Legal(b.width, i)
    ensures k < |ph.out| ==> forall i: Writer.Input, r, h ::
              i.s == ph.out[k] && i.addr < b.Bytes() && !i.ack ==> Writer.Legal(b, r, h, i)
  {
    hide Parcel;
    Pack.PacketsKept(b.width, p, ph);
    Cut.PacketsKept(b.width, Cut.SZ_32B, c, ch);
  }

  /** All the stages of a loop: the reader, the packing gears behind it, the cutting gears,
      the packing gears of the receive side, and the writer's account. */
  datatype Loop = Loop(
    reader: Reader.Registers, r: Reader.History,
    p: Pack.Registers, ph: Pack.History, c: Cut.Registers, ch: Cut.History,
    q: Pack.Registers, qh: Pack.History, wh: Writer.History)

  /** One transfer of whole 32-bit words has gone all the way. */
  ghost predicate Drained(w: nat, mem: seq<Byte>, l: Loop) {
    && w >= 4 && w % 4 == 0 && l.r.len % 4 == 0
    && Reader.Delivered(mem, l.r) && Fed(l.reader, l.r, l.p, l.ph, [])
    && Pack.Invariant(w, l.p, l.ph) && l.p.fill == 0
    && Cut.Invariant(w, Cut.SZ_32B, l.c, l.ch) && !l.c.mValid && l.ch.acc == l.ph.out
    && Pack.Invariant(w, l.q, l.qh) && l.q.fill == 0 && l.qh.acc == TurnAll(w, l.ch.out)
    && Writer.Copied(l.wh) && l.wh.acc == Join(l.qh.out)
  }

  /** The writer has been handed the bytes of the reader, each group of four back to front. */
  lemma BytesArrive(w: nat, mem: seq<Byte>, l: Loop)
    requires Drained(w, mem, l)
    ensures l.r.start + l.r.len <= |mem|
    ensures l.wh.acc == Reversed(mem[l.r.start..l.r.start + l.r.len]) && |l.wh.acc| == l.r.len
  {
    hide Parcel, Reversed, Quads, Writer.Copied, Packed, TurnAll;
    assert [] + l.r.out == l.r.out;
    OneParcel(l.r.out);
    Pack.PacketsKept(w, l.p, l.ph);
    Cut.PacketsKept(w, Cut.SZ_32B, l.c, l.ch);
    Pack.PacketsKept(w, l.q, l.qh);
    SizedQuads(w, l.ch.out);
    TurnedPacket(w, mem[l.r.start..l.r.start + l.r.len], l.ch.out, l.qh.out);
  }

  lemma SizedQuads(w: nat, bs: seq<ByteBeat>)
    requires w >= 4 && Cut.Sized(w, 4, bs)
    ensures Quads(w, bs)
  {
  }

  /** The whole loop, drained. The source does not copy: sata_transport.v turns the
      bytes of a word around on the receive side only, so each group of four comes
      back reversed. Everything else is exact, for any bus width and alignments. */
  lemma LoopReverses(w: nat, mem: seq<Byte>, l: Loop)
    requires Drained(w, mem, l)
    ensures l.r.start + l.r.len <= |mem|
    ensures forall x :: 0 <= x < |l.wh.mem| ==>
              l.wh.mem[x] == if l.wh.start <= x < l.wh.start + l.r.len
                             then Reversed(mem[l.r.start..l.r.start + l.r.len])[x - l.wh.start] else l.wh.before[x]
  {
    hide Reversed, Drained;
    BytesArrive(w, mem, l);
    WholeDrained(w, mem, l);
  }

  /** A group of four bytes that reads the same both ways. */
  predicate Palindrome(s: seq<Byte>, k: nat)
    requires 4 * k + 3 < |s|
  {
    s[4 * k] == s[4 * k + 3] && s[4 * k + 1] == s[4 * k + 2]
  }

  predicate SameGroup(r: seq<Byte>, s: seq<Byte>, k: nat)
    requires |r| == |s| && 4 * k + 3 < |s|
  {
    r[4 * k] == s[4 * k] && r[4 * k + 1] == s[4 * k + 1] && r[4 * k + 2] == s[4 * k + 2] && r[4 * k + 3] == s[4 * k + 3]
  }

  lemma ReversedGroup(s: seq<Byte>, k: nat)
    requires |s| % 4 == 0 && 4 * k + 3 < |s|
    ensures Palindrome(s, k) <==> SameGroup(Reversed(s), s, k)
  {
    var r := Reversed(s);
    assert r[4 * k] == s[4 * k + 3] && r[4 * k + 1] == s[4 * k + 2];
    assert r[4 * k + 2] == s[4 * k + 1] && r[4 * k + 3] == s[4 * k];
  }

  /** So the loop is a byte-for-byte copy if and only if every group of four bytes
      reads the same both ways. */
  lemma CopiesIff(src: seq<Byte>)
    requires |src| % 4 == 0
    ensures Reversed(src) == src <==> forall k: nat :: 4 * k + 3 < |src| ==> Palindrome(src, k)
  {
    hide Reversed, Palindrome;
    forall k: nat | 4 * k + 3 < |src|
      ensures Palindrome(src, k) <==> SameGroup(Reversed(src), src, k)
    {
      ReversedGroup(src, k);
    }
    if forall k: nat :: 4 * k + 3 < |src| ==> Palindrome(src, k) {
      forall x | 0 <= x < |src| ensures Reversed(src)[x] == src[x] {
        var k: nat, j: nat := x / 4, x % 4;
        assert Palindrome(src, k);
        assert SameGroup(Reversed(src), src, k) && x == 4 * k + j;
      }
    }
  }

  /** For the memories: the destination holds the bytes of the source if and only if every
      group of four of those reads the same both ways. */
  lemma LoopCopiesIff(w: nat, mem: seq<Byte>, l: Loop)
    requires Drained(w, mem, l) && l.r.len > 0
    ensures l.r.start + l.r.len <= |mem| && l.wh.start + l.r.len <= |l.wh.mem|
    ensures var src := mem[l.r.start..l.r.start + l.r.len];
            l.wh.mem[l.wh.start..l.wh.start + l.r.len] == src
            <==> forall k: nat :: 4 * k + 3 < |src| ==> Palindrome(src, k)
  {
    hide Reversed, Palindrome, Drained;
    BytesArrive(w, mem, l);
    WholeDrained(w, mem, l);
    CopiesIff(mem[l.r.start..l.r.start + l.r.len]);
    assert l.wh.mem[l.wh.start..l.wh.start + l.r.len] == l.wh.acc;
  }

  lemma WholeDrained(w: nat, mem: seq<Byte>, l: Loop)
    requires Drained(w, mem, l)
    ensures l.r.len % 4 == 0 && Writer.Copied(l.wh)
  {
  }

  lemma OneBeat(b: ByteBeat)
    requires b.last
    ensures Join([b]) == Payload(b)
  {
    Snoc([], b);
    assert [] + [b] == [b] && [] + Payload(b) == Payload(b);
  }

  /** The gear boxes with nothing in hand. */
  function NoneToPack(w: nat): Pack.Registers {
    Pack.Registers(Nothing(2 * w), 0, false, 0, false, false)
  }

  function NoneToCut(w: nat): Cut.Registers {
    Cut.Registers(Nothing(w), 0, false, 0, false, false, true)
  }

  lemma AllPacked(w: nat, bs: seq<ByteBeat>)
    requires w > 0 && Packed(w, bs) && Parcel(bs).open == []
    ensures Pack.Invariant(w, NoneToPack(w), Pack.History(bs, bs))
  {
    hide Parcel, Packed;
    assert Parcel(bs).open + NoneToPack(w).sreg[..0] == Parcel(bs).open;
  }

  lemma AllCut(bs: seq<ByteBeat>)
    requires Packed(4, bs) && Parcel(bs).open == []
    ensures Cut.Invariant(4, Cut.SZ_32B, NoneToCut(4), Cut.History(bs, bs))
  {
    hide Parcel;
    assert Parcel(bs).open + NoneToCut(4).sreg[..0] == Parcel(bs).open;
  }

  /** A loop that has moved the one beat b of a bus of 32 bits from address 0 to address 0. */
  function OneWordLoop(b: ByteBeat): Loop {
    var t := Turn(4, b);
    Loop(
      Reader.Registers(false, false, false, false, 0, 0, 0, 0, false, 0, 0, 0, 0, 0, false, false, 0, Nothing(4), 0, 0),
      Reader.History(0, 4, 4, 4, [], [b], false),
      NoneToPack(4), Pack.History([b], [b]), NoneToCut(4), Cut.History([b], [b]),
      NoneToPack(4), Pack.History([t], [t]),
      Writer.History(0, Nothing(4), Payload(t), Payload(t), 0, 4, true, false, false))
  }

  lemma OneWordDrained(b: ByteBeat)
    requires b.last && b.bytes == |b.data| == 4
    ensures Drained(4, b.data, OneWordLoop(b))
  {
    hide Parcel, Pack.Invariant, Cut.Invariant, Join, Turn;
    var t := Turn(4, b);
    TurnedBeat(b);
    OneBeat(b);
    OneBeat(t);
    OneParcel([b]);
    OneParcel([t]);
    AllPacked(4, [b]);
    AllPacked(4, [t]);
    AllCut([b]);
    assert TurnAll(4, [b]) == [t] && [] + [b] == [b] && b.data[0..4] == b.data;
  }

  lemma TurnedBeat(b: ByteBeat)
    requires b.bytes == |b.data| == 4
    ensures var t := Turn(4, b); |t.data| == t.bytes == |Payload(t)| == 4 && t.last == b.last
  {
  }

  /** For example, four bytes 1, 2, 3, 4 sent around a loop with a bus of 32 bits: every
      stage is done, and memory holds 4, 3, 2, 1. */
  lemma NotACopy() returns (l: Loop)
    ensures Drained(4, [1, 2, 3, 4], l)
    ensures l.wh.start == 0 && l.wh.before == [0, 0, 0, 0] && l.wh.mem == [4, 3, 2, 1]
  {
    hide Drained;
    var b := ByteBeat([1, 2, 3, 4], 4, true);
    OneWordDrained(b);
    l := OneWordLoop(b);
    assert Payload(Turn(4, b)) == [4, 3, 2, 1];
  }
}
