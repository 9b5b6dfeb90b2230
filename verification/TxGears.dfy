/** rtl/satadma_txgears.v: cuts bus words down to beats of one, two, four or all bytes. */
module UnpackingGears {
  import opened Words
  import opened ByteLanes
  import opened Arithmetic

  datatype Size = SZ_BYTE | SZ_16B | SZ_32B | SZ_BUS {
    /** Bytes a beat, on a bus of w bytes. */
    function Bytes(w: nat): nat {
      match this
      case SZ_BYTE => 1
      case SZ_16B => 2
      case SZ_32B => 4
      case SZ_BUS => w
    }

    /** What bus widths allow: at least 32 bits, and a whole number of beats. */
    predicate Fits(w: nat) {
      w >= 4 && w % Bytes(w) == 0
    }
  }

  datatype Input = Input(valid: bool, s: ByteBeat, mReady: bool)

  datatype Registers = Registers(
    sreg: seq<Byte>, fill: nat, mValid: bool, mBytes: nat, mLast: bool, rLast: bool, rNext: bool)
  {
    predicate Sends(i: Input) {
      mValid && i.mReady
    }

    /** S_READY */
    predicate Ready(i: Input) {
      !mValid || (i.mReady && rNext)
    }

    predicate Accepts(i: Input) {
      i.valid && Ready(i)
    }

    predicate Pending() {
      mLast || rLast
    }

    function Beat(): ByteBeat {
      ByteBeat(sreg, mBytes, mLast)
    }
  }

  // ---- The registers after a clock edge ----

  function NextSreg(w: nat, size: Size, r: Registers, i: Input): seq<Byte> {
    var sz := size.Bytes(w);
    if r.Accepts(i) then i.s.data
    else if !r.Sends(i) then r.sreg
    else if r.mLast || size.SZ_BUS? || sz > |r.sreg| then Nothing(w)
    else r.sreg[sz..] + Nothing(sz)
  }

  /** fill, one bit wider than a lane number. */
  function NextFill(w: nat, size: Size, r: Registers, i: Input): nat {
    var sz := size.Bytes(w);
    if r.Accepts(i) then i.s.bytes
    else if !r.Sends(i) then r.fill
    else if r.mLast || size.SZ_BUS? then 0
    else if r.fill >= sz then r.fill - sz else r.fill + 2 * w - Min(sz, 2 * w)
  }

  predicate NextValid(w: nat, size: Size, r: Registers, i: Input) {
    if r.mValid && !i.mReady then true
    else r.Accepts(i) || (!size.SZ_BUS? && r.fill > size.Bytes(w))
  }

  function NextBytes(w: nat, size: Size, r: Registers, i: Input): nat {
    if r.Accepts(i) then if size.SZ_BYTE? then 1 else Min(size.Bytes(w), i.s.bytes)
    else if r.mValid && !i.mReady then r.mBytes
    else match size
      case SZ_BYTE => 1
      case SZ_16B => if r.fill >= 4 then 2 else if r.fill % 4 == 3 then 1 else 0
      case SZ_32B => if w <= 4 then 0 else if r.fill >= 8 then 4 else if r.fill / 4 % 2 == 1 then r.fill % 4 else 0
      case SZ_BUS => 0
  }

  predicate NextNext(w: nat, size: Size, r: Registers, i: Input) {
    var sz := size.Bytes(w);
    if r.Sends(i) && r.mLast then true
    else if r.Accepts(i) then (size.SZ_BUS? || i.s.bytes <= sz) && !i.s.last
    else if r.Sends(i) then (size.SZ_BUS? || r.fill <= 2 * sz) && !r.rLast
    else r.rNext
  }

  /** The build for a 32-bit bus also updates its flags while nothing is shown. */
  predicate Advances(w: nat, r: Registers, i: Input) {
    if w > 4 then r.Sends(i) else !r.mValid || i.mReady
  }

  predicate NextLast(w: nat, size: Size, r: Registers, i: Input) {
    var sz := size.Bytes(w);
    if r.Accepts(i) then i.s.last && (size.SZ_BUS? || i.s.bytes <= sz)
    else if Advances(w, r, i) then !size.SZ_BUS? && r.rLast && r.fill <= 2 * sz
    else r.mLast
  }

  predicate NextPending(w: nat, size: Size, r: Registers, i: Input) {
    var sz := size.Bytes(w);
    if r.Accepts(i) then i.s.last && !size.SZ_BUS? && i.s.bytes > sz
    else if Advances(w, r, i) then !size.SZ_BUS? && r.rLast && r.fill > 2 * sz
    else r.rLast
  }

  function Edge(w: nat, size: Size, r: Registers, i: Input): Registers {
    Registers(NextSreg(w, size, r, i), NextFill(w, size, r, i), NextValid(w, size, r, i), NextBytes(w, size, r, i),
              NextLast(w, size, r, i), NextPending(w, size, r, i), NextNext(w, size, r, i))
  }

  // ---- What it does to packets ----

  datatype History = History(acc: seq<ByteBeat>, out: seq<ByteBeat>)

  function After(r: Registers, h: History, i: Input): History {
    History(Push(h.acc, r.Accepts(i), i.s), Push(h.out, r.Sends(i), r.Beat()))
  }

  /** The input is packed: only the last beat of a packet may be partial. */
  predicate Legal(w: nat, i: Input) {
    |i.s.data| == w && (i.valid ==> 1 <= i.s.bytes <= w && (!i.s.last ==> i.s.bytes == w))
  }

  /** Every beat but the last of a packet has the full size. */
  predicate Sized(w: nat, sz: nat, bs: seq<ByteBeat>) {
    forall k :: 0 <= k < |bs| ==>
      |bs[k].data| == w && 1 <= bs[k].bytes <= sz && (!bs[k].last ==> bs[k].bytes == sz)
  }

  predicate Filled(w: nat, size: Size, r: Registers) {
    var sz := size.Bytes(w);
    && size.Fits(w) && sz > 0 && |r.sreg| == w
    && (if r.mValid then
          && 1 <= r.fill <= w && r.mBytes == Min(sz, r.fill)
          && r.mLast == (r.Pending() && r.fill <= sz)
          && r.rLast == (r.Pending() && r.fill > sz)
          && (!r.Pending() ==> r.fill % sz == 0)
          && r.rNext == (!r.Pending() && r.fill <= sz)
        else r.fill == 0 && !r.Pending() && r.rNext)
  }

  ghost predicate Conserved(w: nat, size: Size, r: Registers, h: History)
    requires r.fill <= |r.sreg|
  {
    && Parcel(h.acc) == Parcel(h.out).Extend(r.sreg[..r.fill], r.Pending())
    && Sized(w, size.Bytes(w), h.out)
  }

  ghost predicate Invariant(w: nat, size: Size, r: Registers, h: History) {
    Filled(w, size, r) && r.fill <= |r.sreg| && Conserved(w, size, r, h)
  }

  lemma MultipleLess(n: nat, sz: nat)
    requires sz > 0 && n % sz == 0 && n > 0
    ensures n >= sz && (n - sz) % sz == 0
  {
    DivMod(n, sz);
    MulMonotone(1, n / sz, sz);
    assert (n / sz - 1) * sz == n / sz * sz - sz;
    DivModUnique(n - sz, n / sz - 1, 0, sz);
  }

  lemma FilledStep(w: nat, size: Size, r: Registers, i: Input)
    requires Filled(w, size, r) && Legal(w, i)
    ensures Filled(w, size, Edge(w, size, r, i))
    ensures r.mValid && !r.Pending() ==> r.mBytes == size.Bytes(w)
  {
    var sz := size.Bytes(w);
    if r.mValid && !r.Pending() { MultipleLess(r.fill, sz); }
  }

  /** The beat on show leaves. */
  lemma SendStep(w: nat, size: Size, r: Registers, h: History, i: Input)
    requires Invariant(w, size, r, h) && Legal(w, i)
    ensures var out := Push(h.out, r.Sends(i), r.Beat());
            var kept := if r.Sends(i) then r.sreg[Min(size.Bytes(w), r.fill)..r.fill] else r.sreg[..r.fill];
            && Sized(w, size.Bytes(w), out)
            && Parcel(h.acc) == Parcel(out).Extend(kept, r.rLast || (r.mLast && !r.Sends(i)))
  {
    hide Parcel;
    FilledStep(w, size, r, i);
    if r.Sends(i) {
      ParcelSnoc(h.out, r.Beat());
      var n := Min(size.Bytes(w), r.fill);
      assert Payload(r.Beat()) == r.sreg[..n];
      if r.mLast {
        assert r.sreg[..r.fill] == r.sreg[..n] && r.sreg[n..r.fill] == [];
      } else {
        ExtendTwice(Parcel(h.out), r.sreg[..n], r.sreg[n..r.fill], r.rLast);
        assert r.sreg[..n] + r.sreg[n..r.fill] == r.sreg[..r.fill];
      }
    }
  }

  /** A beat is taken only when nothing else is left in the register. */
  lemma AcceptsWhenEmpty(w: nat, size: Size, r: Registers, i: Input)
    requires Filled(w, size, r) && r.Accepts(i)
    ensures !r.Pending() && r.fill <= size.Bytes(w) && (r.mValid ==> r.Sends(i))
  {
  }

  lemma SregStep(w: nat, size: Size, r: Registers, i: Input)
    requires Filled(w, size, r) && Legal(w, i)
    ensures var d, n, sz := NextSreg(w, size, r, i), NextFill(w, size, r, i), size.Bytes(w);
            && |d| == w && n <= w
            && d[..n] == if r.Accepts(i) then Payload(i.s)
                         else if r.Sends(i) then r.sreg[Min(sz, r.fill)..r.fill] else r.sreg[..r.fill]
  {
    FilledStep(w, size, r, i);
    var sz := size.Bytes(w);
    if !r.Accepts(i) && r.Sends(i) && r.fill > sz {
      assert !r.mLast;
      assert !size.SZ_BUS?;
      assert sz <= |r.sreg|;
      Slid(r.sreg, sz, r.fill);
    }
  }

  lemma Slid(s: seq<Byte>, sz: nat, fill: nat)
    requires sz <= fill <= |s|
    ensures (s[sz..] + Nothing(sz))[..fill - sz] == s[sz..fill]
  {
  }

  lemma ConservedStep(w: nat, size: Size, r: Registers, h: History, i: Input)
    requires Invariant(w, size, r, h) && Legal(w, i)
    ensures Invariant(w, size, Edge(w, size, r, i), After(r, h, i))
  {
    hide Parcel, NextSreg, NextFill, Sized, Filled;
    FilledStep(w, size, r, i);
    SregStep(w, size, r, i);
    SendStep(w, size, r, h, i);
    FlagsStep(w, size, r, i);
    if r.Accepts(i) {
      AcceptsWhenEmpty(w, size, r, i);
      NothingKept(w, size, r, i);
      ParcelSnoc(h.acc, i.s);
      ExtendTwice(Parcel(After(r, h, i).out), [], Payload(i.s), i.s.last);
      assert [] + Payload(i.s) == Payload(i.s);
    }
  }

  lemma NothingKept(w: nat, size: Size, r: Registers, i: Input)
    requires Filled(w, size, r) && r.Accepts(i)
    ensures (if r.Sends(i) then r.sreg[Min(size.Bytes(w), r.fill)..r.fill] else r.sreg[..r.fill]) == []
  {
  }

  lemma FlagsStep(w: nat, size: Size, r: Registers, i: Input)
    requires Filled(w, size, r) && Legal(w, i)
    ensures Edge(w, size, r, i).Pending()
         == if r.Accepts(i) then i.s.last else r.rLast || (r.mLast && !r.Sends(i))
  {
  }

  /** Whole packets come out whole, cut to size. */
  lemma PacketsKept(w: nat, size: Size, r: Registers, h: History)
    requires Invariant(w, size, r, h)
    ensures Parcel(h.out).done <= Parcel(h.acc).done && Sized(w, size.Bytes(w), h.out)
    ensures !r.mValid ==> Parcel(h.out) == Parcel(h.acc)
  {
  }

  /** While the output is taken, every clock sends a beat of what is in the register, and takes
      the next word with the last of it, unless that ends a packet. */
  lemma Progress(w: nat, size: Size, r: Registers, h: History, i: Input)
    requires Invariant(w, size, r, h) && Legal(w, i) && i.mReady
    ensures r.fill > 0 ==> |After(r, h, i).out| == |h.out| + 1
    ensures i.valid && (r.fill == 0 || (r.fill <= size.Bytes(w) && !r.mLast)) ==> After(r, h, i).acc == h.acc + [i.s]
    ensures After(r, h, i).acc == h.acc
            ==> NextFill(w, size, r, i) == if r.fill <= size.Bytes(w) then 0 else r.fill - size.Bytes(w)
  {
    hide NextSreg, Conserved;
  }

  class TxGears {
    const w: nat  // BUS_WIDTH / 8
    const size: Size
    var sreg: seq<Byte>
    var fill: nat
    var mValid: bool
    var mBytes: nat
    var mLast: bool
    var rLast: bool
    var rNext: bool
    ghost var h: History

    function Regs(): Registers
      reads this
    {
      Registers(sreg, fill, mValid, mBytes, mLast, rLast, rNext)
    }

    ghost predicate Valid()
      reads this
    {
      Invariant(w, size, Regs(), h)
    }

    constructor (w: nat, size: Size)
      requires size.Fits(w)
      ensures Valid() && this.w == w && this.size == size && h == History([], [])
    {
      this.w, this.size := w, size;
      sreg, fill, mValid, mBytes, mLast, rLast, rNext := Nothing(w), 0, false, 0, false, false, true;
      h := History([], []);
    }

    /** sreg and fill. */
    method ClockData(r: Registers, i: Input)
      requires size.Fits(w) && |r.sreg| == w && sreg == r.sreg && fill == r.fill
      modifies `sreg, `fill
      ensures sreg == NextSreg(w, size, r, i) && fill == NextFill(w, size, r, i)
    {
      var sz, accepts, sends := size.Bytes(w), r.Accepts(i), r.Sends(i);
      if accepts {
        sreg, fill := i.s.data, i.s.bytes;
      } else if sends {
        if r.mLast {
          sreg, fill := Nothing(w), 0;
        } else if size.SZ_BUS? {
          sreg, fill := Nothing(w), 0;
        } else {
          sreg := r.sreg[sz..] + Nothing(sz);
          fill := if r.fill >= sz then r.fill - sz else r.fill + 2 * w - sz;
        }
      }
    }

    /** One clock: the registers of the specification, all blocks sampling the same edge. */
    method Clock(i: Input)
      requires size.Fits(w) && |sreg| == w
      modifies `sreg, `fill, `mValid, `mBytes, `mLast, `rLast, `rNext
      ensures Regs() == Edge(w, size, old(Regs()), i)
    {
      hide NextSreg, NextFill, NextBytes, NextValid, NextLast, NextPending;
      var r := Regs();
      var accepts, sends, sz := r.Accepts(i), r.Sends(i), size.Bytes(w);
      ClockData(r, i);
      mValid, mBytes := NextValid(w, size, r, i), NextBytes(w, size, r, i);
      mLast, rLast := NextLast(w, size, r, i), NextPending(w, size, r, i);
      if sends && r.mLast {
        rNext := true;
      } else if accepts {
        rNext := if size.SZ_BUS? then true else i.s.bytes <= sz;
        if i.s.last { rNext := false; }
      } else if sends {
        rNext := if size.SZ_BUS? then true else r.fill <= 2 * sz;
        if r.rLast { rNext := false; }
      }
    }

    method Step(i: Input)
      requires Valid() && Legal(w, i)
      modifies this
      ensures Valid()
      ensures Regs() == Edge(w, size, old(Regs()), i) && h == After(old(Regs()), old(h), i)
    {
      hide Edge, After, Conserved;
      ConservedStep(w, size, Regs(), h, i);
      h := After(Regs(), h, i);
      Clock(i);
    }
  }
}
