/** rtl/satadma_rxgears.v: packs the beats of byte packets into full bus words. */
module PackingGears {
  import opened Words
  import opened ByteLanes
  import opened Arithmetic

  datatype Input = Input(valid: bool, s: ByteBeat, mReady: bool)

  datatype Registers = Registers(sreg: seq<Byte>, fill: nat, mValid: bool, mBytes: nat, mLast: bool, rLast: bool) {
    predicate Shaped(w: nat) {
      |sreg| == 2 * w
    }

    predicate Sends(i: Input) {
      mValid && i.mReady
    }

    /** S_READY */
    predicate Ready(w: nat, i: Input) {
      !mLast && !rLast && (!mValid || i.mReady || fill < w)
    }

    predicate Accepts(w: nat, i: Input) {
      i.valid && Ready(w, i)
    }

    function Beat(w: nat): ByteBeat
      requires Shaped(w)
    {
      ByteBeat(sreg[..w], mBytes, mLast)
    }

    /** What is left of fill when the word on show goes out. */
    function Kept(w: nat, i: Input): nat {
      if !Sends(i) then fill else if mLast || fill < w then 0 else fill - w
    }

    function NextFill(w: nat, i: Input): nat {
      Kept(w, i) + if Accepts(w, i) then i.s.bytes else 0
    }
  }

  // ---- The shift register ----

  /** s_data: the lanes in use, the others cleared. */
  function Masked(s: ByteBeat, k: nat): Byte {
    if k < |s.data| && k < s.bytes then s.data[k] else 0
  }

  /** The lane as the word on show leaves it. */
  function KeptLane(w: nat, r: Registers, i: Input, k: nat): Byte
    requires r.Shaped(w)
  {
    var from := if !r.Sends(i) then k else k + w;
    if from < 2 * w then r.sreg[from] else 0
  }

  /** The lane as the accepted beat fills it. */
  function MovedLane(w: nat, r: Registers, i: Input, k: nat): Byte {
    var at := if w == 0 then 0 else r.fill % w;
    if r.Accepts(w, i) && at <= k then Masked(i.s, k - at) else 0
  }

  function ShiftedLane(w: nat, r: Registers, i: Input, k: nat): Byte
    requires r.Shaped(w)
  {
    Or(KeptLane(w, r, i, k), MovedLane(w, r, i, k))
  }

  function NextSreg(w: nat, r: Registers, i: Input): (d: seq<Byte>)
    requires r.Shaped(w)
    ensures |d| == 2 * w
  {
    if r.Sends(i) && r.mLast then Nothing(2 * w)
    else seq(2 * w, k requires 0 <= k => ShiftedLane(w, r, i, k))
  }

  function Edge(w: nat, r: Registers, i: Input): Registers
    requires r.Shaped(w)
  {
    var fill, free, ends := r.NextFill(w, i), !r.mValid || i.mReady, r.Accepts(w, i) && i.s.last;
    Registers(
      NextSreg(w, r, i), fill,
      if free then r.rLast || ends || fill >= w else r.mValid,
      if free then Min(w, fill) else r.mBytes,
      if ends then fill <= w else if r.Sends(i) then r.rLast else r.mLast,
      if ends then fill > w else !r.Sends(i) && r.rLast)
  }

  // ---- What it does to packets ----

  datatype History = History(acc: seq<ByteBeat>, out: seq<ByteBeat>)

  function After(w: nat, r: Registers, h: History, i: Input): History
    requires r.Shaped(w)
  {
    History(Push(h.acc, r.Accepts(w, i), i.s), Push(h.out, r.Sends(i), r.Beat(w)))
  }

  predicate Legal(w: nat, i: Input) {
    |i.s.data| == w && (i.valid ==> 1 <= i.s.bytes <= w)
  }

  /** fill never reaches two words, and a word is shown exactly when one is full or the
      packet is complete. */
  predicate Filled(w: nat, r: Registers) {
    && w > 0 && r.Shaped(w) && r.fill < 2 * w
    && r.mValid == (r.fill >= w || r.mLast || r.rLast)
    && (r.mValid ==> r.mBytes == Min(w, r.fill))
    && (r.mLast ==> 1 <= r.fill <= w && !r.rLast)
    && (r.rLast ==> w < r.fill)
  }

  predicate ZeroFrom(d: seq<Byte>, n: nat) {
    forall k :: n <= k < |d| ==> d[k] == 0
  }

  /** The packets accepted are the packets sent, then the bytes in the register. */
  ghost predicate Conserved(w: nat, r: Registers, h: History)
    requires r.Shaped(w) && r.fill < 2 * w
  {
    && Parcel(h.acc) == Parcel(h.out).Extend(r.sreg[..r.fill], r.mLast || r.rLast)
    && Packed(w, h.out)
  }

  ghost predicate Invariant(w: nat, r: Registers, h: History) {
    Filled(w, r) && ZeroFrom(r.sreg, r.fill) && Conserved(w, r, h)
  }

  lemma FilledStep(w: nat, r: Registers, i: Input)
    requires Filled(w, r) && Legal(w, i)
    ensures Filled(w, Edge(w, r, i))
    ensures r.Accepts(w, i) && r.mValid ==> i.mReady
  {
    hide NextSreg;
  }

  /** The shift register gains the accepted bytes behind those it keeps. */
  lemma SregStep(w: nat, r: Registers, i: Input)
    requires Filled(w, r) && ZeroFrom(r.sreg, r.fill) && Legal(w, i)
    ensures var d := NextSreg(w, r, i);
            && ZeroFrom(d, r.NextFill(w, i)) && r.NextFill(w, i) <= 2 * w
            && d[..r.NextFill(w, i)] == r.sreg[r.fill - r.Kept(w, i)..r.fill]
                                        + if r.Accepts(w, i) then Payload(i.s) else []
  {
    FilledStep(w, r, i);
    if r.Accepts(w, i) { ShiftAmount(w, r, i); }
    hide Edge, NextSreg, Filled;
    SregLanes(w, r, i);
    FillBound(w, r, i);
    Gathered(NextSreg(w, r, i), r.sreg[r.fill - r.Kept(w, i)..r.fill], if r.Accepts(w, i) then Payload(i.s) else []);
  }

  lemma FillBound(w: nat, r: Registers, i: Input)
    requires Filled(w, r) && Legal(w, i)
    ensures r.Kept(w, i) <= r.fill && r.NextFill(w, i) <= 2 * w && r.Kept(w, i) <= r.NextFill(w, i)
  {
  }

  /** A register given lane by lane: its first lanes, the next ones, and zeros. */
  lemma Gathered(d: seq<Byte>, a: seq<Byte>, b: seq<Byte>)
    requires |a| + |b| <= |d|
    requires forall k :: 0 <= k < |d| ==> d[k] == LaneOf(a, b, k)
    ensures d[..|a| + |b|] == a + b && ZeroFrom(d, |a| + |b|)
  {
  }

  function LaneOf(a: seq<Byte>, b: seq<Byte>, k: nat): Byte {
    if k < |a| then a[k] else if k < |a| + |b| then b[k - |a|] else 0
  }

  lemma SregLanes(w: nat, r: Registers, i: Input)
    requires Filled(w, r) && ZeroFrom(r.sreg, r.fill) && Legal(w, i)
    requires r.Accepts(w, i) ==> r.fill % w == r.Kept(w, i)
    ensures r.Kept(w, i) <= r.fill
    ensures var d, kept, more := NextSreg(w, r, i), r.sreg[r.fill - r.Kept(w, i)..r.fill],
                                 if r.Accepts(w, i) then Payload(i.s) else [];
            forall k :: 0 <= k < |d| ==> d[k] == LaneOf(kept, more, k)
  {
    hide NextSreg, LaneOf, ZeroFrom, Payload;
    FillBound(w, r, i);
    forall k: nat | k < 2 * w
      ensures NextSreg(w, r, i)[k] == LaneOf(r.sreg[r.fill - r.Kept(w, i)..r.fill],
                                             if r.Accepts(w, i) then Payload(i.s) else [], k)
    {
      LaneStep(w, r, i, k);
    }
  }

  lemma ShiftAmount(w: nat, r: Registers, i: Input)
    requires Filled(w, r) && r.Accepts(w, i)
    ensures r.fill % w == r.Kept(w, i)
  {
    if r.fill < w {
      DivModUnique(r.fill, 0, r.fill, w);
    } else {
      DivModUnique(r.fill, 1, r.fill - w, w);
    }
  }

  lemma LaneStep(w: nat, r: Registers, i: Input, k: nat)
    requires Filled(w, r) && ZeroFrom(r.sreg, r.fill) && Legal(w, i) && k < 2 * w
    requires r.Accepts(w, i) ==> r.fill % w == r.Kept(w, i)
    ensures r.Kept(w, i) <= r.fill
    ensures NextSreg(w, r, i)[k] == LaneOf(r.sreg[r.fill - r.Kept(w, i)..r.fill],
                                           if r.Accepts(w, i) then Payload(i.s) else [], k)
  {
    hide Or, KeptLane, MovedLane, Masked;
    FillBound(w, r, i);
    KeptStep(w, r, i, k);
    MovedStep(w, r, i, k);
    OrZero(KeptLane(w, r, i, k));
    OrZero(MovedLane(w, r, i, k));
  }

  /** Of the old register only the lanes still owed are left. */
  lemma KeptStep(w: nat, r: Registers, i: Input, k: nat)
    requires Filled(w, r) && ZeroFrom(r.sreg, r.fill) && k < 2 * w
    ensures r.Kept(w, i) <= r.fill
    ensures !(r.Sends(i) && r.mLast)
            ==> KeptLane(w, r, i, k) == if k < r.Kept(w, i) then r.sreg[r.fill - r.Kept(w, i) + k] else 0
    ensures r.Sends(i) && r.mLast ==> r.Kept(w, i) == 0 && !r.Accepts(w, i)
  {
  }

  /** An accepted beat lies right behind them. */
  lemma MovedStep(w: nat, r: Registers, i: Input, k: nat)
    requires w > 0 && Legal(w, i) && (r.Accepts(w, i) ==> r.fill % w == r.Kept(w, i))
    ensures var at := r.Kept(w, i);
            MovedLane(w, r, i, k)
            == if r.Accepts(w, i) && at <= k < at + |Payload(i.s)| then Payload(i.s)[k - at] else 0
  {
  }

  /** The word on show leaves; what stays in the register is what is still owed. */
  lemma SendStep(w: nat, r: Registers, h: History, i: Input)
    requires Filled(w, r) && Conserved(w, r, h) && Legal(w, i)
    ensures var out, kept := Push(h.out, r.Sends(i), r.Beat(w)), r.Kept(w, i);
            && Packed(w, out)
            && Parcel(h.acc) == Parcel(out).Extend(r.sreg[r.fill - kept..r.fill],
                                                   r.rLast || (r.mLast && !r.Sends(i)))
  {
    hide Parcel;
    if r.Sends(i) {
      ParcelSnoc(h.out, r.Beat(w));
      var n := Min(w, r.fill);
      assert Payload(r.Beat(w)) == r.sreg[..n];
      if r.mLast {
        assert r.sreg[r.fill..r.fill] == [] && r.sreg[..r.fill] == r.sreg[..n];
      } else {
        ExtendTwice(Parcel(h.out), r.sreg[..w], r.sreg[w..r.fill], r.rLast);
        assert r.sreg[..w] + r.sreg[w..r.fill] == r.sreg[..r.fill];
      }
    } else {
      assert r.sreg[0..r.fill] == r.sreg[..r.fill];
    }
  }

  lemma ConservedStep(w: nat, r: Registers, h: History, i: Input)
    requires Invariant(w, r, h) && Legal(w, i)
    ensures Filled(w, Edge(w, r, i)) && Conserved(w, Edge(w, r, i), After(w, r, h, i))
  {
    hide Parcel, NextSreg, Packed, ZeroFrom;
    FilledStep(w, r, i);
    SregStep(w, r, i);
    SendStep(w, r, h, i);
    var kept := r.sreg[r.fill - r.Kept(w, i)..r.fill];
    if r.Accepts(w, i) {
      ParcelSnoc(h.acc, i.s);
      ExtendTwice(Parcel(After(w, r, h, i).out), kept, Payload(i.s), i.s.last);
    } else {
      assert kept + [] == kept;
    }
  }

  /** Every clock keeps the invariant, whatever the stalls on either side. */
  lemma InvariantStep(w: nat, r: Registers, h: History, i: Input)
    requires Invariant(w, r, h) && Legal(w, i)
    ensures Invariant(w, Edge(w, r, i), After(w, r, h, i))
  {
    hide Conserved, Filled, ZeroFrom;
    ConservedStep(w, r, h, i);
    SregStep(w, r, i);
  }

  /** Whole packets come out whole: the packets sent are the first of those accepted,
      and once the register is empty they are all of them. */
  lemma PacketsKept(w: nat, r: Registers, h: History)
    requires Invariant(w, r, h)
    ensures Parcel(h.out).done <= Parcel(h.acc).done && Packed(w, h.out)
    ensures r.fill == 0 ==> Parcel(h.out) == Parcel(h.acc)
  {
  }

  /** The words that a finished packet still fills. */
  function Backlog(r: Registers): nat {
    if r.rLast then 2 else if r.mLast then 1 else 0
  }

  /** While the output is taken, a beat on offer waits at most for the last two words of the
      packet before, and every such clock sends one of them. */
  lemma Progress(w: nat, r: Registers, h: History, i: Input)
    requires Invariant(w, r, h) && Legal(w, i) && i.mReady
    ensures Backlog(r) == 0 && i.valid ==> After(w, r, h, i).acc == h.acc + [i.s]
    ensures Backlog(r) > 0 ==> Backlog(Edge(w, r, i)) == Backlog(r) - 1 && |After(w, r, h, i).out| == |h.out| + 1
    ensures r.fill >= w ==> |After(w, r, h, i).out| == |h.out| + 1
  {
    hide NextSreg, Conserved, ZeroFrom;
  }

  class RxGears {
    const w: nat  // BUS_WIDTH / 8
    var sreg: seq<Byte>
    var fill: nat
    var mValid: bool
    var mBytes: nat
    var mLast: bool
    var rLast: bool
    ghost var h: History

    function Regs(): Registers
      reads this
    {
      Registers(sreg, fill, mValid, mBytes, mLast, rLast)
    }

    ghost predicate Valid()
      reads this
    {
      Invariant(w, Regs(), h)
    }

    constructor (w: nat)
      requires w > 0
      ensures Valid() && this.w == w && h == History([], [])
    {
      this.w := w;
      sreg, fill, mValid, mBytes, mLast, rLast := Nothing(2 * w), 0, false, 0, false, false;
      h := History([], []);
    }

    /** s_data: the loop that clears the lanes not in use. */
    method Mask(s: ByteBeat) returns (sData: seq<Byte>)
      requires |s.data| == w
      ensures |sData| == w && forall k :: 0 <= k < w ==> sData[k] == Masked(s, k)
    {
      sData := Nothing(w);
      for ik := 0 to w
        invariant |sData| == w
        invariant forall k :: 0 <= k < w ==> sData[k] == if k < ik then Masked(s, k) else 0
      {
        if ik < s.bytes { sData := sData[ik := s.data[ik]]; }
      }
    }

    /** sreg: shift out the word that leaves, merge the accepted one in. */
    method Shift(r: Registers, i: Input) returns (d: seq<Byte>)
      requires r.Shaped(w) && w > 0 && |i.s.data| == w
      ensures d == NextSreg(w, r, i)
    {
      var sends, accepts, shift := r.Sends(i), r.Accepts(w, i), r.fill % w;
      var sData := Mask(i.s);
      if sends {
        d := if r.mLast then Nothing(2 * w) else r.sreg[w..] + Nothing(w);
      } else {
        d := r.sreg;
      }
      if accepts {
        if !r.mLast {
          var moved := Nothing(shift) + sData + Nothing(w - shift);
          d := seq(2 * w, k requires 0 <= k < 2 * w && |d| == 2 * w => Or(d[k], moved[k]));
        }
      }
    }

    /** One clock: the registers of the specification. */
    method Clock(i: Input)
      requires w > 0 && Regs().Shaped(w) && |i.s.data| == w
      modifies `sreg, `fill, `mValid, `mBytes, `mLast, `rLast
      ensures Regs() == Edge(w, old(Regs()), i)
    {
      hide NextSreg;
      var r := Regs();
      var accepts, sends, nextFill := r.Accepts(w, i), r.Sends(i), r.NextFill(w, i);
      sreg := Shift(r, i);
      fill := nextFill;
      if sends || !mValid {
        mValid := if accepts && i.s.last then true else if rLast then true else nextFill >= w;
        mBytes := Min(w, nextFill);
      }
      if accepts && i.s.last {
        rLast, mLast := nextFill > w, nextFill <= w;
      } else if sends {
        rLast, mLast := false, rLast;
      }
    }

    method Step(i: Input)
      requires Valid() && Legal(w, i)
      modifies this
      ensures Valid()
      ensures Regs() == Edge(w, old(Regs()), i) && h == After(w, old(Regs()), old(h), i)
    {
      hide Edge, After, Conserved;
      InvariantStep(w, Regs(), h, i);
      h := After(w, Regs(), h, i);
      Clock(i);
    }
  }
}
