/** The Gray code of the pointers in rtl/sata_afifo.v. */
module GrayCode {
  import opened Words

  /** n ^ (n >> 1) on w bits, top bit first. */
  function Gray(w: nat, n: nat): (g: seq<bool>)
    ensures |g| == w
  {
    if w == 0 then [] else Gray(w - 1, n / 2) + [(n % 2 == 1) != (n / 2 % 2 == 1)]
  }

  lemma {:induction false} GrayInjective(w: nat, a: nat, b: nat)
    requires a < Pow2(w) && b < Pow2(w) && Gray(w, a) == Gray(w, b)
    ensures a == b
  {
    if w > 0 {
      var x, y := Gray(w, a), Gray(w, b);
      assert x[..w - 1] == Gray(w - 1, a / 2) && y[..w - 1] == Gray(w - 1, b / 2);
      GrayInjective(w - 1, a / 2, b / 2);
      assert x[w - 1] == y[w - 1];
    }
  }

  function Next(w: nat, n: nat): nat {
    if n + 1 == Pow2(w) then 0 else n + 1
  }

  /** Two codes that differ in exactly the bit j. */
  predicate DifferAt(a: seq<bool>, b: seq<bool>, j: nat) {
    |a| == |b| && j < |a| && a[j] != b[j] && forall k :: 0 <= k < |a| && k != j ==> a[k] == b[k]
  }

  /** Consecutive codes, the wrap included, differ in exactly one bit. */
  lemma {:induction false} OneBitApart(w: nat, n: nat) returns (j: nat)
    requires w >= 1 && n < Pow2(w)
    ensures DifferAt(Gray(w, n), Gray(w, Next(w, n)), j)
  {
    var m := Next(w, n);
    var a, b := Gray(w - 1, n / 2), Gray(w - 1, m / 2);
    if n % 2 == 0 {
      j := w - 1;
      assert m / 2 == n / 2;
    } else if w == 1 {
      j := 0;
    } else {
      NextHalves(w, n);
      j := OneBitApart(w - 1, n / 2);
    }
  }

  /** Behind an odd number, the halves move on too, and the last bit of the code stays. */
  lemma NextHalves(w: nat, n: nat)
    requires w >= 2 && n < Pow2(w) && n % 2 == 1
    ensures var m := Next(w, n);
            n / 2 < Pow2(w - 1) && m / 2 == Next(w - 1, n / 2) && m % 2 == 0 && m / 2 % 2 != n / 2 % 2
  {
    var k := n / 2;
    assert n == 2 * k + 1 && Pow2(w) == 2 * Pow2(w - 1) && Pow2(w - 1) == 2 * Pow2(w - 2);
    if n + 1 != Pow2(w) { Halves(n + 1, k + 1, 0); }
  }

  /** A sample taken while the pointer moves: each bit is the old one or the new one. */
  predicate Mix(old_: seq<bool>, new_: seq<bool>, s: seq<bool>) {
    |old_| == |new_| == |s| && forall k :: 0 <= k < |s| ==> s[k] == old_[k] || s[k] == new_[k]
  }

  /** So a synchronizer catches the old pointer or the new one, never a third. */
  lemma MixIsOldOrNew(w: nat, n: nat, s: seq<bool>)
    requires w >= 1 && n < Pow2(w) && Mix(Gray(w, n), Gray(w, Next(w, n)), s)
    ensures s == Gray(w, n) || s == Gray(w, Next(w, n))
  {
    var j := OneBitApart(w, n);
    var a, b := Gray(w, n), Gray(w, Next(w, n));
    if s[j] == a[j] { assert s == a; } else { assert s == b; }
  }

  function InvertTop(g: seq<bool>): seq<bool>
    requires |g| >= 2
  {
    [!g[0], !g[1]] + g[2..]
  }

  function Opposite(h: nat, n: nat): nat {
    if n < h then n + h else n - h
  }

  lemma Halves(n: nat, k: nat, r: nat)
    requires n == 2 * k + r && r < 2
    ensures n / 2 == k && n % 2 == r
  {
  }

  lemma OppositeHalves(q: nat, n: nat)
    requires n < 4 * q
    ensures var m := Opposite(2 * q, n);
            m < 4 * q && m % 2 == n % 2 && m / 2 == Opposite(q, n / 2)
  {
    var k, r := n / 2, n % 2;
    Halves(Opposite(2 * q, n), Opposite(q, k), r);
  }

  lemma OppositeParity(p: nat, k: nat)
    requires k < 4 * p
    ensures Opposite(2 * p, k) % 2 == k % 2
  {
    Halves(Opposite(2 * p, k), if k < 2 * p then k / 2 + p else k / 2 - p, k % 2);
  }

  /** Inverting the top two bits moves a pointer half way around. */
  lemma {:induction false} HalfWay(w: nat, n: nat)
    requires w >= 2 && n < Pow2(w)
    ensures Opposite(Pow2(w - 1), n) < Pow2(w)
    ensures Gray(w, Opposite(Pow2(w - 1), n)) == InvertTop(Gray(w, n))
  {
    var m := Opposite(Pow2(w - 1), n);
    OppositeHalves(Pow2(w - 2), n);
    if w == 2 {
      assert Pow2(1) == 2 * Pow2(0);
      GrayOfTwo(n);
      GrayOfTwo(m);
    } else {
      HalfWay(w - 1, n / 2);
      OppositeParity(Pow2(w - 3), n / 2);
      InvertTopSnoc(Gray(w - 1, n / 2), (n % 2 == 1) != (n / 2 % 2 == 1));
    }
  }

  lemma InvertTopSnoc(g: seq<bool>, x: bool)
    requires |g| >= 2
    ensures InvertTop(g + [x]) == InvertTop(g) + [x]
  {
  }

  lemma GrayOfTwo(n: nat)
    requires n < 4
    ensures Gray(2, n) == [n / 2 % 2 == 1, (n % 2 == 1) != (n / 2 % 2 == 1)]
  {
    assert Gray(0, n / 2 / 2) == [];
    assert Gray(1, n / 2) == Gray(0, n / 2 / 2) + [(n / 2 % 2 == 1) != (n / 2 / 2 % 2 == 1)];
    assert n / 2 / 2 == 0;
  }
}
/** rtl/sata_afifo.v */
module AsyncFifo {
  import opened Words
  import opened Arithmetic
  import opened GrayCode
  import opened Ring

  /** How often each side has moved, and what each has seen of the other, oldest first.
      Counts do not wrap; the registers hold them modulo twice the depth. */
  datatype Counts = Counts(
    wr: nat, rd: nat,
    wrOld: nat, rdOld: nat,          // before the latest edge of their own clock
    rdSeen: seq<nat>, wrSeen: seq<nat>)  // through the synchronizers

  ghost predicate Rising(s: seq<nat>, lo: nat, hi: nat) {
    && (forall k :: 0 <= k < |s| ==> lo <= s[k] <= hi)
    && (forall j, k :: 0 <= j < k < |s| ==> s[j] <= s[k])
  }

  /** Neither side ever sees more than the other has done, nor goes back on it. */
  ghost predicate Ordered(depth: nat, g: Counts) {
    && g.rdSeen != [] && g.wrSeen != []
    && Rising(g.rdSeen, 0, g.rdOld) && Rising(g.wrSeen, g.rd, g.wrOld)
    && g.rdOld <= g.rd <= g.rdOld + 1 && g.wrOld <= g.wr <= g.wrOld + 1
    && g.wr <= g.rdSeen[0] + depth
  }

  function GrayOf(lg: nat, n: nat): (g: seq<bool>)
    ensures |g| == lg + 1
  {
    Gray(lg + 1, Slot(Pow2(lg + 1), n))
  }

  lemma CodeNext(lg: nat, n: nat)
    ensures Slot(Pow2(lg + 1), n + 1) == Next(lg + 1, Slot(Pow2(lg + 1), n))
  {
    hide Slot, Pow2;
    SlotNext(Pow2(lg + 1), n);
  }

  /** What a synchronizer can catch. */
  lemma Sampled(lg: nat, before: nat, now: nat, s: seq<bool>)
    requires before <= now <= before + 1 && Mix(GrayOf(lg, before), GrayOf(lg, now), s)
    ensures s == GrayOf(lg, before) || s == GrayOf(lg, now)
  {
    hide Slot;
    CodeNext(lg, before);
    if before < now { MixIsOldOrNew(lg + 1, Slot(Pow2(lg + 1), before), s); }
  }

  lemma CodeInjective(lg: nat, a: nat, b: nat)
    requires a <= b < a + Pow2(lg + 1)
    ensures GrayOf(lg, a) == GrayOf(lg, b) <==> a == b
  {
    hide Slot, Gray;
    var m := Pow2(lg + 1);
    SlotsApart(m, a, b);
    if GrayOf(lg, a) == GrayOf(lg, b) { GrayInjective(lg + 1, Slot(m, a), Slot(m, b)); }
  }

  lemma SlotOpposite(d: nat, n: nat)
    requires d > 0
    ensures Slot(2 * d, n + d) == Opposite(d, Slot(2 * d, n))
  {
    hide Slot;
    var q := SlotParts(2 * d, n);
    var r := Slot(2 * d, n);
    if r < d {
      SlotIs(2 * d, n + d, q, r + d);
    } else {
      assert (q + 1) * (2 * d) == q * (2 * d) + 2 * d;
      SlotIs(2 * d, n + d, q + 1, r - d);
    }
  }

  /** Inverting the top two bits of a code gives that of the count one depth away. */
  lemma OppositeCode(lg: nat, n: nat)
    requires lg >= 1
    ensures InvertTop(GrayOf(lg, n)) == GrayOf(lg, n + Pow2(lg))
  {
    hide Gray, InvertTop, Slot;
    HalfWay(lg + 1, Slot(Pow2(lg + 1), n));
    SlotOpposite(Pow2(lg), n);
  }

  /** o_wr_full is exact against the read count last seen. */
  lemma FullExact(lg: nat, seen: nat, wr: nat)
    requires lg >= 1 && seen <= wr <= seen + Pow2(lg)
    ensures GrayOf(lg, seen) == InvertTop(GrayOf(lg, wr)) <==> wr == seen + Pow2(lg)
  {
    hide Gray, InvertTop, Slot;
    OppositeCode(lg, wr);
    if wr == seen + Pow2(lg) {
      SlotAgain(Pow2(lg + 1), seen);
    } else {
      CodeInjective(lg, seen, wr + Pow2(lg));
    }
  }

  // ---- Steps of the counts ----

  ghost function Shift(seen: seq<nat>, n: nat): seq<nat>
    requires seen != []
  {
    seen[1..] + [n]
  }

  lemma RisingShift(s: seq<nat>, lo: nat, hi: nat, n: nat)
    requires s != [] && Rising(s, lo, hi) && hi <= n
    ensures Rising(Shift(s, n), lo, n)
    ensures s[0] <= Shift(s, n)[0]
  {
    var t := Shift(s, n);
    assert lo <= s[0] <= hi;
    forall k | 0 <= k < |t| ensures lo <= t[k] <= n && s[0] <= t[k] {
      assert t[k] == if k + 1 < |s| then s[k + 1] else n;
    }
    forall j, k | 0 <= j < k < |t| ensures t[j] <= t[k] {
      assert t[j] == s[j + 1];
      assert t[k] == if k + 1 < |s| then s[k + 1] else n;
    }
  }

  /** In `k` more looks the other side will have seen `n`: whatever is older than that in the
      synchronizer, and the count itself, have come that far. */
  ghost predicate SeenIn(seen: seq<nat>, before: nat, now: nat, n: nat, k: nat) {
    && n <= now && (k <= |seen| ==> n <= before)
    && forall j :: k <= j < |seen| ==> n <= seen[j]
  }

  function Less(k: nat): nat {
    if k > 0 then k - 1 else 0
  }

  /** A look brings it closer by one; a move of the count itself changes nothing. */
  lemma SeenStep(seen: seq<nat>, before: nat, now: nat, caught: nat, n: nat, k: nat)
    requires seen != [] && before <= now && (caught == before || caught == now) && SeenIn(seen, before, now, n, k)
    ensures SeenIn(Shift(seen, caught), now, now, n, Less(k))
    ensures forall later: nat :: now <= later ==> SeenIn(seen, now, later, n, k)
  {
    var t := Shift(seen, caught);
    forall j | Less(k) <= j < |t| ensures n <= t[j] {
      assert t[j] == if j + 1 < |seen| then seen[j + 1] else caught;
    }
  }

  /** An edge of the write clock: perhaps a write, and one more look at the read count. */
  ghost function WriteEdge(g: Counts, moves: bool, caught: nat): Counts
    requires g.rdSeen != []
  {
    g.(wr := if moves then g.wr + 1 else g.wr, wrOld := g.wr, rdOld := g.rd, rdSeen := Shift(g.rdSeen, caught))
  }

  ghost function ReadEdge(g: Counts, moves: bool, caught: nat): Counts
    requires g.wrSeen != []
  {
    g.(rd := if moves then g.rd + 1 else g.rd, rdOld := g.rd, wrOld := g.wr, wrSeen := Shift(g.wrSeen, caught))
  }

  lemma OrderedBounds(depth: nat, g: Counts)
    requires Ordered(depth, g)
    ensures g.rdSeen[0] <= g.rd <= g.wrSeen[0] <= g.wr <= g.rdSeen[0] + depth
  {
  }

  lemma WriteOrdered(depth: nat, g: Counts, moves: bool, caught: nat)
    requires Ordered(depth, g) && (caught == g.rdOld || caught == g.rd)
    requires moves ==> g.wr != g.rdSeen[0] + depth
    ensures Ordered(depth, WriteEdge(g, moves, caught))
  {
    RisingShift(g.rdSeen, 0, g.rdOld, caught);
  }

  lemma ReadOrdered(depth: nat, g: Counts, moves: bool, caught: nat)
    requires Ordered(depth, g) && (caught == g.wrOld || caught == g.wr)
    requires moves ==> g.wrSeen[0] != g.rd
    ensures Ordered(depth, ReadEdge(g, moves, caught))
  {
    RisingShift(g.wrSeen, g.rd, g.wrOld, caught);
  }

  // ---- The memory ----

  /** The value of a count in an address register. */
  function AddrOf(lg: nat, n: nat): nat {
    Slot(Pow2(lg + 1), n)
  }

  /** What has been handed out is what was written first; a registered build holds one
      more word ready. */
  ghost predicate Shown<T>(ready: bool, word: T, rd: nat, written: seq<T>, delivered: seq<T>) {
    && delivered <= written
    && (if ready then |delivered| < |written| && rd == |delivered| + 1 && word == written[|delivered|]
        else rd == |delivered|)
  }

  class Afifo<T> {
    const lgfifo: nat
    const nff: nat
    const registerReads: bool  // OPT_REGISTER_READS
    const mem: array<T>
    var wrAddr: nat
    var rdAddr: nat
    var wgray: seq<bool>
    var rgray: seq<bool>
    var wrRgray: seq<seq<bool>>  // { wr_rgray, rgray_cross }, the oldest first
    var rdWgray: seq<seq<bool>>
    var regEmpty: bool           // o_rd_empty and o_rd_data of the registered build
    var regData: T
    ghost var g: Counts
    ghost var written: seq<T>
    ghost var delivered: seq<T>

    function Depth(): nat {
      Pow2(lgfifo)
    }

    predicate Full()
      requires wrRgray != [] && |wgray| >= 2
      reads this
    {
      wrRgray[0] == InvertTop(wgray)
    }

    predicate LclEmpty()
      requires rdWgray != []
      reads this
    {
      rdWgray[0] == rgray
    }

    /** o_rd_empty */
    predicate Empty()
      requires rdWgray != []
      reads this
    {
      if registerReads then regEmpty else LclEmpty()
    }

    /** o_rd_data */
    function Data(): T
      requires mem.Length > 0
      reads this, mem
    {
      if registerReads then regData else mem[Slot(mem.Length, rdAddr)]
    }

    /** The registers are the counts in Gray code. */
    ghost predicate Coded()
      reads this
    {
      && wrAddr == AddrOf(lgfifo, g.wr) && rdAddr == AddrOf(lgfifo, g.rd)
      && wgray == GrayOf(lgfifo, g.wr) && rgray == GrayOf(lgfifo, g.rd)
      && Codes(lgfifo, wrRgray, g.rdSeen) && Codes(lgfifo, rdWgray, g.wrSeen)
    }

    ghost predicate Valid()
      reads this, mem
    {
      && lgfifo >= 2 && nff >= 2 && |g.rdSeen| == |g.wrSeen| == nff
      && mem.Length == Depth() > 0 && Coded() && Ordered(Depth(), g)
      && g.wr == |written| && Stored(mem[..], Depth(), g.rd, written)
      && Shown(registerReads && !regEmpty, regData, g.rd, written, delivered)
    }

    /** The abstract queue. */
    ghost function Queue(): seq<T>
      requires |delivered| <= |written|
      reads this
    {
      written[|delivered|..]
    }

    constructor (lgfifo: nat, nff: nat, registerReads: bool, init: T)
      requires lgfifo >= 2 && nff >= 2
      ensures Valid() && written == [] && delivered == [] && fresh(mem)
      ensures this.lgfifo == lgfifo && this.nff == nff && this.registerReads == registerReads
    {
      this.lgfifo, this.nff, this.registerReads := lgfifo, nff, registerReads;
      mem := new T[Pow2(lgfifo)](_ => init);
      wrAddr, rdAddr, regEmpty, regData := 0, 0, true, init;
      wgray, rgray := GrayOf(lgfifo, 0), GrayOf(lgfifo, 0);
      wrRgray, rdWgray := seq(nff, _ => GrayOf(lgfifo, 0)), seq(nff, _ => GrayOf(lgfifo, 0));
      g := Counts(0, 0, 0, 0, seq(nff, _ => 0), seq(nff, _ => 0));
      written, delivered := [], [];
      DivModUnique(0, 0, 0, Pow2(lgfifo + 1));
    }

    /** The queue never outgrows the memory, but for the word a registered build holds
        ready; the FIFO says full only when the reader, as last seen, is a whole memory
        behind, and empty only when it has caught up with the writer as last seen. */
    lemma Bounded()
      requires Valid()
      ensures |Queue()| <= Depth() + if registerReads then 1 else 0
      ensures Full() <==> g.wr == g.rdSeen[0] + Depth()
      ensures LclEmpty() <==> g.wrSeen[0] == g.rd
      ensures !Empty() ==> Queue() != []
    {
      hide GrayOf, InvertTop, Stored;
      OrderedBounds(Depth(), g);
      FullExact(lgfifo, g.rdSeen[0], g.wr);
      CodeInjective(lgfifo, g.rd, g.wrSeen[0]);
    }

    /** After k more edges of the read clock the reader will have seen n words written. */
    ghost predicate Shows(n: nat, k: nat)
      reads `g
    {
      SeenIn(g.wrSeen, g.wrOld, g.wr, n, k)
    }

    /** After k more edges of the write clock the writer will have seen n words read. */
    ghost predicate Frees(n: nat, k: nat)
      reads `g
    {
      SeenIn(g.rdSeen, g.rdOld, g.rd, n, k)
    }

    /** What has been written and read is seen within the length of a synchronizer and one. */
    lemma SeenInTime()
      requires Valid()
      ensures Shows(|written|, nff + 1) && Frees(|delivered|, nff + 1)
    {
      hide Coded, Stored;
    }

    /** By then the FIFO is not empty before those words have been read, in the build without a
        read register, and not full before a whole memory has been written behind those. */
    lemma InTime(n: nat)
      requires Valid()
      ensures Shows(n, 0) && !registerReads && |delivered| < n ==> !Empty()
      ensures Frees(n, 0) && |written| < n + Depth() ==> !Full()
    {
      hide GrayOf, InvertTop, Stored;
      Bounded();
    }

    /** An edge of the read clock brings what has been written closer, and leaves the rest. */
    lemma ReadLooks(moves: bool, caught: nat)
      requires Valid() && (caught == g.wrOld || caught == g.wr)
      ensures var e := ReadEdge(g, moves, caught);
              && (forall n: nat, k: nat :: Shows(n, k) ==> SeenIn(e.wrSeen, e.wrOld, e.wr, n, Less(k)))
              && (forall n: nat, k: nat :: Frees(n, k) ==> SeenIn(e.rdSeen, e.rdOld, e.rd, n, k))
    {
      hide Coded, Stored, Shift, SeenIn, Less;
      var e := ReadEdge(g, moves, caught);
      forall n: nat, k: nat | Shows(n, k) ensures SeenIn(e.wrSeen, e.wrOld, e.wr, n, Less(k)) {
        SeenStep(g.wrSeen, g.wrOld, g.wr, caught, n, k);
      }
      forall n: nat, k: nat | Frees(n, k) ensures SeenIn(e.rdSeen, e.rdOld, e.rd, n, k) {
        SeenStep(g.rdSeen, g.rdOld, g.rd, g.rd, n, k);
      }
    }

    lemma WriteLooks(moves: bool, caught: nat)
      requires Valid() && (caught == g.rdOld || caught == g.rd)
      ensures var e := WriteEdge(g, moves, caught);
              && (forall n: nat, k: nat :: Frees(n, k) ==> SeenIn(e.rdSeen, e.rdOld, e.rd, n, Less(k)))
              && (forall n: nat, k: nat :: Shows(n, k) ==> SeenIn(e.wrSeen, e.wrOld, e.wr, n, k))
    {
      hide Coded, Stored, Shift, SeenIn, Less;
      var e := WriteEdge(g, moves, caught);
      forall n: nat, k: nat | Frees(n, k) ensures SeenIn(e.rdSeen, e.rdOld, e.rd, n, Less(k)) {
        SeenStep(g.rdSeen, g.rdOld, g.rd, caught, n, k);
      }
      forall n: nat, k: nat | Shows(n, k) ensures SeenIn(e.wrSeen, e.wrOld, e.wr, n, k) {
        SeenStep(g.wrSeen, g.wrOld, g.wr, g.wr, n, k);
      }
    }

    /** A build with a read register fetches what it sees. */
    lemma Fetches(rd: bool, n: nat)
      requires Valid() && registerReads && Shows(n, 0)
      ensures |delivered| + (if rd && !regEmpty then 1 else 0) < n
              ==> !(if LclRead(rd) then LclEmpty() else regEmpty)
    {
      hide GrayOf, InvertTop, Stored;
      Bounded();
    }

    /** One edge of the write clock. The sample is what the synchronizer makes of a read
        pointer that may be moving. A write is accepted unless the FIFO says full. */
    method WriteClock(wr: bool, data: T, sample: seq<bool>)
      requires Valid() && Mix(GrayOf(lgfifo, g.rdOld), rgray, sample)
      modifies this, mem
      ensures Valid()
      ensures written == Push(old(written), wr && !old(Full()), data) && delivered == old(delivered)
      ensures forall n: nat, k: nat :: old(Frees(n, k)) ==> Frees(n, Less(k))
      ensures forall n: nat, k: nat :: old(Shows(n, k)) ==> Shows(n, k)
    {
      hide SeenIn, Less;
      hide GrayOf, InvertTop, Ordered, Stored, Shown, NextAddr, Slot, AddrOf, Pow2, Rising, Mix;
      ghost var caught, full := Caught(lgfifo, g.rdOld, g.rd, sample), Full();
      WriteStep(lgfifo, g, wr, sample);
      WriteLooks(Both(wr, !full), caught);
      AddrNext(lgfifo, g.wr);
      AddrNext(lgfifo, g.wr + 1);
      CodesShift(lgfifo, wrRgray, g.rdSeen, sample, caught);
      if !full { StoreStep(mem[..], Depth(), g.rd, written, data); }
      WriteShown(registerReads && !regEmpty, regData, g.rd, written, delivered, data);
      ClockWriter(Both(wr, !Full()), data, sample);
      g := WriteEdge(g, Both(wr, !full), caught);
      written := Push(written, Both(wr, !full), data);
    }

    /** lcl_read: a registered build fetches ahead whenever its output is free. */
    predicate LclRead(rd: bool)
      reads this
    {
      rd || (registerReads && regEmpty)
    }

    /** One edge of the read clock. A read takes the head of the queue; and what has been seen
        when the edge comes can be read behind it. */
    method ReadClock(rd: bool, sample: seq<bool>)
      requires Valid() && Mix(GrayOf(lgfifo, g.wrOld), wgray, sample)
      modifies this
      ensures Valid()
      ensures delivered == Push(old(delivered), rd && !old(Empty()), old(Data())) && written == old(written)
      ensures !old(Empty()) ==> old(Queue()) != [] && old(Data()) == old(Queue()[0])
      ensures forall n: nat, k: nat :: old(Shows(n, k)) ==> Shows(n, Less(k))
      ensures forall n: nat, k: nat :: old(Frees(n, k)) ==> Frees(n, k)
      ensures forall n: nat :: old(Shows(n, 0)) && |delivered| < n ==> !Empty()
    {
      hide Afifo.Valid, Afifo.Shows, Afifo.Frees, Afifo.Data, Afifo.LclEmpty, Afifo.Queue;
      Stages();
      if registerReads {
        forall n: nat | Shows(n, 0)
          ensures |delivered| + (if rd && !regEmpty then 1 else 0) < n
                  ==> !(if LclRead(rd) then LclEmpty() else regEmpty)
        {
          Fetches(rd, n);
        }
      }
      ClockRead(rd, sample);
      Stages();
      if !registerReads {
        forall n: nat | Shows(n, 0) && |delivered| < n ensures !Empty() {
          InTime(n);
        }
      }
    }

    lemma Stages()
      requires Valid()
      ensures rdWgray != [] && wrRgray != [] && mem.Length > 0
    {
    }

    method ClockRead(rd: bool, sample: seq<bool>)
      requires Valid() && Mix(GrayOf(lgfifo, g.wrOld), wgray, sample)
      modifies this
      ensures Valid()
      ensures delivered == Push(old(delivered), rd && !old(Empty()), old(Data())) && written == old(written)
      ensures !old(Empty()) ==> old(Queue()) != [] && old(Data()) == old(Queue()[0])
      ensures registerReads ==> regEmpty == if old(LclRead(rd)) then old(LclEmpty()) else old(regEmpty)
      ensures forall n: nat, k: nat :: old(Shows(n, k)) ==> Shows(n, Less(k))
      ensures forall n: nat, k: nat :: old(Frees(n, k)) ==> Frees(n, k)
    {
      hide GrayOf, InvertTop, Ordered, Stored, Shown, NextAddr, Slot, AddrOf, Pow2, Mix, Caught, SeenIn, Less;
      hide Afifo.LclEmpty, Afifo.Empty, Afifo.Data, Push;
      ghost var caught, out := Caught(lgfifo, g.wrOld, g.wr, sample), Data();
      ghost var takes, gives := Both(LclRead(rd), !LclEmpty()), Both(rd, !Empty());
      ReadKeeps(rd, sample);
      ReadLooks(takes, caught);
      ClockReader(rd, sample);
      g := ReadEdge(g, takes, caught);
      delivered := Push(delivered, gives, out);
    }

    /** What the registers of the read clock have to become. */
    lemma ReadKeeps(rd: bool, sample: seq<bool>)
      requires Valid() && Mix(GrayOf(lgfifo, g.wrOld), wgray, sample)
      ensures var takes, gives := Both(LclRead(rd), !LclEmpty()), Both(rd, !Empty());
              var n := ReadEdge(g, takes, Caught(lgfifo, g.wrOld, g.wr, sample));
              && Ordered(Depth(), n) && Codes(lgfifo, rdWgray[1..] + [sample], n.wrSeen)
              && AddrOf(lgfifo, n.rd) == (if takes then NextAddr(lgfifo, rdAddr) else rdAddr)
              && GrayOf(lgfifo, n.rd) == (if takes then Gray(lgfifo + 1, NextAddr(lgfifo, rdAddr)) else rgray)
              && Stored(mem[..], Depth(), n.rd, written)
              && Shown(registerReads && !(if LclRead(rd) then LclEmpty() else regEmpty),
                       if registerReads && LclRead(rd) then mem[..][Slot(mem.Length, rdAddr)] else regData,
                       n.rd, written, Push(delivered, gives, Data()))
      ensures !Empty() ==> Queue() != [] && Data() == Queue()[0]
      ensures Caught(lgfifo, g.wrOld, g.wr, sample) == g.wrOld || Caught(lgfifo, g.wrOld, g.wr, sample) == g.wr
    {
      hide GrayOf, InvertTop, Ordered, Stored, Shown, NextAddr, Slot, AddrOf, Pow2, Rising, Mix;
      ReadStep(lgfifo, g, LclRead(rd), sample);
      AddrNext(lgfifo, g.rd);
      AddrNext(lgfifo, g.rd + 1);
      CodesShift(lgfifo, rdWgray, g.wrSeen, sample, Caught(lgfifo, g.wrOld, g.wr, sample));
      HeadStored(mem[..], Depth(), g.rd, written, LclEmpty());
      ReadShown(registerReads, regEmpty, regData, LclEmpty(), mem[..][Slot(mem.Length, rdAddr)], rd, g.rd, written,
                delivered);
      FewerStored(mem[..], Depth(), g.rd, written);
    }

    /** The registers of the read clock. */
    method ClockReader(rd: bool, sample: seq<bool>)
      requires mem.Length > 0 && rdWgray != []
      modifies `rdAddr, `rgray, `rdWgray, `regEmpty, `regData
      ensures rdWgray == old(rdWgray)[1..] + [sample]
      ensures var takes := old(LclRead(rd) && !LclEmpty());
              && rdAddr == (if takes then NextAddr(lgfifo, old(rdAddr)) else old(rdAddr))
              && rgray == if takes then Gray(lgfifo + 1, rdAddr) else old(rgray)
      ensures regEmpty == if registerReads && old(LclRead(rd)) then old(LclEmpty()) else old(regEmpty)
      ensures regData == if registerReads && old(LclRead(rd)) then old(mem[Slot(mem.Length, rdAddr)]) else old(regData)
    {
      hide NextAddr, Slot, Gray;
      var read, empty := LclRead(rd), LclEmpty();
      rdWgray := rdWgray[1..] + [sample];
      if read {
        if registerReads { regEmpty, regData := empty, mem[Slot(mem.Length, rdAddr)]; }
        if !empty {
          rdAddr := NextAddr(lgfifo, rdAddr);
          rgray := Gray(lgfifo + 1, rdAddr);
        }
      }
    }

    /** The registers of the write clock. */
    method ClockWriter(take: bool, data: T, sample: seq<bool>)
      requires mem.Length > 0 && wrRgray != []
      modifies `wrAddr, `wgray, `wrRgray, mem
      ensures wrRgray == old(wrRgray)[1..] + [sample]
      ensures wrAddr == (if take then NextAddr(lgfifo, old(wrAddr)) else old(wrAddr))
      ensures wgray == if take then Gray(lgfifo + 1, wrAddr) else old(wgray)
      ensures mem[..] == if take then old(mem[..])[Slot(mem.Length, old(wrAddr)) := data] else old(mem[..])
    {
      wrRgray := wrRgray[1..] + [sample];
      if take {
        mem[Slot(mem.Length, wrAddr)] := data;
        wrAddr := NextAddr(lgfifo, wrAddr);
        wgray := Gray(lgfifo + 1, wrAddr);
      }
    }
  }

  lemma WriteShown<T>(ready: bool, word: T, rd: nat, written: seq<T>, delivered: seq<T>, x: T)
    requires Shown(ready, word, rd, written, delivered)
    ensures Shown(ready, word, rd, written + [x], delivered)
  {
  }

  ghost predicate Codes(lg: nat, regs: seq<seq<bool>>, counts: seq<nat>) {
    |regs| == |counts| && forall k :: 0 <= k < |regs| ==> regs[k] == GrayOf(lg, counts[k])
  }

  lemma CodesShift(lg: nat, regs: seq<seq<bool>>, counts: seq<nat>, s: seq<bool>, n: nat)
    requires Codes(lg, regs, counts) && regs != [] && s == GrayOf(lg, n)
    ensures Codes(lg, regs[1..] + [s], Shift(counts, n))
  {
  }

  function NextAddr(lg: nat, addr: nat): nat {
    Slot(Pow2(lg + 1), addr + 1)
  }

  lemma AddrNext(lg: nat, n: nat)
    ensures NextAddr(lg, AddrOf(lg, n)) == AddrOf(lg, n + 1)
    ensures Slot(Pow2(lg), AddrOf(lg, n)) == Slot(Pow2(lg), n)
    ensures Gray(lg + 1, AddrOf(lg, n)) == GrayOf(lg, n)
  {
    hide Slot, Gray;
    SlotNext(Pow2(lg + 1), n);
    SlotOfDouble(Pow2(lg), n);
  }

  ghost function Caught(lg: nat, before: nat, now: nat, s: seq<bool>): nat {
    if s == GrayOf(lg, before) then before else now
  }

  /** The write side: the sample is a real count, and a write never overruns the reader. */
  lemma WriteStep(lg: nat, g: Counts, wr: bool, sample: seq<bool>)
    requires lg >= 1 && Ordered(Pow2(lg), g) && Mix(GrayOf(lg, g.rdOld), GrayOf(lg, g.rd), sample)
    ensures sample == GrayOf(lg, Caught(lg, g.rdOld, g.rd, sample))
    ensures var full := GrayOf(lg, g.rdSeen[0]) == InvertTop(GrayOf(lg, g.wr));
            && full == (g.wr == g.rdSeen[0] + Pow2(lg))
            && Ordered(Pow2(lg), WriteEdge(g, wr && !full, Caught(lg, g.rdOld, g.rd, sample)))
            && (!full ==> g.rd <= g.wr < g.rd + Pow2(lg))
  {
    hide GrayOf, InvertTop;
    OrderedBounds(Pow2(lg), g);
    Sampled(lg, g.rdOld, g.rd, sample);
    FullExact(lg, g.rdSeen[0], g.wr);
    WriteOrdered(Pow2(lg), g, wr && g.wr != g.rdSeen[0] + Pow2(lg), Caught(lg, g.rdOld, g.rd, sample));
  }

  /** The read side: the sample is a real count, and a read never overtakes the writer. */
  lemma ReadStep(lg: nat, g: Counts, read: bool, sample: seq<bool>)
    requires lg >= 1 && Ordered(Pow2(lg), g) && Mix(GrayOf(lg, g.wrOld), GrayOf(lg, g.wr), sample)
    ensures sample == GrayOf(lg, Caught(lg, g.wrOld, g.wr, sample))
    ensures var empty := GrayOf(lg, g.wrSeen[0]) == GrayOf(lg, g.rd);
            && empty == (g.wrSeen[0] == g.rd)
            && Ordered(Pow2(lg), ReadEdge(g, read && !empty, Caught(lg, g.wrOld, g.wr, sample)))
            && (!empty ==> g.rd < g.wr)
  {
    hide GrayOf, InvertTop;
    OrderedBounds(Pow2(lg), g);
    Sampled(lg, g.wrOld, g.wr, sample);
    CodeInjective(lg, g.rd, g.wrSeen[0]);
    ReadOrdered(Pow2(lg), g, read && g.wrSeen[0] != g.rd, Caught(lg, g.wrOld, g.wr, sample));
  }

  /** Every delivered word is the head of the queue, in both builds. */
  lemma ReadShown<T>(registered: bool, regEmpty: bool, regData: T, empty: bool, head: T, rd: bool,
                     count: nat, written: seq<T>, delivered: seq<T>)
    requires Shown(registered && !regEmpty, regData, count, written, delivered)
    requires !empty ==> count < |written| && head == written[count]
    ensures var read := rd || (registered && regEmpty);
            var gone, out := if registered then regEmpty else empty, if registered then regData else head;
            && (!gone ==> |delivered| < |written| && out == written[|delivered|])
            && Shown(if registered then !(if read then empty else regEmpty) else false,
                     if registered && read then head else regData,
                     if read && !empty then count + 1 else count, written,
                     Push(delivered, rd && !gone, out))
  {
  }
}
