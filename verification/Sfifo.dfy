/** rtl/sata_sfifo.v */
module SyncFifo {
  import opened Words
  import opened Arithmetic
  import opened Ring

  /** The three build options. */
  datatype Options = Options(asyncRead: bool, writeOnFull: bool, readOnEmpty: bool)

  /** An address register: one bit wider than the memory needs. */
  function AddrOf(depth: nat, n: nat): nat
    requires depth > 0
  {
    Slot(2 * depth, n)
  }

  function NextAddr(depth: nat, addr: nat): nat {
    if addr + 1 == 2 * depth then 0 else addr + 1
  }

  lemma AddrNext(depth: nat, n: nat)
    requires depth > 0
    ensures NextAddr(depth, AddrOf(depth, n)) == AddrOf(depth, n + 1)
    ensures Slot(depth, AddrOf(depth, n)) == Slot(depth, n)
  {
    hide Slot;
    Ring.SlotNext(2 * depth, n);
    SlotOfDouble(depth, n);
  }

  /** rd_next */
  function NextSlot(depth: nat, addr: nat): (i: nat)
    requires depth > 0
    ensures i < depth
  {
    Slot(depth, Slot(depth, addr) + 1)
  }

  lemma NextSlotNext(depth: nat, n: nat)
    requires depth > 0
    ensures NextSlot(depth, AddrOf(depth, n)) == Slot(depth, n + 1)
  {
    hide Slot;
    SlotOfDouble(depth, n);
    Ring.SlotNext(depth, n);
  }

  /** The registers of the registered-read build show the head, by the bypass or not. */
  ghost predicate Heads<T>(o: Options, bypassValid: bool, bypass: T, rdData: T, rd: nat, written: seq<T>) {
    !o.asyncRead && rd < |written| ==> (if bypassValid then bypass else rdData) == written[rd]
  }

  /** The bypass register and the word fetched, after a clock. */
  lemma HeadsStep<T>(o: Options, depth: nat, bypassValid: bool, bypass: T, rdData: T, mem: seq<T>, rd: nat,
                     written: seq<T>, wr: bool, data: T, read: bool)
    requires Heads(o, bypassValid, bypass, rdData, rd, written) && Stored(mem, depth, rd, written)
    requires rd <= |written| <= rd + depth && depth >= 2
    ensures var empty, fill := rd == |written|, |written| - rd;
            var wWr := wr && (fill < depth || (read && o.writeOnFull));
            var wRd := read && (!empty || (o.readOnEmpty && wr));
            Heads(o, if empty || read then wr && (empty || (read && fill == 1)) else bypassValid,
                  if empty || read then data else bypass,
                  if wRd then mem[Slot(depth, rd + 1)] else rdData,
                  if wRd then rd + 1 else rd, Push(written, wWr, data))
  {
    hide Slot;
  }

  class Sfifo<T> {
    const o: Options
    const mem: array<T>
    var wrAddr: nat
    var rdAddr: nat
    var oFill: nat
    var rEmpty: bool
    var bypassValid: bool  // of the registered-read build
    var bypassData: T
    var rdData: T
    ghost var written: seq<T>
    ghost var rd: nat

    predicate RFull()
      reads this
    {
      oFill >= mem.Length
    }

    /** o_full */
    predicate Full(iRd: bool)
      reads this
    {
      if iRd && o.writeOnFull then false else RFull()
    }

    /** o_empty */
    predicate Empty(iWr: bool)
      reads this
    {
      if o.readOnEmpty && iWr then false else rEmpty
    }

    /** o_data */
    function Data(iData: T): T
      requires mem.Length > 0
      reads this, mem
    {
      if rEmpty && o.readOnEmpty then iData
      else if o.asyncRead then mem[Slot(mem.Length, rdAddr)]
      else if bypassValid then bypassData
      else rdData
    }

    /** The abstract queue. */
    ghost function Queue(): seq<T>
      requires rd <= |written|
      reads this
    {
      written[rd..]
    }

    ghost predicate Valid()
      reads this, mem
    {
      && mem.Length >= 2 && rd <= |written| <= rd + mem.Length
      && wrAddr == AddrOf(mem.Length, |written|) && rdAddr == AddrOf(mem.Length, rd)
      && oFill == |written| - rd && rEmpty == (oFill == 0)
      && Stored(mem[..], mem.Length, rd, written)
      && Heads(o, bypassValid, bypassData, rdData, rd, written)
    }

    constructor (o: Options, lgflen: nat, init: T)
      requires lgflen >= 1
      ensures Valid() && Queue() == [] && this.o == o && mem.Length == Pow2(lgflen) && fresh(mem)
    {
      assert Pow2(lgflen) == 2 * Pow2(lgflen - 1);
      this.o := o;
      mem := new T[Pow2(lgflen)](_ => init);
      wrAddr, rdAddr, oFill, rEmpty, bypassValid, bypassData, rdData := 0, 0, 0, true, false, init, init;
      written, rd := [], 0;
    }

    /** The flags are exact, and what is shown is the head of the queue. */
    lemma Exact(iRd: bool, iWr: bool, iData: T)
      requires Valid()
      ensures oFill == |Queue()| <= mem.Length
      ensures Full(iRd) <==> |Queue()| == mem.Length && !(iRd && o.writeOnFull)
      ensures Empty(iWr) <==> Queue() == [] && !(iWr && o.readOnEmpty)
      ensures !Empty(iWr) ==> Data(iData) == if Queue() == [] then iData else Queue()[0]
    {
      AddrNext(mem.Length, rd);
    }

    /** What the registers below have to become. */
    lemma StepKeeps(iWr: bool, iData: T, iRd: bool)
      requires Valid()
      ensures var w, r, depth := Both(iWr, !Full(iRd)), Both(iRd, !Empty(iWr)), mem.Length;
              var written2, rd2 := Push(written, w, iData), Up(rd, r);
              && (r && !w ==> oFill > 0)
              && rd2 <= |written2| <= rd2 + depth && |written2| == Up(|written|, w)
              && AddrOf(depth, |written2|) == (if w then NextAddr(depth, wrAddr) else wrAddr)
              && AddrOf(depth, rd2) == (if r then NextAddr(depth, rdAddr) else rdAddr)
              && Stored(if w then mem[..][Slot(depth, wrAddr) := iData] else mem[..], depth, rd2, written2)
              && Heads(o, if rEmpty || iRd then iWr && (rEmpty || (iRd && oFill == 1)) else bypassValid,
                       if rEmpty || iRd then iData else bypassData,
                       if r then mem[..][NextSlot(depth, rdAddr)] else rdData, rd2, written2)
              && written2[rd2..] == Moved(written[rd..], w, iData, r)
    {
      hide Slot, AddrOf, NextAddr, NextSlot, Stored, Heads, Moved;
      var depth := mem.Length;
      AddrNext(depth, |written|);
      AddrNext(depth, rd);
      NextSlotNext(depth, rd);
      HeadsStep(o, depth, bypassValid, bypassData, rdData, mem[..], rd, written, iWr, iData, iRd);
      StoreIf(mem[..], depth, rd, written, Both(iWr, !Full(iRd)), iData, Both(iRd, !Empty(iWr)));
      MovedStep(written, rd, Both(iWr, !Full(iRd)), iData, Both(iRd, !Empty(iWr)));
    }

    /** One clock: a write that is not refused joins the queue, a read that is not
        refused takes its head, which may be the word written in the same clock. */
    method Step(iWr: bool, iData: T, iRd: bool)
      requires Valid()
      modifies this, mem
      ensures Valid()
      ensures Queue() == Moved(old(Queue()), iWr && !old(Full(iRd)), iData, iRd && !old(Empty(iWr)))
    {
      hide Slot, AddrOf, NextAddr, NextSlot, Stored, Heads, Moved, Push, Sfifo.Full, Sfifo.Empty;
      var wWr, wRd := Both(iWr, !Full(iRd)), Both(iRd, !Empty(iWr));
      StepKeeps(iWr, iData, iRd);
      ClockRead(iWr, iData, iRd, wRd);
      ClockWrite(wWr, iData);
      ClockFill(wWr, wRd);
      written := Push(written, wWr, iData);
      rd := Up(rd, wRd);
    }

    /** wr_addr and the memory. */
    method ClockWrite(wWr: bool, iData: T)
      requires mem.Length > 0
      modifies `wrAddr, mem
      ensures wrAddr == if wWr then NextAddr(mem.Length, old(wrAddr)) else old(wrAddr)
      ensures mem[..] == if wWr then old(mem[..])[Slot(mem.Length, old(wrAddr)) := iData] else old(mem[..])
    {
      if wWr {
        mem[Slot(mem.Length, wrAddr)] := iData;
        wrAddr := NextAddr(mem.Length, wrAddr);
      }
    }

    /** o_fill and r_empty. */
    method ClockFill(wWr: bool, wRd: bool)
      requires wRd && !wWr ==> oFill > 0
      modifies `oFill, `rEmpty
      ensures oFill == old(oFill) + (if wWr then 1 else 0) - if wRd then 1 else 0
      ensures rEmpty == if wWr == wRd then old(rEmpty) else !wWr && old(oFill) <= 1
    {
      if wWr {
        if !wRd { oFill, rEmpty := oFill + 1, false; }
      } else if wRd {
        rEmpty := oFill <= 1;
        oFill := oFill - 1;
      }
    }

    /** rd_addr, the word fetched, and the bypass. */
    method ClockRead(iWr: bool, iData: T, iRd: bool, wRd: bool)
      requires mem.Length > 0
      modifies `rdAddr, `rdData, `bypassValid, `bypassData
      ensures rdAddr == if wRd then NextAddr(mem.Length, old(rdAddr)) else old(rdAddr)
      ensures rdData == if wRd then mem[NextSlot(mem.Length, old(rdAddr))] else old(rdData)
      ensures bypassValid == if rEmpty || iRd then iWr && (rEmpty || (iRd && oFill == 1)) else old(bypassValid)
      ensures bypassData == if rEmpty || iRd then iData else old(bypassData)
    {
      var moves := if rEmpty then true else iRd;
      if wRd {
        rdData := mem[NextSlot(mem.Length, rdAddr)];
        rdAddr := NextAddr(mem.Length, rdAddr);
      }
      if moves {
        bypassData := iData;
        if !iWr {
          bypassValid := false;
        } else if rEmpty {
          bypassValid := true;
        } else {
          bypassValid := oFill == 1;
        }
      }
    }
  }

  function Up(n: nat, step: bool): nat {
    if step then n + 1 else n
  }

  /** What a clock does to a queue. */
  function Moved<T>(q: seq<T>, wr: bool, x: T, rd: bool): seq<T> {
    var p := Push(q, wr, x);
    if rd && p != [] then p[1..] else p
  }

  lemma MovedStep<T>(written: seq<T>, rd: nat, wr: bool, x: T, read: bool)
    requires rd <= |written| && (read ==> wr || rd < |written|)
    ensures var n := if read then rd + 1 else rd;
            n <= |Push(written, wr, x)| && Push(written, wr, x)[n..] == Moved(written[rd..], wr, x, read)
  {
    assert (written + [x])[rd..] == written[rd..] + [x];
  }

  lemma StoreIf<T>(mem: seq<T>, depth: nat, rd: nat, written: seq<T>, wr: bool, x: T, read: bool)
    requires Stored(mem, depth, rd, written) && rd <= |written| <= rd + depth
    requires wr ==> |written| < rd + depth || read
    ensures Stored(if wr then mem[Slot(depth, |written|) := x] else mem, depth, if read then rd + 1 else rd,
                   Push(written, wr, x))
  {
    FewerStored(mem, depth, rd, written);
    if wr {
      if |written| < rd + depth {
        StoreStep(mem, depth, rd, written, x);
        FewerStored(mem[Slot(depth, |written|) := x], depth, rd, written + [x]);
      } else {
        StoreStep(mem, depth, rd + 1, written, x);
      }
    }
  }
}
