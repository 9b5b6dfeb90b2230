/** Merging and splitting the packets of the transport layer: rtl/satatrn_txarb.v and
    rtl/satatrn_rxregfis.v. */
module PacketSplit {
  import opened Words
  import opened Packets

  const FIS_DATA := 0x46

  /** The FIS type: the top byte of a word. */
  function FisType(w: Dword): nat {
    w / 0x100_0000
  }

  lemma TypeOnTop(t: nat, low: nat)
    requires t < 0x100 && low < 0x100_0000
    ensures FisType(t * 0x100_0000 + low) == t
  {
    assert (t * 0x100_0000 + low) / 0x100_0000 == t;
  }

  /** Reading a stream of packets: those of type FIS_DATA lose their first word and go
      one way, all others go the other way whole. */
  datatype Splitter = Splitter(mid: bool, isData: bool, regs: seq<Beat>, datas: seq<Beat>) {
    function Take(b: Beat): Splitter {
      if !mid then
        if FisType(b.data) == FIS_DATA then Splitter(!b.last, true, regs, datas)
        else Splitter(!b.last, false, regs + [b], datas)
      else if isData then Splitter(!b.last, true, regs, datas + [b])
      else Splitter(!b.last, false, regs + [b], datas)
    }
  }

  function Split(bs: seq<Beat>): Splitter {
    if bs == [] then Splitter(false, false, [], []) else Split(Init(bs)).Take(Last(bs))
  }

  lemma {:induction false} SplitPrefix(a: seq<Beat>, b: seq<Beat>)
    requires a <= b
    ensures Split(a).regs <= Split(b).regs && Split(a).datas <= Split(b).datas
    decreases |b|
  {
    if |a| < |b| {
      assert a <= Init(b);
      SplitPrefix(a, Init(b));
    } else {
      assert a == b;
    }
  }

  lemma SplitNothing()
    ensures Split([]) == Splitter(false, false, [], [])
  {
  }

  lemma SplitSnoc(bs: seq<Beat>, b: Beat)
    ensures Split(bs + [b]) == Split(bs).Take(b)
  {
    Snoc(bs, b);
  }
}

/** rtl/satatrn_txarb.v, on the PHY clock. */
module TxArbStage {
  import opened Words
  import opened Packets
  import opened PacketSplit

  const HEADER: Dword := 0x4600_0000  // { FIS_DATA, 24'h0 }

  /** Both sources, the gate and the receiver, as sampled at a clock edge. */
  datatype Input = Input(reg: Option<Beat>, data: Option<Beat>, gate: bool, ready: bool)

  datatype Registers = Registers(midData: bool, midReg: bool, oValid: bool, o: Beat) {
    predicate Free(i: Input) {
      !oValid || i.ready
    }

    predicate OffersData(i: Input) {
      i.gate && i.data.Some?
    }

    /** regfifo_ready and o_data_ready */
    predicate RegReady(i: Input) {
      Free(i) && (midReg || (!midData && !OffersData(i)))
    }

    predicate DataReady(i: Input) {
      midData && Free(i)
    }

    predicate Opens(i: Input) {
      !midReg && !midData && Free(i) && OffersData(i)
    }
  }

  function BeatOf(b: Option<Beat>): Beat {
    if b.Some? then b.value else Beat(0, false)
  }

  function Edge(r: Registers, i: Input): Registers {
    Registers(
      if i.data.Some? && r.DataReady(i) then !i.data.value.last else r.Opens(i) || r.midData,
      if i.reg.Some? && r.RegReady(i) then !i.reg.value.last else r.midReg,
      if !r.Free(i) then r.oValid
      else if r.midReg then i.reg.Some?
      else if r.midData then i.data.Some?
      else r.OffersData(i) || i.reg.Some?,
      if !r.Free(i) then r.o
      else if r.midData then BeatOf(i.data)
      else if r.midReg then BeatOf(i.reg)
      else if r.OffersData(i) then Beat(HEADER, false)
      else BeatOf(i.reg))
  }

  datatype History = History(regTaken: seq<Beat>, dataTaken: seq<Beat>, emitted: seq<Beat>)

  function After(r: Registers, h: History, i: Input): History {
    History(Push(h.regTaken, i.reg.Some? && r.RegReady(i), BeatOf(i.reg)),
            Push(h.dataTaken, i.data.Some? && r.DataReady(i), BeatOf(i.data)),
            Push(h.emitted, r.oValid && i.ready, r.o))
  }

  /** No register packet starts with the type of a data packet. */
  predicate Legal(h: History, i: Input) {
    i.reg.Some? && !MidPacket(h.regTaken) ==> FisType(i.reg.value.data) != FIS_DATA
  }

  /** Splitting what has been issued gives back each source's words, and packets are
      never interleaved: in the middle of one, only its own source can go on. */
  ghost predicate Invariant(r: Registers, h: History) {
    var s := Split(Push(h.emitted, r.oValid, r.o));
    && s.regs == h.regTaken && s.datas == h.dataTaken
    && s.mid == (r.midReg || r.midData) && (s.mid ==> s.isData == r.midData)
    && !(r.midReg && r.midData)
    && r.midReg == MidPacket(h.regTaken)
  }

  lemma HeaderIsData()
    ensures FisType(HEADER) == FIS_DATA
  {
  }

  lemma InvariantStep(r: Registers, h: History, i: Input)
    requires Invariant(r, h) && Legal(h, i)
    ensures Invariant(Edge(r, i), After(r, h, i))
  {
    hide Split, FisType;
    var r2, h2 := Edge(r, i), After(r, h, i);
    HeaderIsData();
    var issued := Push(h.emitted, r.oValid, r.o);
    if r.Free(i) {
      assert h2.emitted == issued;
      SplitSnoc(issued, r2.o);
    }
    if i.reg.Some? { MidSnoc(h.regTaken, i.reg.value); }
  }

  /** The issued stream splits back into what was taken: each source's packets intact and
      in order, whatever the gate and the stalls. */
  lemma SplitsBack(r: Registers, h: History)
    requires Invariant(r, h)
    ensures Split(h.emitted).regs <= h.regTaken && Split(h.emitted).datas <= h.dataTaken
    ensures !r.oValid ==> Split(h.emitted).regs == h.regTaken && Split(h.emitted).datas == h.dataTaken
  {
    SplitPrefix(h.emitted, Push(h.emitted, r.oValid, r.o));
  }

  /** A packet of data is under way. */
  ghost predicate InData(r: Registers, h: History) {
    var s := Split(Push(h.emitted, r.oValid, r.o));
    s.mid && s.isData
  }

  /** Who is taken when the output is free: the source of the packet under way, else data that
      is let through the gate, behind its header, else registers. Nobody is when it is not. */
  lemma Takes(r: Registers, h: History, i: Input)
    requires Invariant(r, h)
    ensures var h2 := After(r, h, i);
            if r.oValid && !i.ready then h2 == h
            else if InData(r, h) then
              && h2.regTaken == h.regTaken
              && h2.dataTaken == if i.data.Some? then h.dataTaken + [i.data.value] else h.dataTaken
            else if !MidPacket(h.regTaken) && i.gate && i.data.Some? then
              && h2.regTaken == h.regTaken && h2.dataTaken == h.dataTaken
              && Edge(r, i).oValid && Edge(r, i).o == Beat(0x4600_0000, false) && Edge(r, i).midData
            else
              && h2.dataTaken == h.dataTaken
              && h2.regTaken == if i.reg.Some? then h.regTaken + [i.reg.value] else h.regTaken
  {
    hide Split, FisType, MidPacket;
  }

  class TxArb {
    var midDataPacket: bool
    var midRegPacket: bool
    var oValid: bool
    var oData: Dword
    var oLast: bool
    ghost var h: History

    function Regs(): Registers
      reads this
    {
      Registers(midDataPacket, midRegPacket, oValid, Beat(oData, oLast))
    }

    ghost predicate Valid()
      reads this
    {
      Invariant(Regs(), h)
    }

    constructor ()
      ensures Valid() && h == History([], [], [])
    {
      midDataPacket, midRegPacket, oValid, oData, oLast := false, false, false, 0, false;
      h := History([], [], []);
    }

    /** One clock: the registers of the specification. */
    method Clock(i: Input)
      modifies `midDataPacket, `midRegPacket, `oValid, `oData, `oLast
      ensures Regs() == Edge(old(Regs()), i)
    {
      var r := Regs();
      var free, offers, opens := r.Free(i), r.OffersData(i), r.Opens(i);
      var regReady, dataReady, reg, data := r.RegReady(i), r.DataReady(i), BeatOf(i.reg), BeatOf(i.data);
      if free {
        if r.midData {
          oValid, oData, oLast := i.data.Some?, data.data, data.last;
        } else if r.midReg {
          oValid, oData, oLast := i.reg.Some?, reg.data, reg.last;
        } else if offers {
          oValid, oData, oLast := true, HEADER, false;
        } else {
          oValid, oData, oLast := i.reg.Some?, reg.data, reg.last;
        }
        if r.midReg { oValid := i.reg.Some?; }
      }
      if Both(i.data.Some?, dataReady) {
        midDataPacket := !data.last;
      } else if opens {
        midDataPacket := true;
      }
      if Both(i.reg.Some?, regReady) { midRegPacket := !reg.last; }
    }

    method Step(i: Input)
      requires Valid() && Legal(h, i)
      modifies this
      ensures Valid()
      ensures Regs() == Edge(old(Regs()), i) && h == After(old(Regs()), old(h), i)
    {
      hide Edge, After, Invariant;
      InvariantStep(Regs(), h, i);
      h := After(Regs(), h, i);
      Clock(i);
    }
  }
}

/** rtl/satatrn_rxregfis.v, with room in its FIFO. */
module RxRegFisStage {
  import opened Words
  import opened Packets
  import opened PacketSplit

  class RxRegFis {
    var midPacket: bool
    var isRegPacket: bool
    var isDataPacket: bool
    var afifoWr: bool
    var afifoData: Beat
    var oDataValid: bool
    var oData: Beat
    ghost var accepted: seq<Beat>  // since the last link error
    ghost var regs: seq<Beat>      // written to the register FIFO since then
    ghost var datas: seq<Beat>     // passed to the data path since then

    ghost predicate Valid()
      reads this
    {
      var s := Split(accepted);
      && regs == s.regs && datas == s.datas && midPacket == s.mid
      && isRegPacket == (s.mid && !s.isData) && isDataPacket == (s.mid && s.isData)
    }

    constructor ()
      ensures Valid() && accepted == [] && regs == [] && datas == []
    {
      midPacket, isRegPacket, isDataPacket, afifoWr, oDataValid := false, false, false, false, false;
      afifoData, oData := Beat(0, false), Beat(0, false);
      accepted, regs, datas := [], [], [];
    }

    /** One clock of the registers. */
    method Clock(linkErr: bool, valid: bool, b: Beat)
      modifies `midPacket, `isRegPacket, `isDataPacket, `afifoWr, `afifoData, `oDataValid, `oData
      ensures linkErr ==> !midPacket && !isRegPacket && !isDataPacket && !afifoWr && !oDataValid
      ensures !linkErr ==> midPacket == if valid then !b.last else old(midPacket)
      ensures !linkErr ==> isRegPacket == if !valid then old(isRegPacket)
                                          else !b.last && old(GoesOn(midPacket, isRegPacket, false, b))
      ensures !linkErr ==> isDataPacket == if !valid then old(isDataPacket)
                                           else !b.last && old(GoesOn(midPacket, isDataPacket, true, b))
      ensures !linkErr ==> afifoWr == (valid && old(isRegPacket || (!midPacket && FisType(b.data) != FIS_DATA)))
      ensures afifoWr && old(isRegPacket ==> midPacket) ==> afifoData == b
      ensures !linkErr ==> oDataValid == (valid && old(isDataPacket))
      ensures oData == b
    {
      hide FisType;
      var isFis, mid, isReg := FisType(b.data) == FIS_DATA, midPacket, isRegPacket;
      oDataValid, oData := Both(valid, isDataPacket), b;
      afifoWr := false;
      if valid {
        midPacket := !b.last;
        if mid {
          afifoWr, afifoData := isReg, b;
        } else {
          afifoWr := if isReg then true else !isFis;
          if !isFis { afifoData := b; }
          isRegPacket, isDataPacket := !isFis, isFis;
        }
        if b.last { isRegPacket, isDataPacket := false, false; }
      }
      if linkErr {
        midPacket, isRegPacket, isDataPacket, afifoWr, oDataValid := false, false, false, false, false;
      }
    }

    /** After a link error the next word starts a packet, whatever was cut off. */
    method Step(linkErr: bool, valid: bool, b: Beat)
      requires Valid()
      modifies this
      ensures Valid()
      ensures linkErr ==> accepted == [] && regs == [] && datas == [] && !afifoWr && !oDataValid
      ensures !linkErr ==> accepted == Push(old(accepted), valid, b)
      ensures !linkErr ==> regs == Push(old(regs), afifoWr, afifoData) && datas == Push(old(datas), oDataValid, oData)
    {
      hide Split, FisType;
      SplitSnoc(accepted, b);
      SplitNothing();
      Clock(linkErr, valid, b);
      accepted := if linkErr then [] else Push(accepted, valid, b);
      regs := if linkErr then [] else Push(regs, afifoWr, afifoData);
      datas := if linkErr then [] else Push(datas, oDataValid, oData);
    }
  }

  /** Whether a packet is one of registers, or of data, after a word that does not end it. */
  predicate GoesOn(mid: bool, was: bool, data: bool, b: Beat) {
    if mid then was else (FisType(b.data) == FIS_DATA) == data
  }
}

/** Merging and splitting undo each other. */
module MergeSplit {
  import opened Words
  import opened PacketSplit
  import opened TxArbStage
  import opened RxRegFisStage

  /** A splitter fed from the arbiter hands on the register and data packets the arbiter
      was given, and all of them once the arbiter has nothing more to send. */
  lemma MergeThenSplit(tx: TxArb, rx: RxRegFis)
    requires tx.Valid() && rx.Valid() && rx.accepted <= tx.h.emitted
    ensures rx.regs <= tx.h.regTaken && rx.datas <= tx.h.dataTaken
    ensures rx.accepted == tx.h.emitted && !tx.oValid ==> rx.regs == tx.h.regTaken && rx.datas == tx.h.dataTaken
  {
    hide Split;
    SplitsBack(tx.Regs(), tx.h);
    SplitPrefix(rx.accepted, tx.h.emitted);
  }
}
