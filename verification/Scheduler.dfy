/** The simulation clocks of bench/cpp/tbclock.h and their scheduler in bench/cpp/testb.h. */
module ClockScheduler {
  import opened Arithmetic

  class TbClock {
    var incrementPs: nat
    var nowPs: nat
    var lastPosedgePs: nat
    var ticks: nat

    /** Within one period, behind as many whole periods as have ticked. */
    ghost predicate Valid()
      reads this
    {
      && incrementPs > 0
      && lastPosedgePs == 2 * incrementPs * ticks
      && lastPosedgePs <= nowPs < lastPosedgePs + 2 * incrementPs
    }

    /** init: half the interval, rounded down to an even number, and low at first. */
    constructor (intervalPs: nat)
      requires intervalPs >= 4
      ensures Valid() && nowPs == incrementPs + 1 && ticks == 0
      ensures incrementPs % 2 == 0 && 2 * incrementPs <= intervalPs < 2 * incrementPs + 4
    {
      incrementPs := intervalPs / 2 / 2 * 2;
      nowPs := intervalPs / 2 / 2 * 2 + 1;
      lastPosedgePs, ticks := 0, 0;
    }

    /** Neither of the two assertions of the source can fail. */
    function TimeToEdge(): (t: nat)
      requires Valid()
      reads this
      ensures 0 < t <= incrementPs
      ensures nowPs + t == lastPosedgePs + incrementPs || nowPs + t == lastPosedgePs + 2 * incrementPs
    {
      if lastPosedgePs + incrementPs > nowPs then lastPosedgePs + incrementPs - nowPs
      else lastPosedgePs + 2 * incrementPs - nowPs
    }

    /** The clock is high for the first half of its period. */
    predicate High()
      reads this
    {
      nowPs < lastPosedgePs + incrementPs
    }

    predicate RisingEdge()
      reads this
    {
      nowPs == lastPosedgePs
    }

    predicate FallingEdge()
      reads this
    {
      nowPs == lastPosedgePs + incrementPs
    }

    /** Edges lie at even times of the clock, and the first one half a period in. */
    lemma EdgeParity()
      requires Valid() && incrementPs % 2 == 0
      ensures (nowPs + TimeToEdge()) % 2 == 0
      ensures nowPs == incrementPs + 1 ==> TimeToEdge() == incrementPs - 1
    {
      EvenMultiple(incrementPs, ticks);
      LaterPeriods(incrementPs, ticks);
      EvenSum(lastPosedgePs, incrementPs);
    }

    method Advance(itime: nat) returns (level: bool)
      requires Valid() && itime <= TimeToEdge()
      modifies this
      ensures Valid() && incrementPs == old(incrementPs) && nowPs == old(nowPs) + itime
      ensures level == High()
      ensures itime > 0 ==> old(ticks) + Bit(High()) + Bit(FallingEdge()) == ticks + Bit(old(High()))
      ensures itime > 0 ==> (FallingEdge() <==> itime == old(TimeToEdge()) && old(High()))
      ensures itime > 0 ==> (RisingEdge() <==> itime == old(TimeToEdge()) && !old(High()))
    {
      nowPs := nowPs + itime;
      if nowPs >= lastPosedgePs + 2 * incrementPs {
        lastPosedgePs := lastPosedgePs + 2 * incrementPs;
        ticks := ticks + 1;
        assert 2 * incrementPs * ticks == 2 * incrementPs * old(ticks) + 2 * incrementPs;
        level := true;
      } else if nowPs >= lastPosedgePs + incrementPs {
        level := false;
      } else {
        level := true;
      }
    }
  }

  lemma EvenMultiple(a: nat, k: nat)
    ensures 2 * a * k % 2 == 0
  {
    assert 2 * a * k == 2 * (a * k);
  }

  lemma LaterPeriods(a: nat, k: nat)
    ensures if k == 0 then 2 * a * k == 0 else 2 * a * k >= 2 * a
  {
    MulMonotone(1, k, 2 * a);
  }

  lemma EvenSum(a: nat, b: nat)
    requires a % 2 == 0 && b % 2 == 0
    ensures (a + b) % 2 == 0 && (a + 2 * b) % 2 == 0
  {
  }

  function Bit(b: bool): nat {
    if b then 1 else 0
  }

  function Min3(a: nat, b: nat, c: nat): nat {
    if a <= b && a <= c then a else if b <= c then b else c
  }

  /** Edges lie at odd times only, so two of them are never a single picosecond apart. */
  predicate InStep(increment: nat, now: nat, time: nat) {
    increment % 2 == 0 && increment >= 4 && now == increment + 1 + time && (time == 0 || time % 2 == 1)
  }

  /** From one edge to the next, for a clock in step. */
  lemma NextEdge(increment: nat, now: nat, time: nat, t: nat)
    requires InStep(increment, now, time) && t > 0 && (now + t) % 2 == 0
    requires now == increment + 1 ==> t == increment - 1
    ensures t > 1 && (time + t) % 2 == 1
  {
  }

  lemma StillInStep(increment: nat, now: nat, time: nat, t: nat)
    requires InStep(increment, now, time) && (time + t) % 2 == 1
    ensures InStep(increment, now + t, time + t)
  {
  }

  class Testb {
    const clk: TbClock
    const rx: TbClock
    const tx: TbClock
    var timePs: nat
    var iClk: bool
    var iRxphyClk: bool
    var iTxphyClk: bool
    var clkCalls: nat  // of sim_clk_tick, sim_rx_clk_tick and sim_tx_clk_tick
    var rxCalls: nat
    var txCalls: nat

    ghost predicate Valid()
      reads this, clk, rx, tx
    {
      && clk != rx && clk != tx && rx != tx
      && Counted(clk, clkCalls) && Counted(rx, rxCalls) && Counted(tx, txCalls)
      && InStep(clk.incrementPs, clk.nowPs, timePs)
      && InStep(rx.incrementPs, rx.nowPs, timePs)
      && InStep(tx.incrementPs, tx.nowPs, timePs)
    }

    /** One callback in every period, at its falling edge. */
    static ghost predicate Counted(c: TbClock, calls: nat)
      reads c
    {
      c.Valid() && calls + Bit(c.High()) == c.ticks
    }

    constructor (clkPs: nat, rxPs: nat, txPs: nat)
      requires clkPs >= 8 && rxPs >= 8 && txPs >= 8
      ensures Valid() && timePs == 0 && fresh(clk) && fresh(rx) && fresh(tx)
    {
      clk := new TbClock(clkPs);
      rx := new TbClock(rxPs);
      tx := new TbClock(txPs);
      timePs, iClk, iRxphyClk, iTxphyClk := 0, false, false, false;
      clkCalls, rxCalls, txCalls := 0, 0, 0;
    }

    /** Time moves on to the next edge of some clock, more than a picosecond away and past
        the edge of none; the clock inputs show the levels, and exactly the clocks that
        fall have their callback run. */
    method Tick()
      requires Valid()
      modifies this, clk, rx, tx
      ensures Valid()
      ensures timePs == old(timePs) + old(Min3(clk.TimeToEdge(), rx.TimeToEdge(), tx.TimeToEdge()))
      ensures timePs > old(timePs) + 1
      ensures AtEdge()
      ensures iClk == clk.High() && iRxphyClk == rx.High() && iTxphyClk == tx.High()
      ensures clkCalls == old(clkCalls) + Bit(clk.FallingEdge())
      ensures rxCalls == old(rxCalls) + Bit(rx.FallingEdge())
      ensures txCalls == old(txCalls) + Bit(tx.FallingEdge())
    {
      hide TbClock.Valid, TbClock.TimeToEdge, TbClock.High, TbClock.RisingEdge, TbClock.FallingEdge, InStep, Bit, Min3;
      hide Testb.AtEdge, Testb.Counted;
      var mintime := Mintime();
      EdgesAhead(mintime);
      var clkFell, rxFell, txFell := AdvanceAll(mintime);
      timePs := timePs + mintime;
      clkCalls := clkCalls + Bit(clkFell);
      rxCalls := rxCalls + Bit(rxFell);
      txCalls := txCalls + Bit(txFell);
    }

    /** The time to the next edge of any clock. */
    method Mintime() returns (mintime: nat)
      requires Valid()
      ensures mintime == Min3(clk.TimeToEdge(), rx.TimeToEdge(), tx.TimeToEdge())
    {
      mintime := clk.TimeToEdge();
      if rx.TimeToEdge() < mintime { mintime := rx.TimeToEdge(); }
      if tx.TimeToEdge() < mintime { mintime := tx.TimeToEdge(); }
    }

    /** All clocks on their way, and which of them fell. */
    method AdvanceAll(t: nat) returns (clkFell: bool, rxFell: bool, txFell: bool)
      requires Valid() && 0 < t <= clk.TimeToEdge() && t <= rx.TimeToEdge() && t <= tx.TimeToEdge()
      modifies `iClk, `iRxphyClk, `iTxphyClk, clk, rx, tx
      ensures iClk == clk.High() && clkFell == clk.FallingEdge()
      ensures Moved(clk, old(clk.incrementPs), old(clk.nowPs) + t, clkCalls)
      ensures iRxphyClk == rx.High() && rxFell == rx.FallingEdge()
      ensures Moved(rx, old(rx.incrementPs), old(rx.nowPs) + t, rxCalls)
      ensures iTxphyClk == tx.High() && txFell == tx.FallingEdge()
      ensures Moved(tx, old(tx.incrementPs), old(tx.nowPs) + t, txCalls)
      ensures t == old(Min3(clk.TimeToEdge(), rx.TimeToEdge(), tx.TimeToEdge())) ==> AtEdge()
    {
      hide TbClock.Valid, TbClock.TimeToEdge, TbClock.High, TbClock.RisingEdge, TbClock.FallingEdge, InStep, Bit;
      iClk, clkFell := AdvanceOne(clk, clkCalls, t);
      iRxphyClk, rxFell := AdvanceOne(rx, rxCalls, t);
      iTxphyClk, txFell := AdvanceOne(tx, txCalls, t);
    }

    /** Some clock is at an edge. */
    ghost predicate AtEdge()
      reads clk, rx, tx
    {
      || clk.RisingEdge() || clk.FallingEdge() || rx.RisingEdge() || rx.FallingEdge()
      || tx.RisingEdge() || tx.FallingEdge()
    }

    static ghost predicate Moved(c: TbClock, increment: nat, now: nat, calls: nat)
      reads c
    {
      c.incrementPs == increment && c.nowPs == now && Counted(c, calls + Bit(c.FallingEdge()))
    }

    /** One clock on its way; a callback is due if it fell. */
    static method AdvanceOne(c: TbClock, ghost calls: nat, itime: nat) returns (level: bool, fell: bool)
      requires Counted(c, calls) && 0 < itime <= c.TimeToEdge()
      modifies c
      ensures c.incrementPs == old(c.incrementPs) && c.nowPs == old(c.nowPs) + itime
      ensures level == c.High() && fell == c.FallingEdge() && Counted(c, calls + Bit(fell))
      ensures itime == old(c.TimeToEdge()) ==> c.FallingEdge() || c.RisingEdge()
    {
      hide TbClock.Valid, TbClock.TimeToEdge, TbClock.High, TbClock.RisingEdge, TbClock.FallingEdge;
      level := c.Advance(itime);
      fell := c.FallingEdge();
    }

    /** The soonest edge is more than a picosecond away, and leaves every clock in step. */
    lemma EdgesAhead(t: nat)
      requires Valid()
      requires t == Min3(clk.TimeToEdge(), rx.TimeToEdge(), tx.TimeToEdge())
      ensures 1 < t <= clk.TimeToEdge() && t <= rx.TimeToEdge() && t <= tx.TimeToEdge()
      ensures InStep(clk.incrementPs, clk.nowPs + t, timePs + t)
      ensures InStep(rx.incrementPs, rx.nowPs + t, timePs + t)
      ensures InStep(tx.incrementPs, tx.nowPs + t, timePs + t)
    {
      hide TbClock.Valid, TbClock.TimeToEdge, TbClock.High;
      clk.EdgeParity();
      rx.EdgeParity();
      tx.EdgeParity();
      NextEdge(clk.incrementPs, clk.nowPs, timePs, clk.TimeToEdge());
      NextEdge(rx.incrementPs, rx.nowPs, timePs, rx.TimeToEdge());
      NextEdge(tx.incrementPs, tx.nowPs, timePs, tx.TimeToEdge());
      StillInStep(clk.incrementPs, clk.nowPs, timePs, t);
      StillInStep(rx.incrementPs, rx.nowPs, timePs, t);
      StillInStep(tx.incrementPs, tx.nowPs, timePs, t);
    }
  }
}
