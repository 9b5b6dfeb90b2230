/** The latency memory of bench/cpp/memsim.cpp, one 32-bit word wide. */
module LatencyMemory {
  import opened Words
  import opened ByteLanes
  import opened Arithmetic

  /** Four byte lanes, the top one first. */
  type MemWord = w: seq<Byte> | |w| == 4 witness Nothing(4)

  function Merge(old_: MemWord, new_: MemWord, sel: seq<bool>): MemWord
    requires |sel| == 4
  {
    [if sel[0] then new_[0] else old_[0], if sel[1] then new_[1] else old_[1],
     if sel[2] then new_[2] else old_[2], if sel[3] then new_[3] else old_[3]]
  }

  /** A request that memory has accepted. */
  datatype Access = Access(addr: nat, we: bool, data: MemWord, sel: seq<bool>)

  /** It writes lane j of word x, of `size` words. */
  predicate Hits(a: Access, size: nat, x: nat, j: nat)
    requires size > 0
  {
    a.we && At(size, a.addr) == x && j < |a.sel| && a.sel[j]
  }

  /** The byte that the last of the accesses to hit a lane has left there. */
  function Lane(log: seq<Access>, size: nat, x: nat, j: nat): Byte
    requires size > 0 && j < 4
  {
    if log == [] then 0 else if Hits(Last(log), size, x, j) then Last(log).data[j] else Lane(Init(log), size, x, j)
  }

  /** A byte written is there until the same lane is written again. */
  lemma {:induction false} LaneKept(log: seq<Access>, w: Access, more: seq<Access>, size: nat, x: nat, j: nat)
    requires size > 0 && j < 4 && Hits(w, size, x, j)
    requires forall k :: 0 <= k < |more| ==> !Hits(more[k], size, x, j)
    ensures Lane(log + [w] + more, size, x, j) == w.data[j]
    decreases |more|
  {
    if more == [] {
      assert log + [w] + more == log + [w];
      Snoc(log, w);
    } else {
      assert log + [w] + more == (log + [w] + Init(more)) + [Last(more)];
      Snoc(log + [w] + Init(more), Last(more));
      LaneKept(log, w, Init(more), size, x, j);
    }
  }

  lemma {:induction false} LaneNever(log: seq<Access>, size: nat, x: nat, j: nat)
    requires size > 0 && j < 4 && forall k :: 0 <= k < |log| ==> !Hits(log[k], size, x, j)
    ensures Lane(log, size, x, j) == 0
  {
    if log != [] { LaneNever(Init(log), size, x, j); }
  }

  /** Memory holds what the accesses have left. */
  ghost predicate Holds(mem: seq<MemWord>, log: seq<Access>) {
    mem != [] && forall x, j :: 0 <= x < |mem| && 0 <= j < 4 ==> mem[x][j] == Lane(log, |mem|, x, j)
  }

  /** What one access makes of memory: only the word addressed changes, and of it only
      the lanes enabled. */
  ghost predicate Lanes(before: seq<MemWord>, mem: seq<MemWord>, writes: bool, a: Access) {
    && before != [] && |mem| == |before| && |a.sel| == 4
    && (forall x :: 0 <= x < |mem| && x != At(|mem|, a.addr) ==> mem[x] == before[x])
    && (forall j :: 0 <= j < 4 ==>
          mem[At(|mem|, a.addr)][j] == if writes && a.sel[j] then a.data[j] else before[At(|mem|, a.addr)][j])
  }

  lemma HoldsStep(before: seq<MemWord>, mem: seq<MemWord>, taken: bool, a: Access, log: seq<Access>)
    requires Holds(before, log) && Lanes(before, mem, taken && a.we, a)
    ensures Holds(mem, Push(log, taken, a))
  {
    Snoc(log, a);
    forall x, j | 0 <= x < |mem| && 0 <= j < 4
      ensures mem[x][j] == Lane(Push(log, taken, a), |mem|, x, j)
    {
      assert before[x][j] == Lane(log, |mem|, x, j);
      if taken {
        var more := log + [a];
        assert Lane(more, |mem|, x, j) ==
               if Hits(Last(more), |mem|, x, j) then Last(more).data[j] else Lane(Init(more), |mem|, x, j);
      }
    }
  }

  lemma StoredLanes(mem: seq<MemWord>, taken: bool, a: Access)
    requires mem != [] && |a.sel| == 4
    ensures Lanes(mem, if taken && a.we then Stored(mem, At(|mem|, a.addr), a.data, a.sel) else mem,
                  taken && a.we, a)
  {
    hide At;
  }

  /** A request not acknowledged yet: the call whose ring slot holds its acknowledgement. */
  datatype Pending = Pending(slot: int, isRead: bool, data: MemWord)

  /** Slots of the ring, for calls counted without wrapping. */
  function At(size: nat, t: int): (k: nat)
    requires size > 0
    ensures k < size
  {
    t % size
  }

  /** Addresses and call numbers wrap. */
  lemma Wraps(size: nat, t: int, turns: nat)
    requires size > 0
    ensures At(size, t + turns * size) == At(size, t)
  {
    ModShift(t, turns, size);
  }

  lemma FirstLap(size: nat, t: nat)
    requires t < size
    ensures At(size, t) == t
  {
  }

  ghost predicate Waiting(queue: seq<Pending>, t: int) {
    exists j :: 0 <= j < |queue| && queue[j].slot == t
  }

  /** Acknowledgements are due in the order of the requests. */
  ghost predicate InOrder(queue: seq<Pending>) {
    forall i, j :: 0 <= i < j < |queue| ==> queue[i].slot < queue[j].slot
  }

  /** The last `delay` slots of the ring say exactly which calls are waited for; reads
      have their data beside them. */
  ghost predicate Tracks(ack: seq<bool>, data: seq<MemWord>, delay: nat, now: int, queue: seq<Pending>) {
    && |ack| == |data| && 1 <= delay <= |ack|
    && InOrder(queue)
    && (forall j :: 0 <= j < |queue| ==> now - delay < queue[j].slot <= now)
    && (forall t :: now - delay < t <= now ==> (ack[At(|ack|, t)] <==> Waiting(queue, t)))
    && (forall j :: 0 <= j < |queue| && queue[j].isRead ==> data[At(|ack|, queue[j].slot)] == queue[j].data)
  }

  lemma SlotsDiffer(size: nat, a: int, b: int)
    requires size > 0 && a < b < a + size
    ensures At(size, a) != At(size, b)
  {
    var q := b / size - a / size;
    assert b % size - a % size == (b - a) - q * size;
    Multiple(q, size);
  }

  lemma Multiple(k: int, m: nat)
    ensures k >= 1 ==> k * m >= m
    ensures k <= 0 ==> k * m <= 0
  {
    if k >= 1 { MulMonotone(1, k, m); }
  }

  /** A call begins: the slot `delay` back is read, the next one cleared. */
  lemma PopStep(ack: seq<bool>, data: seq<MemWord>, delay: nat, now: int, queue: seq<Pending>)
    requires Tracks(ack, data, delay, now, queue)
    ensures var size := |ack|;
            var due := ack[At(size, now + 1 - delay)];
            && (due <==> queue != [] && queue[0].slot == now + 1 - delay)
            && (due && queue[0].isRead ==> data[At(size, now + 1 - delay)] == queue[0].data)
            && Tracks(ack[At(size, now + 1) := false], data, delay, now + 1, if due then queue[1..] else queue)
  {
    hide At;
    var size := |ack|;
    var due := ack[At(size, now + 1 - delay)];
    var rest := if due then queue[1..] else queue;
    assert due <==> Waiting(queue, now + 1 - delay);
    if due { assert forall j :: 0 <= j < |rest| ==> rest[j] == queue[j + 1]; }
    forall t | now + 1 - delay < t <= now + 1
      ensures ack[At(size, now + 1) := false][At(size, t)] <==> Waiting(rest, t)
    {
      if t <= now {
        SlotsDiffer(size, t, now + 1);
        StillWaiting(queue, due, t, now + 1 - delay);
      }
    }
  }

  lemma StillWaiting(queue: seq<Pending>, due: bool, t: int, first: int)
    requires due ==> queue != [] && queue[0].slot == first
    requires t != first
    ensures Waiting(if due then queue[1..] else queue, t) <==> Waiting(queue, t)
  {
    if due {
      var rest := queue[1..];
      if Waiting(queue, t) {
        var j :| 0 <= j < |queue| && queue[j].slot == t;
        assert rest[j - 1].slot == t;
      }
      if Waiting(rest, t) {
        var j :| 0 <= j < |rest| && rest[j].slot == t;
        assert queue[j + 1].slot == t;
      }
    }
  }

  /** A request joins at a slot behind all others. */
  lemma PushStep(ack: seq<bool>, data: seq<MemWord>, delay: nat, now: int, queue: seq<Pending>, p: Pending)
    requires Tracks(ack, data, delay, now, queue)
    requires now - delay < p.slot <= now && forall j :: 0 <= j < |queue| ==> queue[j].slot < p.slot
    ensures var size := |ack|;
            Tracks(ack[At(size, p.slot) := true],
                   if p.isRead then data[At(size, p.slot) := p.data] else data, delay, now, queue + [p])
  {
    var size := |ack|;
    forall t | now - delay < t <= now
      ensures ack[At(size, p.slot) := true][At(size, t)] <==> Waiting(queue + [p], t)
    {
      if t < p.slot { SlotsDiffer(size, t, p.slot); }
      if p.slot < t { SlotsDiffer(size, p.slot, t); }
      WaitingPush(queue, p, t);
    }
    forall j | 0 <= j < |queue| ensures At(size, queue[j].slot) != At(size, p.slot) {
      SlotsDiffer(size, queue[j].slot, p.slot);
    }
  }

  lemma WaitingPush(queue: seq<Pending>, p: Pending, t: int)
    ensures Waiting(queue + [p], t) <==> Waiting(queue, t) || p.slot == t
  {
    if Waiting(queue, t) {
      var j :| 0 <= j < |queue| && queue[j].slot == t;
      assert (queue + [p])[j].slot == t;
    }
    if p.slot == t { assert (queue + [p])[|queue|].slot == t; }
  }

  lemma NothingTracked(ack: seq<bool>, data: seq<MemWord>, delay: nat)
    requires |ack| == |data| && 1 <= delay <= |ack| && forall k :: 0 <= k < |ack| ==> !ack[k]
    ensures Tracks(ack, data, delay, 0, [])
  {
  }

  /** Doubling from a power of two keeps one, so the masks of the source are remainders. */
  function PowerAtLeast(n: nat, size: nat): (r: nat)
    requires size > 0
    ensures r >= n && r >= size
    decreases if size < n then n - size else 0
  {
    if size < n then PowerAtLeast(n, 2 * size) else size
  }

  /** It is the least power of two that is enough. */
  lemma {:induction false} LeastPower(n: nat, e: nat) returns (k: nat)
    ensures PowerAtLeast(n, Pow2(e)) == Pow2(k) && (k == e || Pow2(k) < 2 * n)
    decreases if Pow2(e) < n then n - Pow2(e) else 0
  {
    if Pow2(e) < n {
      assert Pow2(e + 1) == 2 * Pow2(e);
      k := LeastPower(n, e + 1);
    } else {
      k := e;
    }
  }

  class MemSim {
    const delay: nat
    const mem: array<MemWord>
    const fifoAck: array<bool>
    const fifoData: array<MemWord>
    var head: nat
    var cleared: bool
    ghost var now: int             // calls since the bus was last released
    ghost var queue: seq<Pending>  // requests accepted and not acknowledged
    ghost var log: seq<Access>     // requests accepted, ever

    /** A delay of zero acts as one. */
    ghost function Latency(): nat {
      if delay == 0 then 1 else delay
    }

    /** Memory is what the requests accepted have made of it. */
    ghost predicate Kept()
      reads this, mem
    {
      Holds(mem[..], log)
    }

    ghost predicate Valid()
      reads this, fifoAck, fifoData
    {
      && mem.Length > 0 && mem != fifoData && fifoAck.Length == fifoData.Length >= Latency()
      && (delay == 0 ==> fifoAck.Length == 1)
      && head == At(fifoAck.Length, now)
      && Tracks(fifoAck[..], fifoData[..], Latency(), now, queue)
      && (cleared ==> forall k :: 0 <= k < fifoAck.Length ==> !fifoAck[k])
    }

    constructor (nbytes: nat, delay: nat)
      ensures Valid() && Kept() && queue == [] && log == [] && this.delay == delay
      ensures mem.Length == PowerAtLeast(nbytes, 1)
      ensures fresh(mem) && fresh(fifoAck) && fresh(fifoData)
    {
      this.delay := delay;
      mem := new MemWord[PowerAtLeast(nbytes, 1)](_ => Nothing(4));
      fifoAck := new bool[PowerAtLeast(delay, 1)](_ => false);
      fifoData := new MemWord[PowerAtLeast(delay, 1)](_ => Nothing(4));
      head, cleared := 0, false;
      now, queue, log := 0, [], [];
    }

    /** The call with the bus released: everything pending is forgotten. */
    method Release()
      requires Valid()
      modifies `head, `cleared, `now, `queue, fifoAck
      ensures Valid() && queue == [] && cleared
    {
      if !cleared {
        for k := 0 to fifoAck.Length
          modifies fifoAck
          invariant forall j :: 0 <= j < k ==> !fifoAck[j]
        {
          fifoAck[k] := false;
        }
        cleared := true;
      }
      NothingTracked(fifoAck[..], fifoData[..], Latency());
      assert At(fifoAck.Length, 0) == 0;
      head := 0;
      now, queue := 0, [];
    }

    /** One call with the bus held. An acknowledgement answers the oldest request, once,
        and within the latency; for a read it brings the word memory held when the read
        was accepted. Requests that are not stalled act on memory at once, in order: a write on
        exactly its byte lanes. */
    method Apply(stb: bool, we: bool, addr: nat, data: MemWord, sel: seq<bool>, stall: bool)
      returns (oAck: bool, oData: MemWord)
      requires Valid() && Kept() && |sel| == 4
      modifies this, mem, fifoAck, fifoData
      ensures Valid() && Kept() && now == old(now) + 1
      ensures oAck <==> old(queue) != [] && old(queue)[0].slot == now - Latency()
      ensures oAck && old(queue)[0].isRead ==> oData == old(queue)[0].data
      ensures var rest := if oAck then old(queue)[1..] else old(queue);
              if stb && !stall then Joined(rest, queue, !we, old(mem[At(mem.Length, addr)])) else queue == rest
      ensures log == Push(old(log), stb && !stall, Access(addr, we, data, sel))
      ensures forall x :: 0 <= x < mem.Length && x != At(mem.Length, addr) ==> mem[x] == old(mem[x])
      ensures forall j :: 0 <= j < 4 ==>
                mem[At(mem.Length, addr)][j] == if stb && !stall && we && sel[j] then data[j]
                                                else old(mem[At(mem.Length, addr)][j])
    {
      hide Tracks, At, Stored, Joined, Holds;
      ghost var before, taken, a := mem[..], Both(stb, !stall), Access(addr, we, data, sel);
      oAck, oData := Begin();
      if stb {
        cleared := false;
        if !stall { Accept(we, addr, data, sel); }
      }
      assert mem[..] == if taken && we then Stored(before, At(mem.Length, addr), data, sel) else before;
      StoredLanes(before, taken, a);
      HoldsStep(before, mem[..], taken, a, log);
      log := Push(log, taken, a);
    }

    /** The byte lane a read of word x would be answered with now: the one of the last write
        to it, whatever was accepted since. */
    lemma Brings(past: seq<Access>, w: Access, more: seq<Access>, x: nat, j: nat)
      requires mem.Length > 0 && Kept() && log == past + [w] + more && j < 4
      requires x == At(mem.Length, w.addr) && |w.sel| == 4 && w.we && w.sel[j]
      requires forall k :: 0 <= k < |more| ==> !Hits(more[k], mem.Length, x, j)
      ensures mem[x][j] == w.data[j]
    {
      LaneKept(past, w, more, mem.Length, x, j);
      assert mem[..][x][j] == Lane(log, mem.Length, x, j);
    }

    /** No write yet: the lane is still zero. */
    lemma BringsZero(x: nat, j: nat)
      requires x < mem.Length && Kept() && j < 4
      requires forall k :: 0 <= k < |log| ==> !Hits(log[k], mem.Length, x, j)
      ensures mem[x][j] == 0
    {
      LaneNever(log, mem.Length, x, j);
      assert mem[..][x][j] == Lane(log, mem.Length, x, j);
    }

    /** An accepted request: reads are answered from memory as it is now. */
    method Accept(we: bool, addr: nat, data: MemWord, sel: seq<bool>)
      requires Valid() && |sel| == 4 && !fifoAck[head] && !cleared
      modifies `queue, mem, fifoAck, fifoData
      ensures Valid()
      ensures Joined(old(queue), queue, !we, old(mem[At(mem.Length, addr)]))
      ensures mem[..] == if we then Stored(old(mem[..]), At(mem.Length, addr), data, sel) else old(mem[..])
    {
      hide Tracks, At;
      var place := At(mem.Length, addr);
      var word := mem[place];
      if we {
        var k, t := WriteSlot();
        Join(k, t, false, data);
        mem[place] := Merge(word, data, sel);
      } else {
        AllBefore(now);
        Join(head, now, true, word);
      }
    }

    /** The ring turns by one: the slot that leaves it is the answer. */
    method Begin() returns (oAck: bool, oData: MemWord)
      requires Valid()
      modifies `head, `now, `queue, fifoAck
      ensures Valid() && now == old(now) + 1 && !fifoAck[head]
      ensures oAck <==> old(queue) != [] && old(queue)[0].slot == now - Latency()
      ensures oAck && old(queue)[0].isRead ==> oData == old(queue)[0].data
      ensures queue == if oAck then old(queue)[1..] else old(queue)
    {
      hide Tracks, At;
      var size := fifoAck.Length;
      PopStep(fifoAck[..], fifoData[..], Latency(), now, queue);
      StepSlot(size, now);
      head := At(size, head + 1);
      Tail(size, now + 1, head, delay);
      var tail := At(size, head + size - delay);
      oAck, oData := fifoAck[tail], fifoData[tail];
      fifoAck[head] := false;
      now := now + 1;
      queue := if oAck then queue[1..] else queue;
    }

    /** A request joins the ring. */
    method Join(k: nat, ghost t: int, isRead: bool, data: MemWord)
      requires Valid() && !cleared && k == At(fifoAck.Length, t) && now - Latency() < t <= now
      requires forall j :: 0 <= j < |queue| ==> queue[j].slot < t
      modifies `queue, fifoAck, fifoData
      ensures Valid() && queue == old(queue) + [Pending(t, isRead, data)]
    {
      hide Tracks, At;
      PushStep(fifoAck[..], fifoData[..], Latency(), now, queue, Pending(t, isRead, data));
      fifoAck[k] := true;
      if isRead { fifoData[k] := data; }
      queue := queue + [Pending(t, isRead, data)];
    }

    /** The slot for the acknowledgement of a write: half the delay back, unless a
        request due later than that is still waiting. */
    method WriteSlot() returns (k: nat, ghost t: int)
      requires Valid() && (fifoAck.Length > 0 ==> !fifoAck[head])
      ensures now - Latency() < t <= now && k == At(fifoAck.Length, t)
      ensures forall j :: 0 <= j < |queue| ==> queue[j].slot < t
      ensures t == now || (t == now - delay / 2 && !Waiting(queue, t))
    {
      hide Tracks, At, Waiting;
      var size := fifoAck.Length;
      var mWrite := At(size, head + size - delay / 2);
      WrapBack(size, now, head, delay / 2);
      k := mWrite;
      t := now - delay / 2;
      while k != head
        invariant now - delay / 2 <= t <= now && k == At(size, t)
        invariant forall s :: now - delay / 2 <= s < t ==> !fifoAck[At(size, s)]
        decreases now - t
      {
        if fifoAck[k] {
          AllBefore(now);
          return head, now;
        }
        if t < now { SlotsDiffer(size, t, now); }
        StepSlot(size, t);
        k := At(size, k + 1);
        t := t + 1;
      }
      if t < now { SlotsDiffer(size, t, now); }
      t := now - delay / 2;
      k := mWrite;
      AllBefore(t);
    }

    /** Requests wait in front of a stretch of the ring that holds no acknowledgement. */
    lemma AllBefore(t: int)
      requires Valid() && now - Latency() < t <= now
      requires forall s :: t <= s <= now ==> !fifoAck[At(fifoAck.Length, s)]
      ensures forall j :: 0 <= j < |queue| ==> queue[j].slot < t
      ensures !Waiting(queue, t)
    {
      forall j | 0 <= j < |queue| ensures queue[j].slot < t {
        assert Waiting(queue, queue[j].slot);
        assert fifoAck[..][At(fifoAck.Length, queue[j].slot)];
      }
      assert !fifoAck[..][At(fifoAck.Length, t)];
    }
  }

  lemma ModShift(a: int, q: int, m: nat)
    requires m > 0
    ensures (a + q * m) % m == a % m
  {
    var b := a + q * m;
    var k := q - b / m + a / m;
    assert b % m - a % m == k * m;
    Multiple(k, m);
    Multiple(-k, m);
  }

  lemma WrapBack(size: nat, now: int, head: nat, back: nat)
    requires size > 0 && head == At(size, now) && back < size
    ensures At(size, head + size - back) == At(size, now - back)
  {
    var q := now / size;
    assert now - back == (head + size - back) + (q - 1) * size;
    ModShift(head + size - back, q - 1, size);
  }

  /** One request more, and for a read the word it is to bring. */
  predicate Joined(rest: seq<Pending>, queue: seq<Pending>, isRead: bool, word: MemWord) {
    && |queue| == |rest| + 1 && queue[..|rest|] == rest
    && Last(queue).isRead == isRead && (isRead ==> Last(queue).data == word)
  }

  function Stored(mem: seq<MemWord>, k: nat, data: MemWord, sel: seq<bool>): seq<MemWord>
    requires k < |mem| && |sel| == 4
  {
    mem[k := Merge(mem[k], data, sel)]
  }

  lemma Tail(size: nat, now: int, head: nat, delay: nat)
    requires size > 0 && head == At(size, now) && delay <= size && (delay == 0 ==> size == 1)
    ensures At(size, head + size - delay) == At(size, now - if delay == 0 then 1 else delay)
  {
    var q := now / size;
    assert now - delay == (head + size - delay) + (q - 1) * size;
    ModShift(head + size - delay, q - 1, size);
  }

  lemma StepSlot(size: nat, t: int)
    requires size > 0
    ensures At(size, At(size, t) + 1) == At(size, t + 1)
  {
    assert t + 1 == (At(size, t) + 1) + t / size * size;
    ModShift(At(size, t) + 1, t / size, size);
  }
}
