/** A memory used as a ring, addressed by counts that only grow. */
module Ring {
  import opened Arithmetic

  /** The place of a count in a memory that is used as a ring. */
  function Slot(depth: nat, n: nat): (i: nat)
    requires depth > 0
    ensures i < depth
  {
    n % depth
  }

  lemma SlotParts(depth: nat, n: nat) returns (q: nat)
    requires depth > 0
    ensures n == q * depth + Slot(depth, n)
  {
    q := n / depth;
    DivMod(n, depth);
  }

  lemma SlotIs(depth: nat, n: nat, q: nat, t: nat)
    requires n == q * depth + t && t < depth
    ensures Slot(depth, n) == t
  {
    DivModUnique(n, q, t, depth);
  }

  /** Counts less than a depth apart have different places. */
  lemma SlotsApart(depth: nat, a: nat, b: nat)
    requires depth > 0 && a <= b < a + depth
    ensures Slot(depth, a) == Slot(depth, b) <==> a == b
  {
    hide Slot;
    var p := SlotParts(depth, a);
    var q := SlotParts(depth, b);
    MulMonotone(p, q, depth);
    MulMonotone(q, p, depth);
  }

  lemma SlotAgain(depth: nat, n: nat)
    requires depth > 0
    ensures Slot(depth, n + depth) == Slot(depth, n)
  {
    hide Slot;
    var q := SlotParts(depth, n);
    assert (q + 1) * depth == q * depth + depth;
    SlotIs(depth, n + depth, q + 1, Slot(depth, n));
  }

  /** Counting on twice the depth, and then on the depth. */
  lemma SlotOfDouble(depth: nat, n: nat)
    requires depth > 0
    ensures Slot(depth, Slot(2 * depth, n)) == Slot(depth, n)
  {
    hide Slot;
    var q := SlotParts(2 * depth, n);
    var s := SlotParts(depth, Slot(2 * depth, n));
    assert (2 * q + s) * depth == q * (2 * depth) + s * depth;
    SlotIs(depth, n, 2 * q + s, Slot(depth, Slot(2 * depth, n)));
  }

  lemma SlotNext(depth: nat, n: nat)
    requires depth > 0
    ensures Slot(depth, n + 1) == if Slot(depth, n) + 1 == depth then 0 else Slot(depth, n) + 1
    ensures Slot(depth, Slot(depth, n) + 1) == Slot(depth, n + 1)
  {
    ModNext(n, depth);
  }

  /** The words between the two counts are in memory. */
  ghost predicate Stored<T>(mem: seq<T>, depth: nat, rd: nat, written: seq<T>) {
    |mem| == depth > 0 && forall k: nat :: rd <= k < |written| ==> mem[Slot(depth, k)] == written[k]
  }

  lemma StoreStep<T>(mem: seq<T>, depth: nat, rd: nat, written: seq<T>, x: T)
    requires Stored(mem, depth, rd, written) && rd <= |written| < rd + depth
    ensures Stored(mem[Slot(depth, |written|) := x], depth, rd, written + [x])
  {
    hide Slot;
    forall k: nat | rd <= k < |written| ensures Slot(depth, k) != Slot(depth, |written|) {
      SlotsApart(depth, k, |written|);
    }
  }

  lemma HeadStored<T>(mem: seq<T>, depth: nat, rd: nat, written: seq<T>, empty: bool)
    requires Stored(mem, depth, rd, written)
    requires !empty ==> rd < |written|
    ensures !empty ==> mem[Slot(depth, rd)] == written[rd]
  {
  }

  lemma FewerStored<T>(mem: seq<T>, depth: nat, rd: nat, written: seq<T>)
    requires Stored(mem, depth, rd, written)
    ensures Stored(mem, depth, rd + 1, written)
  {
  }
}
