/** Facts of multiplication and division that the solver has to be told. */
module Arithmetic {

  function Min(a: nat, b: nat): nat {
    if a < b then a else b
  }

  function Quotient(a: nat, w: nat): (q: nat)
    requires w > 0
  {
    a / w
  }

  lemma DivMod(a: nat, w: nat)
    requires w > 0
    ensures a == a / w * w + a % w
  {
  }

  lemma {:induction false} MulMonotone(a: nat, b: nat, w: nat)
    ensures a <= b ==> a * w <= b * w
    ensures a < b ==> a * w + w <= b * w
    decreases b
  {
    if a < b {
      MulMonotone(a, b - 1, w);
      assert (b - 1) * w == b * w - w;
    }
  }

  /** A count of work, and of the clocks that may still pass before some of it gets done. */
  function Budget(work: nat, delay: nat, waited: nat): nat
    requires waited <= delay
  {
    work * (delay + 1) + (delay - waited)
  }

  /** Work done, or a clock waited: the budget shrinks. */
  lemma BudgetStep(work: nat, work2: nat, delay: nat, waited: nat, waited2: nat)
    requires waited <= delay && waited2 <= delay
    requires work2 < work || (work2 <= work && waited2 > waited)
    ensures Budget(work2, delay, waited2) < Budget(work, delay, waited)
  {
    MulMonotone(work2, work, delay + 1);
  }

  /** Quotient and remainder are determined. */
  lemma DivModUnique(a: nat, q: nat, m: nat, w: nat)
    requires a == q * w + m && m < w
    ensures a / w == q && a % w == m
  {
    DivMod(a, w);
    MulMonotone(a / w, q, w);
    MulMonotone(q, a / w, w);
  }

  lemma ModNext(n: nat, m: nat)
    requires m > 0
    ensures (n + 1) % m == if n % m + 1 == m then 0 else n % m + 1
    ensures (n % m + 1) % m == (n + 1) % m
  {
    var q, r := n / m, n % m;
    DivMod(n, m);
    if r + 1 == m {
      assert (q + 1) * m == q * m + m;
      DivModUnique(n + 1, q + 1, 0, m);
      DivModUnique(r + 1, 1, 0, m);
    } else {
      DivModUnique(n + 1, q, r + 1, m);
      DivModUnique(r + 1, 0, r + 1, m);
    }
  }
}
