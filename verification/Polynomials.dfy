/** The CRC of Serial ATA as a remainder: what advance_crc computes, said apart from its loop. */
module Polynomials {
  import opened Words
  import opened Crc

  /** A polynomial over the field of two elements: its coefficients, highest first. */
  type Polynomial = seq<bool>

  /** The product, by Horner's rule in the first factor. */
  function Times(q: Polynomial, g: Polynomial): (r: Polynomial)
    ensures |r| == |q| + |g|
  {
    if q == [] then Zeros(|g|)
    else
      var t := Times(Init(q), g) + [false];
      if Last(q) then XorBits(t, Zeros(|q|) + g) else t
  }

  /** x^32 + x^26 + x^23 + x^22 + x^16 + x^12 + x^11 + x^10 + x^8 + x^7 + x^5 + x^4 + x^2 + x + 1 */
  function Generator(): (g: Polynomial)
    ensures |g| == 33
  {
    seq(33, i requires 0 <= i < 33 => 32 - i in {32, 26, 23, 22, 16, 12, 11, 10, 8, 7, 5, 4, 2, 1, 0})
  }

  /** The loop shifts by the generator without its leading term. */
  lemma GeneratorTail(j: nat)
    requires j < 32
    ensures Generator()[j + 1] == Unpack(POLYNOMIAL)[j] && Generator()[0]
  {
    PolynomialBits();
  }

  lemma PolynomialBits()
    ensures forall i: nat :: i < 32 ==> BitAt(0x04c11db7, i) == (i in {26, 23, 22, 16, 12, 11, 10, 8, 7, 5, 4, 2, 1, 0})
  {
    hide BitAt;
    Digit(0x04c11db7, 0x04c11db, 0x7);
    Digit(0x04c11db, 0x04c11d, 0xb);
    Digit(0x04c11d, 0x04c11, 0xd);
    Digit(0x04c11, 0x04c1, 0x1);
    Digit(0x04c1, 0x04c, 0x1);
    Digit(0x04c, 0x04, 0xc);
    Digit(0x04, 0x0, 0x4);
    Digit(0x0, 0x0, 0x0);
    forall i: nat | i < 32 ensures BitAt(0x04c11db7, i) == (i in {26, 23, 22, 16, 12, 11, 10, 8, 7, 5, 4, 2, 1, 0}) {
      if i >= 4 { assert BitAt(0x04c11db7, i) == BitAt(0x04c11db, i - 4); }
      if i >= 8 { assert BitAt(0x04c11db, i - 4) == BitAt(0x04c11d, i - 8); }
      if i >= 12 { assert BitAt(0x04c11d, i - 8) == BitAt(0x04c11, i - 12); }
      if i >= 16 { assert BitAt(0x04c11, i - 12) == BitAt(0x04c1, i - 16); }
      if i >= 20 { assert BitAt(0x04c1, i - 16) == BitAt(0x04c, i - 20); }
      if i >= 24 { assert BitAt(0x04c, i - 20) == BitAt(0x04, i - 24); }
      if i >= 28 { assert BitAt(0x04, i - 24) == BitAt(0x0, i - 28); }
    }
  }

  // ---- The register as a remainder ----

  /** The dividend after k bits of d: c times x^k, and those bits times x^32. */
  function Dividend(c: Register, d: Register, k: nat): (p: Polynomial)
    requires k <= 32
    ensures |p| == k + 33
  {
    [false] + XorBits(c + Zeros(k), d[..k] + Zeros(32))
  }

  /** q times the generator, and the remainder r. */
  function Divided(q: Polynomial, r: Register): (p: Polynomial)
    ensures |p| == |q| + 33
  {
    XorBits(Times(q, Generator()), Zeros(|q| + 1) + r)
  }

  /** One turn of the loop: the quotient gains a bit. */
  lemma DividedStep(c: Register, d: Register, k: nat, q: Polynomial, r: Register)
    requires k < 32 && |q| == k && Divided(q, r) == Dividend(c, d, k)
    ensures Divided(q + [r[0] != d[k]], Shift(r, d[k])) == Dividend(c, d, k + 1)
  {
    hide Generator;
    var b, r2 := r[0] != d[k], Shift(r, d[k]);
    var q2 := q + [b];
    Snoc(q, b);
    var x, y := Divided(q2, r2), Dividend(c, d, k + 1);
    forall i | 0 <= i < k + 34 ensures x[i] == y[i] {
      ProductBit(q, b, i);
      DividendBit(c, d, k, i);
      if i < k + 33 { assert Divided(q, r)[i] == Dividend(c, d, k)[i]; }
      if i >= k + 1 { GeneratorTop(i - k - 1); }
      if i >= k + 2 { ShiftBit(r, d[k], i - k - 2); }
    }
  }

  lemma ProductBit(q: Polynomial, b: bool, i: nat)
    requires i < |q| + 34
    ensures Times(q + [b], Generator())[i]
            == ((i < |q| + 33 && Times(q, Generator())[i]) != (b && i >= |q| + 1 && Generator()[i - |q| - 1]))
  {
    hide Generator, Times;
    var g := Generator();
    OneFactor(q, b, g);
    var t, u := Times(q, g) + [false], Zeros(|q| + 1) + g;
    assert t[i] == (i < |q| + 33 && Times(q, g)[i]);
    assert u[i] == (i >= |q| + 1 && g[i - |q| - 1]);
  }

  lemma OneFactor(q: Polynomial, b: bool, g: Polynomial)
    ensures var t := Times(q, g) + [false];
            Times(q + [b], g) == if b then XorBits(t, Zeros(|q| + 1) + g) else t
  {
    Snoc(q, b);
  }

  lemma DividendBit(c: Register, d: Register, k: nat, i: nat)
    requires k < 32 && i < k + 34
    ensures Dividend(c, d, k + 1)[i] == ((i < k + 33 && Dividend(c, d, k)[i]) != (i == k + 1 && d[k]))
  {
  }

  lemma GeneratorTop(j: nat)
    requires j < 33
    ensures Generator()[j] == if j == 0 then true else Unpack(POLYNOMIAL)[j - 1]
  {
    if j > 0 { GeneratorTail(j - 1); }
  }

  lemma {:induction false} Divides(c: Register, d: Register, k: nat) returns (q: Polynomial, r: Register)
    requires k <= 32
    ensures |q| == k && r == Feed(c, d[..k]) && Divided(q, r) == Dividend(c, d, k)
    decreases k
  {
    hide Generator, Divided, Dividend;
    if k == 0 {
      q, r := [], c;
      NothingDivided(c, d);
    } else {
      var q0, r0 := Divides(c, d, k - 1);
      q, r := q0 + [r0[0] != d[k - 1]], Shift(r0, d[k - 1]);
      DividedStep(c, d, k - 1, q0, r0);
      FeedConcat(c, d[..k - 1], [d[k - 1]]);
      assert d[..k] == d[..k - 1] + [d[k - 1]];
      assert Feed(r0, [d[k - 1]]) == Feed(Shift(r0, d[k - 1]), [][..]);
    }
  }

  lemma NothingDivided(c: Register, d: Register)
    ensures Divided([], c) == Dividend(c, d, 0)
  {
    hide Generator;
    assert d[..0] + Zeros(32) == Zeros(32) && c + Zeros(0) == c;
  }

  /** What the register computes: (c + d) times x^32 is q times the generator, with the register for
      the remainder. */
  lemma Remainder(c: Dword, d: Dword) returns (q: Polynomial)
    ensures |q| == 32
    ensures XorBits(Times(q, Generator()), Zeros(33) + Unpack(Advance(c, d)))
            == [false] + XorBits(Unpack(c), Unpack(d)) + Zeros(32)
  {
    hide Generator, Feed;
    var r;
    q, r := Divides(Unpack(c), Unpack(d), 32);
    assert Unpack(d)[..32] == Unpack(d);
    UnpackPack(Feed(Unpack(c), Unpack(d)));
    assert Dividend(Unpack(c), Unpack(d), 32) == [false] + XorBits(Unpack(c), Unpack(d)) + Zeros(32);
  }

  /** No other word is: a multiple of the generator is nothing, or no remainder. */
  lemma {:induction false} MultiplesAreLarge(q: Polynomial, m: nat)
    requires m < |q| && q[m] && forall i :: 0 <= i < m ==> !q[i]
    ensures Times(q, Generator())[m + 1] && forall i :: 0 <= i <= m ==> !Times(q, Generator())[i]
    decreases |q|
  {
    hide Generator, Times;
    GeneratorTop(0);
    var more := Init(q);
    assert q == more + [Last(q)] && forall i :: 0 <= i < |more| ==> more[i] == q[i];
    if m < |more| {
      MultiplesAreLarge(more, m);
    } else {
      NoMultiple(more);
    }
    forall i | 0 <= i <= m + 1 ensures Times(q, Generator())[i] == (i == m + 1) {
      ProductBit(more, Last(q), i);
    }
  }

  lemma {:induction false} NoMultiple(q: Polynomial)
    requires forall i :: 0 <= i < |q| ==> !q[i]
    ensures Times(q, Generator()) == Zeros(|q| + 33)
    decreases |q|
  {
    hide Generator, Times;
    if q == [] {
      NoFactor(q);
    } else {
      var more := Init(q);
      assert q == more + [Last(q)] && forall i :: 0 <= i < |more| ==> more[i] == q[i];
      NoMultiple(more);
      OneFactor(more, Last(q), Generator());
      assert Zeros(|more| + 33) + [false] == Zeros(|q| + 33);
    }
  }

  /** So the remainder is determined by what it is to be. */
  lemma RemainderUnique(c: Dword, d: Dword, q: Polynomial, r: Register)
    requires |q| == 32
    requires XorBits(Times(q, Generator()), Zeros(33) + r) == [false] + XorBits(Unpack(c), Unpack(d)) + Zeros(32)
    ensures r == Unpack(Advance(c, d))
  {
    hide Generator, Feed;
    var p := Remainder(c, d);
    var s, e := Unpack(Advance(c, d)), XorBits(p, q);
    TimesXor(p, q);
    var x := Times(e, Generator());
    forall i | 0 <= i < 65 ensures x[i] == (i >= 33 && r[i - 33] != s[i - 33]) {
      assert XorBits(Times(q, Generator()), Zeros(33) + r)[i] == XorBits(Times(p, Generator()), Zeros(33) + s)[i];
    }
    if m :| 0 <= m < 32 && e[m] {
      FirstTerm(e, m);
    } else {
      NoMultiple(e);
      forall i | 0 <= i < 32 ensures r[i] == s[i] {
        assert !x[i + 33];
      }
    }
  }

  lemma {:induction false} FirstTerm(q: Polynomial, m: nat)
    requires m < |q| && q[m]
    ensures exists i :: 1 <= i <= |q| && Times(q, Generator())[i]
    decreases m
  {
    hide Generator, Times;
    if i :| 0 <= i < m && q[i] {
      FirstTerm(q, i);
    } else {
      MultiplesAreLarge(q, m);
    }
  }

  lemma {:induction false} TimesXor(p: Polynomial, q: Polynomial)
    requires |p| == |q|
    ensures Times(XorBits(p, q), Generator()) == XorBits(Times(p, Generator()), Times(q, Generator()))
    decreases |p|
  {
    hide Generator, Times, XorBits;
    if p == [] {
      NoFactor(p);
      NoFactor(q);
      NoFactor(XorBits(p, q));
    } else {
      var e := XorBits(p, q);
      TimesXor(Init(p), Init(q));
      assert Init(e) == XorBits(Init(p), Init(q));
      var x, y, z := Times(e, Generator()), Times(p, Generator()), Times(q, Generator());
      forall i | 0 <= i < |x| ensures x[i] == (y[i] != z[i]) {
        LastTerm(p, i);
        LastTerm(q, i);
        LastTerm(e, i);
      }
    }
  }

  lemma NoFactor(q: Polynomial)
    requires q == []
    ensures Times(q, Generator()) == Zeros(33)
  {
    hide Generator;
  }

  lemma LastTerm(q: Polynomial, i: nat)
    requires q != [] && i < |q| + 33
    ensures Times(q, Generator())[i]
            == ((i < |q| + 32 && Times(Init(q), Generator())[i]) != (Last(q) && i >= |q| && Generator()[i - |q|]))
  {
    hide Generator, Times;
    ProductBit(Init(q), Last(q), i);
  }

  /** The value before the first word. */
  lemma StartsAt()
    ensures CrcOf([]) == 0x52325032
  {
  }

  /** A word 1 taken in by an empty register leaves the generator without its leading term. */
  lemma OneWord()
    ensures Advance(0, 1) == 0x04c11db7
  {
    hide Generator, Advance;
    var q, r := Zeros(31) + [true], Unpack(0x04c11db7);
    NoMultiple(Zeros(31));
    OneFactor(Zeros(31), true, Generator());
    Ones();
    var x, y := XorBits(Times(q, Generator()), Zeros(33) + r), [false] + XorBits(Unpack(0), Unpack(1)) + Zeros(32);
    forall i | 0 <= i < 65 ensures x[i] == y[i] {
      if i >= 32 { GeneratorTop(i - 32); }
    }
    RemainderUnique(0, 1, q, r);
    UnpackInjective(Advance(0, 1), 0x04c11db7);
  }

  lemma Ones()
    ensures forall i :: 0 <= i < 32 ==> !Unpack(0)[i] && (Unpack(1)[i] <==> i == 31)
  {
    forall i: nat ensures !BitAt(0, i) && (BitAt(1, i) <==> i == 0) {
      NoBits(i);
    }
  }

  lemma {:induction false} NoBits(i: nat)
    ensures !BitAt(0, i) && (BitAt(1, i) <==> i == 0)
  {
    if i > 0 { NoBits(i - 1); }
  }
}
