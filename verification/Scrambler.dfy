/** The SATA scrambler: the function `scramble` of satatx_scrambler and satarx_scrambler. */
module Scrambler {
  import opened Words

  type Fill = f: seq<bool> | |f| == 16 witness Zeros(16)

  const POLYNOMIAL: Fill := Low16(0xa011)
  const INITIAL: Fill := Low16(0xffff)

  function Low16(n: nat): (b: seq<bool>)
    ensures |b| == 16
  {
    seq(16, i requires 0 <= i < 16 => BitAt(n, 15 - i))
  }

  function Lfsr(f: Fill): Fill {
    var s := f[1..] + [false];
    if f[0] then XorBits(s, POLYNOMIAL) else s
  }

  function Iterate(f: Fill, k: nat): Fill {
    if k == 0 then f else Lfsr(Iterate(f, k - 1))
  }

  /** The 32 pseudo-random bits: bit k is the top bit of the k-th fill. */
  function PrnBits(f: Fill): (b: seq<bool>)
    ensures |b| == 32
  {
    seq(32, i requires 0 <= i < 32 => Iterate(f, 31 - i)[0])
  }

  function Prn(f: Fill): Dword {
    Pack(PrnBits(f))
  }

  function NextFill(f: Fill): Fill {
    Iterate(f, 32)
  }

  /** The loop of `scramble`; s_prn[k] is index 31 - k from the top. */
  method ScrambleWord(prior: Fill) returns (prn: Dword, s_fill: Fill)
    ensures prn == Prn(prior) && s_fill == NextFill(prior)
  {
    s_fill := prior;
    var s_prn := seq(32, i => false);
    for k := 0 to 32
      invariant |s_prn| == 32
      invariant s_fill == Iterate(prior, k)
      invariant forall i :: 32 - k <= i < 32 ==> s_prn[i] == Iterate(prior, 31 - i)[0]
    {
      s_prn := s_prn[31 - k := s_fill[0]];
      if s_fill[0] {
        s_fill := XorBits(s_fill[1..] + [false], POLYNOMIAL);
      } else {
        s_fill := s_fill[1..] + [false];
      }
    }
    assert s_prn == PrnBits(prior);
    prn := Pack(s_prn);
  }

  // ---- The key stream ----

  /** The bits that scramble a packet, first to last: each is the sum of those 1, 3, 12 and 16 before it,
      starting from a register of ones. */
  function Key(k: nat): bool {
    (k < 16 || Key(k - 16)) != ((k >= 1 && Key(k - 1)) != ((k >= 3 && Key(k - 3)) != (k >= 12 && Key(k - 12))))
  }

  lemma GeneratorTaps(i: nat)
    requires i < 16
    ensures POLYNOMIAL[i] == (i in {0, 2, 11, 15}) && INITIAL[i]
  {
    hide BitAt;
    Digit(0xa011, 0xa01, 0x1);
    Digit(0xa01, 0xa0, 0x1);
    Digit(0xa0, 0xa, 0x0);
    Digit(0xa, 0x0, 0xa);
    Digit(0xffff, 0xfff, 0xf);
    Digit(0xfff, 0xff, 0xf);
    Digit(0xff, 0xf, 0xf);
    Digit(0xf, 0x0, 0xf);
    if i <= 11 {
      assert BitAt(0xa011, 15 - i) == BitAt(0xa01, 11 - i) && BitAt(0xffff, 15 - i) == BitAt(0xfff, 11 - i);
    }
    if i <= 7 { assert BitAt(0xa01, 11 - i) == BitAt(0xa0, 7 - i) && BitAt(0xfff, 11 - i) == BitAt(0xff, 7 - i); }
    if i <= 3 { assert BitAt(0xa0, 7 - i) == BitAt(0xa, 3 - i) && BitAt(0xff, 7 - i) == BitAt(0xf, 3 - i); }
  }

  /** Bit i of the register after k turns, from the key stream before them. */
  function FillBit(k: nat, i: nat): bool {
    (k + i < 16 || (k >= 16 - i && Key(k + i - 16)))
    != ((i < 1 && k >= 1 && Key(k - 1))
        != ((i < 3 && k >= 3 - i && Key(k + i - 3)) != (i < 12 && k >= 12 - i && Key(k + i - 12))))
  }

  lemma {:induction false} RegisterBits(k: nat)
    ensures forall i :: 0 <= i < 16 ==> Iterate(INITIAL, k)[i] == FillBit(k, i)
    decreases k
  {
    hide Lfsr, Key;
    forall i: nat | i < 16 ensures Iterate(INITIAL, k)[i] == FillBit(k, i) {
      GeneratorTaps(i);
      if k > 0 {
        RegisterBits(k - 1);
        LfsrBit(Iterate(INITIAL, k - 1), i);
        TopBit(k - 1);
      }
    }
  }

  lemma TopBit(k: nat)
    ensures FillBit(k, 0) == Key(k)
  {
  }

  /** A fill so many words into a packet. */
  function FillAt(k: nat): Fill {
    if k == 0 then INITIAL else NextFill(FillAt(k - 1))
  }

  lemma {:induction false} IterateAdds(f: Fill, j: nat, k: nat)
    ensures Iterate(Iterate(f, j), k) == Iterate(f, j + k)
    decreases k
  {
    if k > 0 { IterateAdds(f, j, k - 1); }
  }

  lemma {:induction false} FillIterates(n: nat)
    ensures FillAt(n) == Iterate(INITIAL, 32 * n)
  {
    hide Lfsr;
    if n > 0 {
      FillIterates(n - 1);
      IterateAdds(INITIAL, 32 * (n - 1), 32);
    }
  }

  /** Bit k of the mask for word n of a packet, counted from the lowest, is bit 32 n + k of the key
      stream. */
  lemma MaskBits(n: nat, k: nat)
    requires k < 32
    ensures BitAt(Prn(FillAt(n)), k) == Key(32 * n + k)
  {
    hide Lfsr, Key, Iterate;
    FillIterates(n);
    IterateAdds(INITIAL, 32 * n, k);
    RegisterBits(32 * n + k);
    TopBit(32 * n + k);
    UnpackPack(PrnBits(FillAt(n)));
    assert Unpack(Prn(FillAt(n)))[31 - k] == BitAt(Prn(FillAt(n)), k);
  }

  lemma FirstKeys()
    ensures forall k: nat :: k < 32 ==> Key(k) == (k in {0, 2, 3, 7, 9, 10, 12, 13, 14, 17, 20, 22, 23, 25, 30, 31})
  {
    assert Key(0) && !Key(1) && Key(2) && Key(3) && !Key(4) && !Key(5) && !Key(6) && Key(7);
    assert !Key(8) && Key(9) && Key(10) && !Key(11) && Key(12) && Key(13) && Key(14) && !Key(15);
    assert !Key(16) && Key(17) && !Key(18) && !Key(19) && Key(20) && !Key(21) && Key(22) && Key(23);
    assert !Key(24) && Key(25) && !Key(26) && !Key(27) && !Key(28) && !Key(29) && Key(30) && Key(31);
  }

  lemma FirstBits()
    ensures forall k: nat :: k < 32
              ==> BitAt(0xc2d2768d, k) == (k in {0, 2, 3, 7, 9, 10, 12, 13, 14, 17, 20, 22, 23, 25, 30, 31})
  {
    hide BitAt;
    Digit(0xc2d2768d, 0xc2d2768, 0xd);
    Digit(0xc2d2768, 0xc2d276, 0x8);
    Digit(0xc2d276, 0xc2d27, 0x6);
    Digit(0xc2d27, 0xc2d2, 0x7);
    Digit(0xc2d2, 0xc2d, 0x2);
    Digit(0xc2d, 0xc2, 0xd);
    Digit(0xc2, 0xc, 0x2);
    Digit(0xc, 0x0, 0xc);
    forall k: nat | k < 32
      ensures BitAt(0xc2d2768d, k) == (k in {0, 2, 3, 7, 9, 10, 12, 13, 14, 17, 20, 22, 23, 25, 30, 31})
    {
      if k >= 4 { assert BitAt(0xc2d2768d, k) == BitAt(0xc2d2768, k - 4); }
      if k >= 8 { assert BitAt(0xc2d2768, k - 4) == BitAt(0xc2d276, k - 8); }
      if k >= 12 { assert BitAt(0xc2d276, k - 8) == BitAt(0xc2d27, k - 12); }
      if k >= 16 { assert BitAt(0xc2d27, k - 12) == BitAt(0xc2d2, k - 16); }
      if k >= 20 { assert BitAt(0xc2d2, k - 16) == BitAt(0xc2d, k - 20); }
      if k >= 24 { assert BitAt(0xc2d, k - 20) == BitAt(0xc2, k - 24); }
      if k >= 28 { assert BitAt(0xc2, k - 24) == BitAt(0xc, k - 28); }
    }
  }

  /** The first mask of every packet, a value that the standard quotes. */
  lemma FirstMask()
    ensures Prn(INITIAL) == 0xc2d2768d
  {
    assert FillAt(0) == INITIAL;
    hide BitAt, Prn, Key, FillAt;
    FirstKeys();
    FirstBits();
    forall k: nat | k < 32 ensures BitAt(Prn(INITIAL), k) == BitAt(0xc2d2768d, k) {
      MaskBits(0, k);
    }
    Pow2Of32();
    BitsDetermine(Prn(INITIAL), 0xc2d2768d, 32);
  }

  ghost predicate Nonzero(f: Fill) {
    exists i :: 0 <= i < 16 && f[i]
  }

  lemma LfsrNonzero(f: Fill)
    requires Nonzero(f)
    ensures Nonzero(Lfsr(f))
  {
    if f[0] {
      PolynomialOdd();
      LfsrBit(f, 15);
      assert Lfsr(f)[15];
    } else {
      var i :| 0 <= i < 16 && f[i];
      LfsrBit(f, i - 1);
      assert Lfsr(f)[i - 1];
    }
  }

  lemma LfsrBit(f: Fill, i: nat)
    requires i < 16
    ensures Lfsr(f)[i] == ((i < 15 && f[i + 1]) != (f[0] && POLYNOMIAL[i]))
  {
  }

  lemma PolynomialOdd()
    ensures POLYNOMIAL[15] && INITIAL[15]
  {
    assert BitAt(0xa011, 0) && BitAt(0xffff, 0);
  }

  lemma {:induction false} IterateNonzero(f: Fill, k: nat)
    requires Nonzero(f)
    ensures Nonzero(Iterate(f, k))
  {
    if k > 0 {
      IterateNonzero(f, k - 1);
      LfsrNonzero(Iterate(f, k - 1));
    }
  }

  // ---- Streams ----

  /** The fill after a stream of beats: restarted at the end of every packet. */
  function FillAfter(bs: seq<Beat>): Fill {
    if bs == [] || Last(bs).last then INITIAL else NextFill(FillAfter(Init(bs)))
  }

  function Scramble(bs: seq<Beat>): (r: seq<Beat>)
    ensures |r| == |bs|
  {
    if bs == [] then []
    else Scramble(Init(bs)) + [Beat(Xor(Last(bs).data, Prn(FillAfter(Init(bs)))), Last(bs).last)]
  }

  lemma ScrambleSnoc(bs: seq<Beat>, b: Beat)
    ensures Scramble(bs + [b]) == Scramble(bs) + [Beat(Xor(b.data, Prn(FillAfter(bs))), b.last)]
    ensures FillAfter(bs + [b]) == if b.last then INITIAL else NextFill(FillAfter(bs))
  {
    Snoc(bs, b);
  }

  /** The generator never falls into the all-zero state, so it never stops scrambling. */
  lemma {:induction false} FillNeverZero(bs: seq<Beat>)
    ensures Nonzero(FillAfter(bs))
    decreases |bs|
  {
    if bs == [] || Last(bs).last {
      PolynomialOdd();
    } else {
      FillNeverZero(Init(bs));
      IterateNonzero(FillAfter(Init(bs)), 32);
    }
  }

  /** Descrambling is scrambling again. */
  lemma {:induction false} ScrambleTwice(bs: seq<Beat>)
    ensures Scramble(Scramble(bs)) == bs && FillAfter(Scramble(bs)) == FillAfter(bs)
    decreases |bs|
  {
    if bs != [] {
      var i := Init(bs);
      ScrambleTwice(i);
      Snoc(Scramble(i), Last(Scramble(bs)));
      XorTwice(Last(bs).data, Prn(FillAfter(i)));
    }
  }

  lemma {:induction false} ScramblePrefix(a: seq<Beat>, b: seq<Beat>)
    requires a <= b
    ensures Scramble(a) <= Scramble(b)
    decreases |b|
  {
    if |a| < |b| {
      assert a <= Init(b);
      ScramblePrefix(a, Init(b));
    } else {
      assert a == b;
    }
  }
}
