/** The SATA CRC-32: advance_crc of satatx_crc and satarx_crc, and how strong it is. */
module Crc {
  import opened Words

  const POLYNOMIAL: Dword := 0x04c11db7
  const INITIAL_CRC: Dword := 0x52325032

  /** The shift register, bit 31 first. */
  type Register = c: seq<bool> | |c| == 32 witness Zeros(32)

  /** One turn of the loop in advance_crc. */
  function Shift(c: Register, b: bool): Register {
    var s := c[1..] + [false];
    if c[0] != b then XorBits(s, Unpack(POLYNOMIAL)) else s
  }

  function Feed(c: Register, bits: seq<bool>): Register
    decreases |bits|
  {
    if bits == [] then c else Feed(Shift(c, bits[0]), bits[1..])
  }

  function Advance(prior: Dword, dword: Dword): Dword {
    Pack(Feed(Unpack(prior), Unpack(dword)))
  }

  /** The loop of advance_crc; dword[31-k] of the design is the k-th bit from the top. */
  method AdvanceCrc(prior: Dword, dword: Dword) returns (crc: Dword)
    ensures crc == Advance(prior, dword)
  {
    var sreg: Register, d := Unpack(prior), Unpack(dword);
    for k := 0 to 32
      invariant Feed(sreg, d[k..]) == Feed(Unpack(prior), d)
    {
      assert d[k..][1..] == d[k + 1..];
      if sreg[0] != d[k] {
        sreg := XorBits(sreg[1..] + [false], Unpack(POLYNOMIAL));
      } else {
        sreg := sreg[1..] + [false];
      }
    }
    crc := Pack(sreg);
  }

  /** The bits of a packet in the order the CRC consumes them. */
  function WordBits(ws: seq<Dword>): (bits: seq<bool>)
    ensures |bits| == 32 * |ws|
  {
    if ws == [] then [] else WordBits(Init(ws)) + Unpack(Last(ws))
  }

  /** The CRC of a payload. */
  function CrcOf(ws: seq<Dword>): Dword {
    if ws == [] then INITIAL_CRC else Advance(CrcOf(Init(ws)), Last(ws))
  }

  /** A packet that ends in the CRC of what comes before. */
  predicate Intact(ws: seq<Dword>) {
    ws != [] && CrcOf(Init(ws)) == Last(ws)
  }

  lemma {:induction false} FeedConcat(c: Register, a: seq<bool>, b: seq<bool>)
    ensures Feed(c, a + b) == Feed(Feed(c, a), b)
    decreases |a|
  {
    if a == [] {
      assert a + b == b;
    } else {
      assert (a + b)[1..] == a[1..] + b;
      FeedConcat(Shift(c, a[0]), a[1..], b);
    }
  }

  // ---- Two registers fed different bits ----

  /** c and d differ in a bit that k more left shifts do not push out. */
  predicate Apart(c: Register, d: Register, k: nat) {
    exists i :: k <= i < 32 && c[i] != d[i]
  }

  lemma ShiftBit(c: Register, b: bool, i: nat)
    requires i < 32
    ensures Shift(c, b)[i] == ((i < 31 && c[i + 1]) != (c[0] != b && Unpack(POLYNOMIAL)[i]))
  {
  }

  lemma LowBit(c: Register, b: bool)
    ensures Shift(c, b)[31] == (c[0] != b)
  {
    ShiftBit(c, b, 31);
    PolynomialOdd();
  }

  lemma PolynomialOdd()
    ensures Unpack(POLYNOMIAL)[31]
  {
    assert BitAt(POLYNOMIAL, 0);
  }

  /** A feedback on one side only leaves the low bits different. */
  lemma OneFeedsBack(c: Register, d: Register, a: bool, b: bool)
    requires (c[0] != a) != (d[0] != b)
    ensures Apart(Shift(c, a), Shift(d, b), 31)
  {
    LowBit(c, a);
    LowBit(d, b);
  }

  /** Whatever bits come next, a difference that survives k shifts survives the step. */
  lemma ShiftApart(c: Register, d: Register, a: bool, b: bool, k: nat)
    requires 1 <= k && Apart(c, d, k)
    ensures Apart(Shift(c, a), Shift(d, b), k - 1)
  {
    if (c[0] != a) != (d[0] != b) {
      OneFeedsBack(c, d, a, b);
    } else {
      var i :| k <= i < 32 && c[i] != d[i];
      ShiftBit(c, a, i - 1);
      ShiftBit(d, b, i - 1);
    }
  }

  lemma {:induction false} FeedApart(c: Register, d: Register, a: seq<bool>, b: seq<bool>, k: nat)
    requires |a| == |b| <= k && Apart(c, d, k)
    ensures Apart(Feed(c, a), Feed(d, b), k - |a|)
    decreases |a|
  {
    if a != [] {
      ShiftApart(c, d, a[0], b[0], k);
      FeedApart(Shift(c, a[0]), Shift(d, b[0]), a[1..], b[1..], k - 1);
    }
  }

  /** The step is injective in the register. */
  lemma ShiftInjective(c: Register, d: Register, b: bool)
    requires c != d
    ensures Shift(c, b) != Shift(d, b)
  {
    if c[0] != d[0] {
      OneFeedsBack(c, d, b, b);
    } else {
      var i :| 0 <= i < 32 && c[i] != d[i];
      ShiftBit(c, b, i - 1);
      ShiftBit(d, b, i - 1);
    }
  }

  lemma {:induction false} FeedInjective(c: Register, d: Register, bits: seq<bool>)
    requires c != d
    ensures Feed(c, bits) != Feed(d, bits)
    decreases |bits|
  {
    if bits != [] {
      ShiftInjective(c, d, bits[0]);
      FeedInjective(Shift(c, bits[0]), Shift(d, bits[0]), bits[1..]);
    }
  }

  /** a and b differ, first in bit i, and nowhere outside the 32 bits from there. */
  ghost predicate BurstAt(a: seq<bool>, b: seq<bool>, i: nat) {
    && |a| == |b| && i < |a| && a[i] != b[i]
    && a[..i] == b[..i]
    && forall j :: i + 32 <= j < |a| ==> a[j] == b[j]
  }

  ghost predicate Burst(a: seq<bool>, b: seq<bool>) {
    exists i :: BurstAt(a, b, i)
  }

  lemma WindowSeparates(c: Register, a: seq<bool>, b: seq<bool>)
    requires 1 <= |a| == |b| <= 32 && a[0] != b[0]
    ensures Feed(c, a) != Feed(c, b)
  {
    OneFeedsBack(c, c, a[0], b[0]);
    FeedApart(Shift(c, a[0]), Shift(c, b[0]), a[1..], b[1..], 31);
  }

  /** Registers that start equal end different when the bits differ by a burst. */
  lemma BurstSeparates(c: Register, a: seq<bool>, b: seq<bool>, i: nat)
    requires BurstAt(a, b, i)
    ensures Feed(c, a) != Feed(c, b)
  {
    var hi := if i + 32 <= |a| then i + 32 else |a|;
    FeedInThree(c, a, i, hi);
    FeedInThree(c, b, i, hi);
    var s := Feed(c, a[..i]);
    assert a[i..hi][0] == a[i] && b[i..hi][0] == b[i];
    WindowSeparates(s, a[i..hi], b[i..hi]);
    SameTail(a, b, hi);
    FeedInjective(Feed(s, a[i..hi]), Feed(s, b[i..hi]), a[hi..]);
  }

  lemma SameTail(a: seq<bool>, b: seq<bool>, hi: nat)
    requires hi <= |a| == |b| && forall j :: hi <= j < |a| ==> a[j] == b[j]
    ensures a[hi..] == b[hi..]
  {
  }

  lemma FeedInThree(c: Register, a: seq<bool>, i: nat, hi: nat)
    requires i <= hi <= |a|
    ensures Feed(c, a) == Feed(Feed(Feed(c, a[..i]), a[i..hi]), a[hi..])
  {
    assert a == a[..i] + a[i..] && a[i..] == a[i..hi] + a[hi..];
    FeedConcat(c, a[..i], a[i..]);
    FeedConcat(Feed(c, a[..i]), a[i..hi], a[hi..]);
  }

  // ---- From bits to packets ----

  lemma {:induction false} CrcIsFeed(ws: seq<Dword>)
    ensures Unpack(CrcOf(ws)) == Feed(Unpack(INITIAL_CRC), WordBits(ws))
    decreases |ws|
  {
    if ws != [] {
      CrcIsFeed(Init(ws));
      FeedConcat(Unpack(INITIAL_CRC), WordBits(Init(ws)), Unpack(Last(ws)));
      UnpackPack(Feed(Unpack(CrcOf(Init(ws))), Unpack(Last(ws))));
    }
  }

  /** Fed its own top bits, the register is shifted out without feedback. */
  lemma {:induction false} FeedItself(c: Register, d: Register, n: nat)
    requires n <= 32 && c == d[n..] + Zeros(n)
    ensures Feed(c, d[n..]) == Zeros(32)
    decreases 32 - n
  {
    if n < 32 {
      assert d[n..][1..] == d[n + 1..];
      assert Shift(c, d[n]) == d[n + 1..] + Zeros(n + 1);
      FeedItself(Shift(c, d[n]), d, n + 1);
    }
  }

  /** Running the received CRC word through the register clears it exactly when it matches. */
  lemma FeedClears(c: Register, d: Register)
    ensures Feed(c, d) == Zeros(32) <==> c == d
  {
    assert d[0..] + Zeros(0) == d && d[0..] == d;
    FeedItself(d, d, 0);
    if c != d { FeedInjective(c, d, d); }
  }

  lemma IntactIsClear(ws: seq<Dword>)
    requires ws != []
    ensures Intact(ws) <==> Feed(Unpack(INITIAL_CRC), WordBits(ws)) == Zeros(32)
  {
    var c, d := CrcOf(Init(ws)), Last(ws);
    CrcIsFeed(Init(ws));
    FeedConcat(Unpack(INITIAL_CRC), WordBits(Init(ws)), Unpack(d));
    FeedClears(Unpack(c), Unpack(d));
    if c != d && Unpack(c) == Unpack(d) { UnpackInjective(c, d); }
  }

  /** CRC strength: when what arrives differs from what was sent only inside one
      window of 32 consecutive bits, at any offset of payload and CRC and across
      dword boundaries, the CRC of what arrives is wrong. */
  lemma BurstDetected(sent: seq<Dword>, got: seq<Dword>)
    requires Intact(sent) && Burst(WordBits(sent), WordBits(got))
    ensures !Intact(got)
  {
    if got != [] {
      IntactIsClear(sent);
      IntactIsClear(got);
      var i: nat :| BurstAt(WordBits(sent), WordBits(got), i);
      BurstSeparates(Unpack(INITIAL_CRC), WordBits(sent), WordBits(got), i);
    }
  }
}
