/** Words, beats and primitives shared by every stage of the link layer. */
module Words {

  datatype Option<+T> = None | Some(value: T)

  /** A 32-bit register or bus value. */
  type Dword = n: nat | n < 0x1_0000_0000

  /** Bit i of n, counting from the least significant. */
  predicate BitAt(n: nat, i: nat) {
    if i == 0 then n % 2 == 1 else BitAt(n / 2, i - 1)
  }

  /** The 32 bits of a word, bit 31 first. */
  function Unpack(w: Dword): (b: seq<bool>)
    ensures |b| == 32
  {
    seq(32, i requires 0 <= i < 32 => BitAt(w, 31 - i))
  }

  function Value(bits: seq<bool>): nat {
    if bits == [] then 0 else 2 * Value(Init(bits)) + if Last(bits) then 1 else 0
  }

  function Pow2(n: nat): (p: nat)
    ensures p >= 1
  {
    if n == 0 then 1 else 2 * Pow2(n - 1)
  }

  /** The bits of a number whose last hexadecimal digit is d. */
  lemma Digit(n: nat, high: nat, d: nat)
    requires n == 16 * high + d && d < 16
    ensures BitAt(n, 0) == (d % 2 == 1) && BitAt(n, 1) == (d / 2 % 2 == 1)
    ensures BitAt(n, 2) == (d / 4 % 2 == 1) && BitAt(n, 3) == (d / 8 == 1)
    ensures forall i: nat :: i >= 4 ==> BitAt(n, i) == BitAt(high, i - 4)
  {
    hide BitAt;
    var h3 := 2 * high + d / 8;
    var h2 := 2 * h3 + d / 4 % 2;
    var h1 := 2 * h2 + d / 2 % 2;
    Half(h3, high, d / 8);
    Half(h2, h3, d / 4 % 2);
    Half(h1, h2, d / 2 % 2);
    Half(n, h1, d % 2);
    forall i: nat | i >= 4 ensures BitAt(n, i) == BitAt(high, i - 4) {
      assert BitAt(n, i) == BitAt(h1, i - 1);
      assert BitAt(h1, i - 1) == BitAt(h2, i - 2);
      assert BitAt(h2, i - 2) == BitAt(h3, i - 3);
    }
  }

  lemma Half(n: nat, half: nat, bit: nat)
    requires n == 2 * half + bit && bit < 2
    ensures BitAt(n, 0) == (bit == 1) && forall i: nat :: i >= 1 ==> BitAt(n, i) == BitAt(half, i - 1)
  {
    assert n / 2 == half && n % 2 == bit;
  }

  /** Bit i of a number is the last bit of what is left without its i lower ones. */
  lemma {:induction false} BitMeans(n: nat, high: nat, low: nat, w: nat, i: nat)
    requires n == Pow2(w) * high + low && low < Pow2(w)
    ensures BitAt(n, i) == if i < w then BitAt(low, i) else BitAt(high, i - w)
    decreases w
  {
    if w > 0 {
      assert Pow2(w) * high == 2 * (Pow2(w - 1) * high);
      assert n / 2 == Pow2(w - 1) * high + low / 2 && n % 2 == low % 2;
      if i > 0 { BitMeans(n / 2, high, low / 2, w - 1, i - 1); }
    }
  }

  /** A word is unpacked with its highest bit first. */
  lemma TopBitFirst(w: Dword)
    ensures (Unpack(w)[0] <==> w >= 0x8000_0000) && (Unpack(w)[31] <==> w % 2 == 1)
  {
    Pow2Of32();
    assert Pow2(32) == 2 * Pow2(31);
    BitMeans(w, w / 0x8000_0000, w % 0x8000_0000, 31, 31);
  }

  lemma {:induction false} ValueBit(bits: seq<bool>, i: nat)
    requires i < |bits|
    ensures BitAt(Value(bits), i) == bits[|bits| - 1 - i]
    decreases i
  {
    ValueHalf(bits);
    if i > 0 { ValueBit(Init(bits), i - 1); }
  }

  lemma ValueHalf(bits: seq<bool>)
    requires bits != []
    ensures Value(bits) / 2 == Value(Init(bits)) && (Value(bits) % 2 == 1) == Last(bits)
  {
  }

  lemma {:induction false} ValueBound(bits: seq<bool>)
    ensures Value(bits) < Pow2(|bits|)
    decreases |bits|
  {
    if bits != [] { ValueBound(Init(bits)); }
  }

  lemma {:induction false} BitsDetermine(a: nat, b: nat, w: nat)
    requires a < Pow2(w) && b < Pow2(w)
    requires forall i: nat :: i < w ==> BitAt(a, i) == BitAt(b, i)
    ensures a == b
    decreases w
  {
    if w > 0 {
      assert BitAt(a, 0) == BitAt(b, 0);
      forall i: nat | i < w - 1 ensures BitAt(a / 2, i) == BitAt(b / 2, i) {
        assert BitAt(a, i + 1) == BitAt(b, i + 1);
      }
      BitsDetermine(a / 2, b / 2, w - 1);
    }
  }

  lemma {:induction false} Pow2Plus8(n: nat)
    ensures Pow2(n + 8) == 256 * Pow2(n)
  {
    assert Pow2(n + 8) == 4 * Pow2(n + 6);
    assert Pow2(n + 6) == 4 * Pow2(n + 4);
    assert Pow2(n + 4) == 4 * Pow2(n + 2);
  }

  lemma Pow2Of32()
    ensures Pow2(32) == 0x1_0000_0000
  {
    Pow2Plus8(0);
    Pow2Plus8(8);
    Pow2Plus8(16);
    Pow2Plus8(24);
  }

  function Pack(b: seq<bool>): (w: Dword)
    requires |b| == 32
  {
    Pow2Of32();
    ValueBound(b);
    Value(b)
  }

  lemma UnpackPack(b: seq<bool>)
    requires |b| == 32
    ensures Unpack(Pack(b)) == b
  {
    forall i | 0 <= i < 32 ensures Unpack(Pack(b))[i] == b[i] {
      ValueBit(b, 31 - i);
    }
  }

  lemma UnpackInjective(a: Dword, b: Dword)
    requires Unpack(a) == Unpack(b)
    ensures a == b
  {
    Pow2Of32();
    forall i: nat | i < 32 ensures BitAt(a, i) == BitAt(b, i) {
      assert Unpack(a)[31 - i] == Unpack(b)[31 - i];
    }
    BitsDetermine(a, b, 32);
  }

  function Zeros(n: nat): (z: seq<bool>)
    ensures |z| == n
  {
    seq(n, i => false)
  }

  function XorBits(a: seq<bool>, b: seq<bool>): (r: seq<bool>)
    requires |a| == |b|
    ensures |r| == |a|
    ensures forall i :: 0 <= i < |a| ==> r[i] == (a[i] != b[i])
  {
    seq(|a|, i requires 0 <= i < |a| => a[i] != b[i])
  }

  /** The bitwise exclusive or of two words. */
  function Xor(a: Dword, b: Dword): Dword {
    Pack(XorBits(Unpack(a), Unpack(b)))
  }

  lemma XorTwice(a: Dword, b: Dword)
    ensures Xor(Xor(a, b), b) == a
  {
    var x := XorBits(Unpack(a), Unpack(b));
    UnpackPack(x);
    UnpackPack(XorBits(x, Unpack(b)));
    assert XorBits(x, Unpack(b)) == Unpack(a);
    UnpackInjective(Xor(Xor(a, b), b), a);
  }

  /** One transfer of a 32-bit stream: TDATA together with TLAST. */
  datatype Beat = Beat(data: Dword, last: bool)

  /** The primitives of sata_primitives.vh, and every other K-character word. */
  datatype Primitive =
    | ALIGN | CONT | EOF | HOLD | HOLDA | PMNAK | PMREQ_P | PMREQ_S | R_ERR
    | R_IP | R_OK | R_RDY | SOF | SYNC | WTRM | X_RDY | Other(bits: Dword)

  /** The 32 bits of a primitive. */
  function Code(p: Primitive): Dword {
    match p
    case ALIGN => 0xbc4a4a7b
    case CONT => 0x7caa9999
    case EOF => 0x7cb5d5d5
    case HOLD => 0x7caad5d5
    case HOLDA => 0x7caa9595
    case PMNAK => 0x7c95f5f5
    case PMREQ_P => 0x7cb51717
    case PMREQ_S => 0x7c957575
    case R_ERR => 0x7cb55656
    case R_IP => 0x7cb55555
    case R_OK => 0x7cb53535
    case R_RDY => 0x7c954a4a
    case SOF => 0x7cb53737
    case SYNC => 0x7c95b5b5
    case WTRM => 0x7cb55858
    case X_RDY => 0x7cb55757
    case Other(bits) => bits
  }

  /** No two of the named ones have the same. */
  lemma CodesDiffer(p: Primitive, q: Primitive)
    requires !p.Other? && !q.Other? && Code(p) == Code(q)
    ensures p == q
  {
  }

  /** A 33-bit line word: bit 32 of the design separates `Prim` from `Data`. */
  datatype Word = Data(d: Dword) | Prim(p: Primitive)

  function SwapBytes(b: seq<bool>): (r: seq<bool>)
    requires |b| == 32
    ensures |r| == 32
  {
    b[24..32] + b[16..24] + b[8..16] + b[0..8]
  }

  /** SWAP_ENDIAN: byte reversal unless the design is built little-endian. */
  function SwapEndian(little: bool, w: Dword): Dword {
    if little then w else Pack(SwapBytes(Unpack(w)))
  }

  function ByteBits(b: nat): (r: seq<bool>)
    ensures |r| == 8
  {
    seq(8, i requires 0 <= i < 8 => BitAt(b, 7 - i))
  }

  /** The word with these bytes, the highest first. */
  function FromBytes(a: nat, b: nat, c: nat, d: nat): (w: Dword)
    requires a < 256 && b < 256 && c < 256 && d < 256
  {
    0x100_0000 * a + 0x1_0000 * b + 0x100 * c + d
  }

  lemma BytesOf(a: nat, b: nat, c: nat, d: nat)
    requires a < 256 && b < 256 && c < 256 && d < 256
    ensures Unpack(FromBytes(a, b, c, d)) == ByteBits(a) + ByteBits(b) + ByteBits(c) + ByteBits(d)
  {
    hide BitAt;
    var w, x, y := FromBytes(a, b, c, d), 0x1_0000 * a + 0x100 * b + c, 0x100 * a + b;
    Pow2Plus8(0);
    assert Pow2(8) == 256;
    forall i | 0 <= i < 32
      ensures Unpack(w)[i] == (ByteBits(a) + ByteBits(b) + ByteBits(c) + ByteBits(d))[i]
    {
      BitMeans(w, x, d, 8, 31 - i);
      if i < 24 { BitMeans(x, y, c, 8, 23 - i); }
      if i < 16 { BitMeans(y, a, b, 8, 15 - i); }
    }
  }

  /** SWAP_ENDIAN on the bytes of a word. */
  lemma SwapMeans(a: nat, b: nat, c: nat, d: nat)
    requires a < 256 && b < 256 && c < 256 && d < 256
    ensures SwapEndian(false, FromBytes(a, b, c, d)) == FromBytes(d, c, b, a)
    ensures SwapEndian(true, FromBytes(a, b, c, d)) == FromBytes(a, b, c, d)
  {
    BytesOf(a, b, c, d);
    BytesOf(d, c, b, a);
    var s, w := SwapBytes(Unpack(FromBytes(a, b, c, d))), FromBytes(d, c, b, a);
    assert s == Unpack(w);
    UnpackPack(s);
    UnpackInjective(Pack(s), w);
  }

  lemma SwapTwice(little: bool, w: Dword)
    ensures SwapEndian(little, SwapEndian(little, w)) == w
  {
    if !little {
      var s := SwapBytes(Unpack(w));
      UnpackPack(s);
      assert s[24..32] == Unpack(w)[0..8] && s[16..24] == Unpack(w)[8..16];
      assert s[8..16] == Unpack(w)[16..24] && s[0..8] == Unpack(w)[24..32];
      assert SwapBytes(s) == Unpack(w);
      UnpackPack(SwapBytes(s));
      UnpackInjective(SwapEndian(little, SwapEndian(little, w)), w);
    }
  }

  function Last<T>(s: seq<T>): T
    requires s != []
  {
    s[|s| - 1]
  }

  function Init<T>(s: seq<T>): (r: seq<T>)
    requires s != []
    ensures |r| == |s| - 1 && r + [Last(s)] == s
  {
    s[..|s| - 1]
  }

  /** s, with x added when there is a transfer. */
  function Push<T>(s: seq<T>, transfer: bool, x: T): seq<T> {
    if transfer then s + [x] else s
  }

  /** A transfer takes place when both sides agree. */
  predicate Both(valid: bool, ready: bool) {
    valid && ready
  }

  lemma Snoc<T>(s: seq<T>, x: T)
    ensures Init(s + [x]) == s && Last(s + [x]) == x
  {
  }
}
