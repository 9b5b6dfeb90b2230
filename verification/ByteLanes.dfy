/** Byte lanes of the DMA buses and streams, numbered in address order. */
module ByteLanes {
  import opened Words

  type Byte = bv8

  /** One beat of a byte stream: its lanes, how many of them count, and TLAST. */
  datatype ByteBeat = ByteBeat(data: seq<Byte>, bytes: nat, last: bool)

  function Or(a: Byte, b: Byte): Byte {
    a | b
  }

  lemma OrZero(a: Byte)
    ensures Or(a, 0) == a == Or(0, a)
  {
  }

  function Nothing(w: nat): (d: seq<Byte>)
    ensures |d| == w
  {
    seq(w, k => 0)
  }

  function Off(w: nat): (d: seq<bool>)
    ensures |d| == w
  {
    seq(w, k => false)
  }

  /** The bytes of a beat that count. */
  function Payload(b: ByteBeat): seq<Byte> {
    if b.bytes <= |b.data| then b.data[..b.bytes] else b.data
  }

  /** The bytes of a stream of beats. */
  function Join(bs: seq<ByteBeat>): seq<Byte> {
    if bs == [] then [] else Join(Init(bs)) + Payload(Last(bs))
  }

  lemma JoinSnoc(bs: seq<ByteBeat>, b: ByteBeat)
    ensures Join(bs + [b]) == Join(bs) + Payload(b)
  {
    Snoc(bs, b);
  }

  /** The packets of a stream of beats: the bytes of the finished ones, and of the open one. */
  datatype Parcels = Parcels(done: seq<seq<Byte>>, open: seq<Byte>) {
    function Add(b: ByteBeat): Parcels {
      var bytes := open + Payload(b);
      if b.last then Parcels(done + [bytes], []) else Parcels(done, bytes)
    }

    /** With more bytes in the open packet, or closing it. */
    function Extend(bytes: seq<Byte>, last: bool): Parcels {
      if last then Parcels(done + [open + bytes], []) else Parcels(done, open + bytes)
    }
  }

  function Parcel(bs: seq<ByteBeat>): Parcels {
    if bs == [] then Parcels([], []) else Parcel(Init(bs)).Add(Last(bs))
  }

  lemma ParcelSnoc(bs: seq<ByteBeat>, b: ByteBeat)
    ensures Parcel(bs + [b]) == Parcel(bs).Extend(Payload(b), b.last)
  {
    Snoc(bs, b);
  }

  lemma ExtendTwice(p: Parcels, a: seq<Byte>, b: seq<Byte>, last: bool)
    ensures p.Extend(a, false).Extend(b, last) == p.Extend(a + b, last)
  {
    assert p.open + a + b == p.open + (a + b);
  }

  /** Every beat is full but the last of a packet, which is not empty. */
  predicate Packed(w: nat, bs: seq<ByteBeat>) {
    forall k :: 0 <= k < |bs| ==> |bs[k].data| == w && 1 <= bs[k].bytes <= w && (!bs[k].last ==> bs[k].bytes == w)
  }
}
