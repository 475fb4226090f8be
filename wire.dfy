/**
 * The data ports' wire format: a stream of fixed-width signed integers of
 * 1, 2 or 4 bytes, little-endian two's complement, and numpy's frombuffer,
 * which turns a byte string into such integers.
 */
module Wire {
  import opened Common

  type Byte = x: int | 0 <= x < 256

  function Pow256(n: nat): (r: nat)
    ensures r >= 1
  {
    if n == 0 then 1 else 256 * Pow256(n - 1)
  }

  /** The value of bytes read least significant first. */
  function LeUnsigned(bs: seq<Byte>): (u: nat)
    ensures u < Pow256(|bs|)
  {
    if bs == [] then 0 else bs[0] + 256 * LeUnsigned(bs[1..])
  }

  /** The w bytes that hold u least significant first. */
  function LeBytes(u: nat, w: nat): (bs: seq<Byte>)
    requires u < Pow256(w)
    ensures |bs| == w
  {
    if w == 0 then [] else [u % 256] + LeBytes(u / 256, w - 1)
  }

  lemma {:induction false} LeUnsignedOfLeBytes(u: nat, w: nat)
    requires u < Pow256(w)
    ensures LeUnsigned(LeBytes(u, w)) == u
  {
    if w > 0 {
      LeUnsignedOfLeBytes(u / 256, w - 1);
      assert LeBytes(u, w)[1..] == LeBytes(u / 256, w - 1);
    }
  }

  /** v is representable as a w-byte two's complement integer. */
  predicate FitsSigned(v: int, w: nat)
  {
    -(Pow256(w) / 2) <= v < Pow256(w) / 2
  }

  /** The two's complement value of the bytes (numpy dtype i1, i2 or i4). */
  function Signed(bs: seq<Byte>): (v: int)
    requires |bs| >= 1
    ensures FitsSigned(v, |bs|)
  {
    var u := LeUnsigned(bs);
    Pow256Halves(|bs|);
    if u >= Pow256(|bs|) / 2 then u - Pow256(|bs|) else u
  }

  /** A positive power of 256 is even: two halves make it up. */
  lemma Pow256Halves(n: nat)
    requires n >= 1
    ensures Pow256(n) / 2 * 2 == Pow256(n)
  {
    var h := 128 * Pow256(n - 1);
    assert Pow256(n) == 2 * h + 0;
    DivModUnique(Pow256(n), 2, h, 0);
  }

  /** The w bytes that carry v on the wire. */
  function EncodeWord(v: int, w: nat): (bs: seq<Byte>)
    requires w >= 1 && FitsSigned(v, w)
    ensures |bs| == w && Signed(bs) == v
  {
    var u := if v < 0 then v + Pow256(w) else v;
    LeUnsignedOfLeBytes(u, w);
    LeBytes(u, w)
  }

  /** Euclidean division is determined by its quotient-remainder decomposition. */
  lemma DivModUnique(x: int, w: nat, q: int, r: int)
    requires w >= 1 && x == w * q + r && 0 <= r < w
    ensures x / w == q && x % w == r
  {
    var q', r' := x / w, x % w;
    assert x == w * q' + r' && 0 <= r' < w;
    assert w * (q - q') == r' - r;
    if q - q' >= 1 {
      assert false;
    } else if q' - q >= 1 {
      assert false;
    }
  }

  /** Every whole element of the buffer, decoded in order; a trailing partial element is ignored. */
  function DecodeAll(bs: seq<Byte>, w: nat): seq<int>
    requires w >= 1
    decreases |bs|
  {
    if |bs| < w then [] else [Signed(bs[..w])] + DecodeAll(bs[w..], w)
  }

  /** The bytes of a sequence of w-byte integers. */
  function EncodeAll(xs: seq<int>, w: nat): (bs: seq<Byte>)
    requires w >= 1 && forall i :: 0 <= i < |xs| ==> FitsSigned(xs[i], w)
    ensures |bs| == |xs| * w
  {
    if xs == [] then [] else EncodeWord(xs[0], w) + EncodeAll(xs[1..], w)
  }

  /** Decoding undoes encoding, whatever partial element follows. */
  lemma {:induction false} DecodeEncodeAll(xs: seq<int>, w: nat, rest: seq<Byte>)
    requires w >= 1 && forall i :: 0 <= i < |xs| ==> FitsSigned(xs[i], w)
    requires |rest| < w
    ensures DecodeAll(EncodeAll(xs, w) + rest, w) == xs
  {
    if xs != [] {
      var head := EncodeWord(xs[0], w);
      var tail := EncodeAll(xs[1..], w) + rest;
      assert EncodeAll(xs, w) + rest == head + tail;
      DecodeEncodeAll(xs[1..], w, rest);
      DecodeAllCons(head, tail, w);
      assert xs == [xs[0]] + xs[1..];
    }
  }

  lemma DecodeAllCons(head: seq<Byte>, tail: seq<Byte>, w: nat)
    requires w >= 1 && |head| == w
    ensures DecodeAll(head + tail, w) == [Signed(head)] + DecodeAll(tail, w)
  {
    var bs := head + tail;
    assert bs[..w] == head && bs[w..] == tail;
  }

  /**
   * numpy.frombuffer(buf, dtype, count) for a w-byte signed dtype: a negative
   * count reads the whole buffer, which must hold whole elements; otherwise the
   * buffer must hold at least count elements, and the first count are returned.
   */
  function FromBuffer(buf: seq<Byte>, w: nat, count: int): (r: Result<seq<int>>)
    requires w >= 1
    ensures count < 0 ==> (r.Ok? <==> |buf| % w == 0)
    ensures count >= 0 ==> (r.Ok? <==> count * w <= |buf|)
    ensures r.Err? ==> r.error == ValueError
    // with a count, only the first count elements' bytes matter
    ensures count >= 0 && r.Ok? ==> r == FromBuffer(buf[..count * w], w, count)
  {
    if count < 0 then
      if |buf| % w != 0 then Err(ValueError) else Ok(DecodeAll(buf, w))
    else if |buf| < count * w then Err(ValueError)
    else
      assert buf[..count * w][..count * w] == buf[..count * w];
      Ok(DecodeAll(buf[..count * w], w))
  }

  /** Reading count elements from the encoding of xs, with anything after it, yields xs. */
  lemma FromBufferOfEncoding(xs: seq<int>, w: nat, rest: seq<Byte>)
    requires w >= 1 && forall i :: 0 <= i < |xs| ==> FitsSigned(xs[i], w)
    ensures FromBuffer(EncodeAll(xs, w) + rest, w, |xs|) == Ok(xs)
  {
    var enc := EncodeAll(xs, w);
    assert (enc + rest)[..|xs| * w] == enc;
    DecodeEncodeAll(xs, w, []);
    assert enc + [] == enc;
  }

  /** Reading the whole encoding of xs yields xs. */
  lemma FromBufferOfWholeEncoding(xs: seq<int>, w: nat, count: int)
    requires w >= 1 && forall i :: 0 <= i < |xs| ==> FitsSigned(xs[i], w)
    requires count < 0
    ensures FromBuffer(EncodeAll(xs, w), w, count) == Ok(xs)
  {
    var enc := EncodeAll(xs, w);
    DivModUnique(|xs| * w, w, |xs|, 0);
    DecodeEncodeAll(xs, w, []);
    assert enc + [] == enc;
  }

  /** A buffer that does not hold whole elements is refused when read to the end. */
  lemma FromBufferPartialElement(xs: seq<int>, w: nat, tail: seq<Byte>)
    requires w >= 1 && forall i :: 0 <= i < |xs| ==> FitsSigned(xs[i], w)
    requires 0 < |tail| < w
    ensures FromBuffer(EncodeAll(xs, w) + tail, w, -1) == Err(ValueError)
  {
    var b := EncodeAll(xs, w) + tail;
    assert |b| == w * |xs| + |tail|;
    DivModUnique(|b|, w, |xs|, |tail|);
    assert |b| % w != 0;
  }
}
