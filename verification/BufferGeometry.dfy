/**
 How large a buffer's payload has to be. The source computes at 64 bits with
 divisions and guarded products; here each of those computations is related to
 the true, unbounded one.
 */
module BufferGeometry {
  import opened Arithmetic
  import opened Wrappers

  const SIZE_MAX: nat := 0xFFFF_FFFF_FFFF_FFFF
  const INT_MAX: int := 0x7FFF_FFFF
  const INT_MIN: int := -0x8000_0000

  /** The source's 32-bit int. */
  type Int32 = x: int | INT_MIN <= x <= INT_MAX

  const MAX_BUFFER_BYTES: nat := 16 * 1024 * 1024 * 1024
  const MAX_DIMENSION: int := 131072
  const MAX_CHANNELS: int := 4

  /** BufferType's values, as the wire carries them. */
  const UNSIGNED_BYTE := 0
  const UNSIGNED_SHORT := 2
  const SHORT := 3
  const INT32 := 4
  const FLOAT32 := 5
  const FLOAT64 := 6

  predicate IsKnown(t: int) { t in {UNSIGNED_BYTE, UNSIGNED_SHORT, SHORT, INT32, FLOAT32, FLOAT64} }

  /** type_size(): one byte for anything it does not recognise. */
  function TypeSize(t: int): nat {
    if t == INT32 || t == FLOAT32 then 4
    else if t == SHORT || t == UNSIGNED_SHORT then 2
    else if t == FLOAT64 then 8
    else 1
  }

  /** Bytes of an element as the renderer reads it: doubles are stored as floats. */
  function DisplayElementSize(t: int): nat {
    if t == SHORT || t == UNSIGNED_SHORT then 2
    else if t == INT32 || t == FLOAT32 || t == FLOAT64 then 4
    else 1
  }

  predicate WithinDisplayLimits(width: int, height: int, channels: int) {
    1 <= width <= MAX_DIMENSION && 1 <= height <= MAX_DIMENSION && 1 <= channels <= MAX_CHANNELS
  }

  predicate Measurable(width: int, height: int, channels: int, stride: int) {
    width > 0 && height > 0 && channels > 0 && stride >= width
  }

  /** Pixels from the first to one past the last that the geometry addresses. */
  function PixelsAddressed(width: int, height: int, stride: int): int { (height - 1) * stride + width }

  predicate GeometryFitsPayload(width: int, height: int, channels: int, stride: int, t: int, bytes: nat) {
    && IsKnown(t) && Measurable(width, height, channels, stride)
    && bytes / (channels * TypeSize(t)) >= PixelsAddressed(width, height, stride)
  }

  predicate BufferSpanFits(width: int, height: int, channels: int, step: int, elementSize: nat, bytes: nat) {
    && Measurable(width, height, channels, step) && elementSize != 0
    && bytes / (channels * elementSize) >= PixelsAddressed(width, height, step)
  }

  /** The last byte of element (y, x, c), plus one. */
  function ElementEnd(y: int, x: int, c: int, stride: int, channels: int, size: nat): int {
    ((y * stride + x) * channels + c + 1) * size
  }

  predicate EveryElementInside(width: int, height: int, channels: int, stride: int, size: nat, bytes: nat) {
    forall y, x, c {:trigger ElementEnd(y, x, c, stride, channels, size)} ::
      0 <= y < height && 0 <= x < width && 0 <= c < channels ==>
        ElementEnd(y, x, c, stride, channels, size) <= bytes
  }

  // ---------------------------------------------------------------------
  // Arithmetic
  // ---------------------------------------------------------------------

  lemma IndexBelow(y: int, x: int, width: int, height: int, stride: int)
    requires 0 <= y < height && 0 <= x < width && stride >= 0
    ensures 0 <= y * stride + x < PixelsAddressed(width, height, stride)
  {
    MulMonotone(y, height - 1, stride);
  }

  /** ((y * stride + x) * channels + c) counted in pixels. */
  lemma ElementWithinPixel(p: int, c: int, channels: int, size: nat, pixels: int)
    requires 0 <= p < pixels && 0 <= c < channels
    ensures (p * channels + c + 1) * size <= pixels * (channels * size)
  {
    MulMonotone(p + 1, pixels, channels);
    assert (p + 1) * channels == p * channels + channels;
    MulMonotone(p * channels + c + 1, pixels * channels, size);
    assert (pixels * channels) * size == pixels * (channels * size);
  }

  // ---------------------------------------------------------------------
  // What the checks mean
  // ---------------------------------------------------------------------

  /** A quotient at least the addressed pixels is the same as every element lying
      inside the payload. */
  lemma QuotientMeansEveryElement(width: int, height: int, channels: int, stride: int, size: nat, bytes: nat)
    requires Measurable(width, height, channels, stride) && size > 0
    ensures channels * size > 0
    ensures bytes / (channels * size) >= PixelsAddressed(width, height, stride)
            <==> EveryElementInside(width, height, channels, stride, size, bytes)
  {
    assert channels * size > 0 by { MulMonotone(1, channels, size); }
    var pixels := PixelsAddressed(width, height, stride);
    IndexBelow(height - 1, width - 1, width, height, stride);
    QuotientAtLeast(bytes, channels * size, pixels);
    if bytes >= pixels * (channels * size) {
      forall y, x, c | 0 <= y < height && 0 <= x < width && 0 <= c < channels
        ensures ElementEnd(y, x, c, stride, channels, size) <= bytes
      {
        IndexBelow(y, x, width, height, stride);
        ElementWithinPixel(y * stride + x, c, channels, size, pixels);
      }
    }
    if EveryElementInside(width, height, channels, stride, size, bytes) {
      var last := ElementEnd(height - 1, width - 1, channels - 1, stride, channels, size);
      assert last <= bytes;
      assert (pixels - 1) * channels + channels == pixels * channels;
      assert pixels * channels * size == pixels * (channels * size);
    }
  }

  /** geometry_fits_payload holds exactly when every element the renderer can
      address lies inside the payload. */
  lemma GeometryFitsExactly(width: int, height: int, channels: int, stride: int, t: int, bytes: nat)
    requires IsKnown(t) && Measurable(width, height, channels, stride)
    ensures GeometryFitsPayload(width, height, channels, stride, t, bytes)
            <==> EveryElementInside(width, height, channels, stride, TypeSize(t), bytes)
  {
    QuotientMeansEveryElement(width, height, channels, stride, TypeSize(t), bytes);
  }

  lemma BufferSpanFitsExactly(width: int, height: int, channels: int, step: int, elementSize: nat, bytes: nat)
    requires Measurable(width, height, channels, step) && elementSize > 0
    ensures BufferSpanFits(width, height, channels, step, elementSize, bytes)
            <==> EveryElementInside(width, height, channels, step, elementSize, bytes)
  {
    QuotientMeansEveryElement(width, height, channels, step, elementSize, bytes);
  }

  /** With int arguments neither check's intermediates leave 64 bits. */
  lemma NoIntermediateOverflows(width: int, height: int, channels: int, stride: int, size: nat)
    requires Measurable(width, height, channels, stride) && size <= 8
    requires width <= INT_MAX && height <= INT_MAX && channels <= INT_MAX && stride <= INT_MAX
    ensures 0 < channels * size + 1 <= SIZE_MAX
    ensures 0 <= (height - 1) * stride <= SIZE_MAX
    ensures 0 < PixelsAddressed(width, height, stride) < 0x4000_0000_0000_0000
  {
    MulMonotone(channels, INT_MAX, size);
    MulMonotone(size, 8, INT_MAX as nat);
    MulMonotone(height - 1, INT_MAX - 1, stride);
    assert (INT_MAX - 1) * stride == stride * (INT_MAX - 1);
    MulMonotone(stride, INT_MAX, (INT_MAX - 1) as nat);
    MulMonotone(0, height - 1, stride);
    MulMonotone(0, channels, size);
  }

  // ---------------------------------------------------------------------
  // Guarded products
  // ---------------------------------------------------------------------

  function Product(factors: seq<nat>): nat {
    if factors == [] then 1 else Product(factors[..|factors| - 1]) * factors[|factors| - 1]
  }

  lemma {:induction false} ProductGrows(factors: seq<nat>, k: nat)
    requires k <= |factors| && forall i :: 0 <= i < |factors| ==> factors[i] >= 1
    ensures 1 <= Product(factors[..k]) <= Product(factors)
    decreases |factors|
  {
    var n := |factors|;
    if k == n {
      assert factors[..k] == factors;
      if n > 0 {
        ProductGrows(factors[..n - 1], n - 1);
        assert factors[..n - 1][..n - 1] == factors[..n - 1];
        MulMonotone(1, factors[n - 1], Product(factors[..n - 1]));
      }
    } else {
      ProductGrows(factors[..n - 1], k);
      assert factors[..n - 1][..k] == factors[..k];
      MulMonotone(1, factors[n - 1], Product(factors[..n - 1]));
    }
  }

  /** Folding a product one factor at a time, giving up the moment the next
      factor would take it past `limit`: the result is the true product, present
      exactly when that is within the limit. */
  method GuardedProduct(factors: seq<nat>, limit: nat) returns (r: Option<nat>)
    requires limit >= 1 && forall i :: 0 <= i < |factors| ==> factors[i] >= 1
    ensures r == if Product(factors) <= limit then Some(Product(factors)) else None
  {
    var size := 1;
    for k := 0 to |factors|
      invariant size == Product(factors[..k]) && size <= limit
    {
      QuotientMonotone(limit, factors[k], size);
      assert factors[..k + 1][..k] == factors[..k];
      if size > limit / factors[k] {
        ProductGrows(factors, k + 1);
        return None;
      }
      size := size * factors[k];
    }
    assert factors[..|factors|] == factors;
    return Some(size);
  }

  /** Bytes of a buffer whose every row carries its whole stride. */
  function PaddedSize(height: int, channels: int, stride: int, t: int): int {
    stride * height * channels * TypeSize(t)
  }

  function PaddedPayloadSize(width: int, height: int, channels: int, stride: int, t: int): Option<nat> {
    if !IsKnown(t) || !Measurable(width, height, channels, stride) then None
    else
      assert stride * height > 0 by { MulMonotone(1, height, stride); }
      assert stride * height * channels > 0 by { MulMonotone(1, channels, stride * height); }
      var size := PaddedSize(height, channels, stride, t);
      assert size > 0 by { MulMonotone(1, TypeSize(t), stride * height * channels); }
      if size <= SIZE_MAX then Some(size) else None
  }

  /** There is a padded size exactly for a known type and a geometry that makes sense,
      as long as it fits 64 bits, and it is the true product. */
  lemma PaddedExactly(width: int, height: int, channels: int, stride: int, t: int, n: nat)
    ensures PaddedPayloadSize(width, height, channels, stride, t) == Some(n) <==>
      && IsKnown(t) && width > 0 && height > 0 && channels > 0 && stride >= width
      && n == stride * height * channels * TypeSize(t) && n < 0x1_0000_0000_0000_0000
  {
  }

  lemma ProductSnoc(factors: seq<nat>, f: nat)
    ensures Product(factors + [f]) == Product(factors) * f
  {
    assert (factors + [f])[..|factors|] == factors;
  }

  lemma FourFactors(a: nat, b: nat, c: nat, d: nat)
    ensures Product([a, b, c, d]) == a * b * c * d
  {
    ProductSnoc([], a);
    ProductSnoc([a], b);
    ProductSnoc([a, b], c);
    ProductSnoc([a, b, c], d);
    assert [] + [a] == [a] && [a] + [b] == [a, b] && [a, b] + [c] == [a, b, c];
    assert [a, b, c] + [d] == [a, b, c, d];
  }

  /** padded_payload_size(): the stride is the first factor taken. */
  method ComputePaddedPayloadSize(width: int, height: int, channels: int, stride: int, t: int) returns (r: Option<nat>)
    requires stride <= INT_MAX
    ensures r == PaddedPayloadSize(width, height, channels, stride, t)
  {
    if !IsKnown(t) || !Measurable(width, height, channels, stride) {
      return None;
    }
    r := GuardedProduct([stride, height, channels, TypeSize(t)], SIZE_MAX);
    FourFactors(stride, height, channels, TypeSize(t));
  }

  /** The get_buffer fold: true when the reply is refused as too large, which is
      exactly when the declared shape's true size exceeds the cap. */
  method DeclaredTooLarge(height: int, channels: int, step: int, t: int, maxBytes: nat) returns (tooLarge: bool)
    requires height > 0 && channels > 0 && step > 0 && maxBytes > 0
    ensures tooLarge <==> PaddedSize(height, channels, step, t) > maxBytes
  {
    var r := GuardedProduct([step, channels, TypeSize(t), height], maxBytes);
    FourFactors(step, channels, TypeSize(t), height);
    Reorder(step, height, channels, TypeSize(t));
    return r == None;
  }

  lemma Reorder(a: int, b: int, c: int, d: int)
    ensures a * c * d * b == a * b * c * d
  {
    assert a * c * d * b == (a * c) * (d * b) == (a * c) * (b * d);
    assert (a * c) * (b * d) == a * (c * b) * d == a * (b * c) * d == a * b * c * d;
  }

  // ---------------------------------------------------------------------
  // The chain from the wire to the renderer
  // ---------------------------------------------------------------------

  /** A padded payload always fits the geometry it was sized for. */
  lemma PaddedAlwaysFits(width: int, height: int, channels: int, stride: int, t: int)
    requires PaddedPayloadSize(width, height, channels, stride, t).Some?
    ensures GeometryFitsPayload(width, height, channels, stride, t,
              PaddedPayloadSize(width, height, channels, stride, t).value)
  {
    var e := channels * TypeSize(t);
    var pixels := PixelsAddressed(width, height, stride);
    assert (height - 1) * stride + stride == stride * height;
    assert e > 0 by { MulMonotone(1, channels, TypeSize(t)); }
    assert PaddedSize(height, channels, stride, t) == (stride * height) * e by {
      assert stride * height * channels * TypeSize(t) == (stride * height) * (channels * TypeSize(t));
    }
    IndexBelow(height - 1, width - 1, width, height, stride);
    MulMonotone(pixels, stride * height, e);
    QuotientAtLeast(PaddedSize(height, channels, stride, t), e, pixels);
  }

  /** Bytes a payload takes once doubles have been narrowed to floats. */
  function StoredSize(t: int, bytes: nat): nat {
    if t == FLOAT64 then bytes / 8 * 4 else bytes
  }

  lemma NarrowedQuotient(bytes: nat, channels: nat)
    requires channels > 0
    ensures bytes / (channels * 8) == (bytes / 8 * 4) / (channels * 4)
  {
    DivideInTurn(bytes, channels, 8);
    DivideInTurn(bytes / 8 * 4, channels, 4);
  }

  /** The wire's check and the renderer's agree on every known type: a payload is
      accepted on the way in exactly when, once stored, it can be drawn. */
  lemma WireAndRendererAgree(width: int, height: int, channels: int, stride: int, t: int, bytes: nat)
    requires IsKnown(t)
    ensures GeometryFitsPayload(width, height, channels, stride, t, bytes)
            <==> BufferSpanFits(width, height, channels, stride, DisplayElementSize(t), StoredSize(t, bytes))
  {
    if t == FLOAT64 && channels > 0 { NarrowedQuotient(bytes, channels); }
  }

  /** Sizing a stored double buffer at type_size() would refuse this one. */
  lemma WireSizeWouldRefuseDoubles()
    ensures GeometryFitsPayload(1, 1, 1, 1, FLOAT64, 8)
    ensures !BufferSpanFits(1, 1, 1, 1, TypeSize(FLOAT64), StoredSize(FLOAT64, 8))
  {
  }
}
