/** Samples and pixels of an 8-bit, three-channel raster, and the per-sample
    arithmetic the glitch engine applies to them: the 0.5/0.5 blend that
    `cv2.addWeighted` computes and the uint8 squared difference that numpy
    computes for the block score. */
module Pixels {

  /** One colour sample, as numpy's `uint8`. */
  newtype Byte = x: int | 0 <= x < 256

  /** One pixel: the three samples along the last image axis, by index. */
  datatype Pixel = Pixel(c0: Byte, c1: Byte, c2: Byte)

  /** Sample `k` (0, 1 or 2) of a pixel, as `image[y, x, k]`. */
  function Sample(p: Pixel, k: nat): Byte
    requires k < 3
  {
    if k == 0 then p.c0 else if k == 1 then p.c1 else p.c2
  }

  /** The pixel with sample `k` replaced by `v`, as `image[y, x, k] = v`. */
  function WithSample(p: Pixel, k: nat, v: Byte): (q: Pixel)
    requires k < 3
    ensures Sample(q, k) == v
    ensures forall m :: 0 <= m < 3 && m != k ==> Sample(q, m) == Sample(p, m)
  {
    if k == 0 then p.(c0 := v) else if k == 1 then p.(c1 := v) else p.(c2 := v)
  }

  /** Exchanges samples `a` and `b` of a pixel: copy both, write `a` first, then `b`. */
  function Exchange(p: Pixel, a: nat, b: nat): Pixel
    requires a < 3 && b < 3
  {
    WithSample(WithSample(p, a, Sample(p, b)), b, Sample(p, a))
  }

  lemma ExchangeSamples(p: Pixel, a: nat, b: nat)
    requires a < 3 && b < 3
    ensures Sample(Exchange(p, a, b), a) == Sample(p, b)
    ensures Sample(Exchange(p, a, b), b) == Sample(p, a)
    ensures forall m :: 0 <= m < 3 && m != a && m != b ==> Sample(Exchange(p, a, b), m) == Sample(p, m)
  {
  }

  /** Exchanging the same two samples twice gives the pixel back. */
  lemma ExchangeTwice(p: Pixel, a: nat, b: nat)
    requires a < 3 && b < 3
    ensures Exchange(Exchange(p, a, b), a, b) == p
  {
    ExchangeSamples(p, a, b);
    ExchangeSamples(Exchange(p, a, b), a, b);
    var q := Exchange(Exchange(p, a, b), a, b);
    assert Sample(q, 0) == Sample(p, 0) && Sample(q, 1) == Sample(p, 1) && Sample(q, 2) == Sample(p, 2);
  }

  /** `cv2.addWeighted(a, 0.5, b, 0.5, 0)` on one uint8 sample: the exact value
      (a + b) / 2 rounded to the nearest integer, a tie going to the even
      neighbour, then saturated to a byte (it always fits). */
  function Mean(a: Byte, b: Byte): (m: Byte)
    ensures a <= b ==> a <= m <= b
    ensures b <= a ==> b <= m <= a
    ensures a as int + b as int - 1 <= 2 * m as int <= a as int + b as int + 1
    ensures (a as int + b as int) % 2 == 1 ==> (m as int) % 2 == 0
  {
    var s := a as int + b as int;
    var h := s / 2;
    if s % 2 == 0 || h % 2 == 0 then h as Byte else (h + 1) as Byte
  }

  /** Blending a sample with itself leaves it as it is. */
  lemma MeanSame(a: Byte)
    ensures Mean(a, a) == a
  {
  }

  /** The blend does not depend on the order of its arguments. */
  lemma MeanCommutes(a: Byte, b: Byte)
    ensures Mean(a, b) == Mean(b, a)
  {
  }

  /** The per-sample blend applied to all three samples of two pixels. */
  function MeanPixel(p: Pixel, q: Pixel): (r: Pixel)
    ensures forall k :: 0 <= k < 3 ==> Sample(r, k) == Mean(Sample(p, k), Sample(q, k))
  {
    Pixel(Mean(p.c0, q.c0), Mean(p.c1, q.c1), Mean(p.c2, q.c2))
  }

  /** One sample pair's contribution to the block score. numpy evaluates
      `(c1 - c2) ** 2` in uint8, so the difference and its square both wrap
      modulo 256 before the sum widens. */
  function SquaredDiff8(a: Byte, b: Byte): (t: nat)
    ensures t < 256
    ensures a == b ==> t == 0
  {
    var d := (a as int - b as int) % 256;
    (d * d) % 256
  }

  /** The three samples' contributions of one pixel pair. */
  function PixelScore(p: Pixel, q: Pixel): (t: nat)
    ensures t < 768
    ensures p == q ==> t == 0
  {
    SquaredDiff8(p.c0, q.c0) + SquaredDiff8(p.c1, q.c1) + SquaredDiff8(p.c2, q.c2)
  }

  /** The squared difference of two samples in exact integers, which is what
      a sum of squared differences means. */
  function SquaredDiff(a: Byte, b: Byte): (t: nat)
    ensures t == 0 <==> a == b
  {
    var d := a as int - b as int;
    SquarePositive(d);
    d * d
  }

  lemma SquarePositive(d: int)
    ensures d * d >= 0
    ensures d != 0 ==> d * d > 0
  {
    if d < 0 {
      assert d * d == (-d) * (-d);
    }
  }

  /** The three samples' exact squared differences of one pixel pair. */
  function PixelSsd(p: Pixel, q: Pixel): (t: nat)
    ensures t == 0 <==> p == q
  {
    SquaredDiff(p.c0, q.c0) + SquaredDiff(p.c1, q.c1) + SquaredDiff(p.c2, q.c2)
  }
}
