/**
 * The decoded Portable Float Map image: a width x height grid of pixels holding one
 * sample (gray) or three samples (color) each, stored row by row, together with its
 * conversion to an 8-bit RGBA raster.
 */
module PfmImage {
  import opened Results
  import opened Numerics

  /** One entry of the display raster: red, green, blue and alpha. */
  datatype Quad = Quad(r: int, g: int, b: int, a: int)

  const FullAlpha: int := 255

  /** A raster entry every channel of which is an 8-bit value. */
  predicate IsByteQuad(q: Quad) {
    0 <= q.r <= 255 && 0 <= q.g <= 255 && 0 <= q.b <= 255 && 0 <= q.a <= 255
  }

  /**
   * The checks the constructor makes, in its order; on success, whether the samples
   * form a gray image.
   */
  function CheckShape(width: int, height: int, count: int): (r: Result<bool>)
    ensures r.Ok? <==> width > 0 && height > 0 && (count == width * height || count == 3 * (width * height))
    ensures width <= 0 ==> r == Err(WidthNotPositive)
    ensures width > 0 && height <= 0 ==> r == Err(HeightNotPositive)
    ensures width > 0 && height > 0 && r.Err? ==> r == Err(SampleCountMismatch)
    ensures r.Ok? ==> (r.value <==> count == width * height)
  {
    if width <= 0 then Err(WidthNotPositive)
    else if height <= 0 then Err(HeightNotPositive)
    else if width * height != count && 3 * (width * height) != count then Err(SampleCountMismatch)
    else Ok(count == width * height)
  }

  // ---------------------------------------------------------------------------
  // Integer index arithmetic
  // ---------------------------------------------------------------------------

  lemma MulAtLeast(d: int, w: int)
    requires d >= 1 && w > 0
    ensures d * w >= w
  {}

  lemma ProductPositive(a: int, b: int)
    ensures a > 0 && b > 0 ==> a * b > 0
  {
    if a > 0 && b > 0 {
      MulAtLeast(a, b);
    }
  }

  lemma MulMonotone(a: int, b: int, c: int)
    requires a <= b && c >= 0
    ensures a * c <= b * c
  {}

  /** Euclidean division is determined by its quotient and remainder. */
  lemma DivModUnique(i: int, w: int, q: int, r: int)
    requires w > 0 && 0 <= r < w && i == q * w + r
    ensures i / w == q && i % w == r
  {
    var q0, r0 := i / w, i % w;
    assert i == q0 * w + r0 && 0 <= r0 < w;
    assert (q0 - q) * w == r - r0;
    if q0 > q {
      MulAtLeast(q0 - q, w);
      assert false;
    } else if q0 < q {
      MulAtLeast(q - q0, w);
      assert false;
    }
  }

  /** The row-major index of pixel (x, y) lies inside a width x height grid. */
  lemma RowMajorBounds(x: int, y: int, width: int, height: int)
    ensures 0 <= x < width && 0 <= y < height ==> 0 <= y * width + x < width * height
  {
    if 0 <= x < width && 0 <= y < height {
      MulMonotone(y, height - 1, width);
      assert (height - 1) * width + width == width * height;
    }
  }

  // ---------------------------------------------------------------------------
  // Pixel placement in the raster: source pixel i goes to column i % width and
  // row height - 1 - i / width (the rows are stored bottom to top).
  // ---------------------------------------------------------------------------

  function RasterX(i: int, width: int): (x: int)
    requires width > 0
    ensures 0 <= x < width
  {
    i % width
  }

  function RasterY(i: int, width: int, height: int): int
    requires width > 0
  {
    height - 1 - i / width
  }

  /** The source pixel shown at column x, row y of the raster. */
  function SourceIndex(x: int, y: int, width: int, height: int): (i: int)
    ensures 0 <= x < width && 0 <= y < height ==> 0 <= i < width * height
  {
    RowMajorBounds(x, height - 1 - y, width, height);
    (height - 1 - y) * width + x
  }

  /** Every source pixel lands inside the raster, at the place SourceIndex reads back. */
  lemma PlacementInRaster(i: int, width: int, height: int)
    requires width > 0 && height > 0 && 0 <= i < width * height
    ensures 0 <= RasterX(i, width) < width && 0 <= RasterY(i, width, height) < height
    ensures SourceIndex(RasterX(i, width), RasterY(i, width, height), width, height) == i
  {
    var q := i / width;
    assert i == q * width + i % width;
    if q >= height {
      MulMonotone(height, q, width);
      assert false;
    }
    if q < 0 {
      MulMonotone(q, -1, width);
      assert false;
    }
  }

  /** Every raster place shows exactly one source pixel, which is placed back there. */
  lemma PlacementOnto(x: int, y: int, width: int, height: int)
    requires 0 <= x < width && 0 <= y < height
    ensures RasterX(SourceIndex(x, y, width, height), width) == x
    ensures RasterY(SourceIndex(x, y, width, height), width, height) == y
  {
    DivModUnique(SourceIndex(x, y, width, height), width, height - 1 - y, x);
  }

  /** Placement is a bijection between [0, width*height) and the raster's places. */
  lemma PlacementBijection(width: int, height: int)
    requires width > 0 && height > 0
    ensures forall i :: 0 <= i < width * height ==>
      0 <= RasterX(i, width) < width && 0 <= RasterY(i, width, height) < height &&
      SourceIndex(RasterX(i, width), RasterY(i, width, height), width, height) == i
    ensures forall x, y :: 0 <= x < width && 0 <= y < height ==>
      RasterX(SourceIndex(x, y, width, height), width) == x &&
      RasterY(SourceIndex(x, y, width, height), width, height) == y
  {
    forall i | 0 <= i < width * height
      ensures 0 <= RasterX(i, width) < width && 0 <= RasterY(i, width, height) < height
      ensures SourceIndex(RasterX(i, width), RasterY(i, width, height), width, height) == i
    {
      PlacementInRaster(i, width, height);
    }
    forall x, y | 0 <= x < width && 0 <= y < height
      ensures RasterX(SourceIndex(x, y, width, height), width) == x
      ensures RasterY(SourceIndex(x, y, width, height), width, height) == y
    {
      PlacementOnto(x, y, width, height);
    }
  }

  // ---------------------------------------------------------------------------
  // Tone mapping of one sample
  // ---------------------------------------------------------------------------

  /** Clamps value to [min, max]; below min gives min, above max gives max. */
  function Clamp(value: int, min: int, max: int): (r: int)
    ensures min <= max ==> min <= r <= max
    ensures min <= value <= max ==> r == value
    ensures value < min ==> r == min
    ensures min <= value && max < value ==> r == max
  {
    if value < min then min
    else if value > max then max
    else value
  }

  /** A gamma-corrected sample as an 8-bit channel: 0 below 0, 255 above 1. */
  function ToInt(f: real, invGamma: real, pow: (real, real) -> real): (r: int)
    ensures 0 <= r <= 255
    ensures f < 0.0 ==> r == 0
    ensures f > 1.0 ==> r == 255
    ensures 0.0 <= f <= 1.0 ==> r == Clamp(Truncate(255.0 * pow(f, invGamma)), 0, 255)
  {
    if f < 0.0 then 0
    else if f > 1.0 then 255
    else Clamp(Truncate(255.0 * pow(f, invGamma)), 0, 255)
  }

  /** The raster quad of source pixel i under direct tone mapping. */
  function DirectQuad(s: seq<real>, gray: bool, i: int, invGamma: real, pow: (real, real) -> real): (q: Quad)
    requires 0 <= i && (if gray then i < |s| else 3 * i + 2 < |s|)
    ensures IsByteQuad(q) && q.a == FullAlpha
    ensures gray ==> q.r == q.g == q.b == ToInt(s[i], invGamma, pow)
    ensures !gray ==> q.r == ToInt(s[3 * i], invGamma, pow) && q.g == ToInt(s[3 * i + 1], invGamma, pow)
                      && q.b == ToInt(s[3 * i + 2], invGamma, pow)
  {
    if gray then
      var c := ToInt(s[i], invGamma, pow);
      Quad(c, c, c, FullAlpha)
    else
      Quad(ToInt(s[3 * i], invGamma, pow), ToInt(s[3 * i + 1], invGamma, pow),
           ToInt(s[3 * i + 2], invGamma, pow), FullAlpha)
  }

  // ---------------------------------------------------------------------------
  // Min/max normalisation of toScaledBufferedImage
  // ---------------------------------------------------------------------------

  /** The running minimum of s, scanned left to right with a strict comparison. */
  function SeqMin(s: seq<real>): (m: real)
    requires |s| > 0
    ensures m in s && forall k :: 0 <= k < |s| ==> m <= s[k]
  {
    if |s| == 1 then s[0]
    else
      var m := SeqMin(s[..|s| - 1]);
      assert forall k :: 0 <= k < |s| - 1 ==> s[..|s| - 1][k] == s[k];
      if s[|s| - 1] < m then s[|s| - 1] else m
  }

  /** The running maximum of s, scanned left to right with a strict comparison. */
  function SeqMax(s: seq<real>): (m: real)
    requires |s| > 0
    ensures m in s && forall k :: 0 <= k < |s| ==> s[k] <= m
  {
    if |s| == 1 then s[0]
    else
      var m := SeqMax(s[..|s| - 1]);
      assert forall k :: 0 <= k < |s| - 1 ==> s[..|s| - 1][k] == s[k];
      if s[|s| - 1] > m then s[|s| - 1] else m
  }

  /** The running minimum and maximum after one more sample, as the scan updates them. */
  lemma ExtremesStep(s: seq<real>, i: int)
    requires 0 <= i < |s|
    ensures i == 0 ==> SeqMin(s[..1]) == s[0] && SeqMax(s[..1]) == s[0]
    ensures i > 0 ==> SeqMin(s[..i + 1]) == (if s[i] < SeqMin(s[..i]) then s[i] else SeqMin(s[..i]))
    ensures i > 0 ==> SeqMax(s[..i + 1]) == (if s[i] > SeqMax(s[..i]) then s[i] else SeqMax(s[..i]))
  {
    assert s[..i + 1][..i] == s[..i];
    assert s[..i + 1][i] == s[i];
  }

  /**
   * Entry k of the working array of the scaled converter, for samples s whose first n
   * have minimum lo and maximum hi: those n are rescaled to [0, 1], every later entry
   * keeps the array's initial 0. When lo and hi coincide the source computes
   * 0 * Infinity, a NaN whose int cast is 0; the model stores 0.0, which gives the same
   * channel.
   */
  function NormalizedAt(s: seq<real>, n: int, lo: real, hi: real, toFloat: real -> real, k: int): real
    requires 0 <= k < |s|
  {
    if k < n && lo != hi then Rescaled(s[k], lo, 1.0 / (hi - lo), toFloat) else 0.0
  }

  /** One sample moved by the minimum and multiplied by the inverse range, rounded to a float. */
  function Rescaled(v: real, lo: real, invRange: real, toFloat: real -> real): real
  {
    toFloat((v - lo) * invRange)
  }

  /** The whole working array: the first n samples rescaled by their own minimum and maximum. */
  function Normalized(s: seq<real>, n: int, toFloat: real -> real): (f: seq<real>)
    requires 0 < n <= |s|
    ensures |f| == |s|
    ensures forall k :: 0 <= k < |s| ==> f[k] == NormalizedAt(s, n, SeqMin(s[..n]), SeqMax(s[..n]), toFloat, k)
  {
    var lo, hi := SeqMin(s[..n]), SeqMax(s[..n]);
    seq(|s|, k requires 0 <= k < |s| => NormalizedAt(s, n, lo, hi, toFloat, k))
  }

  /** One normalised value as an 8-bit channel: clamp((int) (255 * v), 0, 255). */
  function ScaledChannel(v: real): (c: int)
    ensures 0 <= c <= 255
    ensures v <= 0.0 ==> c == 0
    ensures v >= 1.0 ==> c == 255
  {
    Clamp(Truncate(255.0 * v), 0, 255)
  }

  /** The raster quad of source pixel i under min/max normalised tone mapping. */
  function ScaledQuad(f: seq<real>, gray: bool, i: int): (q: Quad)
    requires 0 <= i && (if gray then i < |f| else 3 * i + 2 < |f|)
    ensures IsByteQuad(q) && q.a == FullAlpha
    ensures gray ==> q.r == q.g == q.b == ScaledChannel(f[i])
    ensures !gray ==> q.r == ScaledChannel(f[3 * i]) && q.g == ScaledChannel(f[3 * i + 1])
                      && q.b == ScaledChannel(f[3 * i + 2])
  {
    if gray then
      var c := ScaledChannel(f[i]);
      Quad(c, c, c, FullAlpha)
    else
      Quad(ScaledChannel(f[3 * i]), ScaledChannel(f[3 * i + 1]), ScaledChannel(f[3 * i + 2]), FullAlpha)
  }

  /**
   * As written, the scaled converter normalises only the first width*height = n samples, while
   * a color image has 3n: every pixel i with 3i >= n reads three entries the normalisation never
   * reaches and shows black, whatever its samples.
   */
  lemma ColorTailDark(s: seq<real>, n: int, toFloat: real -> real)
    requires 0 < n && |s| == 3 * n
    ensures forall i :: n <= 3 * i < 3 * n ==> ScaledQuad(Normalized(s, n, toFloat), false, i) == Quad(0, 0, 0, FullAlpha)
  {
    forall i | n <= 3 * i < 3 * n
      ensures ScaledQuad(Normalized(s, n, toFloat), false, i) == Quad(0, 0, 0, FullAlpha)
    {
      Unreached(s, n, 3 * i, toFloat);
      Unreached(s, n, 3 * i + 1, toFloat);
      Unreached(s, n, 3 * i + 2, toFloat);
    }
  }

  /** An entry at or past n is one the normalisation of the first n samples never writes. */
  lemma Unreached(s: seq<real>, n: int, k: int, toFloat: real -> real)
    requires 0 < n <= k < |s|
    ensures Normalized(s, n, toFloat)[k] == 0.0
  {
  }

  /**
   * Normalising all samples: every entry is its own sample normalised by the minimum and the
   * maximum of all samples.
   */
  lemma NormalizedAllSamples(s: seq<real>, toFloat: real -> real)
    requires |s| > 0
    ensures forall k :: 0 <= k < |s| ==>
      Normalized(s, |s|, toFloat)[k] == NormalizedAt(s, |s|, SeqMin(s), SeqMax(s), toFloat, k)
  {
    forall k | 0 <= k < |s|
      ensures Normalized(s, |s|, toFloat)[k] == NormalizedAt(s, |s|, SeqMin(s), SeqMax(s), toFloat, k)
    {
      NormalizedEntry(s, k, toFloat);
    }
  }

  lemma NormalizedEntry(s: seq<real>, k: int, toFloat: real -> real)
    requires 0 <= k < |s|
    ensures Normalized(s, |s|, toFloat)[k] == NormalizedAt(s, |s|, SeqMin(s), SeqMax(s), toFloat, k)
  {
    assert s[..|s|] == s;
  }

  /** Rounding to a float that leaves every value as it is: the model's exact arithmetic. */
  function Exact(v: real): real
  {
    v
  }

  /** Without float rounding, normalising all samples puts every one of them in [0, 1]. */
  lemma NormalizedInUnit(s: seq<real>)
    requires |s| > 0
    ensures forall k :: 0 <= k < |s| ==> 0.0 <= Normalized(s, |s|, Exact)[k] <= 1.0
  {
    forall k | 0 <= k < |s|
      ensures 0.0 <= Normalized(s, |s|, Exact)[k] <= 1.0
    {
      NormalizedEntry(s, k, Exact);
      UnitAt(s, k, SeqMin(s), SeqMax(s));
    }
  }

  lemma UnitAt(s: seq<real>, k: int, lo: real, hi: real)
    requires 0 <= k < |s| && lo <= s[k] <= hi
    ensures 0.0 <= NormalizedAt(s, |s|, lo, hi, Exact, k) <= 1.0
  {
    if lo != hi {
      UnitRatio(s[k], lo, hi);
    }
  }

  /** A value between lo < hi, rescaled exactly by lo and the range, lies in [0, 1]. */
  lemma UnitRatio(v: real, lo: real, hi: real)
    requires lo <= v <= hi && lo < hi
    ensures 0.0 <= Rescaled(v, lo, 1.0 / (hi - lo), Exact) <= 1.0
  {
    var d := hi - lo;
    assert (v - lo) * (1.0 / d) == (v - lo) / d;
    assert (v - lo) / d <= d / d;
  }

  /** The maximum, rescaled exactly by the minimum and the range, is 1. */
  lemma TopRatio(v: real, lo: real, hi: real)
    requires lo < hi && v == hi
    ensures Rescaled(v, lo, 1.0 / (hi - lo), Exact) == 1.0
  {
    var d := hi - lo;
    assert (hi - lo) * (1.0 / d) == d / d;
  }

  /**
   * The discrepancy: a color image whose last sample is its strict maximum shows the blue
   * channel of its last source pixel at 0 as written, and at 255 when all samples are
   * normalised without float rounding.
   */
  lemma ScaledTailDiffers(s: seq<real>, n: int)
    requires 0 < n && |s| == 3 * n
    requires SeqMin(s) < SeqMax(s) && s[3 * n - 1] == SeqMax(s)
    ensures ScaledQuad(Normalized(s, n, Exact), false, n - 1).b == 0
    ensures ScaledQuad(Normalized(s, |s|, Exact), false, n - 1).b == 255
  {
    var last := 3 * (n - 1) + 2;
    Unreached(s, n, last, Exact);
    NormalizedTop(s, last);
  }

  /** Normalising all samples exactly, a sample that is the strict maximum becomes 1. */
  lemma NormalizedTop(s: seq<real>, k: int)
    requires 0 <= k < |s| && SeqMin(s) < SeqMax(s) && s[k] == SeqMax(s)
    ensures Normalized(s, |s|, Exact)[k] == 1.0
  {
    NormalizedEntry(s, k, Exact);
    TopAt(s, k, SeqMin(s), SeqMax(s));
  }

  lemma TopAt(s: seq<real>, k: int, lo: real, hi: real)
    requires 0 <= k < |s| && lo < hi && s[k] == hi
    ensures NormalizedAt(s, |s|, lo, hi, Exact, k) == 1.0
  {
    TopRatio(s[k], lo, hi);
  }

  // ---------------------------------------------------------------------------
  // The image
  // ---------------------------------------------------------------------------

  class PFMImage {
    const width: int
    const height: int
    const gray: bool
    /** The image's own copy of the samples; individual samples may be overwritten. */
    const floats: array<real>

    function Resolution(): (n: int)
      ensures width > 0 && height > 0 ==> n > 0
    {
      ProductPositive(width, height);
      width * height
    }

    /** The constructor's checks held, and gray records the classification. */
    predicate Valid() {
      width > 0 && height > 0 &&
      floats.Length == (if gray then Resolution() else 3 * Resolution())
    }

    /** Allocation with an independent copy of src; New performs the checks. */
    constructor (width: int, height: int, src: array<real>)
      requires CheckShape(width, height, src.Length).Ok?
      ensures this.width == width && this.height == height
      ensures gray == (src.Length == width * height)
      ensures fresh(floats) && floats[..] == src[..]
      ensures Valid()
    {
      this.width := width;
      this.height := height;
      gray := src.Length == width * height;
      var copy := new real[src.Length];
      forall i | 0 <= i < src.Length {
        copy[i] := src[i];
      }
      floats := copy;
    }

    /**
     * The source's constructor: fails on a non-positive width or height or on a sample
     * count that is neither width*height nor 3*width*height; otherwise the image owns a
     * fresh copy of src.
     */
    static method New(width: int, height: int, src: array<real>) returns (r: Result<PFMImage>)
      ensures r.Err? <==> CheckShape(width, height, src.Length).Err?
      ensures r.Err? ==> r.error == CheckShape(width, height, src.Length).error
      ensures r.Ok? ==> fresh(r.value) && fresh(r.value.floats) && r.value.Valid()
      ensures r.Ok? ==> r.value.width == width && r.value.height == height
      ensures r.Ok? ==> r.value.gray == (src.Length == width * height)
      ensures r.Ok? ==> r.value.floats[..] == src[..]
    {
      var shape := CheckShape(width, height, src.Length);
      if shape.Err? {
        return Err(shape.error);
      }
      var image := new PFMImage(width, height, src);
      return Ok(image);
    }

    function GetFloat(i: int): (r: Result<real>)
      reads floats
      ensures r.Ok? <==> 0 <= i < floats.Length
      ensures r.Ok? ==> r.value == floats[i]
      ensures r.Err? ==> r.error == IndexOutOfBounds
    {
      if 0 <= i < floats.Length then Ok(floats[i]) else Err(IndexOutOfBounds)
    }

    /** Overwrites sample i; an index outside the array fails and changes nothing. */
    method SetFloat(i: int, value: real) returns (r: Result<()>)
      modifies floats
      ensures r.Ok? <==> 0 <= i < floats.Length
      ensures r.Err? ==> r.error == IndexOutOfBounds && floats[..] == old(floats[..])
      ensures r.Ok? ==> floats[..] == old(floats[..])[i := value]
    {
      if 0 <= i < floats.Length {
        floats[i] := value;
        return Ok(());
      }
      return Err(IndexOutOfBounds);
    }

    function NbOfFloats(): (n: nat)
      ensures n == floats.Length
      ensures Valid() ==> (n == Resolution() <==> gray)
    {
      floats.Length
    }

    predicate IsGrayScale() {
      NbOfFloats() == width * height
    }

    predicate IsColor() {
      NbOfFloats() == 3 * width * height
    }

    /**
     * The red, green and blue samples of pixel (x, y): the gray sample three times, or
     * the three consecutive color samples; coordinates outside the image fail.
     */
    function GetColorAt(x: int, y: int): (r: Result<seq<real>>)
      reads floats
      requires Valid()
      ensures r.Ok? <==> 0 <= x < width && 0 <= y < height
      ensures r.Err? ==> r.error == CoordinateOutOfRange
      ensures r.Ok? ==> |r.value| == 3
      ensures r.Ok? && gray ==>
        (0 <= y * width + x < floats.Length &&
         r.value == [floats[y * width + x], floats[y * width + x], floats[y * width + x]])
      ensures r.Ok? && !gray ==>
        (0 <= 3 * (y * width + x) && 3 * (y * width + x) + 2 < floats.Length &&
         r.value == floats[3 * (y * width + x) .. 3 * (y * width + x) + 3])
    {
      if x < 0 || x >= width then Err(CoordinateOutOfRange)
      else if y < 0 || y >= height then Err(CoordinateOutOfRange)
      else
        RowMajorBounds(x, y, width, height);
        if gray then
          var c := floats[y * width + x];
          Ok([c, c, c])
        else
          var o := 3 * (y * width + x);
          Ok([floats[o], floats[o + 1], floats[o + 2]])
    }

    /**
     * The raster of direct tone mapping: source pixel i, gamma corrected by ToInt,
     * appears at column i % width, row height - 1 - i / width.
     */
    method ToBufferedImage(gamma: real, pow: (real, real) -> real) returns (raster: array2<Quad>)
      requires Valid() && gamma != 0.0
      ensures fresh(raster) && raster.Length0 == width && raster.Length1 == height
      ensures forall x, y :: 0 <= x < width && 0 <= y < height ==>
        raster[x, y] == DirectQuad(floats[..], gray, SourceIndex(x, y, width, height), 1.0 / gamma, pow)
    {
      raster := new Quad[width, height]((x, y) => Quad(0, 0, 0, 0));
      var invGamma := 1.0 / gamma;
      PlacementBijection(width, height);
      for i := 0 to width * height
        invariant forall x, y :: 0 <= x < width && 0 <= y < height && SourceIndex(x, y, width, height) < i ==>
          raster[x, y] == DirectQuad(floats[..], gray, SourceIndex(x, y, width, height), invGamma, pow)
      {
        var rgba: Quad;
        if gray {
          var c := ToInt(floats[i], invGamma, pow);
          rgba := Quad(c, c, c, FullAlpha);
        } else {
          rgba := Quad(ToInt(floats[3 * i], invGamma, pow), ToInt(floats[3 * i + 1], invGamma, pow),
                       ToInt(floats[3 * i + 2], invGamma, pow), FullAlpha);
        }
        raster[RasterX(i, width), RasterY(i, width, height)] := rgba;
      }
    }

    /**
     * The raster of normalised tone mapping, as written. First the first width*height samples
     * are overwritten in place by their power with exponent 1/gamma (PowerPass); later samples
     * keep their values. Then those samples are mapped to [0, 1] by their minimum and maximum
     * into a working array whose later entries stay 0 (NormalizedCopy), and pixel i reads the
     * working array as DirectQuad reads the samples (ScaledRaster). For a color image the
     * working array has 3*width*height entries, so two thirds of it stay 0.
     */
    method ToScaledBufferedImage(gamma: real, ops: FloatOps) returns (raster: array2<Quad>)
      requires Valid() && gamma != 0.0
      modifies floats
      ensures forall k :: 0 <= k < Resolution() ==> floats[k] == ops.toFloat(ops.pow(old(floats[k]), 1.0 / gamma))
      ensures forall k :: Resolution() <= k < floats.Length ==> floats[k] == old(floats[k])
      ensures fresh(raster) && raster.Length0 == width && raster.Length1 == height
      ensures forall x, y :: 0 <= x < width && 0 <= y < height ==>
        raster[x, y] == ScaledQuad(Normalized(floats[..], Resolution(), ops.toFloat), gray, SourceIndex(x, y, width, height))
    {
      var invGamma := 1.0 / gamma;
      var n := width * height;
      var min, max := PowerPass(invGamma, ops, n);
      var f := NormalizedCopy(min, max, ops.toFloat, n);
      raster := ScaledRaster(f);
    }

    /**
     * Normalised tone mapping with the evident intent, the power pass and the normalisation
     * running over every sample, so that all three channels of a color image take part.
     */
    method ToScaledBufferedImageAll(gamma: real, ops: FloatOps) returns (raster: array2<Quad>)
      requires Valid() && gamma != 0.0
      modifies floats
      ensures forall k :: 0 <= k < floats.Length ==> floats[k] == ops.toFloat(ops.pow(old(floats[k]), 1.0 / gamma))
      ensures fresh(raster) && raster.Length0 == width && raster.Length1 == height
      ensures forall x, y :: 0 <= x < width && 0 <= y < height ==>
        raster[x, y] == ScaledQuad(Normalized(floats[..], floats.Length, ops.toFloat), gray, SourceIndex(x, y, width, height))
    {
      var invGamma := 1.0 / gamma;
      var n := floats.Length;
      var min, max := PowerPass(invGamma, ops, n);
      var f := NormalizedCopy(min, max, ops.toFloat, n);
      raster := ScaledRaster(f);
    }

    /**
     * The in-place pre-pass of the scaled converter over the first n samples, with the running
     * minimum and maximum of the new values.
     */
    method PowerPass(invGamma: real, ops: FloatOps, n: int) returns (min: real, max: real)
      requires Valid() && 0 < n <= floats.Length
      modifies floats
      ensures forall k :: 0 <= k < n ==> floats[k] == ops.toFloat(ops.pow(old(floats[k]), invGamma))
      ensures forall k :: n <= k < floats.Length ==> floats[k] == old(floats[k])
      ensures min == SeqMin(floats[..n]) && max == SeqMax(floats[..n])
    {
      min, max := 0.0, 0.0;
      for i := 0 to n
        invariant forall k :: 0 <= k < i ==> floats[k] == ops.toFloat(ops.pow(old(floats[k]), invGamma))
        invariant forall k :: i <= k < floats.Length ==> floats[k] == old(floats[k])
        invariant 0 < i ==> min == SeqMin(floats[..i]) && max == SeqMax(floats[..i])
      {
        floats[i] := ops.toFloat(ops.pow(floats[i], invGamma));
        ExtremesStep(floats[..], i);
        // min and max start at +Infinity and -Infinity: the first sample replaces both
        if i == 0 || floats[i] < min {
          min := floats[i];
        }
        if i == 0 || floats[i] > max {
          max := floats[i];
        }
      }
    }

    /** The working array of the scaled converter over the first n samples, given their minimum and maximum. */
    method NormalizedCopy(min: real, max: real, toFloat: real -> real, n: int) returns (f: array<real>)
      requires Valid() && 0 < n <= floats.Length
      requires min == SeqMin(floats[..n]) && max == SeqMax(floats[..n])
      ensures fresh(f) && f[..] == Normalized(floats[..], n, toFloat)
    {
      ghost var s := floats[..];
      f := new real[floats.Length](k => 0.0);
      var degenerate := max == min;
      var invRange := if degenerate then 0.0 else 1.0 / (max - min);
      for i := 0 to n
        modifies f
        invariant forall k :: 0 <= k < i ==> f[k] == NormalizedAt(s, n, min, max, toFloat, k)
        invariant forall k :: i <= k < f.Length ==> f[k] == 0.0
      {
        f[i] := if degenerate then 0.0 else Rescaled(floats[i], min, invRange, toFloat);
        assert s[i] == floats[i];
      }
      assert forall k :: 0 <= k < f.Length ==> f[k] == Normalized(s, n, toFloat)[k];
    }

    /** The raster of the scaled converter, read from the working array f. */
    method ScaledRaster(f: array<real>) returns (raster: array2<Quad>)
      requires Valid() && f.Length == floats.Length
      ensures fresh(raster) && raster.Length0 == width && raster.Length1 == height
      ensures forall x, y :: 0 <= x < width && 0 <= y < height ==>
        raster[x, y] == ScaledQuad(f[..], gray, SourceIndex(x, y, width, height))
    {
      raster := new Quad[width, height]((x, y) => Quad(0, 0, 0, 0));
      PlacementBijection(width, height);
      for i := 0 to width * height
        invariant forall x, y :: 0 <= x < width && 0 <= y < height && SourceIndex(x, y, width, height) < i ==>
          raster[x, y] == ScaledQuad(f[..], gray, SourceIndex(x, y, width, height))
      {
        var rgba: Quad;
        if gray {
          var c := Clamp(Truncate(255.0 * f[i]), 0, 255);
          rgba := Quad(c, c, c, FullAlpha);
        } else {
          rgba := Quad(Clamp(Truncate(255.0 * f[3 * i]), 0, 255), Clamp(Truncate(255.0 * f[3 * i + 1]), 0, 255),
                       Clamp(Truncate(255.0 * f[3 * i + 2]), 0, 255), FullAlpha);
        }
        raster[RasterX(i, width), RasterY(i, width, height)] := rgba;
      }
    }
  }

  /** For a valid image exactly one of the two mode queries holds, and it agrees with gray. */
  lemma ModesExclusive(image: PFMImage)
    requires image.Valid()
    ensures image.IsGrayScale() == image.gray
    ensures image.IsColor() == !image.gray
  {
    assert 3 * image.width * image.height == 3 * image.Resolution();
  }
}
