/**
 * Comparison of two decoded images: the mean squared error of their colors, and the image of
 * their per-channel absolute differences.
 */
module PfmUtil {
  import opened Results
  import opened Numerics
  import opened PfmImage

  /** Two constructed images of the same width and height. */
  predicate Comparable(a: PFMImage, b: PFMImage)
  {
    a.Valid() && b.Valid() && a.width == b.width && a.height == b.height
  }

  /** The number of pixels in the rows above row y, counted row by row. */
  function RowStart(y: int, width: int): int
  {
    if y <= 0 then 0 else RowStart(y - 1, width) + width
  }

  lemma {:induction false} RowStartNonNegative(y: int, width: int)
    requires width >= 0
    ensures RowStart(y, width) >= 0
    decreases y
  {
    if y > 0 {
      RowStartNonNegative(y - 1, width);
    }
  }

  lemma {:induction false} RowStartProduct(y: int, width: int)
    requires y >= 0
    ensures RowStart(y, width) == y * width
    decreases y
  {
    if y > 0 {
      RowStartProduct(y - 1, width);
    }
  }

  /** Pixel (x, y) is pixel RowStart(y, width) + x of the row-by-row scan, inside the image. */
  lemma ScanPosition(x: int, y: int, width: int, height: int)
    requires 0 <= x < width && 0 <= y < height
    ensures RowStart(y, width) + x == y * width + x
    ensures 0 <= RowStart(y, width) + x < width * height
    ensures RowStart(y + 1, width) <= width * height
  {
    RowStartProduct(y, width);
    RowStartProduct(y + 1, width);
    RowMajorBounds(x, y, width, height);
    MulMonotone(y + 1, height, width);
  }

  // ---------------------------------------------------------------------------
  // Mean squared error
  // ---------------------------------------------------------------------------

  /**
   * The colors of all pixels, row by row, three channels each, as getColorAt returns them:
   * a gray sample is repeated in all three channels.
   */
  function Expanded(samples: seq<real>, gray: bool): (e: seq<real>)
    ensures |e| == if gray then 3 * |samples| else |samples|
  {
    if gray then seq(3 * |samples|, k requires 0 <= k < 3 * |samples| => samples[k / 3]) else samples
  }

  function ColorsOf(a: PFMImage): (e: seq<real>)
    reads a.floats
    requires a.Valid()
    ensures |e| == 3 * a.Resolution()
  {
    Expanded(a.floats[..], a.gray)
  }

  /** getColorAt(x, y) is the triple of pixel RowStart(y, width) + x in the expanded colors. */
  lemma ColorAtPixel(a: PFMImage, x: int, y: int)
    requires a.Valid() && 0 <= x < a.width && 0 <= y < a.height
    ensures 0 <= RowStart(y, a.width) + x < a.Resolution()
    ensures a.GetColorAt(x, y).value == ColorsOf(a)[3 * (RowStart(y, a.width) + x) .. 3 * (RowStart(y, a.width) + x) + 3]
  {
    ScanPosition(x, y, a.width, a.height);
    var p := RowStart(y, a.width) + x;
    if a.gray {
      GrayChannels(a.floats[..], p);
    }
  }

  /** The sum of the squared differences of the first n channels. */
  function SquaredDiffs(e1: seq<real>, e2: seq<real>, n: int): (s: real)
    requires 0 <= n <= |e1| && n <= |e2|
  {
    if n == 0 then 0.0 else SquaredDiffs(e1, e2, n - 1) + Sq(e1[n - 1] - e2[n - 1])
  }

  /** The mean squared error: the squared channel errors of all pixels over the pixel count. */
  function MeanSquaredError(a: PFMImage, b: PFMImage): real
    reads a.floats, b.floats
    requires Comparable(a, b)
  {
    SquaredDiffs(ColorsOf(a), ColorsOf(b), 3 * a.Resolution()) / a.Resolution() as real
  }

  /**
   * PFMUtil.MSE: images of different sizes are rejected; otherwise every pixel, row by row,
   * adds the squares of its three channel differences to an exact accumulator, which is then
   * divided by the pixel count.
   */
  method MSE(a: PFMImage, b: PFMImage) returns (r: Result<real>)
    requires a.Valid() && b.Valid()
    ensures r.Err? <==> a.width != b.width || a.height != b.height
    ensures r.Err? ==> r.error == SizeMismatch
    ensures r.Ok? ==> Comparable(a, b) && r.value == MeanSquaredError(a, b)
  {
    if a.width != b.width || a.height != b.height {
      return Err(SizeMismatch);
    }
    var sum := TotalSquaredError(a, b);
    var resolution := a.width * a.height;
    r := Ok(sum / resolution as real);
  }

  /** MSE's loops: the squared errors of all pixels, row by row, in an exact accumulator. */
  method TotalSquaredError(a: PFMImage, b: PFMImage) returns (sum: real)
    requires Comparable(a, b)
    ensures sum == SquaredDiffs(ColorsOf(a), ColorsOf(b), 3 * a.Resolution())
  {
    ghost var e1, e2 := ColorsOf(a), ColorsOf(b);
    sum := 0.0;
    for y := 0 to a.height
      invariant 0 <= RowStart(y, a.width) <= a.Resolution()
      invariant sum == SquaredDiffs(e1, e2, 3 * RowStart(y, a.width))
    {
      sum := AddRowErrors(a, b, y, e1, e2, sum);
    }
    RowStartProduct(a.height, a.width);
  }

  /** The body of MSE's loop over the rows: the pixels of row y, left to right. */
  method AddRowErrors(a: PFMImage, b: PFMImage, y: int, ghost e1: seq<real>, ghost e2: seq<real>, sum: real)
    returns (r: real)
    requires Comparable(a, b) && 0 <= y < a.height && e1 == ColorsOf(a) && e2 == ColorsOf(b)
    requires 0 <= RowStart(y, a.width) <= a.Resolution()
    requires sum == SquaredDiffs(e1, e2, 3 * RowStart(y, a.width))
    ensures RowStart(y + 1, a.width) <= a.Resolution()
    ensures r == SquaredDiffs(e1, e2, 3 * RowStart(y + 1, a.width))
  {
    ScanPosition(0, y, a.width, a.height);
    r := sum;
    for x := 0 to a.width
      invariant RowStart(y, a.width) + x <= a.Resolution()
      invariant r == SquaredDiffs(e1, e2, 3 * (RowStart(y, a.width) + x))
    {
      r := AddPixelError(a, b, x, y, e1, e2, r);
    }
  }

  /**
   * The body of MSE's loop over the pixels: the squares of the three channel differences of
   * pixel (x, y) added to the accumulator.
   */
  method AddPixelError(a: PFMImage, b: PFMImage, x: int, y: int, ghost e1: seq<real>, ghost e2: seq<real>,
                       sum: real) returns (r: real)
    requires Comparable(a, b) && 0 <= x < a.width && 0 <= y < a.height && e1 == ColorsOf(a) && e2 == ColorsOf(b)
    requires 0 <= RowStart(y, a.width) + x <= a.Resolution()
    requires sum == SquaredDiffs(e1, e2, 3 * (RowStart(y, a.width) + x))
    ensures RowStart(y, a.width) + x < a.Resolution()
    ensures r == SquaredDiffs(e1, e2, 3 * (RowStart(y, a.width) + x) + 3)
  {
    var c1 := a.GetColorAt(x, y).value;
    var c2 := b.GetColorAt(x, y).value;
    ColorAtPixel(a, x, y);
    ColorAtPixel(b, x, y);
    r := AddChannelErrors(c1, c2, sum, e1, e2, 3 * (RowStart(y, a.width) + x));
  }

  /** MSE's loop over the three channels of one pixel, whose colors sit at k in e1 and e2. */
  method AddChannelErrors(c1: seq<real>, c2: seq<real>, sum: real, ghost e1: seq<real>, ghost e2: seq<real>,
                          ghost k: nat) returns (r: real)
    requires k + 3 <= |e1| && k + 3 <= |e2| && c1 == e1[k..k + 3] && c2 == e2[k..k + 3]
    requires sum == SquaredDiffs(e1, e2, k)
    ensures r == SquaredDiffs(e1, e2, k + 3)
  {
    r := sum;
    for i := 0 to 3
      invariant r == SquaredDiffs(e1, e2, k + i)
    {
      assert c1[i] == e1[k + i] && c2[i] == e2[k + i];
      r := r + Sq(c1[i] - c2[i]);
    }
  }

  /** A sum of squares is never negative. */
  lemma {:induction false} SquaredDiffsNonNegative(e1: seq<real>, e2: seq<real>, n: int)
    requires 0 <= n <= |e1| && n <= |e2|
    ensures SquaredDiffs(e1, e2, n) >= 0.0
    decreases n
  {
    if n > 0 {
      SquaredDiffsNonNegative(e1, e2, n - 1);
    }
  }

  /** The mean squared error is never negative. */
  lemma MseNonNegative(a: PFMImage, b: PFMImage)
    requires Comparable(a, b)
    ensures MeanSquaredError(a, b) >= 0.0
  {
    SquaredDiffsNonNegative(ColorsOf(a), ColorsOf(b), 3 * a.Resolution());
  }

  /** An image compared with itself has no error. */
  lemma {:induction false} SquaredDiffsSelf(e: seq<real>, n: int)
    requires 0 <= n <= |e|
    ensures SquaredDiffs(e, e, n) == 0.0
    decreases n
  {
    if n > 0 {
      SquaredDiffsSelf(e, n - 1);
    }
  }

  lemma MseSelf(a: PFMImage)
    requires a.Valid()
    ensures MeanSquaredError(a, a) == 0.0
  {
    SquaredDiffsSelf(ColorsOf(a), 3 * a.Resolution());
  }

  /** Swapping the images changes no squared difference. */
  lemma {:induction false} SquaredDiffsSymmetric(e1: seq<real>, e2: seq<real>, n: int)
    requires 0 <= n <= |e1| && n <= |e2|
    ensures SquaredDiffs(e1, e2, n) == SquaredDiffs(e2, e1, n)
    decreases n
  {
    if n > 0 {
      SquaredDiffsSymmetric(e1, e2, n - 1);
      assert Sq(e1[n - 1] - e2[n - 1]) == Sq(e2[n - 1] - e1[n - 1]);
    }
  }

  lemma MseSymmetric(a: PFMImage, b: PFMImage)
    requires Comparable(a, b)
    ensures MeanSquaredError(a, b) == MeanSquaredError(b, a)
  {
    SquaredDiffsSymmetric(ColorsOf(a), ColorsOf(b), 3 * a.Resolution());
  }

  /** A square vanishes exactly at zero. */
  lemma SqZero(d: real)
    ensures Sq(d) == 0.0 <==> d == 0.0
  {
    if d != 0.0 {
      SqPositive(d);
    }
  }

  lemma SqPositive(d: real)
    requires d != 0.0
    ensures Sq(d) > 0.0
  {
    var m := if d > 0.0 then d else -d;
    assert Sq(d) == Sq(m);
    calc {
      Sq(m);
      m * m;
    > { ProductOfPositives(m, m); }
      0.0;
    }
  }

  lemma ProductOfPositives(u: real, v: real)
    requires u > 0.0 && v > 0.0
    ensures u * v > 0.0
  {
  }

  /** The squared differences vanish exactly when the channels agree. */
  lemma {:induction false} SquaredDiffsZero(e1: seq<real>, e2: seq<real>, n: int)
    requires 0 <= n <= |e1| && n <= |e2|
    ensures SquaredDiffs(e1, e2, n) == 0.0 <==> forall k :: 0 <= k < n ==> e1[k] == e2[k]
    decreases n
  {
    if n > 0 {
      SquaredDiffsZero(e1, e2, n - 1);
      SquaredDiffsNonNegative(e1, e2, n - 1);
      SqZero(e1[n - 1] - e2[n - 1]);
    }
  }

  /** The mean squared error is zero exactly when the two images show the same colors. */
  lemma MseZero(a: PFMImage, b: PFMImage)
    requires Comparable(a, b)
    ensures MeanSquaredError(a, b) == 0.0 <==> ColorsOf(a) == ColorsOf(b)
  {
    var e1, e2 := ColorsOf(a), ColorsOf(b);
    var n := 3 * a.Resolution();
    SquaredDiffsZero(e1, e2, n);
    if (forall k :: 0 <= k < n ==> e1[k] == e2[k]) {
      assert e1 == e2;
    }
  }

  /** Gray colors repeat each sample in three channels, so each squared difference counts three times. */
  lemma {:induction false} GrayTriples(s1: seq<real>, s2: seq<real>, n: nat)
    requires n <= |s1| && n <= |s2|
    ensures SquaredDiffs(Expanded(s1, true), Expanded(s2, true), 3 * n) == 3.0 * SquaredDiffs(s1, s2, n)
    decreases n
  {
    if n > 0 {
      var e1, e2, k := Expanded(s1, true), Expanded(s2, true), 3 * (n - 1);
      GrayTriples(s1, s2, n - 1);
      GrayChannels(s1, n - 1);
      GrayChannels(s2, n - 1);
      RepeatedChannel(e1, e2, k, s1[n - 1], s2[n - 1]);
      assert k + 3 == 3 * n;
      assert SquaredDiffs(s1, s2, n) == SquaredDiffs(s1, s2, n - 1) + Sq(s1[n - 1] - s2[n - 1]);
    }
  }

  /** Three channels that all hold u against three that all hold v add three times Sq(u - v). */
  lemma RepeatedChannel(e1: seq<real>, e2: seq<real>, k: nat, u: real, v: real)
    requires k + 3 <= |e1| && k + 3 <= |e2| && e1[k..k + 3] == [u, u, u] && e2[k..k + 3] == [v, v, v]
    ensures SquaredDiffs(e1, e2, k + 3) == SquaredDiffs(e1, e2, k) + 3.0 * Sq(u - v)
  {
    assert e1[k] == u && e1[k + 1] == u && e1[k + 2] == u by {
      assert e1[k..k + 3][0] == e1[k] && e1[k..k + 3][1] == e1[k + 1] && e1[k..k + 3][2] == e1[k + 2];
    }
    assert e2[k] == v && e2[k + 1] == v && e2[k + 2] == v by {
      assert e2[k..k + 3][0] == e2[k] && e2[k..k + 3][1] == e2[k + 1] && e2[k..k + 3][2] == e2[k + 2];
    }
    assert SquaredDiffs(e1, e2, k + 3) == SquaredDiffs(e1, e2, k + 2) + Sq(u - v);
    assert SquaredDiffs(e1, e2, k + 2) == SquaredDiffs(e1, e2, k + 1) + Sq(u - v);
    assert SquaredDiffs(e1, e2, k + 1) == SquaredDiffs(e1, e2, k) + Sq(u - v);
  }

  /**
   * Of two gray images the mean squared error is three times the sum of the squared sample
   * differences over the pixel count.
   */
  lemma MseGray(a: PFMImage, b: PFMImage)
    requires Comparable(a, b) && a.gray && b.gray
    ensures MeanSquaredError(a, b) == 3.0 * SquaredDiffs(a.floats[..], b.floats[..], a.Resolution()) / a.Resolution() as real
  {
    GrayTriples(a.floats[..], b.floats[..], a.Resolution());
  }

  /** The expanded colors of gray pixel p are its sample three times. */
  lemma GrayChannels(s: seq<real>, p: int)
    requires 0 <= p < |s|
    ensures Expanded(s, true)[3 * p .. 3 * p + 3] == [s[p], s[p], s[p]]
  {
    var e := Expanded(s, true);
    assert (3 * p) / 3 == p && (3 * p + 1) / 3 == p && (3 * p + 2) / 3 == p;
    assert e[3 * p] == s[p] && e[3 * p + 1] == s[p] && e[3 * p + 2] == s[p];
  }

  // ---------------------------------------------------------------------------
  // Difference image
  // ---------------------------------------------------------------------------

  /** The channel k of the difference image: the scaled absolute channel difference. */
  function ScaledDiff(e1: seq<real>, e2: seq<real>, scale: int, k: int): (d: real)
    requires 0 <= k < |e1| && k < |e2|
    ensures scale >= 0 ==> d >= 0.0
  {
    scale as real * Abs(e1[k] - e2[k])
  }

  /** A run of n samples, all zero, as Java allocates a float array. */
  function Zeros(n: nat): (z: seq<real>)
    ensures |z| == n && forall k :: 0 <= k < n ==> z[k] == 0.0
  {
    seq(n, _ => 0.0)
  }

  /** The three channels of pixel p written at positions slot, slot + 1 and slot + 2 of out. */
  function PutPixel(out: seq<real>, e1: seq<real>, e2: seq<real>, scale: int, slot: int, p: int): (r: seq<real>)
    requires 0 <= slot && slot + 3 <= |out| && 0 <= p && 3 * p + 3 <= |e1| && 3 * p + 3 <= |e2|
    ensures |r| == |out|
  {
    out[slot := ScaledDiff(e1, e2, scale, 3 * p)]
       [slot + 1 := ScaledDiff(e1, e2, scale, 3 * p + 1)]
       [slot + 2 := ScaledDiff(e1, e2, scale, 3 * p + 2)]
  }

  /**
   * The output after the first n pixels of a row whose pixel x is pixel first + x of the
   * scan and is written at slot 3 * (base + x). For row y of difference, first is
   * RowStart(y, width) and base is RowStart(y, stride): Java's index 3 * (stride * y + x).
   */
  function RowDiffs(out: seq<real>, e1: seq<real>, e2: seq<real>, scale: int, base: nat, first: nat, n: nat)
    : (r: seq<real>)
    requires 3 * (first + n) <= |e1| && 3 * (first + n) <= |e2|
    ensures |r| == |out|
  {
    seq(|out|, k requires 0 <= k < |out| => RowSlot(out, e1, e2, scale, base, first, n, k))
  }

  /**
   * Slot k after the first n pixels of the row: channel i of its pixel x, for the slots
   * 3 * (base + x) + i the row writes, and untouched otherwise. The pixels of one row never
   * share a slot.
   */
  function RowSlot(out: seq<real>, e1: seq<real>, e2: seq<real>, scale: int, base: nat, first: nat, n: nat,
                   k: int): real
    requires 3 * (first + n) <= |e1| && 3 * (first + n) <= |e2| && 0 <= k < |out|
  {
    if 3 * base <= k < 3 * (base + n) then ScaledDiff(e1, e2, scale, 3 * first + (k - 3 * base)) else out[k]
  }

  /** The slots of the first m rows fit in out: the last pixel of row m - 1 is the furthest. */
  predicate RowsFit(stride: nat, width: nat, m: nat, size: int)
  {
    m == 0 || 3 * (RowStart(m - 1, stride) + width) <= size
  }

  /** The output after the first m rows. */
  function Diffs(out: seq<real>, e1: seq<real>, e2: seq<real>, scale: int, stride: nat, width: nat, m: nat)
    : (r: seq<real>)
    requires RowsFit(stride, width, m, |out|)
    requires 3 * RowStart(m, width) <= |e1| && 3 * RowStart(m, width) <= |e2|
    ensures |r| == |out|
  {
    if m == 0 then out
    else
      RowStartNonNegative(m - 1, stride);
      RowStartNonNegative(m - 1, width);
      RowDiffs(Diffs(out, e1, e2, scale, stride, width, m - 1), e1, e2, scale,
               RowStart(m - 1, stride), RowStart(m - 1, width), width)
  }

  /** The difference image's samples: all rows written, with row stride stride, into zeros. */
  function DifferenceSamples(a: PFMImage, b: PFMImage, scale: int, stride: nat): (d: seq<real>)
    reads a.floats, b.floats
    requires Comparable(a, b) && RowsFit(stride, a.width, a.height, 3 * a.Resolution())
    ensures |d| == 3 * a.Resolution()
  {
    RowStartProduct(a.height, a.width);
    Diffs(Zeros(3 * a.Resolution()), ColorsOf(a), ColorsOf(b), scale, stride, a.width, a.height)
  }

  /**
   * PFMUtil.difference with the row stride as a parameter: images of different sizes are
   * rejected; otherwise a zeroed array of three samples per pixel is filled, row by row, with
   * the scaled absolute channel differences of getColorAt, pixel (x, y) at index
   * 3 * (stride * y + x); an index past the array fails as Java's array store does.
   */
  method DifferenceWithStride(a: PFMImage, b: PFMImage, scale: int, stride: nat) returns (r: Result<PFMImage>)
    requires a.Valid() && b.Valid()
    ensures !Comparable(a, b) ==> r == Err(SizeMismatch)
    ensures Comparable(a, b) ==> (r.Err? <==> !RowsFit(stride, a.width, a.height, 3 * a.Resolution()))
    ensures Comparable(a, b) && r.Err? ==> r.error == IndexOutOfBounds
    ensures r.Ok? ==> Comparable(a, b) && RowsFit(stride, a.width, a.height, 3 * a.Resolution())
    ensures r.Ok? ==> fresh(r.value) && r.value.Valid() && !r.value.gray
    ensures r.Ok? ==> r.value.width == a.width && r.value.height == a.height
    ensures r.Ok? ==> r.value.floats[..] == DifferenceSamples(a, b, scale, stride)
  {
    if a.width != b.width || a.height != b.height {
      return Err(SizeMismatch);
    }
    var resolution := a.width * a.height;
    var nbOfFloats := 3 * resolution;
    var floats := new real[nbOfFloats](_ => 0.0);
    assert floats[..] == Zeros(nbOfFloats);
    var ok := FillDifference(a, b, scale, stride, floats);
    if !ok {
      return Err(IndexOutOfBounds);
    }
    r := PFMImage.New(a.width, a.height, floats);
  }

  /** difference's loop over the rows, on the zeroed output array. */
  method FillDifference(a: PFMImage, b: PFMImage, scale: int, stride: nat, floats: array<real>) returns (ok: bool)
    requires Comparable(a, b) && floats.Length == 3 * a.Resolution() && floats != a.floats && floats != b.floats
    requires floats[..] == Zeros(3 * a.Resolution())
    modifies floats
    ensures ok <==> RowsFit(stride, a.width, a.height, 3 * a.Resolution())
    ensures ok ==> floats[..] == DifferenceSamples(a, b, scale, stride)
  {
    ghost var e1, e2 := ColorsOf(a), ColorsOf(b);
    ghost var zeros := floats[..];
    RowStartProduct(a.height, a.width);
    for y := 0 to a.height
      invariant RowsFit(stride, a.width, y, floats.Length)
      invariant RowStart(y, a.width) <= a.Resolution()
      invariant floats[..] == Diffs(zeros, e1, e2, scale, stride, a.width, y)
    {
      ScanPosition(0, y, a.width, a.height);
      ok := DiffRow(a, b, scale, stride, y, floats, e1, e2);
      if !ok {
        RowStartMonotone(y, a.height - 1, stride);
        return;
      }
    }
    ok := true;
  }

  /** The body of difference's loop over the rows: the pixels of row y, left to right. */
  method DiffRow(a: PFMImage, b: PFMImage, scale: int, stride: nat, y: int, out: array<real>,
                 ghost e1: seq<real>, ghost e2: seq<real>) returns (ok: bool)
    requires Comparable(a, b) && 0 <= y < a.height && e1 == ColorsOf(a) && e2 == ColorsOf(b)
    requires out.Length == 3 * a.Resolution() && out != a.floats && out != b.floats
    requires RowStart(y, a.width) + a.width <= a.Resolution()
    modifies out
    ensures 0 <= RowStart(y, stride) && 0 <= RowStart(y, a.width)
    ensures ok <==> 3 * (RowStart(y, stride) + a.width) <= out.Length
    ensures ok ==> out[..] == RowDiffs(old(out[..]), e1, e2, scale, RowStart(y, stride), RowStart(y, a.width), a.width)
  {
    RowStartNonNegative(y, stride);
    RowStartNonNegative(y, a.width);
    ghost var before := out[..];
    ghost var base: nat, first: nat := RowStart(y, stride), RowStart(y, a.width);
    for x := 0 to a.width
      invariant x == 0 || 3 * (base + x) <= out.Length
      invariant forall k :: 0 <= k < out.Length ==> out[k] == RowSlot(before, e1, e2, scale, base, first, x, k)
    {
      ok := DiffPixel(a, b, scale, stride, x, y, out, e1, e2);
      if !ok {
        return;
      }
    }
    ok := true;
    assert out[..] == RowDiffs(before, e1, e2, scale, base, first, a.width);
  }

  /**
   * The body of difference's loop over the pixels: the scaled absolute channel differences of
   * pixel (x, y) stored at index 3 * (stride * y + x) and the two after it, failing at the first
   * store past the end of the array.
   */
  method DiffPixel(a: PFMImage, b: PFMImage, scale: int, stride: nat, x: int, y: int, out: array<real>,
                   ghost e1: seq<real>, ghost e2: seq<real>) returns (ok: bool)
    requires Comparable(a, b) && 0 <= x < a.width && 0 <= y < a.height && e1 == ColorsOf(a) && e2 == ColorsOf(b)
    requires out.Length == 3 * a.Resolution() && out != a.floats && out != b.floats
    modifies out
    ensures 0 <= RowStart(y, a.width) + x < a.Resolution() && 0 <= RowStart(y, stride)
    ensures ok <==> 3 * (RowStart(y, stride) + x) + 3 <= out.Length
    ensures ok ==> out[..] == PutPixel(old(out[..]), e1, e2, scale, 3 * (RowStart(y, stride) + x), RowStart(y, a.width) + x)
  {
    var c1 := a.GetColorAt(x, y).value;
    var c2 := b.GetColorAt(x, y).value;
    var index := 3 * (stride * y + x);
    ColorAtPixel(a, x, y);
    ColorAtPixel(b, x, y);
    SlotIndex(stride, x, y);
    RowStartNonNegative(y, stride);
    ghost var p := RowStart(y, a.width) + x;
    ok := StoreChannels(out, index, c1, c2, scale);
    if ok {
      StoredPixel(old(out[..]), e1, e2, scale, index, p, c1, c2);
    }
  }

  /** Storing the channels of getColorAt(x, y) is writing the expanded colors of pixel p. */
  lemma StoredPixel(out: seq<real>, e1: seq<real>, e2: seq<real>, scale: int, slot: int, p: int,
                    c1: seq<real>, c2: seq<real>)
    requires 0 <= slot && slot + 3 <= |out| && 0 <= p && 3 * p + 3 <= |e1| && 3 * p + 3 <= |e2|
    requires c1 == e1[3 * p .. 3 * p + 3] && c2 == e2[3 * p .. 3 * p + 3]
    ensures PutPixel(out, e1, e2, scale, slot, p)
         == out[slot := scale as real * Abs(c1[0] - c2[0])]
               [slot + 1 := scale as real * Abs(c1[1] - c2[1])]
               [slot + 2 := scale as real * Abs(c1[2] - c2[2])]
  {
    assert c1[0] == e1[3 * p] && c1[1] == e1[3 * p + 1] && c1[2] == e1[3 * p + 2];
    assert c2[0] == e2[3 * p] && c2[1] == e2[3 * p + 1] && c2[2] == e2[3 * p + 2];
    assert ScaledDiff(e1, e2, scale, 3 * p) == scale as real * Abs(c1[0] - c2[0]);
    assert ScaledDiff(e1, e2, scale, 3 * p + 1) == scale as real * Abs(c1[1] - c2[1]);
    assert ScaledDiff(e1, e2, scale, 3 * p + 2) == scale as real * Abs(c1[2] - c2[2]);
  }

  /** The loop over the channels: store i of three, failing at the first one past the end. */
  method StoreChannels(out: array<real>, index: int, c1: seq<real>, c2: seq<real>, scale: int) returns (ok: bool)
    requires index >= 0 && |c1| == 3 && |c2| == 3
    modifies out
    ensures ok <==> index + 3 <= out.Length
    ensures ok ==> out[..] == old(out[..])[index := scale as real * Abs(c1[0] - c2[0])]
                                          [index + 1 := scale as real * Abs(c1[1] - c2[1])]
                                          [index + 2 := scale as real * Abs(c1[2] - c2[2])]
  {
    for i := 0 to 3
      invariant i == 0 || index + i <= out.Length
      invariant forall k :: 0 <= k < out.Length ==>
        out[k] == if index <= k < index + i then scale as real * Abs(c1[k - index] - c2[k - index]) else old(out[k])
    {
      if index + i >= out.Length {
        return false;
      }
      out[index + i] := scale as real * Abs(c1[i] - c2[i]);
    }
    ok := true;
    ghost var expected := old(out[..])[index := scale as real * Abs(c1[0] - c2[0])]
                                      [index + 1 := scale as real * Abs(c1[1] - c2[1])]
                                      [index + 2 := scale as real * Abs(c1[2] - c2[2])];
    assert forall k :: 0 <= k < out.Length ==> out[k] == expected[k];
    assert out[..] == expected;
  }

  /** Java's index 3 * (stride * y + x) is the slot RowDiffs assigns to pixel (x, y). */
  lemma SlotIndex(stride: nat, x: int, y: int)
    requires y >= 0
    ensures 3 * (stride * y + x) == 3 * (RowStart(y, stride) + x)
  {
    RowStartProduct(y, stride);
  }

  lemma {:induction false} RowStartMonotone(y1: int, y2: int, stride: nat)
    requires y1 <= y2
    ensures RowStart(y1, stride) <= RowStart(y2, stride)
    decreases y2 - y1
  {
    if y1 < y2 {
      RowStartMonotone(y1, y2 - 1, stride);
    }
  }

  // ---------------------------------------------------------------------------
  // difference as written, and with the row-major index
  // ---------------------------------------------------------------------------

  /**
   * PFMUtil.difference(image1, image2, scale) as written: pixel (x, y) is stored at index
   * 3 * (height * y + x). Its stores stay inside the array exactly when height <= width.
   */
  method Difference(a: PFMImage, b: PFMImage, scale: int) returns (r: Result<PFMImage>)
    requires a.Valid() && b.Valid()
    ensures !Comparable(a, b) ==> r == Err(SizeMismatch)
    ensures Comparable(a, b) ==> (r.Err? <==> a.height > a.width)
    ensures Comparable(a, b) && r.Err? ==> r.error == IndexOutOfBounds
    ensures r.Ok? ==> Comparable(a, b) && RowsFit(a.height, a.width, a.height, 3 * a.Resolution())
    ensures r.Ok? ==> fresh(r.value) && r.value.Valid() && !r.value.gray
    ensures r.Ok? ==> r.value.width == a.width && r.value.height == a.height
    ensures r.Ok? ==> r.value.floats[..] == DifferenceSamples(a, b, scale, a.height)
  {
    AsWrittenFits(a.width, a.height);
    r := DifferenceWithStride(a, b, scale, a.height);
  }

  /** PFMUtil.difference(image1, image2): the difference with scale 1. */
  method DifferenceUnscaled(a: PFMImage, b: PFMImage) returns (r: Result<PFMImage>)
    requires a.Valid() && b.Valid()
    ensures !Comparable(a, b) ==> r == Err(SizeMismatch)
    ensures Comparable(a, b) ==> (r.Err? <==> a.height > a.width)
    ensures Comparable(a, b) && r.Err? ==> r.error == IndexOutOfBounds
    ensures r.Ok? ==> Comparable(a, b) && RowsFit(a.height, a.width, a.height, 3 * a.Resolution())
    ensures r.Ok? ==> fresh(r.value) && r.value.Valid() && !r.value.gray
    ensures r.Ok? ==> r.value.width == a.width && r.value.height == a.height
    ensures r.Ok? ==> r.value.floats[..] == DifferenceSamples(a, b, 1, a.height)
  {
    r := Difference(a, b, 1);
  }

  /**
   * difference with the evidently intended index 3 * (width * y + x): every pair of images of
   * the same size succeeds, and channel k of the result is the scaled absolute difference of
   * channel k of the two images' colors.
   */
  method DifferenceRowMajor(a: PFMImage, b: PFMImage, scale: int) returns (r: Result<PFMImage>)
    requires a.Valid() && b.Valid()
    ensures r.Ok? <==> Comparable(a, b)
    ensures r.Err? ==> r.error == SizeMismatch
    ensures r.Ok? ==> fresh(r.value) && r.value.Valid() && !r.value.gray
    ensures r.Ok? ==> r.value.width == a.width && r.value.height == a.height
    ensures r.Ok? ==> forall k :: 0 <= k < 3 * a.Resolution() ==>
      r.value.floats[k] == ScaledDiff(ColorsOf(a), ColorsOf(b), scale, k)
  {
    RowMajorFits(a.width, a.height);
    r := DifferenceWithStride(a, b, scale, a.width);
    if r.Ok? {
      DifferenceRowMajorContent(a, b, scale);
    }
  }

  /** With Java's height in place of the width, the rows fit exactly when height <= width. */
  lemma AsWrittenFits(width: int, height: int)
    requires width > 0 && height >= 0
    ensures RowsFit(height, width, height, 3 * (width * height)) <==> height <= width
  {
    if height > 0 {
      RowStartProduct(height - 1, height);
      assert RowStart(height - 1, height) == (height - 1) * height;
      if height <= width {
        MulMonotone(height, width, height - 1);
        assert (height - 1) * height + width <= width * height;
      } else {
        MulMonotone(width + 1, height, height - 1);
        assert (height - 1) * height + width > width * height;
      }
    }
  }

  /** With the width as row stride the rows of any image fit its array. */
  lemma RowMajorFits(width: int, height: int)
    requires width >= 0 && height >= 0
    ensures RowsFit(width, width, height, 3 * (width * height))
  {
    if height > 0 {
      RowStartProduct(height - 1, width);
      assert (height - 1) * width + width == width * height;
    }
  }

  /** With the width as row stride, the first m rows hold the channels of their pixels. */
  lemma {:induction false} RowMajorRows(out: seq<real>, e1: seq<real>, e2: seq<real>, scale: int,
                                        width: nat, m: nat, k: int)
    requires RowsFit(width, width, m, |out|)
    requires 3 * RowStart(m, width) <= |e1| && 3 * RowStart(m, width) <= |e2|
    requires 0 <= k < |out|
    ensures Diffs(out, e1, e2, scale, width, width, m)[k] ==
      if k < 3 * RowStart(m, width) then ScaledDiff(e1, e2, scale, k) else out[k]
    decreases m
  {
    if m > 0 {
      RowStartNonNegative(m - 1, width);
      RowMajorRows(out, e1, e2, scale, width, m - 1, k);
    }
  }

  /** The corrected difference: sample k is the scaled difference of channel k of the colors. */
  lemma DifferenceRowMajorContent(a: PFMImage, b: PFMImage, scale: int)
    requires Comparable(a, b)
    ensures RowsFit(a.width, a.width, a.height, 3 * a.Resolution())
    ensures forall k :: 0 <= k < 3 * a.Resolution() ==>
      DifferenceSamples(a, b, scale, a.width)[k] == ScaledDiff(ColorsOf(a), ColorsOf(b), scale, k)
  {
    RowMajorFits(a.width, a.height);
    RowStartProduct(a.height, a.width);
    forall k | 0 <= k < 3 * a.Resolution()
      ensures DifferenceSamples(a, b, scale, a.width)[k] == ScaledDiff(ColorsOf(a), ColorsOf(b), scale, k)
    {
      RowMajorRows(Zeros(3 * a.Resolution()), ColorsOf(a), ColorsOf(b), scale, a.width, a.height, k);
    }
  }

  /** The first m rows leave every slot past the last pixel of row m - 1 as it was. */
  lemma {:induction false} DiffsUntouched(out: seq<real>, e1: seq<real>, e2: seq<real>, scale: int,
                                          stride: nat, width: nat, m: nat, k: int)
    requires m > 0 && RowsFit(stride, width, m, |out|)
    requires 3 * RowStart(m, width) <= |e1| && 3 * RowStart(m, width) <= |e2|
    requires 0 <= k < |out| && 3 * (RowStart(m - 1, stride) + width) <= k
    ensures Diffs(out, e1, e2, scale, stride, width, m)[k] == out[k]
    decreases m
  {
    RowStartNonNegative(m - 1, stride);
    RowStartNonNegative(m - 1, width);
    if m > 1 {
      RowStartMonotone(m - 2, m - 1, stride);
      DiffsUntouched(out, e1, e2, scale, stride, width, m - 1, k);
    }
  }

  /**
   * A wide image of two or more rows: the index 3 * (height * y + x) never reaches the last
   * sample, so difference leaves it 0.
   */
  lemma WideLosesLastSample(a: PFMImage, b: PFMImage, scale: int)
    requires Comparable(a, b) && 2 <= a.height < a.width
    ensures RowsFit(a.height, a.width, a.height, 3 * a.Resolution())
    ensures DifferenceSamples(a, b, scale, a.height)[3 * a.Resolution() - 1] == 0.0
  {
    AsWrittenFits(a.width, a.height);
    LastSlotUnreached(a.width, a.height);
    RowStartProduct(a.height, a.width);
    DiffsUntouched(Zeros(3 * a.Resolution()), ColorsOf(a), ColorsOf(b), scale, a.height, a.width, a.height,
                   3 * a.Resolution() - 1);
  }

  /** With 2 <= height < width, the last pixel of the last row lands before the last slot. */
  lemma LastSlotUnreached(width: int, height: int)
    requires 2 <= height < width
    ensures 3 * (RowStart(height - 1, height) + width) <= 3 * (width * height) - 1
  {
    RowStartProduct(height - 1, height);
    MulMonotone(height + 1, width, height - 1);
    assert (height + 1) * (height - 1) == (height - 1) * height + height - 1;
    assert width * (height - 1) == width * height - width;
  }

  /**
   * The discrepancy: for a wide image of two or more rows whose last channels differ, with a
   * nonzero scale, the difference as written is not the corrected one.
   */
  lemma AsWrittenDiffers(a: PFMImage, b: PFMImage, scale: int)
    requires Comparable(a, b) && 2 <= a.height < a.width && scale != 0
    requires ColorsOf(a)[3 * a.Resolution() - 1] != ColorsOf(b)[3 * a.Resolution() - 1]
    ensures RowsFit(a.height, a.width, a.height, 3 * a.Resolution())
    ensures RowsFit(a.width, a.width, a.height, 3 * a.Resolution())
    ensures DifferenceSamples(a, b, scale, a.height) != DifferenceSamples(a, b, scale, a.width)
  {
    var last := 3 * a.Resolution() - 1;
    WideLosesLastSample(a, b, scale);
    DifferenceRowMajorContent(a, b, scale);
    var d := Abs(ColorsOf(a)[last] - ColorsOf(b)[last]);
    assert d > 0.0;
    if scale > 0 {
      ProductOfPositives(scale as real, d);
    } else {
      ProductOfPositives(-scale as real, d);
    }
    assert ScaledDiff(ColorsOf(a), ColorsOf(b), scale, last) != 0.0;
  }

  /** For a single row, or a square image, the difference as written is the corrected one. */
  lemma AsWrittenAgrees(a: PFMImage, b: PFMImage, scale: int)
    requires Comparable(a, b) && (a.height == 1 || a.height == a.width)
    ensures RowsFit(a.height, a.width, a.height, 3 * a.Resolution())
    ensures RowsFit(a.width, a.width, a.height, 3 * a.Resolution())
    ensures DifferenceSamples(a, b, scale, a.height) == DifferenceSamples(a, b, scale, a.width)
  {
    AsWrittenFits(a.width, a.height);
    RowMajorFits(a.width, a.height);
    if a.height == 1 {
      RowStartProduct(1, a.width);
      SingleRowStrideFree(Zeros(3 * a.Resolution()), ColorsOf(a), ColorsOf(b), scale, 1, a.width, a.width);
    }
  }

  lemma SingleRowStrideFree(out: seq<real>, e1: seq<real>, e2: seq<real>, scale: int,
                            s1: nat, s2: nat, width: nat)
    requires 3 * width <= |out| && 3 * width <= |e1| && 3 * width <= |e2|
    ensures RowsFit(s1, width, 1, |out|) && RowsFit(s2, width, 1, |out|)
    ensures Diffs(out, e1, e2, scale, s1, width, 1) == Diffs(out, e1, e2, scale, s2, width, 1)
  {
    assert RowStart(0, s1) == 0 && RowStart(0, s2) == 0;
  }

  /** The first m rows keep a property of the samples that every scaled channel difference has. */
  lemma {:induction false} DiffsPreserve(out: seq<real>, e1: seq<real>, e2: seq<real>, scale: int,
                                         stride: nat, width: nat, m: nat, P: real -> bool)
    requires RowsFit(stride, width, m, |out|)
    requires 3 * RowStart(m, width) <= |e1| && 3 * RowStart(m, width) <= |e2|
    requires forall k :: 0 <= k < |out| ==> P(out[k])
    requires forall j :: 0 <= j < |e1| && j < |e2| ==> P(ScaledDiff(e1, e2, scale, j))
    ensures forall k :: 0 <= k < |out| ==> P(Diffs(out, e1, e2, scale, stride, width, m)[k])
    decreases m
  {
    if m > 0 {
      if m > 1 {
        RowStartMonotone(m - 2, m - 1, stride);
      }
      RowStartNonNegative(m - 1, width);
      DiffsPreserve(out, e1, e2, scale, stride, width, m - 1, P);
      RowStartNonNegative(m - 1, stride);
    }
  }

  /** The difference of an image with itself is all zeros, whatever the row stride. */
  lemma DifferenceSelf(a: PFMImage, scale: int, stride: nat)
    requires a.Valid() && RowsFit(stride, a.width, a.height, 3 * a.Resolution())
    ensures Comparable(a, a)
    ensures DifferenceSamples(a, a, scale, stride) == Zeros(3 * a.Resolution())
  {
    var e := ColorsOf(a);
    var P := (v: real) => v == 0.0;
    RowStartProduct(a.height, a.width);
    forall j | 0 <= j < |e|
      ensures P(ScaledDiff(e, e, scale, j))
    {
      assert Abs(e[j] - e[j]) == 0.0;
    }
    DiffsPreserve(Zeros(3 * a.Resolution()), e, e, scale, stride, a.width, a.height, P);
    assert DifferenceSamples(a, a, scale, stride) == Zeros(3 * a.Resolution());
  }

  /** With a nonnegative scale no sample of the difference is negative. */
  lemma DifferenceNonNegative(a: PFMImage, b: PFMImage, scale: int, stride: nat)
    requires Comparable(a, b) && RowsFit(stride, a.width, a.height, 3 * a.Resolution()) && scale >= 0
    ensures forall k :: 0 <= k < 3 * a.Resolution() ==> DifferenceSamples(a, b, scale, stride)[k] >= 0.0
  {
    var e1, e2 := ColorsOf(a), ColorsOf(b);
    var P := (v: real) => v >= 0.0;
    RowStartProduct(a.height, a.width);
    forall j | 0 <= j < |e1| && j < |e2|
      ensures P(ScaledDiff(e1, e2, scale, j))
    {
      var d := Abs(e1[j] - e2[j]);
      if scale > 0 && d > 0.0 {
        ProductOfPositives(scale as real, d);
      }
    }
    DiffsPreserve(Zeros(3 * a.Resolution()), e1, e2, scale, stride, a.width, a.height, P);
  }
}
