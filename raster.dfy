/**
 * The raster every operator consumes and produces: an 8-bit OpenCV matrix
 * (`cv::Mat` of type CV_8UC1 or CV_8UC3) seen as a value.  A pixel is the
 * sequence of its channel values in the matrix's own channel order (B, G, R
 * for a colour image).  Every operator of the toolkit allocates a fresh
 * result, so images are modelled as immutable values.
 */
module Raster {

  /** A value that fits an unsigned 8-bit channel (`uchar`). */
  predicate IsByte(v: int) {
    0 <= v <= 255
  }

  /** The channel values of one pixel. */
  type Pixel = seq<int>

  predicate ValidPixel(p: Pixel, channels: nat) {
    |p| == channels && forall c | 0 <= c < channels :: IsByte(p[c])
  }

  predicate ValidRow(row: seq<Pixel>, cols: nat, channels: nat) {
    |row| == cols && forall x | 0 <= x < cols :: ValidPixel(row[x], channels)
  }

  /** A matrix of `rows` x `cols` pixels of `channels` bytes each; `data[y][x]` is pixel (y, x). */
  datatype Image = Image(rows: nat, cols: nat, channels: nat, data: seq<seq<Pixel>>)
  {
    /** The shape invariant of a CV_8UC<channels> matrix. */
    predicate Valid() {
      |data| == rows && forall y | 0 <= y < rows :: ValidRow(data[y], cols, channels)
    }

    /** Same size and same type, as `cv::Mat::size()` and `cv::Mat::type()` compare. */
    predicate SameTypeAs(other: Image) {
      rows == other.rows && cols == other.cols && channels == other.channels
    }

    /** A single-channel image whose every value is 0 or 255. */
    predicate IsBinary() {
      Valid() && channels == 1 &&
      forall y, x | 0 <= y < rows && 0 <= x < cols :: data[y][x] == [0] || data[y][x] == [255]
    }

    /** Every pixel of this single-channel image has value `v`. */
    predicate IsUniform(v: int) {
      Valid() && channels == 1 &&
      forall y, x | 0 <= y < rows && 0 <= x < cols :: data[y][x] == [v]
    }
  }

  /** The row of a zero matrix (`cv::Mat::zeros`). */
  function ZeroRow(cols: nat, channels: nat): (row: seq<Pixel>)
    ensures ValidRow(row, cols, channels)
    ensures forall x | 0 <= x < cols :: row[x] == seq(channels, c => 0)
  {
    seq(cols, x => seq(channels, c => 0))
  }

  /** `cv::Mat::zeros(rows, cols, type)`. */
  function Zeros(rows: nat, cols: nat, channels: nat): (r: Image)
    ensures r.Valid() && r.rows == rows && r.cols == cols && r.channels == channels
    ensures forall y | 0 <= y < rows :: r.data[y] == ZeroRow(cols, channels)
  {
    Image(rows, cols, channels, seq(rows, y => ZeroRow(cols, channels)))
  }

  /** Two images of the same type are equal when they agree pixel by pixel. */
  lemma SameImage(a: Image, b: Image)
    requires a.Valid() && b.Valid() && a.SameTypeAs(b)
    requires forall y, x | 0 <= y < a.rows && 0 <= x < a.cols :: a.data[y][x] == b.data[y][x]
    ensures a == b
  {
    forall y | 0 <= y < a.rows
      ensures a.data[y] == b.data[y]
    {
      assert |a.data[y]| == |b.data[y]| == a.cols;
    }
    assert a.data == b.data;
  }

  function Min(a: int, b: int): int { if a < b then a else b }

  function Max(a: int, b: int): int { if a < b then b else a }

  /**
   * The clamp that stores a double into a `uchar`: 255 above 255, 0 below 0,
   * otherwise the value truncated, which for a non-negative value is its floor.
   */
  function ClampToByte(v: real): (b: int)
    ensures IsByte(b)
    ensures v > 255.0 ==> b == 255
    ensures v < 0.0 ==> b == 0
    ensures 0.0 <= v <= 255.0 ==> b as real <= v < b as real + 1.0
  {
    if v > 255.0 then 255 else if v < 0.0 then 0 else Trunc(v)
  }

  /** A byte stored through the clamp comes back unchanged. */
  lemma ClampByte(v: int)
    requires IsByte(v)
    ensures ClampToByte(v as real) == v
  {
  }

  /** Casting a product of integers to a real multiplies the casts. */
  lemma CastProduct(a: int, b: int)
    ensures (a * b) as real == a as real * b as real
  {
  }

  lemma RealScaleMonotone(a: real, b: real, m: real)
    requires a <= b && m >= 0.0
    ensures a * m <= b * m
  {
  }

  lemma RealScaleStrict(a: real, b: real, m: real)
    requires a < b && m > 0.0
    ensures a * m < b * m
  {
  }

  /** Scaling by a positive d and dividing by it again gives the value back. */
  lemma {:induction false} CancelScale(d: real, s: real)
    requires d > 0.0
    ensures d * s / d == s
  {
    var q := d * s / d;
    assert q * d == d * s;
    if q < s {
      RealScaleStrict(q, s, d);
    } else if q > s {
      RealScaleStrict(s, q, d);
    }
  }

  lemma DivMonotone(a: real, b: real, d: real)
    requires a <= b && d > 0.0
    ensures a / d <= b / d
  {
    assert (a / d) * d == a && (b / d) * d == b;
  }

  /** A share a / d of a scale s, for 0 <= a <= d, lies in [0, s]. */
  lemma ScaledShare(a: real, d: real, s: real)
    requires 0.0 <= a <= d && d > 0.0 && s >= 0.0
    ensures 0.0 <= a * s / d <= s
  {
    RealScaleMonotone(a, d, s);
    RealScaleMonotone(0.0, a, s);
    DivMonotone(a * s, d * s, d);
    DivMonotone(0.0, a * s, d);
    CancelScale(d, s);
  }

  /** A store into a `uchar`: the value modulo 256. */
  function Uchar(v: int): (b: int)
    ensures IsByte(b) && (b - v) % 256 == 0
    ensures IsByte(v) ==> b == v
  {
    v % 256
  }

  /** `static_cast<int>` of a double: truncation toward zero. */
  function Trunc(r: real): (t: int)
    ensures r >= 0.0 ==> t >= 0 && t as real <= r < t as real + 1.0
    ensures r < 0.0 ==> t <= 0 && t as real - 1.0 < r <= t as real
  {
    if r >= 0.0 then r.Floor else -((-r).Floor)
  }

  /**
   * The weighted luma `0.114 B + 0.587 G + 0.299 R` cast to `uchar`, in
   * exact rational arithmetic: the cast truncates, which for the
   * non-negative sum is the floor of (114 B + 587 G + 299 R) / 1000.  The
   * weights sum to one, so the value lies between the darkest and the
   * brightest channel and is always a byte.
   */
  function Luma(p: Pixel): (l: int)
    requires ValidPixel(p, 3)
    ensures Min(p[0], Min(p[1], p[2])) <= l <= Max(p[0], Max(p[1], p[2]))
    ensures IsByte(l)
  {
    (114 * p[0] + 587 * p[1] + 299 * p[2]) / 1000
  }

  /**
   * The single-channel luma plane of a 3-channel image, as the inline loops
   * of the edge detector, the binariser and the convolution build it; a
   * single-channel image is used as it is.
   */
  function GrayPlane(img: Image): (g: Image)
    requires img.Valid() && (img.channels == 1 || img.channels == 3)
    ensures g.Valid() && g.channels == 1 && g.rows == img.rows && g.cols == img.cols
    ensures img.channels == 1 ==> g == img
    ensures img.channels == 3 ==>
      forall y, x | 0 <= y < img.rows && 0 <= x < img.cols :: g.data[y][x] == [Luma(img.data[y][x])]
  {
    if img.channels == 1 then img
    else Image(img.rows, img.cols, 1,
      seq(img.rows, y requires 0 <= y < img.rows =>
        seq(img.cols, x requires 0 <= x < img.cols => [Luma(img.data[y][x])])))
  }

  /** The loop that reduces a 3-channel image to its luma plane, pixel by pixel. */
  method LumaPlane(img: Image) returns (g: Image)
    requires img.Valid() && img.channels == 3
    ensures g == GrayPlane(img)
  {
    var data := Zeros(img.rows, img.cols, 1).data;
    var y := 0;
    while y < img.rows
      invariant 0 <= y <= img.rows && |data| == img.rows
      invariant forall i | 0 <= i < y :: data[i] == GrayPlane(img).data[i]
      invariant forall i | y <= i < img.rows :: data[i] == ZeroRow(img.cols, 1)
    {
      var row := data[y];
      var x := 0;
      while x < img.cols
        invariant 0 <= x <= img.cols && |row| == img.cols
        invariant forall j | 0 <= j < x :: row[j] == GrayPlane(img).data[y][j]
      {
        row := row[x := [Luma(img.data[y][x])]];
        x := x + 1;
      }
      data := data[y := row];
      y := y + 1;
    }
    g := Image(img.rows, img.cols, 1, data);
  }

  /** The value of a single-channel image at (y, x). */
  function At(g: Image, y: int, x: int): (v: int)
    requires g.Valid() && g.channels == 1 && 0 <= y < g.rows && 0 <= x < g.cols
    ensures IsByte(v) && g.data[y][x] == [v]
  {
    assert ValidRow(g.data[y], g.cols, 1);
    g.data[y][x][0]
  }

  /**
   * The strict threshold of a single-channel plane into a binary image:
   * 255 where the value is greater than `limiar`, 0 elsewhere.
   */
  function Binarized(g: Image, limiar: int): (b: Image)
    requires g.Valid() && g.channels == 1
    ensures b.SameTypeAs(g) && b.IsBinary()
    ensures forall y, x | 0 <= y < g.rows && 0 <= x < g.cols ::
      (b.data[y][x] == [255] <==> At(g, y, x) > limiar) && (b.data[y][x] == [0] <==> At(g, y, x) <= limiar)
  {
    g.(data :=
      seq(g.rows, y requires 0 <= y < g.rows =>
        seq(g.cols, x requires 0 <= x < g.cols => [if At(g, y, x) > limiar then 255 else 0])))
  }

  /** Thresholding an image that is already binary, at any cut-off from 0 to 254, leaves it unchanged. */
  lemma {:induction false} BinarizedIdempotent(b: Image, limiar: int)
    requires b.IsBinary() && 0 <= limiar < 255
    ensures Binarized(b, limiar) == b
  {
    var r := Binarized(b, limiar);
    forall y, x | 0 <= y < b.rows && 0 <= x < b.cols
      ensures r.data[y][x] == b.data[y][x]
    {
      assert b.data[y][x] == [At(b, y, x)];
    }
    SameImage(r, b);
  }
}
