/**
 * The older all-in-one class `Operation`: static methods that repeat most
 * of the toolkit's operators with their own loops.  Where a method computes
 * what another module computes, its loop is proved equal to that module's
 * specification; where it differs (the clamps of the scalar operations, the
 * copy made by `isolateChannel` on a single-channel image, `std::round` in
 * the equalisation table) it has its own specification and lemmas relate
 * the two.
 */
module Operation {
  import opened Raster
  import ConversorTonsCinza
  import ProcessadorImagens
  import OperacoesAritmeticas
  import ProcessadorHistogramas

  // ---- grey scale ----

  /** `toGrayscaleAverage`: the truncated channel mean written to the three channels of a colour image. */
  method ToGrayscaleAverage(input: Image) returns (output: Image)
    requires input.Valid()
    ensures output == ConversorTonsCinza.AverageGray(input)
  {
    var data := input.data;
    var y := 0;
    while y < input.rows
      invariant 0 <= y <= input.rows && |data| == input.rows
      invariant forall i | 0 <= i < y :: data[i] == ConversorTonsCinza.AverageGray(input).data[i]
      invariant forall i | y <= i < input.rows :: data[i] == input.data[i]
    {
      var row := data[y];
      var x := 0;
      while x < input.cols
        invariant 0 <= x <= input.cols && |row| == input.cols
        invariant forall j | 0 <= j < x :: row[j] == ConversorTonsCinza.AverageGray(input).data[y][j]
        invariant forall j | x <= j < input.cols :: row[j] == input.data[y][j]
      {
        if input.channels == 3 {
          var pixel := input.data[y][x];
          var media := (pixel[0] + pixel[1] + pixel[2]) / 3;
          row := row[x := [media, media, media]];
        }
        x := x + 1;
      }
      data := data[y := row];
      y := y + 1;
    }
    output := input.(data := data);
  }

  /** `toGrayscaleWeighted`: the weighted luma written to the three channels of a colour image. */
  method ToGrayscaleWeighted(input: Image) returns (output: Image)
    requires input.Valid()
    ensures output == ConversorTonsCinza.WeightedGray(input)
  {
    var data := input.data;
    var y := 0;
    while y < input.rows
      invariant 0 <= y <= input.rows && |data| == input.rows
      invariant forall i | 0 <= i < y :: data[i] == ConversorTonsCinza.WeightedGray(input).data[i]
      invariant forall i | y <= i < input.rows :: data[i] == input.data[i]
    {
      var row := data[y];
      var x := 0;
      while x < input.cols
        invariant 0 <= x <= input.cols && |row| == input.cols
        invariant forall j | 0 <= j < x :: row[j] == ConversorTonsCinza.WeightedGray(input).data[y][j]
        invariant forall j | x <= j < input.cols :: row[j] == input.data[y][j]
      {
        if input.channels == 3 {
          var weighted := Luma(input.data[y][x]);
          row := row[x := [weighted, weighted, weighted]];
        }
        x := x + 1;
      }
      data := data[y := row];
      y := y + 1;
    }
    output := input.(data := data);
  }

  // ---- two images ----

  /**
   * One channel of `addImages`, `subtractImages`, `multiplyImages` or
   * `divideImages`, with the one-sided `std::min`/`std::max` the source
   * writes: on bytes it is the fully saturated channel of OperacoesAritmeticas.
   */
  function PairChannel(op: OperacoesAritmeticas.ImageOp, a: int, b: int): (r: int)
    requires IsByte(a) && IsByte(b)
    ensures r == OperacoesAritmeticas.ImageChannel(op, a, b)
  {
    match op
    case AddImages => Min(a + b, 255)
    case SubtractImages => Max(a - b, 0)
    case MultiplyImages =>
      NonNegativeQuotient(a, b, 255);
      Min(a * b / 255, 255)
    case DivideImages =>
      if b == 0 then 255
      else
        NonNegativeQuotient(a, 255, b);
        Min(a * 255 / b, 255)
  }

  /** The quotient of a byte times a non-negative m by a positive d is not negative. */
  lemma NonNegativeQuotient(a: int, m: int, d: int)
    requires IsByte(a) && m >= 0 && d > 0
    ensures a * m / d >= 0
  {
    OperacoesAritmeticas.ProductBound(a, m);
  }

  /** The loop shared by the four inter-image methods, over the overlap of the two images. */
  method CombineImages(img1: Image, img2: Image, op: OperacoesAritmeticas.ImageOp) returns (result: Image)
    requires img1.Valid() && img2.Valid() && img1.channels == 3 && img2.channels == 3
    ensures result == OperacoesAritmeticas.CombinedImage(img1, img2, op)
  {
    var rows := Min(img1.rows, img2.rows);
    var cols := Min(img1.cols, img2.cols);
    var data := Zeros(rows, cols, 3).data;
    var y := 0;
    while y < rows
      invariant 0 <= y <= rows && |data| == rows
      invariant forall i | 0 <= i < y :: data[i] == OperacoesAritmeticas.CombinedImage(img1, img2, op).data[i]
    {
      assert ValidRow(img1.data[y], img1.cols, 3) && ValidRow(img2.data[y], img2.cols, 3);
      var row := seq(cols, x => [0, 0, 0]);
      var x := 0;
      while x < cols
        invariant 0 <= x <= cols && |row| == cols
        invariant forall j | 0 <= j < x :: row[j] == OperacoesAritmeticas.CombinedImage(img1, img2, op).data[y][j]
      {
        var pixel := [0, 0, 0];
        var c := 0;
        while c < 3
          invariant 0 <= c <= 3 && |pixel| == 3
          invariant forall k | 0 <= k < c ::
            pixel[k] == OperacoesAritmeticas.ImageChannel(op, img1.data[y][x][k], img2.data[y][x][k])
        {
          pixel := pixel[c := PairChannel(op, img1.data[y][x][c], img2.data[y][x][c])];
          c := c + 1;
        }
        row := row[x := pixel];
        x := x + 1;
      }
      data := data[y := row];
      y := y + 1;
    }
    result := Image(rows, cols, 3, data);
  }

  method AddImages(img1: Image, img2: Image) returns (result: Image)
    requires img1.Valid() && img2.Valid() && img1.channels == 3 && img2.channels == 3
    ensures result == OperacoesAritmeticas.CombinedImage(img1, img2, OperacoesAritmeticas.AddImages)
  {
    result := CombineImages(img1, img2, OperacoesAritmeticas.AddImages);
  }

  method SubtractImages(img1: Image, img2: Image) returns (result: Image)
    requires img1.Valid() && img2.Valid() && img1.channels == 3 && img2.channels == 3
    ensures result == OperacoesAritmeticas.CombinedImage(img1, img2, OperacoesAritmeticas.SubtractImages)
  {
    result := CombineImages(img1, img2, OperacoesAritmeticas.SubtractImages);
  }

  method MultiplyImages(img1: Image, img2: Image) returns (result: Image)
    requires img1.Valid() && img2.Valid() && img1.channels == 3 && img2.channels == 3
    ensures result == OperacoesAritmeticas.CombinedImage(img1, img2, OperacoesAritmeticas.MultiplyImages)
  {
    result := CombineImages(img1, img2, OperacoesAritmeticas.MultiplyImages);
  }

  method DivideImages(img1: Image, img2: Image) returns (result: Image)
    requires img1.Valid() && img2.Valid() && img1.channels == 3 && img2.channels == 3
    ensures result == OperacoesAritmeticas.CombinedImage(img1, img2, OperacoesAritmeticas.DivideImages)
  {
    result := CombineImages(img1, img2, OperacoesAritmeticas.DivideImages);
  }

  // ---- image and scalar ----

  /**
   * One channel of `addScalar`, `subtractScalar`, `multiplyScalar` or
   * `divideScalar`: the channel and the double are combined in real
   * arithmetic, truncated into an `int`, clamped on one side only (above for
   * the sum, product and quotient, below for the difference), and stored
   * into a `uchar`, which keeps the value modulo 256.  A zero divisor gives
   * 255.
   */
  function StoredScalar(op: OperacoesAritmeticas.ScalarOp, p: int, scalar: real): (r: int)
    requires IsByte(p)
    ensures IsByte(r)
  {
    match op
    case Add => Uchar(Min(Trunc(p as real + scalar), 255))
    case Subtract => Uchar(Max(Trunc(p as real - scalar), 0))
    case Multiply => Uchar(Min(Trunc(p as real * scalar), 255))
    case Divide => Uchar(Min(if scalar == 0.0 then 255 else Trunc(p as real / scalar), 255))
  }

  /** The image every scalar method returns: a clone whose channels are rewritten when it has 1 or 3 of them. */
  function ScalarResult(img: Image, op: OperacoesAritmeticas.ScalarOp, scalar: real): (r: Image)
    requires img.Valid()
    ensures r.Valid() && r.SameTypeAs(img)
    ensures img.channels != 1 && img.channels != 3 ==> r == img
  {
    if img.channels != 1 && img.channels != 3 then img
    else img.(data :=
      seq(img.rows, y requires 0 <= y < img.rows =>
        seq(img.cols, x requires 0 <= x < img.cols =>
          seq(img.channels, c requires 0 <= c < img.channels => StoredScalar(op, img.data[y][x][c], scalar)))))
  }

  /** The loop shared by the four scalar methods. */
  method ScalarLoop(input: Image, op: OperacoesAritmeticas.ScalarOp, scalar: real) returns (result: Image)
    requires input.Valid()
    ensures result == ScalarResult(input, op, scalar)
  {
    var data := input.data;
    var y := 0;
    while y < input.rows
      invariant 0 <= y <= input.rows && |data| == input.rows
      invariant forall i | 0 <= i < y :: data[i] == ScalarResult(input, op, scalar).data[i]
      invariant forall i | y <= i < input.rows :: data[i] == input.data[i]
    {
      assert ValidRow(input.data[y], input.cols, input.channels);
      var row := data[y];
      var x := 0;
      while x < input.cols
        invariant 0 <= x <= input.cols && |row| == input.cols
        invariant forall j | 0 <= j < x :: row[j] == ScalarResult(input, op, scalar).data[y][j]
        invariant forall j | x <= j < input.cols :: row[j] == input.data[y][j]
      {
        if input.channels == 1 {
          row := row[x := [StoredScalar(op, input.data[y][x][0], scalar)]];
        } else if input.channels == 3 {
          var pixel := input.data[y][x];
          var c := 0;
          while c < 3
            invariant 0 <= c <= 3 && |pixel| == 3
            invariant forall k | 0 <= k < c :: pixel[k] == StoredScalar(op, input.data[y][x][k], scalar)
            invariant forall k | c <= k < 3 :: pixel[k] == input.data[y][x][k]
          {
            pixel := pixel[c := StoredScalar(op, input.data[y][x][c], scalar)];
            c := c + 1;
          }
          row := row[x := pixel];
        }
        x := x + 1;
      }
      data := data[y := row];
      y := y + 1;
    }
    result := input.(data := data);
  }

  method AddScalar(input: Image, scalar: real) returns (result: Image)
    requires input.Valid()
    ensures result == ScalarResult(input, OperacoesAritmeticas.Add, scalar)
  {
    result := ScalarLoop(input, OperacoesAritmeticas.Add, scalar);
  }

  method SubtractScalar(input: Image, scalar: real) returns (result: Image)
    requires input.Valid()
    ensures result == ScalarResult(input, OperacoesAritmeticas.Subtract, scalar)
  {
    result := ScalarLoop(input, OperacoesAritmeticas.Subtract, scalar);
  }

  method MultiplyScalar(input: Image, scalar: real) returns (result: Image)
    requires input.Valid()
    ensures result == ScalarResult(input, OperacoesAritmeticas.Multiply, scalar)
  {
    result := ScalarLoop(input, OperacoesAritmeticas.Multiply, scalar);
  }

  method DivideScalar(input: Image, scalar: real) returns (result: Image)
    requires input.Valid()
    ensures result == ScalarResult(input, OperacoesAritmeticas.Divide, scalar)
  {
    result := ScalarLoop(input, OperacoesAritmeticas.Divide, scalar);
  }

  /**
   * With a non-negative scalar nothing wraps and the one-sided clamps give
   * what the saturating operations of OperacoesAritmeticas give.  The sum,
   * product and quotient agree for every such scalar (a non-zero one for the
   * quotient); the difference agrees for whole scalars, because
   * OperacoesAritmeticas truncates the scalar before subtracting.
   */
  lemma {:induction false} ScalarAgreesWithSaturating(op: OperacoesAritmeticas.ScalarOp, p: int, scalar: real)
    requires IsByte(p) && scalar >= 0.0
    requires op == OperacoesAritmeticas.Divide ==> scalar != 0.0
    requires op == OperacoesAritmeticas.Subtract ==> scalar == scalar.Floor as real
    ensures StoredScalar(op, p, scalar) == OperacoesAritmeticas.ScalarChannel(op, p, scalar)
  {
    match op
    case Add =>
      TruncShift(p, scalar);
    case Subtract =>
      assert p as real - scalar == (p - scalar.Floor) as real;
    case Multiply =>
      RealScaleMonotone(0.0, p as real, scalar);
    case Divide =>
      QuotientNonNegative(p as real, scalar);
  }

  /** Truncating a byte plus a non-negative real adds the byte to the real's floor. */
  lemma TruncShift(p: int, s: real)
    requires IsByte(p) && s >= 0.0
    ensures Trunc(p as real + s) == p + Trunc(s)
  {
    var f := s.Floor;
    assert f as real <= s < f as real + 1.0;
    assert (p + f) as real <= p as real + s < (p + f) as real + 1.0;
  }

  lemma QuotientNonNegative(a: real, d: real)
    requires a >= 0.0 && d > 0.0
    ensures a / d >= 0.0
  {
    assert (a / d) * d == a;
  }

  /**
   * The one-sided clamps let a negative scalar wrap on the `uchar` store: a
   * sum or product that falls to -k (1 <= k <= 256) is stored as 256 - k,
   * and a difference that rises to 255 + k is stored as k - 1.  Adding -1 to
   * a black pixel gives white, where OperacoesAritmeticas gives black.
   */
  lemma {:induction false} ScalarWraps(p: int, scalar: real)
    requires IsByte(p)
    ensures -256 <= Trunc(p as real + scalar) < 0 ==>
      StoredScalar(OperacoesAritmeticas.Add, p, scalar) == Trunc(p as real + scalar) + 256
    ensures -256 <= Trunc(p as real * scalar) < 0 ==>
      StoredScalar(OperacoesAritmeticas.Multiply, p, scalar) == Trunc(p as real * scalar) + 256
    ensures 255 < Trunc(p as real - scalar) < 512 ==>
      StoredScalar(OperacoesAritmeticas.Subtract, p, scalar) == Trunc(p as real - scalar) - 256
    ensures StoredScalar(OperacoesAritmeticas.Add, 0, -1.0) == 255 &&
      OperacoesAritmeticas.ScalarChannel(OperacoesAritmeticas.Add, 0, -1.0) == 0
  {
    var sum, product, difference := Trunc(p as real + scalar), Trunc(p as real * scalar), Trunc(p as real - scalar);
    if -256 <= sum < 0 {
      StoredBelowZero(sum);
    }
    if -256 <= product < 0 {
      StoredBelowZero(product);
    }
    if 255 < difference < 512 {
      StoredAboveByte(difference);
    }
    assert Trunc(-1.0) == -1;
  }

  lemma StoredBelowZero(v: int)
    requires -256 <= v < 0
    ensures Uchar(Min(v, 255)) == v + 256
  {
  }

  lemma StoredAboveByte(v: int)
    requires 255 < v < 512
    ensures Uchar(Max(v, 0)) == v - 256
  {
  }

  /**
   * `divideScalar` by 0 turns every channel of a 1- or 3-channel image
   * white, where `dividirEscalar` of OperacoesAritmeticas returns the input
   * unchanged.
   */
  lemma {:induction false} DivideByZeroWhite(img: Image, y: nat, x: nat, c: nat)
    requires img.Valid() && (img.channels == 1 || img.channels == 3)
    requires y < img.rows && x < img.cols && c < img.channels
    ensures ScalarResult(img, OperacoesAritmeticas.Divide, 0.0).data[y][x][c] == 255
    ensures OperacoesAritmeticas.ScalarImage(img, OperacoesAritmeticas.Divide, 0.0) == img
  {
    assert ValidRow(img.data[y], img.cols, img.channels);
  }

  // ---- point operations ----

  /**
   * `threshold`: a single-channel pixel, or the luma of a colour pixel
   * written to its three channels, becomes `maxval` when greater than
   * `thresh` and 0 otherwise; the same result as `aplicarLimiarizacao`.
   */
  method Threshold(input: Image, thresh: real, maxval: real) returns (result: Image)
    requires input.Valid() && 0.0 <= maxval < 256.0
    ensures result == ProcessadorImagens.Thresholded(input, thresh, maxval)
  {
    var data := input.data;
    if input.channels == 1 {
      var y := 0;
      while y < input.rows
        invariant 0 <= y <= input.rows && |data| == input.rows
        invariant forall i | 0 <= i < y :: data[i] == ProcessadorImagens.Thresholded(input, thresh, maxval).data[i]
        invariant forall i | y <= i < input.rows :: data[i] == input.data[i]
      {
        assert ValidRow(input.data[y], input.cols, input.channels);
        var row := data[y];
        var x := 0;
        while x < input.cols
          invariant 0 <= x <= input.cols && |row| == input.cols
          invariant forall j | 0 <= j < x :: row[j] == ProcessadorImagens.Thresholded(input, thresh, maxval).data[y][j]
        {
          var pixel := input.data[y][x][0];
          row := row[x := [if pixel as real > thresh then maxval.Floor else 0]];
          x := x + 1;
        }
        data := data[y := row];
        y := y + 1;
      }
    } else if input.channels == 3 {
      var y := 0;
      while y < input.rows
        invariant 0 <= y <= input.rows && |data| == input.rows
        invariant forall i | 0 <= i < y :: data[i] == ProcessadorImagens.Thresholded(input, thresh, maxval).data[i]
        invariant forall i | y <= i < input.rows :: data[i] == input.data[i]
      {
        assert ValidRow(input.data[y], input.cols, input.channels);
        var row := data[y];
        var x := 0;
        while x < input.cols
          invariant 0 <= x <= input.cols && |row| == input.cols
          invariant forall j | 0 <= j < x :: row[j] == ProcessadorImagens.Thresholded(input, thresh, maxval).data[y][j]
        {
          var gray := Luma(input.data[y][x]);
          var value := if gray as real > thresh then maxval.Floor else 0;
          row := row[x := [value, value, value]];
          x := x + 1;
        }
        data := data[y := row];
        y := y + 1;
      }
    }
    result := input.(data := data);
  }

  /**
   * `isolateChannel`: on a colour image with an index 0..2, the channel
   * kept and the others zero, as `isolarCanal` does; on a single-channel
   * image with index 0, a copy of the input, where `isolarCanal` gives
   * zeros; any other input gives a zero image of the input's type.
   */
  method IsolateChannel(input: Image, channel: int) returns (result: Image)
    requires input.Valid()
    ensures input.channels == 3 && 0 <= channel <= 2 ==> result == ProcessadorImagens.Isolated(input, channel)
    ensures input.channels == 1 && channel == 0 ==> result == input
    ensures !(input.channels == 3 && 0 <= channel <= 2) && !(input.channels == 1 && channel == 0) ==>
      result == Zeros(input.rows, input.cols, input.channels)
  {
    result := Zeros(input.rows, input.cols, input.channels);
    if input.channels == 3 && 0 <= channel <= 2 {
      var data := result.data;
      var y := 0;
      while y < input.rows
        invariant 0 <= y <= input.rows && |data| == input.rows
        invariant forall i | 0 <= i < y :: data[i] == ProcessadorImagens.Isolated(input, channel).data[i]
        invariant forall i | y <= i < input.rows :: data[i] == ZeroRow(input.cols, 3)
      {
        var row := data[y];
        var x := 0;
        while x < input.cols
          invariant 0 <= x <= input.cols && |row| == input.cols
          invariant forall j | 0 <= j < x :: row[j] == ProcessadorImagens.Isolated(input, channel).data[y][j]
        {
          var pixel := input.data[y][x];
          var newPixel := [0, 0, 0];
          newPixel := newPixel[channel := pixel[channel]];
          row := row[x := newPixel];
          x := x + 1;
        }
        data := data[y := row];
        y := y + 1;
      }
      result := result.(data := data);
    } else if input.channels == 1 && channel == 0 {
      var data := result.data;
      var y := 0;
      while y < input.rows
        invariant 0 <= y <= input.rows && |data| == input.rows
        invariant forall i | 0 <= i < y :: data[i] == input.data[i]
        invariant forall i | y <= i < input.rows :: data[i] == ZeroRow(input.cols, 1)
      {
        assert ValidRow(input.data[y], input.cols, 1);
        var row := data[y];
        var x := 0;
        while x < input.cols
          invariant 0 <= x <= input.cols && |row| == input.cols
          invariant forall j | 0 <= j < x :: row[j] == input.data[y][j]
        {
          row := row[x := input.data[y][x]];
          x := x + 1;
        }
        assert row == input.data[y];
        data := data[y := row];
        y := y + 1;
      }
      result := result.(data := data);
    }
  }

  /** `invert`: every channel of a 1- or 3-channel image becomes 255 minus itself. */
  method Invert(input: Image) returns (result: Image)
    requires input.Valid()
    ensures result == ProcessadorImagens.Inverted(input)
  {
    var data := input.data;
    if input.channels == 1 {
      var y := 0;
      while y < input.rows
        invariant 0 <= y <= input.rows && |data| == input.rows
        invariant forall i | 0 <= i < y :: data[i] == ProcessadorImagens.Inverted(input).data[i]
        invariant forall i | y <= i < input.rows :: data[i] == input.data[i]
      {
        assert ValidRow(input.data[y], input.cols, input.channels);
        var row := data[y];
        var x := 0;
        while x < input.cols
          invariant 0 <= x <= input.cols && |row| == input.cols
          invariant forall j | 0 <= j < x :: row[j] == ProcessadorImagens.Inverted(input).data[y][j]
        {
          row := row[x := [255 - input.data[y][x][0]]];
          x := x + 1;
        }
        data := data[y := row];
        y := y + 1;
      }
    } else if input.channels == 3 {
      var y := 0;
      while y < input.rows
        invariant 0 <= y <= input.rows && |data| == input.rows
        invariant forall i | 0 <= i < y :: data[i] == ProcessadorImagens.Inverted(input).data[i]
        invariant forall i | y <= i < input.rows :: data[i] == input.data[i]
      {
        assert ValidRow(input.data[y], input.cols, input.channels);
        var row := data[y];
        var x := 0;
        while x < input.cols
          invariant 0 <= x <= input.cols && |row| == input.cols
          invariant forall j | 0 <= j < x :: row[j] == ProcessadorImagens.Inverted(input).data[y][j]
        {
          var pixel := input.data[y][x];
          row := row[x := [255 - pixel[0], 255 - pixel[1], 255 - pixel[2]]];
          x := x + 1;
        }
        data := data[y := row];
        y := y + 1;
      }
    }
    result := input.(data := data);
  }

  // ---- histograms ----

  /**
   * `computeHistogram`: one 256-bin histogram per channel of a 1- or
   * 3-channel image, none otherwise; each channel is counted by the same
   * loop as in `calcularHistograma`.
   */
  method ComputeHistogram(input: Image) returns (histograms: seq<seq<int>>)
    requires input.Valid()
    ensures histograms == ProcessadorHistogramas.Histograms(input)
  {
    histograms := [];
    if input.channels == 1 {
      var hist := ProcessadorHistogramas.ContarCanal(input, 0);
      histograms := histograms + [hist];
    } else if input.channels == 3 {
      var c := 0;
      while c < 3
        invariant 0 <= c <= 3 && |histograms| == c
        invariant forall k | 0 <= k < c :: histograms[k] == ProcessadorHistogramas.Histogram(input, k)
      {
        var hist := ProcessadorHistogramas.ContarCanal(input, c);
        histograms := histograms + [hist];
        c := c + 1;
      }
    }
  }

  // ---- equalisation ----

  /** `std::round`: the nearest integer, halves rounded away from zero. */
  function StdRound(v: real): (r: int)
    ensures r as real - 0.5 <= v <= r as real + 0.5
    ensures v >= 0.0 ==> r == ProcessadorHistogramas.RoundToInt(v)
    ensures v < 0.0 ==> r == -ProcessadorHistogramas.RoundToInt(-v)
  {
    if v >= 0.0 then (v + 0.5).Floor else -((-v + 0.5).Floor)
  }

  /**
   * The table of `equalizeHistogram`: the share of pixels above the darkest
   * intensity, scaled to 255, rounded by `std::round` and stored as `uchar`.
   * A negative share (an intensity below the darkest one present, which no
   * pixel has) has no defined `uchar`; the model gives it an arbitrary byte,
   * its rounding reduced modulo 256, and no property depends on that entry.
   */
  function RoundedLut(cdf: seq<int>, cdfMin: int, total: int): (lut: seq<int>)
    requires |cdf| == 256 && total > cdfMin
    ensures |lut| == 256 && forall i | 0 <= i < 256 :: IsByte(lut[i])
  {
    seq(256, i requires 0 <= i < 256 =>
      Uchar(StdRound((cdf[i] - cdfMin) as real * 255.0 / (total - cdfMin) as real)))
  }

  /**
   * Where the cumulative count lies between `cdfMin` and the total (every
   * intensity that occurs in the image), the table built with `std::round`
   * has the entry of the one built with `roundToInt`.
   */
  lemma {:induction false} RoundedLutAgrees(cdf: seq<int>, cdfMin: int, total: int, i: nat)
    requires |cdf| == 256 && total > cdfMin && i < 256 && cdfMin <= cdf[i] <= total
    ensures RoundedLut(cdf, cdfMin, total)[i] == ProcessadorHistogramas.Lut(cdf, cdfMin, total)[i]
  {
    ProcessadorHistogramas.LutEntryInRange(cdf, cdfMin, total, i);
  }

  /** The rounded table channel `c` is equalised with. */
  function ChannelRoundedLut(img: Image, c: nat): (lut: seq<int>)
    requires img.Valid() && ProcessadorHistogramas.Equalizable(img, c)
    ensures |lut| == 256 && forall i | 0 <= i < 256 :: IsByte(lut[i])
  {
    var cdf := ProcessadorHistogramas.Cdf(ProcessadorHistogramas.Histogram(img, c));
    RoundedLut(cdf, ProcessadorHistogramas.CdfMin(cdf), img.rows * img.cols)
  }

  /** The input with channels below `k` passed through their rounded tables. */
  function RoundEqualizedUpTo(img: Image, k: nat): (r: Image)
    requires img.Valid() && k <= img.channels
    requires forall c | 0 <= c < k :: ProcessadorHistogramas.Equalizable(img, c)
    ensures r.Valid() && r.SameTypeAs(img)
  {
    img.(data :=
      seq(img.rows, y requires 0 <= y < img.rows =>
        seq(img.cols, x requires 0 <= x < img.cols =>
          seq(img.channels, c requires 0 <= c < img.channels =>
            if c < k then ChannelRoundedLut(img, c)[img.data[y][x][c]] else img.data[y][x][c]))))
  }

  /** The result of `equalizeHistogram`. */
  function RoundEqualized(img: Image): (r: Image)
    requires img.Valid() && ProcessadorHistogramas.EqualizationDefined(img)
    ensures r.Valid() && r.SameTypeAs(img)
    ensures img.channels != 1 && img.channels != 3 ==> r == img
  {
    if img.channels == 1 || img.channels == 3 then RoundEqualizedUpTo(img, img.channels) else img
  }

  /** At an intensity that occurs in channel `c`, both tables have the same entry. */
  lemma {:induction false} PresentEntryAgrees(img: Image, c: nat, y: nat, x: nat)
    requires img.Valid() && ProcessadorHistogramas.Equalizable(img, c)
    requires y < img.rows && x < img.cols
    ensures ChannelRoundedLut(img, c)[img.data[y][x][c]] == ProcessadorHistogramas.ChannelLut(img, c)[img.data[y][x][c]]
  {
    var h := ProcessadorHistogramas.Histogram(img, c);
    var cdf := ProcessadorHistogramas.Cdf(h);
    var v := img.data[y][x][c];
    assert ValidRow(img.data[y], img.cols, img.channels);
    PositiveArea(img.rows, img.cols);
    ProcessadorHistogramas.PixelInScan(img, c, img.rows, y, x);
    ProcessadorHistogramas.HistogramTotal(img, c);
    ProcessadorHistogramas.CdfMinCountsDarkest(img, c);
    ProcessadorHistogramas.CdfMinIsFirstBin(h);
    ProcessadorHistogramas.CdfLaws(h);
    var m := ProcessadorHistogramas.FirstNonZero(h, 0);
    assert m <= v;
    assert ProcessadorHistogramas.CdfMin(cdf) == cdf[m] <= cdf[v] <= cdf[255];
    RoundedLutAgrees(cdf, ProcessadorHistogramas.CdfMin(cdf), img.rows * img.cols, v);
  }

  lemma PositiveArea(rows: nat, cols: nat)
    requires rows > 0 && cols > 0
    ensures rows * cols > 0
  {
  }

  /**
   * `equalizeHistogram` and `equalizarHistograma` give the same image: the
   * two tables differ only at intensities below the darkest one present,
   * which no pixel looks up.
   */
  lemma {:induction false} EqualizationsAgree(img: Image)
    requires img.Valid() && ProcessadorHistogramas.EqualizationDefined(img)
    ensures RoundEqualized(img) == ProcessadorHistogramas.Equalized(img)
  {
    if img.channels == 1 || img.channels == 3 {
      var r, e := RoundEqualized(img), ProcessadorHistogramas.Equalized(img);
      forall y, x | 0 <= y < img.rows && 0 <= x < img.cols
        ensures r.data[y][x] == e.data[y][x]
      {
        forall c | 0 <= c < img.channels
          ensures r.data[y][x][c] == e.data[y][x][c]
        {
          assert ProcessadorHistogramas.Equalizable(img, c);
          PresentEntryAgrees(img, c, y, x);
        }
      }
      SameImage(r, e);
    }
  }

  /** The table loop of `equalizeHistogram`. */
  method RoundedLutTable(cdf: seq<int>, cdfMin: int, total: int) returns (lut: seq<int>)
    requires |cdf| == 256 && total > cdfMin
    ensures lut == RoundedLut(cdf, cdfMin, total)
  {
    var a := new int[256];
    var i := 0;
    while i < 256
      invariant 0 <= i <= 256
      invariant forall k | 0 <= k < i :: a[k] == RoundedLut(cdf, cdfMin, total)[k]
    {
      a[i] := Uchar(StdRound((cdf[i] - cdfMin) as real * 255.0 / (total - cdfMin) as real));
      i := i + 1;
    }
    lut := a[..];
  }

  /** Rewrites channel `c` of every pixel of `current` through `lut`, reading the input's value. */
  method ApplyRoundedLut(input: Image, current: Image, c: nat, lut: seq<int>) returns (result: Image)
    requires input.Valid() && c < input.channels
    requires forall k | 0 <= k <= c :: ProcessadorHistogramas.Equalizable(input, k)
    requires current == RoundEqualizedUpTo(input, c) && lut == ChannelRoundedLut(input, c)
    ensures result == RoundEqualizedUpTo(input, c + 1)
  {
    var data := current.data;
    var y := 0;
    while y < input.rows
      invariant 0 <= y <= input.rows && |data| == input.rows
      invariant forall i | 0 <= i < y :: data[i] == RoundEqualizedUpTo(input, c + 1).data[i]
      invariant forall i | y <= i < input.rows :: data[i] == current.data[i]
    {
      assert ValidRow(input.data[y], input.cols, input.channels);
      var row := data[y];
      var x := 0;
      while x < input.cols
        invariant 0 <= x <= input.cols && |row| == input.cols
        invariant forall j | 0 <= j < x :: row[j] == RoundEqualizedUpTo(input, c + 1).data[y][j]
        invariant forall j | x <= j < input.cols :: row[j] == current.data[y][j]
      {
        var pixel := row[x];
        pixel := pixel[c := lut[input.data[y][x][c]]];
        assert pixel == RoundEqualizedUpTo(input, c + 1).data[y][x];
        row := row[x := pixel];
        x := x + 1;
      }
      data := data[y := row];
      y := y + 1;
    }
    result := current.(data := data);
  }

  /** With no channel equalised yet, the image is the input. */
  lemma {:induction false} RoundEqualizedUpToZero(img: Image)
    requires img.Valid()
    ensures RoundEqualizedUpTo(img, 0) == img
  {
    var e := RoundEqualizedUpTo(img, 0);
    forall y, x | 0 <= y < img.rows && 0 <= x < img.cols
      ensures e.data[y][x] == img.data[y][x]
    {
      assert ValidRow(img.data[y], img.cols, img.channels);
    }
    SameImage(e, img);
  }

  /**
   * One channel of `equalizeHistogram`: the counting, cumulative and
   * first-non-zero loops are those of ProcessadorHistogramas; the table
   * rounds with `std::round`.
   */
  method EqualizeChannel(input: Image, current: Image, c: nat) returns (result: Image)
    requires input.Valid() && c < input.channels
    requires forall k | 0 <= k <= c :: ProcessadorHistogramas.Equalizable(input, k)
    requires current == RoundEqualizedUpTo(input, c)
    ensures result == RoundEqualizedUpTo(input, c + 1)
  {
    assert ProcessadorHistogramas.Equalizable(input, c);
    var hist := ProcessadorHistogramas.ContarCanal(input, c);
    var cdf := ProcessadorHistogramas.AcumularCdf(hist);
    var cdfMin := ProcessadorHistogramas.PrimeiroNaoNulo(cdf);
    var total := input.rows * input.cols;
    var lut := RoundedLutTable(cdf, cdfMin, total);
    result := ApplyRoundedLut(input, current, c, lut);
  }

  method EqualizeHistogram(input: Image) returns (result: Image)
    requires input.Valid() && ProcessadorHistogramas.EqualizationDefined(input)
    ensures result == RoundEqualized(input)
  {
    result := input;
    if input.channels == 1 || input.channels == 3 {
      assert forall k | 0 <= k < input.channels :: ProcessadorHistogramas.Equalizable(input, k);
      RoundEqualizedUpToZero(input);
      var c := 0;
      while c < input.channels
        invariant 0 <= c <= input.channels
        invariant result == RoundEqualizedUpTo(input, c)
      {
        result := EqualizeChannel(input, result, c);
        c := c + 1;
      }
    }
  }
}
