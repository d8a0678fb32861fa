/**
 * Histograms of ProcessadorHistogramas: per-channel 256-bin counts, the
 * cumulative distribution, its first non-zero entry, the equalisation
 * look-up table built from them and its application to every channel, and
 * the normaliser used to scale histogram plots.
 */
module ProcessadorHistogramas {
  import opened Raster

  /** The values of channel `c` along one row, left to right. */
  function RowValues(row: seq<Pixel>, c: nat): (vs: seq<int>)
    requires forall x | 0 <= x < |row| :: c < |row[x]|
    ensures |vs| == |row|
  {
    seq(|row|, x requires 0 <= x < |row| => row[x][c])
  }

  /** Channel `c` of the first `n` rows, in scan order. */
  function ScanValues(img: Image, c: nat, n: nat): (vs: seq<int>)
    requires img.Valid() && c < img.channels && n <= img.rows
    ensures |vs| == n * img.cols
    ensures forall k | 0 <= k < |vs| :: IsByte(vs[k])
  {
    if n == 0 then []
    else
      assert ValidRow(img.data[n - 1], img.cols, img.channels);
      ScanValues(img, c, n - 1) + RowValues(img.data[n - 1], c)
  }

  /** Every value channel `c` takes, one entry per pixel. */
  function ChannelValues(img: Image, c: nat): (vs: seq<int>)
    requires img.Valid() && c < img.channels
    ensures |vs| == img.rows * img.cols
  {
    ScanValues(img, c, img.rows)
  }

  /** Every pixel is in the scan: channel `c` of pixel (y, x) is among the channel's values. */
  lemma {:induction false} PixelInScan(img: Image, c: nat, n: nat, y: nat, x: nat)
    requires img.Valid() && c < img.channels && n <= img.rows && y < n && x < img.cols
    ensures img.data[y][x][c] in ScanValues(img, c, n)
  {
    assert ValidRow(img.data[n - 1], img.cols, img.channels);
    if y == n - 1 {
      assert RowValues(img.data[y], c)[x] == img.data[y][x][c];
    } else {
      PixelInScan(img, c, n - 1, y, x);
    }
  }

  /** The 256 bins of a sequence of bytes: bin v is the number of occurrences of v. */
  function Bins(vs: seq<int>): (h: seq<int>)
    ensures |h| == 256 && forall v | 0 <= v < 256 :: h[v] >= 0
  {
    seq(256, v => multiset(vs)[v])
  }

  /** Bin v of channel `c`: how many pixels have value v in that channel. */
  function Histogram(img: Image, c: nat): (h: seq<int>)
    requires img.Valid() && c < img.channels
    ensures |h| == 256 && forall v | 0 <= v < 256 :: h[v] >= 0
  {
    Bins(ChannelValues(img, c))
  }

  /** What `calcularHistograma` returns: one histogram per channel of a 1- or 3-channel image, none otherwise. */
  function Histograms(img: Image): (hs: seq<seq<int>>)
    requires img.Valid()
    ensures |hs| == (if img.channels == 1 || img.channels == 3 then img.channels else 0)
    ensures forall c | 0 <= c < |hs| :: hs[c] == Histogram(img, c)
  {
    if img.channels == 1 then [Histogram(img, 0)]
    else if img.channels == 3 then [Histogram(img, 0), Histogram(img, 1), Histogram(img, 2)]
    else []
  }

  /** Counting one more byte raises its bin by one. */
  lemma BinsAppend(vs: seq<int>, e: int)
    requires IsByte(e)
    ensures Bins(vs + [e]) == Bins(vs)[e := Bins(vs)[e] + 1]
  {
    assert multiset(vs + [e]) == multiset(vs) + multiset{e};
  }

  /** The sum of the first `n` entries of `h`. */
  function SumTo(h: seq<int>, n: nat): int
    requires n <= |h|
  {
    if n == 0 then 0 else SumTo(h, n - 1) + h[n - 1]
  }

  lemma {:induction false} SumToBump(h: seq<int>, e: nat, n: nat)
    requires e < |h| && n <= |h|
    ensures SumTo(h[e := h[e] + 1], n) == SumTo(h, n) + (if e < n then 1 else 0)
  {
    if n > 0 {
      SumToBump(h, e, n - 1);
    }
  }

  /** The bins of a sequence of bytes add up to its length. */
  lemma {:induction false} BinsSum(vs: seq<int>)
    requires forall k | 0 <= k < |vs| :: IsByte(vs[k])
    ensures SumTo(Bins(vs), 256) == |vs|
  {
    if vs == [] {
      assert Bins(vs) == seq(256, v => 0);
      ZeroSum(Bins(vs), 256);
    } else {
      var init, e := vs[..|vs| - 1], vs[|vs| - 1];
      assert vs == init + [e];
      BinsSum(init);
      BinsAppend(init, e);
      SumToBump(Bins(init), e, 256);
    }
  }

  lemma {:induction false} ZeroSum(h: seq<int>, n: nat)
    requires n <= |h| && forall k | 0 <= k < n :: h[k] == 0
    ensures SumTo(h, n) == 0
  {
    if n > 0 {
      ZeroSum(h, n - 1);
    }
  }

  /** Every pixel is counted exactly once: the bins of a channel sum to rows * cols. */
  lemma HistogramTotal(img: Image, c: nat)
    requires img.Valid() && c < img.channels
    ensures SumTo(Histogram(img, c), 256) == img.rows * img.cols
  {
    BinsSum(ChannelValues(img, c));
  }

  /** A bin is non-zero exactly when its intensity occurs in the channel. */
  lemma HistogramPresence(img: Image, c: nat, v: int)
    requires img.Valid() && c < img.channels && IsByte(v)
    ensures Histogram(img, c)[v] > 0 <==> v in ChannelValues(img, c)
  {
  }

  /** The cumulative distribution: entry i is the number of pixels of value at most i. */
  function Cdf(h: seq<int>): (cdf: seq<int>)
    requires |h| == 256
    ensures |cdf| == 256
  {
    seq(256, i requires 0 <= i < 256 => SumTo(h, i + 1))
  }

  lemma {:induction false} SumToMonotone(h: seq<int>, i: nat, j: nat)
    requires i <= j <= |h| && forall k | 0 <= k < |h| :: h[k] >= 0
    ensures SumTo(h, i) <= SumTo(h, j)
  {
    if i < j {
      SumToMonotone(h, i, j - 1);
    }
  }

  /** The cumulative distribution of counts never decreases, its last entry is the total, and it is never negative. */
  lemma CdfLaws(h: seq<int>)
    requires |h| == 256 && forall k | 0 <= k < 256 :: h[k] >= 0
    ensures forall i, j | 0 <= i <= j < 256 :: 0 <= Cdf(h)[i] <= Cdf(h)[j]
    ensures Cdf(h)[255] == SumTo(h, 256)
  {
    forall i, j | 0 <= i <= j < 256
      ensures 0 <= Cdf(h)[i] <= Cdf(h)[j]
    {
      SumToMonotone(h, 0, i + 1);
      SumToMonotone(h, i + 1, j + 1);
    }
  }

  /** The first index at or after `i` where `s` is non-zero, or |s| when there is none. */
  function FirstNonZero(s: seq<int>, i: nat): (k: nat)
    requires i <= |s|
    ensures i <= k <= |s|
    ensures forall j | i <= j < k :: s[j] == 0
    ensures k < |s| ==> s[k] != 0
    decreases |s| - i
  {
    if i == |s| then i
    else if s[i] != 0 then i
    else FirstNonZero(s, i + 1)
  }

  /** `cdfMin`: the first non-zero entry of the cumulative distribution, 0 when it is all zero. */
  function CdfMin(cdf: seq<int>): int
  {
    var k := FirstNonZero(cdf, 0);
    if k < |cdf| then cdf[k] else 0
  }

  /**
   * The first non-zero entry of the cumulative distribution sits at the
   * smallest intensity whose bin is non-zero, and it equals that bin's count.
   */
  lemma {:induction false} CdfMinIsFirstBin(h: seq<int>)
    requires |h| == 256 && forall k | 0 <= k < 256 :: h[k] >= 0
    ensures var m := FirstNonZero(h, 0);
      FirstNonZero(Cdf(h), 0) == m && CdfMin(Cdf(h)) == (if m < 256 then h[m] else 0)
  {
    var m := FirstNonZero(h, 0);
    var cdf := Cdf(h);
    forall i | 0 <= i < m
      ensures cdf[i] == 0
    {
      ZeroSum(h, i + 1);
    }
    if m < 256 {
      ZeroSum(h, m);
      assert cdf[m] == h[m];
    }
  }

  /** For an image, `cdfMin` is the number of pixels that have the smallest intensity present in the channel. */
  lemma {:induction false} CdfMinCountsDarkest(img: Image, c: nat)
    requires img.Valid() && c < img.channels && img.rows * img.cols > 0
    ensures var h, m := Histogram(img, c), FirstNonZero(Histogram(img, c), 0);
      m < 256 && m in ChannelValues(img, c) &&
      (forall v | v in ChannelValues(img, c) :: m <= v) &&
      CdfMin(Cdf(h)) == h[m] == multiset(ChannelValues(img, c))[m]
  {
    var h, vs := Histogram(img, c), ChannelValues(img, c);
    var m := FirstNonZero(h, 0);
    HistogramTotal(img, c);
    if m == 256 {
      ZeroSum(h, 256);
      assert false;
    }
    forall v | v in vs
      ensures m <= v
    {
      var k :| 0 <= k < |vs| && vs[k] == v;
      assert IsByte(vs[k]);
      assert multiset(vs)[v] > 0;
      assert h[v] == multiset(vs)[v];
    }
    CdfMinIsFirstBin(h);
  }

  /** `roundToInt`: add one half and truncate toward zero. */
  function RoundToInt(x: real): (r: int)
    ensures x >= -0.5 ==> r as real - 0.5 <= x < r as real + 0.5
  {
    Trunc(x + 0.5)
  }

  /** Rounding never reorders two values it rounds half up. */
  lemma RoundMonotone(x: real, y: real)
    requires -0.5 <= x <= y
    ensures RoundToInt(x) <= RoundToInt(y)
  {
  }

  /**
   * The look-up table: entry i is the share of pixels above the darkest
   * intensity, scaled to 255, rounded and stored as `uchar`.  The double
   * arithmetic is carried out on exact rationals.
   */
  function Lut(cdf: seq<int>, cdfMin: int, total: int): (lut: seq<int>)
    requires |cdf| == 256 && total > cdfMin
    ensures |lut| == 256 && forall i | 0 <= i < 256 :: IsByte(lut[i])
  {
    seq(256, i requires 0 <= i < 256 =>
      Uchar(RoundToInt((cdf[i] - cdfMin) as real * 255.0 / (total - cdfMin) as real)))
  }

  /**
   * An entry whose cumulative count lies between `cdfMin` and the total is
   * the rounded share, a byte, so the `uchar` store does not wrap.
   */
  lemma {:induction false} LutEntryInRange(cdf: seq<int>, cdfMin: int, total: int, i: nat)
    requires |cdf| == 256 && total > cdfMin && i < 256 && cdfMin <= cdf[i] <= total
    ensures var share := (cdf[i] - cdfMin) as real * 255.0 / (total - cdfMin) as real;
      0.0 <= share <= 255.0 && Lut(cdf, cdfMin, total)[i] == RoundToInt(share)
  {
    var d := (total - cdfMin) as real;
    ScaledShare((cdf[i] - cdfMin) as real, d, 255.0);
  }

  /** Between `cdfMin` and the total, a larger cumulative count never gets a smaller entry. */
  lemma {:induction false} LutEntryMonotone(cdf: seq<int>, cdfMin: int, total: int, i: nat, j: nat)
    requires |cdf| == 256 && total > cdfMin && i < 256 && j < 256
    requires cdfMin <= cdf[i] <= cdf[j] <= total
    ensures Lut(cdf, cdfMin, total)[i] <= Lut(cdf, cdfMin, total)[j]
  {
    var d := (total - cdfMin) as real;
    LutEntryInRange(cdf, cdfMin, total, i);
    LutEntryInRange(cdf, cdfMin, total, j);
    RealScaleMonotone((cdf[i] - cdfMin) as real, (cdf[j] - cdfMin) as real, 255.0);
    DivMonotone((cdf[i] - cdfMin) as real * 255.0, (cdf[j] - cdfMin) as real * 255.0, d);
    RoundMonotone((cdf[i] - cdfMin) as real * 255.0 / d, (cdf[j] - cdfMin) as real * 255.0 / d);
  }

  /** An entry whose cumulative count is `cdfMin` is 0, one whose count is the total is 255. */
  lemma LutEnds(cdf: seq<int>, cdfMin: int, total: int, i: nat)
    requires |cdf| == 256 && total > cdfMin && i < 256
    ensures cdf[i] == cdfMin ==> Lut(cdf, cdfMin, total)[i] == 0
    ensures cdf[i] == total ==> Lut(cdf, cdfMin, total)[i] == 255
  {
    var d := (total - cdfMin) as real;
    assert 0.0 * 255.0 / d == 0.0;
    CancelScale(d, 255.0);
  }

  /**
   * From a histogram whose counts add up to `total`, with `total > cdfMin`:
   * over intensities from the darkest present one up, the table is
   * non-decreasing and free of wrap-around, maps the darkest present
   * intensity to 0 and 255 to 255.
   */
  lemma {:induction false} LutLaws(h: seq<int>, total: int)
    requires |h| == 256 && forall k | 0 <= k < 256 :: h[k] >= 0
    requires SumTo(h, 256) == total && total > CdfMin(Cdf(h))
    ensures var cdf := Cdf(h);
      var m, lut := FirstNonZero(h, 0), Lut(cdf, CdfMin(cdf), total);
      m < 256 && lut[m] == 0 && lut[255] == 255 &&
      (forall i | m <= i < 256 ::
        lut[i] == RoundToInt((cdf[i] - CdfMin(cdf)) as real * 255.0 / (total - CdfMin(cdf)) as real)) &&
      (forall i, j | m <= i <= j < 256 :: lut[i] <= lut[j])
  {
    var cdf := Cdf(h);
    var cm := CdfMin(cdf);
    var m := FirstNonZero(h, 0);
    CdfLaws(h);
    CdfMinIsFirstBin(h);
    assert cdf[m] == cm;
    forall i | m <= i < 256
      ensures Lut(cdf, cm, total)[i] ==
        RoundToInt((cdf[i] - cm) as real * 255.0 / (total - cm) as real)
    {
      LutEntryInRange(cdf, cm, total, i);
    }
    forall i, j | m <= i <= j < 256
      ensures Lut(cdf, cm, total)[i] <= Lut(cdf, cm, total)[j]
    {
      LutEntryMonotone(cdf, cm, total, i, j);
    }
    LutEnds(cdf, cm, total, m);
    LutEnds(cdf, cm, total, 255);
  }

  /** A channel can be equalised when more pixels exist than have its darkest intensity. */
  predicate Equalizable(img: Image, c: nat)
    requires img.Valid()
  {
    c < img.channels && img.rows * img.cols > CdfMin(Cdf(Histogram(img, c)))
  }

  /** The table channel `c` is equalised with. */
  function ChannelLut(img: Image, c: nat): (lut: seq<int>)
    requires img.Valid() && c < img.channels && Equalizable(img, c)
    ensures |lut| == 256 && forall i | 0 <= i < 256 :: IsByte(lut[i])
  {
    var cdf := Cdf(Histogram(img, c));
    Lut(cdf, CdfMin(cdf), img.rows * img.cols)
  }

  /** The input with channels below `k` passed through their own tables. */
  function EqualizedUpTo(img: Image, k: nat): (r: Image)
    requires img.Valid() && k <= img.channels && forall c | 0 <= c < k :: Equalizable(img, c)
    ensures r.Valid() && r.SameTypeAs(img)
  {
    img.(data :=
      seq(img.rows, y requires 0 <= y < img.rows =>
        seq(img.cols, x requires 0 <= x < img.cols =>
          seq(img.channels, c requires 0 <= c < img.channels =>
            if c < k then ChannelLut(img, c)[img.data[y][x][c]] else img.data[y][x][c]))))
  }

  /** What `equalizarHistograma` demands: every channel of a 1- or 3-channel image can be equalised. */
  predicate EqualizationDefined(img: Image)
    requires img.Valid()
  {
    (img.channels == 1 || img.channels == 3) ==> forall c | 0 <= c < img.channels :: Equalizable(img, c)
  }

  /** The result of `equalizarHistograma`. */
  function Equalized(img: Image): (r: Image)
    requires img.Valid() && EqualizationDefined(img)
    ensures r.Valid() && r.SameTypeAs(img)
    ensures img.channels != 1 && img.channels != 3 ==> r == img
  {
    if img.channels == 1 || img.channels == 3 then EqualizedUpTo(img, img.channels) else img
  }

  /**
   * Equalisation keeps the order of intensities within a channel and sends
   * the darkest intensity present to 0.
   */
  lemma {:induction false} EqualizationMonotone(img: Image, c: nat, y1: nat, x1: nat, y2: nat, x2: nat)
    requires img.Valid() && EqualizationDefined(img) && (img.channels == 1 || img.channels == 3)
    requires c < img.channels && y1 < img.rows && x1 < img.cols && y2 < img.rows && x2 < img.cols
    ensures var p, q := img.data[y1][x1][c], img.data[y2][x2][c];
      var e := Equalized(img);
      (p <= q ==> e.data[y1][x1][c] <= e.data[y2][x2][c]) &&
      ((forall v | v in ChannelValues(img, c) :: p <= v) ==> e.data[y1][x1][c] == 0)
  {
    assert Equalizable(img, c);
    var p, q := img.data[y1][x1][c], img.data[y2][x2][c];
    assert ValidRow(img.data[y1], img.cols, img.channels) && ValidRow(img.data[y2], img.cols, img.channels);
    PixelInScan(img, c, img.rows, y1, x1);
    PixelInScan(img, c, img.rows, y2, x2);
    ChannelLutOrder(img, c, p, q);
    assert Equalized(img).data[y1][x1][c] == ChannelLut(img, c)[p];
    assert Equalized(img).data[y2][x2][c] == ChannelLut(img, c)[q];
  }

  /** Over the intensities present in a channel, its table keeps their order and sends the darkest to 0. */
  lemma {:induction false} ChannelLutOrder(img: Image, c: nat, p: int, q: int)
    requires img.Valid() && Equalizable(img, c) && IsByte(p) && IsByte(q)
    requires p in ChannelValues(img, c) && q in ChannelValues(img, c)
    ensures p <= q ==> ChannelLut(img, c)[p] <= ChannelLut(img, c)[q]
    ensures (forall v | v in ChannelValues(img, c) :: p <= v) ==> ChannelLut(img, c)[p] == 0
  {
    var h := Histogram(img, c);
    HistogramTotal(img, c);
    CdfMinCountsDarkest(img, c);
    LutLaws(h, img.rows * img.cols);
  }

  /** The brightest intensity present in a channel is sent to 255. */
  lemma {:induction false} EqualizationBrightest(img: Image, c: nat, y: nat, x: nat)
    requires img.Valid() && EqualizationDefined(img) && (img.channels == 1 || img.channels == 3)
    requires c < img.channels && y < img.rows && x < img.cols
    requires forall v | v in ChannelValues(img, c) :: v <= img.data[y][x][c]
    ensures Equalized(img).data[y][x][c] == 255
  {
    var h, vs := Histogram(img, c), ChannelValues(img, c);
    assert Equalizable(img, c);
    var q := img.data[y][x][c];
    assert ValidRow(img.data[y], img.cols, img.channels);
    forall v | q < v < 256
      ensures h[v] == 0
    {
      assert v !in vs;
    }
    SumTailZero(h, q + 1, 256);
    HistogramTotal(img, c);
    var cdf := Cdf(h);
    assert cdf[q] == img.rows * img.cols;
    LutEnds(cdf, CdfMin(cdf), img.rows * img.cols, q);
    assert Equalized(img).data[y][x][c] == ChannelLut(img, c)[q];
  }

  lemma {:induction false} SumTailZero(h: seq<int>, i: nat, j: nat)
    requires i <= j <= |h| && forall k | i <= k < j :: h[k] == 0
    ensures SumTo(h, i) == SumTo(h, j)
  {
    if i < j {
      SumTailZero(h, i, j - 1);
    }
  }

  // ---- the loops of the source ----

  /** One row of the histogram loop: the bin of each pixel's value is incremented. */
  method ContarLinha(imagem: Image, c: nat, y: nat, h: array<int>, ghost antes: seq<int>)
    requires imagem.Valid() && c < imagem.channels && y < imagem.rows
    requires h.Length == 256 && h[..] == Bins(antes)
    modifies h
    ensures h[..] == Bins(antes + RowValues(imagem.data[y], c))
  {
    assert ValidRow(imagem.data[y], imagem.cols, imagem.channels);
    var linha := RowValues(imagem.data[y], c);
    ghost var seen := antes;
    var x := 0;
    while x < imagem.cols
      invariant 0 <= x <= imagem.cols
      invariant seen == antes + linha[..x]
      invariant h[..] == Bins(seen)
    {
      var valor := imagem.data[y][x][c];
      assert linha[x] == valor && IsByte(valor);
      BinsAppend(seen, valor);
      h[valor] := h[valor] + 1;
      assert linha[..x + 1] == linha[..x] + [valor];
      seen := seen + [valor];
      x := x + 1;
    }
    assert linha[..imagem.cols] == linha;
  }

  /** One channel's histogram: a zeroed 256-entry table incremented once per pixel. */
  method ContarCanal(imagem: Image, c: nat) returns (hist: seq<int>)
    requires imagem.Valid() && c < imagem.channels
    ensures hist == Histogram(imagem, c)
  {
    var h := new int[256](i => 0);
    assert h[..] == Bins([]);
    var y := 0;
    while y < imagem.rows
      invariant 0 <= y <= imagem.rows
      invariant h[..] == Bins(ScanValues(imagem, c, y))
    {
      ContarLinha(imagem, c, y, h, ScanValues(imagem, c, y));
      y := y + 1;
    }
    hist := h[..];
  }

  method CalcularHistograma(imagem: Image) returns (histogramas: seq<seq<int>>)
    requires imagem.Valid()
    ensures histogramas == Histograms(imagem)
  {
    histogramas := [];
    if imagem.channels == 1 {
      var hist := ContarCanal(imagem, 0);
      histogramas := histogramas + [hist];
    } else if imagem.channels == 3 {
      var c := 0;
      while c < 3
        invariant 0 <= c <= 3 && |histogramas| == c
        invariant forall k | 0 <= k < c :: histogramas[k] == Histogram(imagem, k)
      {
        var hist := ContarCanal(imagem, c);
        histogramas := histogramas + [hist];
        c := c + 1;
      }
    }
  }

  /** `cdf[0] = hist[0]`, then each entry adds the next bin to the previous one. */
  method AcumularCdf(hist: seq<int>) returns (cdf: seq<int>)
    requires |hist| == 256
    ensures cdf == Cdf(hist)
  {
    var a := new int[256];
    a[0] := hist[0];
    var i := 1;
    while i < 256
      invariant 1 <= i <= 256
      invariant forall k | 0 <= k < i :: a[k] == SumTo(hist, k + 1)
    {
      a[i] := a[i - 1] + hist[i];
      i := i + 1;
    }
    cdf := a[..];
  }

  /** The scan for the first non-zero entry, left with `break`. */
  method PrimeiroNaoNulo(cdf: seq<int>) returns (cdfMin: int)
    requires |cdf| == 256
    ensures cdfMin == CdfMin(cdf)
  {
    cdfMin := 0;
    var i := 0;
    while i < 256
      invariant 0 <= i <= 256
      invariant forall k | 0 <= k < i :: cdf[k] == 0
    {
      if cdf[i] != 0 {
        cdfMin := cdf[i];
        break;
      }
      i := i + 1;
    }
    assert FirstNonZero(cdf, 0) == i;
  }

  method TabelaLut(cdf: seq<int>, cdfMin: int, totalPixels: int) returns (lut: seq<int>)
    requires |cdf| == 256 && totalPixels > cdfMin
    ensures lut == Lut(cdf, cdfMin, totalPixels)
  {
    var a := new int[256];
    var i := 0;
    while i < 256
      invariant 0 <= i <= 256
      invariant forall k | 0 <= k < i :: a[k] == Lut(cdf, cdfMin, totalPixels)[k]
    {
      a[i] := Uchar(RoundToInt((cdf[i] - cdfMin) as real * 255.0 / (totalPixels - cdfMin) as real));
      i := i + 1;
    }
    lut := a[..];
  }

  /** Rewrites channel `c` of every pixel through `lut`, reading the original value. */
  method AplicarLut(imagem: Image, atual: Image, c: nat, lut: seq<int>) returns (resultado: Image)
    requires imagem.Valid() && c < imagem.channels
    requires forall k | 0 <= k <= c :: Equalizable(imagem, k)
    requires atual == EqualizedUpTo(imagem, c) && lut == ChannelLut(imagem, c)
    ensures resultado == EqualizedUpTo(imagem, c + 1)
  {
    var data := atual.data;
    var y := 0;
    while y < imagem.rows
      invariant 0 <= y <= imagem.rows && |data| == imagem.rows
      invariant forall i | 0 <= i < y :: data[i] == EqualizedUpTo(imagem, c + 1).data[i]
      invariant forall i | y <= i < imagem.rows :: data[i] == atual.data[i]
    {
      assert ValidRow(imagem.data[y], imagem.cols, imagem.channels);
      var row := data[y];
      var x := 0;
      while x < imagem.cols
        invariant 0 <= x <= imagem.cols && |row| == imagem.cols
        invariant forall j | 0 <= j < x :: row[j] == EqualizedUpTo(imagem, c + 1).data[y][j]
        invariant forall j | x <= j < imagem.cols :: row[j] == atual.data[y][j]
      {
        var pixel := row[x];
        pixel := pixel[c := lut[imagem.data[y][x][c]]];
        assert pixel == EqualizedUpTo(imagem, c + 1).data[y][x];
        row := row[x := pixel];
        x := x + 1;
      }
      data := data[y := row];
      y := y + 1;
    }
    resultado := atual.(data := data);
  }

  /** With no channel equalised yet, the image is the input. */
  lemma {:induction false} EqualizedUpToZero(img: Image)
    requires img.Valid()
    ensures EqualizedUpTo(img, 0) == img
  {
    var e := EqualizedUpTo(img, 0);
    forall y, x | 0 <= y < img.rows && 0 <= x < img.cols
      ensures e.data[y][x] == img.data[y][x]
    {
      assert ValidRow(img.data[y], img.cols, img.channels);
    }
    SameImage(e, img);
  }

  /** The body of the channel loop: histogram, distribution, its minimum, the table, then the rewrite. */
  method EqualizarCanal(imagem: Image, atual: Image, c: nat) returns (resultado: Image)
    requires imagem.Valid() && c < imagem.channels
    requires forall k | 0 <= k <= c :: Equalizable(imagem, k)
    requires atual == EqualizedUpTo(imagem, c)
    ensures resultado == EqualizedUpTo(imagem, c + 1)
  {
    assert Equalizable(imagem, c);
    var hist := ContarCanal(imagem, c);
    var cdf := AcumularCdf(hist);
    var cdfMin := PrimeiroNaoNulo(cdf);
    var totalPixels := imagem.rows * imagem.cols;
    var lut := TabelaLut(cdf, cdfMin, totalPixels);
    assert lut == ChannelLut(imagem, c);
    resultado := AplicarLut(imagem, atual, c, lut);
  }

  method EqualizarHistograma(imagem: Image) returns (resultado: Image)
    requires imagem.Valid() && EqualizationDefined(imagem)
    ensures resultado == Equalized(imagem)
  {
    resultado := imagem;
    if imagem.channels == 1 || imagem.channels == 3 {
      EqualizedUpToZero(imagem);
      var c := 0;
      while c < imagem.channels
        invariant 0 <= c <= imagem.channels
        invariant resultado == EqualizedUpTo(imagem, c)
      {
        resultado := EqualizarCanal(imagem, resultado, c);
        c := c + 1;
      }
    }
  }

  // ---- normalisation of the histogram plot ----

  /**
   * The running maximum over every bin of every histogram, replaced by 1
   * when it stays 0: the largest count when some count is positive, 1
   * otherwise.
   */
  method ValorMaximo(histogramas: seq<seq<int>>) returns (valorMaximo: int)
    requires forall k | 0 <= k < |histogramas| :: |histogramas[k]| >= 256
    ensures valorMaximo >= 1
    ensures forall k, i | 0 <= k < |histogramas| && 0 <= i < 256 :: histogramas[k][i] <= valorMaximo
    ensures (exists k, i | 0 <= k < |histogramas| && 0 <= i < 256 :: histogramas[k][i] == valorMaximo) ||
      (valorMaximo == 1 && forall k, i | 0 <= k < |histogramas| && 0 <= i < 256 :: histogramas[k][i] <= 0)
  {
    valorMaximo := 0;
    var k := 0;
    while k < |histogramas|
      invariant 0 <= k <= |histogramas| && valorMaximo >= 0
      invariant forall k', i | 0 <= k' < k && 0 <= i < 256 :: histogramas[k'][i] <= valorMaximo
      invariant valorMaximo == 0 ||
        exists k', i | 0 <= k' < k && 0 <= i < 256 :: histogramas[k'][i] == valorMaximo
    {
      var i := 0;
      while i < 256
        invariant 0 <= i <= 256 && valorMaximo >= 0
        invariant forall k', i' | 0 <= k' < k && 0 <= i' < 256 :: histogramas[k'][i'] <= valorMaximo
        invariant forall i' | 0 <= i' < i :: histogramas[k][i'] <= valorMaximo
        invariant valorMaximo == 0 ||
          (exists k', i' | 0 <= k' < k && 0 <= i' < 256 :: histogramas[k'][i'] == valorMaximo) ||
          (exists i' | 0 <= i' < i :: histogramas[k][i'] == valorMaximo)
      {
        valorMaximo := Max(valorMaximo, histogramas[k][i]);
        i := i + 1;
      }
      k := k + 1;
    }
    if valorMaximo == 0 {
      valorMaximo := 1;
    }
  }

  /** The plotted height of a bin: its count scaled to the 400-pixel plot and rounded. */
  function BinHeight(count: int, valorMaximo: int): (h: int)
    requires valorMaximo >= 1
  {
    RoundToInt(count as real * 400.0 / valorMaximo as real)
  }

  /** Every count from 0 to the normaliser is plotted at a height in [0, 400], the largest at 400, higher counts higher. */
  lemma {:induction false} BinHeightLaws(a: int, b: int, valorMaximo: int)
    requires valorMaximo >= 1 && 0 <= a <= b <= valorMaximo
    ensures 0 <= BinHeight(a, valorMaximo) <= BinHeight(b, valorMaximo) <= 400
    ensures BinHeight(valorMaximo, valorMaximo) == 400
  {
    var d := valorMaximo as real;
    ScaledShare(a as real, d, 400.0);
    ScaledShare(b as real, d, 400.0);
    RealScaleMonotone(a as real, b as real, 400.0);
    DivMonotone(a as real * 400.0, b as real * 400.0, d);
    RoundMonotone(a as real * 400.0 / d, b as real * 400.0 / d);
    RoundMonotone(b as real * 400.0 / d, 400.0);
    CancelScale(d, 400.0);
  }
}
