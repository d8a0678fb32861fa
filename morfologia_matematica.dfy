/**
 * Binary morphology of MorfologiaMatematica.  Every operation first
 * binarises its input (grey plane, strict threshold at 128), then slides
 * a square structuring element over the pixels whose window lies inside
 * the image; the cells of the element equal to 1 are the ones that count.
 * Erosion keeps a pixel when all of them lie over foreground, dilation
 * when at least one does, and the frame of half the element's size stays
 * 0.  Opening, closing and the two boundaries are built from these.
 */
module MorfologiaMatematica {
  import opened Raster
  import ProcessadorImagens

  /** The default cut-off of `converterParaBinaria`. */
  const LimiarPadrao: int := 128

  /**
   * A structuring element the window scan reads inside its bounds: an odd
   * number of rows, each as long as the element is tall.
   */
  predicate ValidSE(ee: seq<seq<int>>) {
    |ee| % 2 == 1 && forall i | 0 <= i < |ee| :: |ee[i]| == |ee|
  }

  /** `raio = ee.rows / 2`. */
  function Raio(ee: seq<seq<int>>): nat {
    |ee| / 2
  }

  /** The pixels the erosion and dilation loops visit. */
  predicate Interior(g: Image, ee: seq<seq<int>>, y: int, x: int) {
    Raio(ee) <= y < g.rows - Raio(ee) && Raio(ee) <= x < g.cols - Raio(ee)
  }

  /** The result of `converterParaBinaria`: the grey plane thresholded strictly at `limiar`. */
  function Binary(img: Image, limiar: int): (b: Image)
    requires img.Valid() && (img.channels == 1 || img.channels == 3)
    ensures b.IsBinary() && b.rows == img.rows && b.cols == img.cols
  {
    Binarized(GrayPlane(img), limiar)
  }

  /** Binarising a binary image again, at the default cut-off, changes nothing. */
  lemma {:induction false} BinaryIdempotent(b: Image)
    requires b.IsBinary()
    ensures Binary(b, LimiarPadrao) == b
  {
    BinarizedIdempotent(b, LimiarPadrao);
  }

  /** The pixel under cell (i, j) of the element when it is centred at (y, x). */
  function Window(b: Image, ee: seq<seq<int>>, y: int, x: int, i: int, j: int): int
    requires b.Valid() && b.channels == 1 && ValidSE(ee) && Interior(b, ee, y, x)
    requires 0 <= i < |ee| && 0 <= j < |ee|
  {
    At(b, y - Raio(ee) + i, x - Raio(ee) + j)
  }

  /** `encaixaCompletamente`: every element cell equal to 1 lies over a 255 pixel. */
  predicate Fits(b: Image, ee: seq<seq<int>>, y: int, x: int)
    requires b.Valid() && b.channels == 1 && ValidSE(ee) && Interior(b, ee, y, x)
  {
    forall i, j {:trigger Window(b, ee, y, x, i, j)} | 0 <= i < |ee| && 0 <= j < |ee| && ee[i][j] == 1 ::
      Window(b, ee, y, x, i, j) == 255
  }

  /** `temIntersecao`: some element cell equal to 1 lies over a 255 pixel. */
  predicate Hits(b: Image, ee: seq<seq<int>>, y: int, x: int)
    requires b.Valid() && b.channels == 1 && ValidSE(ee) && Interior(b, ee, y, x)
  {
    exists i, j {:trigger Window(b, ee, y, x, i, j)} | 0 <= i < |ee| && 0 <= j < |ee| && ee[i][j] == 1 ::
      Window(b, ee, y, x, i, j) == 255
  }

  datatype Morph = Erode | Dilate

  function MorphPixel(op: Morph, b: Image, ee: seq<seq<int>>, y: int, x: int): (p: Pixel)
    requires b.Valid() && b.channels == 1 && ValidSE(ee)
    ensures p == [0] || p == [255]
  {
    if Interior(b, ee, y, x) && (if op == Erode then Fits(b, ee, y, x) else Hits(b, ee, y, x)) then [255] else [0]
  }

  /** The window scan of `erosao` or `dilatacao` over a binary plane, into a zeroed result. */
  function MorphPlane(op: Morph, b: Image, ee: seq<seq<int>>): (r: Image)
    requires b.Valid() && b.channels == 1 && ValidSE(ee)
    ensures r.IsBinary() && r.SameTypeAs(b)
    ensures forall y, x | 0 <= y < b.rows && 0 <= x < b.cols :: r.data[y][x] == MorphPixel(op, b, ee, y, x)
  {
    Image(b.rows, b.cols, 1,
      seq(b.rows, y requires 0 <= y < b.rows =>
        seq(b.cols, x requires 0 <= x < b.cols => MorphPixel(op, b, ee, y, x))))
  }

  /** The result of `erosao`. */
  function Eroded(img: Image, ee: seq<seq<int>>): (r: Image)
    requires img.Valid() && (img.channels == 1 || img.channels == 3) && ValidSE(ee)
    ensures r.IsBinary() && r.rows == img.rows && r.cols == img.cols
  {
    MorphPlane(Erode, Binary(img, LimiarPadrao), ee)
  }

  /** The result of `dilatacao`. */
  function Dilated(img: Image, ee: seq<seq<int>>): (r: Image)
    requires img.Valid() && (img.channels == 1 || img.channels == 3) && ValidSE(ee)
    ensures r.IsBinary() && r.rows == img.rows && r.cols == img.cols
  {
    MorphPlane(Dilate, Binary(img, LimiarPadrao), ee)
  }

  /**
   * An erosion pixel is 255 exactly when it is interior and every cell of
   * the element equal to 1 lies over foreground of the binarised input; a
   * dilation pixel exactly when it is interior and one such cell does.
   */
  lemma {:induction false} MorphPixels(img: Image, ee: seq<seq<int>>, y: nat, x: nat)
    requires img.Valid() && (img.channels == 1 || img.channels == 3) && ValidSE(ee)
    requires y < img.rows && x < img.cols
    ensures var b := Binary(img, LimiarPadrao);
      (Eroded(img, ee).data[y][x] == [255] <==> Interior(b, ee, y, x) && Fits(b, ee, y, x)) &&
      (Dilated(img, ee).data[y][x] == [255] <==> Interior(b, ee, y, x) && Hits(b, ee, y, x))
  {
  }

  /** The frame of width `raio` is 0 in both results. */
  lemma {:induction false} MorphBorder(img: Image, ee: seq<seq<int>>, y: nat, x: nat)
    requires img.Valid() && (img.channels == 1 || img.channels == 3) && ValidSE(ee)
    requires y < img.rows && x < img.cols
    requires y < Raio(ee) || y >= img.rows - Raio(ee) || x < Raio(ee) || x >= img.cols - Raio(ee)
    ensures Eroded(img, ee).data[y][x] == [0] && Dilated(img, ee).data[y][x] == [0]
  {
  }

  /** The centre cell of the element. */
  predicate CentreSet(ee: seq<seq<int>>)
    requires ValidSE(ee)
  {
    ee[Raio(ee)][Raio(ee)] == 1
  }

  /**
   * With the centre of the element set, erosion only removes foreground
   * and dilation keeps every interior foreground pixel.
   */
  lemma {:induction false} CentredBounds(img: Image, ee: seq<seq<int>>, y: nat, x: nat)
    requires img.Valid() && (img.channels == 1 || img.channels == 3) && ValidSE(ee) && CentreSet(ee)
    requires y < img.rows && x < img.cols
    ensures Eroded(img, ee).data[y][x] == [255] ==> Binary(img, LimiarPadrao).data[y][x] == [255]
    ensures Binary(img, LimiarPadrao).data[y][x] == [255] && Interior(img, ee, y, x) ==>
      Dilated(img, ee).data[y][x] == [255]
  {
    var b := Binary(img, LimiarPadrao);
    var r := Raio(ee);
    if Interior(b, ee, y, x) {
      assert Window(b, ee, y, x, r, r) == At(b, y, x);
    }
  }

  /** Over complementary binary planes, the element fits in one exactly when it misses the other. */
  lemma {:induction false} FitsIffMisses(b: Image, n: Image, ee: seq<seq<int>>, y: int, x: int)
    requires b.IsBinary() && n.IsBinary() && n.SameTypeAs(b) && ValidSE(ee) && Interior(b, ee, y, x)
    requires forall i, j | 0 <= i < b.rows && 0 <= j < b.cols :: At(n, i, j) == 255 - At(b, i, j)
    ensures Fits(b, ee, y, x) <==> !Hits(n, ee, y, x)
  {
    var r := Raio(ee);
    if !Fits(b, ee, y, x) {
      var i, j := MissWitness(b, ee, y, x);
      assert b.data[y - r + i][x - r + j] == [At(b, y - r + i, x - r + j)];
      assert Window(n, ee, y, x, i, j) == 255;
    }
    if Hits(n, ee, y, x) {
      var i, j := HitWitness(n, ee, y, x);
      assert Window(b, ee, y, x, i, j) != 255;
    }
  }

  /** Erosion of a binary image is the complement of the dilation of its inverse, on interior pixels. */
  lemma {:induction false} Duality(b: Image, ee: seq<seq<int>>, y: nat, x: nat)
    requires b.IsBinary() && ValidSE(ee) && Interior(b, ee, y, x)
    ensures ProcessadorImagens.Inverted(b).IsBinary()
    ensures Eroded(b, ee).data[y][x] == [255] <==> Dilated(ProcessadorImagens.Inverted(b), ee).data[y][x] == [0]
  {
    var n := ProcessadorImagens.Inverted(b);
    forall i, j | 0 <= i < b.rows && 0 <= j < b.cols
      ensures n.data[i][j] == [255 - At(b, i, j)] && (At(b, i, j) == 0 || At(b, i, j) == 255)
    {
      assert n.data[i][j] == ProcessadorImagens.InvertPixel(b.data[i][j]);
    }
    assert n.IsBinary();
    forall i, j | 0 <= i < b.rows && 0 <= j < b.cols
      ensures At(n, i, j) == 255 - At(b, i, j)
    {
    }
    BinaryIdempotent(b);
    BinaryIdempotent(n);
    FitsIffMisses(b, n, ee, y, x);
    assert Eroded(b, ee).data[y][x] == MorphPixel(Erode, b, ee, y, x);
    assert Dilated(n, ee).data[y][x] == MorphPixel(Dilate, n, ee, y, x);
  }

  /** The result of `abertura`: the dilation of the erosion. */
  function Opened(img: Image, ee: seq<seq<int>>): (r: Image)
    requires img.Valid() && (img.channels == 1 || img.channels == 3) && ValidSE(ee)
    ensures r.IsBinary() && r.rows == img.rows && r.cols == img.cols
  {
    Dilated(Eroded(img, ee), ee)
  }

  /** The result of `fechamento`: the erosion of the dilation. */
  function Closed(img: Image, ee: seq<seq<int>>): (r: Image)
    requires img.Valid() && (img.channels == 1 || img.channels == 3) && ValidSE(ee)
    ensures r.IsBinary() && r.rows == img.rows && r.cols == img.cols
  {
    Eroded(Dilated(img, ee), ee)
  }

  /** The cell opposite (i, j) through the centre of the element. */
  function Opposite(ee: seq<seq<int>>, i: nat, j: nat): int
    requires ValidSE(ee) && i < |ee| && j < |ee|
  {
    ee[|ee| - 1 - i][|ee| - 1 - j]
  }

  /** An element equal to its own half-turn, as the square and the cross are. */
  predicate Symmetric(ee: seq<seq<int>>)
    requires ValidSE(ee)
  {
    forall i: nat, j: nat {:trigger Opposite(ee, i, j)} | i < |ee| && j < |ee| :: Opposite(ee, i, j) == ee[i][j]
  }

  /**
   * If the element fits at q and q is reached from p through a cell set to
   * 1, then p lies under the half-turned cell of the window at q.
   */
  lemma {:induction false} FitReachesBack(b: Image, ee: seq<seq<int>>, y: int, x: int, i: nat, j: nat)
    requires b.Valid() && b.channels == 1 && ValidSE(ee) && Symmetric(ee)
    requires i < |ee| && j < |ee| && ee[i][j] == 1
    requires Interior(b, ee, y - Raio(ee) + i, x - Raio(ee) + j) && Fits(b, ee, y - Raio(ee) + i, x - Raio(ee) + j)
    ensures 0 <= y < b.rows && 0 <= x < b.cols && At(b, y, x) == 255
  {
    var n, r := |ee|, Raio(ee);
    var qy, qx := y - r + i, x - r + j;
    assert Opposite(ee, n - 1 - i, n - 1 - j) == ee[n - 1 - i][n - 1 - j];
    assert ee[n - 1 - i][n - 1 - j] == 1;
    assert qy - r + (n - 1 - i) == y && qx - r + (n - 1 - j) == x;
    assert Window(b, ee, qy, qx, n - 1 - i, n - 1 - j) == 255;
  }

  /**
   * If p is foreground and q is reached from p through a cell set to 1,
   * the element hits at q through the half-turned cell.
   */
  lemma {:induction false} HitReachesBack(b: Image, ee: seq<seq<int>>, y: int, x: int, i: nat, j: nat)
    requires b.Valid() && b.channels == 1 && ValidSE(ee) && Symmetric(ee)
    requires i < |ee| && j < |ee| && ee[i][j] == 1
    requires 0 <= y < b.rows && 0 <= x < b.cols && At(b, y, x) == 255
    requires Interior(b, ee, y - Raio(ee) + i, x - Raio(ee) + j)
    ensures Hits(b, ee, y - Raio(ee) + i, x - Raio(ee) + j)
  {
    var n, r := |ee|, Raio(ee);
    var qy, qx := y - r + i, x - r + j;
    assert Opposite(ee, n - 1 - i, n - 1 - j) == ee[n - 1 - i][n - 1 - j];
    assert ee[n - 1 - i][n - 1 - j] == 1;
    assert qy - r + (n - 1 - i) == y && qx - r + (n - 1 - j) == x;
    assert Window(b, ee, qy, qx, n - 1 - i, n - 1 - j) == 255;
  }

  /** A cell of the element through which the window hits. */
  lemma HitWitness(b: Image, ee: seq<seq<int>>, y: int, x: int) returns (i: nat, j: nat)
    requires b.Valid() && b.channels == 1 && ValidSE(ee) && Interior(b, ee, y, x) && Hits(b, ee, y, x)
    ensures i < |ee| && j < |ee| && ee[i][j] == 1
    ensures 0 <= y - Raio(ee) + i < b.rows && 0 <= x - Raio(ee) + j < b.cols
    ensures At(b, y - Raio(ee) + i, x - Raio(ee) + j) == 255
  {
    i, j :| 0 <= i < |ee| && 0 <= j < |ee| && ee[i][j] == 1 && Window(b, ee, y, x, i, j) == 255;
  }

  /** A cell of the element that lies over a pixel other than 255, when the window does not fit. */
  lemma MissWitness(b: Image, ee: seq<seq<int>>, y: int, x: int) returns (i: nat, j: nat)
    requires b.Valid() && b.channels == 1 && ValidSE(ee) && Interior(b, ee, y, x) && !Fits(b, ee, y, x)
    ensures i < |ee| && j < |ee| && ee[i][j] == 1
    ensures 0 <= y - Raio(ee) + i < b.rows && 0 <= x - Raio(ee) + j < b.cols
    ensures At(b, y - Raio(ee) + i, x - Raio(ee) + j) != 255
  {
    i, j :| 0 <= i < |ee| && 0 <= j < |ee| && ee[i][j] == 1 && Window(b, ee, y, x, i, j) != 255;
  }

  /**
   * A pixel the dilation of an erosion sets, with a symmetric element, is
   * foreground: the window at the hit cell fits and covers the pixel.
   */
  lemma {:induction false} OpeningShrinksPlane(b: Image, e: Image, ee: seq<seq<int>>, y: nat, x: nat)
    requires b.IsBinary() && e.IsBinary() && e.SameTypeAs(b) && ValidSE(ee) && Symmetric(ee)
    requires y < b.rows && x < b.cols
    requires forall qy, qx | 0 <= qy < b.rows && 0 <= qx < b.cols :: e.data[qy][qx] == MorphPixel(Erode, b, ee, qy, qx)
    ensures MorphPixel(Dilate, e, ee, y, x) == [255] ==> At(b, y, x) == 255
  {
    var r := Raio(ee);
    if MorphPixel(Dilate, e, ee, y, x) == [255] {
      var i, j := HitWitness(e, ee, y, x);
      var qy, qx := y - r + i, x - r + j;
      assert e.data[qy][qx] == [255];
      assert MorphPixel(Erode, b, ee, qy, qx) == [255];
      FitReachesBack(b, ee, y, x, i, j);
    }
  }

  /** With a symmetric element, opening only removes foreground. */
  lemma {:induction false} OpeningShrinks(img: Image, ee: seq<seq<int>>, y: nat, x: nat)
    requires img.Valid() && (img.channels == 1 || img.channels == 3) && ValidSE(ee) && Symmetric(ee)
    requires y < img.rows && x < img.cols
    ensures Opened(img, ee).data[y][x] == [255] ==> Binary(img, LimiarPadrao).data[y][x] == [255]
  {
    var b := Binary(img, LimiarPadrao);
    var e := Eroded(img, ee);
    BinaryIdempotent(e);
    assert e == MorphPlane(Erode, b, ee);
    assert Opened(img, ee).data[y][x] == MorphPixel(Dilate, e, ee, y, x);
    OpeningShrinksPlane(b, e, ee, y, x);
  }

  /**
   * A foreground pixel far enough from the border is set by the erosion of
   * the dilation, with a symmetric element: every window around it hits.
   */
  lemma {:induction false} ClosingGrowsPlane(b: Image, d: Image, ee: seq<seq<int>>, y: nat, x: nat)
    requires b.IsBinary() && d.IsBinary() && d.SameTypeAs(b) && ValidSE(ee) && Symmetric(ee)
    requires 2 * Raio(ee) <= y < b.rows - 2 * Raio(ee) && 2 * Raio(ee) <= x < b.cols - 2 * Raio(ee)
    requires forall qy, qx | 0 <= qy < b.rows && 0 <= qx < b.cols :: d.data[qy][qx] == MorphPixel(Dilate, b, ee, qy, qx)
    ensures At(b, y, x) == 255 ==> MorphPixel(Erode, d, ee, y, x) == [255]
  {
    if At(b, y, x) == 255 {
      WindowsAroundHit(b, d, ee, y, x);
    }
  }

  lemma {:induction false} WindowsAroundHit(b: Image, d: Image, ee: seq<seq<int>>, y: nat, x: nat)
    requires b.IsBinary() && d.IsBinary() && d.SameTypeAs(b) && ValidSE(ee) && Symmetric(ee)
    requires 2 * Raio(ee) <= y < b.rows - 2 * Raio(ee) && 2 * Raio(ee) <= x < b.cols - 2 * Raio(ee)
    requires forall qy, qx | 0 <= qy < b.rows && 0 <= qx < b.cols :: d.data[qy][qx] == MorphPixel(Dilate, b, ee, qy, qx)
    requires At(b, y, x) == 255
    ensures Interior(d, ee, y, x) && Fits(d, ee, y, x)
  {
    var r := Raio(ee);
    if !Fits(d, ee, y, x) {
      var i, j := MissWitness(d, ee, y, x);
      HitReachesBack(b, ee, y, x, i, j);
      assert false;
    }
  }

  /**
   * With a symmetric element, closing keeps every foreground pixel whose
   * distance from the border is at least the element's size less one.
   */
  lemma {:induction false} ClosingGrows(img: Image, ee: seq<seq<int>>, y: nat, x: nat)
    requires img.Valid() && (img.channels == 1 || img.channels == 3) && ValidSE(ee) && Symmetric(ee)
    requires 2 * Raio(ee) <= y < img.rows - 2 * Raio(ee) && 2 * Raio(ee) <= x < img.cols - 2 * Raio(ee)
    ensures Binary(img, LimiarPadrao).data[y][x] == [255] ==> Closed(img, ee).data[y][x] == [255]
  {
    var b := Binary(img, LimiarPadrao);
    var d := Dilated(img, ee);
    BinaryIdempotent(d);
    assert d == MorphPlane(Dilate, b, ee);
    assert Closed(img, ee).data[y][x] == MorphPixel(Erode, d, ee, y, x);
    ClosingGrowsPlane(b, d, ee, y, x);
  }

  /** The result of `limiteInterno`: foreground pixels the erosion removes. */
  function InnerBoundary(img: Image, ee: seq<seq<int>>): (r: Image)
    requires img.Valid() && (img.channels == 1 || img.channels == 3) && ValidSE(ee)
    ensures r.IsBinary() && r.rows == img.rows && r.cols == img.cols
  {
    var b := Binary(img, LimiarPadrao);
    var e := Eroded(b, ee);
    Image(b.rows, b.cols, 1,
      seq(b.rows, y requires 0 <= y < b.rows =>
        seq(b.cols, x requires 0 <= x < b.cols => if At(b, y, x) == 255 && At(e, y, x) == 0 then [255] else [0])))
  }

  /** The result of `limiteExterno`: background pixels the dilation adds. */
  function OuterBoundary(img: Image, ee: seq<seq<int>>): (r: Image)
    requires img.Valid() && (img.channels == 1 || img.channels == 3) && ValidSE(ee)
    ensures r.IsBinary() && r.rows == img.rows && r.cols == img.cols
  {
    var b := Binary(img, LimiarPadrao);
    var d := Dilated(b, ee);
    Image(b.rows, b.cols, 1,
      seq(b.rows, y requires 0 <= y < b.rows =>
        seq(b.cols, x requires 0 <= x < b.cols => if At(d, y, x) == 255 && At(b, y, x) == 0 then [255] else [0])))
  }

  /**
   * The inner boundary is the foreground minus the erosion of the input,
   * so it lies inside the foreground; the outer boundary is the dilation
   * minus the foreground, so it lies inside the background.
   */
  lemma {:induction false} BoundaryPixels(img: Image, ee: seq<seq<int>>, y: nat, x: nat)
    requires img.Valid() && (img.channels == 1 || img.channels == 3) && ValidSE(ee)
    requires y < img.rows && x < img.cols
    ensures var b := Binary(img, LimiarPadrao);
      (InnerBoundary(img, ee).data[y][x] == [255] <==> b.data[y][x] == [255] && Eroded(img, ee).data[y][x] == [0]) &&
      (OuterBoundary(img, ee).data[y][x] == [255] <==> b.data[y][x] == [0] && Dilated(img, ee).data[y][x] == [255])
    ensures InnerBoundary(img, ee).data[y][x] == [255] ==> Binary(img, LimiarPadrao).data[y][x] == [255]
    ensures OuterBoundary(img, ee).data[y][x] == [255] ==> Binary(img, LimiarPadrao).data[y][x] == [0]
  {
    var b := Binary(img, LimiarPadrao);
    BinaryIdempotent(b);
    assert Eroded(b, ee) == Eroded(img, ee);
    assert Dilated(b, ee) == Dilated(img, ee);
  }

  // ---- structuring elements ----

  /** The size the factories use: an even request becomes 3. */
  function SquareSize(tamanho: int): int {
    if tamanho % 2 == 0 then 3 else tamanho
  }

  /** `criarElementoEstruturante`: an all-ones square. */
  function CriarElementoEstruturante(tamanho: int): (ee: seq<seq<int>>)
    requires tamanho % 2 == 0 || tamanho > 0
    ensures ValidSE(ee) && |ee| == SquareSize(tamanho)
    ensures forall i, j | 0 <= i < |ee| && 0 <= j < |ee| :: ee[i][j] == 1
  {
    var n := SquareSize(tamanho);
    seq(n, i => seq(n, j => 1))
  }

  /** The size of the cross: an even request or one below 3 becomes 3. */
  function CrossSize(tamanho: int): (n: int)
    ensures n >= 3 && n % 2 == 1
  {
    if tamanho % 2 == 0 || tamanho < 3 then 3 else tamanho
  }

  /** The cross of size n: 1 on the centre row and the centre column, 0 elsewhere. */
  function Cross(n: nat): (ee: seq<seq<int>>)
    ensures |ee| == n && forall i | 0 <= i < n :: |ee[i]| == n
  {
    seq(n, i => seq(n, j => if i == n / 2 || j == n / 2 then 1 else 0))
  }

  /** The loops of `criarElementoEstruturanteCruz`: the centre row, then the centre column, over zeros. */
  method CriarElementoEstruturanteCruz(tamanho: int) returns (elemento: seq<seq<int>>)
    ensures elemento == Cross(CrossSize(tamanho))
  {
    var n := CrossSize(tamanho);
    elemento := seq(n, i => seq(n, j => 0));
    var centro := n / 2;
    var x := 0;
    while x < n
      invariant 0 <= x <= n && |elemento| == n && forall i | 0 <= i < n :: |elemento[i]| == n
      invariant forall i, j | 0 <= i < n && 0 <= j < n ::
        elemento[i][j] == (if i == centro && j < x then 1 else 0)
    {
      elemento := elemento[centro := elemento[centro][x := 1]];
      x := x + 1;
    }
    var y := 0;
    while y < n
      invariant 0 <= y <= n && |elemento| == n && forall i | 0 <= i < n :: |elemento[i]| == n
      invariant forall i, j | 0 <= i < n && 0 <= j < n ::
        elemento[i][j] == (if i == centro || (j == centro && i < y) then 1 else 0)
    {
      elemento := elemento[y := elemento[y][centro := 1]];
      y := y + 1;
    }
    assert forall i | 0 <= i < n :: elemento[i] == Cross(n)[i];
  }

  /** The square element is valid, symmetric and has its centre set. */
  lemma {:induction false} SquareElement(tamanho: int)
    requires tamanho % 2 == 0 || tamanho > 0
    ensures var sq := CriarElementoEstruturante(tamanho); ValidSE(sq) && Symmetric(sq) && CentreSet(sq)
  {
    var sq := CriarElementoEstruturante(tamanho);
    forall i: nat, j: nat | i < |sq| && j < |sq|
      ensures Opposite(sq, i, j) == sq[i][j]
    {
    }
  }

  /** The cross element is valid, symmetric and has its centre set. */
  lemma {:induction false} CrossElement(tamanho: int)
    ensures var c := Cross(CrossSize(tamanho)); ValidSE(c) && Symmetric(c) && CentreSet(c)
  {
    var n := CrossSize(tamanho);
    var c := Cross(n);
    forall i: nat, j: nat | i < n && j < n
      ensures Opposite(c, i, j) == c[i][j]
    {
      assert i == n / 2 <==> n - 1 - i == n / 2;
      assert j == n / 2 <==> n - 1 - j == n / 2;
    }
  }

  /** A cell of the cross is 1 exactly when it lies on the centre row or the centre column. */
  lemma {:induction false} CrossCells(tamanho: int, i: nat, j: nat)
    requires i < CrossSize(tamanho) && j < CrossSize(tamanho)
    ensures var m := CrossSize(tamanho) / 2;
      Cross(CrossSize(tamanho))[i][j] == 1 <==> i == m || j == m
  {
  }

  // ---- the loops of the source ----

  /** `converterParaBinaria`: the grey copy, then a strict threshold pixel by pixel. */
  method ConverterParaBinaria(imagem: Image, limiar: int) returns (resultado: Image)
    requires imagem.Valid() && (imagem.channels == 1 || imagem.channels == 3)
    ensures resultado == Binary(imagem, limiar)
  {
    var cinza := imagem;
    if imagem.channels != 1 {
      cinza := LumaPlane(imagem);
    }
    var data := cinza.data;
    var y := 0;
    while y < cinza.rows
      invariant 0 <= y <= cinza.rows && |data| == cinza.rows
      invariant forall i | 0 <= i < y :: data[i] == Binarized(cinza, limiar).data[i]
      invariant forall i | y <= i < cinza.rows :: data[i] == cinza.data[i]
    {
      var row := data[y];
      var x := 0;
      while x < cinza.cols
        invariant 0 <= x <= cinza.cols && |row| == cinza.cols
        invariant forall j | 0 <= j < x :: row[j] == Binarized(cinza, limiar).data[y][j]
        invariant forall j | x <= j < cinza.cols :: row[j] == cinza.data[y][j]
      {
        var pixel := At(cinza, y, x);
        row := row[x := [if pixel > limiar then 255 else 0]];
        x := x + 1;
      }
      data := data[y := row];
      y := y + 1;
    }
    resultado := cinza.(data := data);
  }

  /** `encaixaCompletamente`: scans the window row by row and gives up at the first uncovered cell. */
  method EncaixaCompletamente(imagem: Image, y: int, x: int, ee: seq<seq<int>>) returns (encaixa: bool)
    requires imagem.Valid() && imagem.channels == 1 && ValidSE(ee) && Interior(imagem, ee, y, x)
    ensures encaixa == Fits(imagem, ee, y, x)
  {
    var raio := |ee| / 2;
    var ky := -raio;
    while ky <= raio
      invariant -raio <= ky <= raio + 1
      invariant forall i, j | 0 <= i < ky + raio && 0 <= j < |ee| && ee[i][j] == 1 ::
        Window(imagem, ee, y, x, i, j) == 255
    {
      var fila := ee[ky + raio];
      var kx := -raio;
      while kx <= raio
        invariant -raio <= kx <= raio + 1
        invariant forall i, j | 0 <= i < ky + raio && 0 <= j < |ee| && ee[i][j] == 1 ::
          Window(imagem, ee, y, x, i, j) == 255
        invariant forall j | 0 <= j < kx + raio && fila[j] == 1 ::
          Window(imagem, ee, y, x, ky + raio, j) == 255
      {
        if fila[kx + raio] == 1 {
          if At(imagem, y + ky, x + kx) != 255 {
            assert Window(imagem, ee, y, x, ky + raio, kx + raio) != 255;
            return false;
          }
        }
        kx := kx + 1;
      }
      ky := ky + 1;
    }
    return true;
  }

  /** `temIntersecao`: scans the window row by row and stops at the first covered cell. */
  method TemIntersecao(imagem: Image, y: int, x: int, ee: seq<seq<int>>) returns (intersecta: bool)
    requires imagem.Valid() && imagem.channels == 1 && ValidSE(ee) && Interior(imagem, ee, y, x)
    ensures intersecta == Hits(imagem, ee, y, x)
  {
    var raio := |ee| / 2;
    var ky := -raio;
    while ky <= raio
      invariant -raio <= ky <= raio + 1
      invariant forall i, j | 0 <= i < ky + raio && 0 <= j < |ee| && ee[i][j] == 1 ::
        Window(imagem, ee, y, x, i, j) != 255
    {
      var fila := ee[ky + raio];
      var kx := -raio;
      while kx <= raio
        invariant -raio <= kx <= raio + 1
        invariant forall i, j | 0 <= i < ky + raio && 0 <= j < |ee| && ee[i][j] == 1 ::
          Window(imagem, ee, y, x, i, j) != 255
        invariant forall j | 0 <= j < kx + raio && fila[j] == 1 ::
          Window(imagem, ee, y, x, ky + raio, j) != 255
      {
        if fila[kx + raio] == 1 {
          if At(imagem, y + ky, x + kx) == 255 {
            assert Window(imagem, ee, y, x, ky + raio, kx + raio) == 255;
            return true;
          }
        }
        kx := kx + 1;
      }
      ky := ky + 1;
    }
    return false;
  }

  /** One row of the scan: interior columns get 255 or 0 from the window test, the rest stay 0. */
  method VarrerLinha(op: Morph, b: Image, ee: seq<seq<int>>, y: int) returns (row: seq<Pixel>)
    requires b.Valid() && b.channels == 1 && ValidSE(ee) && Raio(ee) <= y < b.rows - Raio(ee)
    ensures row == MorphPlane(op, b, ee).data[y]
  {
    var raio := |ee| / 2;
    row := ZeroRow(b.cols, 1);
    var x := raio;
    while x < b.cols - raio
      invariant raio <= x && (x == raio || x <= b.cols - raio)
      invariant |row| == b.cols
      invariant forall j | raio <= j < x :: row[j] == MorphPixel(op, b, ee, y, j)
      invariant forall j | 0 <= j < b.cols && !(raio <= j < x) :: row[j] == [0]
    {
      var ativo: bool;
      if op == Erode {
        ativo := EncaixaCompletamente(b, y, x, ee);
      } else {
        ativo := TemIntersecao(b, y, x, ee);
      }
      row := row[x := if ativo then [255] else [0]];
      x := x + 1;
    }
    forall j | 0 <= j < b.cols
      ensures row[j] == MorphPixel(op, b, ee, y, j)
    {
    }
  }

  /** The scan shared by `erosao` and `dilatacao` over a zeroed result. */
  method VarrerPlano(op: Morph, b: Image, ee: seq<seq<int>>) returns (resultado: Image)
    requires b.Valid() && b.channels == 1 && ValidSE(ee)
    ensures resultado == MorphPlane(op, b, ee)
  {
    var raio := |ee| / 2;
    var data := Zeros(b.rows, b.cols, 1).data;
    var y := raio;
    while y < b.rows - raio
      invariant raio <= y && (y == raio || y <= b.rows - raio)
      invariant |data| == b.rows
      invariant forall i | raio <= i < y :: data[i] == MorphPlane(op, b, ee).data[i]
      invariant forall i | 0 <= i < b.rows && !(raio <= i < y) :: data[i] == ZeroRow(b.cols, 1)
    {
      var row := VarrerLinha(op, b, ee, y);
      data := data[y := row];
      y := y + 1;
    }
    resultado := Image(b.rows, b.cols, 1, data);
    forall i, j | 0 <= i < b.rows && 0 <= j < b.cols
      ensures resultado.data[i][j] == MorphPlane(op, b, ee).data[i][j]
    {
      if !(raio <= i < y) {
        assert data[i][j] == seq(1, c => 0) == [0];
      }
    }
    SameImage(resultado, MorphPlane(op, b, ee));
  }

  method Erosao(imagem: Image, ee: seq<seq<int>>) returns (resultado: Image)
    requires imagem.Valid() && (imagem.channels == 1 || imagem.channels == 3) && ValidSE(ee)
    ensures resultado == Eroded(imagem, ee)
  {
    var imagemBinaria := ConverterParaBinaria(imagem, LimiarPadrao);
    resultado := VarrerPlano(Erode, imagemBinaria, ee);
  }

  method Dilatacao(imagem: Image, ee: seq<seq<int>>) returns (resultado: Image)
    requires imagem.Valid() && (imagem.channels == 1 || imagem.channels == 3) && ValidSE(ee)
    ensures resultado == Dilated(imagem, ee)
  {
    var imagemBinaria := ConverterParaBinaria(imagem, LimiarPadrao);
    resultado := VarrerPlano(Dilate, imagemBinaria, ee);
  }

  method Abertura(imagem: Image, ee: seq<seq<int>>) returns (resultado: Image)
    requires imagem.Valid() && (imagem.channels == 1 || imagem.channels == 3) && ValidSE(ee)
    ensures resultado == Opened(imagem, ee)
  {
    var erodida := Erosao(imagem, ee);
    resultado := Dilatacao(erodida, ee);
  }

  method Fechamento(imagem: Image, ee: seq<seq<int>>) returns (resultado: Image)
    requires imagem.Valid() && (imagem.channels == 1 || imagem.channels == 3) && ValidSE(ee)
    ensures resultado == Closed(imagem, ee)
  {
    var dilatada := Dilatacao(imagem, ee);
    resultado := Erosao(dilatada, ee);
  }

  /** The pixel-by-pixel mask of `limiteInterno` and `limiteExterno`, over a zeroed result. */
  method Mascara(b: Image, m: Image, interno: bool) returns (resultado: Image)
    requires b.IsBinary() && m.IsBinary() && m.SameTypeAs(b)
    ensures resultado.IsBinary() && resultado.SameTypeAs(b)
    ensures forall y, x | 0 <= y < b.rows && 0 <= x < b.cols ::
      resultado.data[y][x] ==
        (if (interno && At(b, y, x) == 255 && At(m, y, x) == 0) || (!interno && At(m, y, x) == 255 && At(b, y, x) == 0)
         then [255] else [0])
  {
    var data := Zeros(b.rows, b.cols, 1).data;
    var y := 0;
    while y < b.rows
      invariant 0 <= y <= b.rows && |data| == b.rows
      invariant forall i | y <= i < b.rows :: data[i] == ZeroRow(b.cols, 1)
      invariant forall i | 0 <= i < y :: |data[i]| == b.cols
      invariant forall i, j | 0 <= i < y && 0 <= j < b.cols ::
        data[i][j] ==
          (if (interno && At(b, i, j) == 255 && At(m, i, j) == 0) || (!interno && At(m, i, j) == 255 && At(b, i, j) == 0)
           then [255] else [0])
    {
      var row := data[y];
      assert seq(1, c => 0) == [0];
      var x := 0;
      while x < b.cols
        invariant 0 <= x <= b.cols && |row| == b.cols
        invariant forall j | 0 <= j < x ::
          row[j] ==
            (if (interno && At(b, y, j) == 255 && At(m, y, j) == 0) || (!interno && At(m, y, j) == 255 && At(b, y, j) == 0)
             then [255] else [0])
        invariant forall j | x <= j < b.cols :: row[j] == [0]
      {
        var original := At(b, y, x);
        var outro := At(m, y, x);
        if interno && original == 255 && outro == 0 {
          row := row[x := [255]];
        } else if !interno && outro == 255 && original == 0 {
          row := row[x := [255]];
        }
        x := x + 1;
      }
      data := data[y := row];
      y := y + 1;
    }
    resultado := Image(b.rows, b.cols, 1, data);
  }

  method LimiteInterno(imagem: Image, ee: seq<seq<int>>) returns (resultado: Image)
    requires imagem.Valid() && (imagem.channels == 1 || imagem.channels == 3) && ValidSE(ee)
    ensures resultado == InnerBoundary(imagem, ee)
  {
    var imagemBinaria := ConverterParaBinaria(imagem, LimiarPadrao);
    var erodida := Erosao(imagemBinaria, ee);
    resultado := Mascara(imagemBinaria, erodida, true);
    SameImage(resultado, InnerBoundary(imagem, ee));
  }

  method LimiteExterno(imagem: Image, ee: seq<seq<int>>) returns (resultado: Image)
    requires imagem.Valid() && (imagem.channels == 1 || imagem.channels == 3) && ValidSE(ee)
    ensures resultado == OuterBoundary(imagem, ee)
  {
    var imagemBinaria := ConverterParaBinaria(imagem, LimiarPadrao);
    var dilatada := Dilatacao(imagemBinaria, ee);
    resultado := Mascara(imagemBinaria, dilatada, false);
    SameImage(resultado, OuterBoundary(imagem, ee));
  }
}
