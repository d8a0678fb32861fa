/**
 * Convolution of OperacoesConvolucao: a square, odd kernel of real weights
 * slid over the grey plane of the input, with the ring of width `raio`
 * around the border left at zero and every sum clamped into a byte; kernel
 * validation and the three kernel factories.
 */
module OperacoesConvolucao {
  import opened Raster

  /** A `CV_64F` kernel matrix: `w[i][j]` is the weight in row i, column j. */
  datatype Kernel = Kernel(rows: nat, cols: nat, w: seq<seq<real>>)
  {
    /** The weights form a `rows` x `cols` grid. */
    predicate Shaped() {
      |w| == rows && forall i | 0 <= i < rows :: |w[i]| == cols
    }

    /** `kernel.empty()`: the matrix has no elements. */
    predicate Empty() {
      rows * cols == 0
    }
  }

  /**
   * `validarKernel`: square, odd, and not empty.  An odd size is never zero,
   * so the emptiness test never decides the outcome: a kernel is accepted
   * exactly when it is square and odd.
   */
  function ValidarKernel(k: Kernel): (ok: bool)
    ensures ok <==> k.rows == k.cols && k.rows % 2 == 1
  {
    if k.rows != k.cols then false
    else if k.rows % 2 == 0 then false
    else if k.Empty() then false
    else true
  }

  /** `kernel.rows / 2`: the distance from the centre cell to the kernel's edge. */
  function Radius(k: Kernel): nat {
    k.rows / 2
  }

  /** The kernel fits around pixel (y, x): its window lies inside the image. */
  predicate WindowInside(g: Image, k: Kernel, y: int, x: int) {
    Radius(k) <= y < g.rows - Radius(k) && Radius(k) <= x < g.cols - Radius(k)
  }

  /** Weighted sum of the first `n` cells of kernel row i, with the window's corner at (y0, x0). */
  function RowSum(g: Image, k: Kernel, y0: int, x0: int, i: nat, n: nat): real
    requires g.Valid() && g.channels == 1 && k.Shaped() && i < k.rows && n <= k.cols
    requires 0 <= y0 && y0 + k.rows <= g.rows && 0 <= x0 && x0 + k.cols <= g.cols
  {
    if n == 0 then 0.0
    else
      assert ValidRow(g.data[y0 + i], g.cols, 1);
      RowSum(g, k, y0, x0, i, n - 1) + g.data[y0 + i][x0 + n - 1][0] as real * k.w[i][n - 1]
  }

  /** Weighted sum of the first `m` kernel rows over the window with corner (y0, x0). */
  function WindowSum(g: Image, k: Kernel, y0: int, x0: int, m: nat): real
    requires g.Valid() && g.channels == 1 && k.Shaped() && m <= k.rows
    requires 0 <= y0 && y0 + k.rows <= g.rows && 0 <= x0 && x0 + k.cols <= g.cols
  {
    if m == 0 then 0.0 else WindowSum(g, k, y0, x0, m - 1) + RowSum(g, k, y0, x0, m - 1, k.cols)
  }

  /** Sum of the first `n` weights of kernel row i. */
  function WeightRowSum(k: Kernel, i: nat, n: nat): real
    requires k.Shaped() && i < k.rows && n <= k.cols
  {
    if n == 0 then 0.0 else WeightRowSum(k, i, n - 1) + k.w[i][n - 1]
  }

  /** Sum of the weights of the first `m` kernel rows. */
  function WeightSumTo(k: Kernel, m: nat): real
    requires k.Shaped() && m <= k.rows
  {
    if m == 0 then 0.0 else WeightSumTo(k, m - 1) + WeightRowSum(k, m - 1, k.cols)
  }

  /** The sum of all weights of a kernel. */
  function WeightSum(k: Kernel): real
    requires k.Shaped()
  {
    WeightSumTo(k, k.rows)
  }

  /** The grey plane the source convolves, and its shape. */
  predicate ConvolutionDefined(img: Image, k: Kernel) {
    img.Valid() && k.Shaped() && (ValidarKernel(k) ==> img.channels == 1 || img.channels == 3)
  }

  /**
   * The result of `aplicarConvolucao`: an unchanged copy for an invalid
   * kernel; otherwise a single-channel image of the input's size whose
   * pixels are zero within `raio` of an edge and the clamped weighted sum
   * over the window everywhere else.
   */
  function Convolved(img: Image, k: Kernel): (r: Image)
    requires ConvolutionDefined(img, k)
    ensures r.Valid()
    ensures !ValidarKernel(k) ==> r == img
    ensures ValidarKernel(k) ==> r.rows == img.rows && r.cols == img.cols && r.channels == 1
  {
    if !ValidarKernel(k) then img else ConvolvedPlane(GrayPlane(img), k)
  }

  /** The convolution of a grey plane with a valid kernel. */
  function ConvolvedPlane(g: Image, k: Kernel): (r: Image)
    requires g.Valid() && g.channels == 1 && k.Shaped() && ValidarKernel(k)
    ensures r.Valid() && r.SameTypeAs(g)
    ensures forall y, x | 0 <= y < g.rows && 0 <= x < g.cols :: r.data[y][x] == OutputPixel(g, k, y, x)
  {
    Image(g.rows, g.cols, 1,
      seq(g.rows, y requires 0 <= y < g.rows =>
        seq(g.cols, x requires 0 <= x < g.cols => OutputPixel(g, k, y, x))))
  }

  /** One output pixel: zero outside the inside region, the clamped window sum within it. */
  function OutputPixel(g: Image, k: Kernel, y: int, x: int): (p: Pixel)
    requires g.Valid() && g.channels == 1 && k.Shaped() && ValidarKernel(k)
    ensures ValidPixel(p, 1)
  {
    var raio := Radius(k);
    if WindowInside(g, k, y, x) then [ClampToByte(WindowSum(g, k, y - raio, x - raio, k.rows))] else [0]
  }

  /**
   * The ring near the border stays 0 and every other pixel is the clamped
   * window sum, which is a byte.
   */
  lemma {:induction false} ConvolvedPixel(img: Image, k: Kernel, y: nat, x: nat)
    requires ConvolutionDefined(img, k) && ValidarKernel(k) && y < img.rows && x < img.cols
    ensures var g, raio := GrayPlane(img), Radius(k);
      var p := Convolved(img, k).data[y][x];
      (!WindowInside(g, k, y, x) ==> p == [0]) &&
      (WindowInside(g, k, y, x) ==> p == [ClampToByte(WindowSum(g, k, y - raio, x - raio, k.rows))] && IsByte(p[0]))
  {
  }

  lemma {:induction false} UniformRowSum(g: Image, k: Kernel, y0: int, x0: int, i: nat, n: nat, v: int)
    requires g.IsUniform(v) && k.Shaped() && i < k.rows && n <= k.cols
    requires 0 <= y0 && y0 + k.rows <= g.rows && 0 <= x0 && x0 + k.cols <= g.cols
    ensures RowSum(g, k, y0, x0, i, n) == v as real * WeightRowSum(k, i, n)
  {
    if n > 0 {
      UniformRowSum(g, k, y0, x0, i, n - 1, v);
      assert g.data[y0 + i][x0 + n - 1] == [v];
    }
  }

  /** Over a uniform image the window sum is the value times the sum of the weights. */
  lemma {:induction false} UniformWindowSum(g: Image, k: Kernel, y0: int, x0: int, m: nat, v: int)
    requires g.IsUniform(v) && k.Shaped() && m <= k.rows
    requires 0 <= y0 && y0 + k.rows <= g.rows && 0 <= x0 && x0 + k.cols <= g.cols
    ensures WindowSum(g, k, y0, x0, m) == v as real * WeightSumTo(k, m)
  {
    if m > 0 {
      UniformWindowSum(g, k, y0, x0, m - 1, v);
      UniformRowSum(g, k, y0, x0, m - 1, k.cols, v);
    }
  }

  /**
   * A kernel whose weights sum to 1 leaves the inside of a uniform
   * single-channel image unchanged, and one whose weights sum to 0 turns it
   * to 0.
   */
  lemma {:induction false} UniformInterior(img: Image, k: Kernel, v: int, y: nat, x: nat)
    requires img.IsUniform(v) && k.Shaped() && ValidarKernel(k)
    requires y < img.rows && x < img.cols && WindowInside(img, k, y, x)
    ensures WeightSum(k) == 1.0 ==> Convolved(img, k).data[y][x] == [v]
    ensures WeightSum(k) == 0.0 ==> Convolved(img, k).data[y][x] == [0]
  {
    assert ValidRow(img.data[y], img.cols, 1);
    assert img.data[y][x] == [v];
    UniformWindowSum(img, k, y - Radius(k), x - Radius(k), k.rows, v);
  }

  /** The window sum of one pixel: the two kernel loops, accumulating into `soma`. */
  method SomaJanela(g: Image, kernel: Kernel, y: int, x: int) returns (soma: real)
    requires g.Valid() && g.channels == 1 && kernel.Shaped() && ValidarKernel(kernel)
    requires WindowInside(g, kernel, y, x)
    ensures soma == WindowSum(g, kernel, y - Radius(kernel), x - Radius(kernel), kernel.rows)
  {
    var raio := kernel.rows / 2;
    soma := 0.0;
    var ky := -raio;
    while ky <= raio
      invariant -raio <= ky <= raio + 1
      invariant soma == WindowSum(g, kernel, y - raio, x - raio, ky + raio)
    {
      var kx := -raio;
      while kx <= raio
        invariant -raio <= kx <= raio + 1
        invariant soma == WindowSum(g, kernel, y - raio, x - raio, ky + raio) +
          RowSum(g, kernel, y - raio, x - raio, ky + raio, kx + raio)
      {
        assert ValidRow(g.data[y + ky], g.cols, 1);
        var pixel := g.data[y + ky][x + kx][0];
        var kernelValor := kernel.w[ky + raio][kx + raio];
        assert RowSum(g, kernel, y - raio, x - raio, ky + raio, kx + raio + 1) ==
          RowSum(g, kernel, y - raio, x - raio, ky + raio, kx + raio) + pixel as real * kernelValor;
        soma := soma + pixel as real * kernelValor;
        kx := kx + 1;
      }
      ky := ky + 1;
    }
  }

  /** One output row away from the top and bottom ring: zero near the sides, the clamped window sums between. */
  method ConvolverLinha(g: Image, kernel: Kernel, y: int) returns (row: seq<Pixel>)
    requires g.Valid() && g.channels == 1 && kernel.Shaped() && ValidarKernel(kernel)
    requires Radius(kernel) <= y < g.rows - Radius(kernel)
    ensures row == ConvolvedPlane(g, kernel).data[y]
  {
    var raio := kernel.rows / 2;
    row := ZeroRow(g.cols, 1);
    var x := raio;
    while x < g.cols - raio
      invariant raio <= x && (x == raio || x <= g.cols - raio)
      invariant |row| == g.cols
      invariant forall j | raio <= j < x :: row[j] == OutputPixel(g, kernel, y, j)
      invariant forall j | 0 <= j < g.cols && !(raio <= j < x) :: row[j] == [0]
    {
      var soma := SomaJanela(g, kernel, y, x);
      row := row[x := [ClampToByte(soma)]];
      x := x + 1;
    }
    forall j | 0 <= j < g.cols
      ensures row[j] == OutputPixel(g, kernel, y, j)
    {
    }
  }

  /** The rows from `raio` to `rows - raio` are convolved; the others stay zero. */
  method ConvolverPlano(g: Image, kernel: Kernel) returns (resultado: Image)
    requires g.Valid() && g.channels == 1 && kernel.Shaped() && ValidarKernel(kernel)
    ensures resultado == ConvolvedPlane(g, kernel)
  {
    var raio := kernel.rows / 2;
    var data := Zeros(g.rows, g.cols, 1).data;
    var y := raio;
    while y < g.rows - raio
      invariant raio <= y && (y == raio || y <= g.rows - raio)
      invariant |data| == g.rows
      invariant forall i | raio <= i < y :: data[i] == ConvolvedPlane(g, kernel).data[i]
      invariant forall i | 0 <= i < g.rows && !(raio <= i < y) :: data[i] == ZeroRow(g.cols, 1)
    {
      var row := ConvolverLinha(g, kernel, y);
      data := data[y := row];
      y := y + 1;
    }
    resultado := Image(g.rows, g.cols, 1, data);
    forall i, j | 0 <= i < g.rows && 0 <= j < g.cols
      ensures resultado.data[i][j] == ConvolvedPlane(g, kernel).data[i][j]
    {
      if !(raio <= i < y) {
        assert data[i][j] == seq(1, c => 0) == [0];
      }
    }
    SameImage(resultado, ConvolvedPlane(g, kernel));
  }

  method AplicarConvolucao(imagem: Image, kernel: Kernel) returns (resultado: Image)
    requires ConvolutionDefined(imagem, kernel)
    ensures resultado == Convolved(imagem, kernel)
  {
    if !ValidarKernel(kernel) {
      // an invalid kernel is reported and a copy returned
      return imagem;
    }
    var imagemCinza := imagem;
    if imagem.channels == 3 {
      imagemCinza := LumaPlane(imagem);
    }
    resultado := ConvolverPlano(imagemCinza, kernel);
  }

  // ---- kernel factories ----

  /** The size the factories use: an even request is replaced by 3. */
  function FactorySize(tamanho: int): int {
    if tamanho % 2 == 0 then 3 else tamanho
  }

  /** A square kernel of size n whose cell (i, j) is `f(i, j)`. */
  function Tabulate(n: nat, f: (int, int) -> real): (k: Kernel)
    ensures k.Shaped() && k.rows == n && k.cols == n
    ensures forall i, j | 0 <= i < n && 0 <= j < n :: k.w[i][j] == f(i, j)
  {
    Kernel(n, n, seq(n, i => seq(n, j => f(i, j))))
  }

  /** `criarKernelPassaAlta`: every weight -1 except the centre, which is n * n. */
  function HighPass(n: nat): (k: Kernel)
    ensures k.Shaped() && k.rows == n && k.cols == n
  {
    Tabulate(n, (i: int, j: int) => if i == n / 2 && j == n / 2 then (n * n) as real else -1.0)
  }

  /** `criarKernelPassaBaixa`: every weight 1 / (n * n). */
  function LowPass(n: nat): (k: Kernel)
    requires n > 0
    ensures k.Shaped() && k.rows == n && k.cols == n
  {
    Tabulate(n, (i: int, j: int) => 1.0 / (n * n) as real)
  }

  /** Fills an n x n kernel with -1, then stores n * n in the centre. */
  method CriarKernelPassaAlta(tamanho: int) returns (kernel: Kernel)
    requires tamanho % 2 == 0 || tamanho > 0
    ensures kernel == HighPass(FactorySize(tamanho))
  {
    var n := tamanho;
    if n % 2 == 0 {
      // an even size is reported and replaced by 3
      n := 3;
    }
    var w: seq<seq<real>> := [];
    var i := 0;
    while i < n
      invariant 0 <= i <= n && |w| == i
      invariant forall i' | 0 <= i' < i :: w[i'] == seq(n, j => -1.0)
    {
      var linha: seq<real> := [];
      var j := 0;
      while j < n
        invariant 0 <= j <= n && linha == seq(j, j' => -1.0)
      {
        linha := linha + [-1.0];
        j := j + 1;
      }
      w := w + [linha];
      i := i + 1;
    }
    var centro := n / 2;
    w := w[centro := w[centro][centro := (n * n) as real]];
    kernel := Kernel(n, n, w);
    forall i | 0 <= i < n
      ensures kernel.w[i] == HighPass(n).w[i]
    {
      assert |kernel.w[i]| == n;
    }
    assert kernel.w == HighPass(n).w;
  }

  /** Fills an n x n kernel with 1 / (n * n). */
  method CriarKernelPassaBaixa(tamanho: int) returns (kernel: Kernel)
    requires tamanho % 2 == 0 || tamanho > 0
    ensures kernel == LowPass(FactorySize(tamanho))
  {
    var n := tamanho;
    if n % 2 == 0 {
      n := 3;
    }
    var valor := 1.0 / (n * n) as real;
    var w: seq<seq<real>> := [];
    var i := 0;
    while i < n
      invariant 0 <= i <= n && |w| == i
      invariant forall i' | 0 <= i' < i :: w[i'] == seq(n, j => valor)
    {
      var linha: seq<real> := [];
      var j := 0;
      while j < n
        invariant 0 <= j <= n && linha == seq(j, j' => valor)
      {
        linha := linha + [valor];
        j := j + 1;
      }
      w := w + [linha];
      i := i + 1;
    }
    kernel := Kernel(n, n, w);
    forall i | 0 <= i < n
      ensures kernel.w[i] == LowPass(n).w[i]
    {
      assert |kernel.w[i]| == n;
    }
    assert kernel.w == LowPass(n).w;
  }

  /** `criarKernelNitidez`: the 3 x 3 cross with 5 in the centre, whatever size is asked for. */
  function CriarKernelNitidez(tamanho: int): (k: Kernel)
    ensures k.Shaped() && ValidarKernel(k) && k.rows == 3
  {
    Kernel(3, 3, [[0.0, -1.0, 0.0], [-1.0, 5.0, -1.0], [0.0, -1.0, 0.0]])
  }

  lemma {:induction false} ConstantRowSum(k: Kernel, i: nat, n: nat, c: real)
    requires k.Shaped() && i < k.rows && n <= k.cols
    requires forall j | 0 <= j < n :: k.w[i][j] == c
    ensures WeightRowSum(k, i, n) == n as real * c
  {
    if n > 0 {
      ConstantRowSum(k, i, n - 1, c);
    }
  }

  /** The high-pass weights sum to 1: n * n - 1 cells of -1 and one of n * n. */
  lemma {:induction false} HighPassSum(n: nat)
    requires n % 2 == 1
    ensures WeightSum(HighPass(n)) == 1.0
  {
    var k := HighPass(n);
    var centro := n / 2;
    // every row but the centre one sums to -n; the centre row sums to n * n - (n - 1)
    forall i | 0 <= i < n
      ensures WeightRowSum(k, i, n) == if i == centro then (n * n - (n - 1)) as real else -(n as real)
    {
      if i == centro {
        CentreRowSum(k, i, n, centro);
      } else {
        ConstantRowSum(k, i, n, -1.0);
      }
    }
    HighPassRows(k, n, centro, n);
  }

  lemma {:induction false} CentreRowSum(k: Kernel, i: nat, n: nat, centro: nat)
    requires k == HighPass(n) && i == centro == n / 2 && n % 2 == 1
    ensures WeightRowSum(k, i, n) == (n * n - (n - 1)) as real
  {
    CentreRowPrefix(k, i, n, centro, n);
  }

  lemma {:induction false} CentreRowPrefix(k: Kernel, i: nat, n: nat, centro: nat, m: nat)
    requires k == HighPass(n) && i == centro == n / 2 && n % 2 == 1 && m <= n
    ensures WeightRowSum(k, i, m) == (if centro < m then (n * n + 1 - m) as real else -(m as real))
  {
    if m > 0 {
      CentreRowPrefix(k, i, n, centro, m - 1);
    }
  }

  lemma {:induction false} HighPassRows(k: Kernel, n: nat, centro: nat, m: nat)
    requires k.Shaped() && k.rows == n && k.cols == n && centro < n && m <= n
    requires forall i | 0 <= i < n ::
      WeightRowSum(k, i, n) == if i == centro then (n * n - (n - 1)) as real else -(n as real)
    ensures WeightSumTo(k, m) == if centro < m then (n * n - (n - 1) - (m - 1) * n) as real else -((m * n) as real)
  {
    if m > 0 {
      HighPassRows(k, n, centro, m - 1);
    }
  }

  /** The low-pass weights sum to 1: n * n cells of 1 / (n * n). */
  lemma {:induction false} LowPassSum(n: nat)
    requires n > 0
    ensures WeightSum(LowPass(n)) == 1.0
  {
    var k := LowPass(n);
    var c := 1.0 / (n * n) as real;
    forall i | 0 <= i < n
      ensures WeightRowSum(k, i, n) == n as real * c
    {
      ConstantRowSum(k, i, n, c);
    }
    ConstantRows(k, n, n as real * c, n);
    assert n as real * (n as real * c) == (n * n) as real * c;
  }

  lemma {:induction false} ConstantRows(k: Kernel, n: nat, r: real, m: nat)
    requires k.Shaped() && k.rows == n && m <= n
    requires forall i | 0 <= i < n :: WeightRowSum(k, i, k.cols) == r
    ensures WeightSumTo(k, m) == m as real * r
  {
    if m > 0 {
      ConstantRows(k, n, r, m - 1);
    }
  }

  /** The sharpening weights sum to 1. */
  lemma NitidezSum(tamanho: int)
    ensures WeightSum(CriarKernelNitidez(tamanho)) == 1.0
  {
  }

  /**
   * Every factory yields a kernel `validarKernel` accepts, with weights
   * summing to 1, so convolving a uniform image leaves its inside unchanged.
   */
  lemma {:induction false} FactoriesPreserveUniform(tamanho: int)
    requires tamanho % 2 == 0 || tamanho > 0
    ensures ValidarKernel(HighPass(FactorySize(tamanho))) && WeightSum(HighPass(FactorySize(tamanho))) == 1.0
    ensures ValidarKernel(LowPass(FactorySize(tamanho))) && WeightSum(LowPass(FactorySize(tamanho))) == 1.0
  {
    HighPassSum(FactorySize(tamanho));
    LowPassSum(FactorySize(tamanho));
  }
}
