/**
 * Point operations of ProcessadorImagens: thresholding, channel isolation
 * and inversion.  Each one returns an image of the input's size and type.
 */
module ProcessadorImagens {
  import opened Raster

  /**
   * `(v > limiar) ? static_cast<uchar>(valorMaximo) : 0`.  The cut-off and
   * the maximum are doubles; the cast of the maximum is defined only for
   * values in [0, 256), and it truncates.
   */
  function ThresholdValue(v: int, limiar: real, valorMaximo: real): (t: int)
    requires 0.0 <= valorMaximo < 256.0
    ensures IsByte(t)
    ensures t == 0 || t == valorMaximo.Floor
  {
    if v as real > limiar then valorMaximo.Floor else 0
  }

  /** The result of `aplicarLimiarizacao`. */
  function Thresholded(img: Image, limiar: real, valorMaximo: real): (r: Image)
    requires img.Valid() && 0.0 <= valorMaximo < 256.0
    ensures r.Valid() && r.SameTypeAs(img)
    ensures img.channels != 1 && img.channels != 3 ==> r == img
  {
    if img.channels == 3 then
      img.(data :=
        seq(img.rows, y requires 0 <= y < img.rows =>
          seq(img.cols, x requires 0 <= x < img.cols =>
            var t := ThresholdValue(Luma(img.data[y][x]), limiar, valorMaximo); [t, t, t])))
    else if img.channels == 1 then
      img.(data :=
        seq(img.rows, y requires 0 <= y < img.rows =>
          seq(img.cols, x requires 0 <= x < img.cols =>
            [ThresholdValue(img.data[y][x][0], limiar, valorMaximo)])))
    else img
  }

  /**
   * The threshold is strict: a single-channel pixel becomes the maximum when
   * it is greater than the cut-off and 0 otherwise (a pixel equal to the
   * cut-off gives 0); a colour pixel is decided on its luma and the outcome
   * is written into all three channels.
   */
  lemma {:induction false} ThresholdIsStrict(img: Image, limiar: real, valorMaximo: real, y: nat, x: nat)
    requires img.Valid() && 0.0 <= valorMaximo < 256.0 && y < img.rows && x < img.cols
    requires img.channels == 1 || img.channels == 3
    ensures var v := if img.channels == 1 then img.data[y][x][0] else Luma(img.data[y][x]);
      var p := Thresholded(img, limiar, valorMaximo).data[y][x];
      (forall c | 0 <= c < img.channels :: p[c] == p[0]) &&
      (v as real > limiar ==> p[0] == valorMaximo.Floor) &&
      (v as real <= limiar ==> p[0] == 0)
  {
    assert ValidRow(img.data[y], img.cols, img.channels);
  }

  /** The result of `isolarCanal`: a zero image of the input's type, with channel `canal` copied when it exists. */
  function Isolated(img: Image, canal: int): (r: Image)
    requires img.Valid()
    ensures r.Valid() && r.SameTypeAs(img)
  {
    if img.channels == 3 && 0 <= canal <= 2 then
      img.(data :=
        seq(img.rows, y requires 0 <= y < img.rows =>
          seq(img.cols, x requires 0 <= x < img.cols =>
            seq(3, c requires 0 <= c < 3 => if c == canal then img.data[y][x][c] else 0))))
    else Zeros(img.rows, img.cols, img.channels)
  }

  /**
   * With a colour image and an index 0..2 the chosen channel is kept and the
   * other two are zero; with any other index, or a single-channel image, the
   * result is an all-zero image rather than a copy.
   */
  lemma {:induction false} IsolatedChannels(img: Image, canal: int, y: nat, x: nat, c: nat)
    requires img.Valid() && y < img.rows && x < img.cols && c < img.channels
    ensures img.channels == 3 && 0 <= canal <= 2 && c == canal ==>
      Isolated(img, canal).data[y][x][c] == img.data[y][x][c]
    ensures img.channels == 3 && 0 <= canal <= 2 && c != canal ==> Isolated(img, canal).data[y][x][c] == 0
    ensures !(img.channels == 3 && 0 <= canal <= 2) ==> Isolated(img, canal).data[y][x][c] == 0
  {
  }

  function InvertPixel(p: Pixel): (q: Pixel)
    ensures |q| == |p| && forall c | 0 <= c < |p| :: q[c] == 255 - p[c]
  {
    seq(|p|, c requires 0 <= c < |p| => 255 - p[c])
  }

  /** The result of `inverterImagem`: every channel p becomes 255 - p (1- and 3-channel input). */
  function Inverted(img: Image): (r: Image)
    requires img.Valid()
    ensures r.Valid() && r.SameTypeAs(img)
    ensures img.channels != 1 && img.channels != 3 ==> r == img
  {
    if img.channels == 1 || img.channels == 3 then
      img.(data :=
        seq(img.rows, y requires 0 <= y < img.rows =>
          seq(img.cols, x requires 0 <= x < img.cols => InvertPixel(img.data[y][x]))))
    else img
  }

  /** Inverting twice gives the original image back. */
  lemma {:induction false} InvertedInvolution(img: Image)
    requires img.Valid()
    ensures Inverted(Inverted(img)) == img
  {
    var once := Inverted(img);
    var twice := Inverted(once);
    forall y, x | 0 <= y < img.rows && 0 <= x < img.cols
      ensures twice.data[y][x] == img.data[y][x]
    {
      assert ValidRow(img.data[y], img.cols, img.channels);
      if img.channels == 1 || img.channels == 3 {
        assert twice.data[y][x] == InvertPixel(InvertPixel(img.data[y][x]));
      }
    }
    SameImage(twice, img);
  }

  method AplicarLimiarizacao(imagem: Image, limiar: real, valorMaximo: real) returns (resultado: Image)
    requires imagem.Valid() && 0.0 <= valorMaximo < 256.0
    ensures resultado == Thresholded(imagem, limiar, valorMaximo)
  {
    var data := imagem.data;
    var y := 0;
    while y < imagem.rows
      invariant 0 <= y <= imagem.rows && |data| == imagem.rows
      invariant forall i | 0 <= i < y :: data[i] == Thresholded(imagem, limiar, valorMaximo).data[i]
      invariant forall i | y <= i < imagem.rows :: data[i] == imagem.data[i]
    {
      var row := data[y];
      var x := 0;
      while x < imagem.cols
        invariant 0 <= x <= imagem.cols && |row| == imagem.cols
        invariant forall j | 0 <= j < x :: row[j] == Thresholded(imagem, limiar, valorMaximo).data[y][j]
        invariant forall j | x <= j < imagem.cols :: row[j] == imagem.data[y][j]
      {
        if imagem.channels == 3 {
          var cinza := Luma(imagem.data[y][x]);
          var valor := if cinza as real > limiar then valorMaximo.Floor else 0;
          row := row[x := [valor, valor, valor]];
        } else if imagem.channels == 1 {
          var pixel := imagem.data[y][x][0];
          row := row[x := [if pixel as real > limiar then valorMaximo.Floor else 0]];
        }
        x := x + 1;
      }
      data := data[y := row];
      y := y + 1;
    }
    resultado := imagem.(data := data);
  }

  method IsolarCanal(imagem: Image, canal: int) returns (resultado: Image)
    requires imagem.Valid()
    ensures resultado == Isolated(imagem, canal)
  {
    resultado := Zeros(imagem.rows, imagem.cols, imagem.channels);
    if imagem.channels == 3 && 0 <= canal <= 2 {
      var data := resultado.data;
      var y := 0;
      while y < imagem.rows
        invariant 0 <= y <= imagem.rows && |data| == imagem.rows
        invariant forall i | 0 <= i < y :: data[i] == Isolated(imagem, canal).data[i]
        invariant forall i | y <= i < imagem.rows :: data[i] == ZeroRow(imagem.cols, 3)
      {
        var row := data[y];
        var x := 0;
        while x < imagem.cols
          invariant 0 <= x <= imagem.cols && |row| == imagem.cols
          invariant forall j | 0 <= j < x :: row[j] == Isolated(imagem, canal).data[y][j]
        {
          var pixel := imagem.data[y][x];
          var novoPixel := [0, 0, 0];
          novoPixel := novoPixel[canal := pixel[canal]];
          row := row[x := novoPixel];
          x := x + 1;
        }
        data := data[y := row];
        y := y + 1;
      }
      resultado := resultado.(data := data);
    }
  }

  method InverterImagem(imagem: Image) returns (resultado: Image)
    requires imagem.Valid()
    ensures resultado == Inverted(imagem)
  {
    var data := imagem.data;
    var y := 0;
    while y < imagem.rows
      invariant 0 <= y <= imagem.rows && |data| == imagem.rows
      invariant forall i | 0 <= i < y :: data[i] == Inverted(imagem).data[i]
      invariant forall i | y <= i < imagem.rows :: data[i] == imagem.data[i]
    {
      var row := data[y];
      var x := 0;
      while x < imagem.cols
        invariant 0 <= x <= imagem.cols && |row| == imagem.cols
        invariant forall j | 0 <= j < x :: row[j] == Inverted(imagem).data[y][j]
        invariant forall j | x <= j < imagem.cols :: row[j] == imagem.data[y][j]
      {
        if imagem.channels == 3 {
          var pixel := imagem.data[y][x];
          row := row[x := [255 - pixel[0], 255 - pixel[1], 255 - pixel[2]]];
        } else if imagem.channels == 1 {
          row := row[x := [255 - imagem.data[y][x][0]]];
        }
        x := x + 1;
      }
      data := data[y := row];
      y := y + 1;
    }
    resultado := imagem.(data := data);
  }
}
