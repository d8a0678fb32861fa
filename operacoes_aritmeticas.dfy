/**
 * Saturating arithmetic of OperacoesAritmeticas: a scalar applied to every
 * channel of a 1- or 3-channel image, and two colour images combined
 * channel by channel over the region they share.
 */
module OperacoesAritmeticas {
  import opened Raster

  /** `saturate`: clamps an int into the range of a byte. */
  function Saturate(v: int): (r: int)
    ensures IsByte(r)
    ensures IsByte(v) ==> r == v
    ensures v < 0 ==> r == 0
    ensures v > 255 ==> r == 255
  {
    Max(0, Min(255, v))
  }

  /** Saturation is monotone, so it never reorders two values. */
  lemma SaturateMonotone(a: int, b: int)
    requires a <= b
    ensures Saturate(a) <= Saturate(b)
  {
  }

  /** The scalar operations; the scalar is a double in the source, a real here. */
  datatype ScalarOp = Add | Subtract | Multiply | Divide

  /**
   * One channel of `somarEscalar`, `subtrairEscalar`, `multiplicarEscalar`
   * or `dividirEscalar`: the sum and difference use the scalar truncated
   * toward zero, the product and quotient are truncated after the real
   * operation, and the outcome is saturated.
   */
  function ScalarChannel(op: ScalarOp, p: int, valor: real): (r: int)
    requires IsByte(p) && (op == Divide ==> valor != 0.0)
    ensures IsByte(r)
  {
    match op
    case Add => Saturate(p + Trunc(valor))
    case Subtract => Saturate(p - Trunc(valor))
    case Multiply => Saturate(Trunc(p as real * valor))
    case Divide => Saturate(Trunc(p as real / valor))
  }

  /**
   * The image every scalar operation returns: a clone of the input whose
   * channels are all rewritten when it has 1 or 3 channels.  Division by
   * zero is reported and returns the unchanged clone.
   */
  function ScalarImage(img: Image, op: ScalarOp, valor: real): (r: Image)
    requires img.Valid()
    ensures r.Valid() && r.SameTypeAs(img)
    ensures (img.channels != 1 && img.channels != 3) || (op == Divide && valor == 0.0) ==> r == img
  {
    if (img.channels != 1 && img.channels != 3) || (op == Divide && valor == 0.0) then img
    else img.(data :=
      seq(img.rows, y requires 0 <= y < img.rows =>
        seq(img.cols, x requires 0 <= x < img.cols =>
          seq(img.channels, c requires 0 <= c < img.channels => ScalarChannel(op, img.data[y][x][c], valor)))))
  }

  /**
   * The loop shared by the four scalar operations: clone the input, then
   * rewrite channel by channel.
   */
  method ApplyScalar(imagem: Image, op: ScalarOp, valor: real) returns (resultado: Image)
    requires imagem.Valid() && (op == Divide ==> valor != 0.0)
    ensures resultado == ScalarImage(imagem, op, valor)
  {
    var data := imagem.data;
    var y := 0;
    while y < imagem.rows
      invariant 0 <= y <= imagem.rows && |data| == imagem.rows
      invariant forall i | 0 <= i < y :: data[i] == ScalarImage(imagem, op, valor).data[i]
      invariant forall i | y <= i < imagem.rows :: data[i] == imagem.data[i]
    {
      var row := data[y];
      var x := 0;
      while x < imagem.cols
        invariant 0 <= x <= imagem.cols && |row| == imagem.cols
        invariant forall j | 0 <= j < x :: row[j] == ScalarImage(imagem, op, valor).data[y][j]
        invariant forall j | x <= j < imagem.cols :: row[j] == imagem.data[y][j]
      {
        if imagem.channels == 3 {
          var pixel := imagem.data[y][x];
          var c := 0;
          while c < 3
            invariant 0 <= c <= 3 && |pixel| == 3
            invariant forall k | 0 <= k < c :: pixel[k] == ScalarChannel(op, imagem.data[y][x][k], valor)
            invariant forall k | c <= k < 3 :: pixel[k] == imagem.data[y][x][k]
          {
            pixel := pixel[c := ScalarChannel(op, imagem.data[y][x][c], valor)];
            c := c + 1;
          }
          row := row[x := pixel];
        } else if imagem.channels == 1 {
          row := row[x := [ScalarChannel(op, imagem.data[y][x][0], valor)]];
        }
        x := x + 1;
      }
      data := data[y := row];
      y := y + 1;
    }
    resultado := imagem.(data := data);
  }

  method SomarEscalar(imagem: Image, valor: real) returns (resultado: Image)
    requires imagem.Valid()
    ensures resultado == ScalarImage(imagem, Add, valor)
  {
    resultado := ApplyScalar(imagem, Add, valor);
  }

  method SubtrairEscalar(imagem: Image, valor: real) returns (resultado: Image)
    requires imagem.Valid()
    ensures resultado == ScalarImage(imagem, Subtract, valor)
  {
    resultado := ApplyScalar(imagem, Subtract, valor);
  }

  method MultiplicarEscalar(imagem: Image, valor: real) returns (resultado: Image)
    requires imagem.Valid()
    ensures resultado == ScalarImage(imagem, Multiply, valor)
  {
    resultado := ApplyScalar(imagem, Multiply, valor);
  }

  method DividirEscalar(imagem: Image, valor: real) returns (resultado: Image)
    requires imagem.Valid()
    ensures resultado == ScalarImage(imagem, Divide, valor)
    ensures valor == 0.0 ==> resultado == imagem
  {
    if valor == 0.0 {
      // division by zero: the error is reported and the clone returned
      return imagem;
    }
    resultado := ApplyScalar(imagem, Divide, valor);
  }

  /**
   * Adding a scalar saturates instead of wrapping: each channel of the
   * result is p + trunc(valor) clamped into [0, 255] (250 plus 10 gives 255,
   * 5 minus 10 gives 0); subtraction is the same with the scalar negated.
   */
  lemma {:induction false} ScalarAddSubSaturate(img: Image, valor: real, y: nat, x: nat, c: nat)
    requires img.Valid() && (img.channels == 1 || img.channels == 3)
    requires y < img.rows && x < img.cols && c < img.channels
    ensures var p, v := img.data[y][x][c], Trunc(valor);
      var q := ScalarImage(img, Add, valor).data[y][x][c];
      (p + v > 255 ==> q == 255) && (p + v < 0 ==> q == 0) && (IsByte(p + v) ==> q == p + v)
    ensures var p, v := img.data[y][x][c], Trunc(valor);
      ScalarImage(img, Subtract, valor).data[y][x][c] == ScalarImage(img, Add, -(v as real)).data[y][x][c]
  {
    assert ValidRow(img.data[y], img.cols, img.channels);
  }

  /**
   * With a positive whole scalar the real quotient truncated toward zero is
   * integer division, and the real product is the integer product.
   */
  lemma {:induction false} WholeScalarIsIntegerArithmetic(p: int, d: int)
    requires IsByte(p) && d >= 1
    ensures ScalarChannel(Divide, p, d as real) == Saturate(p / d)
    ensures ScalarChannel(Multiply, p, d as real) == Saturate(p * d)
  {
    FloorOfQuotient(p, d);
    CastProduct(p, d);
  }

  /** Real division of naturals, floored, is integer division. */
  lemma {:induction false} FloorOfQuotient(p: nat, d: int)
    requires d >= 1
    ensures (p as real / d as real).Floor == p / d
  {
    var q := p / d;
    var r := p as real / d as real;
    assert r * d as real == p as real;
    CastProduct(q, d);
    CastProduct(q + 1, d);
    assert (q as real) * (d as real) <= p as real < (q as real + 1.0) * (d as real);
    if r >= q as real + 1.0 {
      RealScaleMonotone(q as real + 1.0, r, d as real);
    }
    if r < q as real {
      RealScaleStrict(r, q as real, d as real);
    }
  }

  /** The operations that combine two images. */
  datatype ImageOp = AddImages | SubtractImages | MultiplyImages | DivideImages

  /** One channel of `somarImagens`, `subtrairImagens`, `multiplicarImagens` or `dividirImagens`. */
  function ImageChannel(op: ImageOp, a: int, b: int): (r: int)
    requires IsByte(a) && IsByte(b)
    ensures IsByte(r)
  {
    match op
    case AddImages => Saturate(a + b)
    case SubtractImages => Saturate(a - b)
    case MultiplyImages => Saturate((a * b) / 255)
    case DivideImages => if b == 0 then 255 else Saturate((a * 255) / b)
  }

  /**
   * The result of the inter-image operations: an image of the first
   * operand's type whose size is the overlap of the two, combined channel
   * by channel.  The source writes pixels only when both operands have three
   * channels and otherwise returns an uninitialised matrix, so both are
   * required to be colour images.
   */
  function CombinedImage(img1: Image, img2: Image, op: ImageOp): (r: Image)
    requires img1.Valid() && img2.Valid() && img1.channels == 3 && img2.channels == 3
    ensures r.Valid() && r.channels == 3
    ensures r.rows == Min(img1.rows, img2.rows) && r.cols == Min(img1.cols, img2.cols)
  {
    var altura := Min(img1.rows, img2.rows);
    var largura := Min(img1.cols, img2.cols);
    Image(altura, largura, 3,
      seq(altura, y requires 0 <= y < altura =>
        seq(largura, x requires 0 <= x < largura =>
          seq(3, c requires 0 <= c < 3 => ImageChannel(op, img1.data[y][x][c], img2.data[y][x][c])))))
  }

  /** The loop shared by the four inter-image operations. */
  method ApplyImages(img1: Image, img2: Image, op: ImageOp) returns (resultado: Image)
    requires img1.Valid() && img2.Valid() && img1.channels == 3 && img2.channels == 3
    ensures resultado == CombinedImage(img1, img2, op)
  {
    var altura := Min(img1.rows, img2.rows);
    var largura := Min(img1.cols, img2.cols);
    var data := Zeros(altura, largura, 3).data;
    var y := 0;
    while y < altura
      invariant 0 <= y <= altura && |data| == altura
      invariant forall i | 0 <= i < y :: data[i] == CombinedImage(img1, img2, op).data[i]
      invariant forall i | y <= i < altura :: |data[i]| == largura
    {
      var row := data[y];
      var x := 0;
      while x < largura
        invariant 0 <= x <= largura && |row| == largura
        invariant forall j | 0 <= j < x :: row[j] == CombinedImage(img1, img2, op).data[y][j]
      {
        var pixel1 := img1.data[y][x];
        var pixel2 := img2.data[y][x];
        var pixel := [0, 0, 0];
        var c := 0;
        while c < 3
          invariant 0 <= c <= 3 && |pixel| == 3
          invariant forall k | 0 <= k < c :: pixel[k] == ImageChannel(op, pixel1[k], pixel2[k])
        {
          pixel := pixel[c := ImageChannel(op, pixel1[c], pixel2[c])];
          c := c + 1;
        }
        row := row[x := pixel];
        x := x + 1;
      }
      data := data[y := row];
      y := y + 1;
    }
    resultado := Image(altura, largura, 3, data);
  }

  method SomarImagens(img1: Image, img2: Image) returns (resultado: Image)
    requires img1.Valid() && img2.Valid() && img1.channels == 3 && img2.channels == 3
    ensures resultado == CombinedImage(img1, img2, AddImages)
  {
    resultado := ApplyImages(img1, img2, AddImages);
  }

  method SubtrairImagens(img1: Image, img2: Image) returns (resultado: Image)
    requires img1.Valid() && img2.Valid() && img1.channels == 3 && img2.channels == 3
    ensures resultado == CombinedImage(img1, img2, SubtractImages)
  {
    resultado := ApplyImages(img1, img2, SubtractImages);
  }

  method MultiplicarImagens(img1: Image, img2: Image) returns (resultado: Image)
    requires img1.Valid() && img2.Valid() && img1.channels == 3 && img2.channels == 3
    ensures resultado == CombinedImage(img1, img2, MultiplyImages)
  {
    resultado := ApplyImages(img1, img2, MultiplyImages);
  }

  method DividirImagens(img1: Image, img2: Image) returns (resultado: Image)
    requires img1.Valid() && img2.Valid() && img1.channels == 3 && img2.channels == 3
    ensures resultado == CombinedImage(img1, img2, DivideImages)
  {
    resultado := ApplyImages(img1, img2, DivideImages);
  }

  /** Addition and multiplication of images do not depend on the operand order. */
  lemma {:induction false} CombineCommutes(img1: Image, img2: Image, op: ImageOp)
    requires img1.Valid() && img2.Valid() && img1.channels == 3 && img2.channels == 3
    requires op == AddImages || op == MultiplyImages
    ensures CombinedImage(img1, img2, op) == CombinedImage(img2, img1, op)
  {
    var r, s := CombinedImage(img1, img2, op), CombinedImage(img2, img1, op);
    forall y, x | 0 <= y < r.rows && 0 <= x < r.cols
      ensures r.data[y][x] == s.data[y][x]
    {
      assert ValidRow(img1.data[y], img1.cols, 3) && ValidRow(img2.data[y], img2.cols, 3);
      forall c | 0 <= c < 3 ensures r.data[y][x][c] == s.data[y][x][c] {
        var a, b := img1.data[y][x][c], img2.data[y][x][c];
        assert a * b == b * a;
      }
    }
    SameImage(r, s);
  }

  /** A difference is 0 whenever the subtrahend is at least the minuend. */
  lemma SubtractFloorsAtZero(a: int, b: int)
    requires IsByte(a) && IsByte(b) && b >= a
    ensures ImageChannel(SubtractImages, a, b) == 0
  {
  }

  /** The normalised product `a * b / 255` never exceeds either factor. */
  lemma {:induction false} MultiplyBelowFactors(a: int, b: int)
    requires IsByte(a) && IsByte(b)
    ensures ImageChannel(MultiplyImages, a, b) <= Min(a, b)
  {
    var n := a * b;
    ProductBound(a, b);
    ProductBound(b, a);
    assert n <= 255 * b && n <= 255 * a && n >= 0;
    var q := n / 255;
    assert q * 255 <= n;
  }

  /** A byte times a non-negative m is at most 255 m. */
  lemma ProductBound(a: int, m: int)
    requires IsByte(a) && m >= 0
    ensures 0 <= a * m <= 255 * m
  {
  }

  /** A quotient is 255 when the denominator is 0 or not greater than the numerator. */
  lemma {:induction false} DivideSaturates(a: int, b: int)
    requires IsByte(a) && IsByte(b) && (b == 0 || a >= b)
    ensures ImageChannel(DivideImages, a, b) == 255
  {
    if b != 0 {
      var n := a * 255;
      assert n >= 255 * b;
      var q := n / b;
      assert q * b <= n < q * b + b;
      if q < 255 {
        ScaleMonotone(q, 254, b);
        assert false;
      }
    }
  }

  lemma ScaleMonotone(p: int, q: int, m: int)
    requires p <= q && m >= 0
    ensures p * m <= q * m
  {
  }
}
