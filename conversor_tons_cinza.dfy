/**
 * Grey-scale conversion of a colour image (ConversorTonsCinza).  Both
 * converters clone the input and, only when it has three channels, overwrite
 * every pixel with one grey value replicated into the three channels; any
 * other input comes back unchanged.
 */
module ConversorTonsCinza {
  import opened Raster

  /**
   * The truncated arithmetic mean of the three channels, as
   * `(pixel[0] + pixel[1] + pixel[2]) / 3` computes it on non-negative ints.
   */
  function Average(p: Pixel): (m: int)
    requires ValidPixel(p, 3)
    ensures Min(p[0], Min(p[1], p[2])) <= m <= Max(p[0], Max(p[1], p[2]))
    ensures 3 * m <= p[0] + p[1] + p[2] < 3 * m + 3
  {
    (p[0] + p[1] + p[2]) / 3
  }

  /** The result of `paraMediaAritmetica`. */
  function AverageGray(img: Image): (r: Image)
    requires img.Valid()
    ensures r.Valid() && r.SameTypeAs(img)
    ensures img.channels != 3 ==> r == img
  {
    if img.channels != 3 then img
    else img.(data :=
      seq(img.rows, y requires 0 <= y < img.rows =>
        seq(img.cols, x requires 0 <= x < img.cols =>
          var m := Average(img.data[y][x]); [m, m, m])))
  }

  /** The result of `paraMediaPonderada`. */
  function WeightedGray(img: Image): (r: Image)
    requires img.Valid()
    ensures r.Valid() && r.SameTypeAs(img)
    ensures img.channels != 3 ==> r == img
  {
    if img.channels != 3 then img
    else img.(data :=
      seq(img.rows, y requires 0 <= y < img.rows =>
        seq(img.cols, x requires 0 <= x < img.cols =>
          var l := Luma(img.data[y][x]); [l, l, l])))
  }

  /**
   * On a colour image every pixel of both converters is grey: its three
   * channels are equal, and equal to the mean (resp. the luma) of the
   * original pixel, which lies between its darkest and brightest channel.
   */
  lemma {:induction false} GrayPixels(img: Image, y: nat, x: nat)
    requires img.Valid() && img.channels == 3 && y < img.rows && x < img.cols
    ensures var p, q := AverageGray(img).data[y][x], img.data[y][x];
      p[0] == p[1] == p[2] == Average(q) &&
      Min(q[0], Min(q[1], q[2])) <= p[0] <= Max(q[0], Max(q[1], q[2]))
    ensures var p, q := WeightedGray(img).data[y][x], img.data[y][x];
      p[0] == p[1] == p[2] == Luma(q) &&
      Min(q[0], Min(q[1], q[2])) <= p[0] <= Max(q[0], Max(q[1], q[2]))
  {
    assert ValidRow(img.data[y], img.cols, 3);
  }

  /** Converting an already grey image again changes nothing (average policy). */
  lemma {:induction false} AverageGrayIdempotent(img: Image)
    requires img.Valid()
    ensures AverageGray(AverageGray(img)) == AverageGray(img)
  {
    var g := AverageGray(img);
    if img.channels == 3 {
      forall y, x | 0 <= y < img.rows && 0 <= x < img.cols
        ensures AverageGray(g).data[y][x] == g.data[y][x]
      {
        assert ValidRow(g.data[y], g.cols, 3);
        var m := g.data[y][x][0];
        assert g.data[y][x] == [m, m, m];
      }
      SameImage(AverageGray(g), g);
    }
  }

  method ParaMediaAritmetica(imagemColorida: Image) returns (resultado: Image)
    requires imagemColorida.Valid()
    ensures resultado == AverageGray(imagemColorida)
  {
    var img := imagemColorida;
    var data := img.data;
    var y := 0;
    while y < img.rows
      invariant 0 <= y <= img.rows && |data| == img.rows
      invariant forall i | 0 <= i < y :: data[i] == AverageGray(img).data[i]
      invariant forall i | y <= i < img.rows :: data[i] == img.data[i]
    {
      var row := data[y];
      var x := 0;
      while x < img.cols
        invariant 0 <= x <= img.cols && |row| == img.cols
        invariant forall j | 0 <= j < x :: row[j] == AverageGray(img).data[y][j]
        invariant forall j | x <= j < img.cols :: row[j] == img.data[y][j]
      {
        if img.channels == 3 {
          var pixel := img.data[y][x];
          var media := (pixel[0] + pixel[1] + pixel[2]) / 3;
          row := row[x := [media, media, media]];
        }
        x := x + 1;
      }
      data := data[y := row];
      y := y + 1;
    }
    resultado := img.(data := data);
  }

  method ParaMediaPonderada(imagemColorida: Image) returns (resultado: Image)
    requires imagemColorida.Valid()
    ensures resultado == WeightedGray(imagemColorida)
  {
    var img := imagemColorida;
    var data := img.data;
    var y := 0;
    while y < img.rows
      invariant 0 <= y <= img.rows && |data| == img.rows
      invariant forall i | 0 <= i < y :: data[i] == WeightedGray(img).data[i]
      invariant forall i | y <= i < img.rows :: data[i] == img.data[i]
    {
      var row := data[y];
      var x := 0;
      while x < img.cols
        invariant 0 <= x <= img.cols && |row| == img.cols
        invariant forall j | 0 <= j < x :: row[j] == WeightedGray(img).data[y][j]
        invariant forall j | x <= j < img.cols :: row[j] == img.data[y][j]
      {
        if img.channels == 3 {
          var mediaPonderada := Luma(img.data[y][x]);
          row := row[x := [mediaPonderada, mediaPonderada, mediaPonderada]];
        }
        x := x + 1;
      }
      data := data[y := row];
      y := y + 1;
    }
    resultado := img.(data := data);
  }
}
