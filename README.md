# ImageAlchemy pixel layer in Dafny

ImageAlchemy is a small C++/OpenCV image-processing toolkit. Its core is a set
of static classes. Each one takes an 8-bit image (`cv::Mat`, one or three
`uchar` channels) and returns a new image, a kernel or a histogram:

- `ConversorTonsCinza`: grey-scale conversion.
- `ProcessadorImagens`: threshold, channel isolation and negative.
- `OperacoesAritmeticas`: saturating arithmetic with a scalar or a second image.
- `OperacoesConvolucao`: convolution with real kernels, and the kernel factories.
- `DetectorBordas`: Roberts, Sobel and Robinson edge detectors.
- `MorfologiaMatematica`: binary morphology with a structuring element.
- `ProcessadorHistogramas`: histograms, equalisation and drawing.
- `Operation`: a second, partly different implementation of the same operations.

Every operation is static, reads its input and builds a fresh result. So an
image is modelled as a value:

- `Raster.Image(rows, cols, channels, data)` is the image.
- `data[y][x]` is the pixel at row `y`, column `x`.
- A pixel is a sequence of `channels` bytes.

There is one Dafny module per source class, plus `Raster`. `Raster` holds the
image type and the conversions that several classes share:

- the `uchar` store;
- truncation of a `double`;
- the clamp to `[0, 255]`;
- the weighted luma;
- the grey plane;
- the binarisation.

Each source function has two Dafny halves:

1. A specification function. It describes the result pixel by pixel.
2. A `method` with the same loops as the source. It is proved to return exactly
   what the specification function describes.

The properties the code relies on are lemmas about the specification functions.
Examples:

- inversion and averaging are idempotent or involutive;
- erosion and dilation are dual;
- opening shrinks and closing grows;
- an image whose pixels are all equal, grey or colour, has no edges;
- the Robinson response dominates the Sobel components;
- the equalisation table is monotone, maps the darkest present value to 0 and the brightest to 255;
- the two implementations agree where they should, and where they do not, the model gives the input that separates them.

## Model

| member | source | states |
|---|---|---|
| Raster.Zeros | pdi_code/src/MorfologiaMatematica.cpp:9 | `cv::Mat::zeros`: a valid image of the requested shape whose every pixel is all zero |
| Raster.SameImage | pdi_code/src/ProcessadorImagens.cpp:4 | extensionality: two valid images of one type that agree on every pixel are the same image (what makes a `clone()` followed by overwriting every pixel equal to the specification) |
| Raster.ClampToByte | pdi_code/src/DetectorBordas.cpp:214-223 | `normalizar`/`tratarOverflow`: 255 above 255, 0 below 0, otherwise the largest byte not above the value |
| Raster.ClampByte | pdi_code/src/OperacoesConvolucao.cpp:134-142 | storing a value that is already a byte through the clamp leaves it unchanged |
| Raster.Uchar | pdi_code/src/Operation.cpp:115 | the implicit `int` to `uchar` store: a byte congruent to the value modulo 256, and the value itself when it is already a byte |
| Raster.Trunc | pdi_code/src/Operation.cpp:114 | `double` to `int` conversion truncates toward zero: the floor for non-negative values, the ceiling for negative ones |
| Raster.Luma | pdi_code/src/DetectorBordas.cpp:199-202 | the weighted grey of a BGR pixel (0.114 B + 0.587 G + 0.299 R truncated) is a byte that lies between the pixel's smallest and largest channel |
| Raster.GrayPlane | pdi_code/src/DetectorBordas.cpp:190-207 | `converterParaCinza`: a one-channel image of the same size; the input itself when it already has one channel, otherwise the luma of each pixel |
| Raster.LumaPlane | pdi_code/src/DetectorBordas.cpp:195-206 | the conversion loop over a three-channel image returns exactly the grey plane |
| Raster.At | pdi_code/src/MorfologiaMatematica.cpp:186 | `imagem.at<uchar>(y, x)` on a one-channel image is a byte and is the pixel's only channel |
| Raster.Binarized | pdi_code/src/MorfologiaMatematica.cpp:166-172 | thresholding a grey plane yields a binary image with 255 exactly where the pixel is above the threshold and 0 exactly where it is not |
| Raster.BinarizedIdempotent | pdi_code/src/MorfologiaMatematica.cpp:166-172 | thresholding an image that is already binary, with any threshold in [0, 255), gives it back unchanged |
| ConversorTonsCinza.Average | pdi_code/src/ConversorTonsCinza.cpp:10 | the integer mean of three bytes is the floor of their sum over three and lies between their minimum and maximum |
| ConversorTonsCinza.AverageGray | pdi_code/src/ConversorTonsCinza.cpp:3-16 | the averaged image keeps the input's shape and type and is the input itself unless it has three channels |
| ConversorTonsCinza.WeightedGray | pdi_code/src/ConversorTonsCinza.cpp:18-32 | the weighted image keeps the input's shape and type and is the input itself unless it has three channels |
| ConversorTonsCinza.GrayPixels | pdi_code/src/ConversorTonsCinza.cpp:8-12 | on a colour image both conversions write one grey value into all three channels, equal to the mean (respectively the luma) of the source pixel and bounded by its channels |
| ConversorTonsCinza.AverageGrayIdempotent | pdi_code/src/ConversorTonsCinza.cpp:3-16 | converting an already averaged image again changes nothing |
| ConversorTonsCinza.ParaMediaAritmetica | pdi_code/src/ConversorTonsCinza.cpp:3-16 | the loop returns exactly the averaged image |
| ConversorTonsCinza.ParaMediaPonderada | pdi_code/src/ConversorTonsCinza.cpp:18-32 | the loop returns exactly the weighted-grey image |
| ProcessadorImagens.ThresholdValue | pdi_code/src/ProcessadorImagens.cpp:12 | a thresholded value is a byte, either 0 or the truncated maximum |
| ProcessadorImagens.Thresholded | pdi_code/src/ProcessadorImagens.cpp:3-21 | the result has the input's shape and type; images with neither one nor three channels come back unchanged |
| ProcessadorImagens.ThresholdIsStrict | pdi_code/src/ProcessadorImagens.cpp:8-17 | every channel of a result pixel is the same value, the truncated maximum when the (grey) input is strictly above the threshold and 0 otherwise |
| ProcessadorImagens.Isolated | pdi_code/src/ProcessadorImagens.cpp:23-37 | the result has the input's shape and type |
| ProcessadorImagens.IsolatedChannels | pdi_code/src/ProcessadorImagens.cpp:24-35 | on a colour image with a channel index in 0..2 the chosen channel is copied and the others are 0; in every other case the whole result is 0 |
| ProcessadorImagens.InvertPixel | pdi_code/src/ProcessadorImagens.cpp:46 | every channel becomes 255 minus itself |
| ProcessadorImagens.Inverted | pdi_code/src/ProcessadorImagens.cpp:39-53 | the negative keeps shape and type; images with neither one nor three channels come back unchanged |
| ProcessadorImagens.InvertedInvolution | pdi_code/src/ProcessadorImagens.cpp:39-53 | taking the negative twice gives the original image |
| ProcessadorImagens.AplicarLimiarizacao | pdi_code/src/ProcessadorImagens.cpp:3-21 | the loop returns exactly the thresholded image |
| ProcessadorImagens.IsolarCanal | pdi_code/src/ProcessadorImagens.cpp:23-37 | the loop returns exactly the isolated-channel image |
| ProcessadorImagens.InverterImagem | pdi_code/src/ProcessadorImagens.cpp:39-53 | the loop returns exactly the negative |
| OperacoesAritmeticas.Saturate | pdi_code/src/OperacoesAritmeticas.cpp:5-7 | the result is a byte: 0 below 0, 255 above 255, the value itself in between |
| OperacoesAritmeticas.SaturateMonotone | pdi_code/src/OperacoesAritmeticas.cpp:5-7 | saturation preserves order |
| OperacoesAritmeticas.ScalarChannel | pdi_code/src/OperacoesAritmeticas.cpp:17-18 | every scalar operation on a channel stores a byte |
| OperacoesAritmeticas.ScalarImage | pdi_code/src/OperacoesAritmeticas.cpp:9-92 | the result keeps shape and type; it is the input unchanged for images with neither one nor three channels and for division by zero |
| OperacoesAritmeticas.ApplyScalar | pdi_code/src/OperacoesAritmeticas.cpp:12-25 | the shared pixel loop returns exactly the scalar image |
| OperacoesAritmeticas.SomarEscalar | pdi_code/src/OperacoesAritmeticas.cpp:9-27 | returns exactly the image with the scalar added |
| OperacoesAritmeticas.SubtrairEscalar | pdi_code/src/OperacoesAritmeticas.cpp:29-47 | returns exactly the image with the scalar subtracted |
| OperacoesAritmeticas.MultiplicarEscalar | pdi_code/src/OperacoesAritmeticas.cpp:49-67 | returns exactly the image multiplied by the scalar |
| OperacoesAritmeticas.DividirEscalar | pdi_code/src/OperacoesAritmeticas.cpp:69-92 | returns exactly the divided image, and the untouched input when the divisor is zero |
| OperacoesAritmeticas.ScalarAddSubSaturate | pdi_code/src/OperacoesAritmeticas.cpp:17-18 | adding saturates at 255 and at 0 and is exact in between; subtracting a scalar is adding its truncated negation |
| OperacoesAritmeticas.WholeScalarIsIntegerArithmetic | pdi_code/src/OperacoesAritmeticas.cpp:57-86 | with a whole positive scalar, multiplying and dividing in `double` give the saturated integer product and quotient |
| OperacoesAritmeticas.FloorOfQuotient | pdi_code/src/OperacoesAritmeticas.cpp:82 | truncating a real quotient of naturals gives the integer quotient |
| OperacoesAritmeticas.ImageChannel | pdi_code/src/OperacoesAritmeticas.cpp:105-106 | every image operation on a pair of channels stores a byte |
| OperacoesAritmeticas.CombinedImage | pdi_code/src/OperacoesAritmeticas.cpp:94-176 | the result is a valid colour image over the common rectangle of the two inputs |
| OperacoesAritmeticas.ApplyImages | pdi_code/src/OperacoesAritmeticas.cpp:99-110 | the shared pixel loop returns exactly the combined image |
| OperacoesAritmeticas.SomarImagens | pdi_code/src/OperacoesAritmeticas.cpp:94-112 | returns exactly the saturated sum |
| OperacoesAritmeticas.SubtrairImagens | pdi_code/src/OperacoesAritmeticas.cpp:114-132 | returns exactly the saturated difference |
| OperacoesAritmeticas.MultiplicarImagens | pdi_code/src/OperacoesAritmeticas.cpp:134-152 | returns exactly the scaled product |
| OperacoesAritmeticas.DividirImagens | pdi_code/src/OperacoesAritmeticas.cpp:154-176 | returns exactly the scaled quotient |
| OperacoesAritmeticas.CombineCommutes | pdi_code/src/OperacoesAritmeticas.cpp:94-152 | adding and multiplying images are symmetric in their two arguments |
| OperacoesAritmeticas.SubtractFloorsAtZero | pdi_code/src/OperacoesAritmeticas.cpp:125-126 | subtracting a brighter or equal channel gives 0 |
| OperacoesAritmeticas.MultiplyBelowFactors | pdi_code/src/OperacoesAritmeticas.cpp:145-146 | the scaled product never exceeds either factor (multiplying darkens) |
| OperacoesAritmeticas.DivideSaturates | pdi_code/src/OperacoesAritmeticas.cpp:165-169 | dividing by zero or by a channel no brighter than the numerator gives white |
| OperacoesConvolucao.ValidarKernel | pdi_code/src/OperacoesConvolucao.cpp:115-132 | a kernel is accepted exactly when it is square with an odd side; the emptiness test never decides the result |
| OperacoesConvolucao.Convolved | pdi_code/src/OperacoesConvolucao.cpp:5-57 | an invalid kernel returns the input unchanged; a valid one returns a one-channel image of the input's size |
| OperacoesConvolucao.ConvolvedPlane | pdi_code/src/OperacoesConvolucao.cpp:29-54 | the convolved grey plane has every pixel given by the window rule |
| OperacoesConvolucao.OutputPixel | pdi_code/src/OperacoesConvolucao.cpp:35-53 | every output pixel is a single byte |
| OperacoesConvolucao.ConvolvedPixel | pdi_code/src/OperacoesConvolucao.cpp:29-53 | a pixel whose window leaves the image is 0; every other pixel is the clamped weighted sum of its window on the grey plane |
| OperacoesConvolucao.UniformRowSum | pdi_code/src/OperacoesConvolucao.cpp:41-48 | over a uniform image, each kernel row contributes the grey value times the row's weight |
| OperacoesConvolucao.UniformWindowSum | pdi_code/src/OperacoesConvolucao.cpp:40-49 | over a uniform image, the window sum is the grey value times the kernel's total weight |
| OperacoesConvolucao.UniformInterior | pdi_code/src/OperacoesConvolucao.cpp:35-53 | a kernel with weights summing to 1 leaves a uniform image's interior unchanged; one summing to 0 makes it black |
| OperacoesConvolucao.SomaJanela | pdi_code/src/OperacoesConvolucao.cpp:37-49 | the accumulation loop returns the weighted sum of the window centred on the pixel |
| OperacoesConvolucao.ConvolverLinha | pdi_code/src/OperacoesConvolucao.cpp:36-53 | the loop over the interior of a row returns the specified output row |
| OperacoesConvolucao.ConvolverPlano | pdi_code/src/OperacoesConvolucao.cpp:29-54 | the loop over the rows returns exactly the convolved plane |
| OperacoesConvolucao.AplicarConvolucao | pdi_code/src/OperacoesConvolucao.cpp:5-57 | the whole operation returns exactly the convolved image |
| OperacoesConvolucao.Tabulate | pdi_code/src/OperacoesConvolucao.cpp:65-73 | a kernel filled cell by cell: square of the requested size, each cell given by the rule |
| OperacoesConvolucao.HighPass | pdi_code/src/OperacoesConvolucao.cpp:65-78 | the high-pass kernel is square of the requested size |
| OperacoesConvolucao.LowPass | pdi_code/src/OperacoesConvolucao.cpp:88-97 | the mean kernel is square of the requested size |
| OperacoesConvolucao.CriarKernelPassaAlta | pdi_code/src/OperacoesConvolucao.cpp:59-79 | the loops build the high-pass kernel of the size after an even size is replaced by 3 |
| OperacoesConvolucao.CriarKernelPassaBaixa | pdi_code/src/OperacoesConvolucao.cpp:81-98 | the loops build the mean kernel of the size after an even size is replaced by 3 |
| OperacoesConvolucao.CriarKernelNitidez | pdi_code/src/OperacoesConvolucao.cpp:100-113 | whatever size is asked for, the sharpening kernel is a valid 3x3 kernel |
| OperacoesConvolucao.HighPassSum | pdi_code/src/OperacoesConvolucao.cpp:69-76 | an odd high-pass kernel (n*n at the centre, -1 elsewhere) has weights summing to 1 |
| OperacoesConvolucao.CentreRowSum | pdi_code/src/OperacoesConvolucao.cpp:76 | the centre row of the high-pass kernel sums to n*n - (n - 1) |
| OperacoesConvolucao.HighPassRows | pdi_code/src/OperacoesConvolucao.cpp:69-76 | a kernel whose centre row sums to n*n - (n - 1) and other rows to -n has the stated prefix sums |
| OperacoesConvolucao.LowPassSum | pdi_code/src/OperacoesConvolucao.cpp:89-95 | the mean kernel's weights sum to 1 |
| OperacoesConvolucao.NitidezSum | pdi_code/src/OperacoesConvolucao.cpp:108-110 | the sharpening kernel's weights sum to 1 |
| OperacoesConvolucao.FactoriesPreserveUniform | pdi_code/src/OperacoesConvolucao.cpp:59-98 | both factories return valid kernels whose weights sum to 1, so in exact arithmetic they leave uniform regions unchanged (with `double` weights such as 1/9 the truncated sum can fall one below) |
| DetectorBordas.KernelShapes | pdi_code/src/DetectorBordas.cpp:11-20 | the Roberts kernels are 2x2; the Sobel kernels and the eight Robinson kernels are 3x3 |
| DetectorBordas.RobertsDifferences | pdi_code/src/DetectorBordas.cpp:11-20 | the Roberts responses are the two diagonal differences of the 2x2 window |
| DetectorBordas.SobelDifferences | pdi_code/src/DetectorBordas.cpp:49-60 | the Sobel responses are the weighted right-minus-left and bottom-minus-top column and row differences |
| DetectorBordas.UniformKSum | pdi_code/src/DetectorBordas.cpp:229-253 | over a uniform image, a kernel's response is the grey value times the kernel's total weight |
| DetectorBordas.KernelsSumToZero | pdi_code/src/DetectorBordas.cpp:11-142 | every Roberts, Sobel and Robinson kernel has weights summing to zero |
| DetectorBordas.NegatedKSum | pdi_code/src/DetectorBordas.cpp:242-253 | negating a kernel negates its response |
| DetectorBordas.CompassPairs | pdi_code/src/DetectorBordas.cpp:89-142 | the S, SW, W and NW compass kernels are the negations of N, NE, E and SE, and N and W equal the Sobel kernels |
| DetectorBordas.FloorSqrt | pdi_code/src/DetectorBordas.cpp:209-212 | the integer square root: the largest q with q*q not above n |
| DetectorBordas.FloorSqrtUnique | pdi_code/src/DetectorBordas.cpp:209-212 | any q bracketing n between q*q and (q+1)*(q+1) is that root |
| DetectorBordas.MagnitudeClamp | pdi_code/src/DetectorBordas.cpp:33-36 | clamping the exact magnitude sqrt(gx*gx + gy*gy) gives the same byte as clamping the integer square root |
| DetectorBordas.MagnitudeDominates | pdi_code/src/DetectorBordas.cpp:209-212 | the magnitude is at least the larger of the two absolute gradients |
| DetectorBordas.SeqMax | pdi_code/src/DetectorBordas.cpp:162-167 | the maximum is one of the responses and no response exceeds it |
| DetectorBordas.CompassResponses | pdi_code/src/DetectorBordas.cpp:151-159 | eight absolute responses, all non-negative |
| DetectorBordas.EdgeValue | pdi_code/src/DetectorBordas.cpp:26-37 | the value stored for an interior pixel is a byte |
| DetectorBordas.EdgePixel | pdi_code/src/DetectorBordas.cpp:23-38 | every output pixel is a single byte |
| DetectorBordas.EdgePlane | pdi_code/src/DetectorBordas.cpp:23-40 | the edge plane has the grey plane's shape and the stated value at every pixel |
| DetectorBordas.Edges | pdi_code/src/DetectorBordas.cpp:5-175 | every detector returns a one-channel image of the input's size |
| DetectorBordas.EdgeBorder | pdi_code/src/DetectorBordas.cpp:26-27 | the last row and column, and for the 3x3 operators also the first row and column, are 0 |
| DetectorBordas.UniformGivesNoEdges | pdi_code/src/DetectorBordas.cpp:5-175 | a uniform one-channel image has no edges for any of the three operators |
| DetectorBordas.ConstantGivesNoEdges | pdi_code/src/DetectorBordas.cpp:5-7 | an image with one or three channels whose pixels all equal one pixel has no edges for any of the three operators, since its grey conversion is uniform |
| DetectorBordas.CompassSymmetry | pdi_code/src/DetectorBordas.cpp:152-159 | opposite compass directions give equal absolute responses |
| DetectorBordas.CompassCoversSobel | pdi_code/src/DetectorBordas.cpp:152-167 | the Robinson maximum is at least each absolute Sobel component |
| DetectorBordas.RobinsonDominatesSobel | pdi_code/src/DetectorBordas.cpp:43-175 | at every interior pixel, both the Robinson and the Sobel outputs are at least the clamped larger absolute Sobel component |
| DetectorBordas.DominatesOnPlane | pdi_code/src/DetectorBordas.cpp:43-175 | the same bound on a grey plane |
| DetectorBordas.SobelAtLeast | pdi_code/src/DetectorBordas.cpp:62-76 | the Sobel output is at least the clamped larger absolute component |
| DetectorBordas.ClampMonotone | pdi_code/src/DetectorBordas.cpp:214-223 | `normalizar` preserves order |
| DetectorBordas.AplicarKernel2x2 | pdi_code/src/DetectorBordas.cpp:229-240 | the loop returns the 2x2 kernel response anchored at the pixel |
| DetectorBordas.AplicarKernel3x3 | pdi_code/src/DetectorBordas.cpp:242-253 | the loop returns the 3x3 kernel response centred on the pixel |
| DetectorBordas.RespostaRobinson | pdi_code/src/DetectorBordas.cpp:151-167 | the eight responses and the running maximum give the largest absolute compass response |
| DetectorBordas.ValorBorda | pdi_code/src/DetectorBordas.cpp:29-36 | the per-pixel computation returns the specified edge value |
| DetectorBordas.DetectarLinha | pdi_code/src/DetectorBordas.cpp:27-37 | the loop over a row returns the specified edge row |
| DetectorBordas.DetectarPlano | pdi_code/src/DetectorBordas.cpp:23-40 | the loop returns exactly the edge plane |
| DetectorBordas.ConverterParaCinza | pdi_code/src/DetectorBordas.cpp:190-207 | returns the grey plane, and the input itself when it has one channel |
| DetectorBordas.RobertsBordas | pdi_code/src/DetectorBordas.cpp:5-41 | returns exactly the Roberts edge image |
| DetectorBordas.SobelBordas | pdi_code/src/DetectorBordas.cpp:43-81 | returns exactly the Sobel edge image |
| DetectorBordas.RobinsonBordas | pdi_code/src/DetectorBordas.cpp:83-175 | returns exactly the Robinson edge image |
| DetectorBordas.AplicarLimiar | pdi_code/src/DetectorBordas.cpp:177-188 | returns the binary image that is 255 exactly where the edge strength is above the threshold |
| MorfologiaMatematica.Binary | pdi_code/src/MorfologiaMatematica.cpp:148-175 | the binarised image is binary and keeps the input's size |
| MorfologiaMatematica.BinaryIdempotent | pdi_code/src/MorfologiaMatematica.cpp:148-175 | binarising an already binary image with the default threshold 128 gives it back |
| MorfologiaMatematica.MorphPixel | pdi_code/src/MorfologiaMatematica.cpp:15-24 | every morphological output pixel is 0 or 255 |
| MorfologiaMatematica.MorphPlane | pdi_code/src/MorfologiaMatematica.cpp:9-26 | the output plane is binary, of the input's shape, with the stated pixel everywhere |
| MorfologiaMatematica.Eroded | pdi_code/src/MorfologiaMatematica.cpp:4-27 | erosion is binary and keeps the size |
| MorfologiaMatematica.Dilated | pdi_code/src/MorfologiaMatematica.cpp:29-52 | dilation is binary and keeps the size |
| MorfologiaMatematica.MorphPixels | pdi_code/src/MorfologiaMatematica.cpp:15-24 | a pixel is white after erosion exactly when the element fits there, and after dilation exactly when it hits white there, both only at pixels at least one radius from the border |
| MorfologiaMatematica.MorphBorder | pdi_code/src/MorfologiaMatematica.cpp:9-16 | pixels within one radius of the border are black after erosion and after dilation |
| MorfologiaMatematica.CentredBounds | pdi_code/src/MorfologiaMatematica.cpp:177-213 | for an element with its centre set, erosion only keeps white pixels and dilation keeps every white interior pixel |
| MorfologiaMatematica.FitsIffMisses | pdi_code/src/MorfologiaMatematica.cpp:177-213 | the element fits a binary image at a pixel exactly when it does not hit the negative there |
| MorfologiaMatematica.Duality | pdi_code/src/MorfologiaMatematica.cpp:4-52 | a pixel is white in the erosion exactly when it is black in the dilation of the negative |
| MorfologiaMatematica.Opened | pdi_code/src/MorfologiaMatematica.cpp:54-59 | opening is binary and keeps the size |
| MorfologiaMatematica.Closed | pdi_code/src/MorfologiaMatematica.cpp:61-66 | closing is binary and keeps the size |
| MorfologiaMatematica.FitReachesBack | pdi_code/src/MorfologiaMatematica.cpp:177-194 | with a symmetric element, a fit at a neighbour covers the pixel, so the pixel is white |
| MorfologiaMatematica.HitReachesBack | pdi_code/src/MorfologiaMatematica.cpp:196-213 | with a symmetric element, a white pixel is hit from every interior neighbour it covers |
| MorfologiaMatematica.HitWitness | pdi_code/src/MorfologiaMatematica.cpp:200-209 | a hit names a set element cell whose image pixel is white |
| MorfologiaMatematica.MissWitness | pdi_code/src/MorfologiaMatematica.cpp:181-190 | a failed fit names a set element cell whose image pixel is not white |
| MorfologiaMatematica.OpeningShrinksPlane | pdi_code/src/MorfologiaMatematica.cpp:54-59 | dilating an erosion only turns on pixels that were white before |
| MorfologiaMatematica.OpeningShrinks | pdi_code/src/MorfologiaMatematica.cpp:54-59 | with a symmetric element, opening is contained in the binarised input |
| MorfologiaMatematica.ClosingGrowsPlane | pdi_code/src/MorfologiaMatematica.cpp:61-66 | eroding a dilation keeps every white pixel at least two radii from the border |
| MorfologiaMatematica.WindowsAroundHit | pdi_code/src/MorfologiaMatematica.cpp:61-66 | a white pixel far enough from the border makes the element fit the dilation there |
| MorfologiaMatematica.ClosingGrows | pdi_code/src/MorfologiaMatematica.cpp:61-66 | with a symmetric element, closing contains the binarised input away from a border of two radii |
| MorfologiaMatematica.InnerBoundary | pdi_code/src/MorfologiaMatematica.cpp:68-89 | the inner boundary is binary and keeps the size |
| MorfologiaMatematica.OuterBoundary | pdi_code/src/MorfologiaMatematica.cpp:91-112 | the outer boundary is binary and keeps the size |
| MorfologiaMatematica.BoundaryPixels | pdi_code/src/MorfologiaMatematica.cpp:68-112 | the inner boundary is exactly the white pixels the erosion removes and lies inside the shape; the outer boundary is exactly the black pixels the dilation adds and lies outside it |
| MorfologiaMatematica.CriarElementoEstruturante | pdi_code/src/MorfologiaMatematica.cpp:114-123 | a square element of ones of the requested size, or 3 for an even size |
| MorfologiaMatematica.CrossSize | pdi_code/src/MorfologiaMatematica.cpp:126-129 | the cross size actually used is always odd and at least 3 |
| MorfologiaMatematica.Cross | pdi_code/src/MorfologiaMatematica.cpp:132-143 | the cross element is square of the given size |
| MorfologiaMatematica.CriarElementoEstruturanteCruz | pdi_code/src/MorfologiaMatematica.cpp:125-146 | the two loops build exactly the cross of the corrected size |
| MorfologiaMatematica.SquareElement | pdi_code/src/MorfologiaMatematica.cpp:114-123 | the square element is a valid element, symmetric, with its centre set |
| MorfologiaMatematica.CrossElement | pdi_code/src/MorfologiaMatematica.cpp:125-146 | the cross element is a valid element, symmetric, with its centre set |
| MorfologiaMatematica.CrossCells | pdi_code/src/MorfologiaMatematica.cpp:132-143 | a cell of the cross is set exactly when it is on the centre row or the centre column |
| MorfologiaMatematica.ConverterParaBinaria | pdi_code/src/MorfologiaMatematica.cpp:148-175 | the grey conversion and the threshold loop return exactly the binarised image |
| MorfologiaMatematica.EncaixaCompletamente | pdi_code/src/MorfologiaMatematica.cpp:177-194 | the early-exit scan returns true exactly when every set element cell covers a white pixel |
| MorfologiaMatematica.TemIntersecao | pdi_code/src/MorfologiaMatematica.cpp:196-213 | the early-exit scan returns true exactly when some set element cell covers a white pixel |
| MorfologiaMatematica.VarrerLinha | pdi_code/src/MorfologiaMatematica.cpp:16-23 | the loop over a row returns the specified output row |
| MorfologiaMatematica.VarrerPlano | pdi_code/src/MorfologiaMatematica.cpp:9-26 | the loop over the rows returns exactly the morphological plane |
| MorfologiaMatematica.Erosao | pdi_code/src/MorfologiaMatematica.cpp:4-27 | returns exactly the erosion |
| MorfologiaMatematica.Dilatacao | pdi_code/src/MorfologiaMatematica.cpp:29-52 | returns exactly the dilation |
| MorfologiaMatematica.Abertura | pdi_code/src/MorfologiaMatematica.cpp:54-59 | returns exactly the opening |
| MorfologiaMatematica.Fechamento | pdi_code/src/MorfologiaMatematica.cpp:61-66 | returns exactly the closing |
| MorfologiaMatematica.Mascara | pdi_code/src/MorfologiaMatematica.cpp:73-86 | the masking loop marks exactly the pixels white in one image and black in the other |
| MorfologiaMatematica.LimiteInterno | pdi_code/src/MorfologiaMatematica.cpp:68-89 | returns exactly the inner boundary |
| MorfologiaMatematica.LimiteExterno | pdi_code/src/MorfologiaMatematica.cpp:91-112 | returns exactly the outer boundary |
| ProcessadorHistogramas.ScanValues | pdi_code/src/ProcessadorHistogramas.cpp:26-31 | the values a row-major scan of a channel visits are bytes, one per pixel |
| ProcessadorHistogramas.PixelInScan | pdi_code/src/ProcessadorHistogramas.cpp:26-31 | every pixel's channel value is among the scanned values |
| ProcessadorHistogramas.Histogram | pdi_code/src/ProcessadorHistogramas.cpp:25-31 | a channel's histogram has 256 non-negative bins |
| ProcessadorHistogramas.Histograms | pdi_code/src/ProcessadorHistogramas.cpp:10-36 | one histogram per channel for one- and three-channel images, none otherwise |
| ProcessadorHistogramas.BinsAppend | pdi_code/src/ProcessadorHistogramas.cpp:19 | counting one more value increments exactly its bin |
| ProcessadorHistogramas.BinsSum | pdi_code/src/ProcessadorHistogramas.cpp:16-21 | the bins of a sequence of bytes add up to its length |
| ProcessadorHistogramas.HistogramTotal | pdi_code/src/ProcessadorHistogramas.cpp:10-36 | a histogram's bins add up to the number of pixels |
| ProcessadorHistogramas.HistogramPresence | pdi_code/src/ProcessadorHistogramas.cpp:10-36 | a bin is non-zero exactly when its value occurs in the channel |
| ProcessadorHistogramas.CdfLaws | pdi_code/src/ProcessadorHistogramas.cpp:84-88 | the cumulative distribution is non-negative and non-decreasing and ends at the total count |
| ProcessadorHistogramas.FirstNonZero | pdi_code/src/ProcessadorHistogramas.cpp:92-97 | the first non-zero position: everything before it is zero, and it is non-zero unless it is the end |
| ProcessadorHistogramas.CdfMinIsFirstBin | pdi_code/src/ProcessadorHistogramas.cpp:91-97 | the first non-zero cumulative entry is at the first non-zero bin and equals that bin's count |
| ProcessadorHistogramas.CdfMinCountsDarkest | pdi_code/src/ProcessadorHistogramas.cpp:91-97 | on a non-empty image the minimum cumulative value is the number of pixels holding the darkest present value |
| ProcessadorHistogramas.RoundToInt | pdi_code/src/ProcessadorHistogramas.cpp:6-8 | adding 0.5 and truncating rounds half up for values from -0.5 on |
| ProcessadorHistogramas.RoundMonotone | pdi_code/src/ProcessadorHistogramas.cpp:6-8 | that rounding preserves order |
| ProcessadorHistogramas.Lut | pdi_code/src/ProcessadorHistogramas.cpp:100-104 | the lookup table has 256 byte entries |
| ProcessadorHistogramas.LutEntryInRange | pdi_code/src/ProcessadorHistogramas.cpp:103 | for a cumulative value between the minimum and the total the scaled share lies in [0, 255] and the entry is its rounding |
| ProcessadorHistogramas.LutEntryMonotone | pdi_code/src/ProcessadorHistogramas.cpp:103 | larger cumulative values give larger or equal entries |
| ProcessadorHistogramas.LutEnds | pdi_code/src/ProcessadorHistogramas.cpp:103 | the minimum cumulative value maps to 0 and the total to 255 |
| ProcessadorHistogramas.LutLaws | pdi_code/src/ProcessadorHistogramas.cpp:84-104 | from the first present value on, the table starts at 0, ends at 255, is the rounded share and is non-decreasing |
| ProcessadorHistogramas.ChannelLut | pdi_code/src/ProcessadorHistogramas.cpp:115-140 | a channel's table has 256 byte entries |
| ProcessadorHistogramas.EqualizedUpTo | pdi_code/src/ProcessadorHistogramas.cpp:114-147 | equalising the first channels keeps shape and type |
| ProcessadorHistogramas.Equalized | pdi_code/src/ProcessadorHistogramas.cpp:71-150 | equalisation keeps shape and type and leaves images with neither one nor three channels unchanged |
| ProcessadorHistogramas.EqualizationMonotone | pdi_code/src/ProcessadorHistogramas.cpp:71-150 | equalisation preserves the order of values within a channel and sends the darkest present value to 0 |
| ProcessadorHistogramas.ChannelLutOrder | pdi_code/src/ProcessadorHistogramas.cpp:115-140 | on present values the channel table is non-decreasing and maps the darkest to 0 |
| ProcessadorHistogramas.EqualizationBrightest | pdi_code/src/ProcessadorHistogramas.cpp:71-150 | the brightest present value of a channel becomes 255 |
| ProcessadorHistogramas.ContarLinha | pdi_code/src/ProcessadorHistogramas.cpp:27-30 | counting one row into the bin array adds exactly that row's values |
| ProcessadorHistogramas.ContarCanal | pdi_code/src/ProcessadorHistogramas.cpp:25-31 | the counting loops return exactly the channel's histogram |
| ProcessadorHistogramas.CalcularHistograma | pdi_code/src/ProcessadorHistogramas.cpp:10-36 | returns exactly the per-channel histograms |
| ProcessadorHistogramas.AcumularCdf | pdi_code/src/ProcessadorHistogramas.cpp:84-88 | the running sum returns the cumulative distribution |
| ProcessadorHistogramas.PrimeiroNaoNulo | pdi_code/src/ProcessadorHistogramas.cpp:91-97 | the search with `break` returns the first non-zero cumulative value, or 0 |
| ProcessadorHistogramas.TabelaLut | pdi_code/src/ProcessadorHistogramas.cpp:100-104 | the loop returns the lookup table |
| ProcessadorHistogramas.AplicarLut | pdi_code/src/ProcessadorHistogramas.cpp:142-146 | mapping one channel through its table extends the equalisation by that channel |
| ProcessadorHistogramas.EqualizarCanal | pdi_code/src/ProcessadorHistogramas.cpp:115-146 | one channel's histogram, distribution, minimum, table and mapping extend the equalisation by that channel |
| ProcessadorHistogramas.EqualizarHistograma | pdi_code/src/ProcessadorHistogramas.cpp:71-150 | returns exactly the equalised image |
| ProcessadorHistogramas.ValorMaximo | pdi_code/src/ProcessadorHistogramas.cpp:43-50 | the normalising maximum is at least 1, bounds every bin and is attained (or is 1 when no bin is positive) |
| ProcessadorHistogramas.BinHeightLaws | pdi_code/src/ProcessadorHistogramas.cpp:60-61 | drawn heights are monotone in the count, within [0, 400], and the largest bin reaches the top |
| Operation.ToGrayscaleAverage | pdi_code/src/Operation.cpp:8-21 | returns exactly the averaged image of `ConversorTonsCinza` |
| Operation.ToGrayscaleWeighted | pdi_code/src/Operation.cpp:23-37 | returns exactly the weighted-grey image of `ConversorTonsCinza` |
| Operation.PairChannel | pdi_code/src/Operation.cpp:47-97 | the one-sided clamps (`min(.,255)` or `max(.,0)`) give the same channel as the two-sided saturation of `OperacoesAritmeticas` |
| Operation.CombineImages | pdi_code/src/Operation.cpp:39-103 | the pixel loop returns exactly the combined image of `OperacoesAritmeticas` |
| Operation.AddImages | pdi_code/src/Operation.cpp:39-53 | returns exactly the saturated sum |
| Operation.SubtractImages | pdi_code/src/Operation.cpp:55-69 | returns exactly the saturated difference |
| Operation.MultiplyImages | pdi_code/src/Operation.cpp:71-85 | returns exactly the scaled product |
| Operation.DivideImages | pdi_code/src/Operation.cpp:87-103 | returns exactly the scaled quotient, white where the divisor is zero |
| Operation.StoredScalar | pdi_code/src/Operation.cpp:114-189 | each scalar operation stores a byte |
| Operation.ScalarResult | pdi_code/src/Operation.cpp:105-195 | the result keeps shape and type and is the input for images with neither one nor three channels |
| Operation.ScalarLoop | pdi_code/src/Operation.cpp:111-124 | the shared pixel loop returns exactly the scalar result |
| Operation.AddScalar | pdi_code/src/Operation.cpp:105-126 | returns exactly the image with the scalar added |
| Operation.SubtractScalar | pdi_code/src/Operation.cpp:128-149 | returns exactly the image with the scalar subtracted |
| Operation.MultiplyScalar | pdi_code/src/Operation.cpp:151-172 | returns exactly the multiplied image |
| Operation.DivideScalar | pdi_code/src/Operation.cpp:174-195 | returns exactly the divided image |
| Operation.ScalarAgreesWithSaturating | pdi_code/src/Operation.cpp:105-195 | for non-negative scalars (non-zero for division, whole for subtraction) each channel agrees with the saturating `OperacoesAritmeticas` version |
| Operation.ScalarWraps | pdi_code/src/Operation.cpp:114-161 | a negative sum or product wraps to the value plus 256, a subtraction above 255 wraps to the value minus 256; adding -1 to 0 stores 255 where `OperacoesAritmeticas` stores 0 |
| Operation.DivideByZeroWhite | pdi_code/src/Operation.cpp:183-188 | dividing by zero turns every channel white, whereas `OperacoesAritmeticas` returns the input |
| Operation.Threshold | pdi_code/src/Operation.cpp:197-222 | returns exactly the thresholded image of `ProcessadorImagens` |
| Operation.IsolateChannel | pdi_code/src/Operation.cpp:224-245 | a colour image gives the isolated channel of `ProcessadorImagens`; a grey image with index 0 is copied; everything else is all zero |
| Operation.Invert | pdi_code/src/Operation.cpp:308-329 | returns exactly the negative of `ProcessadorImagens` |
| Operation.ComputeHistogram | pdi_code/src/Operation.cpp:247-273 | returns exactly the histograms of `ProcessadorHistogramas` |
| Operation.StdRound | pdi_code/src/Operation.cpp:360 | `std::round` lands within 0.5 and rounds half away from zero |
| Operation.RoundedLut | pdi_code/src/Operation.cpp:358-361 | the table has 256 byte entries |
| Operation.RoundedLutAgrees | pdi_code/src/Operation.cpp:358-361 | for cumulative values between the minimum and the total the table agrees with the add-half table of `ProcessadorHistogramas` |
| Operation.ChannelRoundedLut | pdi_code/src/Operation.cpp:370-391 | a channel's table has 256 byte entries |
| Operation.RoundEqualizedUpTo | pdi_code/src/Operation.cpp:369-396 | equalising the first channels keeps shape and type |
| Operation.RoundEqualized | pdi_code/src/Operation.cpp:331-398 | equalisation keeps shape and type and leaves other channel counts unchanged |
| Operation.PresentEntryAgrees | pdi_code/src/Operation.cpp:358-366 | on every value present in the channel the two tables agree |
| Operation.EqualizationsAgree | pdi_code/src/Operation.cpp:331-398 | `equalizeHistogram` and `equalizarHistograma` produce the same image |
| Operation.RoundedLutTable | pdi_code/src/Operation.cpp:358-361 | the loop returns the rounded table |
| Operation.ApplyRoundedLut | pdi_code/src/Operation.cpp:393-395 | mapping one channel through its table extends the equalisation by that channel |
| Operation.EqualizeChannel | pdi_code/src/Operation.cpp:370-396 | one channel's counting, distribution, minimum, table and mapping extend the equalisation by that channel |
| Operation.EqualizeHistogram | pdi_code/src/Operation.cpp:331-398 | returns exactly the equalised image |

## Definitions

The helper functions, predicates and constants below carry no contract of their
own. Each one is where a computation or constant of the source is defined, and
the lemmas and methods of "## Model" are stated in terms of it.

| definition | source | defines |
|---|---|---|
| MorfologiaMatematica.LimiarPadrao | pdi_code/include/MorfologiaMatematica.hpp:98 | the default threshold 128 of `converterParaBinaria` |
| MorfologiaMatematica.Raio | pdi_code/src/MorfologiaMatematica.cpp:12 | `raio = ee.rows / 2`, also computed at line 178 and line 197 |
| MorfologiaMatematica.Interior | pdi_code/src/MorfologiaMatematica.cpp:15-16 | the pixels the erosion and dilation loops visit: at least `raio` from every edge |
| MorfologiaMatematica.Window | pdi_code/src/MorfologiaMatematica.cpp:184-186 | the image pixel `(y + ky, x + kx)` under element cell `(ky + raio, kx + raio)` |
| MorfologiaMatematica.Fits | pdi_code/src/MorfologiaMatematica.cpp:177-194 | `encaixaCompletamente`: every cell equal to 1 lies over a pixel equal to 255 |
| MorfologiaMatematica.Hits | pdi_code/src/MorfologiaMatematica.cpp:196-213 | `temIntersecao`: some cell equal to 1 lies over a pixel equal to 255 |
| MorfologiaMatematica.SquareSize | pdi_code/src/MorfologiaMatematica.cpp:115-118 | the size `criarElementoEstruturante` uses: an even request becomes 3 |
| ProcessadorHistogramas.Bins | pdi_code/src/ProcessadorHistogramas.cpp:15-21 | the 256 counters that `hist.at<int>(valor)++` fills, bin v counting the occurrences of v |
| ProcessadorHistogramas.Cdf | pdi_code/src/ProcessadorHistogramas.cpp:84-88 | `cdf[i]`, the number of pixels with a value at most i |
| ProcessadorHistogramas.CdfMin | pdi_code/src/ProcessadorHistogramas.cpp:91-97 | `cdfMin`: the first non-zero entry of the cdf, 0 when there is none |
| ProcessadorHistogramas.Equalizable | pdi_code/src/ProcessadorHistogramas.cpp:100-103 | the channel has more pixels than `cdfMin`, so the divisor `totalPixels - cdfMin` is positive (also lines 136-139) |
| ProcessadorHistogramas.EqualizationDefined | pdi_code/src/ProcessadorHistogramas.cpp:71-148 | every channel of a 1- or 3-channel image is equalisable; other images are returned as the clone |
| ProcessadorHistogramas.BinHeight | pdi_code/src/ProcessadorHistogramas.cpp:60-61 | `h1` and `h2`: the count times 400 over the maximum, rounded by adding 0.5 |
| DetectorBordas.RobertsGx | pdi_code/src/DetectorBordas.cpp:11-14 | the Roberts `kernelGx` |
| DetectorBordas.RobertsGy | pdi_code/src/DetectorBordas.cpp:17-20 | the Roberts `kernelGy` |
| DetectorBordas.SobelGx | pdi_code/src/DetectorBordas.cpp:49-53 | the Sobel `kernelGx` |
| DetectorBordas.SobelGy | pdi_code/src/DetectorBordas.cpp:56-60 | the Sobel `kernelGy` |
| DetectorBordas.KernelN | pdi_code/src/DetectorBordas.cpp:89-93 | the Robinson north kernel |
| DetectorBordas.KernelNE | pdi_code/src/DetectorBordas.cpp:96-100 | the Robinson north-east kernel |
| DetectorBordas.KernelE | pdi_code/src/DetectorBordas.cpp:103-107 | the Robinson east kernel |
| DetectorBordas.KernelSE | pdi_code/src/DetectorBordas.cpp:110-114 | the Robinson south-east kernel |
| DetectorBordas.KernelS | pdi_code/src/DetectorBordas.cpp:117-121 | the Robinson south kernel |
| DetectorBordas.KernelSW | pdi_code/src/DetectorBordas.cpp:124-128 | the Robinson south-west kernel |
| DetectorBordas.KernelW | pdi_code/src/DetectorBordas.cpp:131-135 | the Robinson west kernel |
| DetectorBordas.KernelNW | pdi_code/src/DetectorBordas.cpp:138-142 | the Robinson north-west kernel |
| DetectorBordas.Robinson8 | pdi_code/src/DetectorBordas.cpp:152-159 | the eight compass kernels in the order of `respostas[0]` to `respostas[7]` |
| DetectorBordas.Response2x2 | pdi_code/src/DetectorBordas.cpp:229-240 | `aplicarKernel2x2`: the weighted sum over the 2×2 window whose top-left pixel is `(y, x)` |
| DetectorBordas.Response3x3 | pdi_code/src/DetectorBordas.cpp:242-253 | `aplicarKernel3x3`: the weighted sum over the 3×3 window centred on `(y, x)` |
| DetectorBordas.Operator | pdi_code/src/DetectorBordas.cpp:5-175 | the three detectors `roberts`, `sobel` and `robinson`, which share one scan |
| DetectorBordas.Lo | pdi_code/src/DetectorBordas.cpp:26-27 | the first row and column scanned: 0 for Roberts, 1 for Sobel and Robinson (lines 66-67, 148-149) |
| DetectorBordas.Inside | pdi_code/src/DetectorBordas.cpp:66-67 | the pixels a detector writes: from `Lo` up to one before the last row and column |
| OperacoesConvolucao.Radius | pdi_code/src/OperacoesConvolucao.cpp:32 | `raio = kernel.rows / 2` |
| OperacoesConvolucao.WindowInside | pdi_code/src/OperacoesConvolucao.cpp:35-36 | the pixels the convolution writes: at least `raio` from every edge |
| OperacoesConvolucao.RowSum | pdi_code/src/OperacoesConvolucao.cpp:41-48 | the `soma` accumulated over one kernel row |
| OperacoesConvolucao.WindowSum | pdi_code/src/OperacoesConvolucao.cpp:37-49 | `soma`: the sum of `pixel * kernelValor` over the whole window |
| OperacoesConvolucao.FactorySize | pdi_code/src/OperacoesConvolucao.cpp:60-63 | the size both factories use: an even request becomes 3 (also lines 82-85) |
| OperacoesConvolucao.ConvolutionDefined | pdi_code/src/OperacoesConvolucao.cpp:5-26 | a shaped kernel; when it is valid, an input with one or three channels for the grey conversion |

## Left out

- Floating point: `double` arithmetic is modelled with exact reals. This covers the luma weights, the convolution kernels, the scalars and the shares in the equalisation table. A result that the source's rounding errors would move across an integer boundary may therefore differ by one.
- Raster.Luma: computed exactly as (114 B + 587 G + 299 R) / 1000 truncated, not as the sum of three rounded `double` products.
- DetectorBordas.EdgeValue: the magnitude is the integer square root rather than `std::sqrt`. MagnitudeClamp proves that this stores the same byte as the exact square root. Rounding in `std::sqrt` is not modelled.
- OperacoesAritmeticas.ScalarChannel: the scalar is converted with `static_cast<int>` after an exact product or quotient. Overflow of `int` for huge scalars is undefined behaviour and is not modelled.
- Operation.StoredScalar: the conversion of a huge `double` to `int` is undefined behaviour and is not modelled; in range, the store into `uchar` is modelled as reduction modulo 256.
- Histogram counts are unbounded integers, not 32-bit `int`; images with more than 2^31 pixels are out of scope.
- Undefined behaviour in the source is a precondition of the model:
  - the inter-image operations read `cv::Vec3b`, so both inputs must have three channels;
  - equalisation divides by `total - cdfMin`, so every channel of the image must hold some pixel brighter than its darkest intensity;
  - the structuring element must be square and odd;
  - the kernel and element factories are not given negative odd sizes;
  - the grey conversion for edges, morphology and convolution is given images with one or three channels;
  - `aplicarLimiar` is given a one-channel edge map, as every detector returns;
  - the threshold maximum lies in [0, 256), so that `static_cast<uchar>` is defined.
- Operation.RoundedLut: for an intensity below the darkest one present the share is negative, and `static_cast<uchar>` of a negative `double` is undefined. No pixel has such an intensity. The model gives that entry an arbitrary byte, the rounding reduced modulo 256, and no property depends on it.
- `visualizarHistograma`: only the normalising maximum (ValorMaximo) and the bin heights (BinHeightLaws) are modelled. The drawing with `cv::line`, and the colour choice, are library calls.
- `Operation::visualizeHistogram`: its maximum loop (Operation.cpp:281-287) is the same as ValorMaximo. Its heights use `cvRound`, which rounds halves to even, and the drawing is a library call, so it is not modelled separately.
- `std::cerr` messages are output only and are left out.
- `Operation::toGrayscaleRealChannel` and `Operation::testHistogramImages` are declared in include/Operation.hpp but defined in no source file, so they are not modelled.
- MorfologiaMatematica.ClosingGrows: closing is proved to contain the input only at pixels at least two radii from the border, because the outer frame of the closing is always black.
- MorfologiaMatematica.OpeningShrinks: opening is proved to shrink the input; idempotence of opening and closing is not proved.
- The constructor `Operation::Operation` does nothing and is left out.
