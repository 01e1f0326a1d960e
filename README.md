# glitches: palette building, dithering and recolouring in Dafny

This project models the core of *glitches*, a small Python 2 toolkit for reducing an image to a
few colours. It covers:

- **Median-cut palette builder** (`glitches/colour.py`). The `Box` class keeps a list of colours
  and their per-channel bounding range. `median_cut` repeatedly picks the (box, channel) pair
  with the strictly largest range. It sorts that box stably on the channel, cuts it at the
  median `n / 2`, and puts the two halves where the box was. At the end each box is replaced by
  its floor average.
- **Floyd–Steinberg error diffusion** (`glitches/dithering.py`). There is a 1-bit variant and one
  against a palette, plus the `floyd_steinberg` mode dispatch. Both run as raster-order loops
  over a buffer that they update in place. Each pixel's quantisation error is pushed with 7/16,
  3/16, 5/16 and 1/16 to the neighbours that exist.
- **Ordered dithering** (`glitches/dithering.py`): the four threshold tables and the per-pixel
  loops of `bayer` (nearest palette colour of the clamped, biased pixel) and `bayer_1` (a
  threshold on the halved, biased level).
- **Palettes** (`palette.py`): the grey ramp `create_mono_palette`, and `replace_colours`. The
  latter packs each colour into one integer with `hash_col` and relabels every pixel through two
  dictionaries.
- **Spectrum attributes** (`zx.py`): the two eight-colour sets, `nearest_colour`,
  `match_colours` (a second colour matched with the first match's entry removed), and the
  32 x 24 block loop of `main`.
- **`recolour4`** (`scripts/quant_test.py`): the inline C loop that replaces each pixel by its
  nearest palette entry using integer distances.

Every copy of the nearest-colour search is modelled once, in module `Colours`. The search starts
from index -1 and moves only on a strictly smaller distance, so the lowest index of least
distance wins. Function `Colours.Nearest` is that search. Lemmas prove that it returns the
first minimiser and nothing else, on real distances (the double working buffers) and on integer
ones (the integer loops). The loops themselves are methods proved equal to `Nearest`.

Modules and files:

| file | module | models |
|---|---|---|
| errors.dfy | Errors | `Result`/`Option` and the Python exceptions that the error paths raise |
| colours.dfy | Colours | colours, squared distances, clamping, the nearest-colour search |
| raster.dfy | Raster | row-major addressing: pixel (y, x) of a width-nx buffer is element y * nx + x |
| median_cut.dfy | MedianCut | `Box`, `median_cut` |
| dithering.dfy | Dithering | Floyd–Steinberg, the dispatch, the threshold tables, the Bayer loops |
| palette.dfy | Palette | `create_mono_palette`, `hash_col`, `replace_colours` |
| zx.dfy | Zx | the Spectrum palettes, `nearest_colour`, `match_colours`, the block loop |
| quant_test.dfy | QuantTest | `recolour4` |

The code that updates state in place is written imperatively:

- `Box` is a class whose methods assign its fields.
- `median_cut` mutates a sequence of boxes in a loop.
- The C loops of the ditherers and of `recolour4` update a Dafny `array`.
- `replace_colours` overwrites one pixel at a time.

Each such method is proved equal to a pure specification function, and the properties are
lemmas about those functions.

Where the code raises an exception, the model returns `Err`:

- `min` of an empty list is `EmptySequence`.
- A bad index is `IndexOutOfRange`.
- A missing key is `KeyNotFound`.
- A division by zero is `DivisionByZero`.
- `a, b = colours` on a list of the wrong length is `UnpackMismatch`.

Python 2 `/` on integers is floor division. Dafny's `/` agrees with it on positive divisors,
and every quotient the model uses has one. The step of `create_mono_palette` with fewer than
one level has a negative divisor, but the empty range never uses it.

## Model

| member | source | states |
|---|---|---|
| Colours.SqDist | zx.py:23-27 | the squared colour distance is non-negative, 0 for equal colours and positive for different ones |
| Colours.Dist | glitches/dithering.py:80-85 | the squared distance from a working sample to a palette row is non-negative, and 0 when the sample is that row |
| Colours.DistOfIntegers | scripts/quant_test.py:59-65 | on integer colours the real distance equals the integer sum of squared channel differences |
| Colours.ClampChannel | glitches/dithering.py:71-74 | the clamped channel lies in [0, 255]: unchanged inside, 0 below and 255 above |
| Colours.ClampOfByteColour | glitches/dithering.py:68-75 | clamping leaves a colour with byte channels unchanged |
| Colours.NearestIn | glitches/dithering.py:78-91 | the index held after scanning n entries is one of those n entries |
| Colours.NearestInIsFirstClosest | glitches/dithering.py:78-91 | after n entries the held entry is no farther than any scanned one, and every earlier entry is strictly farther |
| Colours.Nearest | glitches/dithering.py:78-91 | the search over a non-empty palette returns a palette index |
| Colours.NearestIsFirstClosest | glitches/dithering.py:86-90 | the search returns the lowest index of least distance, and is the only index with that property |
| Colours.NearestIsFirstNearest | scripts/quant_test.py:56-72 | the same for integer colours, stated on the integer distance, in both directions |
| Colours.NearestOfPaletteColour | glitches/dithering.py:78-91 | a colour that is in the palette is matched to an equal palette entry |
| Colours.FindNearest | glitches/dithering.py:65-91 | the `col_idx = -1` loop returns Nearest and its distance, or -1 on an empty palette |
| MedianCut.Lo | glitches/colour.py:50-55 | `resize`'s channel minimum is never above the first colour's channel; LoHiBounds shows it is the least value and attained |
| MedianCut.Hi | glitches/colour.py:50-55 | `resize`'s channel maximum is never below the first colour's channel; LoHiBounds shows it is the greatest value and attained |
| MedianCut.LoHiBounds | glitches/colour.py:50-55 | every colour lies between the channel's min and max, and both bounds are attained |
| MedianCut.SizeOnBounds | glitches/colour.py:26-35 | a channel range is non-negative and bounds every channel difference in the box |
| MedianCut.DistinctColoursHaveRange | glitches/colour.py:81-90 | a box with two different colours has a positive range on some channel |
| MedianCut.PositiveRangeHasTwo | glitches/colour.py:81-94 | a box with a positive range has at least two colours |
| MedianCut.AvgOf | glitches/colour.py:42-47 | `avg`, per-channel floor average of a non-empty box: a one-colour box averages to its own colour (AvgWithinRange bounds the general case) |
| MedianCut.SumBounds | glitches/colour.py:44-46 | a channel sum lies between count * min and count * max |
| MedianCut.AvgWithinRange | glitches/colour.py:42-47 | each channel of the floor average lies within that channel's min and max |
| MedianCut.Insert | glitches/colour.py:59 | inserting one colour into a sorted run adds exactly one element |
| MedianCut.SortOn | glitches/colour.py:59 | sorting on a channel keeps the length |
| MedianCut.InsertKeysAtLeast | glitches/colour.py:59 | insertion keeps a lower bound on the keys |
| MedianCut.ConsSorted | glitches/colour.py:59 | prefixing a key no larger than the rest keeps a run sorted |
| MedianCut.InsertSorted | glitches/colour.py:59 | insertion keeps a run sorted on the channel |
| MedianCut.InsertMultiset | glitches/colour.py:59 | insertion adds exactly the inserted colour to the multiset |
| MedianCut.WithKeyCons | glitches/colour.py:59 | the colours with key v of a prefixed list, for both cases of the head's key |
| MedianCut.InsertWithKey | glitches/colour.py:59 | insertion places the new colour before the colours with an equal key (stability) |
| MedianCut.SortOnSorted | glitches/colour.py:59 | `sorted(colours, key=itemgetter(axis))` is sorted on that channel and a permutation |
| MedianCut.SortOnStable | glitches/colour.py:59 | the sort is stable: the colours with each key keep their relative order |
| MedianCut.ScanDimsFacts | glitches/colour.py:86-90 | scanning a box's channels replaces the running best only on a strictly larger range, and leaves the first channel of largest range |
| MedianCut.ScanIsLongest | glitches/colour.py:81-90 | the selection loop picks a (box, channel) of strictly largest range, the earliest box and then the earliest channel on ties |
| MedianCut.ReplaceWithPair | glitches/colour.py:97 | replacing one box by two grows the list by one |
| MedianCut.ReplaceWithPairAt | glitches/colour.py:97 | boxes before stay in place, the two halves sit at i and i + 1, and boxes after shift by one |
| MedianCut.CutOnce | glitches/colour.py:93-97 | one iteration's split of box b on channel d grows the list by one box; CutOnceChildren gives the halves and their place |
| MedianCut.CutOnceChildren | glitches/colour.py:57-65 | a split gives halves of n / 2 and n - n / 2 colours whose concatenation is the box sorted on the channel, at the box's position; the other boxes keep their order |
| MedianCut.Cut | glitches/colour.py:80-97 | a finished loop leaves a non-empty list of non-empty boxes |
| MedianCut.CutStep | glitches/colour.py:80-97 | one loop iteration: the chosen box is split in place, or the loop fails when it holds fewer than two colours |
| MedianCut.Boxes | glitches/colour.py:77-97 | the boxes `median_cut` ends with: an empty colour list fails (the first `resize` takes `min` of nothing), and a success is a non-empty list of non-empty boxes |
| MedianCut.MedianCutSpec | glitches/colour.py:73-102 | `median_cut` succeeds exactly when its box loop does, and then returns one colour per box; MedianCutOutcome says when and how many |
| MedianCut.Averaged | glitches/colour.py:100 | one average per box, in box order |
| MedianCut.FlattenAppend | glitches/colour.py:97 | the colours of a joined box list are the colours of its parts in order |
| MedianCut.FlattenAround | glitches/colour.py:97 | the same for a list joined from three parts |
| MedianCut.FlattenAroundBox | glitches/colour.py:97 | a box's colours sit between those of the boxes before and after it |
| MedianCut.FlattenReplace | glitches/colour.py:97 | replacing a box by two halves puts their colours where the box's colours were |
| MedianCut.CutOnceFlatten | glitches/colour.py:93-97 | a split keeps the multiset of all colours |
| MedianCut.CutOnceDistinct | glitches/colour.py:93-97 | a split keeps all colours pairwise different and keeps their number |
| MedianCut.CutCount | glitches/colour.py:80-97 | a successful loop returns max(initial count, `num_colours`) boxes |
| MedianCut.CutPermutation | glitches/colour.py:77-97 | invariant: the boxes' colours are a permutation of the initial colour list |
| MedianCut.FlattenLength | glitches/colour.py:80-97 | non-empty boxes hold at least as many colours as there are boxes |
| MedianCut.SomeBoxHasTwo | glitches/colour.py:80-90 | while there are fewer boxes than colours, some box holds at least two |
| MedianCut.BoxInFlatten | glitches/colour.py:97 | each box occupies a contiguous slice of the joined colours |
| MedianCut.DistinctPermutation | glitches/colour.py:77-97 | a permutation of a repeat-free list is repeat-free |
| MedianCut.DistinctCounts | glitches/colour.py:68-70 | a repeat-free list holds each colour at most once |
| MedianCut.ChosenBoxHasTwo | glitches/colour.py:81-94 | with distinct colours and fewer boxes than colours, the box chosen for splitting holds at least two colours |
| MedianCut.CutSucceeds | glitches/colour.py:80-97 | with distinct colours and `num_colours` at most their number, the loop never splits a one-colour box |
| MedianCut.CutBoundedByColours | glitches/colour.py:80-97 | a successful loop never has more boxes than colours |
| MedianCut.FlattenSingle | glitches/colour.py:77 | the initial single box holds exactly the input colours |
| MedianCut.FlattenPair | glitches/colour.py:94 | two boxes hold the colours of both, in order |
| MedianCut.MedianCutOutcome | glitches/colour.py:73-102 | on distinct colours it succeeds exactly when there are colours and `num_colours` ≤ their number; it then returns max(1, `num_colours`) colours, and the boxes partition the input |
| MedianCut.MedianCutAverages | glitches/colour.py:100 | palette entry i lies, channel by channel, within the range of box i |
| MedianCut.MedianCutSingleBox | glitches/colour.py:77-100 | with `num_colours` ≤ 1 the palette is the single average of all colours |
| MedianCut.Box.Empty | glitches/colour.py:13-20 | `Box()` has no colours and the full 0..255 range on every channel |
| MedianCut.Box.constructor | glitches/colour.py:21-23 | `Box(colours)` keeps the colours and sets the ranges to their mins and maxes |
| MedianCut.Box.Resize | glitches/colour.py:49-55 | the ranges become each channel's min and max, and the colours are kept |
| MedianCut.Box.ResizedContains | glitches/colour.py:49-55 | after resize every colour lies inside the box |
| MedianCut.Box.RSize | glitches/colour.py:26-27 | on a resized box the red size is the red range, ≥ 0 |
| MedianCut.Box.GSize | glitches/colour.py:30-31 | on a resized box the green size is the green range, ≥ 0 |
| MedianCut.Box.BSize | glitches/colour.py:34-35 | on a resized box the blue size is the blue range, ≥ 0 |
| MedianCut.Box.Size | glitches/colour.py:38-39 | on a resized box `size` is the three ranges, each ≥ 0 |
| MedianCut.Box.Avg | glitches/colour.py:42-47 | `avg` fails exactly on an empty box (division by zero), and otherwise lies within each channel's range |
| MedianCut.Box.Split | glitches/colour.py:57-65 | the box's colours become sorted on the axis; with fewer than two the empty half's `resize` fails; otherwise two new, resized boxes hold the colours before and from the median |
| MedianCut.HoldsNonEmpty | glitches/colour.py:77-97 | boxes that hold the modelled colour lists hold non-empty lists |
| MedianCut.HoldsReplace | glitches/colour.py:97 | putting two new boxes in place of box i gives boxes that hold the correspondingly replaced lists |
| MedianCut.FindLongest | glitches/colour.py:81-90 | the selection loop's `longest_box`, `longest_dim` and `longest_size` are those of the specification scan |
| MedianCut.Averages | glitches/colour.py:100 | `[x.avg for x in boxes]` is the averaged specification |
| MedianCut.SplitLongest | glitches/colour.py:93-97 | splitting the chosen box and replacing it in the list gives boxes holding the cut specification, or fails on a one-colour box |
| MedianCut.MedianCut | glitches/colour.py:73-102 | the loop over Box objects returns what the specification returns, errors included |
| Dithering.Share | glitches/dithering.py:24-39 | every diffusion weight is 0, 7/16, 3/16, 5/16 or 1/16, and no pixel at or before (y, x) in raster order receives any |
| Dithering.ShareWeights | glitches/dithering.py:24-39 | pixel (y, x)'s error goes with 7/16, 3/16, 5/16 and 1/16 to the right, lower-left, lower and lower-right neighbours that exist, and nowhere else |
| Dithering.ShareGoesForward | glitches/dithering.py:24-39 | error only flows to later positions in raster order inside the buffer |
| Dithering.Threshold | glitches/dithering.py:19-22 | the 1-bit level is 0 or 255, and 0 exactly when the value is ≤ 128 |
| Dithering.Diffuse1 | glitches/dithering.py:24-39 | the four updates keep the buffer's length; what it computes is stated by Dithering.Diffuse1Shares |
| Dithering.Diffuse1Shares | glitches/dithering.py:24-39 | the four `+=` updates add to each element exactly its share of the error |
| Dithering.Diffuse1At | glitches/dithering.py:24-39 | the same for one element |
| Dithering.Step1 | glitches/dithering.py:19-39 | the loop body at one pixel keeps the buffer's length; what it computes is stated by Dithering.Step1Frame |
| Dithering.Row1 | glitches/dithering.py:17-40 | one row of the loop keeps the buffer's length; what it computes is stated by Dithering.Row1Frame |
| Dithering.Rows1 | glitches/dithering.py:15-41 | the whole loop keeps the buffer's length; what it computes is stated by Dithering.OneBitOutput and Dithering.Rows1Frame |
| Dithering.Visit1 | glitches/dithering.py:15-19 | the buffer as the loop reaches pixel (y, x) has the same length; what it computes is stated by Dithering.OneBitOutput |
| Dithering.Step1Frame | glitches/dithering.py:19-39 | the step leaves earlier pixels alone and sets pixel (y, x) to its threshold |
| Dithering.Row1Frame | glitches/dithering.py:17-40 | later steps of a row do not change pixels before the step |
| Dithering.Rows1Frame | glitches/dithering.py:15-41 | later rows do not change earlier rows |
| Dithering.OneBitOutput | glitches/dithering.py:19-22 | each output pixel is the threshold of the value the loop found there: 0 or 255, and 0 exactly when that value is ≤ 128, with no clamping |
| Dithering.DiffuseError1 | glitches/dithering.py:24-39 | the in-place updates produce Diffuse1 of the old buffer |
| Dithering.DitherPixel1 | glitches/dithering.py:19-39 | the in-place loop body produces Step1 of the old buffer |
| Dithering.FloydSteinberg1Bit | glitches/dithering.py:7-46 | the loops over the grey buffer produce Rows1 |
| Dithering.OneBitOutputIsBinary | glitches/dithering.py:19-22 | every 1-bit output pixel is 0 or 255 |
| Dithering.Step1OfBinary | glitches/dithering.py:19-39 | a step on a black-and-white buffer changes nothing |
| Dithering.Row1OfBinary | glitches/dithering.py:17-40 | a row on a black-and-white buffer changes nothing |
| Dithering.Rows1OfBinary | glitches/dithering.py:15-41 | a black-and-white image is its own 1-bit dithering |
| Dithering.DiffuseRgb | glitches/dithering.py:101-117 | the per-band updates keep the buffer's length; what it computes is stated by Dithering.DiffuseRgbShares |
| Dithering.DiffuseRgbShares | glitches/dithering.py:101-117 | the updates add to each pixel exactly its share of the error, band by band |
| Dithering.DiffuseRgbAt | glitches/dithering.py:101-117 | the same for one pixel |
| Dithering.Quantise | glitches/dithering.py:68-99 | the colour the loop body writes, the nearest palette colour of the clamped value, is always a palette row |
| Dithering.StepRgb | glitches/dithering.py:65-118 | the loop body at one pixel keeps the buffer's length; what it computes is stated by Dithering.StepRgbFrame |
| Dithering.RowRgb | glitches/dithering.py:63-119 | one row of the loop keeps the buffer's length; what it computes is stated by Dithering.RowRgbFrame |
| Dithering.RowsRgb | glitches/dithering.py:61-120 | the whole loop keeps the buffer's length; what it computes is stated by Dithering.RgbOutput and Dithering.RowsRgbFrame |
| Dithering.VisitRgb | glitches/dithering.py:61-65 | the buffer as the loop reaches pixel (y, x) has the same length; what it computes is stated by Dithering.RgbOutput |
| Dithering.StepRgbFrame | glitches/dithering.py:68-117 | the step leaves earlier pixels alone and sets pixel (y, x) to the palette colour of its clamped value |
| Dithering.RowRgbFrame | glitches/dithering.py:63-119 | later steps of a row do not change pixels before the step |
| Dithering.RowsRgbFrame | glitches/dithering.py:61-120 | later rows do not change earlier rows |
| Dithering.RgbOutput | glitches/dithering.py:68-99 | output pixel (y, x) is the lowest-index nearest palette colour of the clamped value the loop found there |
| Dithering.RgbOutputInPalette | glitches/dithering.py:94-99 | every output pixel is some palette row |
| Dithering.StepRgbOfPaletteImage | glitches/dithering.py:65-118 | a step on a byte palette image changes nothing |
| Dithering.RowRgbOfPaletteImage | glitches/dithering.py:63-119 | a row on a byte palette image changes nothing |
| Dithering.RowsRgbOfPaletteImage | glitches/dithering.py:61-120 | an image made of byte palette colours is dithered to itself |
| Dithering.DiffuseErrorRgb | glitches/dithering.py:94-118 | the in-place "set colour" and diffusion updates produce DiffuseRgb of the old buffer |
| Dithering.DitherPixelRgb | glitches/dithering.py:65-118 | the in-place loop body produces StepRgb of the old buffer |
| Dithering.FloydSteinbergRgb | glitches/dithering.py:49-125 | the loops over the RGB buffer produce RowsRgb |
| Dithering.FloydSteinberg | glitches/dithering.py:128-136 | "RGB" with a palette dithers against it and without one gives None; "1" gives the 1-bit dithering; any other mode gives None |
| Dithering.Tm2x2IsRankTable | glitches/dithering.py:142-143 | `tm2x2` holds each of 1..4 exactly once |
| Dithering.Tm3x3IsRankTable | glitches/dithering.py:145-147 | `tm3x3` holds each of 1..9 exactly once |
| Dithering.Tm4x4IsRankTable | glitches/dithering.py:149-152 | `tm4x4` holds each of 1..16 exactly once |
| Dithering.Tm8x8IsRankTable | glitches/dithering.py:154-161 | `tm8x8` holds each of 1..64 exactly once |
| Dithering.Tile | glitches/dithering.py:176-178 | the bias plane of y rows has y * nx entries; what it computes is stated by Dithering.TileAt |
| Dithering.TileAt | glitches/dithering.py:176-178 | bias-plane pixel (y, x) is matrix entry (y mod m, x mod m) |
| Dithering.BiasedImage | glitches/dithering.py:181-183 | adding the bias planes keeps the buffer's length; what it computes is stated by Dithering.BiasedImageAt |
| Dithering.BiasedImageAt | glitches/dithering.py:176-183 | pixel (y, x) of the biased buffer is the input pixel with matrix entry (y mod m, x mod m) added to each band |
| Dithering.OrderedRgb | glitches/dithering.py:192-224 | `bayer`'s output keeps the buffer's length; what it computes is stated by Dithering.OrderedRgbPixel |
| Dithering.OrderedRgbPixel | glitches/dithering.py:192-224 | output pixel (y, x) depends only on input pixel (y, x) and its bias: it is the lowest-index palette colour nearest to the clamped biased value |
| Dithering.AddBiasRgb | glitches/dithering.py:181-183 | the bias is added to every band of every pixel |
| Dithering.NearestPixels | glitches/dithering.py:192-224 | the C loop replaces each pixel by the palette colour nearest to its clamped value, without writing the clamp back |
| Dithering.Bayer | glitches/dithering.py:164-228 | the bias pass followed by the C loop produces OrderedRgb |
| Dithering.Bayer1Level | glitches/dithering.py:255-256 | the level is 0 or 255 |
| Dithering.Bayer1LevelThreshold | glitches/dithering.py:255-256 | the level is 255 exactly when the value is at least 258 |
| Dithering.Ordered1 | glitches/dithering.py:244-258 | `bayer_1`'s output keeps the buffer's length; what it computes is stated by Dithering.Ordered1Pixel |
| Dithering.Ordered1Pixel | glitches/dithering.py:244-258 | output pixel (y, x) is 255 exactly when the pixel plus its bias is at least 258, and 0 otherwise |
| Dithering.AddBias1 | glitches/dithering.py:244 | the bias is added to every pixel |
| Dithering.LevelPixels | glitches/dithering.py:251-258 | the C loop replaces each pixel by its own level |
| Dithering.Bayer1 | glitches/dithering.py:231-263 | the bias pass followed by the C loop produces Ordered1 |
| Palette.MonoPalette | palette.py:9-13 | one level divides by zero; fewer than one give an empty list; otherwise n entries |
| Palette.StepBound | palette.py:10-11 | n - 1 integer steps of 255 / (n - 1) reach 255 - 255 mod (n - 1) |
| Palette.MonoPaletteEntries | palette.py:10-12 | the entries are grey byte colours that start at black and never decrease |
| Palette.MonoPaletteIncreasing | palette.py:10-12 | with 2 to 256 levels the entries strictly increase |
| Palette.StepPositive | palette.py:10 | with 2 to 256 levels the step is positive |
| Palette.MonoPaletteFlat | palette.py:10-12 | with more than 256 levels the step is 0 and every entry is black |
| Palette.MonoPaletteEndsWhite | palette.py:10-12 | the last entry is white exactly when n - 1 divides 255 |
| Palette.MonoPaletteExamples | palette.py:9-13 | 2 levels are black and white, 4 are 0, 85, 170 and 255, and 16 go up by 17 |
| Palette.MonoPaletteEightMissesWhite | palette.py:10-11 | eight levels as written stop at 252 |
| Palette.MonoPaletteSpread | palette.py:9-13 | the corrected ramp has the source's error cases and lengths |
| Palette.MonoPaletteSpreadAt | palette.py:11-12 | corrected level i is i * 255 / (n - 1), rounded down |
| Palette.MonoPaletteSpreadEnds | palette.py:11-12 | the corrected ramp runs from black to white |
| Palette.MonoPaletteSpreadBytes | palette.py:11-12 | corrected levels are grey byte colours |
| Palette.MonoPaletteSpreadMonotone | palette.py:11-12 | corrected levels never decrease |
| Palette.MonoPaletteSpreadIncreasing | palette.py:11-12 | with at most 256 levels the corrected levels strictly increase |
| Palette.MonoPaletteSpreadEight | palette.py:11-12 | eight corrected levels are 0, 36, 72, 109, 145, 182, 218 and 255 |
| Palette.HashCol | palette.py:39-42 | `hash_col` of a byte colour is a 24-bit key; HashColRoundTrip and HashColInjective give its inverse |
| Palette.HashColRoundTrip | palette.py:39-42 | a byte colour's key lies in [0, 2^24) and unpacks back to the colour |
| Palette.HashColInjective | palette.py:39-42 | two byte colours have the same key exactly when they are equal |
| Palette.FromPal | palette.py:44 | every index stored in `from_pal` is an index of `pal_a`; FromPalLast gives its keys and the last-index rule |
| Palette.ToPal | palette.py:45 | the keys of `to_pal` are exactly the indices of `pal_b` |
| Palette.Relabel | palette.py:50-52 | one pixel's two lookups: a result is always a `pal_b` colour, and None stands for the KeyError; RelabelLastMatch and RelabelNoMatch say which |
| Palette.FromPalLast | palette.py:44 | a key is in `from_pal` exactly when some `pal_a` entry has it, and it maps to the last such index |
| Palette.RelabelLastMatch | palette.py:44-51 | a pixel equal to `pal_a[i]`, with no later equal entry, is relabelled to `pal_b[i]`, or is a KeyError when `pal_b` is shorter |
| Palette.RelabelNoMatch | palette.py:50 | a pixel that is in no `pal_a` entry is a KeyError |
| Palette.ReplaceSpec | palette.py:47-53 | a successful remap keeps the pixel count; what it computes is stated by Palette.RelabelLastMatch, Palette.RelabelNoMatch and Palette.ReplaceConcat |
| Palette.ReplaceConcat | palette.py:49-52 | pixels are relabelled independently: the remap of a joined image succeeds exactly when both parts' remaps do, and is the join of them |
| Palette.ReplaceRoundTrip | palette.py:44-52 | with equal-length, repeat-free byte palettes and every pixel in `pal_a`, remapping A to B then B to A gives the image back |
| Palette.IndexIn | palette.py:44 | the index found holds the colour |
| Palette.ReplaceColours | palette.py:38-54 | the in-place loop over the pixels returns what the specification returns, KeyError included |
| Zx.ZxLengths | zx.py:12-20 | the sets have 8 entries each; `ZX_HEX` has 16, the basic set then the bright set |
| Zx.ZxSetsDistinct | zx.py:12-18 | each set has eight different colours |
| Zx.ZxHexRepeatsBlack | zx.py:20 | `ZX_HEX` holds black at 0 and at 8, so it has a repeat |
| Zx.ZxByteColours | zx.py:12-20 | every Spectrum colour has byte channels |
| Zx.ZxBrightOfBasic | zx.py:12-18 | bright entry i is basic entry i with each lit channel at 0xFF |
| Zx.ColourDist | zx.py:23-26 | the zip loop sums the squared channel differences |
| Zx.NearestMatch | zx.py:30-39 | the search fails, with an IndexError, exactly on an empty palette |
| Zx.NearestMatchIsFirstNearest | zx.py:30-39 | on a non-empty palette it returns `(palette[i], dist, i)`: i is the lowest index of least distance, dist is that distance, and no other index qualifies |
| Zx.NearestMatchOfPaletteColour | zx.py:30-39 | a palette colour is matched by an equal colour at distance 0 |
| Zx.NearestColour | zx.py:30-39 | the loop with `nearest = -1` returns what the specification returns, IndexError included |
| Zx.Without | zx.py:54 | taking entry i out leaves one entry fewer |
| Zx.WithoutAt | zx.py:54 | the remaining entries, from i on, are the original ones shifted down by one |
| Zx.MatchColours | zx.py:42-57 | `match_colours`: one colour is matched alone; a pair is unpacked and the second matched without the first's index; any other count is UnpackMismatch. A result has one colour per input colour and a non-negative score |
| Zx.MatchOne | zx.py:44-46 | one colour gives a one-element list of its nearest entry, scored by that distance |
| Zx.MatchWrongCount | zx.py:47-48 | a list of neither one nor two colours fails to unpack |
| Zx.MatchTwoShortPalette | zx.py:51-55 | two colours over fewer than two entries fail with an IndexError |
| Zx.MatchTwo | zx.py:48-57 | the first colour gets its first nearest entry i; the second gets the first nearest entry other than i; the score is the sum of both distances |
| Zx.MatchTwoUnfold | zx.py:48-57 | the two searches `match_colours` makes, and the result it builds from them |
| Zx.SecondMatchOverOthers | zx.py:54-55 | the nearest entry of the shortened palette is the first nearest entry of the original other than i |
| Zx.MatchTwoDiffer | zx.py:48-57 | on a repeat-free palette the two matched colours differ |
| Zx.AttributeColoursDiffer | zx.py:69-70 | against either Spectrum set, a two-colour block gets two different colours |
| Zx.Origin | zx.py:105-107 | the paste origin `(x << 3, y << 3)` of step k, y running fastest, is non-negative and inside the screen's height; OriginOfBlock and PixelCoveredOnce say which block |
| Zx.OriginOfBlock | zx.py:105-107 | step x * 24 + y of the loops visits block (x, y) at (8x, 8y) |
| Zx.BlockOrigins | zx.py:105-108 | the loops visit 32 * 24 origins, which are the specification's origins in loop order |
| Zx.BlockOnScreen | zx.py:105-108 | every visited block lies wholly inside the 256 x 192 screen |
| Zx.EighthOf | zx.py:107 | a coordinate lies in block q exactly when its eighth is q |
| Zx.PixelCoveredOnce | zx.py:105-108 | the blocks tile the screen exactly: every pixel is covered by exactly one step |
| Zx.OriginsDistinct | zx.py:105-108 | different steps visit different blocks |
| QuantTest.ToUint8 | scripts/quant_test.py:41 | conversion to `uint8` gives a byte congruent to the value mod 256 |
| QuantTest.PalArray | scripts/quant_test.py:41 | the converted palette has as many entries as the palette |
| QuantTest.PalArrayBytes | scripts/quant_test.py:41 | converted entries are byte colours, and a byte palette is unchanged |
| QuantTest.PalArrayWraps | scripts/quant_test.py:41 | out-of-range channels wrap: 256 to 0, 300 to 44, -1 to 255 |
| QuantTest.Recoloured | scripts/quant_test.py:50-77 | the recoloured buffer has the pixel count of the input; what it computes is stated by QuantTest.RecolouredAtPixel and QuantTest.RecolourPixelIsNearest |
| QuantTest.RecolourPixel | scripts/quant_test.py:56-76 | the entry a pixel is replaced by is a palette entry; RecolourPixelIsNearest says which |
| QuantTest.RecolourPixelIsNearest | scripts/quant_test.py:56-76 | a pixel becomes a palette entry of least integer squared distance, and the lowest-index one among several |
| QuantTest.RecolourPixelOfPaletteColour | scripts/quant_test.py:56-76 | a pixel that already is a palette colour is left unchanged |
| QuantTest.RecolouredInPalette | scripts/quant_test.py:74-76 | every output pixel is a palette entry |
| QuantTest.RecolourIdempotent | scripts/quant_test.py:50-77 | recolouring twice is recolouring once |
| QuantTest.RecolouredConcat | scripts/quant_test.py:50-77 | pixels are recoloured independently: the recolouring of a joined buffer is the join of the recolourings |
| QuantTest.RecolouredAtPixel | scripts/quant_test.py:42-83 | through the reshapes, output pixel (y, x) is the recolouring of input pixel (y, x) |
| QuantTest.NearestIndex | scripts/quant_test.py:52-72 | the inner loop with `n_idx = -1` ends on Nearest, or on -1 for an empty palette |
| QuantTest.Recolour4 | scripts/quant_test.py:40-84 | the in-place loop leaves the buffer equal to the recolouring of its old contents against the converted palette |

## Left out

- Image I/O and PIL/numpy plumbing are not modelled: `Image.open`, `save`, `convert`, `fromarray`, `crop` and `paste`. Images come in as flat row-major buffers. They are both decodings in the dispatch's case (the 'RGB' samples and the 'L' levels), since colour conversion is a PIL routine.
- `get_colours` (`image.getcolors`) is a PIL call. `median_cut` takes its result, a list of colours, as input. The lemmas that need it assume the list is repeat-free, as `getcolors` returns it.
- The `astype(np.uint8)` conversion of the dithering outputs is not modelled. The outputs are stated on the working values. For the 1-bit ditherer those values are 0 or 255, and for the palette ditherers they are palette rows.
- The `uint8` conversion of `pal_b` in `replace_colours` on writing is not modelled; the palette colours are written as given.
- Palettes are integer colours (`Rgb`). Float palettes are not modelled: the C loops' `np.array(pal, dtype=np.double)` (glitches/dithering.py:51, 167) accepts them, and `create_colour_palette`'s colorsys floats are passed to `replace_colours` as `pal_b` (palette.py:68-71). Their truncation by `int()` in `hash_col` and by the uint8 write in `replace_colours` is not modelled either.
- IEEE doubles are modelled as exact reals. No bit-exactness is claimed for the error diffusion or the biases.
- The Bayer matrix set-up (glitches/dithering.py:170-178, 237-241) is not modelled. As written it builds the matrix from the function object `bayer`, and it sizes the column repeat from the image height. The bias matrix is a parameter instead, tiled as `bias[y mod m][x mod m]`.
- The per-band loops of the C code are folded into operations on a three-channel sample. Bands never interact in them.
- An empty palette in the C loops (FS RGB, `bayer`, `recolour4`) is a precondition. There the code reads `pal_array(-1, band)`, which is undefined behaviour, not an exception.
- `colour_dist`'s square root is dropped. The model's distances are squared, and `sqrt` is monotone, so every comparison between single distances is the same.
- Zx.MatchColours: the score is the sum of the two squared distances. The source adds the two square roots. Only the colours agree with the source, so `attribute_block`'s comparison of the two scores is not modelled.
- `attribute_block` is not modelled: it crops (PIL) and chains median cut, matching and dithering over a block. The block loop of `main` is modelled only through the origins it visits.
- C `int` overflow in `recolour4` is not modelled. For byte pixels and a `uint8` palette every distance is at most 195075.
- QuantTest.ToUint8: modelled as wrap-around modulo 256, the C cast that numpy applies to out-of-range integers. Newer numpy versions raise an error instead.
- MedianCut.Box.constructor: requires a non-empty colour list. A constructor cannot return an error, so the ValueError that `resize` raises on an empty list is modelled at its callers instead (`Box.Split` and `Boxes` return `Err(EmptySequence)`).
- The HSV generator `create_colour_palette` is not modelled (colorsys floats).
- `glitches/util.py` `resize` is not modelled (float letterboxing over PIL).
- eee.py is not modelled (random hue generators).
- The scipy recolourers (`vq`, `cKDTree`) are not modelled.
- The driver scripts, every `main`, the timing and `print` are not modelled.

## Findings

| source | as written | input that shows it | evidently intended | confidence | as-written member | corrected member |
|---|---|---|---|---|---|---|
| palette.py:10-11 | the step `255 / (num_colours - 1)` is an integer and is multiplied by i, so the ramp stops short of white unless n - 1 divides 255, and is all black above 256 levels | `create_mono_palette(8)`: 0, 36, ..., 252 | n grey levels from black to white, level i at i * 255 / (n - 1) | not executed; medium | Palette.MonoPaletteEightMissesWhite | Palette.MonoPaletteSpread |
