/**
 * glitches/dithering.py: Floyd–Steinberg error diffusion (1-bit and against a palette),
 * the `floyd_steinberg` dispatch, the ordered-dither rank tables, and the per-pixel loops
 * of the two ordered ditherers.
 *
 * Buffers are flat row-major sequences of length nx * ny (pixel (y, x) at Idx(nx, y, x)).
 * The source's doubles are exact reals here. Each ditherer copies its input into an
 * array, which its loops then update in place, as the inline C does with `im_array`.
 */
module Dithering {
  import opened Errors
  import opened Colours
  import opened Raster

  // ---------------------------------------------------------------------------------------
  // Error diffusion weights
  // ---------------------------------------------------------------------------------------

  /**
   * The fraction of pixel (y, x)'s quantisation error that buffer element i receives:
   * 7/16 right, 3/16 lower-left, 5/16 below, 1/16 lower-right, each only when that
   * neighbour is inside the buffer; nothing anywhere else (dropped shares are not
   * handed to the remaining neighbours).
   */
  function Share(nx: nat, ny: nat, y: nat, x: nat, i: nat): (w: real)
    ensures w == 0.0 || w == 7.0 / 16.0 || w == 3.0 / 16.0 || w == 5.0 / 16.0 || w == 1.0 / 16.0
    ensures x < nx && i <= Idx(nx, y, x) ==> w == 0.0
  {
    var k := Idx(nx, y, x);
    if x < nx - 1 && i == k + 1 then 7.0 / 16.0
    else if y < ny - 1 && x > 0 && i == k + nx - 1 then 3.0 / 16.0
    else if y < ny - 1 && i == k + nx then 5.0 / 16.0
    else if y < ny - 1 && x < nx - 1 && i == k + nx + 1 then 1.0 / 16.0
    else 0.0
  }

  /** The four neighbours, in (row, column) terms, and their weights; every other element gets 0. */
  lemma ShareWeights(nx: nat, ny: nat, y: nat, x: nat, i: nat)
    requires y < ny && x < nx
    ensures x + 1 < nx ==> Share(nx, ny, y, x, Idx(nx, y, x + 1)) == 7.0 / 16.0
    ensures y + 1 < ny && 0 < x ==> Share(nx, ny, y, x, Idx(nx, y + 1, x - 1)) == 3.0 / 16.0
    ensures y + 1 < ny ==> Share(nx, ny, y, x, Idx(nx, y + 1, x)) == 5.0 / 16.0
    ensures y + 1 < ny && x + 1 < nx ==> Share(nx, ny, y, x, Idx(nx, y + 1, x + 1)) == 1.0 / 16.0
    ensures Share(nx, ny, y, x, i) != 0.0 ==>
              || (x + 1 < nx && i == Idx(nx, y, x + 1))
              || (y + 1 < ny && 0 < x && i == Idx(nx, y + 1, x - 1))
              || (y + 1 < ny && i == Idx(nx, y + 1, x))
              || (y + 1 < ny && x + 1 < nx && i == Idx(nx, y + 1, x + 1))
  {
    assert Idx(nx, y + 1, x) == Idx(nx, y, x) + nx;
  }

  /** Error only flows forward in raster order, and only into the buffer. */
  lemma ShareGoesForward(nx: nat, ny: nat, y: nat, x: nat, i: nat)
    requires y < ny && x < nx
    ensures Share(nx, ny, y, x, i) != 0.0 ==> Idx(nx, y, x) < i < nx * ny
  {
    IdxInBounds(nx, ny, y, x);
    if y + 1 < ny {
      IdxInBounds(nx, ny, y + 1, x);
      assert Idx(nx, y + 1, x) == Idx(nx, y, x) + nx;
    }
  }

  // ---------------------------------------------------------------------------------------
  // Floyd–Steinberg, 1-bit
  // ---------------------------------------------------------------------------------------

  /** `im_array(y, x) <= 128 ? 0 : 255`: no clamping before the comparison. */
  function Threshold(v: real): (t: real)
    ensures t == 0.0 || t == 255.0
    ensures t == 0.0 <==> v <= 128.0
  {
    if v <= 128.0 then 0.0 else 255.0
  }

  /**
   * The four `+=` updates that pass pixel (y, x)'s error e to its neighbours, in the order
   * the C code makes them.
   */
  function Diffuse1(g: seq<real>, nx: nat, ny: nat, y: nat, x: nat, e: real): (r: seq<real>)
    requires |g| == nx * ny && y < ny && x < nx
    ensures |r| == |g|
  {
    IdxInBounds(nx, ny, y, x);
    BelowInBounds(nx, ny, y, x);
    var k := Idx(nx, y, x);
    var right := if x < nx - 1 then g[k + 1 := g[k + 1] + e * (7.0 / 16.0)] else g;
    var lowerLeft := if y < ny - 1 && x > 0 then right[k + nx - 1 := right[k + nx - 1] + e * (3.0 / 16.0)] else right;
    var below := if y < ny - 1 then lowerLeft[k + nx := lowerLeft[k + nx] + e * (5.0 / 16.0)] else lowerLeft;
    if y < ny - 1 && x < nx - 1 then below[k + nx + 1 := below[k + nx + 1] + e * (1.0 / 16.0)] else below
  }

  /** The updates add to each element exactly its share of the error. */
  lemma Diffuse1Shares(g: seq<real>, nx: nat, ny: nat, y: nat, x: nat, e: real)
    requires |g| == nx * ny && y < ny && x < nx
    ensures forall i :: 0 <= i < |g| ==> Diffuse1(g, nx, ny, y, x, e)[i] == g[i] + e * Share(nx, ny, y, x, i)
  {
    forall i | 0 <= i < |g|
      ensures Diffuse1(g, nx, ny, y, x, e)[i] == g[i] + e * Share(nx, ny, y, x, i)
    {
      Diffuse1At(g, nx, ny, y, x, e, i);
    }
  }

  lemma Diffuse1At(g: seq<real>, nx: nat, ny: nat, y: nat, x: nat, e: real, i: nat)
    requires |g| == nx * ny && y < ny && x < nx && i < |g|
    ensures Diffuse1(g, nx, ny, y, x, e)[i] == g[i] + e * Share(nx, ny, y, x, i)
  {
    IdxInBounds(nx, ny, y, x);
    BelowInBounds(nx, ny, y, x);
  }

  /** The loop body at pixel (y, x): threshold the pixel, then diffuse `quant_error`. */
  function Step1(g: seq<real>, nx: nat, ny: nat, y: nat, x: nat): (r: seq<real>)
    requires |g| == nx * ny && y < ny && x < nx
    ensures |r| == |g|
  {
    IdxInBounds(nx, ny, y, x);
    var k := Idx(nx, y, x);
    var col := Threshold(g[k]);
    Diffuse1(g[k := col], nx, ny, y, x, g[k] - col)
  }

  /** The buffer once pixels (y, 0) .. (y, x - 1) of row y have been processed. */
  function Row1(g: seq<real>, nx: nat, ny: nat, y: nat, x: nat): (r: seq<real>)
    requires |g| == nx * ny && y < ny && x <= nx
    ensures |r| == |g|
    decreases x
  {
    if x == 0 then g else Step1(Row1(g, nx, ny, y, x - 1), nx, ny, y, x - 1)
  }

  /** The buffer once rows 0 .. y - 1 have been processed. */
  function Rows1(g: seq<real>, nx: nat, ny: nat, y: nat): (r: seq<real>)
    requires |g| == nx * ny && y <= ny
    ensures |r| == |g|
  {
    if y == 0 then g else Row1(Rows1(g, nx, ny, y - 1), nx, ny, y - 1, nx)
  }

  /** The working value of the buffer at the moment the loop reaches pixel (y, x). */
  function Visit1(g: seq<real>, nx: nat, ny: nat, y: nat, x: nat): (r: seq<real>)
    requires |g| == nx * ny && y < ny && x < nx
    ensures |r| == |g|
  {
    Row1(Rows1(g, nx, ny, y), nx, ny, y, x)
  }

  lemma Step1Frame(g: seq<real>, nx: nat, ny: nat, y: nat, x: nat)
    requires |g| == nx * ny && y < ny && x < nx
    ensures Idx(nx, y, x) < |g|
    ensures forall i :: 0 <= i < Idx(nx, y, x) ==> Step1(g, nx, ny, y, x)[i] == g[i]
    ensures Step1(g, nx, ny, y, x)[Idx(nx, y, x)] == Threshold(g[Idx(nx, y, x)])
  {
    IdxInBounds(nx, ny, y, x);
    var k := Idx(nx, y, x);
    Diffuse1Shares(g[k := Threshold(g[k])], nx, ny, y, x, g[k] - Threshold(g[k]));
    forall i | 0 <= i <= k
      ensures Share(nx, ny, y, x, i) == 0.0
    {
      ShareGoesForward(nx, ny, y, x, i);
    }
  }

  lemma {:induction false} Row1Frame(g: seq<real>, nx: nat, ny: nat, y: nat, x1: nat, x2: nat)
    requires |g| == nx * ny && y < ny && x1 <= x2 <= nx
    ensures Idx(nx, y, x1) <= |g|
    ensures forall i :: 0 <= i < Idx(nx, y, x1) ==> Row1(g, nx, ny, y, x2)[i] == Row1(g, nx, ny, y, x1)[i]
    decreases x2
  {
    RowPrefixInBounds(nx, ny, y, x1);
    if x2 > x1 {
      var prev := Row1(g, nx, ny, y, x2 - 1);
      Row1Frame(g, nx, ny, y, x1, x2 - 1);
      Step1Frame(prev, nx, ny, y, x2 - 1);
    }
  }

  lemma {:induction false} Rows1Frame(g: seq<real>, nx: nat, ny: nat, y1: nat, y2: nat)
    requires |g| == nx * ny && y1 <= y2 <= ny
    ensures y1 * nx <= |g|
    ensures forall i :: 0 <= i < y1 * nx ==> Rows1(g, nx, ny, y2)[i] == Rows1(g, nx, ny, y1)[i]
    decreases y2
  {
    RowStartMonotone(nx, y1, ny);
    if y2 > y1 {
      Rows1Frame(g, nx, ny, y1, y2 - 1);
      Row1Frame(Rows1(g, nx, ny, y2 - 1), nx, ny, y2 - 1, 0, nx);
      RowStartMonotone(nx, y1, y2 - 1);
    }
  }

  /**
   * Once pixel (y, x) has been thresholded it is never written again: the final output
   * there is 0 or 255, and it is 0 exactly when the accumulated value was at most 128.
   */
  lemma OneBitOutput(g: seq<real>, nx: nat, ny: nat, y: nat, x: nat)
    requires |g| == nx * ny && y < ny && x < nx
    ensures Idx(nx, y, x) < |g|
    ensures Rows1(g, nx, ny, ny)[Idx(nx, y, x)] == Threshold(Visit1(g, nx, ny, y, x)[Idx(nx, y, x)])
    ensures Rows1(g, nx, ny, ny)[Idx(nx, y, x)] in {0.0, 255.0}
    ensures Rows1(g, nx, ny, ny)[Idx(nx, y, x)] == 0.0 <==> Visit1(g, nx, ny, y, x)[Idx(nx, y, x)] <= 128.0
  {
    var k := Idx(nx, y, x);
    IdxInBounds(nx, ny, y, x);
    Rows1Frame(g, nx, ny, y + 1, ny);
    Row1Frame(Rows1(g, nx, ny, y), nx, ny, y, x + 1, nx);
    Step1Frame(Visit1(g, nx, ny, y, x), nx, ny, y, x);
  }

  /** `im_array(y, x + 1) += quant_error * (7.0/16.0)` and the three row-below updates. */
  method DiffuseError1(imArray: array<real>, nx: nat, ny: nat, y: nat, x: nat, quantError: real)
    requires imArray.Length == nx * ny && y < ny && x < nx
    modifies imArray
    ensures imArray[..] == Diffuse1(old(imArray[..]), nx, ny, y, x, quantError)
  {
    var k := Idx(nx, y, x);
    IdxInBounds(nx, ny, y, x);
    if y + 1 < ny {
      IdxInBounds(nx, ny, y + 1, x);
      assert Idx(nx, y + 1, x) == k + nx;
    }
    if x < nx - 1 {
      imArray[k + 1] := imArray[k + 1] + quantError * (7.0 / 16.0);
    }
    if y < ny - 1 {
      if x > 0 {
        imArray[k + nx - 1] := imArray[k + nx - 1] + quantError * (3.0 / 16.0);
      }
      imArray[k + nx] := imArray[k + nx] + quantError * (5.0 / 16.0);
      if x < nx - 1 {
        imArray[k + nx + 1] := imArray[k + nx + 1] + quantError * (1.0 / 16.0);
      }
    }
  }

  /** The loop body of `floyd_steinberg_1bit` at pixel (y, x). */
  method DitherPixel1(imArray: array<real>, nx: nat, ny: nat, y: nat, x: nat)
    requires imArray.Length == nx * ny && y < ny && x < nx
    modifies imArray
    ensures imArray[..] == Step1(old(imArray[..]), nx, ny, y, x)
  {
    IdxInBounds(nx, ny, y, x);
    var k := Idx(nx, y, x);
    var col := if imArray[k] <= 128.0 then 0.0 else 255.0;
    var quantError := imArray[k] - col;
    imArray[k] := col;
    DiffuseError1(imArray, nx, ny, y, x, quantError);
  }

  /** `floyd_steinberg_1bit` on the greyscale ('L') decoding of the image. */
  method FloydSteinberg1Bit(img: seq<real>, nx: nat, ny: nat) returns (out: seq<real>)
    requires |img| == nx * ny
    ensures out == Rows1(img, nx, ny, ny)
  {
    var imArray := new real[|img|](i requires 0 <= i < |img| => img[i]);
    for y := 0 to ny
      invariant imArray[..] == Rows1(img, nx, ny, y)
    {
      for x := 0 to nx
        invariant imArray[..] == Row1(Rows1(img, nx, ny, y), nx, ny, y, x)
      {
        DitherPixel1(imArray, nx, ny, y, x);
      }
    }
    out := imArray[..];
  }

  /** The whole 1-bit output is black and white, so its conversion to bytes loses nothing. */
  lemma OneBitOutputIsBinary(g: seq<real>, nx: nat, ny: nat)
    requires |g| == nx * ny
    ensures forall i :: 0 <= i < |g| ==> Rows1(g, nx, ny, ny)[i] in {0.0, 255.0}
  {
    forall i | 0 <= i < |g|
      ensures Rows1(g, nx, ny, ny)[i] in {0.0, 255.0}
    {
      var y, x := Decompose(nx, ny, i);
      OneBitOutput(g, nx, ny, y, x);
    }
  }

  predicate IsBinary(g: seq<real>)
  {
    forall i :: 0 <= i < |g| ==> g[i] == 0.0 || g[i] == 255.0
  }

  lemma Step1OfBinary(g: seq<real>, nx: nat, ny: nat, y: nat, x: nat)
    requires |g| == nx * ny && y < ny && x < nx && IsBinary(g)
    ensures Step1(g, nx, ny, y, x) == g
  {
    IdxInBounds(nx, ny, y, x);
    var k := Idx(nx, y, x);
    assert g[k := Threshold(g[k])] == g;
    Diffuse1Shares(g, nx, ny, y, x, 0.0);
  }

  lemma {:induction false} Row1OfBinary(g: seq<real>, nx: nat, ny: nat, y: nat, x: nat)
    requires |g| == nx * ny && y < ny && x <= nx && IsBinary(g)
    ensures Row1(g, nx, ny, y, x) == g
  {
    if x > 0 {
      Row1OfBinary(g, nx, ny, y, x - 1);
      Step1OfBinary(g, nx, ny, y, x - 1);
    }
  }

  /** A black-and-white image is its own 1-bit dithering: every quantisation error is 0. */
  lemma {:induction false} Rows1OfBinary(g: seq<real>, nx: nat, ny: nat, y: nat)
    requires |g| == nx * ny && y <= ny && IsBinary(g)
    ensures Rows1(g, nx, ny, y) == g
  {
    if y > 0 {
      Rows1OfBinary(g, nx, ny, y - 1);
      Row1OfBinary(g, nx, ny, y - 1, nx);
    }
  }

  // ---------------------------------------------------------------------------------------
  // Floyd–Steinberg against a palette
  // ---------------------------------------------------------------------------------------

  function Sub(a: Sample, b: Sample): Sample
  {
    Sample(a.r - b.r, a.g - b.g, a.b - b.b)
  }

  /** `im_array(.., band) += quant_error * w` on all three bands. */
  function AddScaled(s: Sample, e: Sample, w: real): Sample
  {
    Sample(s.r + e.r * w, s.g + e.g * w, s.b + e.b * w)
  }

  /** The four neighbour updates of the "set colour" loop, all three bands at once. */
  function DiffuseRgb(g: seq<Sample>, nx: nat, ny: nat, y: nat, x: nat, e: Sample): (r: seq<Sample>)
    requires |g| == nx * ny && y < ny && x < nx
    ensures |r| == |g|
  {
    IdxInBounds(nx, ny, y, x);
    BelowInBounds(nx, ny, y, x);
    var k := Idx(nx, y, x);
    var right := if x < nx - 1 then g[k + 1 := AddScaled(g[k + 1], e, 7.0 / 16.0)] else g;
    var lowerLeft := if y < ny - 1 && x > 0 then right[k + nx - 1 := AddScaled(right[k + nx - 1], e, 3.0 / 16.0)] else right;
    var below := if y < ny - 1 then lowerLeft[k + nx := AddScaled(lowerLeft[k + nx], e, 5.0 / 16.0)] else lowerLeft;
    if y < ny - 1 && x < nx - 1 then below[k + nx + 1 := AddScaled(below[k + nx + 1], e, 1.0 / 16.0)] else below
  }

  /** The updates add to each pixel exactly its share of the error, band by band. */
  lemma DiffuseRgbShares(g: seq<Sample>, nx: nat, ny: nat, y: nat, x: nat, e: Sample)
    requires |g| == nx * ny && y < ny && x < nx
    ensures forall i :: 0 <= i < |g| ==> DiffuseRgb(g, nx, ny, y, x, e)[i] == AddScaled(g[i], e, Share(nx, ny, y, x, i))
  {
    forall i | 0 <= i < |g|
      ensures DiffuseRgb(g, nx, ny, y, x, e)[i] == AddScaled(g[i], e, Share(nx, ny, y, x, i))
    {
      DiffuseRgbAt(g, nx, ny, y, x, e, i);
    }
  }

  lemma DiffuseRgbAt(g: seq<Sample>, nx: nat, ny: nat, y: nat, x: nat, e: Sample, i: nat)
    requires |g| == nx * ny && y < ny && x < nx && i < |g|
    ensures DiffuseRgb(g, nx, ny, y, x, e)[i] == AddScaled(g[i], e, Share(nx, ny, y, x, i))
  {
    IdxInBounds(nx, ny, y, x);
    BelowInBounds(nx, ny, y, x);
  }

  /** The sample is one of the palette's colours. */
  predicate InPalette(s: Sample, pal: seq<Rgb>)
  {
    exists j :: 0 <= j < |pal| && s == ToSample(pal[j])
  }

  /** The palette colour the loop body assigns to a working value: clamp, then search. */
  function Quantise(s: Sample, pal: seq<Rgb>): (q: Sample)
    requires |pal| > 0
    ensures InPalette(q, pal)
  {
    var j := Nearest(Clamp(s), pal);
    ToSample(pal[j])
  }

  /**
   * The loop body at pixel (y, x): clamp the pixel, replace it by its nearest palette
   * colour, and diffuse the difference between the clamped value and that colour.
   */
  function StepRgb(g: seq<Sample>, pal: seq<Rgb>, nx: nat, ny: nat, y: nat, x: nat): (r: seq<Sample>)
    requires |g| == nx * ny && y < ny && x < nx && |pal| > 0
    ensures |r| == |g|
  {
    IdxInBounds(nx, ny, y, x);
    var k := Idx(nx, y, x);
    var q := Quantise(g[k], pal);
    DiffuseRgb(g[k := q], nx, ny, y, x, Sub(Clamp(g[k]), q))
  }

  function RowRgb(g: seq<Sample>, pal: seq<Rgb>, nx: nat, ny: nat, y: nat, x: nat): (r: seq<Sample>)
    requires |g| == nx * ny && y < ny && x <= nx && |pal| > 0
    ensures |r| == |g|
    decreases x
  {
    if x == 0 then g else StepRgb(RowRgb(g, pal, nx, ny, y, x - 1), pal, nx, ny, y, x - 1)
  }

  function RowsRgb(g: seq<Sample>, pal: seq<Rgb>, nx: nat, ny: nat, y: nat): (r: seq<Sample>)
    requires |g| == nx * ny && y <= ny && |pal| > 0
    ensures |r| == |g|
  {
    if y == 0 then g else RowRgb(RowsRgb(g, pal, nx, ny, y - 1), pal, nx, ny, y - 1, nx)
  }

  function VisitRgb(g: seq<Sample>, pal: seq<Rgb>, nx: nat, ny: nat, y: nat, x: nat): (r: seq<Sample>)
    requires |g| == nx * ny && y < ny && x < nx && |pal| > 0
    ensures |r| == |g|
  {
    RowRgb(RowsRgb(g, pal, nx, ny, y), pal, nx, ny, y, x)
  }

  lemma StepRgbFrame(g: seq<Sample>, pal: seq<Rgb>, nx: nat, ny: nat, y: nat, x: nat)
    requires |g| == nx * ny && y < ny && x < nx && |pal| > 0
    ensures Idx(nx, y, x) < |g|
    ensures forall i :: 0 <= i < Idx(nx, y, x) ==> StepRgb(g, pal, nx, ny, y, x)[i] == g[i]
    ensures StepRgb(g, pal, nx, ny, y, x)[Idx(nx, y, x)] == Quantise(g[Idx(nx, y, x)], pal)
  {
    IdxInBounds(nx, ny, y, x);
    var k := Idx(nx, y, x);
    var q := Quantise(g[k], pal);
    DiffuseRgbShares(g[k := q], nx, ny, y, x, Sub(Clamp(g[k]), q));
    forall i | 0 <= i <= k
      ensures Share(nx, ny, y, x, i) == 0.0
    {
      ShareGoesForward(nx, ny, y, x, i);
    }
  }

  lemma {:induction false} RowRgbFrame(g: seq<Sample>, pal: seq<Rgb>, nx: nat, ny: nat, y: nat, x1: nat, x2: nat)
    requires |g| == nx * ny && y < ny && x1 <= x2 <= nx && |pal| > 0
    ensures Idx(nx, y, x1) <= |g|
    ensures forall i :: 0 <= i < Idx(nx, y, x1) ==> RowRgb(g, pal, nx, ny, y, x2)[i] == RowRgb(g, pal, nx, ny, y, x1)[i]
    decreases x2
  {
    RowPrefixInBounds(nx, ny, y, x1);
    if x2 > x1 {
      var prev := RowRgb(g, pal, nx, ny, y, x2 - 1);
      RowRgbFrame(g, pal, nx, ny, y, x1, x2 - 1);
      StepRgbFrame(prev, pal, nx, ny, y, x2 - 1);
    }
  }

  lemma {:induction false} RowsRgbFrame(g: seq<Sample>, pal: seq<Rgb>, nx: nat, ny: nat, y1: nat, y2: nat)
    requires |g| == nx * ny && y1 <= y2 <= ny && |pal| > 0
    ensures y1 * nx <= |g|
    ensures forall i :: 0 <= i < y1 * nx ==> RowsRgb(g, pal, nx, ny, y2)[i] == RowsRgb(g, pal, nx, ny, y1)[i]
    decreases y2
  {
    RowStartMonotone(nx, y1, ny);
    if y2 > y1 {
      RowsRgbFrame(g, pal, nx, ny, y1, y2 - 1);
      RowRgbFrame(RowsRgb(g, pal, nx, ny, y2 - 1), pal, nx, ny, y2 - 1, 0, nx);
      RowStartMonotone(nx, y1, y2 - 1);
    }
  }

  /**
   * Pixel (y, x) of the output is the first nearest palette colour of the clamped working
   * value the loop found there, and nothing after that visit changes it.
   */
  lemma RgbOutput(g: seq<Sample>, pal: seq<Rgb>, nx: nat, ny: nat, y: nat, x: nat)
    requires |g| == nx * ny && y < ny && x < nx && |pal| > 0
    ensures Idx(nx, y, x) < |g|
    ensures RowsRgb(g, pal, nx, ny, ny)[Idx(nx, y, x)]
         == ToSample(pal[Nearest(Clamp(VisitRgb(g, pal, nx, ny, y, x)[Idx(nx, y, x)]), pal)])
    ensures IsFirstClosest(Clamp(VisitRgb(g, pal, nx, ny, y, x)[Idx(nx, y, x)]), pal,
                           Nearest(Clamp(VisitRgb(g, pal, nx, ny, y, x)[Idx(nx, y, x)]), pal))
  {
    IdxInBounds(nx, ny, y, x);
    RowsRgbFrame(g, pal, nx, ny, y + 1, ny);
    RowRgbFrame(RowsRgb(g, pal, nx, ny, y), pal, nx, ny, y, x + 1, nx);
    StepRgbFrame(VisitRgb(g, pal, nx, ny, y, x), pal, nx, ny, y, x);
    var s := Clamp(VisitRgb(g, pal, nx, ny, y, x)[Idx(nx, y, x)]);
    NearestIsFirstClosest(s, pal, Nearest(s, pal));
  }

  /** Every output pixel is some palette row. */
  lemma RgbOutputInPalette(g: seq<Sample>, pal: seq<Rgb>, nx: nat, ny: nat)
    requires |g| == nx * ny && |pal| > 0
    ensures forall i :: 0 <= i < |g| ==> InPalette(RowsRgb(g, pal, nx, ny, ny)[i], pal)
  {
    forall i | 0 <= i < |g|
      ensures InPalette(RowsRgb(g, pal, nx, ny, ny)[i], pal)
    {
      var y, x := Decompose(nx, ny, i);
      RgbOutput(g, pal, nx, ny, y, x);
    }
  }

  /** Every palette colour has byte channels and every pixel is already a palette colour. */
  predicate IsPaletteImage(g: seq<Sample>, pal: seq<Rgb>)
  {
    (forall j :: 0 <= j < |pal| ==> IsByteColour(pal[j]))
    && forall i :: 0 <= i < |g| ==> InPalette(g[i], pal)
  }

  lemma StepRgbOfPaletteImage(g: seq<Sample>, pal: seq<Rgb>, nx: nat, ny: nat, y: nat, x: nat)
    requires |g| == nx * ny && y < ny && x < nx && |pal| > 0 && IsPaletteImage(g, pal)
    ensures StepRgb(g, pal, nx, ny, y, x) == g
  {
    IdxInBounds(nx, ny, y, x);
    var k := Idx(nx, y, x);
    var j :| 0 <= j < |pal| && g[k] == ToSample(pal[j]);
    ClampOfByteColour(pal[j]);
    NearestOfPaletteColour(pal, j);
    assert Quantise(g[k], pal) == g[k];
    assert g[k := Quantise(g[k], pal)] == g;
    assert Sub(Clamp(g[k]), Quantise(g[k], pal)) == Sample(0.0, 0.0, 0.0);
    DiffuseRgbShares(g, nx, ny, y, x, Sample(0.0, 0.0, 0.0));
  }

  lemma {:induction false} RowRgbOfPaletteImage(g: seq<Sample>, pal: seq<Rgb>, nx: nat, ny: nat, y: nat, x: nat)
    requires |g| == nx * ny && y < ny && x <= nx && |pal| > 0 && IsPaletteImage(g, pal)
    ensures RowRgb(g, pal, nx, ny, y, x) == g
  {
    if x > 0 {
      RowRgbOfPaletteImage(g, pal, nx, ny, y, x - 1);
      StepRgbOfPaletteImage(g, pal, nx, ny, y, x - 1);
    }
  }

  /**
   * An image whose every pixel is already a byte palette colour is dithered to itself:
   * each quantisation error is 0, so no neighbour is ever disturbed.
   */
  lemma {:induction false} RowsRgbOfPaletteImage(g: seq<Sample>, pal: seq<Rgb>, nx: nat, ny: nat, y: nat)
    requires |g| == nx * ny && y <= ny && |pal| > 0 && IsPaletteImage(g, pal)
    ensures RowsRgb(g, pal, nx, ny, y) == g
  {
    if y > 0 {
      RowsRgbOfPaletteImage(g, pal, nx, ny, y - 1);
      RowRgbOfPaletteImage(g, pal, nx, ny, y - 1, nx);
    }
  }

  /** The per-band "set colour" and error-diffusion updates of pixel (y, x). */
  method DiffuseErrorRgb(imArray: array<Sample>, nx: nat, ny: nat, y: nat, x: nat, quantError: Sample)
    requires imArray.Length == nx * ny && y < ny && x < nx
    modifies imArray
    ensures imArray[..] == DiffuseRgb(old(imArray[..]), nx, ny, y, x, quantError)
  {
    var k := Idx(nx, y, x);
    IdxInBounds(nx, ny, y, x);
    if y + 1 < ny {
      IdxInBounds(nx, ny, y + 1, x);
      assert Idx(nx, y + 1, x) == k + nx;
    }
    if x < nx - 1 {
      imArray[k + 1] := AddScaled(imArray[k + 1], quantError, 7.0 / 16.0);
    }
    if y < ny - 1 {
      if x > 0 {
        imArray[k + nx - 1] := AddScaled(imArray[k + nx - 1], quantError, 3.0 / 16.0);
      }
      imArray[k + nx] := AddScaled(imArray[k + nx], quantError, 5.0 / 16.0);
      if x < nx - 1 {
        imArray[k + nx + 1] := AddScaled(imArray[k + nx + 1], quantError, 1.0 / 16.0);
      }
    }
  }

  /** The loop body of `floyd_steinberg_rgb` at pixel (y, x). */
  method DitherPixelRgb(imArray: array<Sample>, pal: seq<Rgb>, nx: nat, ny: nat, y: nat, x: nat)
    requires imArray.Length == nx * ny && y < ny && x < nx && |pal| > 0
    modifies imArray
    ensures imArray[..] == StepRgb(old(imArray[..]), pal, nx, ny, y, x)
  {
    IdxInBounds(nx, ny, y, x);
    var k := Idx(nx, y, x);
    ghost var before := imArray[..];
    // Clamp colour
    imArray[k] := Clamp(imArray[k]);
    // Find nearest colour
    var colIdx, nearest := FindNearest(imArray[k], pal);
    // Set colour
    var oldValue := imArray[k];
    var newValue := ToSample(pal[colIdx]);
    var quantError := Sub(oldValue, newValue);
    imArray[k] := newValue;
    assert imArray[..] == before[k := Quantise(before[k], pal)];
    DiffuseErrorRgb(imArray, nx, ny, y, x, quantError);
  }

  /**
   * `floyd_steinberg_rgb` on the 'RGB' decoding of the image. The palette must not be
   * empty: with no entries the C loop reads `pal_array(-1, band)`.
   */
  method FloydSteinbergRgb(img: seq<Sample>, pal: seq<Rgb>, nx: nat, ny: nat) returns (out: seq<Sample>)
    requires |img| == nx * ny && |pal| > 0
    ensures out == RowsRgb(img, pal, nx, ny, ny)
  {
    var imArray := new Sample[|img|](i requires 0 <= i < |img| => img[i]);
    for y := 0 to ny
      invariant imArray[..] == RowsRgb(img, pal, nx, ny, y)
    {
      for x := 0 to nx
        invariant imArray[..] == RowRgb(RowsRgb(img, pal, nx, ny, y), pal, nx, ny, y, x)
      {
        DitherPixelRgb(imArray, pal, nx, ny, y, x);
      }
    }
    out := imArray[..];
  }

  // ---------------------------------------------------------------------------------------
  // Dispatch
  // ---------------------------------------------------------------------------------------

  /** The dithered buffer `floyd_steinberg` hands to `Image.fromarray`. */
  datatype Dithered = RgbImage(pixels: seq<Sample>) | MonoImage(levels: seq<real>)

  /**
   * `floyd_steinberg(image, palette, mode)`. The image is given by both of its decodings,
   * 'RGB' (`rgb`) and 'L' (`grey`). Mode "RGB" without a palette and any mode other than
   * "RGB" and "1" give None.
   */
  method FloydSteinberg(rgb: seq<Sample>, grey: seq<real>, nx: nat, ny: nat,
                        palette: Option<seq<Rgb>>, mode: string) returns (r: Option<Dithered>)
    requires |rgb| == nx * ny && |grey| == nx * ny
    requires mode == "RGB" && palette.Some? ==> |palette.value| > 0
    ensures mode == "RGB" && palette.None? ==> r == None
    ensures mode == "RGB" && palette.Some? ==> r == Some(RgbImage(RowsRgb(rgb, palette.value, nx, ny, ny)))
    ensures mode == "1" ==> r == Some(MonoImage(Rows1(grey, nx, ny, ny)))
    ensures mode != "RGB" && mode != "1" ==> r == None
  {
    if mode == "RGB" {
      if palette.None? {
        return None;
      }
      var out := FloydSteinbergRgb(rgb, palette.value, nx, ny);
      return Some(RgbImage(out));
    } else if mode == "1" {
      var out := FloydSteinberg1Bit(grey, nx, ny);
      return Some(MonoImage(out));
    } else {
      return None;
    }
  }

  // ---------------------------------------------------------------------------------------
  // Ordered dithering
  // ---------------------------------------------------------------------------------------

  /**
   * An n-by-n threshold table in row-major order: it holds each rank 1 .. n * n exactly
   * once.
   */
  predicate IsRankTable(t: seq<int>, n: nat)
  {
    && |t| == n * n
    && (forall i :: 0 <= i < |t| ==> 1 <= t[i] <= n * n)
    && (forall i, j :: 0 <= i < j < |t| ==> t[i] != t[j])
    && (forall v :: 1 <= v <= n * n ==> v in t)
  }

  /** A table is a rank table when `pos` inverts it: pos[v - 1] is where rank v sits. */
  lemma RankTableByPositions(t: seq<int>, n: nat, pos: seq<int>)
    requires |t| == n * n && |pos| == n * n
    requires forall i :: 0 <= i < |t| ==> 1 <= t[i] <= n * n && pos[t[i] - 1] == i
    requires forall r :: 0 <= r < |pos| ==> 0 <= pos[r] < |t| && t[pos[r]] == r + 1
    ensures IsRankTable(t, n)
  {
    forall i, j | 0 <= i < j < |t|
      ensures t[i] != t[j]
    {
      assert pos[t[i] - 1] == i && pos[t[j] - 1] == j;
    }
    forall v | 1 <= v <= n * n
      ensures v in t
    {
      assert t[pos[v - 1]] == v - 1 + 1;
    }
  }

  const Tm2x2: seq<int> := [1, 3, 4, 2]

  const Tm3x3: seq<int> := [3, 7, 4, 6, 1, 9, 2, 8, 5]

  const Tm4x4: seq<int> := [1, 9, 3, 11, 13, 5, 15, 7, 4, 12, 2, 10, 16, 8, 14, 6]

  const Tm8x8: seq<int> :=
    (([1, 49, 13, 61, 4, 52, 16, 64] + [33, 17, 45, 29, 36, 20, 48, 32])
     + ([9, 57, 5, 53, 12, 60, 8, 56] + [41, 25, 37, 21, 44, 28, 40, 24]))
    + (([3, 51, 15, 63, 2, 50, 14, 62] + [35, 19, 47, 31, 34, 18, 46, 30])
       + ([11, 59, 7, 55, 10, 58, 6, 54] + [43, 27, 39, 23, 42, 26, 38, 22]))

  lemma Tm2x2IsRankTable()
    ensures IsRankTable(Tm2x2, 2)
  {
    RankTableByPositions(Tm2x2, 2, [0, 3, 1, 2]);
  }

  lemma Tm3x3IsRankTable()
    ensures IsRankTable(Tm3x3, 3)
  {
    RankTableByPositions(Tm3x3, 3, [4, 6, 0, 2, 8, 3, 1, 7, 5]);
  }

  lemma Tm4x4IsRankTable()
    ensures IsRankTable(Tm4x4, 4)
  {
    RankTableByPositions(Tm4x4, 4, [0, 10, 2, 8, 5, 15, 7, 13, 1, 11, 3, 9, 4, 14, 6, 12]);
  }

  /** Where each rank sits in Tm8x8: rank v at position Tm8x8Positions[v - 1]. */
  const Tm8x8Positions: seq<int> :=
    (([0, 36, 32, 4, 18, 54, 50, 22] + [16, 52, 48, 20, 2, 38, 34, 6])
     + ([9, 45, 41, 13, 27, 63, 59, 31] + [25, 61, 57, 29, 11, 47, 43, 15]))
    + (([8, 44, 40, 12, 26, 62, 58, 30] + [24, 60, 56, 28, 10, 46, 42, 14])
       + ([1, 37, 33, 5, 19, 55, 51, 23] + [17, 53, 49, 21, 3, 39, 35, 7]))

  lemma Tm8x8Ranks0()
    ensures forall i :: 0 <= i < 16 ==> 1 <= Tm8x8[i] <= 64 && Tm8x8Positions[Tm8x8[i] - 1] == i
  {
  }

  lemma Tm8x8Ranks1()
    ensures forall i :: 16 <= i < 32 ==> 1 <= Tm8x8[i] <= 64 && Tm8x8Positions[Tm8x8[i] - 1] == i
  {
  }

  lemma Tm8x8Ranks2()
    ensures forall i :: 32 <= i < 48 ==> 1 <= Tm8x8[i] <= 64 && Tm8x8Positions[Tm8x8[i] - 1] == i
  {
  }

  lemma Tm8x8Ranks3()
    ensures forall i :: 48 <= i < 64 ==> 1 <= Tm8x8[i] <= 64 && Tm8x8Positions[Tm8x8[i] - 1] == i
  {
  }

  lemma Tm8x8Positions0()
    ensures forall r :: 0 <= r < 16 ==> 0 <= Tm8x8Positions[r] < 64 && Tm8x8[Tm8x8Positions[r]] == r + 1
  {
  }

  lemma Tm8x8Positions1()
    ensures forall r :: 16 <= r < 32 ==> 0 <= Tm8x8Positions[r] < 64 && Tm8x8[Tm8x8Positions[r]] == r + 1
  {
  }

  lemma Tm8x8Positions2()
    ensures forall r :: 32 <= r < 48 ==> 0 <= Tm8x8Positions[r] < 64 && Tm8x8[Tm8x8Positions[r]] == r + 1
  {
  }

  lemma Tm8x8Positions3()
    ensures forall r :: 48 <= r < 64 ==> 0 <= Tm8x8Positions[r] < 64 && Tm8x8[Tm8x8Positions[r]] == r + 1
  {
  }

  lemma Tm8x8IsRankTable()
    ensures IsRankTable(Tm8x8, 8)
  {
    Tm8x8Ranks0();
    Tm8x8Ranks1();
    Tm8x8Ranks2();
    Tm8x8Ranks3();
    Tm8x8Positions0();
    Tm8x8Positions1();
    Tm8x8Positions2();
    Tm8x8Positions3();
    RankTableByPositions(Tm8x8, 8, Tm8x8Positions);
  }

  /** An m-by-m matrix of per-pixel biases, m > 0. */
  predicate IsBiasMatrix(bias: seq<seq<real>>, m: nat)
  {
    m > 0 && |bias| == m && forall r :: 0 <= r < m ==> |bias[r]| == m
  }

  /** The bias plane of the first y rows of an nx-wide image: the matrix repeated in both directions. */
  function Tile(bias: seq<seq<real>>, m: nat, nx: nat, y: nat): (t: seq<real>)
    requires IsBiasMatrix(bias, m)
    ensures |t| == y * nx
  {
    if y == 0 then []
    else
      assert y * nx == (y - 1) * nx + nx;
      Tile(bias, m, nx, y - 1) + seq(nx, x requires 0 <= x < nx => bias[(y - 1) % m][x % m])
  }

  /** Pixel (y, x) of the plane is matrix entry (y mod m, x mod m). */
  lemma {:induction false} TileAt(bias: seq<seq<real>>, m: nat, nx: nat, ny: nat, y: nat, x: nat)
    requires IsBiasMatrix(bias, m) && y < ny && x < nx
    ensures Idx(nx, y, x) < |Tile(bias, m, nx, ny)|
    ensures Tile(bias, m, nx, ny)[Idx(nx, y, x)] == bias[y % m][x % m]
    decreases ny
  {
    IdxInBounds(nx, ny, y, x);
    if y < ny - 1 {
      TileAt(bias, m, nx, ny - 1, y, x);
    } else {
      assert Idx(nx, y, x) == (ny - 1) * nx + x;
    }
  }

  /** `im_array[:,:,band] += bmatrix` on all three bands. */
  function Biased(s: Sample, b: real): Sample
  {
    Sample(s.r + b, s.g + b, s.b + b)
  }

  /** The buffer after the bias planes have been added. */
  function BiasedImage(img: seq<Sample>, bias: seq<seq<real>>, m: nat, nx: nat, ny: nat): (r: seq<Sample>)
    requires |img| == nx * ny && IsBiasMatrix(bias, m)
    ensures |r| == |img|
  {
    var plane := Tile(bias, m, nx, ny);
    seq(|img|, i requires 0 <= i < |img| => Biased(img[i], plane[i]))
  }

  /** Pixel (y, x) of the biased buffer is the input pixel plus matrix entry (y mod m, x mod m) on every band. */
  lemma BiasedImageAt(img: seq<Sample>, bias: seq<seq<real>>, m: nat, nx: nat, ny: nat, y: nat, x: nat)
    requires |img| == nx * ny && IsBiasMatrix(bias, m) && y < ny && x < nx
    ensures Idx(nx, y, x) < |img|
    ensures BiasedImage(img, bias, m, nx, ny)[Idx(nx, y, x)] == Biased(img[Idx(nx, y, x)], bias[y % m][x % m])
  {
    TileAt(bias, m, nx, ny, y, x);
  }

  /** What `bayer` makes of the buffer: each biased pixel replaced by its first nearest palette colour. */
  function OrderedRgb(img: seq<Sample>, bias: seq<seq<real>>, m: nat, nx: nat, ny: nat, pal: seq<Rgb>): (r: seq<Sample>)
    requires |img| == nx * ny && IsBiasMatrix(bias, m) && |pal| > 0
    ensures |r| == |img|
  {
    var biased := BiasedImage(img, bias, m, nx, ny);
    seq(|img|, i requires 0 <= i < |img| => Quantise(biased[i], pal))
  }

  /**
   * Pixel (y, x) of `bayer`'s output depends on input pixel (y, x) and its bias entry alone:
   * it is the lowest-index palette colour nearest to the clamped biased value.
   */
  lemma OrderedRgbPixel(img: seq<Sample>, bias: seq<seq<real>>, m: nat, nx: nat, ny: nat, pal: seq<Rgb>, y: nat, x: nat)
    requires |img| == nx * ny && IsBiasMatrix(bias, m) && |pal| > 0 && y < ny && x < nx
    ensures Idx(nx, y, x) < |img|
    ensures OrderedRgb(img, bias, m, nx, ny, pal)[Idx(nx, y, x)]
         == ToSample(pal[Nearest(Clamp(Biased(img[Idx(nx, y, x)], bias[y % m][x % m])), pal)])
    ensures IsFirstClosest(Clamp(Biased(img[Idx(nx, y, x)], bias[y % m][x % m])), pal,
                           Nearest(Clamp(Biased(img[Idx(nx, y, x)], bias[y % m][x % m])), pal))
    ensures InPalette(OrderedRgb(img, bias, m, nx, ny, pal)[Idx(nx, y, x)], pal)
  {
    TileAt(bias, m, nx, ny, y, x);
    var s := Clamp(Biased(img[Idx(nx, y, x)], bias[y % m][x % m]));
    NearestIsFirstClosest(s, pal, Nearest(s, pal));
  }

  /** `im_array[:,:,band] += bmatrix`, band by band: elementwise over the buffer. */
  method AddBiasRgb(imArray: array<Sample>, bmatrix: seq<real>)
    requires imArray.Length == |bmatrix|
    modifies imArray
    ensures forall j :: 0 <= j < imArray.Length ==> imArray[j] == Biased(old(imArray[j]), bmatrix[j])
  {
    for i := 0 to imArray.Length
      invariant forall j :: 0 <= j < i ==> imArray[j] == Biased(old(imArray[j]), bmatrix[j])
      invariant forall j :: i <= j < imArray.Length ==> imArray[j] == old(imArray[j])
    {
      imArray[i] := Biased(imArray[i], bmatrix[i]);
    }
  }

  /**
   * The C loop of `bayer`: each pixel is replaced by its nearest palette colour, the
   * clamping happening inside the distance computation and never written back.
   */
  method NearestPixels(imArray: array<Sample>, pal: seq<Rgb>, nx: nat, ny: nat)
    requires imArray.Length == nx * ny && |pal| > 0
    modifies imArray
    ensures forall j :: 0 <= j < imArray.Length ==> imArray[j] == Quantise(old(imArray[j]), pal)
  {
    ghost var k := 0;
    RowStartMonotone(nx, 0, ny);
    for y := 0 to ny
      invariant k == y * nx <= imArray.Length
      invariant forall j :: 0 <= j < k ==> imArray[j] == Quantise(old(imArray[j]), pal)
      invariant forall j :: k <= j < imArray.Length ==> imArray[j] == old(imArray[j])
    {
      for x := 0 to nx
        invariant k == Idx(nx, y, x) <= imArray.Length
        invariant forall j :: 0 <= j < k ==> imArray[j] == Quantise(old(imArray[j]), pal)
        invariant forall j :: k <= j < imArray.Length ==> imArray[j] == old(imArray[j])
      {
        IdxInBounds(nx, ny, y, x);
        var colIdx, nearest := FindNearest(Clamp(imArray[Idx(nx, y, x)]), pal);
        imArray[Idx(nx, y, x)] := ToSample(pal[colIdx]);
        k := k + 1;
        RowPrefixInBounds(nx, ny, y, x + 1);
      }
      assert Idx(nx, y, nx) == (y + 1) * nx;
      RowStartMonotone(nx, y + 1, ny);
    }
  }

  /**
   * `bayer`, with the bias matrix as a parameter: the bias planes are added to the three
   * bands, then the C loop replaces each pixel by its nearest palette colour. An empty
   * palette would make the loop read `pal_array(-1, band)`.
   */
  method Bayer(img: seq<Sample>, bias: seq<seq<real>>, m: nat, nx: nat, ny: nat, pal: seq<Rgb>)
    returns (out: seq<Sample>)
    requires |img| == nx * ny && IsBiasMatrix(bias, m) && |pal| > 0
    ensures out == OrderedRgb(img, bias, m, nx, ny, pal)
  {
    var imArray := new Sample[|img|](i requires 0 <= i < |img| => img[i]);
    var bmatrix := Tile(bias, m, nx, ny);
    // Add Bayer matrix
    AddBiasRgb(imArray, bmatrix);
    assert imArray[..] == BiasedImage(img, bias, m, nx, ny);
    // Find nearest pixels
    NearestPixels(imArray, pal, nx, ny);
    out := imArray[..];
  }

  /** `col = floor(v / 2.0); col = col < 129 ? 0 : 255`. */
  function Bayer1Level(v: real): (c: real)
    ensures c == 0.0 || c == 255.0
  {
    if (v / 2.0).Floor < 129 then 0.0 else 255.0
  }

  /** The level is white exactly from 258 upwards: halving then flooring moves the threshold. */
  lemma Bayer1LevelThreshold(v: real)
    ensures Bayer1Level(v) == 255.0 <==> v >= 258.0
  {
  }

  /** What `bayer_1` makes of the grey buffer: each biased pixel thresholded on its own. */
  function Ordered1(img: seq<real>, bias: seq<seq<real>>, m: nat, nx: nat, ny: nat): (r: seq<real>)
    requires |img| == nx * ny && IsBiasMatrix(bias, m)
    ensures |r| == |img|
  {
    var plane := Tile(bias, m, nx, ny);
    seq(|img|, i requires 0 <= i < |img| => Bayer1Level(img[i] + plane[i]))
  }

  lemma Ordered1Pixel(img: seq<real>, bias: seq<seq<real>>, m: nat, nx: nat, ny: nat, y: nat, x: nat)
    requires |img| == nx * ny && IsBiasMatrix(bias, m) && y < ny && x < nx
    ensures Idx(nx, y, x) < |img|
    ensures Ordered1(img, bias, m, nx, ny)[Idx(nx, y, x)] == 255.0
        <==> img[Idx(nx, y, x)] + bias[y % m][x % m] >= 258.0
    ensures Ordered1(img, bias, m, nx, ny)[Idx(nx, y, x)] == 0.0
        <==> img[Idx(nx, y, x)] + bias[y % m][x % m] < 258.0
  {
    TileAt(bias, m, nx, ny, y, x);
    Bayer1LevelThreshold(img[Idx(nx, y, x)] + bias[y % m][x % m]);
  }

  /** `im_array += bmatrix`. */
  method AddBias1(imArray: array<real>, bmatrix: seq<real>)
    requires imArray.Length == |bmatrix|
    modifies imArray
    ensures forall j :: 0 <= j < imArray.Length ==> imArray[j] == old(imArray[j]) + bmatrix[j]
  {
    for i := 0 to imArray.Length
      invariant forall j :: 0 <= j < i ==> imArray[j] == old(imArray[j]) + bmatrix[j]
      invariant forall j :: i <= j < imArray.Length ==> imArray[j] == old(imArray[j])
    {
      imArray[i] := imArray[i] + bmatrix[i];
    }
  }

  /** The C loop of `bayer_1`: each pixel replaced by its own level. */
  method LevelPixels(imArray: array<real>, nx: nat, ny: nat)
    requires imArray.Length == nx * ny
    modifies imArray
    ensures forall j :: 0 <= j < imArray.Length ==> imArray[j] == Bayer1Level(old(imArray[j]))
  {
    ghost var k := 0;
    RowStartMonotone(nx, 0, ny);
    for y := 0 to ny
      invariant k == y * nx <= imArray.Length
      invariant forall j :: 0 <= j < k ==> imArray[j] == Bayer1Level(old(imArray[j]))
      invariant forall j :: k <= j < imArray.Length ==> imArray[j] == old(imArray[j])
    {
      for x := 0 to nx
        invariant k == Idx(nx, y, x) <= imArray.Length
        invariant forall j :: 0 <= j < k ==> imArray[j] == Bayer1Level(old(imArray[j]))
        invariant forall j :: k <= j < imArray.Length ==> imArray[j] == old(imArray[j])
      {
        IdxInBounds(nx, ny, y, x);
        var col := (imArray[Idx(nx, y, x)] / 2.0).Floor;
        imArray[Idx(nx, y, x)] := if col < 129 then 0.0 else 255.0;
        k := k + 1;
        RowPrefixInBounds(nx, ny, y, x + 1);
      }
      assert Idx(nx, y, nx) == (y + 1) * nx;
      RowStartMonotone(nx, y + 1, ny);
    }
  }

  /** `bayer_1`, with the bias matrix as a parameter. */
  method Bayer1(img: seq<real>, bias: seq<seq<real>>, m: nat, nx: nat, ny: nat) returns (out: seq<real>)
    requires |img| == nx * ny && IsBiasMatrix(bias, m)
    ensures out == Ordered1(img, bias, m, nx, ny)
  {
    var imArray := new real[|img|](i requires 0 <= i < |img| => img[i]);
    var bmatrix := Tile(bias, m, nx, ny);
    // Add Bayer matrix
    AddBias1(imArray, bmatrix);
    // Find nearest pixels
    LevelPixels(imArray, nx, ny);
    out := imArray[..];
  }
}
