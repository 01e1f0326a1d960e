/**
 * scripts/quant_test.py, `recolour4`: recolouring an image to a palette with an inline C
 * loop over the flat pixel buffer.
 *
 * The palette is first converted to an unsigned-byte array; the image is reshaped into a
 * buffer of `width * height` pixels in row-major order. For each pixel the C code scans
 * the palette with integer squared distances, keeping an index that starts at -1 and moves
 * only on a strictly smaller distance, and then overwrites the pixel in place with that
 * palette entry. The buffer is reshaped back to `height` rows of `width` pixels.
 */
module QuantTest {
  import opened Colours
  import opened Raster

  // ---------------------------------------------------------------------------------------
  // np.array(pal, dtype=np.uint8)
  // ---------------------------------------------------------------------------------------

  /** Conversion of one channel to an unsigned byte: the value modulo 256. */
  function ToUint8(v: int): (b: int)
    ensures 0 <= b < 256
    ensures (b - v) % 256 == 0
  {
    v % 256
  }

  function Uint8Colour(c: Rgb): Rgb
  {
    Rgb(ToUint8(c.r), ToUint8(c.g), ToUint8(c.b))
  }

  /** `pal_array`: the palette with each channel converted to an unsigned byte. */
  function PalArray(pal: seq<Rgb>): (r: seq<Rgb>)
    ensures |r| == |pal|
  {
    seq(|pal|, i requires 0 <= i < |pal| => Uint8Colour(pal[i]))
  }

  /** Every entry of the converted palette is a byte colour, and a byte palette is unchanged. */
  lemma PalArrayBytes(pal: seq<Rgb>)
    ensures forall i :: 0 <= i < |pal| ==> IsByteColour(PalArray(pal)[i])
    ensures (forall i :: 0 <= i < |pal| ==> IsByteColour(pal[i])) ==> PalArray(pal) == pal
  {
  }

  /** Out-of-range channels wrap round: 256 becomes 0, 300 becomes 44 and -1 becomes 255. */
  lemma PalArrayWraps()
    ensures PalArray([Rgb(256, 300, -1)]) == [Rgb(0, 44, 255)]
  {
    assert PalArray([Rgb(256, 300, -1)])[0] == Rgb(0, 44, 255);
  }

  // ---------------------------------------------------------------------------------------
  // What the C loop computes
  // ---------------------------------------------------------------------------------------

  /** The palette entry one pixel is replaced by. */
  function RecolourPixel(px: Rgb, pal: seq<Rgb>): (r: Rgb)
    requires |pal| > 0
    ensures r in pal
  {
    pal[Nearest(ToSample(px), pal)]
  }

  /** The whole buffer after the loop: every pixel replaced by its palette entry. */
  function Recoloured(pixels: seq<Rgb>, pal: seq<Rgb>): (r: seq<Rgb>)
    requires |pal| > 0
    ensures |r| == |pixels|
  {
    seq(|pixels|, i requires 0 <= i < |pixels| => RecolourPixel(pixels[i], pal))
  }

  /**
   * A pixel is replaced by a palette entry of least squared distance, and when there are
   * several, by the one of lowest index (the strict `<` of the comparison).
   */
  lemma RecolourPixelIsNearest(px: Rgb, pal: seq<Rgb>, k: nat)
    requires |pal| > 0
    ensures RecolourPixel(px, pal) in pal
    ensures forall j :: 0 <= j < |pal| ==> SqDist(px, RecolourPixel(px, pal)) <= SqDist(px, pal[j])
    ensures IsFirstNearest(px, pal, k) ==> RecolourPixel(px, pal) == pal[k]
  {
    NearestIsFirstNearest(px, pal, k);
  }

  /** A pixel that already is a palette colour is left as it is. */
  lemma RecolourPixelOfPaletteColour(px: Rgb, pal: seq<Rgb>)
    requires px in pal
    ensures RecolourPixel(px, pal) == px
  {
    var j :| 0 <= j < |pal| && pal[j] == px;
    NearestOfPaletteColour(pal, j);
  }

  /** Every pixel of the result is a palette entry. */
  lemma RecolouredInPalette(pixels: seq<Rgb>, pal: seq<Rgb>)
    requires |pal| > 0
    ensures forall i :: 0 <= i < |pixels| ==> Recoloured(pixels, pal)[i] in pal
  {
    forall i | 0 <= i < |pixels|
      ensures Recoloured(pixels, pal)[i] in pal
    {
      RecolourPixelIsNearest(pixels[i], pal, 0);
    }
  }

  /** Recolouring twice is recolouring once. */
  lemma RecolourIdempotent(pixels: seq<Rgb>, pal: seq<Rgb>)
    requires |pal| > 0
    ensures Recoloured(Recoloured(pixels, pal), pal) == Recoloured(pixels, pal)
  {
    var once := Recoloured(pixels, pal);
    forall i | 0 <= i < |pixels|
      ensures Recoloured(once, pal)[i] == once[i]
    {
      RecolourPixelIsNearest(pixels[i], pal, 0);
      RecolourPixelOfPaletteColour(once[i], pal);
    }
  }

  /**
   * Pixels are recoloured independently: recolouring a buffer is recolouring any split of it
   * piece by piece, so each output pixel depends on its own input pixel only.
   */
  lemma RecolouredConcat(a: seq<Rgb>, b: seq<Rgb>, pal: seq<Rgb>)
    requires |pal| > 0
    ensures Recoloured(a + b, pal) == Recoloured(a, pal) + Recoloured(b, pal)
  {
    var r := Recoloured(a + b, pal);
    forall i | 0 <= i < |a| + |b|
      ensures r[i] == (Recoloured(a, pal) + Recoloured(b, pal))[i]
    {
      if i < |a| {
        assert (a + b)[i] == a[i];
      } else {
        assert (a + b)[i] == b[i - |a|];
      }
    }
  }

  /**
   * The reshapes keep pixel (y, x) of a width-w, height-h image at element y * w + x of the
   * buffer, so the pixel at (y, x) of the result is the recolouring of the pixel at (y, x).
   */
  lemma RecolouredAtPixel(pixels: seq<Rgb>, pal: seq<Rgb>, w: nat, h: nat, y: nat, x: nat)
    requires |pal| > 0 && |pixels| == w * h && y < h && x < w
    ensures Idx(w, y, x) < |Recoloured(pixels, pal)|
    ensures Recoloured(pixels, pal)[Idx(w, y, x)] == RecolourPixel(pixels[Idx(w, y, x)], pal)
  {
    IdxInBounds(w, h, y, x);
  }

  // ---------------------------------------------------------------------------------------
  // The C code
  // ---------------------------------------------------------------------------------------

  /**
   * The inner loop over `c < nc`: `n_idx` and `n_dist` start at -1, and entry c is taken
   * when `n_idx == -1 || dist < n_dist`, with the distance summed from the three squared
   * integer channel differences.
   */
  method NearestIndex(px: Rgb, palArray: seq<Rgb>) returns (nIdx: int)
    ensures |palArray| == 0 ==> nIdx == -1
    ensures |palArray| > 0 ==> 0 <= nIdx < |palArray| && nIdx == Nearest(ToSample(px), palArray)
  {
    nIdx := -1;
    var nDist := -1;
    for c := 0 to |palArray|
      invariant c == 0 ==> nIdx == -1
      invariant c > 0 ==> 0 <= nIdx < c && nIdx == NearestIn(ToSample(px), palArray, c)
      invariant c > 0 ==> nDist == SqDist(px, palArray[nIdx])
    {
      var rdist := px.r - palArray[c].r;
      rdist := rdist * rdist;
      var gdist := px.g - palArray[c].g;
      gdist := gdist * gdist;
      var bdist := px.b - palArray[c].b;
      bdist := bdist * bdist;
      var dist := rdist + gdist + bdist;
      assert dist == SqDist(px, palArray[c]);
      if c > 0 {
        DistOfIntegers(px, palArray[c]);
        DistOfIntegers(px, palArray[nIdx]);
      }
      if nIdx == -1 || dist < nDist {
        nIdx := c;
        nDist := dist;
      }
    }
  }

  /**
   * `recolour4` on the flat buffer `im_array`: for each `i < nx` find the nearest entry of
   * `pal_array` and write its three channels over pixel i.
   */
  method Recolour4(imArray: array<Rgb>, pal: seq<Rgb>)
    requires |pal| > 0
    modifies imArray
    ensures imArray[..] == Recoloured(old(imArray[..]), PalArray(pal))
  {
    var palArray := PalArray(pal);
    var nx := imArray.Length;
    for i := 0 to nx
      invariant forall k :: 0 <= k < i ==> imArray[k] == RecolourPixel(old(imArray[k]), palArray)
      invariant forall k :: i <= k < nx ==> imArray[k] == old(imArray[k])
    {
      var nIdx := NearestIndex(imArray[i], palArray);
      imArray[i] := Rgb(palArray[nIdx].r, palArray[nIdx].g, palArray[nIdx].b);
    }
  }
}
