/**
 * palette.py: the grey palette generator and the exact palette remap.
 *
 * `create_mono_palette(n)` spaces n grey levels by the integer step 255 / (n - 1).
 * `replace_colours(image, pal_a, pal_b)` packs each colour into one integer key, maps every
 * pixel's key to its index in `pal_a` and the index to the colour of `pal_b`; a pixel whose
 * colour is not in `pal_a`, or an index `pal_b` does not have, is a KeyError.
 */
module Palette {
  import opened Errors
  import opened Colours

  // ---------------------------------------------------------------------------------------
  // create_mono_palette
  // ---------------------------------------------------------------------------------------

  function Grey(level: int): Rgb
  {
    Rgb(level, level, level)
  }

  /**
   * `create_mono_palette(n)`. With n == 1 the step divides by zero; with n <= 0 the range is
   * empty (the step is still computed, by a non-zero divisor, and not used).
   */
  function MonoPalette(n: int): (r: Result<seq<Rgb>>)
    ensures n == 1 <==> r == Err(DivisionByZero)
    ensures r.Ok? ==> |r.value| == (if n <= 0 then 0 else n)
  {
    if n == 1 then Err(DivisionByZero)
    else if n <= 0 then Ok([])
    else
      var step := 255 / (n - 1);
      Ok(seq(n, i => Grey(i * step)))
  }

  /** The step of an n-level palette, and the fact that n - 1 steps do not pass 255. */
  lemma StepBound(n: int)
    requires n >= 2
    ensures 0 <= 255 / (n - 1) && (n - 1) * (255 / (n - 1)) <= 255
    ensures (n - 1) * (255 / (n - 1)) == 255 - 255 % (n - 1)
  {
    var d, q := n - 1, 255 / (n - 1);
    assert 255 == d * q + 255 % d;
  }

  /** Every entry is a grey byte colour, the first is black, and the levels never decrease. */
  lemma MonoPaletteEntries(n: int, i: nat, j: nat)
    requires n >= 2 && i <= j < n
    ensures MonoPalette(n).Ok? && |MonoPalette(n).value| == n
    ensures var p := MonoPalette(n).value;
      && p[0] == Grey(0)
      && IsByteColour(p[j]) && p[j].r == p[j].g == p[j].b
      && p[i].r <= p[j].r
  {
    var step := 255 / (n - 1);
    StepBound(n);
    MulMonotoneNat(step, j, n - 1);
    MulMonotoneNat(step, i, j);
  }

  lemma MulMonotoneNat(k: nat, a: nat, b: nat)
    requires a <= b
    ensures a * k <= b * k
  {
    assert b * k - a * k == (b - a) * k;
  }

  /** With at most 256 levels the step is positive, so the levels strictly increase. */
  lemma MonoPaletteIncreasing(n: int, i: nat, j: nat)
    requires 2 <= n <= 256 && i < j < n
    ensures MonoPalette(n).Ok? && MonoPalette(n).value[i].r < MonoPalette(n).value[j].r
  {
    var step := 255 / (n - 1);
    StepPositive(n);
    MulMonotoneNat(step, 1, j - i);
    assert j * step == i * step + (j - i) * step;
  }

  lemma StepPositive(n: int)
    requires 2 <= n <= 256
    ensures 255 / (n - 1) >= 1
  {
  }

  /** With more than 256 levels the step is 0 and every entry is black. */
  lemma MonoPaletteFlat(n: int, i: nat)
    requires n > 256 && i < n
    ensures MonoPalette(n).Ok? && MonoPalette(n).value[i] == Grey(0)
  {
    assert 255 / (n - 1) == 0;
  }

  /** The last level is white exactly when n - 1 divides 255. */
  lemma MonoPaletteEndsWhite(n: int)
    requires n >= 2
    ensures MonoPalette(n).Ok?
    ensures MonoPalette(n).value[n - 1] == Grey(255) <==> 255 % (n - 1) == 0
  {
    StepBound(n);
  }

  /** Two levels are black and white; four are 0, 85, 170, 255; sixteen go up by 17. */
  lemma MonoPaletteExamples()
    ensures MonoPalette(2) == Ok([Grey(0), Grey(255)])
    ensures MonoPalette(4) == Ok([Grey(0), Grey(85), Grey(170), Grey(255)])
    ensures MonoPalette(16).Ok? && |MonoPalette(16).value| == 16
    ensures forall i :: 0 <= i < 16 ==> MonoPalette(16).value[i] == Grey(17 * i)
  {
    assert 255 / 3 == 85;
    assert 255 / 15 == 17;
    var p2 := MonoPalette(2).value;
    assert p2[0] == Grey(0) && p2[1] == Grey(255);
    assert p2 == [Grey(0), Grey(255)];
    var p4 := MonoPalette(4).value;
    assert p4[0] == Grey(0) && p4[1] == Grey(85) && p4[2] == Grey(170) && p4[3] == Grey(255);
    assert p4 == [Grey(0), Grey(85), Grey(170), Grey(255)];
  }

  /** As written, eight levels go up by 36 and stop at 252: the top level is not white. */
  lemma MonoPaletteEightMissesWhite()
    ensures MonoPalette(8).Ok? && |MonoPalette(8).value| == 8
    ensures MonoPalette(8).value[7] == Grey(252) != Grey(255)
  {
    assert 255 / 7 == 36;
  }

  /**
   * The ramp the generator evidently intends: level i of n is i * 255 / (n - 1), rounded
   * down, so that the levels always run from black to white. Same error cases as the source.
   */
  function MonoPaletteSpread(n: int): (r: Result<seq<Rgb>>)
    ensures n == 1 <==> r == Err(DivisionByZero)
    ensures r.Ok? ==> |r.value| == (if n <= 0 then 0 else n)
  {
    if n == 1 then Err(DivisionByZero)
    else if n <= 0 then Ok([])
    else Ok(seq(n, i => Grey(i * 255 / (n - 1))))
  }

  /** The quotient of a by k, times k, is within k of a. */
  lemma DivBounds(a: nat, k: nat)
    requires k > 0
    ensures (a / k) * k <= a < (a / k + 1) * k
  {
    var q := a / k;
    assert a == q * k + a % k;
    assert (q + 1) * k == q * k + k;
  }

  /** A positive factor can be cancelled from a strict inequality. */
  lemma CancelFactor(x: int, y: int, k: nat)
    requires k > 0 && x * k < y * k
    ensures x < y
  {
    assert (y - x) * k == y * k - x * k;
  }

  lemma DivMonotone(a: nat, b: nat, k: nat)
    requires a <= b && k > 0
    ensures a / k <= b / k
  {
    DivBounds(a, k);
    DivBounds(b, k);
    QuotientOrder(a / k, b / k, k, a, b);
  }

  lemma QuotientOrder(qa: int, qb: int, k: nat, a: nat, b: nat)
    requires k > 0 && qa * k <= a <= b < (qb + 1) * k
    ensures qa <= qb
  {
    CancelFactor(qa, qb + 1, k);
  }

  lemma DivStep(a: nat, b: nat, k: nat)
    requires a + k <= b && k > 0
    ensures a / k < b / k
  {
    DivBounds(a, k);
    DivBounds(b, k);
    var qa := a / k;
    assert (qa + 1) * k == qa * k + k;
    CancelFactor(qa + 1, b / k + 1, k);
  }

  lemma MulDiv(x: nat, k: nat)
    requires k > 0
    ensures (x * k) / k == x
  {
    DivBounds(x * k, k);
    var q := (x * k) / k;
    assert q * k <= x * k < (q + 1) * k;
    assert (x + 1) * k == x * k + k;
    CancelFactor(q, x + 1, k);
    CancelFactor(x, q + 1, k);
  }

  /** Level i of the corrected ramp. */
  lemma MonoPaletteSpreadAt(n: int, i: nat)
    requires n >= 2 && i < n
    ensures MonoPaletteSpread(n).Ok? && |MonoPaletteSpread(n).value| == n
    ensures MonoPaletteSpread(n).value[i] == Grey((i * 255) / (n - 1))
  {
  }

  /** The corrected ramp starts at black and ends at white. */
  lemma MonoPaletteSpreadEnds(n: int)
    requires n >= 2
    ensures MonoPaletteSpread(n).Ok?
    ensures MonoPaletteSpread(n).value[0] == Grey(0) && MonoPaletteSpread(n).value[n - 1] == Grey(255)
  {
    MonoPaletteSpreadAt(n, 0);
    MonoPaletteSpreadAt(n, n - 1);
    MulDiv(255, n - 1);
    assert (n - 1) * 255 == 255 * (n - 1);
  }

  /** Every corrected level is a grey byte colour. */
  lemma MonoPaletteSpreadBytes(n: int, j: nat)
    requires n >= 2 && j < n
    ensures MonoPaletteSpread(n).Ok? && |MonoPaletteSpread(n).value| == n
    ensures IsByteColour(MonoPaletteSpread(n).value[j])
    ensures MonoPaletteSpread(n).value[j].r == MonoPaletteSpread(n).value[j].g == MonoPaletteSpread(n).value[j].b
  {
    var k := n - 1;
    MonoPaletteSpreadAt(n, j);
    MulMonotoneNat(255, j, k);
    DivMonotone(j * 255, k * 255, k);
    MulDiv(255, k);
    assert k * 255 == 255 * k;
  }

  /** The corrected levels never decrease. */
  lemma MonoPaletteSpreadMonotone(n: int, i: nat, j: nat)
    requires n >= 2 && i <= j < n
    ensures MonoPaletteSpread(n).Ok? && |MonoPaletteSpread(n).value| == n
    ensures MonoPaletteSpread(n).value[i].r <= MonoPaletteSpread(n).value[j].r
  {
    MonoPaletteSpreadAt(n, i);
    MonoPaletteSpreadAt(n, j);
    MulMonotoneNat(255, i, j);
    DivMonotone(i * 255, j * 255, n - 1);
  }

  /** With at most 256 levels the corrected levels strictly increase. */
  lemma MonoPaletteSpreadIncreasing(n: int, i: nat, j: nat)
    requires 2 <= n <= 256 && i < j < n
    ensures MonoPaletteSpread(n).Ok? && MonoPaletteSpread(n).value[i].r < MonoPaletteSpread(n).value[j].r
  {
    var k := n - 1;
    MonoPaletteSpreadAt(n, i);
    MonoPaletteSpreadAt(n, j);
    MulMonotoneNat(255, i + 1, j);
    assert (i + 1) * 255 == i * 255 + 255;
    DivStep(i * 255, j * 255, k);
  }

  /** Eight corrected levels: black, 36, 72, 109, 145, 182, 218 and white. */
  lemma MonoPaletteSpreadEight()
    ensures MonoPaletteSpread(8)
         == Ok([Grey(0), Grey(36), Grey(72), Grey(109), Grey(145), Grey(182), Grey(218), Grey(255)])
  {
    var p := MonoPaletteSpread(8).value;
    assert p[0] == Grey(0) && p[1] == Grey(36) && p[2] == Grey(72) && p[3] == Grey(109);
    assert p[4] == Grey(145) && p[5] == Grey(182) && p[6] == Grey(218) && p[7] == Grey(255);
    assert p == [Grey(0), Grey(36), Grey(72), Grey(109), Grey(145), Grey(182), Grey(218), Grey(255)];
  }

  // ---------------------------------------------------------------------------------------
  // hash_col
  // ---------------------------------------------------------------------------------------

  /** `(int(r) << 16) + (int(g) << 8) + int(b)`; a left shift by k multiplies by 2^k. */
  function HashCol(c: Rgb): (h: int)
    ensures IsByteColour(c) ==> 0 <= h < 0x100_0000
  {
    c.r * 0x1_0000 + c.g * 0x100 + c.b
  }

  /** The colour a key of a byte colour was made from: its three bytes. */
  function UnhashCol(h: int): Rgb
  {
    Rgb(h / 0x1_0000, (h / 0x100) % 0x100, h % 0x100)
  }

  /** On byte colours the key is a 24-bit number from which the colour is recovered. */
  lemma HashColRoundTrip(c: Rgb)
    requires IsByteColour(c)
    ensures 0 <= HashCol(c) < 0x100_0000
    ensures UnhashCol(HashCol(c)) == c
  {
    var h := HashCol(c);
    var low := c.g * 0x100 + c.b;
    assert 0 <= low < 0x1_0000;
    assert h / 0x1_0000 == c.r;
    assert h % 0x1_0000 == low;
    assert h / 0x100 == c.r * 0x100 + c.g;
    assert (h / 0x100) % 0x100 == c.g;
    assert h % 0x100 == c.b;
  }

  /** Distinct byte colours have distinct keys. */
  lemma HashColInjective(a: Rgb, b: Rgb)
    requires IsByteColour(a) && IsByteColour(b)
    ensures HashCol(a) == HashCol(b) <==> a == b
  {
    HashColRoundTrip(a);
    HashColRoundTrip(b);
  }

  // ---------------------------------------------------------------------------------------
  // replace_colours
  // ---------------------------------------------------------------------------------------

  /**
   * `{hash_col(pal_a[i]): i for i in range(len(pal_a))}`: the comprehension inserts the keys
   * in index order, so a repeated key keeps the last index.
   */
  function FromPal(pal: seq<Rgb>): (m: map<int, nat>)
    ensures forall h :: h in m ==> m[h] < |pal|
  {
    if |pal| == 0 then map[]
    else FromPal(pal[..|pal| - 1])[HashCol(pal[|pal| - 1]) := |pal| - 1]
  }

  /** `{i: pal_b[i] for i in range(len(pal_b))}`. */
  function ToPal(pal: seq<Rgb>): (m: map<int, Rgb>)
    ensures forall i :: i in m <==> 0 <= i < |pal|
  {
    map i | 0 <= i < |pal| :: pal[i]
  }

  /** A key is in the first dictionary exactly when some entry has it, and maps to the last such entry. */
  lemma {:induction false} FromPalLast(pal: seq<Rgb>, h: int)
    ensures h in FromPal(pal) <==> exists i :: 0 <= i < |pal| && HashCol(pal[i]) == h
    ensures h in FromPal(pal) ==>
              && FromPal(pal)[h] < |pal| && HashCol(pal[FromPal(pal)[h]]) == h
              && forall j :: FromPal(pal)[h] < j < |pal| ==> HashCol(pal[j]) != h
  {
    if |pal| > 0 {
      var init := pal[..|pal| - 1];
      FromPalLast(init, h);
      if HashCol(pal[|pal| - 1]) != h {
        if h in FromPal(pal) {
          assert h in FromPal(init);
        }
        if exists i :: 0 <= i < |pal| && HashCol(pal[i]) == h {
          var i :| 0 <= i < |pal| && HashCol(pal[i]) == h;
          assert init[i] == pal[i];
        }
      }
    }
  }

  /** The new colour of one pixel, or None where a dictionary lookup raises KeyError. */
  function Relabel(c: Rgb, palA: seq<Rgb>, palB: seq<Rgb>): (r: Option<Rgb>)
    ensures r.Some? ==> r.value in palB
  {
    var h := HashCol(c);
    if h !in FromPal(palA) then None
    else
      var i := FromPal(palA)[h];
      if i !in ToPal(palB) then None else Some(ToPal(palB)[i])
  }

  /**
   * For byte colours: a pixel equal to `pal_a[i]`, with i the last such index, becomes
   * `pal_b[i]`, and is a KeyError when `pal_b` is shorter than that.
   */
  lemma RelabelLastMatch(c: Rgb, palA: seq<Rgb>, palB: seq<Rgb>, i: nat)
    requires IsByteColour(c) && forall k :: 0 <= k < |palA| ==> IsByteColour(palA[k])
    requires i < |palA| && palA[i] == c && forall j :: i < j < |palA| ==> palA[j] != c
    ensures Relabel(c, palA, palB) == if i < |palB| then Some(palB[i]) else None
  {
    var h := HashCol(c);
    FromPalLast(palA, h);
    var k := FromPal(palA)[h];
    HashColInjective(palA[k], c);
  }

  /** For byte colours: a pixel colour that is not in `pal_a` is a KeyError. */
  lemma RelabelNoMatch(c: Rgb, palA: seq<Rgb>, palB: seq<Rgb>)
    requires IsByteColour(c) && forall k :: 0 <= k < |palA| ==> IsByteColour(palA[k])
    requires forall k :: 0 <= k < |palA| ==> palA[k] != c
    ensures Relabel(c, palA, palB) == None
  {
    var h := HashCol(c);
    FromPalLast(palA, h);
    if h in FromPal(palA) {
      var k := FromPal(palA)[h];
      HashColInjective(palA[k], c);
    }
  }

  /** `replace_colours` on the image's pixels in row-major order. */
  function ReplaceSpec(image: seq<Rgb>, palA: seq<Rgb>, palB: seq<Rgb>): (r: Result<seq<Rgb>>)
    ensures r.Ok? ==> |r.value| == |image|
  {
    if forall p :: 0 <= p < |image| ==> Relabel(image[p], palA, palB).Some? then
      Ok(seq(|image|, p requires 0 <= p < |image| => Relabel(image[p], palA, palB).value))
    else Err(KeyNotFound)
  }

  /** Pixels are rewritten independently: remapping two pieces is remapping their concatenation. */
  lemma ReplaceConcat(img1: seq<Rgb>, img2: seq<Rgb>, palA: seq<Rgb>, palB: seq<Rgb>)
    ensures ReplaceSpec(img1 + img2, palA, palB).Ok?
        <==> ReplaceSpec(img1, palA, palB).Ok? && ReplaceSpec(img2, palA, palB).Ok?
    ensures ReplaceSpec(img1 + img2, palA, palB).Ok? ==>
              ReplaceSpec(img1 + img2, palA, palB).value
              == ReplaceSpec(img1, palA, palB).value + ReplaceSpec(img2, palA, palB).value
  {
    var img := img1 + img2;
    if ReplaceSpec(img1, palA, palB).Ok? && ReplaceSpec(img2, palA, palB).Ok? {
      forall p | 0 <= p < |img|
        ensures Relabel(img[p], palA, palB).Some?
      {
        if p >= |img1| {
          assert img[p] == img2[p - |img1|];
        }
      }
    }
    if ReplaceSpec(img, palA, palB).Ok? {
      forall p | 0 <= p < |img1|
        ensures Relabel(img1[p], palA, palB).Some?
      {
        assert img[p] == img1[p];
      }
      forall p | 0 <= p < |img2|
        ensures Relabel(img2[p], palA, palB).Some?
      {
        assert img[|img1| + p] == img2[p];
      }
    }
  }

  /**
   * Remapping with A to B and back with B to A restores the image, when A and B have the
   * same length, neither repeats a colour, all are byte colours and every pixel is in A.
   */
  lemma ReplaceRoundTrip(image: seq<Rgb>, palA: seq<Rgb>, palB: seq<Rgb>)
    requires |palA| == |palB| && Distinct(palA) && Distinct(palB)
    requires forall k :: 0 <= k < |palA| ==> IsByteColour(palA[k]) && IsByteColour(palB[k])
    requires forall p :: 0 <= p < |image| ==> exists k :: 0 <= k < |palA| && image[p] == palA[k]
    ensures ReplaceSpec(image, palA, palB).Ok?
    ensures ReplaceSpec(ReplaceSpec(image, palA, palB).value, palB, palA) == Ok(image)
  {
    forall p | 0 <= p < |image|
      ensures Relabel(image[p], palA, palB) == Some(palB[IndexIn(image[p], palA)])
      ensures Relabel(palB[IndexIn(image[p], palA)], palB, palA) == Some(image[p])
    {
      var k := IndexIn(image[p], palA);
      RelabelLastMatch(image[p], palA, palB, k);
      RelabelLastMatch(palB[k], palB, palA, k);
    }
    var mid := ReplaceSpec(image, palA, palB).value;
    assert forall p :: 0 <= p < |image| ==> mid[p] == palB[IndexIn(image[p], palA)];
    var back := ReplaceSpec(mid, palB, palA);
    assert back.Ok?;
    assert back.value == image;
  }

  /** The position of a colour in a palette that holds it. */
  function IndexIn(c: Rgb, pal: seq<Rgb>): (k: nat)
    requires exists k :: 0 <= k < |pal| && pal[k] == c
    ensures k < |pal| && pal[k] == c
  {
    if pal[0] == c then 0 else 1 + IndexIn(c, pal[1..])
  }

  /**
   * `replace_colours`: build the two dictionaries, then overwrite each pixel of the flat
   * array in turn; the first failing lookup raises KeyError.
   */
  method ReplaceColours(image: seq<Rgb>, palA: seq<Rgb>, palB: seq<Rgb>) returns (r: Result<seq<Rgb>>)
    ensures r == ReplaceSpec(image, palA, palB)
  {
    var fromPal := FromPal(palA);
    var toPal := ToPal(palB);
    var imArray := new Rgb[|image|](i requires 0 <= i < |image| => image[i]);
    for p := 0 to imArray.Length
      invariant forall q :: 0 <= q < p ==> Relabel(image[q], palA, palB).Some?
      invariant forall q :: 0 <= q < p ==> imArray[q] == Relabel(image[q], palA, palB).value
      invariant forall q :: p <= q < imArray.Length ==> imArray[q] == image[q]
    {
      var h := HashCol(imArray[p]);
      if h !in fromPal {
        return Err(KeyNotFound);
      }
      var oldCol := fromPal[h];
      if oldCol !in toPal {
        return Err(KeyNotFound);
      }
      imArray[p] := toPal[oldCol];
    }
    r := Ok(imArray[..]);
    assert ReplaceSpec(image, palA, palB).Ok?;
    assert imArray[..] == ReplaceSpec(image, palA, palB).value;
  }
}
