/**
 * Colours shared by every component: integer RGB triples (palette entries and decoded
 * pixels), real-valued working samples (the double buffers of the dithering loops), the
 * squared Euclidean distance, and the one nearest-colour search that every quantising loop
 * of the toolkit repeats: the first palette index of least distance wins, because each
 * copy of the loop replaces its running best only on a strictly smaller distance.
 */
module Colours {

  /** An integer colour, as PIL decodes it and as palettes hold it. */
  datatype Rgb = Rgb(r: int, g: int, b: int)

  /** A working colour of the dithering loops, whose channels are doubles in the source. */
  datatype Sample = Sample(r: real, g: real, b: real)

  /** A channel number: 0 is red, 1 green, 2 blue (Python's `col[d]`). */
  type Axis = d: nat | d < 3

  function Channel(c: Rgb, d: Axis): int
  {
    if d == 0 then c.r else if d == 1 then c.g else c.b
  }

  /** Every channel fits in an unsigned byte. */
  predicate IsByteColour(c: Rgb)
  {
    0 <= c.r <= 255 && 0 <= c.g <= 255 && 0 <= c.b <= 255
  }

  /** Every colour appears at most once. */
  predicate Distinct(s: seq<Rgb>)
  {
    forall i, j :: 0 <= i < j < |s| ==> s[i] != s[j]
  }

  function ToSample(c: Rgb): Sample
  {
    Sample(c.r as real, c.g as real, c.b as real)
  }

  function Square(v: int): (sq: int)
    ensures sq >= 0
    ensures v != 0 ==> sq > 0
  {
    v * v
  }

  function SquareR(v: real): (sq: real)
    ensures sq >= 0.0
  {
    if v > 0.0 then PositiveSquare(v); v * v
    else if v < 0.0 then NegativeSquare(v); v * v
    else 0.0
  }

  lemma PositiveSquare(v: real)
    requires v > 0.0
    ensures v * v > 0.0
  {
  }

  lemma NegativeSquare(v: real)
    requires v < 0.0
    ensures v * v > 0.0
  {
  }

  /** Squared Euclidean distance between two integer colours: zero exactly on equal colours. */
  function SqDist(a: Rgb, b: Rgb): (d: int)
    ensures d >= 0
    ensures a == b ==> d == 0
    ensures a != b ==> d > 0
  {
    Square(a.r - b.r) + Square(a.g - b.g) + Square(a.b - b.b)
  }

  /** Squared Euclidean distance between a working sample and a palette entry. */
  function Dist(s: Sample, p: Rgb): (d: real)
    ensures d >= 0.0
    ensures s == ToSample(p) ==> d == 0.0
  {
    SquareR(s.r - p.r as real) + SquareR(s.g - p.g as real) + SquareR(s.b - p.b as real)
  }

  lemma SquareOfInteger(v: int)
    ensures SquareR(v as real) == Square(v) as real
  {
  }

  /** On integer colours the real distance is exactly the integer one. */
  lemma DistOfIntegers(a: Rgb, p: Rgb)
    ensures Dist(ToSample(a), p) == SqDist(a, p) as real
  {
    SquareOfInteger(a.r - p.r);
    SquareOfInteger(a.g - p.g);
    SquareOfInteger(a.b - p.b);
  }

  /** Clamping one channel to [0, 255], as `v < 0 ? 0 : v` then `v > 255 ? 255 : v`. */
  function ClampChannel(v: real): (c: real)
    ensures 0.0 <= c <= 255.0
    ensures 0.0 <= v <= 255.0 ==> c == v
    ensures v < 0.0 ==> c == 0.0
    ensures v > 255.0 ==> c == 255.0
  {
    var low := if v < 0.0 then 0.0 else v;
    if low > 255.0 then 255.0 else low
  }

  function Clamp(s: Sample): Sample
  {
    Sample(ClampChannel(s.r), ClampChannel(s.g), ClampChannel(s.b))
  }

  /** A palette colour with byte channels is left alone by clamping. */
  lemma ClampOfByteColour(p: Rgb)
    requires IsByteColour(p)
    ensures Clamp(ToSample(p)) == ToSample(p)
  {
  }

  /**
   * The index the search loop holds after scanning pal[0..n]: it starts from the first
   * entry and moves only to an entry strictly closer than the one it holds.
   */
  function NearestIn(s: Sample, pal: seq<Rgb>, n: nat): (i: nat)
    requires 0 < n <= |pal|
    ensures i < n
  {
    if n == 1 then 0
    else
      var i := NearestIn(s, pal, n - 1);
      if Dist(s, pal[n - 1]) < Dist(s, pal[i]) then n - 1 else i
  }

  /**
   * After scanning pal[0..n] the loop holds an entry no farther than any scanned entry,
   * and every scanned entry before it is strictly farther.
   */
  lemma {:induction false} NearestInIsFirstClosest(s: Sample, pal: seq<Rgb>, n: nat)
    requires 0 < n <= |pal|
    ensures forall j :: 0 <= j < n ==> Dist(s, pal[NearestIn(s, pal, n)]) <= Dist(s, pal[j])
    ensures forall j :: 0 <= j < NearestIn(s, pal, n) ==> Dist(s, pal[j]) > Dist(s, pal[NearestIn(s, pal, n)])
  {
    if n > 1 {
      NearestInIsFirstClosest(s, pal, n - 1);
    }
  }

  /** The palette index the nearest-colour search returns for a non-empty palette. */
  function Nearest(s: Sample, pal: seq<Rgb>): (i: nat)
    requires |pal| > 0
    ensures i < |pal|
  {
    NearestIn(s, pal, |pal|)
  }

  /** The search result is a minimiser of the distance ... */
  predicate IsClosest(s: Sample, pal: seq<Rgb>, i: nat)
  {
    i < |pal| && forall j :: 0 <= j < |pal| ==> Dist(s, pal[i]) <= Dist(s, pal[j])
  }

  /** ... and the lowest-indexed one. */
  predicate IsFirstClosest(s: Sample, pal: seq<Rgb>, i: nat)
  {
    IsClosest(s, pal, i) && forall j :: 0 <= j < i ==> Dist(s, pal[j]) > Dist(s, pal[i])
  }

  /** Nearest is exactly the lowest index of least distance: it is one, and no other is. */
  lemma NearestIsFirstClosest(s: Sample, pal: seq<Rgb>, i: nat)
    requires |pal| > 0
    ensures IsFirstClosest(s, pal, Nearest(s, pal))
    ensures IsFirstClosest(s, pal, i) <==> i == Nearest(s, pal)
  {
    NearestInIsFirstClosest(s, pal, |pal|);
  }

  /** The lowest index of least distance, stated on the integer distance. */
  predicate IsFirstNearest(c: Rgb, pal: seq<Rgb>, i: nat)
  {
    && i < |pal|
    && (forall j :: 0 <= j < |pal| ==> SqDist(c, pal[i]) <= SqDist(c, pal[j]))
    && (forall j :: 0 <= j < i ==> SqDist(c, pal[j]) > SqDist(c, pal[i]))
  }

  /** For an integer colour the search finds the lowest index of least integer distance. */
  lemma NearestIsFirstNearest(c: Rgb, pal: seq<Rgb>, k: nat)
    requires |pal| > 0
    ensures IsFirstNearest(c, pal, Nearest(ToSample(c), pal))
    ensures IsFirstNearest(c, pal, k) <==> k == Nearest(ToSample(c), pal)
  {
    var s := ToSample(c);
    NearestInIsFirstClosest(s, pal, |pal|);
    forall j | 0 <= j < |pal|
      ensures Dist(s, pal[j]) == SqDist(c, pal[j]) as real
    {
      DistOfIntegers(c, pal[j]);
    }
  }

  /** A colour that is itself in the palette is matched to an equal palette colour. */
  lemma NearestOfPaletteColour(pal: seq<Rgb>, j: nat)
    requires j < |pal|
    ensures pal[Nearest(ToSample(pal[j]), pal)] == pal[j]
  {
    var k := Nearest(ToSample(pal[j]), pal);
    NearestInIsFirstClosest(ToSample(pal[j]), pal, |pal|);
    DistOfIntegers(pal[j], pal[k]);
  }

  /**
   * The search loop: `col_idx = -1`, then for each palette entry compute the squared
   * distance and take the entry when `col_idx == -1 || dist < nearest`. An empty palette
   * leaves the index at -1.
   */
  method FindNearest(s: Sample, pal: seq<Rgb>) returns (idx: int, nearest: real)
    ensures |pal| == 0 ==> idx == -1
    ensures |pal| > 0 ==> 0 <= idx < |pal| && idx == Nearest(s, pal)
    ensures |pal| > 0 ==> nearest == Dist(s, pal[idx])
  {
    idx, nearest := -1, -1.0;
    var c := 0;
    while c < |pal|
      invariant 0 <= c <= |pal|
      invariant c == 0 ==> idx == -1
      invariant c > 0 ==> 0 <= idx < c && idx == NearestIn(s, pal, c)
      invariant c > 0 ==> nearest == Dist(s, pal[idx])
    {
      var dist := Dist(s, pal[c]);
      if idx == -1 || dist < nearest {
        idx, nearest := c, dist;
      }
      c := c + 1;
    }
  }
}
