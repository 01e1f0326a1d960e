/**
 * zx.py: ZX Spectrum attribute colours.
 *
 * The Spectrum shows two colours per 8x8 block, both from the basic set or both from the
 * bright set. `nearest_colour` finds a palette entry closest to a colour (the first one on a
 * tie); `match_colours` matches one colour, or two, where the second is matched against the
 * palette with the first match's entry taken out; the main loop visits the 32 x 24 blocks of
 * a 256 x 192 screen. Distances are squared: `colour_dist` takes a square root of the sum,
 * which is monotone and does not change any comparison between single distances.
 */
module Zx {
  import opened Errors
  import opened Colours
  import opened Raster

  // ---------------------------------------------------------------------------------------
  // The Spectrum palettes
  // ---------------------------------------------------------------------------------------

  /** `ZX_BASIC`: black, blue, red, magenta, green, cyan, yellow, white at intensity 0xCD. */
  const ZxBasic: seq<Rgb> := [
    Rgb(0x00, 0x00, 0x00), Rgb(0x00, 0x00, 0xCD), Rgb(0xCD, 0x00, 0x00), Rgb(0xCD, 0x00, 0xCD),
    Rgb(0x00, 0xCD, 0x00), Rgb(0x00, 0xCD, 0xCD), Rgb(0xCD, 0xCD, 0x00), Rgb(0xCD, 0xCD, 0xCD)]

  /** `ZX_BRIGHT`: the same eight colours at full intensity. */
  const ZxBright: seq<Rgb> := [
    Rgb(0x00, 0x00, 0x00), Rgb(0x00, 0x00, 0xFF), Rgb(0xFF, 0x00, 0x00), Rgb(0xFF, 0x00, 0xFF),
    Rgb(0x00, 0xFF, 0x00), Rgb(0x00, 0xFF, 0xFF), Rgb(0xFF, 0xFF, 0x00), Rgb(0xFF, 0xFF, 0xFF)]

  /** `ZX_HEX`: the basic colours followed by the bright ones. */
  const ZxHex: seq<Rgb> := ZxBasic + ZxBright

  lemma ZxLengths()
    ensures |ZxBasic| == 8 && |ZxBright| == 8 && |ZxHex| == 16
    ensures ZxHex[..8] == ZxBasic && ZxHex[8..] == ZxBright
  {
  }

  /** Each set has eight different colours ... */
  lemma ZxSetsDistinct()
    ensures Distinct(ZxBasic) && Distinct(ZxBright)
  {
  }

  /** ... but the sixteen-entry list holds black twice, at 0 and at 8. */
  lemma ZxHexRepeatsBlack()
    ensures ZxHex[0] == ZxHex[8] == Rgb(0, 0, 0)
    ensures !Distinct(ZxHex)
  {
    assert ZxHex[0] == ZxHex[8];
  }

  /** Every Spectrum colour has byte channels. */
  lemma ZxByteColours()
    ensures forall i :: 0 <= i < 16 ==> IsByteColour(ZxHex[i])
  {
  }

  /** Entry i of the bright set is the bright version of entry i of the basic set. */
  lemma ZxBrightOfBasic()
    ensures forall i :: 0 <= i < 8 ==> ZxBright[i] == Brighten(ZxBasic[i])
  {
  }

  /** The bright version of a basic colour: each lit channel goes from 0xCD to 0xFF. */
  function Brighten(c: Rgb): Rgb
  {
    Rgb(if c.r == 0 then 0 else 0xFF, if c.g == 0 then 0 else 0xFF, if c.b == 0 then 0 else 0xFF)
  }

  // ---------------------------------------------------------------------------------------
  // colour_dist and nearest_colour
  // ---------------------------------------------------------------------------------------

  /** `colour_dist`: the sum over the zipped channels of the squared differences. */
  method ColourDist(a: Rgb, b: Rgb) returns (dist: int)
    ensures dist == SqDist(a, b)
  {
    dist := 0;
    for d := 0 to 3
      invariant dist == PartialSqDist(a, b, d)
    {
      var diff := Channel(a, d) - Channel(b, d);
      dist := dist + diff * diff;
    }
    assert PartialSqDist(a, b, 1) == Square(a.r - b.r);
    assert PartialSqDist(a, b, 2) == Square(a.r - b.r) + Square(a.g - b.g);
  }

  /** The sum of squared differences over the first n channels. */
  function PartialSqDist(a: Rgb, b: Rgb, n: nat): int
    requires n <= 3
  {
    if n == 0 then 0 else PartialSqDist(a, b, n - 1) + Square(Channel(a, n - 1) - Channel(b, n - 1))
  }

  /** What `nearest_colour` returns: the colour, its distance and its index. */
  datatype Match = Match(colour: Rgb, dist: int, index: nat)

  /** `nearest_colour(colour, palette)`; an empty palette ends in `palette[-1]`, an IndexError. */
  function NearestMatch(c: Rgb, pal: seq<Rgb>): (r: Result<Match>)
    ensures |pal| == 0 <==> r == Err(IndexOutOfRange)
  {
    if |pal| == 0 then Err(IndexOutOfRange)
    else
      var i := Nearest(ToSample(c), pal);
      Ok(Match(pal[i], SqDist(c, pal[i]), i))
  }

  /**
   * On a non-empty palette `nearest_colour` returns `(palette[i], dist, i)` with i the lowest
   * index of least distance and dist that distance; no other index qualifies.
   */
  lemma NearestMatchIsFirstNearest(c: Rgb, pal: seq<Rgb>, k: nat)
    requires |pal| > 0
    ensures NearestMatch(c, pal).Ok?
    ensures var m := NearestMatch(c, pal).value;
      && IsFirstNearest(c, pal, m.index) && m.colour == pal[m.index] && m.dist == SqDist(c, m.colour)
    ensures IsFirstNearest(c, pal, k) ==> k == NearestMatch(c, pal).value.index
  {
    NearestIsFirstNearest(c, pal, k);
  }

  /** A palette colour is matched by an equal palette colour, at distance 0. */
  lemma NearestMatchOfPaletteColour(pal: seq<Rgb>, j: nat)
    requires j < |pal|
    ensures NearestMatch(pal[j], pal).Ok?
    ensures NearestMatch(pal[j], pal).value.colour == pal[j] && NearestMatch(pal[j], pal).value.dist == 0
  {
    NearestOfPaletteColour(pal, j);
  }

  /**
   * `nearest_colour`: `nearest` and `near_dist` start at -1 and take an entry when
   * `near_dist == -1` or its distance is strictly smaller.
   */
  method NearestColour(colour: Rgb, palette: seq<Rgb>) returns (r: Result<Match>)
    ensures r == NearestMatch(colour, palette)
  {
    var nearest := -1;
    var nearDist := -1;
    for i := 0 to |palette|
      invariant i == 0 ==> nearest == -1 && nearDist == -1
      invariant i > 0 ==> 0 <= nearest < i && nearest == NearestIn(ToSample(colour), palette, i)
      invariant i > 0 ==> nearDist == SqDist(colour, palette[nearest])
    {
      var c := palette[i];
      var cDist := ColourDist(colour, c);
      if i > 0 {
        DistOfIntegers(colour, c);
        DistOfIntegers(colour, palette[nearest]);
      }
      if nearDist == -1 || cDist < nearDist {
        nearDist := cDist;
        nearest := i;
      }
    }
    if nearest == -1 {
      // palette[-1] of an empty list
      return Err(IndexOutOfRange);
    }
    return Ok(Match(palette[nearest], nearDist, nearest));
  }

  // ---------------------------------------------------------------------------------------
  // match_colours
  // ---------------------------------------------------------------------------------------

  /** What `match_colours` returns: the matched colours and the total distance. */
  datatype Matched = Matched(colours: seq<Rgb>, score: int)

  /** `palette[:i] + palette[i + 1:]`. */
  function Without(pal: seq<Rgb>, i: nat): (r: seq<Rgb>)
    requires i < |pal|
    ensures |r| == |pal| - 1
  {
    pal[..i] + pal[i + 1..]
  }

  /** Entry k of the shortened palette is entry k, or k + 1 from i on, of the original. */
  function Restore(i: nat, k: nat): nat
  {
    if k < i then k else k + 1
  }

  lemma WithoutAt(pal: seq<Rgb>, i: nat, k: nat)
    requires i < |pal| && k < |pal| - 1
    ensures Without(pal, i)[k] == pal[Restore(i, k)] && Restore(i, k) != i && Restore(i, k) < |pal|
  {
  }

  /**
   * `match_colours(colours, palette)`. One colour is matched alone; otherwise the list is
   * unpacked into exactly two, and the second is matched without the first one's entry.
   */
  function MatchColours(colours: seq<Rgb>, palette: seq<Rgb>): (r: Result<Matched>)
    ensures r.Ok? ==> |r.value.colours| == |colours| && r.value.score >= 0
  {
    if |colours| == 1 then
      match NearestMatch(colours[0], palette)
      case Err(e) => Err(e)
      case Ok(am) => Ok(Matched([am.colour], am.dist))
    else if |colours| != 2 then Err(UnpackMismatch)
    else
      match NearestMatch(colours[0], palette)
      case Err(e) => Err(e)
      case Ok(am) =>
        var palette2 := Without(palette, am.index);
        match NearestMatch(colours[1], palette2)
        case Err(e) => Err(e)
        case Ok(bm) => Ok(Matched([am.colour, bm.colour], am.dist + bm.dist))
  }

  /** One colour: a one-element list of its nearest entry, scored by that distance. */
  lemma MatchOne(c: Rgb, palette: seq<Rgb>)
    requires |palette| > 0
    ensures var m := NearestMatch(c, palette).value;
      MatchColours([c], palette) == Ok(Matched([palette[m.index]], SqDist(c, palette[m.index])))
    ensures IsFirstNearest(c, palette, NearestMatch(c, palette).value.index)
  {
    NearestMatchIsFirstNearest(c, palette, 0);
  }

  /** A list of colours that is neither one nor two long cannot be unpacked. */
  lemma MatchWrongCount(colours: seq<Rgb>, palette: seq<Rgb>)
    requires |colours| != 1 && |colours| != 2
    ensures MatchColours(colours, palette) == Err(UnpackMismatch)
  {
  }

  /** Two colours need two palette entries: with fewer, one of the searches gets an empty palette. */
  lemma MatchTwoShortPalette(a: Rgb, b: Rgb, palette: seq<Rgb>)
    requires |palette| < 2
    ensures MatchColours([a, b], palette) == Err(IndexOutOfRange)
  {
  }

  /**
   * Two colours on a palette of at least two: the first is matched to its lowest-index
   * nearest entry i; the second to the lowest-index nearest entry among all the others
   * (never i itself), and the score is the sum of the two squared distances.
   */
  lemma MatchTwo(a: Rgb, b: Rgb, palette: seq<Rgb>) returns (i: nat, j: nat)
    requires |palette| >= 2
    ensures IsFirstNearest(a, palette, i)
    ensures IsFirstNearestExcept(b, palette, i, j)
    ensures MatchColours([a, b], palette)
         == Ok(Matched([palette[i], palette[j]], SqDist(a, palette[i]) + SqDist(b, palette[j])))
  {
    var am, bm := MatchTwoUnfold(a, b, palette);
    NearestMatchIsFirstNearest(a, palette, 0);
    i := am.index;
    NearestMatchIsFirstNearest(b, Without(palette, i), 0);
    j := Restore(i, bm.index);
    WithoutAt(palette, i, bm.index);
    SecondMatchOverOthers(b, palette, i, bm.index);
    assert am.colour == palette[i] && bm.colour == palette[j];
    assert am.dist + bm.dist == SqDist(a, palette[i]) + SqDist(b, palette[j]);
  }

  /** The two searches `match_colours` makes for a pair of colours. */
  lemma MatchTwoUnfold(a: Rgb, b: Rgb, palette: seq<Rgb>) returns (am: Match, bm: Match)
    requires |palette| >= 2
    ensures NearestMatch(a, palette) == Ok(am) && am.index < |palette|
    ensures NearestMatch(b, Without(palette, am.index)) == Ok(bm)
    ensures MatchColours([a, b], palette) == Ok(Matched([am.colour, bm.colour], am.dist + bm.dist))
  {
    am := NearestMatch(a, palette).value;
    bm := NearestMatch(b, Without(palette, am.index)).value;
  }

  /** j is the lowest index of least distance among all entries other than i. */
  predicate IsFirstNearestExcept(c: Rgb, pal: seq<Rgb>, i: nat, j: nat)
  {
    && j < |pal| && j != i
    && (forall k :: 0 <= k < |pal| && k != i ==> SqDist(c, pal[j]) <= SqDist(c, pal[k]))
    && (forall k :: 0 <= k < j && k != i ==> SqDist(c, pal[k]) > SqDist(c, pal[j]))
  }

  /**
   * What is nearest in the palette without entry i is nearest among all entries other than
   * i, translated back to the original numbering.
   */
  lemma SecondMatchOverOthers(b: Rgb, palette: seq<Rgb>, i: nat, m: nat)
    requires i < |palette| && IsFirstNearest(b, Without(palette, i), m)
    ensures IsFirstNearestExcept(b, palette, i, Restore(i, m))
  {
    var j := Restore(i, m);
    WithoutAt(palette, i, m);
    forall k | 0 <= k < |palette| && k != i
      ensures SqDist(b, palette[j]) <= SqDist(b, palette[k])
      ensures k < j ==> SqDist(b, palette[k]) > SqDist(b, palette[j])
    {
      var k2 := if k < i then k else k - 1;
      WithoutAt(palette, i, k2);
    }
  }

  /** On a palette without repeats, such as either Spectrum set, the two matches differ. */
  lemma MatchTwoDiffer(a: Rgb, b: Rgb, palette: seq<Rgb>)
    requires |palette| >= 2 && Distinct(palette)
    ensures MatchColours([a, b], palette).Ok?
    ensures var cs := MatchColours([a, b], palette).value.colours; |cs| == 2 && cs[0] != cs[1]
  {
    var i, j := MatchTwo(a, b, palette);
    if i < j {
      assert palette[i] != palette[j];
    } else {
      assert palette[j] != palette[i];
    }
  }

  /** The attribute palettes give two different colours for a two-colour block. */
  lemma AttributeColoursDiffer(a: Rgb, b: Rgb)
    ensures MatchColours([a, b], ZxBasic).Ok? && MatchColours([a, b], ZxBright).Ok?
    ensures MatchColours([a, b], ZxBasic).value.colours[0] != MatchColours([a, b], ZxBasic).value.colours[1]
    ensures MatchColours([a, b], ZxBright).value.colours[0] != MatchColours([a, b], ZxBright).value.colours[1]
  {
    ZxSetsDistinct();
    MatchTwoDiffer(a, b, ZxBasic);
    MatchTwoDiffer(a, b, ZxBright);
  }

  // ---------------------------------------------------------------------------------------
  // The block loop of main
  // ---------------------------------------------------------------------------------------

  /** `256 >> 3` blocks across and `192 >> 3` down; `x << 3` is 8 * x. */
  const BlocksAcross: nat := 32
  const BlocksDown: nat := 24

  /** An 8x8 block with origin o covers pixel (px, py). */
  predicate Covers(o: (int, int), px: int, py: int)
  {
    o.0 <= px < o.0 + 8 && o.1 <= py < o.1 + 8
  }

  /** The block origin `(x << 3, y << 3)` that step k of the loops visits; y runs fastest. */
  function Origin(k: nat): (o: (int, int))
    ensures 0 <= o.0 && 0 <= o.1 < 192
  {
    (8 * (k / 24), 8 * (k % 24))
  }

  /** Step x * 24 + y visits block (x, y), and every step is some block of the grid. */
  lemma OriginOfBlock(x: nat, y: nat)
    requires y < 24
    ensures Origin(Idx(24, x, y)) == (8 * x, 8 * y)
  {
  }

  /**
   * The block loop: `for x in range(256 >> 3): for y in range(192 >> 3)`, one block at
   * `(x << 3, y << 3)` per step.
   */
  method BlockOrigins() returns (origins: seq<(int, int)>)
    ensures |origins| == BlocksAcross * BlocksDown
    ensures forall k :: 0 <= k < |origins| ==> origins[k] == Origin(k)
  {
    origins := [];
    for x := 0 to 32
      invariant |origins| == 24 * x
      invariant forall k :: 0 <= k < |origins| ==> origins[k] == Origin(k)
    {
      for y := 0 to 24
        invariant |origins| == 24 * x + y
        invariant forall k :: 0 <= k < |origins| ==> origins[k] == Origin(k)
      {
        OriginOfBlock(x, y);
        origins := origins + [(x * 8, y * 8)];
      }
    }
  }

  /** Step k of the loops pastes a whole 8x8 block inside the 256 x 192 screen. */
  lemma BlockOnScreen(k: nat)
    requires k < 768
    ensures 0 <= Origin(k).0 && Origin(k).0 + 8 <= 256 && 0 <= Origin(k).1 && Origin(k).1 + 8 <= 192
  {
  }

  /** The step whose block holds pixel (px, py). */
  function StepOf(px: nat, py: nat): nat
  {
    Idx(24, px / 8, py / 8)
  }

  /** Division by 8 picks the block: v lies in block q exactly when v / 8 == q. */
  lemma EighthOf(q: nat, v: nat)
    ensures 8 * q <= v < 8 * q + 8 <==> v / 8 == q
  {
  }

  /** The blocks tile the screen exactly: each pixel is covered by one step, and by no other. */
  lemma PixelCoveredOnce(px: nat, py: nat, k: nat)
    requires px < 256 && py < 192
    ensures StepOf(px, py) < 768 && Covers(Origin(StepOf(px, py)), px, py)
    ensures k < 768 && Covers(Origin(k), px, py) ==> k == StepOf(px, py)
  {
    OriginOfBlock(px / 8, py / 8);
    if k < 768 && Covers(Origin(k), px, py) {
      EighthOf(k / 24, px);
      EighthOf(k % 24, py);
    }
  }

  /** Different steps visit different blocks. */
  lemma OriginsDistinct(k1: nat, k2: nat)
    requires k1 < 768 && k2 < 768 && k1 != k2
    ensures Origin(k1) != Origin(k2)
  {
  }
}
