/**
 * glitches/colour.py: the median-cut palette builder.
 *
 * The colours of an image (what `get_colours` returns, a list of distinct RGB triples)
 * start in one box. While there are fewer boxes than wanted, the (box, channel) pair with
 * the strictly largest channel range is found, that box is sorted on that channel and cut
 * at its median, and the two halves take its place. The palette is the floor average of
 * each box.
 *
 * The first half of this module is a value-level account of the algorithm (box contents
 * as sequences); the class `Box` and the method `MedianCut` are the object-level code,
 * proved equal to it.
 */
module MedianCut {
  import opened Errors
  import opened Colours

  // ---------------------------------------------------------------------------------------
  // Channel ranges and averages
  // ---------------------------------------------------------------------------------------

  /** `min(col[d] for col in cs)`. */
  function Lo(cs: seq<Rgb>, d: Axis): (lo: int)
    requires |cs| > 0
    ensures lo <= Channel(cs[0], d)
  {
    if |cs| == 1 then Channel(cs[0], d)
    else
      var rest := Lo(cs[1..], d);
      if Channel(cs[0], d) <= rest then Channel(cs[0], d) else rest
  }

  /** `max(col[d] for col in cs)`. */
  function Hi(cs: seq<Rgb>, d: Axis): (hi: int)
    requires |cs| > 0
    ensures hi >= Channel(cs[0], d)
  {
    if |cs| == 1 then Channel(cs[0], d)
    else
      var rest := Hi(cs[1..], d);
      if Channel(cs[0], d) >= rest then Channel(cs[0], d) else rest
  }

  /** Lo and Hi are the least and greatest channel values, and both are attained. */
  lemma {:induction false} LoHiBounds(cs: seq<Rgb>, d: Axis)
    requires |cs| > 0
    ensures forall i :: 0 <= i < |cs| ==> Lo(cs, d) <= Channel(cs[i], d) <= Hi(cs, d)
    ensures exists i :: 0 <= i < |cs| && Channel(cs[i], d) == Lo(cs, d)
    ensures exists i :: 0 <= i < |cs| && Channel(cs[i], d) == Hi(cs, d)
  {
    if |cs| > 1 {
      LoHiBounds(cs[1..], d);
      forall i | 1 <= i < |cs|
        ensures Lo(cs, d) <= Channel(cs[i], d) <= Hi(cs, d)
      {
        assert cs[i] == cs[1..][i - 1];
      }
      var lo :| 0 <= lo < |cs[1..]| && Channel(cs[1..][lo], d) == Lo(cs[1..], d);
      var hi :| 0 <= hi < |cs[1..]| && Channel(cs[1..][hi], d) == Hi(cs[1..], d);
      assert Channel(cs[lo + 1], d) == Lo(cs[1..], d);
      assert Channel(cs[hi + 1], d) == Hi(cs[1..], d);
    }
  }

  /** The range of channel d over a box: `size[d]`. */
  function SizeOn(cs: seq<Rgb>, d: Axis): int
    requires |cs| > 0
  {
    Hi(cs, d) - Lo(cs, d)
  }

  /** A range is never negative, and no two colours of the box differ by more than it on that channel. */
  lemma SizeOnBounds(cs: seq<Rgb>, d: Axis)
    requires |cs| > 0
    ensures SizeOn(cs, d) >= 0
    ensures forall i, j :: 0 <= i < |cs| && 0 <= j < |cs| ==> Channel(cs[i], d) - Channel(cs[j], d) <= SizeOn(cs, d)
  {
    LoHiBounds(cs, d);
  }

  /** Two different colours in a box make one of its ranges positive. */
  lemma DistinctColoursHaveRange(cs: seq<Rgb>, i: nat, j: nat)
    requires i < |cs| && j < |cs| && cs[i] != cs[j]
    ensures SizeOn(cs, 0) > 0 || SizeOn(cs, 1) > 0 || SizeOn(cs, 2) > 0
  {
    var d: Axis := if cs[i].r != cs[j].r then 0 else if cs[i].g != cs[j].g then 1 else 2;
    assert Channel(cs[i], d) != Channel(cs[j], d);
    SizeOnBounds(cs, d);
    assert Channel(cs[i], d) - Channel(cs[j], d) <= SizeOn(cs, d);
    assert Channel(cs[j], d) - Channel(cs[i], d) <= SizeOn(cs, d);
  }

  /** A box with a positive range holds at least two colours. */
  lemma PositiveRangeHasTwo(cs: seq<Rgb>, d: Axis)
    requires |cs| > 0 && SizeOn(cs, d) > 0
    ensures |cs| >= 2
  {
  }

  /** `sum(col[d] for col in cs)`. */
  function Sum(cs: seq<Rgb>, d: Axis): int
  {
    if |cs| == 0 then 0 else Channel(cs[0], d) + Sum(cs[1..], d)
  }

  /**
   * The box average: each channel is the channel sum floor-divided by the count (Python 2
   * `/` on integers; Dafny's `/` agrees for a positive divisor).
   */
  function AvgOf(cs: seq<Rgb>): (avg: Rgb)
    requires |cs| > 0
    ensures |cs| == 1 ==> avg == cs[0]
  {
    assert |cs| == 1 ==> Sum(cs, 0) == cs[0].r && Sum(cs, 1) == cs[0].g && Sum(cs, 2) == cs[0].b;
    Rgb(Sum(cs, 0) / |cs|, Sum(cs, 1) / |cs|, Sum(cs, 2) / |cs|)
  }

  lemma {:induction false} SumBounds(cs: seq<Rgb>, d: Axis)
    requires |cs| > 0
    ensures |cs| * Lo(cs, d) <= Sum(cs, d) <= |cs| * Hi(cs, d)
  {
    if |cs| > 1 {
      var rest := cs[1..];
      var n := |rest|;
      var lo, hi, c := Lo(cs, d), Hi(cs, d), Channel(cs[0], d);
      SumBounds(rest, d);
      assert lo <= Lo(rest, d) && Hi(rest, d) <= hi && lo <= c <= hi;
      assert Sum(cs, d) == c + Sum(rest, d);
      SumStep(n, lo, hi, Lo(rest, d), Hi(rest, d), c, Sum(rest, d));
    }
  }

  /** The arithmetic of one step of SumBounds: adding one value within [lo, hi] to the rest. */
  lemma SumStep(n: nat, lo: int, hi: int, lo': int, hi': int, c: int, s: int)
    requires lo <= lo' && hi' <= hi && lo <= c <= hi && n * lo' <= s <= n * hi'
    ensures (n + 1) * lo <= c + s <= (n + 1) * hi
  {
    MulMonotone(n, lo, lo');
    MulMonotone(n, hi', hi);
    assert (n + 1) * lo == n * lo + lo;
    assert (n + 1) * hi == n * hi + hi;
  }

  lemma MulMonotone(n: int, a: int, b: int)
    requires n >= 0 && a <= b
    ensures n * a <= n * b
  {
    assert n * b - n * a == n * (b - a);
  }

  /** A product with a positive factor has the sign of the other factor. */
  lemma SignOfFactor(n: int, m: int)
    requires n > 0
    ensures n * m > 0 ==> m > 0
    ensures n * m >= 0 ==> m >= 0
  {
    if m < 0 {
      MulMonotone(n, m, -1);
    }
  }

  /** If n * lo <= s <= n * hi then lo <= s / n <= hi, for floor division by n > 0. */
  lemma FloorDivBetween(s: int, n: int, lo: int, hi: int)
    requires n > 0 && n * lo <= s <= n * hi
    ensures lo <= s / n <= hi
  {
    var q, r := s / n, s % n;
    assert s == n * q + r && 0 <= r < n;
    assert n * (q + 1 - lo) == n * q + n - n * lo;
    SignOfFactor(n, q + 1 - lo);
    assert n * (hi - q) == n * hi - n * q;
    SignOfFactor(n, hi - q);
  }

  /** Each channel of the average lies between that channel's minimum and maximum. */
  lemma AvgWithinRange(cs: seq<Rgb>, d: Axis)
    requires |cs| > 0
    ensures Lo(cs, d) <= Channel(AvgOf(cs), d) <= Hi(cs, d)
  {
    SumBounds(cs, d);
    FloorDivBetween(Sum(cs, d), |cs|, Lo(cs, d), Hi(cs, d));
  }

  // ---------------------------------------------------------------------------------------
  // The stable sort on one channel
  // ---------------------------------------------------------------------------------------

  /** Insert c before the first element whose key is not smaller than c's. */
  function Insert(c: Rgb, s: seq<Rgb>, d: Axis): (r: seq<Rgb>)
    ensures |r| == |s| + 1
  {
    if |s| == 0 then [c]
    else if Channel(s[0], d) >= Channel(c, d) then [c] + s
    else [s[0]] + Insert(c, s[1..], d)
  }

  /** `sorted(cs, key=itemgetter(d))`. */
  function SortOn(cs: seq<Rgb>, d: Axis): (r: seq<Rgb>)
    ensures |r| == |cs|
  {
    if |cs| == 0 then [] else Insert(cs[0], SortOn(cs[1..], d), d)
  }

  predicate SortedOn(s: seq<Rgb>, d: Axis)
  {
    forall i, j :: 0 <= i < j < |s| ==> Channel(s[i], d) <= Channel(s[j], d)
  }

  /** The elements of s whose channel d equals v, in their order in s. */
  function WithKey(s: seq<Rgb>, d: Axis, v: int): seq<Rgb>
  {
    if |s| == 0 then []
    else if Channel(s[0], d) == v then [s[0]] + WithKey(s[1..], d, v)
    else WithKey(s[1..], d, v)
  }

  /** Every key of s is at least v. */
  predicate KeysAtLeast(s: seq<Rgb>, d: Axis, v: int)
  {
    forall i :: 0 <= i < |s| ==> Channel(s[i], d) >= v
  }

  lemma {:induction false} InsertKeysAtLeast(c: Rgb, s: seq<Rgb>, d: Axis, v: int)
    requires KeysAtLeast(s, d, v) && Channel(c, d) >= v
    ensures KeysAtLeast(Insert(c, s, d), d, v)
  {
    if |s| > 0 && Channel(s[0], d) < Channel(c, d) {
      InsertKeysAtLeast(c, s[1..], d, v);
    }
  }

  lemma ConsSorted(x: Rgb, s: seq<Rgb>, d: Axis)
    requires SortedOn(s, d) && KeysAtLeast(s, d, Channel(x, d))
    ensures SortedOn([x] + s, d)
  {
    forall i, j | 0 <= i < j < |s| + 1
      ensures Channel(([x] + s)[i], d) <= Channel(([x] + s)[j], d)
    {
      assert ([x] + s)[j] == s[j - 1];
      if i > 0 {
        assert ([x] + s)[i] == s[i - 1];
      }
    }
  }

  lemma {:induction false} InsertSorted(c: Rgb, s: seq<Rgb>, d: Axis)
    requires SortedOn(s, d)
    ensures SortedOn(Insert(c, s, d), d)
  {
    if |s| > 0 && Channel(s[0], d) < Channel(c, d) {
      InsertSorted(c, s[1..], d);
      InsertKeysAtLeast(c, s[1..], d, Channel(s[0], d));
      ConsSorted(s[0], Insert(c, s[1..], d), d);
    } else if |s| > 0 {
      ConsSorted(c, s, d);
    }
  }

  lemma {:induction false} InsertMultiset(c: Rgb, s: seq<Rgb>, d: Axis)
    ensures multiset(Insert(c, s, d)) == multiset(s) + multiset{c}
  {
    if |s| > 0 && Channel(s[0], d) < Channel(c, d) {
      InsertMultiset(c, s[1..], d);
      assert s == [s[0]] + s[1..];
    }
  }

  lemma WithKeyCons(x: Rgb, s: seq<Rgb>, d: Axis, v: int)
    ensures Channel(x, d) == v ==> WithKey([x] + s, d, v) == [x] + WithKey(s, d, v)
    ensures Channel(x, d) != v ==> WithKey([x] + s, d, v) == WithKey(s, d, v)
  {
    assert ([x] + s)[0] == x;
    assert ([x] + s)[1..] == s;
  }

  /**
   * Inserting c puts it before its equal-key neighbours and keeps their order: everything
   * it passes over has a smaller key.
   */
  lemma {:induction false} InsertWithKey(c: Rgb, s: seq<Rgb>, d: Axis, v: int)
    ensures Channel(c, d) == v ==> WithKey(Insert(c, s, d), d, v) == [c] + WithKey(s, d, v)
    ensures Channel(c, d) != v ==> WithKey(Insert(c, s, d), d, v) == WithKey(s, d, v)
  {
    if |s| == 0 {
      WithKeyCons(c, [], d, v);
    } else if Channel(s[0], d) >= Channel(c, d) {
      WithKeyCons(c, s, d, v);
    } else {
      var r := Insert(c, s[1..], d);
      InsertWithKey(c, s[1..], d, v);
      assert Insert(c, s, d) == [s[0]] + r;
      assert s == [s[0]] + s[1..];
      WithKeyCons(s[0], r, d, v);
      WithKeyCons(s[0], s[1..], d, v);
    }
  }

  /** The sort is ascending on the key, and a permutation of its input. */
  lemma {:induction false} SortOnSorted(cs: seq<Rgb>, d: Axis)
    ensures SortedOn(SortOn(cs, d), d)
    ensures multiset(SortOn(cs, d)) == multiset(cs)
  {
    if |cs| > 0 {
      SortOnSorted(cs[1..], d);
      InsertSorted(cs[0], SortOn(cs[1..], d), d);
      InsertMultiset(cs[0], SortOn(cs[1..], d), d);
      assert cs == [cs[0]] + cs[1..];
    }
  }

  /** The sort is stable: colours with equal keys keep their relative order. */
  lemma {:induction false} SortOnStable(cs: seq<Rgb>, d: Axis, v: int)
    ensures WithKey(SortOn(cs, d), d, v) == WithKey(cs, d, v)
  {
    if |cs| > 0 {
      SortOnStable(cs[1..], d, v);
      InsertWithKey(cs[0], SortOn(cs[1..], d), d, v);
      WithKeyCons(cs[0], cs[1..], d, v);
      assert cs == [cs[0]] + cs[1..];
    }
  }

  // ---------------------------------------------------------------------------------------
  // Choosing the box to cut
  // ---------------------------------------------------------------------------------------

  /** The running `longest_box`, `longest_dim`, `longest_size` of the selection loop. */
  datatype Longest = Longest(box: int, dim: int, size: int)

  const NoneYet := Longest(-1, -1, -1)

  /** Scan channels 0 .. n - 1 of box b, taking a channel when its range is strictly larger. */
  function ScanDims(st: Longest, b: nat, cs: seq<Rgb>, n: nat): Longest
    requires |cs| > 0 && n <= 3
  {
    if n == 0 then st
    else
      var prev := ScanDims(st, b, cs, n - 1);
      if SizeOn(cs, n - 1) > prev.size then Longest(b, n - 1, SizeOn(cs, n - 1)) else prev
  }

  predicate AllNonEmpty(parts: seq<seq<Rgb>>)
  {
    forall i :: 0 <= i < |parts| ==> |parts[i]| > 0
  }

  /** The selection state once boxes 0 .. n - 1 have been scanned. */
  function Scan(parts: seq<seq<Rgb>>, n: nat): Longest
    requires n <= |parts| && AllNonEmpty(parts)
  {
    if n == 0 then NoneYet else ScanDims(Scan(parts, n - 1), n - 1, parts[n - 1], 3)
  }

  /** (b, d) is visited before (b', d') by the nested loops. */
  predicate Before(b: int, d: int, b': int, d': int)
  {
    b < b' || (b == b' && d < d')
  }

  /** What the state after scanning the first n boxes promises. */
  predicate IsLongestOf(parts: seq<seq<Rgb>>, n: nat, st: Longest)
    requires n <= |parts| && AllNonEmpty(parts)
  {
    && 0 <= st.box < n && 0 <= st.dim < 3
    && st.size == SizeOn(parts[st.box], st.dim)
    && (forall b, d: Axis :: 0 <= b < n ==> SizeOn(parts[b], d) <= st.size)
    && (forall b, d: Axis :: 0 <= b < n && Before(b, d, st.box, st.dim) ==> SizeOn(parts[b], d) < st.size)
  }

  lemma {:induction false} ScanDimsFacts(st: Longest, b: nat, cs: seq<Rgb>, n: nat)
    requires |cs| > 0 && n <= 3 && st.box < b
    ensures var r := ScanDims(st, b, cs, n);
      && (r == st || (r.box == b && 0 <= r.dim < n && r.size == SizeOn(cs, r.dim) && r.size > st.size))
      && r.size >= st.size
      && (forall d: Axis :: d < n ==> SizeOn(cs, d) <= r.size)
      && (forall d: Axis :: d < n && r.box == b && d < r.dim ==> SizeOn(cs, d) < r.size)
      && (forall d: Axis :: d < n && r == st ==> SizeOn(cs, d) <= st.size)
  {
    if n > 0 {
      ScanDimsFacts(st, b, cs, n - 1);
    }
  }

  /**
   * The selection loop finds the pair with the strictly largest range; the earliest box,
   * and within it the earliest channel, wins a tie.
   */
  lemma {:induction false} ScanIsLongest(parts: seq<seq<Rgb>>, n: nat)
    requires 0 < n <= |parts| && AllNonEmpty(parts)
    ensures IsLongestOf(parts, n, Scan(parts, n))
  {
    var cs := parts[n - 1];
    SizeOnBounds(cs, 0);
    if n == 1 {
      ScanDimsFacts(NoneYet, 0, cs, 3);
    } else {
      ScanIsLongest(parts, n - 1);
      ScanDimsFacts(Scan(parts, n - 1), n - 1, cs, 3);
    }
  }

  // ---------------------------------------------------------------------------------------
  // The cutting loop
  // ---------------------------------------------------------------------------------------

  /** `boxes[:i] + [a, b] + boxes[i+1:]`. */
  function ReplaceWithPair<T>(s: seq<T>, i: nat, a: T, b: T): (r: seq<T>)
    requires i < |s|
    ensures |r| == |s| + 1
  {
    s[..i] + [a, b] + s[i + 1..]
  }

  /** The entries before i stay, a and b take position i, and the rest move up by one. */
  lemma ReplaceWithPairAt<T>(s: seq<T>, i: nat, a: T, b: T)
    requires i < |s|
    ensures var r := ReplaceWithPair(s, i, a, b);
      && (forall j :: 0 <= j < i ==> r[j] == s[j])
      && r[i] == a && r[i + 1] == b
      && (forall j :: i < j < |s| ==> r[j + 1] == s[j])
  {
  }

  /** The box contents after one iteration that cuts box b on channel d. */
  function CutOnce(parts: seq<seq<Rgb>>, b: nat, d: Axis): (r: seq<seq<Rgb>>)
    requires b < |parts| && |parts[b]| >= 2
    ensures |r| == |parts| + 1
  {
    var sorted := SortOn(parts[b], d);
    var med := |sorted| / 2;
    ReplaceWithPair(parts, b, sorted[..med], sorted[med..])
  }

  /**
   * One iteration: the two children have n/2 and n - n/2 colours and together are the
   * parent stably sorted on the channel; the other boxes keep their place and contents.
   */
  lemma CutOnceChildren(parts: seq<seq<Rgb>>, b: nat, d: Axis)
    requires b < |parts| && |parts[b]| >= 2
    ensures var r := CutOnce(parts, b, d); var n := |parts[b]|;
      && |r| == |parts| + 1
      && |r[b]| == n / 2 > 0 && |r[b + 1]| == n - n / 2 > 0
      && r[b] + r[b + 1] == SortOn(parts[b], d)
      && (forall j :: 0 <= j < b ==> r[j] == parts[j])
      && (forall j :: b < j < |parts| ==> r[j + 1] == parts[j])
    ensures AllNonEmpty(parts) ==> AllNonEmpty(CutOnce(parts, b, d))
  {
    var sorted := SortOn(parts[b], d);
    var med := |sorted| / 2;
    ReplaceWithPairAt(parts, b, sorted[..med], sorted[med..]);
    assert sorted[..med] + sorted[med..] == sorted;
    var r := CutOnce(parts, b, d);
    if AllNonEmpty(parts) {
      forall j | 0 <= j < |r|
        ensures |r[j]| > 0
      {
        if j > b + 1 {
          assert r[j] == parts[j - 1];
        }
      }
    }
  }

  /**
   * The `while len(boxes) < num_colours` loop on box contents. Cutting a box with fewer
   * than two colours makes `Box([])` call `min` on an empty list.
   */
  function Cut(parts: seq<seq<Rgb>>, num: int): (r: Result<seq<seq<Rgb>>>)
    requires |parts| > 0 && AllNonEmpty(parts)
    ensures r.Ok? ==> |r.value| > 0 && AllNonEmpty(r.value)
    decreases num - |parts|
  {
    if |parts| >= num then Ok(parts)
    else
      ScanIsLongest(parts, |parts|);
      var st := Scan(parts, |parts|);
      if |parts[st.box]| < 2 then Err(EmptySequence)
      else
        CutOnceChildren(parts, st.box, st.dim);
        Cut(CutOnce(parts, st.box, st.dim), num)
  }

  /** One unfolding of the loop, in the terms the proofs about it use. */
  lemma CutStep(parts: seq<seq<Rgb>>, num: int)
    requires |parts| > 0 && AllNonEmpty(parts) && |parts| < num
    ensures var st := Scan(parts, |parts|);
      && 0 <= st.box < |parts| && 0 <= st.dim < 3
      && (|parts[st.box]| < 2 ==> Cut(parts, num) == Err(EmptySequence))
      && (|parts[st.box]| >= 2 ==>
            AllNonEmpty(CutOnce(parts, st.box, st.dim)) && Cut(parts, num) == Cut(CutOnce(parts, st.box, st.dim), num))
  {
    ScanIsLongest(parts, |parts|);
    var st := Scan(parts, |parts|);
    if |parts[st.box]| >= 2 {
      CutOnceChildren(parts, st.box, st.dim);
    }
  }

  /** `median_cut` on the colour list, before the boxes are averaged. */
  function Boxes(colours: seq<Rgb>, num: int): (r: Result<seq<seq<Rgb>>>)
    ensures |colours| == 0 ==> r == Err(EmptySequence)
    ensures r.Ok? ==> |r.value| > 0 && AllNonEmpty(r.value)
  {
    if |colours| == 0 then Err(EmptySequence) else Cut([colours], num)
  }

  /** `median_cut`: the floor average of every box, in box order. */
  function MedianCutSpec(colours: seq<Rgb>, num: int): (r: Result<seq<Rgb>>)
    ensures r.Ok? <==> Boxes(colours, num).Ok?
    ensures r.Ok? ==> |r.value| == |Boxes(colours, num).value| > 0
  {
    match Boxes(colours, num)
    case Err(e) => Err(e)
    case Ok(parts) => Ok(Averaged(parts))
  }

  /** The floor average of each box, in box order. */
  function Averaged(parts: seq<seq<Rgb>>): (r: seq<Rgb>)
    requires AllNonEmpty(parts)
    ensures |r| == |parts|
  {
    seq(|parts|, i requires 0 <= i < |parts| => AvgOf(parts[i]))
  }

  /** All box contents, concatenated in box order. */
  function Flatten(parts: seq<seq<Rgb>>): seq<Rgb>
  {
    if |parts| == 0 then [] else parts[0] + Flatten(parts[1..])
  }

  lemma {:induction false} FlattenAppend(a: seq<seq<Rgb>>, b: seq<seq<Rgb>>)
    ensures Flatten(a + b) == Flatten(a) + Flatten(b)
  {
    if |a| > 0 {
      FlattenAppend(a[1..], b);
      assert (a + b)[0] == a[0];
      assert (a + b)[1..] == a[1..] + b;
    } else {
      assert a + b == b;
    }
  }

  lemma FlattenAround(pre: seq<seq<Rgb>>, mid: seq<seq<Rgb>>, post: seq<seq<Rgb>>)
    ensures Flatten(pre + mid + post) == Flatten(pre) + Flatten(mid) + Flatten(post)
  {
    FlattenAppend(pre + mid, post);
    FlattenAppend(pre, mid);
  }

  /** One iteration only moves colours between boxes: the contents stay a permutation. */
  lemma CutOnceFlatten(parts: seq<seq<Rgb>>, b: nat, d: Axis)
    requires b < |parts| && |parts[b]| >= 2
    ensures multiset(Flatten(CutOnce(parts, b, d))) == multiset(Flatten(parts))
  {
    var sorted := SortOn(parts[b], d);
    var lo, hi := sorted[..|sorted| / 2], sorted[|sorted| / 2..];
    FlattenAroundBox(parts, b);
    FlattenReplace(parts, b, lo, hi);
    assert lo + hi == sorted;
    SortOnSorted(parts[b], d);
    var fpre, fpost := Flatten(parts[..b]), Flatten(parts[b + 1..]);
    assert multiset(fpre + parts[b] + fpost) == multiset(fpre) + multiset(parts[b]) + multiset(fpost);
    assert multiset(fpre + sorted + fpost) == multiset(fpre) + multiset(sorted) + multiset(fpost);
  }

  lemma {:induction false} FlattenAroundBox(parts: seq<seq<Rgb>>, b: nat)
    requires b < |parts|
    ensures Flatten(parts) == Flatten(parts[..b]) + parts[b] + Flatten(parts[b + 1..])
  {
    if b == 0 {
      assert parts[..0] == [];
    } else {
      var tail := parts[1..];
      FlattenAroundBox(tail, b - 1);
      assert tail[..b - 1] == parts[..b][1..];
      assert tail[b - 1] == parts[b];
      assert tail[b..] == parts[b + 1..];
      assert parts[..b][0] == parts[0];
    }
  }

  lemma FlattenReplace(parts: seq<seq<Rgb>>, b: nat, x: seq<Rgb>, y: seq<Rgb>)
    requires b < |parts|
    ensures Flatten(ReplaceWithPair(parts, b, x, y)) == Flatten(parts[..b]) + (x + y) + Flatten(parts[b + 1..])
  {
    FlattenAround(parts[..b], [x, y], parts[b + 1..]);
    FlattenPair(x, y);
  }

  /** One iteration keeps the colours distinct and their number unchanged. */
  lemma CutOnceDistinct(parts: seq<seq<Rgb>>, b: nat, d: Axis)
    requires b < |parts| && |parts[b]| >= 2 && Distinct(Flatten(parts))
    ensures Distinct(Flatten(CutOnce(parts, b, d)))
    ensures |Flatten(CutOnce(parts, b, d))| == |Flatten(parts)|
  {
    var next := Flatten(CutOnce(parts, b, d));
    CutOnceFlatten(parts, b, d);
    DistinctPermutation(Flatten(parts), next);
    assert |multiset(next)| == |multiset(Flatten(parts))|;
  }

  /** The loop stops with exactly max(len(boxes), num_colours) boxes. */
  lemma {:induction false} CutCount(parts: seq<seq<Rgb>>, num: int)
    requires |parts| > 0 && AllNonEmpty(parts)
    ensures Cut(parts, num).Ok? ==> |Cut(parts, num).value| == (if |parts| >= num then |parts| else num)
    decreases num - |parts|
  {
    if |parts| < num {
      CutStep(parts, num);
      var st := Scan(parts, |parts|);
      if |parts[st.box]| >= 2 {
        CutCount(CutOnce(parts, st.box, st.dim), num);
        CutOnceChildren(parts, st.box, st.dim);
      }
    }
  }

  /** The boxes at the end hold exactly the colours the loop started with. */
  lemma {:induction false} CutPermutation(parts: seq<seq<Rgb>>, num: int)
    requires |parts| > 0 && AllNonEmpty(parts)
    ensures Cut(parts, num).Ok? ==> multiset(Flatten(Cut(parts, num).value)) == multiset(Flatten(parts))
    decreases num - |parts|
  {
    if |parts| < num {
      CutStep(parts, num);
      var st := Scan(parts, |parts|);
      if |parts[st.box]| >= 2 {
        CutPermutation(CutOnce(parts, st.box, st.dim), num);
        CutOnceFlatten(parts, st.box, st.dim);
      }
    }
  }

  /** Non-empty boxes: there are no more boxes than colours. */
  lemma {:induction false} FlattenLength(parts: seq<seq<Rgb>>)
    requires AllNonEmpty(parts)
    ensures |Flatten(parts)| >= |parts|
  {
    if |parts| > 0 {
      FlattenLength(parts[1..]);
    }
  }

  /** With fewer boxes than colours, some box holds at least two colours. */
  lemma {:induction false} SomeBoxHasTwo(parts: seq<seq<Rgb>>) returns (b: nat)
    requires AllNonEmpty(parts) && |parts| < |Flatten(parts)|
    ensures b < |parts| && |parts[b]| >= 2
  {
    if |parts[0]| >= 2 {
      b := 0;
    } else {
      assert |Flatten(parts)| == |parts[0]| + |Flatten(parts[1..])|;
      var b' := SomeBoxHasTwo(parts[1..]);
      b := b' + 1;
    }
  }

  /** A box is a contiguous piece of the flattening. */
  lemma BoxInFlatten(parts: seq<seq<Rgb>>, b: nat) returns (off: nat)
    requires b < |parts|
    ensures off + |parts[b]| <= |Flatten(parts)|
    ensures Flatten(parts)[off..off + |parts[b]|] == parts[b]
  {
    FlattenAroundBox(parts, b);
    var pre, post := Flatten(parts[..b]), Flatten(parts[b + 1..]);
    off := |pre|;
    assert (pre + parts[b] + post)[off..off + |parts[b]|] == parts[b];
  }

  lemma DistinctPermutation(s: seq<Rgb>, t: seq<Rgb>)
    requires Distinct(s) && multiset(s) == multiset(t)
    ensures Distinct(t)
  {
    forall i, j | 0 <= i < j < |t|
      ensures t[i] != t[j]
    {
      if t[i] == t[j] {
        var tm := multiset(t[..i]) + multiset{t[i]} + multiset(t[i + 1..j]) + multiset{t[j]} + multiset(t[j + 1..]);
        assert t == t[..i] + [t[i]] + t[i + 1..j] + [t[j]] + t[j + 1..];
        assert multiset(t) == tm;
        assert multiset(t)[t[i]] >= 2;
        DistinctCounts(s, t[i]);
        assert false;
      }
    }
  }

  lemma {:induction false} DistinctCounts(s: seq<Rgb>, c: Rgb)
    requires Distinct(s)
    ensures multiset(s)[c] <= 1
  {
    if |s| > 0 {
      assert Distinct(s[1..]);
      DistinctCounts(s[1..], c);
      assert s == [s[0]] + s[1..];
      if s[0] == c {
        assert c !in s[1..];
      }
    }
  }

  /**
   * With distinct colours and fewer boxes than colours, the box chosen for cutting holds at
   * least two colours, so the cut succeeds: the largest range is positive, and only a box
   * with two different colours has a positive range.
   */
  lemma ChosenBoxHasTwo(parts: seq<seq<Rgb>>)
    requires |parts| > 0 && AllNonEmpty(parts) && Distinct(Flatten(parts)) && |parts| < |Flatten(parts)|
    ensures 0 <= Scan(parts, |parts|).box < |parts| && |parts[Scan(parts, |parts|).box]| >= 2
  {
    ScanIsLongest(parts, |parts|);
    var st := Scan(parts, |parts|);
    var b := SomeBoxHasTwo(parts);
    var off := BoxInFlatten(parts, b);
    var f := Flatten(parts);
    assert parts[b][0] == f[off] && parts[b][1] == f[off + 1];
    DistinctColoursHaveRange(parts[b], 0, 1);
    assert st.size > 0;
    PositiveRangeHasTwo(parts[st.box], st.dim);
  }

  /** For distinct colours, cutting succeeds whenever there are enough colours to go round. */
  lemma {:induction false} CutSucceeds(parts: seq<seq<Rgb>>, num: int)
    requires |parts| > 0 && AllNonEmpty(parts) && Distinct(Flatten(parts)) && num <= |Flatten(parts)|
    ensures Cut(parts, num).Ok?
    decreases num - |parts|
  {
    if |parts| < num {
      CutStep(parts, num);
      var st := Scan(parts, |parts|);
      ChosenBoxHasTwo(parts);
      CutOnceDistinct(parts, st.box, st.dim);
      CutSucceeds(CutOnce(parts, st.box, st.dim), num);
    }
  }

  /** Cutting never produces more boxes than colours. */
  lemma CutBoundedByColours(parts: seq<seq<Rgb>>, num: int)
    requires |parts| > 0 && AllNonEmpty(parts)
    ensures Cut(parts, num).Ok? ==> |Cut(parts, num).value| <= |Flatten(parts)|
  {
    if Cut(parts, num).Ok? {
      var ps := Cut(parts, num).value;
      FlattenLength(ps);
      CutPermutation(parts, num);
      assert |multiset(Flatten(ps))| == |multiset(Flatten(parts))|;
    }
  }

  lemma FlattenSingle(colours: seq<Rgb>)
    ensures Flatten([colours]) == colours
  {
    assert [colours][1..] == [];
  }

  lemma FlattenPair(a: seq<Rgb>, b: seq<Rgb>)
    ensures Flatten([a, b]) == a + b
  {
    assert [a, b][1..] == [b];
    FlattenSingle(b);
  }

  /**
   * `median_cut` on a distinct colour list succeeds exactly when the list is non-empty and
   * there are at least `num_colours` colours (or `num_colours` is at most 1); it then
   * returns max(1, `num_colours`) colours, each the average of a box, and the boxes
   * partition the colours.
   */
  lemma MedianCutOutcome(colours: seq<Rgb>, num: int)
    requires Distinct(colours)
    ensures MedianCutSpec(colours, num).Ok? <==> |colours| > 0 && num <= |colours|
    ensures MedianCutSpec(colours, num).Ok? ==>
              |MedianCutSpec(colours, num).value| == (if num <= 1 then 1 else num)
    ensures Boxes(colours, num).Ok? ==> multiset(Flatten(Boxes(colours, num).value)) == multiset(colours)
  {
    if |colours| > 0 {
      FlattenSingle(colours);
      CutCount([colours], num);
      CutPermutation([colours], num);
      CutBoundedByColours([colours], num);
      if num <= |colours| {
        CutSucceeds([colours], num);
      }
    }
  }

  /** Each palette colour lies, channel by channel, within the range of its box. */
  lemma MedianCutAverages(colours: seq<Rgb>, num: int, i: nat, d: Axis)
    requires Boxes(colours, num).Ok? && i < |Boxes(colours, num).value|
    ensures |Boxes(colours, num).value[i]| > 0
    ensures MedianCutSpec(colours, num).Ok? && i < |MedianCutSpec(colours, num).value|
    ensures var box := Boxes(colours, num).value[i];
      Lo(box, d) <= Channel(MedianCutSpec(colours, num).value[i], d) <= Hi(box, d)
  {
    AvgWithinRange(Boxes(colours, num).value[i], d);
  }

  /** With at most one colour wanted the palette is the average of all the colours. */
  lemma MedianCutSingleBox(colours: seq<Rgb>, num: int)
    requires |colours| > 0 && num <= 1
    ensures MedianCutSpec(colours, num) == Ok([AvgOf(colours)])
  {
    assert Boxes(colours, num) == Ok([colours]);
    var p := MedianCutSpec(colours, num).value;
    assert |p| == 1 && p[0] == AvgOf(colours);
    assert p == [AvgOf(colours)];
  }

  // ---------------------------------------------------------------------------------------
  // The Box class and the median_cut loop
  // ---------------------------------------------------------------------------------------

  /** A box of colours with a bounding range per channel. */
  class Box {
    var colours: seq<Rgb>
    var r0: int
    var r1: int
    var g0: int
    var g1: int
    var b0: int
    var b1: int

    /** The ranges are the channel extremes of the colours, as `resize` makes them. */
    predicate Resized()
      reads this
    {
      && |colours| > 0
      && r0 == Lo(colours, 0) && r1 == Hi(colours, 0)
      && g0 == Lo(colours, 1) && g1 == Hi(colours, 1)
      && b0 == Lo(colours, 2) && b1 == Hi(colours, 2)
    }

    /** `Box()`: no colours, and the full byte range on every channel. */
    constructor Empty()
      ensures colours == [] && r0 == 0 && r1 == 255 && g0 == 0 && g1 == 255 && b0 == 0 && b1 == 255
    {
      colours := [];
      r0, r1 := 0, 255;
      g0, g1 := 0, 255;
      b0, b1 := 0, 255;
    }

    /** `Box(colours)`: the ranges are fitted to the colours. */
    constructor (cs: seq<Rgb>)
      requires |cs| > 0
      ensures colours == cs && Resized()
    {
      colours := cs;
      new;
      Resize();
    }

    /** `resize`: each channel's range becomes the min and max over the colours. */
    method Resize()
      requires |colours| > 0
      modifies this
      ensures colours == old(colours) && Resized()
    {
      r0 := Lo(colours, 0);
      r1 := Hi(colours, 0);
      g0 := Lo(colours, 1);
      g1 := Hi(colours, 1);
      b0 := Lo(colours, 2);
      b1 := Hi(colours, 2);
    }

    /** Every colour of a resized box lies inside its ranges. */
    lemma ResizedContains(i: nat)
      requires Resized() && i < |colours|
      ensures r0 <= colours[i].r <= r1 && g0 <= colours[i].g <= g1 && b0 <= colours[i].b <= b1
    {
      LoHiBounds(colours, 0);
      LoHiBounds(colours, 1);
      LoHiBounds(colours, 2);
      assert Channel(colours[i], 0) == colours[i].r;
      assert Channel(colours[i], 1) == colours[i].g;
      assert Channel(colours[i], 2) == colours[i].b;
    }

    function RSize(): (s: int)
      reads this
      ensures Resized() ==> s == SizeOn(colours, 0) && s >= 0
    {
      if Resized() then SizeOnBounds(colours, 0); r1 - r0 else r1 - r0
    }

    function GSize(): (s: int)
      reads this
      ensures Resized() ==> s == SizeOn(colours, 1) && s >= 0
    {
      if Resized() then SizeOnBounds(colours, 1); g1 - g0 else g1 - g0
    }

    function BSize(): (s: int)
      reads this
      ensures Resized() ==> s == SizeOn(colours, 2) && s >= 0
    {
      if Resized() then SizeOnBounds(colours, 2); b1 - b0 else b1 - b0
    }

    /** `size`: the three ranges; on a resized box `size[d]` is the channel's spread. */
    function Size(): (s: (int, int, int))
      reads this
      ensures Resized() ==> forall d: Axis :: Component(s, d) == SizeOn(colours, d) >= 0
    {
      (RSize(), GSize(), BSize())
    }

    /** `avg`: the floor average of the colours; an empty box divides by zero. */
    function Avg(): (r: Result<Rgb>)
      reads this
      ensures |colours| == 0 <==> r == Err(DivisionByZero)
      ensures r.Ok? ==> forall d: Axis :: Lo(colours, d) <= Channel(r.value, d) <= Hi(colours, d)
    {
      if |colours| == 0 then Err(DivisionByZero)
      else
        AvgWithinRange(colours, 0);
        AvgWithinRange(colours, 1);
        AvgWithinRange(colours, 2);
        Ok(AvgOf(colours))
    }

    /**
     * `split(axis)`: sort the colours on the axis (the box keeps them sorted) and make two
     * new boxes of the halves either side of the median index. With fewer than two colours
     * one half is empty and building its box fails.
     */
    method Split(axis: Axis) returns (r: Result<(Box, Box)>)
      modifies this
      ensures colours == SortOn(old(colours), axis)
      ensures r0 == old(r0) && r1 == old(r1) && g0 == old(g0) && g1 == old(g1) && b0 == old(b0) && b1 == old(b1)
      ensures |colours| < 2 ==> r == Err(EmptySequence)
      ensures |colours| >= 2 ==>
                && r.Ok? && fresh(r.value.0) && fresh(r.value.1) && r.value.0 != r.value.1
                && r.value.0.colours == colours[..|colours| / 2] && r.value.0.Resized()
                && r.value.1.colours == colours[|colours| / 2..] && r.value.1.Resized()
    {
      colours := SortOn(colours, axis);
      var medIdx := |colours| / 2;
      if |colours| < 2 {
        return Err(EmptySequence);
      }
      var a := new Box(colours[..medIdx]);
      var b := new Box(colours[medIdx..]);
      return Ok((a, b));
    }
  }

  /** Component d of a `size` triple. */
  function Component(t: (int, int, int), d: Axis): int
  {
    if d == 0 then t.0 else if d == 1 then t.1 else t.2
  }

  /** The boxes hold the given contents, are resized, and are pairwise different objects. */
  ghost predicate Holds(boxes: seq<Box>, parts: seq<seq<Rgb>>)
    reads set i | 0 <= i < |boxes| :: boxes[i]
  {
    && |boxes| == |parts|
    && (forall i :: 0 <= i < |boxes| ==> boxes[i].colours == parts[i] && boxes[i].Resized())
    && (forall i, j :: 0 <= i < j < |boxes| ==> boxes[i] != boxes[j])
  }

  lemma HoldsNonEmpty(boxes: seq<Box>, parts: seq<seq<Rgb>>)
    requires Holds(boxes, parts)
    ensures AllNonEmpty(parts)
  {
    forall i | 0 <= i < |parts|
      ensures |parts[i]| > 0
    {
      assert boxes[i].Resized();
    }
  }

  /** The selection loop of `median_cut`, over the boxes' `size` triples. */
  method FindLongest(boxes: seq<Box>, ghost parts: seq<seq<Rgb>>) returns (longestBox: int, longestDim: int, longestSize: int)
    requires Holds(boxes, parts) && AllNonEmpty(parts)
    ensures Longest(longestBox, longestDim, longestSize) == Scan(parts, |parts|)
  {
    longestBox, longestDim, longestSize := -1, -1, -1;
    for b := 0 to |boxes|
      invariant Longest(longestBox, longestDim, longestSize) == Scan(parts, b)
    {
      var size := boxes[b].Size();
      ghost var start := Scan(parts, b);
      for d := 0 to 3
        invariant Longest(longestBox, longestDim, longestSize) == ScanDims(start, b, parts[b], d)
      {
        if Component(size, d) > longestSize {
          longestBox := b;
          longestDim := d;
          longestSize := Component(size, d);
        }
      }
    }
  }

  /** `[x.avg for x in boxes]`. */
  method Averages(boxes: seq<Box>, ghost parts: seq<seq<Rgb>>) returns (colours: seq<Rgb>)
    requires Holds(boxes, parts)
    ensures AllNonEmpty(parts)
    ensures colours == Averaged(parts)
  {
    HoldsNonEmpty(boxes, parts);
    colours := [];
    for i := 0 to |boxes|
      invariant |colours| == i && forall j :: 0 <= j < i ==> colours[j] == AvgOf(parts[j])
    {
      var avg := boxes[i].Avg();
      colours := colours + [avg.value];
    }
    assert colours == Averaged(parts);
  }

  /** Putting two new resized boxes in place of box i keeps the list in step with its contents. */
  lemma HoldsReplace(boxes: seq<Box>, parts: seq<seq<Rgb>>, i: nat, a: Box, b: Box, pa: seq<Rgb>, pb: seq<Rgb>)
    requires |boxes| == |parts| && i < |boxes|
    requires forall j :: 0 <= j < |boxes| && j != i ==>
      boxes[j].colours == parts[j] && boxes[j].Resized() && boxes[j] != a && boxes[j] != b
    requires forall j, k :: 0 <= j < k < |boxes| ==> boxes[j] != boxes[k]
    requires a != b && a.colours == pa && a.Resized() && b.colours == pb && b.Resized()
    ensures Holds(ReplaceWithPair(boxes, i, a, b), ReplaceWithPair(parts, i, pa, pb))
  {
    var next := ReplaceWithPair(boxes, i, a, b);
    var nextParts := ReplaceWithPair(parts, i, pa, pb);
    ReplaceWithPairAt(boxes, i, a, b);
    ReplaceWithPairAt(parts, i, pa, pb);
    forall j | 0 <= j < |next|
      ensures next[j].colours == nextParts[j] && next[j].Resized()
    {
      if j > i + 1 {
        assert next[j] == boxes[j - 1] && nextParts[j] == parts[j - 1];
      }
    }
    forall j, k | 0 <= j < k < |next|
      ensures next[j] != next[k]
    {
      if j < i && k < i {
      } else if j < i && k > i + 1 {
        assert next[k] == boxes[k - 1];
      } else if j == i + 1 && k > i + 1 {
        assert next[k] == boxes[k - 1];
      } else if j == i && k > i + 1 {
        assert next[k] == boxes[k - 1];
      } else if j > i + 1 {
        assert next[j] == boxes[j - 1] && next[k] == boxes[k - 1];
      }
    }
  }

  /**
   * One iteration's cut: `split_box.split(longest_dim)`, and the two new boxes replace the
   * split one in the list.
   */
  method SplitLongest(boxes: seq<Box>, ghost parts: seq<seq<Rgb>>, longestBox: nat, longestDim: Axis)
    returns (r: Result<seq<Box>>)
    requires Holds(boxes, parts) && longestBox < |parts|
    modifies boxes[longestBox]
    ensures |parts[longestBox]| < 2 ==> r == Err(EmptySequence)
    ensures |parts[longestBox]| >= 2 ==>
              && r.Ok? && Holds(r.value, CutOnce(parts, longestBox, longestDim))
              && forall i :: 0 <= i < |r.value| ==> r.value[i] in boxes || fresh(r.value[i])
  {
    var splitBox := boxes[longestBox];
    var res := splitBox.Split(longestDim);
    if res.Err? {
      return Err(res.error);
    }
    var (a, b) := res.value;
    ghost var sorted := splitBox.colours;
    assert forall j :: 0 <= j < |boxes| && j != longestBox ==>
      boxes[j].colours == parts[j] && boxes[j].Resized() && boxes[j] != a && boxes[j] != b;
    var next := ReplaceWithPair(boxes, longestBox, a, b);
    HoldsReplace(boxes, parts, longestBox, a, b, sorted[..|sorted| / 2], sorted[|sorted| / 2..]);
    ReplaceWithPairAt(boxes, longestBox, a, b);
    return Ok(next);
  }

  /** `median_cut(image, num_colours)` on the image's colour list. */
  method MedianCut(colours: seq<Rgb>, numColours: int) returns (r: Result<seq<Rgb>>)
    ensures r == MedianCutSpec(colours, numColours)
  {
    if |colours| == 0 {
      // Box([]) calls min() on an empty list
      return Err(EmptySequence);
    }
    var first := new Box(colours);
    var boxes := [first];
    ghost var parts := [colours];
    while |boxes| < numColours
      invariant Holds(boxes, parts) && |parts| > 0
      invariant forall i :: 0 <= i < |boxes| ==> fresh(boxes[i])
      invariant AllNonEmpty(parts)
      invariant Cut(parts, numColours) == Cut([colours], numColours)
      decreases numColours - |boxes|
    {
      var longestBox, longestDim, longestSize := FindLongest(boxes, parts);
      CutStep(parts, numColours);
      var res := SplitLongest(boxes, parts, longestBox, longestDim);
      if res.Err? {
        return Err(res.error);
      }
      boxes := res.value;
      parts := CutOnce(parts, longestBox, longestDim);
    }
    var palette := Averages(boxes, parts);
    assert Boxes(colours, numColours) == Ok(parts);
    return Ok(palette);
  }
}
