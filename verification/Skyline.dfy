/** The skyline of a rectangle packer as a sequence of points, and what placing a rectangle does to it. */
module Skyline {

  /** The left end and the height of one segment; the last point is the sentinel. */
  datatype Point = Point(x: int, y: int)

  datatype Box = Box(x: int, y: int, w: int, h: int)

  const SENTINEL_Y := 65535

  ghost predicate Increasing(sky: seq<Point>) {
    forall i, j | 0 <= i < j < |sky| :: sky[i].x < sky[j].x
  }

  /** A skyline over the columns 0..width, at most height high. */
  ghost predicate ValidSky(sky: seq<Point>, width: int, height: int) {
    && 1 <= width <= 65535 && 0 <= height <= 65535
    && |sky| >= 2 && sky[0].x == 0 && sky[|sky| - 1] == Point(width, SENTINEL_Y)
    && Increasing(sky)
    && forall i | 0 <= i < |sky| - 1 :: 0 <= sky[i].y <= height
  }

  /** The frame of a valid skyline, for proofs that need no more of it. */
  lemma Frame(sky: seq<Point>, width: int, height: int)
    requires ValidSky(sky, width, height)
    ensures Increasing(sky) && |sky| >= 2 && sky[0].x == 0 && sky[|sky| - 1].x == width <= 0xffff && height <= 0xffff
  {}

  /** Column c belongs to segment k. */
  ghost predicate InSegment(sky: seq<Point>, k: int, c: int) {
    0 <= k < |sky| - 1 && sky[k].x <= c < sky[k + 1].x
  }

  /** The segment of column c. */
  ghost function SegmentOf(sky: seq<Point>, c: int, k: nat): (r: nat)
    requires k + 1 < |sky| && sky[0].x <= c < sky[k + 1].x
    ensures InSegment(sky, r, c)
  {
    if sky[k].x <= c then k else SegmentOf(sky, c, k - 1)
  }

  /** The height of the skyline over column c. */
  ghost function HeightAt(sky: seq<Point>, c: int): int {
    if |sky| >= 2 && sky[0].x <= c < sky[|sky| - 1].x then sky[SegmentOf(sky, c, |sky| - 2)].y else 0
  }

  lemma HeightInSegment(sky: seq<Point>, k: int, c: int)
    requires Increasing(sky) && InSegment(sky, k, c)
    ensures HeightAt(sky, c) == sky[k].y
  {
    assert sky[0].x <= sky[k].x && sky[k + 1].x <= sky[|sky| - 1].x;
    var r := SegmentOf(sky, c, |sky| - 2);
    assert r == k;
  }

  function Max(a: int, b: int): int {
    if a < b then b else a
  }

  /** The greatest height over the columns lo..hi. */
  ghost function MaxHeight(sky: seq<Point>, lo: int, hi: int): int
    decreases hi - lo
  {
    if hi <= lo then 0
    else
      var m := MaxHeight(sky, lo, hi - 1);
      if m < HeightAt(sky, hi - 1) then HeightAt(sky, hi - 1) else m
  }

  /** The area below the skyline over the columns lo..hi. */
  ghost function AreaUnder(sky: seq<Point>, lo: int, hi: int): int
    decreases hi - lo
  {
    if hi <= lo then 0 else AreaUnder(sky, lo, hi - 1) + HeightAt(sky, hi - 1)
  }

  ghost predicate Level(sky: seq<Point>, lo: int, hi: int, y: int) {
    forall c | lo <= c < hi :: HeightAt(sky, c) == y
  }

  lemma {:induction false} ExtendMaxHeight(sky: seq<Point>, lo: int, m: int, hi: int, y: int)
    requires lo <= m < hi && Level(sky, m, hi, y)
    ensures MaxHeight(sky, lo, hi) == if MaxHeight(sky, lo, m) < y then y else MaxHeight(sky, lo, m)
    decreases hi - m
  {
    assert HeightAt(sky, hi - 1) == y;
    if m < hi - 1 {
      ExtendMaxHeight(sky, lo, m, hi - 1, y);
    }
  }

  lemma {:induction false} ExtendArea(sky: seq<Point>, lo: int, m: int, d: nat, y: int)
    requires lo <= m && Level(sky, m, m + d, y)
    ensures AreaUnder(sky, lo, m + d) == AreaUnder(sky, lo, m) + d * y
  {
    if d > 0 {
      ExtendArea(sky, lo, m, d - 1, y);
      assert HeightAt(sky, m + d - 1) == y;
      assert d * y == (d - 1) * y + y;
    }
  }

  lemma {:induction false} SplitArea(sky: seq<Point>, lo: int, m: int, hi: int)
    requires lo <= m <= hi
    ensures AreaUnder(sky, lo, hi) == AreaUnder(sky, lo, m) + AreaUnder(sky, m, hi)
    decreases hi - m
  {
    if m < hi {
      SplitArea(sky, lo, m, hi - 1);
    }
  }

  lemma {:induction false} SameArea(a: seq<Point>, b: seq<Point>, lo: int, hi: int)
    requires forall c | lo <= c < hi :: HeightAt(a, c) == HeightAt(b, c)
    ensures AreaUnder(a, lo, hi) == AreaUnder(b, lo, hi)
    decreases hi - lo
  {
    if lo < hi {
      SameArea(a, b, lo, hi - 1);
    }
  }

  /** MaxHeight is the maximum: no column is higher, and some column is that high. */
  lemma {:induction false} MaxHeightIsMax(sky: seq<Point>, lo: int, hi: int)
    requires forall c | lo <= c < hi :: HeightAt(sky, c) >= 0
    ensures forall c | lo <= c < hi :: HeightAt(sky, c) <= MaxHeight(sky, lo, hi)
    ensures MaxHeight(sky, lo, hi) >= 0
    ensures lo < hi ==> exists c :: lo <= c < hi && HeightAt(sky, c) == MaxHeight(sky, lo, hi)
    decreases hi - lo
  {
    if lo < hi {
      MaxHeightIsMax(sky, lo, hi - 1);
      if MaxHeight(sky, lo, hi) == HeightAt(sky, hi - 1) {
      } else if lo < hi - 1 {
        var c :| lo <= c < hi - 1 && HeightAt(sky, c) == MaxHeight(sky, lo, hi - 1);
        assert lo <= c < hi && HeightAt(sky, c) == MaxHeight(sky, lo, hi);
      }
    }
  }

  lemma MaxHeightBounds(sky: seq<Point>, width: int, height: int, lo: int, hi: int)
    requires ValidSky(sky, width, height)
    ensures 0 <= MaxHeight(sky, lo, hi) <= height
  {
    forall c ensures 0 <= HeightAt(sky, c) <= height { HeightBounds(sky, width, height, c); }
    MaxHeightIsMax(sky, lo, hi);
  }

  lemma HeightBounds(sky: seq<Point>, width: int, height: int, c: int)
    requires ValidSky(sky, width, height)
    ensures 0 <= HeightAt(sky, c) <= height
  {}

  /** Sliding the window left to the start of its first segment does not raise the maximum. */
  lemma SlideLeft(sky: seq<Point>, width: int, height: int, k: int, x: int, w: int)
    requires ValidSky(sky, width, height) && InSegment(sky, k, x) && w >= 1
    ensures MaxHeight(sky, sky[k].x, sky[k].x + w) <= MaxHeight(sky, x, x + w)
  {
    hide HeightAt, MaxHeight;
    forall c ensures HeightAt(sky, c) >= 0 { HeightBounds(sky, width, height, c); }
    MaxHeightIsMax(sky, sky[k].x, sky[k].x + w);
    MaxHeightIsMax(sky, x, x + w);
    var c :| sky[k].x <= c < sky[k].x + w && HeightAt(sky, c) == MaxHeight(sky, sky[k].x, sky[k].x + w);
    if c < x {
      HeightInSegment(sky, k, c);
      HeightInSegment(sky, k, x);
      assert HeightAt(sky, x) <= MaxHeight(sky, x, x + w);
    }
  }

  // ----- scanning a window segment by segment -----

  /** The columns x0.. visited when the scan that began in segment k has reached point i. */
  ghost function Visited(sky: seq<Point>, k: int, x0: int, w: int, i: int): int
    requires 0 <= k <= i < |sky|
  {
    if i == k then 0 else if sky[i].x < x0 + w then sky[i].x - x0 else w
  }

  /** A window whose waste the scan computes: it starts at a node, or in a segment that is not on the floor. */
  ghost predicate Measured(sky: seq<Point>, k: int, x0: int)
    requires 0 <= k < |sky|
  {
    x0 == sky[k].x || sky[k].y > 0
  }

  /** The state of the scan at point i: the maximum so far and, for a measured window, the area closed off so far. */
  ghost predicate Scanned(sky: seq<Point>, k: int, x0: int, w: int, i: int, minY: int, waste: int, visited: int) {
    && 0 <= k <= i < |sky|
    && var v := Visited(sky, k, x0, w, i);
       && minY == MaxHeight(sky, x0, x0 + v)
       && (Measured(sky, k, x0) ==>
             waste == v * minY - AreaUnder(sky, x0, x0 + v) && (sky[i].x < x0 + w ==> visited == v))
  }

  lemma LevelSegment(sky: seq<Point>, i: int, lo: int, hi: int)
    requires Increasing(sky) && 0 <= i < |sky| - 1 && sky[i].x <= lo && hi <= sky[i + 1].x
    ensures Level(sky, lo, hi, sky[i].y)
  {
    forall c | lo <= c < hi ensures HeightAt(sky, c) == sky[i].y {
      HeightInSegment(sky, i, c);
    }
  }

  lemma VisitedGrows(sky: seq<Point>, k: int, x0: int, w: int, i: int)
    requires Increasing(sky) && InSegment(sky, k, x0) && w >= 1
    requires k <= i < |sky| && sky[i].x < x0 + w <= sky[|sky| - 1].x
    ensures i + 1 < |sky| && (i > k ==> x0 < sky[i].x)
    ensures var v, v' := Visited(sky, k, x0, w, i), Visited(sky, k, x0, w, i + 1);
            0 <= v < v' <= w && sky[i].x <= x0 + v && x0 + v' <= sky[i + 1].x
  {
    assert i + 1 < |sky|;
    assert i > k ==> sky[k + 1].x <= sky[i].x;
  }

  /** What the segment at point i adds to the visited part: its columns all have its height. */
  lemma NextSegment(sky: seq<Point>, k: int, x0: int, w: int, i: int)
    requires Increasing(sky) && InSegment(sky, k, x0) && w >= 1
    requires k <= i < |sky| && sky[i].x < x0 + w <= sky[|sky| - 1].x
    ensures i + 1 < |sky| && (i > k ==> x0 < sky[i].x)
    ensures var v, v' := Visited(sky, k, x0, w, i), Visited(sky, k, x0, w, i + 1);
            && 0 <= v < v' <= w
            && MaxHeight(sky, x0, x0 + v') == Max(MaxHeight(sky, x0, x0 + v), sky[i].y)
            && AreaUnder(sky, x0, x0 + v') == AreaUnder(sky, x0, x0 + v) + (v' - v) * sky[i].y
  {
    hide MaxHeight, AreaUnder, HeightAt;
    VisitedGrows(sky, k, x0, w, i);
    var v, v' := Visited(sky, k, x0, w, i), Visited(sky, k, x0, w, i + 1);
    LevelSegment(sky, i, x0 + v, x0 + v');
    ExtendMaxHeight(sky, x0, x0 + v, x0 + v', sky[i].y);
    ExtendArea(sky, x0, x0 + v, v' - v, sky[i].y);
  }

  /** A segment higher than all before raises the maximum over what was visited. */
  lemma ScanRaise(sky: seq<Point>, k: int, x0: int, w: int, i: int, p: Point, next: int,
                  minY: int, waste: int, visited: int, waste': int, visited': int)
    requires Increasing(sky) && InSegment(sky, k, x0) && w >= 1 && x0 + w <= sky[|sky| - 1].x
    requires Scanned(sky, k, x0, w, i, minY, waste, visited) && i + 1 < |sky| && p == sky[i] && next == sky[i + 1].x
    requires p.x < x0 + w && minY < p.y
    requires waste' == waste + visited * (p.y - minY) && visited' == visited + (next - if p.x < x0 then x0 else p.x)
    ensures Scanned(sky, k, x0, w, i + 1, p.y, waste', visited')
  {
    hide MaxHeight, AreaUnder;
    NextSegment(sky, k, x0, w, i);
    var v, v' := Visited(sky, k, x0, w, i), Visited(sky, k, x0, w, i + 1);
    if Measured(sky, k, x0) {
      WasteStep(v, v' - v, minY, p.y, AreaUnder(sky, x0, x0 + v));
    }
  }

  lemma NoColumns(sky: seq<Point>, x: int)
    ensures MaxHeight(sky, x, x) == 0
  {}

  /** A segment no higher than the maximum closes off the space between. */
  lemma ScanKeep(sky: seq<Point>, k: int, x0: int, w: int, i: int, p: Point, next: int,
                 minY: int, waste: int, visited: int, under: int, waste': int)
    requires Increasing(sky) && InSegment(sky, k, x0) && w >= 1 && x0 + w <= sky[|sky| - 1].x
    requires Scanned(sky, k, x0, w, i, minY, waste, visited) && i + 1 < |sky| && p == sky[i] && next == sky[i + 1].x
    requires p.x < x0 + w && p.y <= minY
    requires under == (if next - p.x + visited > w then w - visited else next - p.x)
    requires waste' == waste + under * (minY - p.y)
    ensures Scanned(sky, k, x0, w, i + 1, minY, waste', visited + under)
  {
    hide MaxHeight, AreaUnder;
    NoColumns(sky, x0);
    NextSegment(sky, k, x0, w, i);
    var v, v' := Visited(sky, k, x0, w, i), Visited(sky, k, x0, w, i + 1);
    if Measured(sky, k, x0) {
      WasteStep(v, v' - v, minY, p.y, AreaUnder(sky, x0, x0 + v));
    }
  }

  /** The waste bookkeeping of one segment of width d and height y, after v columns with area a. */
  lemma WasteStep(v: int, d: int, m: int, y: int, a: int)
    ensures (v * m - a) + v * (y - m) == (v + d) * y - (a + d * y)
    ensures (v * m - a) + d * (m - y) == (v + d) * m - (a + d * y)
  {
    assert v * (y - m) == v * y - v * m;
    assert d * (m - y) == d * m - d * y;
    assert (v + d) * y == v * y + d * y && (v + d) * m == v * m + d * m;
  }

  lemma ScanStart(sky: seq<Point>, k: int, x0: int, w: int)
    requires 0 <= k < |sky|
    ensures Scanned(sky, k, x0, w, k, 0, 0, 0)
  {}

  lemma ScanEnd(sky: seq<Point>, k: int, x0: int, w: int, i: int, minY: int, waste: int, visited: int)
    requires InSegment(sky, k, x0) && w >= 1 && Scanned(sky, k, x0, w, i, minY, waste, visited) && x0 + w <= sky[i].x
    ensures minY == MaxHeight(sky, x0, x0 + w)
    ensures Measured(sky, k, x0) ==> waste == w * minY - AreaUnder(sky, x0, x0 + w)
  {}

  // ----- placing a rectangle -----

  /** The first index whose left end is not before x, given the segment k of x. */
  function StartIndex(sky: seq<Point>, k: nat, x: int): (i: nat)
    requires k + 1 < |sky|
  {
    if sky[k].x < x then k + 1 else k
  }

  /** The last point of sky[i..] that is covered up to right. */
  function LastCovered(sky: seq<Point>, i: nat, right: int): (j: nat)
    requires i < |sky|
    ensures i <= j < |sky|
    ensures forall m | i < m <= j :: sky[m].x <= right
    ensures j + 1 < |sky| ==> right < sky[j + 1].x
    decreases |sky| - i
  {
    if i + 1 < |sky| && sky[i + 1].x <= right then LastCovered(sky, i + 1, right) else i
  }

  lemma LastCoveredNext(sky: seq<Point>, i: nat, right: int)
    requires i < |sky|
    ensures LastCovered(sky, i, right)
            == if i + 1 < |sky| && sky[i + 1].x <= right then LastCovered(sky, i + 1, right) else i
  {
  }

  /** The skyline after a rectangle of width w with upper side at top was put at x, in segment k. */
  function Place(sky: seq<Point>, k: nat, x: int, w: int, top: int): seq<Point>
    requires k + 1 < |sky|
  {
    var i := StartIndex(sky, k, x);
    var j := LastCovered(sky, i, x + w);
    sky[..i] + [Point(x, top), Point(Max(sky[j].x, x + w), sky[j].y)] + sky[j + 1..]
  }

  /** Where the raised part ends: at x + w, or at the next node when x was no node position and that lies beyond. */
  function PlacedEnd(sky: seq<Point>, k: nat, x: int, w: int): int
    requires k + 1 < |sky|
  {
    Max(sky[LastCovered(sky, StartIndex(sky, k, x), x + w)].x, x + w)
  }

  ghost predicate Placeable(sky: seq<Point>, width: int, height: int, k: nat, x: int, w: int, top: int) {
    ValidSky(sky, width, height) && InSegment(sky, k, x) && 1 <= w && x + w <= width && 0 <= top <= height
  }

  lemma PlaceableCoordinates(sky: seq<Point>, width: int, height: int, k: nat, x: int, w: int, top: int)
    requires Placeable(sky, width, height, k, x, w, top)
    ensures 0 <= x < x + w <= 65535 && 0 <= top <= 65535
  {
    assert k == 0 || sky[0].x < sky[k].x;
  }

  /** The points of the skyline after placing, by index. */
  lemma PlacePoints(sky: seq<Point>, k: nat, x: int, w: int, top: int)
    requires k + 1 < |sky|
    ensures var i, now := StartIndex(sky, k, x), Place(sky, k, x, w, top);
            var j := LastCovered(sky, i, x + w);
            && |now| + (j - i) == |sky| + 1
            && (forall m | 0 <= m < i :: now[m] == sky[m])
            && now[i] == Point(x, top) && now[i + 1] == Point(PlacedEnd(sky, k, x, w), sky[j].y)
            && (forall m | i + 2 <= m < |now| :: now[m] == sky[m - i - 1 + j])
  {}

  lemma IncreasingJoin(a: seq<Point>, b: seq<Point>)
    requires Increasing(a) && Increasing(b) && (|a| > 0 && |b| > 0 ==> a[|a| - 1].x < b[0].x)
    ensures Increasing(a + b)
  {
    forall i, j | 0 <= i < j < |a + b| ensures (a + b)[i].x < (a + b)[j].x {
      if i < |a| <= j {
        assert a[i].x <= a[|a| - 1].x && b[0].x <= b[j - |a|].x;
      }
    }
  }

  lemma PlaceIncreasing(sky: seq<Point>, k: nat, x: int, w: int, top: int)
    requires Increasing(sky) && InSegment(sky, k, x) && 1 <= w
    ensures Increasing(Place(sky, k, x, w, top))
  {
    var i := StartIndex(sky, k, x);
    var j := LastCovered(sky, i, x + w);
    var p, q := Point(x, top), Point(Max(sky[j].x, x + w), sky[j].y);
    assert Increasing([p, q]) && Increasing(sky[..i]) && Increasing(sky[j + 1..]);
    IncreasingJoin(sky[..i], [p, q]);
    IncreasingJoin(sky[..i] + [p, q], sky[j + 1..]);
  }

  /** Placing keeps the skyline valid, and takes one node for the new segment against those it frees. */
  lemma PlaceValid(sky: seq<Point>, width: int, height: int, k: nat, x: int, w: int, top: int)
    requires Placeable(sky, width, height, k, x, w, top)
    ensures ValidSky(Place(sky, k, x, w, top), width, height)
    ensures var i := StartIndex(sky, k, x);
            |Place(sky, k, x, w, top)| + (LastCovered(sky, i, x + w) - i) == |sky| + 1
  {
    hide Place, Increasing, LastCovered;
    PlaceIncreasing(sky, k, x, w, top);
    PlacePoints(sky, k, x, w, top);
    var i := StartIndex(sky, k, x);
    var j := LastCovered(sky, i, x + w);
    var now := Place(sky, k, x, w, top);
    assert j + 1 < |sky| ==> now[|now| - 1] == sky[|sky| - 1];
    assert i > 0 ==> now[0] == sky[0];
  }

  lemma BeforeSegment(sky: seq<Point>, s: int, i: int, c: int)
    requires Increasing(sky) && 0 <= s < |sky| && 0 <= i < |sky| && sky[s].x <= c < sky[i].x
    ensures s < i
  {}

  /** A segment of one skyline that is also a segment of another gives its columns the same height. */
  lemma SameSegment(a: seq<Point>, s: int, b: seq<Point>, r: int, c: int)
    requires Increasing(a) && Increasing(b) && InSegment(a, s, c) && 0 <= r < |b| - 1
    requires b[r].y == a[s].y && b[r].x <= c < b[r + 1].x
    ensures HeightAt(b, c) == HeightAt(a, c)
  {
    HeightInSegment(a, s, c);
    HeightInSegment(b, r, c);
  }

  lemma PlaceHeightLeft(sky: seq<Point>, k: nat, x: int, w: int, top: int, s: nat, c: int)
    requires Increasing(sky) && InSegment(sky, k, x) && 1 <= w && InSegment(sky, s, c) && c < x
    ensures HeightAt(Place(sky, k, x, w, top), c) == HeightAt(sky, c)
  {
    var i, now := StartIndex(sky, k, x), Place(sky, k, x, w, top);
    PlaceIncreasing(sky, k, x, w, top);
    PlacePoints(sky, k, x, w, top);
    BeforeSegment(sky, s, i, c);
    assert now[s] == sky[s];
    assert s + 1 < i ==> now[s + 1] == sky[s + 1];
    SameSegment(sky, s, now, s, c);
  }

  lemma PlaceHeightRight(sky: seq<Point>, k: nat, x: int, w: int, top: int, s: nat, c: int)
    requires Increasing(sky) && InSegment(sky, k, x) && 1 <= w && InSegment(sky, s, c) && PlacedEnd(sky, k, x, w) <= c
    ensures HeightAt(Place(sky, k, x, w, top), c) == HeightAt(sky, c)
  {
    var i, now := StartIndex(sky, k, x), Place(sky, k, x, w, top);
    var j := LastCovered(sky, i, x + w);
    PlaceIncreasing(sky, k, x, w, top);
    PlacePoints(sky, k, x, w, top);
    BeforeSegment(sky, j, s + 1, c);
    var r := s - j + i + 1;
    assert s > j ==> now[r] == sky[s];
    assert now[r + 1] == sky[s + 1];
    SameSegment(sky, s, now, r, c);
  }

  /** Placing raises the columns under the rectangle to its top and leaves the others as they were. */
  lemma PlaceHeight(sky: seq<Point>, width: int, height: int, k: nat, x: int, w: int, top: int, c: int)
    requires Placeable(sky, width, height, k, x, w, top) && 0 <= c < width
    ensures HeightAt(Place(sky, k, x, w, top), c)
         == if x <= c < PlacedEnd(sky, k, x, w) then top else HeightAt(sky, c)
  {
    var s := SegmentOf(sky, c, |sky| - 2);
    if c < x {
      PlaceHeightLeft(sky, k, x, w, top, s, c);
    } else if PlacedEnd(sky, k, x, w) <= c {
      PlaceHeightRight(sky, k, x, w, top, s, c);
    } else {
      PlaceIncreasing(sky, k, x, w, top);
      PlacePoints(sky, k, x, w, top);
      HeightInSegment(Place(sky, k, x, w, top), StartIndex(sky, k, x), c);
    }
  }

  /** A rectangle put in segment k raises only its own columns if and only if it starts at a node or reaches the
      next. */
  lemma PlacedEndExact(sky: seq<Point>, k: nat, x: int, w: int)
    requires Increasing(sky) && InSegment(sky, k, x) && w >= 1
    ensures PlacedEnd(sky, k, x, w) == x + w <==> sky[k].x == x || sky[k + 1].x <= x + w
  {
    var i := StartIndex(sky, k, x);
    var j := LastCovered(sky, i, x + w);
    if j > i {
      assert sky[i].x < sky[j].x <= x + w;
    }
  }

  /** The raised part lies inside the target, and whatever of it is not under the rectangle belongs to segment k. */
  lemma PlacedEndInside(sky: seq<Point>, width: int, height: int, k: nat, x: int, w: int, top: int)
    requires Placeable(sky, width, height, k, x, w, top)
    ensures x + w <= PlacedEnd(sky, k, x, w) <= width
    ensures Level(sky, x + w, PlacedEnd(sky, k, x, w), sky[k].y)
  {
    hide HeightAt;
    var e := PlacedEnd(sky, k, x, w);
    forall c | x + w <= c < e ensures HeightAt(sky, c) == sky[k].y {
      WidenedPart(sky, k, x, w, c);
      HeightInSegment(sky, k, c);
    }
    var j := LastCovered(sky, StartIndex(sky, k, x), x + w);
    assert j < |sky| - 1 ==> sky[j].x < sky[|sky| - 1].x;
  }

  /** Columns raised beyond the rectangle belong to the segment the rectangle was put in. */
  lemma WidenedPart(sky: seq<Point>, k: nat, x: int, w: int, c: int)
    requires Increasing(sky) && InSegment(sky, k, x) && w >= 1 && x + w <= c < PlacedEnd(sky, k, x, w)
    ensures InSegment(sky, k, c)
  {
    var i := StartIndex(sky, k, x);
    var j := LastCovered(sky, i, x + w);
    assert j == i;
  }

  // ----- boxes under the skyline -----

  ghost predicate Inside(b: Box, width: int, height: int) {
    0 <= b.x && 0 <= b.y && 1 <= b.w && 1 <= b.h && b.x + b.w <= width && b.y + b.h <= height
  }

  ghost predicate Disjoint(a: Box, b: Box) {
    a.x + a.w <= b.x || b.x + b.w <= a.x || a.y + a.h <= b.y || b.y + b.h <= a.y
  }

  ghost predicate Below(b: Box, sky: seq<Point>) {
    forall c | b.x <= c < b.x + b.w :: b.y + b.h <= HeightAt(sky, c)
  }

  /** All boxes lie inside the target, below the skyline, and do not overlap. */
  ghost predicate Packed(boxes: seq<Box>, sky: seq<Point>, width: int, height: int) {
    && (forall i | 0 <= i < |boxes| :: Inside(boxes[i], width, height) && Below(boxes[i], sky))
    && (forall i, j | 0 <= i < j < |boxes| :: Disjoint(boxes[i], boxes[j]))
  }

  /** Safety of one step: a box standing on the skyline overlaps no earlier box. */
  lemma PlaceKeepsPacked(boxes: seq<Box>, sky: seq<Point>, width: int, height: int, k: nat, b: Box, now: seq<Point>)
    requires Packed(boxes, sky, width, height) && Inside(b, width, height)
    requires Placeable(sky, width, height, k, b.x, b.w, b.y + b.h) && now == Place(sky, k, b.x, b.w, b.y + b.h)
    requires forall c | b.x <= c < b.x + b.w :: HeightAt(sky, c) <= b.y
    ensures Packed(boxes + [b], now, width, height)
  {
    hide HeightAt, Place, Placeable;
    forall c | 0 <= c < width
      ensures HeightAt(sky, c) <= HeightAt(now, c) && (b.x <= c < b.x + b.w ==> HeightAt(now, c) == b.y + b.h)
    {
      PlaceRaises(sky, width, height, k, b, now, c);
    }
    forall i | 0 <= i < |boxes| ensures Disjoint(boxes[i], b) && Below(boxes[i], now) {
      BelowMeansDisjoint(boxes[i], sky, b);
    }
  }

  /** No column sinks, and those of the box rise to its top. */
  lemma PlaceRaises(sky: seq<Point>, width: int, height: int, k: nat, b: Box, now: seq<Point>, c: int)
    requires Placeable(sky, width, height, k, b.x, b.w, b.y + b.h) && now == Place(sky, k, b.x, b.w, b.y + b.h)
    requires b.h >= 0 && 0 <= c < width && forall c' | b.x <= c' < b.x + b.w :: HeightAt(sky, c') <= b.y
    ensures HeightAt(sky, c) <= HeightAt(now, c) && (b.x <= c < b.x + b.w ==> HeightAt(now, c) == b.y + b.h)
  {
    hide HeightAt, Place, StartIndex, LastCovered;
    HeightInSegment(sky, k, b.x);
    PlaceHeight(sky, width, height, k, b.x, b.w, b.y + b.h, c);
    if b.x + b.w <= c < PlacedEnd(sky, k, b.x, b.w) {
      WidenedPart(sky, k, b.x, b.w, c);
      HeightInSegment(sky, k, c);
    }
  }

  lemma BelowMeansDisjoint(a: Box, sky: seq<Point>, b: Box)
    requires Below(a, sky) && a.w >= 1 && b.w >= 1
    requires forall c | b.x <= c < b.x + b.w :: HeightAt(sky, c) <= b.y
    ensures Disjoint(a, b)
  {
    if a.x < b.x + b.w && b.x < a.x + a.w {
      var c := Max(a.x, b.x);
      assert a.y + a.h <= HeightAt(sky, c) <= b.y;
    }
  }

  ghost function BoxArea(boxes: seq<Box>): int {
    if |boxes| == 0 then 0 else BoxArea(boxes[..|boxes| - 1]) + boxes[|boxes| - 1].w * boxes[|boxes| - 1].h
  }

  lemma BoxAreaAppend(boxes: seq<Box>, b: Box)
    ensures BoxArea(boxes + [b]) == BoxArea(boxes) + b.w * b.h
  {
    assert (boxes + [b])[..|boxes|] == boxes;
  }

  /** The space lost when box b is put in segment k: what is raised, less the box, less what lay under the skyline. */
  ghost function Closed(sky: seq<Point>, k: nat, b: Box): int
    requires k + 1 < |sky|
  {
    var end := PlacedEnd(sky, k, b.x, b.w);
    (end - b.x) * (b.y + b.h) - b.w * b.h - AreaUnder(sky, b.x, end)
  }

  /** Conservation of area: the skyline gains the rectangle and the space lost. */
  lemma PlaceArea(sky: seq<Point>, width: int, height: int, k: nat, b: Box, now: seq<Point>)
    requires Placeable(sky, width, height, k, b.x, b.w, b.y + b.h) && now == Place(sky, k, b.x, b.w, b.y + b.h)
    ensures AreaUnder(now, 0, width) == AreaUnder(sky, 0, width) + b.w * b.h + Closed(sky, k, b)
  {
    hide Placeable, Place;
    PlaceRaisesArea(sky, width, height, k, b.x, b.w, b.y + b.h, now);
  }

  /** The space lost is the area between the box and the skyline under it, and, where the raised part is wider than the
      box, the area from the skyline to the top of the box there. So it is never negative. */
  lemma ClosedIsSpace(sky: seq<Point>, width: int, height: int, k: nat, b: Box)
    requires Placeable(sky, width, height, k, b.x, b.w, b.y + b.h) && b.h >= 0
    requires forall c | b.x <= c < b.x + b.w :: HeightAt(sky, c) <= b.y
    ensures var under := b.w * b.y - AreaUnder(sky, b.x, b.x + b.w);
            var beside := (PlacedEnd(sky, k, b.x, b.w) - (b.x + b.w)) * (b.y + b.h - sky[k].y);
            under >= 0 && beside >= 0 && Closed(sky, k, b) == under + beside
  {
    hide HeightAt, AreaUnder, PlacedEnd;
    var end := PlacedEnd(sky, k, b.x, b.w);
    PlacedEndInside(sky, width, height, k, b.x, b.w, b.y + b.h);
    ExtendArea(sky, b.x, b.x + b.w, end - (b.x + b.w), sky[k].y);
    AreaAtMost(sky, b.x, b.w, b.y);
    assert sky[k].y <= b.y by { HeightInSegment(sky, k, b.x); }
    ClosedSum(b.w, end - (b.x + b.w), b.y, b.h, sky[k].y);
  }

  lemma ClosedSum(w: int, d: nat, y: int, h: nat, low: int)
    requires low <= y
    ensures (w + d) * (y + h) - w * h - d * low == w * y + d * (y + h - low) && d * (y + h - low) >= 0
  {
    assert (w + d) * (y + h) == w * y + w * h + d * (y + h);
    assert d * (y + h - low) == d * (y + h) - d * low;
  }

  lemma {:induction false} AreaAtMost(sky: seq<Point>, lo: int, d: nat, y: int)
    requires forall c | lo <= c < lo + d :: HeightAt(sky, c) <= y
    ensures AreaUnder(sky, lo, lo + d) <= d * y
  {
    if d > 0 {
      AreaAtMost(sky, lo, d - 1, y);
      assert d * y == (d - 1) * y + y;
    }
  }

  lemma PlaceRaisesArea(sky: seq<Point>, width: int, height: int, k: nat, x: int, w: int, top: int, now: seq<Point>)
    requires Placeable(sky, width, height, k, x, w, top) && now == Place(sky, k, x, w, top)
    ensures var end := PlacedEnd(sky, k, x, w);
            AreaUnder(now, 0, width) == AreaUnder(sky, 0, width) - AreaUnder(sky, x, end) + (end - x) * top
  {
    hide HeightAt, AreaUnder, Place, PlacedEnd;
    assert 0 <= x by { assert k == 0 || sky[0].x < sky[k].x; }
    var end := PlacedEnd(sky, k, x, w);
    PlacedEndInside(sky, width, height, k, x, w, top);
    forall c | 0 <= c < width ensures HeightAt(now, c) == if x <= c < end then top else HeightAt(sky, c) {
      PlaceHeight(sky, width, height, k, x, w, top, c);
    }
    SplitArea(sky, 0, x, width);
    SplitArea(sky, x, end, width);
    SplitArea(now, 0, x, width);
    SplitArea(now, x, end, width);
    SameArea(sky, now, 0, x);
    SameArea(sky, now, end, width);
    NoArea(now, x);
    ExtendArea(now, x, x, end - x, top);
  }

  lemma NoArea(sky: seq<Point>, x: int)
    ensures AreaUnder(sky, x, x) == 0
  {}

  /** A skyline has at most one segment per column, and the sentinel. */
  lemma FewNodes(sky: seq<Point>, width: int, height: int)
    requires ValidSky(sky, width, height)
    ensures |sky| <= width + 1
  {
    NodesAreSpread(sky, |sky| - 1);
  }

  lemma {:induction false} NodesAreSpread(sky: seq<Point>, i: nat)
    requires Increasing(sky) && i < |sky| && sky[0].x == 0
    ensures sky[i].x >= i
  {
    if i > 0 {
      NodesAreSpread(sky, i - 1);
    }
  }

  // ----- the bottom-left rule -----

  /** A rectangle of width w can start at node i. */
  ghost predicate Candidate(sky: seq<Point>, width: int, i: int, w: int) {
    0 <= i < |sky| && sky[i].x + w <= width
  }

  /** The height at which a rectangle of width w would rest at x. */
  ghost function RestsOn(sky: seq<Point>, x: int, w: int): int {
    MaxHeight(sky, x, x + w)
  }

  /** The height at which a rectangle of width w would rest at node i. */
  ghost function RestsAt(sky: seq<Point>, i: int, w: int): int
    requires 0 <= i < |sky|
  {
    RestsOn(sky, sky[i].x, w)
  }

  /** Node k is the leftmost of the node positions where a rectangle of width w rests lowest. */
  ghost predicate LeftmostLowest(sky: seq<Point>, width: int, k: int, w: int) {
    && Candidate(sky, width, k, w)
    && forall i | Candidate(sky, width, i, w) ::
         RestsAt(sky, k, w) <= RestsAt(sky, i, w) && (i < k ==> RestsAt(sky, k, w) < RestsAt(sky, i, w))
  }

  /** Larger than any height or waste a search compares with. */
  const HUGE := 0x4000_0000

  /** What the bottom-left scan has found among the first n nodes. */
  ghost predicate BestSoFar(sky: seq<Point>, width: int, n: int, w: int, found: bool, y: int, k: int) {
    0 <= n <= |sky| &&
    if !found then n == 0 && y == HUGE
    else
      && 0 <= k < n && Candidate(sky, width, k, w) && y == RestsAt(sky, k, w)
      && forall i | 0 <= i < n && Candidate(sky, width, i, w) ::
           y <= RestsAt(sky, i, w) && (i < k ==> y < RestsAt(sky, i, w))
  }

  lemma BestStep(sky: seq<Point>, width: int, n: int, w: int, found: bool, y: int, k: int)
    requires BestSoFar(sky, width, n, w, found, y, k) && Candidate(sky, width, n, w) && RestsAt(sky, n, w) < HUGE
    ensures if RestsAt(sky, n, w) < y then BestSoFar(sky, width, n + 1, w, true, RestsAt(sky, n, w), n)
            else BestSoFar(sky, width, n + 1, w, found, y, k)
  {}

  lemma BestEnd(sky: seq<Point>, width: int, n: int, w: int, found: bool, y: int, k: int)
    requires BestSoFar(sky, width, n, w, found, y, k) && n < |sky| && !Candidate(sky, width, n, w)
    requires Increasing(sky) && sky[0].x == 0
    ensures if found then w <= width && LeftmostLowest(sky, width, k, w) && y == RestsAt(sky, k, w) else width < w
  {
    forall i | n <= i < |sky| ensures !Candidate(sky, width, i, w) {
      assert n < i ==> sky[n].x < sky[i].x;
    }
  }

  /** The leftmost lowest node is the lowest place over all integer positions, not only over the nodes. */
  lemma LowestOverAllPositions(sky: seq<Point>, width: int, height: int, k: int, w: int, x: int)
    requires ValidSky(sky, width, height) && w >= 1 && LeftmostLowest(sky, width, k, w)
    requires 0 <= x && x + w <= width
    ensures RestsAt(sky, k, w) <= RestsOn(sky, x, w)
  {
    var i := SegmentOf(sky, x, |sky| - 2);
    SlideLeft(sky, width, height, i, x, w);
    assert Candidate(sky, width, i, w);
  }

  /** Some integer position holds a rectangle of width w and height h. */
  ghost predicate FitsSomewhere(sky: seq<Point>, width: int, height: int, w: int, h: int) {
    exists x :: 0 <= x && x + w <= width && RestsOn(sky, x, w) + h <= height
  }

  /** The bottom-left choice fits if and only if any position at all does. */
  lemma BottomLeftIsComplete(sky: seq<Point>, width: int, height: int, k: int, w: int, h: int)
    requires ValidSky(sky, width, height) && w >= 1 && LeftmostLowest(sky, width, k, w)
    ensures RestsAt(sky, k, w) + h <= height <==> FitsSomewhere(sky, width, height, w, h)
  {
    if RestsAt(sky, k, w) + h <= height {
      var x := sky[k].x;
      assert 0 <= x && x + w <= width && RestsOn(sky, x, w) + h <= height;
    }
    if x :| 0 <= x && x + w <= width && RestsOn(sky, x, w) + h <= height {
      LowestOverAllPositions(sky, width, height, k, w, x);
    }
  }
}
