/** What the packer does not do: rounded widths do not make a small number of nodes suffice, and the waste of a window
    that starts inside a segment on the floor is not the area it closes off. */
module PackerLimits {
  import opened Skyline
  import opened SkylinePacker
  import opened WindowSearch

  /** The skyline after i unit squares were put side by side on an empty target. */
  ghost function UnitSky(width: int, i: nat): (r: seq<Point>)
    ensures |r| == i + 2 && r[i] == Point(i, 0) && r[i + 1] == Point(width, SENTINEL_Y)
    ensures forall m | 0 <= m < i :: r[m] == Point(m, 1)
  {
    seq(i, m => Point(m, 1)) + [Point(i, 0), Point(width, SENTINEL_Y)]
  }

  lemma UnitHeight(width: int, i: nat, c: int)
    requires i < width && 0 <= c < width
    ensures Increasing(UnitSky(width, i)) && HeightAt(UnitSky(width, i), c) == if c < i then 1 else 0
  {
    HeightInSegment(UnitSky(width, i), if c < i then c else i, c);
  }

  /** A window over the free columns rests on the floor, any other on a square. */
  lemma UnitRests(width: int, i: nat, w: int, x: int)
    requires i < width && w >= 1 && 0 <= x && x + w <= width
    ensures RestsOn(UnitSky(width, i), x, w) == if x < i then 1 else 0
  {
    hide HeightAt, MaxHeight, UnitSky;
    forall c | 0 <= c < width ensures HeightAt(UnitSky(width, i), c) == if c < i then 1 else 0 {
      UnitHeight(width, i, c);
    }
    MaxHeightIsMax(UnitSky(width, i), x, x + w);
    assert HeightAt(UnitSky(width, i), x) == if x < i then 1 else 0;
  }

  /** So the bottom-left rule puts the next square beside the last one, and one more node is in use. */
  lemma NextUnit(width: int, i: nat, w: int, k: int)
    requires w >= 1 && i + 1 < width && i + w <= width && LeftmostLowest(UnitSky(width, i), width, k, w)
    ensures k == i && RestsAt(UnitSky(width, i), i, w) == 0
    ensures Place(UnitSky(width, i), k, i, 1, 1) == UnitSky(width, i + 1)
  {
    var sky := UnitSky(width, i);
    assert Candidate(sky, width, i, w);
    assert 0 <= sky[k].x;
    UnitRests(width, i, w, sky[k].x);
    UnitRests(width, i, w, i);
    assert k == i;
    PlacePoints(sky, i, i, 1, 1);
    assert LastCovered(sky, i, i + 1) == i;
  }

  lemma RoundedUnit(width: int, n: int)
    requires 1 <= n < width
    ensures Aligned(1, DefaultAlign(width, n)) == DefaultAlign(width, n) <= width - n + 1
  {
    hide Aligned;
    var a, d := DefaultAlign(width, n), width - n;
    RoundUpOne(a);
    assert (d + 2) * n >= d + 2 * n by { Monotone(1, n, d); }
    assert a < d + 2 by {
      DefaultTimes(width, n);
      if a >= d + 2 {
        Monotone(d + 2, a, n);
      }
    }
  }

  lemma RoundUpOne(align: int)
    requires align >= 1
    ensures Aligned(1, align) == align
  {
    assert align % align == 0;
  }

  lemma DefaultTimes(width: int, n: int)
    requires 1 <= width && 1 <= n
    ensures DefaultAlign(width, n) * n <= width + n - 1
  {
  }

  lemma Monotone(a: int, b: int, n: int)
    requires a <= b && n >= 0
    ensures a * n <= b * n
  {
    assert (b - a) * n >= 0;
  }

  /** With fewer nodes than columns, and widths rounded by the default, as many unit squares as there are nodes use
      them all up, and the next one is refused although there is room for it. */
  method UseUpNodes(width: int, height: int, pool: seq<Node>) returns (c: Context, res: FindResult)
    requires 1 <= width <= 0xffff && 2 <= height <= 0xffff && 1 <= |pool| < width && NoDuplicates(pool)
    modifies pool
    ensures c.Valid() && c.width == width && c.height == height && c.numNodes == |pool|
    ensures c.align == DefaultAlign(width, |pool|)
    ensures res.link.Nowhere? && FitsSomewhere(c.sky, width, height, Aligned(1, c.align), 1)
  {
    hide Context.Valid, FitsSomewhere, DefaultAlign, UnitSky;
    c := new Context(width, height, pool);
    RoundedUnit(width, |pool|);
    FirstUnit(width);
    for i := 0 to |pool|
      invariant c.Valid() && c.sky == UnitSky(width, i) && fresh(c) && fresh(c.nodes - set n | n in pool)
      invariant c.heuristic == BottomLeft && c.align == DefaultAlign(width, |pool|)
    {
      PutUnit(c, i);
    }
    UnitFits(width, height, |pool|, c.align);
    ghost var pos, k;
    res, pos, k := c.PackRectangle(1, 1);
  }

  /** The next square goes beside the last one. */
  method PutUnit(c: Context, i: nat)
    requires c.Valid() && c.heuristic == BottomLeft && c.sky == UnitSky(c.width, i) && i < c.numNodes && c.height >= 2
    requires i + 1 < c.width && i + c.align <= c.width && Aligned(1, c.align) == c.align
    modifies c`activeHead, c`freeHead, c`active, c`free, c`sky, c`placed, c`wasted, c.nodes
    ensures c.Valid() && c.sky == UnitSky(c.width, i + 1)
  {
    hide Context.Valid, LeftmostLowest, Place, Placeable, FitsSomewhere, RestsOn, Closed, PlacedEnd, AreaUnder, Aligned;
    c.Limits();
    UnitFits(c.width, c.height, i, c.align);
    var res;
    ghost var pos, k;
    res, pos, k := c.PackRectangle(1, 1);
    NextUnit(c.width, i, c.align, k);
  }

  lemma FirstUnit(width: int)
    ensures UnitSky(width, 0) == [Point(0, 0), Point(width, SENTINEL_Y)]
  {}

  lemma UnitFits(width: int, height: int, i: nat, w: int)
    requires 1 <= w <= width && i < width && height >= 2
    ensures FitsSomewhere(UnitSky(width, i), width, height, w, 1)
  {
    UnitRests(width, i, w, 0);
  }

  /** The window of width 4 at 2 over a floor of width 4 and a step of height 2 closes off an area of 4; the scan counts
      the whole width of the first segment, also the part left of the window, and reports 8. */
  lemma WasteOvercounted()
    ensures var sky := [Point(0, 0), Point(4, 2), Point(10, SENTINEL_Y)];
            && ValidSky(sky, 10, 10) && InSegment(sky, 0, 2) && !Measured(sky, 0, 2) && RestsOn(sky, 2, 4) == 2
            && 4 * 2 - AreaUnder(sky, 2, 6) == 4 && WasteAt(sky, 0, 2, 4) == 8
  {
    var sky := [Point(0, 0), Point(4, 2), Point(10, SENTINEL_Y)];
    NextSegment(sky, 0, 2, 4, 0);
    NextSegment(sky, 0, 2, 4, 1);
    assert WasteFrom(sky, 2, 2, 4, 2, 8, 10) == 8;
    assert WasteFrom(sky, 1, 2, 4, 0, 0, 4) == 8;
  }
}
