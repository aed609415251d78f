/** The windows of a skyline that the best-fit search compares, how much each closes off, and which one is preferred. */
module WindowSearch {
  import opened Skyline

  /** The body of the loop of `stbrp__skyline_find_min_y` for one node and its successor. */
  function VisitSegment(x: int, y: int, next: int, x0: int, w: int, minY: int, waste: int, visited: int)
    : (int, int, int)
  {
    if y > minY then
      // raise the maximum; what was visited now lies lower by the difference
      (y, waste + visited * (y - minY), visited + (next - if x < x0 then x0 else x))
    else
      var underWidth := if next - x + visited > w then w - visited else next - x;
      (minY, waste + underWidth * (minY - y), visited + underWidth)
  }

  lemma VisitSegmentScans(x: int, y: int, next: int, x0: int, w: int, minY: int, waste: int, visited: int,
                          sky: seq<Point>, k: int, i: int)
    requires Increasing(sky) && InSegment(sky, k, x0) && w >= 1 && x0 + w <= sky[|sky| - 1].x && sky[k].y >= 0
    requires Scanned(sky, k, x0, w, i, minY, waste, visited) && x < x0 + w
    requires i + 1 < |sky| && sky[i] == Point(x, y) && sky[i + 1].x == next
    ensures var r := VisitSegment(x, y, next, x0, w, minY, waste, visited);
            Scanned(sky, k, x0, w, i + 1, r.0, r.1, r.2)
  {
    hide MaxHeight, AreaUnder, HeightAt;
    var r := VisitSegment(x, y, next, x0, w, minY, waste, visited);
    if y > minY {
      ScanRaise(sky, k, x0, w, i, sky[i], next, minY, waste, visited, r.1, r.2);
    } else {
      ScanKeep(sky, k, x0, w, i, sky[i], next, minY, waste, visited, r.2 - visited, r.1);
    }
  }

  /** The waste reported by the scan of a window from point i on. */
  ghost function WasteFrom(sky: seq<Point>, i: nat, x0: int, w: int, minY: int, waste: int, visited: int): int
    requires i < |sky|
    decreases |sky| - i
  {
    if i + 1 < |sky| && sky[i].x < x0 + w then
      var r := VisitSegment(sky[i].x, sky[i].y, sky[i + 1].x, x0, w, minY, waste, visited);
      WasteFrom(sky, i + 1, x0, w, r.0, r.1, r.2)
    else waste
  }

  /** The waste reported for the window of width w at x, in segment k. */
  ghost function WasteAt(sky: seq<Point>, k: int, x: int, w: int): int
    requires 0 <= k < |sky|
  {
    WasteFrom(sky, k, x, w, 0, 0, 0)
  }

  /** The window of width w at x ends at one of the first t points. */
  ghost predicate EndsAtPoint(sky: seq<Point>, t: int, x: int, w: int) {
    exists j :: 0 <= j < t && j < |sky| && sky[j].x == x + w
  }

  /** The size of a skyline's target and of the rectangle to be placed, its width rounded. */
  datatype Request = Request(width: int, height: int, w: int, h: int)

  /** The window at x, in segment k, holds the rectangle and is one of those the search considers: it starts at one of
      the first n points, or it ends at one of the first t and leaves room above the rectangle. */
  ghost predicate Window(sky: seq<Point>, q: Request, n: int, t: int, k: int, x: int) {
    && InSegment(sky, k, x) && x + q.w <= q.width
    && ( || (x == sky[k].x && k < n && RestsOn(sky, x, q.w) + q.h <= q.height)
         || (EndsAtPoint(sky, t, x, q.w) && RestsOn(sky, x, q.w) + q.h < q.height))
  }

  /** Lower, or as low with less waste, or as low with as much waste and not further right. */
  ghost predicate NoWorse(y: int, waste: int, x: int, y': int, waste': int, x': int) {
    y < y' || (y == y' && (waste < waste' || (waste == waste' && x <= x')))
  }

  /** The window found is no worse than any considered so far; nothing is found only when there is none. */
  ghost predicate BestWindow(sky: seq<Point>, q: Request, n: int, t: int,
                             found: bool, x: int, y: int, waste: int, k: int) {
    if !found then y == HUGE && forall k', x' :: !Window(sky, q, n, t, k', x')
    else
      && Window(sky, q, n, t, k, x) && y == RestsOn(sky, x, q.w) && waste == WasteAt(sky, k, x, q.w)
      && forall k', x' | Window(sky, q, n, t, k', x') ::
           NoWorse(y, waste, x, RestsOn(sky, x', q.w), WasteAt(sky, k', x', q.w), x')
  }

  lemma NoWindowYet(sky: seq<Point>, q: Request, x: int, k: int)
    ensures BestWindow(sky, q, 0, 0, false, x, HUGE, HUGE, k)
  {
    hide RestsOn;
  }

  /** A column lies in one segment only. */
  lemma OneSegment(sky: seq<Point>, k: int, k': int, x: int)
    requires Increasing(sky) && InSegment(sky, k, x) && InSegment(sky, k', x)
    ensures k == k'
  {
  }

  /** When the windows considered grow by the one at x, the better of it and the best so far is the best. */
  lemma Challenge(sky: seq<Point>, q: Request, n: int, t: int, n': int, t': int, found: bool,
                  x0: int, y0: int, waste0: int, k0: int, x: int, y: int, waste: int, k: int, better: bool)
    requires BestWindow(sky, q, n, t, found, x0, y0, waste0, k0) && InSegment(sky, k, x)
    requires y == RestsOn(sky, x, q.w) && waste == WasteAt(sky, k, x, q.w) && y < HUGE
    requires forall k', x' :: Window(sky, q, n', t', k', x')
               <==> Window(sky, q, n, t, k', x') || (k' == k && x' == x && Window(sky, q, n', t', k, x))
    requires better ==> Window(sky, q, n', t', k, x)
    requires better && found ==> NoWorse(y, waste, x, y0, waste0, x0)
    requires !better && Window(sky, q, n', t', k, x) ==> found && NoWorse(y0, waste0, x0, y, waste, x)
    ensures if better then BestWindow(sky, q, n', t', true, x, y, waste, k)
            else BestWindow(sky, q, n', t', found, x0, y0, waste0, k0)
  {
    hide RestsOn, WasteAt, Window, InSegment;
  }

  /** The windows starting at node n join those considered. */
  lemma NextLeft(sky: seq<Point>, q: Request, n: int, found: bool, x0: int, y0: int, waste0: int, k0: int,
                 y: int, waste: int)
    requires ValidSky(sky, q.width, q.height) && q.w >= 1 && 0 <= n < |sky| - 1 && sky[n].x + q.w <= q.width
    requires BestWindow(sky, q, n, 0, found, x0, y0, waste0, k0)
    requires y == RestsAt(sky, n, q.w) && waste == WasteAt(sky, n, sky[n].x, q.w) && 0 <= y < HUGE
    ensures if y + q.h <= q.height && (y < y0 || (y == y0 && waste < waste0))
            then BestWindow(sky, q, n + 1, 0, true, sky[n].x, y, waste, n)
            else BestWindow(sky, q, n + 1, 0, found, x0, y0, waste0, k0)
  {
    hide RestsOn, WasteAt;
    var x := sky[n].x;
    assert InSegment(sky, n, x);
    assert found ==> x0 < x;
    Challenge(sky, q, n, 0, n + 1, 0, found, x0, y0, waste0, k0, x, y, waste, n,
              y + q.h <= q.height && (y < y0 || (y == y0 && waste < waste0)));
  }

  /** Where a window no longer fits at a node, none fits at a later one. */
  lemma LastLeft(sky: seq<Point>, q: Request, n: int, found: bool, x: int, y: int, waste: int, k: int)
    requires ValidSky(sky, q.width, q.height) && 0 <= n < |sky| && sky[n].x + q.w > q.width
    requires BestWindow(sky, q, n, 0, found, x, y, waste, k)
    ensures BestWindow(sky, q, |sky|, 0, found, x, y, waste, k)
  {
    hide RestsOn, WasteAt;
    forall k', x' ensures Window(sky, q, |sky|, 0, k', x') <==> Window(sky, q, n, 0, k', x') {
      assert 0 <= n < k' < |sky| ==> sky[n].x < sky[k'].x;
    }
  }

  /** No window ends at a point that is nearer to the left side than its width. */
  lemma FirstRight(sky: seq<Point>, q: Request, t: int, found: bool, x: int, y: int, waste: int, k: int)
    requires ValidSky(sky, q.width, q.height) && 0 <= t <= |sky| && forall j | 0 <= j < t :: sky[j].x < q.w
    requires BestWindow(sky, q, |sky|, 0, found, x, y, waste, k)
    ensures BestWindow(sky, q, |sky|, t, found, x, y, waste, k)
  {
    hide RestsOn, WasteAt;
    forall k', x' ensures Window(sky, q, |sky|, t, k', x') <==> Window(sky, q, |sky|, 0, k', x') {
      assert 0 < k' < |sky| ==> sky[0].x < sky[k'].x;
    }
  }

  /** The window ending at point t joins those considered. */
  lemma NextRight(sky: seq<Point>, q: Request, t: int, found: bool, x0: int, y0: int, waste0: int, k0: int,
                  x: int, y: int, waste: int, k: int)
    requires ValidSky(sky, q.width, q.height) && q.w >= 1 && 0 <= t < |sky| && x == sky[t].x - q.w
    requires InSegment(sky, k, x) && x + q.w <= q.width
    requires BestWindow(sky, q, |sky|, t, found, x0, y0, waste0, k0)
    requires y == RestsOn(sky, x, q.w) && waste == WasteAt(sky, k, x, q.w) && 0 <= y < HUGE
    ensures if y + q.h < q.height && (y < y0 || (y == y0 && (waste < waste0 || (waste == waste0 && x < x0))))
            then BestWindow(sky, q, |sky|, t + 1, true, x, y, waste, k)
            else BestWindow(sky, q, |sky|, t + 1, found, x0, y0, waste0, k0)
  {
    hide RestsOn, WasteAt;
    forall k', x' | Window(sky, q, |sky|, t + 1, k', x') && (k' != k || x' != x)
      ensures Window(sky, q, |sky|, t, k', x')
    {
      RightGrows(sky, t, x', q.w);
      if x' == x {
        OneSegment(sky, k, k', x);
      }
    }
    forall k', x' | Window(sky, q, |sky|, t, k', x') ensures Window(sky, q, |sky|, t + 1, k', x') {
      RightGrows(sky, t, x', q.w);
    }
    if Window(sky, q, |sky|, t, k, x) && found {
      assert NoWorse(y0, waste0, x0, y, waste, x);
    }
    RightGrows(sky, t, x, q.w);
    Challenge(sky, q, |sky|, t, |sky|, t + 1, found, x0, y0, waste0, k0, x, y, waste, k,
              y + q.h < q.height && (y < y0 || (y == y0 && (waste < waste0 || (waste == waste0 && x < x0)))));
  }

  lemma RightGrows(sky: seq<Point>, t: int, x: int, w: int)
    requires 0 <= t < |sky|
    ensures EndsAtPoint(sky, t + 1, x, w) <==> EndsAtPoint(sky, t, x, w) || sky[t].x == x + w
  {
    if sky[t].x == x + w {
      assert 0 <= t < t + 1 && t < |sky| && sky[t].x == x + w;
    }
  }

  /** The best window of the whole search rests as low as any position that holds the rectangle, node or not, and
      nothing is found only when no position does. */
  lemma BestFitIsComplete(sky: seq<Point>, q: Request, found: bool, x: int, y: int, waste: int, k: int)
    requires ValidSky(sky, q.width, q.height) && q.w >= 1
    requires BestWindow(sky, q, |sky|, |sky|, found, x, y, waste, k)
    ensures found <==> FitsSomewhere(sky, q.width, q.height, q.w, q.h)
    ensures found ==>
              forall x' | 0 <= x' && x' + q.w <= q.width :: y <= RestsOn(sky, x', q.w)
  {
    hide RestsOn, WasteAt, ValidSky;
    if found {
      assert 0 <= x && x + q.w <= q.width && RestsOn(sky, x, q.w) + q.h <= q.height by {
        WindowInside(sky, q, k, x);
      }
    }
    forall x' | 0 <= x' && x' + q.w <= q.width && RestsOn(sky, x', q.w) + q.h <= q.height
      ensures found && y <= RestsOn(sky, x', q.w)
    {
      var k' := NodeLower(sky, q, x');
      assert Window(sky, q, |sky|, |sky|, k', sky[k'].x);
    }
  }

  lemma WindowInside(sky: seq<Point>, q: Request, k: int, x: int)
    requires ValidSky(sky, q.width, q.height) && Window(sky, q, |sky|, |sky|, k, x)
    ensures 0 <= x
  {
    assert k == 0 || sky[0].x < sky[k].x;
  }

  /** Sliding a window left to the node of its segment does not raise it. */
  lemma NodeLower(sky: seq<Point>, q: Request, x: int) returns (k: int)
    requires ValidSky(sky, q.width, q.height) && q.w >= 1 && 0 <= x && x + q.w <= q.width
    ensures 0 <= k < |sky| && InSegment(sky, k, sky[k].x) && sky[k].x <= x
    ensures RestsOn(sky, sky[k].x, q.w) <= RestsOn(sky, x, q.w)
  {
    hide ValidSky, HeightAt, MaxHeight;
    Frame(sky, q.width, q.height);
    k := SegmentOf(sky, x, |sky| - 2);
    SlideLeft(sky, q.width, q.height, k, x, q.w);
  }
}
