/** The driver of the packer: sort, pack one by one, restore the order, report. */
module PackRects {
  import opened Skyline
  import opened SkylinePacker
  import opened RectSorting

  /** The coordinate that marks a rectangle that was not placed. */
  const MAXVAL := 0xffff

  predicate IsEmpty(r: Rect) {
    r.w == 0 || r.h == 0
  }

  predicate Unplaced(r: Rect) {
    r.x == MAXVAL && r.y == MAXVAL
  }

  /** A rectangle that takes up room: placed and not empty. */
  predicate Occupies(r: Rect) {
    !IsEmpty(r) && !Unplaced(r)
  }

  /** The same request: identifier and size. */
  predicate SameRequest(r: Rect, t: Rect) {
    r.id == t.id && r.w == t.w && r.h == t.h
  }

  predicate SizesInRange(s: seq<Rect>) {
    forall i | 0 <= i < |s| :: 0 <= s[i].w <= 0xffff && 0 <= s[i].h <= 0xffff
  }

  /** With the best-fit rule no rounded width may exceed the target. */
  predicate WidthsFit(heuristic: Heuristic, align: int, width: int, s: seq<Rect>)
    requires align >= 1
  {
    heuristic == BestFit ==> forall i | 0 <= i < |s| && s[i].w >= 1 :: Aligned(s[i].w, align) <= width
  }

  function BoxOf(r: Rect): Box {
    Box(r.x, r.y, r.w, r.h)
  }

  /** What a packing run depends on besides the skyline; `nodes` is the number of nodes the caller supplied. */
  datatype Setting = Setting(heuristic: Heuristic, align: int, width: int, height: int, nodes: int)

  ghost function SettingOf(c: Context): Setting
    reads c
  {
    Setting(c.heuristic, c.align, c.width, c.height, c.numNodes)
  }

  /** What one turn of the packing loop does to rectangle r and the skyline: an empty rectangle goes to the origin, a
      placed one rests where the search says, and one is refused only for lack of room or of nodes. */
  ghost predicate Step(g: Setting, before: seq<Point>, after: seq<Point>, r: Rect) {
    if IsEmpty(r) then after == before && r.x == 0 && r.y == 0
    else
      && g.align >= 1 && r.w >= 1
      && if Unplaced(r) then
           && after == before
           && (HasNode(g, before) ==> exists found, x, y, k :: RefusedAt(g, before, r, found, x, y, k))
         else HasNode(g, before) && exists k: nat :: PlacedBy(g, before, after, r, k)
  }

  /** Some node is not in use: the skyline uses one a point, and there are two besides those of the caller. */
  ghost predicate HasNode(g: Setting, sky: seq<Point>) {
    |sky| < g.nodes + 2
  }

  ghost predicate RefusedAt(g: Setting, before: seq<Point>, r: Rect, found: bool, x: int, y: int, k: int)
    requires g.align >= 1 && r.w >= 1
  {
    && Found(g.heuristic, before, g.width, g.height, Aligned(r.w, g.align), r.h, found, x, y, k)
    && (!found || y + r.h > g.height)
  }

  ghost predicate PlacedBy(g: Setting, before: seq<Point>, after: seq<Point>, r: Rect, k: nat)
    requires g.align >= 1 && r.w >= 1
  {
    && Found(g.heuristic, before, g.width, g.height, Aligned(r.w, g.align), r.h, true, r.x, r.y, k)
    && Placeable(before, g.width, g.height, k, r.x, r.w, r.y + r.h)
    && Inside(BoxOf(r), g.width, g.height)
    && after == Place(before, k, r.x, r.w, r.y + r.h)
  }

  /** The boxes of the placed non-empty rectangles of s, in order. */
  ghost function PlacedBoxes(s: seq<Rect>): seq<Box> {
    if |s| == 0 then []
    else
      var last := s[|s| - 1];
      PlacedBoxes(s[..|s| - 1]) + NewBoxes(last)
  }

  ghost function NewBoxes(r: Rect): seq<Box> {
    if Occupies(r) then [BoxOf(r)] else []
  }

  /** Every placed rectangle of s lies inside the target and overlaps neither another one nor any earlier box. */
  ghost predicate SafelyPlaced(earlier: seq<Box>, s: seq<Rect>, width: int, height: int) {
    && (forall i | 0 <= i < |s| && Occupies(s[i]) ::
          Inside(BoxOf(s[i]), width, height) && ClearOf(earlier, BoxOf(s[i])))
    && (forall i, j | 0 <= i < |s| && 0 <= j < |s| && i != j && Occupies(s[i]) && Occupies(s[j]) ::
          Disjoint(BoxOf(s[i]), BoxOf(s[j])))
  }

  ghost predicate ClearOf(earlier: seq<Box>, b: Box) {
    forall e | 0 <= e < |earlier| :: Disjoint(earlier[e], b)
  }

  /** The trace of the packing loop: one skyline before the first turn and one after each turn. */
  ghost predicate Trace(g: Setting, s: seq<Rect>, skies: seq<seq<Point>>) {
    |skies| == |s| + 1 && forall i | 0 <= i < |s| :: Step(g, skies[i], skies[i + 1], s[i])
  }

  lemma NothingYet(g: Setting, sky: seq<Point>)
    ensures Trace(g, [], [sky]) && PlacedBoxes([]) == []
  {
  }

  lemma ExtendTrace(g: Setting, s: seq<Rect>, skies: seq<seq<Point>>, r: Rect, now: seq<Point>)
    requires Trace(g, s, skies) && Step(g, skies[|s|], now, r)
    ensures Trace(g, s + [r], skies + [now])
  {
    forall i | 0 <= i < |s + [r]| ensures Step(g, (skies + [now])[i], (skies + [now])[i + 1], (s + [r])[i]) {
      if i < |s| {
        assert Step(g, skies[i], skies[i + 1], s[i]);
      }
    }
  }

  lemma ExtendBoxes(s: seq<Rect>, r: Rect)
    ensures PlacedBoxes(s + [r]) == PlacedBoxes(s) + NewBoxes(r)
  {
    assert (s + [r])[..|s|] == s;
  }

  /** The loop that packs the sorted rectangles. */
  method PackSorted(c: Context, rects: array<Rect>) returns (ghost skies: seq<seq<Point>>)
    requires c.Valid() && SizesInRange(rects[..]) && WidthsFit(c.heuristic, c.align, c.width, rects[..])
    modifies c`activeHead, c`freeHead, c`active, c`free, c`sky, c`placed, c`wasted, c.nodes, rects
    ensures c.Valid()
    ensures Moved(rects[..], old(rects[..]))
    ensures |skies| == rects.Length + 1 && skies[0] == old(c.sky) && skies[rects.Length] == c.sky
    ensures Trace(SettingOf(c), rects[..], skies)
    ensures c.placed == old(c.placed) + PlacedBoxes(rects[..])
  {
    hide Context.Valid, Step, Trace, PlacedBoxes, Aligned;
    ghost var t, g, done, boxes := rects[..], SettingOf(c), [], [];
    skies := [c.sky];
    NothingYet(g, c.sky);
    for i := 0 to rects.Length
      invariant c.Valid() && |skies| == i + 1 && skies[0] == old(c.sky) && skies[i] == c.sky
      invariant forall j | 0 <= j < i :: SameRequest(rects[j], t[j]) && rects[j].wasPacked == t[j].wasPacked
      invariant forall j | i <= j < rects.Length :: rects[j] == t[j]
      invariant rects[..i] == done && Trace(g, done, skies)
      invariant boxes == PlacedBoxes(done) && c.placed == old(c.placed) + boxes
    {
      var r := PackOne(c, rects[i]);
      ExtendTrace(g, done, skies, r, c.sky);
      ExtendBoxes(done, r);
      rects[i] := r;
      skies, done, boxes := skies + [c.sky], done + [r], boxes + NewBoxes(r);
    }
    assert rects[..rects.Length] == rects[..];
  }

  /** One turn of that loop. */
  method PackOne(c: Context, t: Rect) returns (r: Rect)
    requires c.Valid() && 0 <= t.w <= 0xffff && 0 <= t.h <= 0xffff
    requires c.heuristic == BestFit && t.w >= 1 ==> Aligned(t.w, c.align) <= c.width
    modifies c`activeHead, c`freeHead, c`active, c`free, c`sky, c`placed, c`wasted, c.nodes
    ensures c.Valid() && SameRequest(r, t) && r.wasPacked == t.wasPacked
    ensures Step(SettingOf(c), old(c.sky), c.sky, r)
    ensures c.placed == old(c.placed) + NewBoxes(r)
  {
    hide Context.Valid, Found, Placeable, Place, FitsSomewhere, Closed, AreaUnder;
    hide RestsOn, Closed, PlacedEnd;
    c.Limits();
    if t.w == 0 || t.h == 0 {
      r := t.(x := 0, y := 0);
    } else {
      var fr;
      ghost var pos, k;
      fr, pos, k := c.PackRectangle(t.w, t.h);
      if !fr.link.Nowhere? {
        r := t.(x := Coord(fr.x), y := Coord(fr.y));
        assert PlacedBy(SettingOf(c), old(c.sky), c.sky, r, k);
      } else {
        r := t.(x := MAXVAL, y := MAXVAL);
        assert HasNode(SettingOf(c), old(c.sky)) ==>
                 RefusedAt(SettingOf(c), old(c.sky), r, !pos.link.Nowhere?, pos.x, pos.y, k);
      }
    }
  }

  lemma PickedTallFirst(s: seq<Rect>, order: seq<int>)
    requires Permutation(order, |s|) && Sorted(ByHeight, Picked(s, order))
    ensures forall i, j | 0 <= i < j < |s| ::
              0 <= order[i] < |s| && 0 <= order[j] < |s| && TallFirst(s[order[i]], s[order[j]])
  {
    forall i, j | 0 <= i < j < |s| ensures TallFirst(s[order[i]], s[order[j]]) {
      assert InOrder(ByHeight, Picked(s, order)[i], Picked(s, order)[j]);
    }
  }

  /** The elements of s in the given order. */
  ghost function Picked(s: seq<Rect>, order: seq<int>): (r: seq<Rect>)
    requires Permutation(order, |s|)
    ensures |r| == |s| && forall j | 0 <= j < |r| :: r[j] == s[order[j]]
  {
    seq(|s|, j requires 0 <= j < |s| => s[order[j]])
  }

  /** Equal up to the flag. */
  predicate SameUpToFlag(r: Rect, t: Rect) {
    SameRequest(r, t) && r.x == t.x && r.y == t.y
  }

  ghost predicate AllSameUpToFlag(s: seq<Rect>, t: seq<Rect>) {
    |s| == |t| && forall i | 0 <= i < |s| :: SameUpToFlag(s[i], t[i])
  }

  /** back gives the place of each number in the order. */
  ghost predicate Inverse(order: seq<int>, back: seq<int>) {
    |back| == |order| && forall i | 0 <= i < |back| :: 0 <= back[i] < |order| && order[back[i]] == i
  }

  /** What a caller sees of one rectangle: r after the call, t before it. */
  ghost predicate Reported(r: Rect, t: Rect) {
    && SameRequest(r, t)
    && (r.wasPacked == 0 || r.wasPacked == 1)
    && (r.wasPacked == 0 <==> r.x == 0xffff && r.y == 0xffff)
  }

  ghost predicate AllReported(s: seq<Rect>, t: seq<Rect>) {
    |s| == |t| && forall i | 0 <= i < |s| :: Reported(s[i], t[i])
  }

  /** s is t with each rectangle carrying its place. */
  ghost predicate Numbered(s: seq<Rect>, t: seq<Rect>) {
    |s| == |t| && forall i | 0 <= i < |s| :: s[i] == t[i].(wasPacked := i)
  }

  /** s is t in the given order, each rectangle carrying its old place. */
  ghost predicate NumberedInOrder(s: seq<Rect>, t: seq<Rect>, order: seq<int>) {
    |s| == |t| == |order| &&
    forall j | 0 <= j < |s| :: 0 <= order[j] < |t| && s[j] == t[order[j]].(wasPacked := order[j])
  }

  /** s holds the rectangles of t, possibly moved. */
  ghost predicate Moved(s: seq<Rect>, t: seq<Rect>) {
    |s| == |t| && forall i | 0 <= i < |s| :: SameRequest(s[i], t[i]) && s[i].wasPacked == t[i].wasPacked
  }

  /** s is t with the flags set. */
  ghost predicate Flagged(s: seq<Rect>, t: seq<Rect>) {
    |s| == |t| && forall i | 0 <= i < |s| :: s[i] == t[i].(wasPacked := if Unplaced(t[i]) then 0 else 1)
  }

  /** The first loop: each rectangle remembers its place in the array. */
  method Number(rects: array<Rect>)
    modifies rects
    ensures Numbered(rects[..], old(rects[..]))
  {
    for i := 0 to rects.Length
      invariant forall j | 0 <= j < i :: rects[j] == old(rects[j]).(wasPacked := j)
      invariant forall j | i <= j < rects.Length :: rects[j] == old(rects[j])
    {
      rects[i] := rects[i].(wasPacked := i);
    }
  }

  /** The last loop: flags and overall answer. */
  method Report(rects: array<Rect>) returns (all: int)
    modifies rects
    ensures Flagged(rects[..], old(rects[..]))
    ensures all == if forall i | 0 <= i < rects.Length :: rects[i].wasPacked == 1 then 1 else 0
  {
    all := 1;
    for i := 0 to rects.Length
      invariant forall j | 0 <= j < i ::
                  rects[j] == old(rects[j]).(wasPacked := if Unplaced(old(rects[j])) then 0 else 1)
      invariant forall j | i <= j < rects.Length :: rects[j] == old(rects[j])
      invariant all == if forall j | 0 <= j < i :: rects[j].wasPacked == 1 then 1 else 0
    {
      rects[i] := rects[i].(wasPacked := if Unplaced(rects[i]) then 0 else 1);
      if rects[i].wasPacked == 0 {
        all := 0;
      }
    }
  }

  /** `stbrp_pack_rects`. `order` is the packing order, `skies` the skylines in between. */
  method PackAll(c: Context, rects: array<Rect>)
    returns (all: int, ghost order: seq<int>, ghost skies: seq<seq<Point>>)
    requires c.Valid() && SizesInRange(rects[..]) && WidthsFit(c.heuristic, c.align, c.width, rects[..])
    modifies c`activeHead, c`freeHead, c`active, c`free, c`sky, c`placed, c`wasted, c.nodes, rects
    ensures c.Valid()
    ensures forall i | 0 <= i < rects.Length :: Reported(rects[i], old(rects[i]))
    ensures all == if forall i | 0 <= i < rects.Length :: rects[i].wasPacked == 1 then 1 else 0
    ensures Permutation(order, rects.Length) && Sorted(ByHeight, Picked(rects[..], order))
    ensures forall i, j | 0 <= i < j < rects.Length ::
              && 0 <= order[i] < rects.Length && 0 <= order[j] < rects.Length
              && TallFirst(rects[order[i]], rects[order[j]])
    ensures |skies| == rects.Length + 1 && skies[0] == old(c.sky) && skies[rects.Length] == c.sky
    ensures Trace(SettingOf(c), Picked(rects[..], order), skies)
    ensures c.placed == old(c.placed) + PlacedBoxes(Picked(rects[..], order))
    // for the array of the caller: nothing overlaps, neither in this call nor with what earlier calls placed
    ensures SafelyPlaced(old(c.placed), rects[..], c.width, c.height)
  {
    hide SafelyPlaced, Context.Valid, Trace, PlacedBoxes, WidthsFit, SizesInRange, Permutation, Sorted, InOrder;
    hide AllSameUpToFlag, Packed, Rearranged, Picked, Numbered, NumberedInOrder, Moved, Flagged;
    c.Limits();
    ghost var t := rects[..];
    Number(rects);
    ghost var numbered := rects[..];
    order := Sort(ByHeight, rects);
    ghost var sorted := rects[..];
    SortedInput(SettingOf(c), t, numbered, sorted, order);
    skies := PackSorted(c, rects);
    ghost var mid := rects[..];
    ghost var back := Sort(ByOriginal, rects);
    ghost var restored := rects[..];
    all := Report(rects);
    c.Safe();
    Restored(SettingOf(c), t, order, sorted, mid, restored, back, rects[..], skies,
             old(c.placed), c.placed, c.sky);
    PickedTallFirst(rects[..], order);
  }

  /** What sorting back and reporting leave of a run over the sorted array. */
  lemma Restored(g: Setting, t: seq<Rect>, order: seq<int>, sorted: seq<Rect>, mid: seq<Rect>, restored: seq<Rect>,
                 back: seq<int>, s: seq<Rect>, skies: seq<seq<Point>>,
                 earlier: seq<Box>, placed: seq<Box>, sky: seq<Point>)
    requires Permutation(order, |t|) && |sorted| == |mid| == |restored| == |s| == |t|
    requires NumberedInOrder(sorted, t, order) && Moved(mid, sorted) && Flagged(s, restored)
    requires Sorted(ByHeight, sorted) && Rearranged(restored, mid, back) && Sorted(ByOriginal, restored)
    requires Trace(g, mid, skies) && placed == earlier + PlacedBoxes(mid) && Packed(placed, sky, g.width, g.height)
    ensures AllReported(s, t)
    ensures Sorted(ByHeight, Picked(s, order)) && Trace(g, Picked(s, order), skies)
    ensures placed == earlier + PlacedBoxes(Picked(s, order)) && SafelyPlaced(earlier, s, g.width, g.height)
  {
    hide Trace, PlacedBoxes, Permutation, Sorted, InOrder, AllSameUpToFlag, Packed, Rearranged, Picked, SafelyPlaced;
    hide Inverse, NumberedInOrder, Moved, Flagged, AllReported;
    NumbersUndone(t, order, sorted, mid, restored, back);
    RestoredOrder(t, order, sorted, mid, restored, back, s);
    TraceIgnoresFlags(g, mid, Picked(s, order), skies);
    BoxesIgnoreFlags(mid, Picked(s, order));
    PlacedAreSafe(earlier, s, order, back, placed, sky, g.width, g.height);
  }

  lemma NumbersUndone(t: seq<Rect>, order: seq<int>, sorted: seq<Rect>, mid: seq<Rect>, restored: seq<Rect>,
                      back: seq<int>)
    requires Permutation(order, |t|) && NumberedInOrder(sorted, t, order) && Moved(mid, sorted)
    requires Rearranged(restored, mid, back) && Sorted(ByOriginal, restored)
    ensures Inverse(order, back)
  {
    UnsortRestores(t, order, mid, restored, back);
  }

  lemma SortedInput(g: Setting, t: seq<Rect>, numbered: seq<Rect>, sorted: seq<Rect>, order: seq<int>)
    requires g.align >= 1 && SizesInRange(t) && WidthsFit(g.heuristic, g.align, g.width, t)
    requires Numbered(numbered, t)
    requires Rearranged(sorted, numbered, order)
    ensures |sorted| == |t| && SizesInRange(sorted) && WidthsFit(g.heuristic, g.align, g.width, sorted)
    ensures Permutation(order, |t|)
    ensures NumberedInOrder(sorted, t, order)
  {
  }

  /** Picking the restored array in packing order gives the rectangles as they were packed. */
  lemma RestoredOrder(t: seq<Rect>, order: seq<int>, sorted: seq<Rect>, mid: seq<Rect>, restored: seq<Rect>,
                      back: seq<int>, s: seq<Rect>)
    requires Permutation(order, |t|) && |s| == |t| && NumberedInOrder(sorted, t, order) && Moved(mid, sorted)
    requires Rearranged(restored, mid, back) && Inverse(order, back) && Flagged(s, restored)
    requires Sorted(ByHeight, sorted)
    ensures AllReported(s, t)
    ensures AllSameUpToFlag(Picked(s, order), mid) && Sorted(ByHeight, Picked(s, order))
  {
    var picked := Picked(s, order);
    forall j | 0 <= j < |t| ensures SameUpToFlag(picked[j], mid[j]) && SameRequest(picked[j], sorted[j]) {
      assert order[back[order[j]]] == order[j];
      assert back[order[j]] == j;
    }
    forall i, j | 0 <= i < j < |t| ensures InOrder(ByHeight, picked[i], picked[j]) {
      assert InOrder(ByHeight, sorted[i], sorted[j]);
    }
  }

  lemma TraceIgnoresFlags(g: Setting, s: seq<Rect>, t: seq<Rect>, skies: seq<seq<Point>>)
    requires AllSameUpToFlag(t, s) && Trace(g, s, skies)
    ensures Trace(g, t, skies)
  {
    forall i | 0 <= i < |t| ensures Step(g, skies[i], skies[i + 1], t[i]) {
      assert SameUpToFlag(t[i], s[i]);
      StepIgnoresFlag(g, skies[i], skies[i + 1], s[i], t[i]);
    }
  }

  lemma StepIgnoresFlag(g: Setting, before: seq<Point>, after: seq<Point>, r: Rect, t: Rect)
    requires SameUpToFlag(t, r) && Step(g, before, after, r)
    ensures Step(g, before, after, t)
  {
    if !IsEmpty(r) {
      if Unplaced(r) {
        if HasNode(g, before) {
          var found, x, y, k :| RefusedAt(g, before, r, found, x, y, k);
          assert RefusedAt(g, before, t, found, x, y, k);
        }
      } else {
        var k: nat :| PlacedBy(g, before, after, r, k);
        assert BoxOf(t) == BoxOf(r);
        assert PlacedBy(g, before, after, t, k);
      }
    }
  }

  lemma {:induction false} BoxesIgnoreFlags(s: seq<Rect>, t: seq<Rect>)
    requires AllSameUpToFlag(t, s)
    ensures PlacedBoxes(t) == PlacedBoxes(s)
  {
    if |s| > 0 {
      BoxesIgnoreFlags(s[..|s| - 1], t[..|s| - 1]);
      assert SameUpToFlag(t[|s| - 1], s[|s| - 1]);
    }
  }

  // ----- what follows for the caller -----

  /** The box of placed rectangle i stands at its own place in the list of boxes. */
  lemma {:induction false} BoxIndex(s: seq<Rect>, i: nat)
    requires i < |s| && Occupies(s[i])
    ensures |PlacedBoxes(s[..i])| < |PlacedBoxes(s)| && PlacedBoxes(s)[|PlacedBoxes(s[..i])|] == BoxOf(s[i])
  {
    var last := |s| - 1;
    if i < last {
      BoxIndex(s[..last], i);
      assert s[..last][..i] == s[..i];
    }
  }

  lemma {:induction false} FewerBefore(s: seq<Rect>, i: nat, j: nat)
    requires i < j <= |s| && Occupies(s[i])
    ensures |PlacedBoxes(s[..i])| < |PlacedBoxes(s[..j])|
  {
    BoxIndex(s[..j], i);
    assert s[..j][..i] == s[..i];
  }

  /** The place of a placed rectangle in the list of boxes. */
  lemma BoxPlace(earlier: seq<Box>, s: seq<Rect>, boxes: seq<Box>, i: nat) returns (p: nat)
    requires boxes == earlier + PlacedBoxes(s) && i < |s| && Occupies(s[i])
    ensures |earlier| <= p < |boxes| && boxes[p] == BoxOf(s[i]) && p == |earlier| + |PlacedBoxes(s[..i])|
  {
    BoxIndex(s, i);
    p := |earlier| + |PlacedBoxes(s[..i])|;
  }

  lemma OneIsSafe(earlier: seq<Box>, s: seq<Rect>, boxes: seq<Box>, sky: seq<Point>, width: int, height: int, i: nat)
    requires boxes == earlier + PlacedBoxes(s) && Packed(boxes, sky, width, height) && i < |s| && Occupies(s[i])
    ensures Inside(BoxOf(s[i]), width, height) && ClearOf(earlier, BoxOf(s[i]))
  {
    hide PlacedBoxes;
    var p := BoxPlace(earlier, s, boxes, i);
    forall e | 0 <= e < |earlier| ensures Disjoint(earlier[e], BoxOf(s[i])) {
      assert boxes[e] == earlier[e];
    }
  }

  lemma TwoAreSafe(earlier: seq<Box>, s: seq<Rect>, boxes: seq<Box>, sky: seq<Point>, width: int, height: int,
                   i: nat, j: nat)
    requires boxes == earlier + PlacedBoxes(s) && Packed(boxes, sky, width, height)
    requires i < j < |s| && Occupies(s[i]) && Occupies(s[j])
    ensures Disjoint(BoxOf(s[i]), BoxOf(s[j])) && Disjoint(BoxOf(s[j]), BoxOf(s[i]))
  {
    hide PlacedBoxes;
    var p := BoxPlace(earlier, s, boxes, i);
    var q := BoxPlace(earlier, s, boxes, j);
    FewerBefore(s, i, j);
  }

  /** Read back through the packing order: the rectangles of the caller are safely placed. */
  lemma PlacedAreSafe(earlier: seq<Box>, s: seq<Rect>, order: seq<int>, back: seq<int>, boxes: seq<Box>,
                      sky: seq<Point>, width: int, height: int)
    requires Permutation(order, |s|) && Inverse(order, back)
    requires boxes == earlier + PlacedBoxes(Picked(s, order)) && Packed(boxes, sky, width, height)
    ensures SafelyPlaced(earlier, s, width, height)
  {
    hide PlacedBoxes, Packed, Disjoint, Inside, ClearOf, Occupies;
    var picked := Picked(s, order);
    forall i | 0 <= i < |s| && Occupies(s[i])
      ensures Inside(BoxOf(s[i]), width, height) && ClearOf(earlier, BoxOf(s[i]))
    {
      OneIsSafe(earlier, picked, boxes, sky, width, height, back[i]);
    }
    forall i, j | 0 <= i < |s| && 0 <= j < |s| && i != j && Occupies(s[i]) && Occupies(s[j])
      ensures Disjoint(BoxOf(s[i]), BoxOf(s[j]))
    {
      assert order[back[i]] == i && order[back[j]] == j;
      TwoAreSafe(earlier, picked, boxes, sky, width, height,
                 if back[i] < back[j] then back[i] else back[j], if back[i] < back[j] then back[j] else back[i]);
    }
  }

  /** With either rule, a rectangle is refused exactly when every node is in use or no position of the skyline it met
      could hold it, its width rounded, and a placed one rests as low as any position allows. */
  ghost predicate RestsLowest(g: Setting, before: seq<Point>, r: Rect) {
    && g.align >= 1 && r.w >= 1
    && var w := Aligned(r.w, g.align);
       && (Unplaced(r) <==> !HasNode(g, before) || !FitsSomewhere(before, g.width, g.height, w, r.h))
       && (!Unplaced(r) ==> r.y == RestsOn(before, r.x, w) && r.y + r.h <= g.height)
       && (!Unplaced(r) ==> forall x | 0 <= x && x + w <= g.width :: r.y <= RestsOn(before, x, w))
  }

  lemma StepRestsLowest(g: Setting, before: seq<Point>, after: seq<Point>, r: Rect)
    requires Step(g, before, after, r) && ValidSky(before, g.width, g.height) && !IsEmpty(r)
    ensures RestsLowest(g, before, r)
  {
    hide Found, FitsSomewhere, RestsOn, Place, ValidSky;
    var w := Aligned(r.w, g.align);
    if !Unplaced(r) {
      var k: nat :| PlacedBy(g, before, after, r, k);
      FoundIsLowest(g.heuristic, before, g.width, g.height, w, r.h, true, r.x, r.y, k);
      FoundWindow(g.heuristic, before, g.width, g.height, w, r.h, true, r.x, r.y, k);
    } else if HasNode(g, before) {
      var found, x, y, k :| RefusedAt(g, before, r, found, x, y, k);
      FoundIsLowest(g.heuristic, before, g.width, g.height, w, r.h, found, x, y, k);
    }
  }

  /** Every skyline of a run is valid when the first one is. */
  lemma {:induction false} TraceKeepsValid(g: Setting, s: seq<Rect>, skies: seq<seq<Point>>, i: nat)
    requires Trace(g, s, skies) && ValidSky(skies[0], g.width, g.height) && i <= |s|
    ensures ValidSky(skies[i], g.width, g.height)
  {
    hide Step, ValidSky;
    if i > 0 {
      TraceKeepsValid(g, s, skies, i - 1);
      assert Step(g, skies[i - 1], skies[i - 1 + 1], s[i - 1]);
      StepKeepsValid(g, skies[i - 1], skies[i], s[i - 1]);
    }
  }

  lemma StepKeepsValid(g: Setting, before: seq<Point>, after: seq<Point>, r: Rect)
    requires Step(g, before, after, r) && ValidSky(before, g.width, g.height)
    ensures ValidSky(after, g.width, g.height)
  {
    hide ValidSky, Place, Found;
    if !IsEmpty(r) && !Unplaced(r) {
      var k: nat :| PlacedBy(g, before, after, r, k);
      PlaceValid(before, g.width, g.height, k, r.x, r.w, r.y + r.h);
    }
  }

  /** So over a whole run every rectangle is placed as low as the skyline it met allows; and with a node for every
      column it is refused only if that skyline has no room for it. */
  lemma RunRestsLowest(g: Setting, s: seq<Rect>, skies: seq<seq<Point>>, i: nat)
    requires Trace(g, s, skies) && ValidSky(skies[0], g.width, g.height) && i < |s| && !IsEmpty(s[i])
    ensures RestsLowest(g, skies[i], s[i]) && (g.width <= g.nodes ==> HasNode(g, skies[i]))
  {
    hide Step, ValidSky, RestsLowest;
    TraceKeepsValid(g, s, skies, i);
    assert Step(g, skies[i], skies[i + 1], s[i]);
    StepRestsLowest(g, skies[i], skies[i + 1], s[i]);
    FewNodes(skies[i], g.width, g.height);
  }
}
