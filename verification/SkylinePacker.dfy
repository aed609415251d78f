/** The skyline packer: a linked list of active nodes, a free list, and the search for the best position. */
module SkylinePacker {
  import opened Skyline
  import opened WindowSearch

  class Node {
    var x: int
    var y: int
    var next: Node?

    constructor (x: int, y: int)
      ensures this.x == x && this.y == y && next == null
    {
      this.x, this.y, next := x, y, null;
    }
  }

  datatype Heuristic = BottomLeft | BestFit

  /** The place of a pointer to a node: none, the head of the active list, or the next field of a node. */
  datatype Link = Nowhere | AtHead | After(node: Node)

  /** A candidate of a search, with its waste. */
  datatype Best = Best(link: Link, x: int, y: int, waste: int)

  datatype FindResult = FindResult(link: Link, x: int, y: int)

  /** The cast to the 16-bit coordinate type. */
  function Coord(v: int): (r: int)
    ensures 0 <= r <= 0xffff && (0 <= v <= 0xffff ==> r == v)
  {
    v % 0x1_0000
  }

  /** The unit to which widths are rounded so that n nodes always suffice. */
  function DefaultAlign(width: int, n: int): (r: int)
    requires width >= 1 && n >= 1
    ensures r >= 1 && (width <= n ==> r == 1)
  {
    (width + n - 1) / n
  }

  /** Width rounded up to a multiple of align. */
  function Aligned(w: int, align: int): (r: int)
    requires w >= 1 && align >= 1
    ensures w <= r < w + align
  {
    w + align - 1 - (w + align - 1) % align
  }

  /** The default unit is the smallest that makes n units cover the width. */
  lemma DefaultAlignIsLeast(width: int, n: int)
    requires width >= 1 && n >= 1
    ensures DefaultAlign(width, n) * n >= width && (DefaultAlign(width, n) - 1) * n < width
  {
    var r := (width + n - 1) / n;
    assert width + n - 1 == r * n + (width + n - 1) % n;
    assert (r - 1) * n == r * n - n;
  }

  /** Rounding goes up to the next multiple of the unit. */
  lemma AlignedIsNextMultiple(w: int, align: int) returns (q: int)
    requires w >= 1 && align >= 1
    ensures Aligned(w, align) == q * align && (q - 1) * align < w <= q * align
  {
    q := (w + align - 1) / align;
    assert w + align - 1 == q * align + (w + align - 1) % align;
    assert (q - 1) * align == q * align - align;
  }

  /** Following the next fields from nodes[0] visits the nodes in order and then last. */
  ghost predicate Chain(nodes: seq<Node>, last: Node?)
    reads nodes
  {
    forall i {:trigger nodes[i].next} | 0 <= i < |nodes| ::
      nodes[i].next == if i + 1 < |nodes| then nodes[i + 1] else last
  }

  ghost predicate NoDuplicates(nodes: seq<Node>) {
    forall i, j | 0 <= i < j < |nodes| :: nodes[i] != nodes[j]
  }

  ghost predicate Separate(a: seq<Node>, b: seq<Node>) {
    forall i, j | 0 <= i < |a| && 0 <= j < |b| :: a[i] != b[j]
  }

  ghost function HeadOf(nodes: seq<Node>): Node? {
    if |nodes| == 0 then null else nodes[0]
  }

  ghost function Reversed(nodes: seq<Node>): (r: seq<Node>)
    ensures |r| == |nodes| && forall i | 0 <= i < |r| :: r[i] == nodes[|nodes| - 1 - i]
  {
    seq(|nodes|, i requires 0 <= i < |nodes| => nodes[|nodes| - 1 - i])
  }

  /** What the search finds for a rectangle of rounded width w and height h: at x, resting at y, in segment k. */
  ghost predicate Found(heuristic: Heuristic, sky: seq<Point>, width: int, height: int, w: int, h: int,
                        found: bool, x: int, y: int, k: int) {
    match heuristic
    case BottomLeft =>
      if !found then width < w
      else LeftmostLowest(sky, width, k, w) && x == sky[k].x && y == RestsAt(sky, k, w)
    case BestFit =>
      exists waste :: BestWindow(sky, Request(width, height, w, h), |sky|, |sky|, found, x, y, waste, k)
  }

  /** A window found by the search lies in segment k, inside the target, and rests on the skyline. */
  lemma FoundWindow(heuristic: Heuristic, sky: seq<Point>, width: int, height: int, w: int, h: int,
                    found: bool, x: int, y: int, k: int)
    requires ValidSky(sky, width, height) && w >= 1 && found
    requires Found(heuristic, sky, width, height, w, h, found, x, y, k)
    ensures InSegment(sky, k, x) && 0 <= x && x + w <= width && y == RestsOn(sky, x, w)
    ensures sky[k].x == x || (heuristic == BestFit && EndsAtPoint(sky, |sky|, x, w))
  {
    assert InSegment(sky, k, x) by {
      if heuristic == BottomLeft {
        assert Candidate(sky, width, k, w);
        assert k < |sky| - 1;
      }
    }
    assert sky[0].x <= sky[k].x;
  }

  lemma RestsAbove(sky: seq<Point>, width: int, height: int, x: int, w: int, c: int)
    requires ValidSky(sky, width, height) && x <= c < x + w
    ensures HeightAt(sky, c) <= RestsOn(sky, x, w) && 0 <= RestsOn(sky, x, w)
  {
    forall c ensures HeightAt(sky, c) >= 0 { HeightBounds(sky, width, height, c); }
    MaxHeightIsMax(sky, x, x + w);
  }

  /** With either rule a search that fails, or finds a position too high, met no position at all for the rounded width,
      and one that succeeds rests as low as any position. */
  lemma FoundIsLowest(heuristic: Heuristic, sky: seq<Point>, width: int, height: int, w: int, h: int,
                      found: bool, x: int, y: int, k: int)
    requires ValidSky(sky, width, height) && 1 <= w
    requires Found(heuristic, sky, width, height, w, h, found, x, y, k)
    ensures found && y + h <= height <==> FitsSomewhere(sky, width, height, w, h)
    ensures found ==> forall x' | 0 <= x' && x' + w <= width :: y <= RestsOn(sky, x', w)
  {
    hide ValidSky, RestsOn;
    match heuristic
    case BottomLeft =>
      if found {
        forall x' | 0 <= x' && x' + w <= width ensures y <= RestsOn(sky, x', w) {
          LowestOverAllPositions(sky, width, height, k, w, x');
        }
        BottomLeftIsComplete(sky, width, height, k, w, h);
      }
    case BestFit =>
      var q := Request(width, height, w, h);
      var waste :| BestWindow(sky, q, |sky|, |sky|, found, x, y, waste, k);
      BestFitIsComplete(sky, q, found, x, y, waste, k);
  }

  /** What a position found with the rounded width means for the rectangle itself: the box inside the target rests on
      the skyline, and it raises exactly its own columns unless the best-fit rule rounded its width. */
  lemma FoundMeaning(heuristic: Heuristic, sky: seq<Point>, width: int, height: int, w: int, align: int, h: int,
                     found: bool, x: int, y: int, k: int)
    requires ValidSky(sky, width, height) && 1 <= w && 1 <= h && align >= 1
    requires Found(heuristic, sky, width, height, Aligned(w, align), h, found, x, y, k)
    requires found && y + h <= height
    ensures 0 <= k && Placeable(sky, width, height, k, x, w, y + h) && Inside(Box(x, y, w, h), width, height)
    ensures forall c | x <= c < x + w :: HeightAt(sky, c) <= y
    ensures heuristic == BottomLeft || align == 1 ==> PlacedEnd(sky, k, x, w) == x + w
  {
    hide ValidSky, Found, HeightAt, RestsOn;
    var rounded := Aligned(w, align);
    FoundWindow(heuristic, sky, width, height, rounded, h, found, x, y, k);
    RestsAbove(sky, width, height, x, rounded, x);
    forall c | x <= c < x + w ensures HeightAt(sky, c) <= y {
      RestsAbove(sky, width, height, x, rounded, c);
    }
    if heuristic == BottomLeft || align == 1 {
      ReachesNext(sky, width, height, k, x, rounded);
      Frame(sky, width, height);
      PlacedEndExact(sky, k, x, w);
    }
  }

  lemma ReachesNext(sky: seq<Point>, width: int, height: int, k: int, x: int, w: int)
    requires ValidSky(sky, width, height) && w >= 1 && InSegment(sky, k, x)
    ensures EndsAtPoint(sky, |sky|, x, w) ==> sky[k + 1].x <= x + w
  {
    if EndsAtPoint(sky, |sky|, x, w) {
      var j :| 0 <= j < |sky| && sky[j].x == x + w;
      assert k < j;
    }
  }

  class Context {
    const width: int
    const height: int
    const numNodes: int
    var align: int
    var heuristic: Heuristic
    var activeHead: Node?
    var freeHead: Node?

    /** All nodes, those of the caller and the two extra ones. */
    ghost const nodes: set<Node>
    ghost var active: seq<Node>
    /** The points of the active nodes. */
    ghost var sky: seq<Point>
    ghost var free: seq<Node>
    /** All rectangles placed so far, in order of placement. */
    ghost var placed: seq<Box>
    /** The space lost so far: what the skyline covers besides the rectangles. */
    ghost var wasted: int

    /** Both lists are acyclic, disjoint and complete: together they hold all nodes. */
    ghost predicate Linked()
      reads this, active, free
    {
      && NoDuplicates(active) && NoDuplicates(free) && Separate(active, free)
      && (forall n | n in active :: n in nodes) && (forall n | n in free :: n in nodes)
      && |active| >= 2 && activeHead == active[0] && Chain(active, null)
      && freeHead == HeadOf(free) && Chain(free, null)
      && |active| + |free| == numNodes + 2
    }

    /** `sky` lists the points of the active nodes. */
    ghost predicate Mirrored()
      reads this, active
    {
      |sky| == |active| &&
      forall i {:trigger sky[i]} {:trigger active[i]} | 0 <= i < |active| :: sky[i] == Point(active[i].x, active[i].y)
    }

    /** The active list represents a valid skyline. */
    ghost predicate Skylined()
      reads this, active
    {
      Chain(active, null) && Mirrored() && ValidSky(sky, width, height)
    }

    ghost predicate Ready()
      reads this, active
    {
      |active| >= 2 && activeHead == active[0] && Skylined()
    }

    ghost predicate Valid()
      reads this, active, free
    {
      && numNodes >= 1 && align >= 1
      && Linked() && Skylined()
      && Packed(placed, sky, width, height)
      && wasted >= 0 && AreaUnder(sky, 0, width) == BoxArea(placed) + wasted
    }

    /** The pointer to active node k. */
    ghost function LinkTo(k: int): Link
      requires 0 <= k < |active|
      reads this
    {
      if k == 0 then AtHead else After(active[k - 1])
    }

    /** `stbrp_init_target`, on distinct nodes supplied by the caller. */
    constructor (width: int, height: int, pool: seq<Node>)
      requires 1 <= width <= 0xffff && 0 <= height <= 0xffff && |pool| >= 1 && NoDuplicates(pool)
      modifies pool
      ensures Valid() && fresh(nodes - set n | n in pool) && free == pool
      ensures this.width == width && this.height == height && numNodes == |pool|
      ensures sky == [Point(0, 0), Point(width, SENTINEL_Y)] && placed == [] && wasted == 0
      ensures heuristic == BottomLeft && align == DefaultAlign(width, |pool|)
    {
      hide ValidSky, Packed, AreaUnder, BoxArea, DefaultAlign;
      LinkUp(pool);
      var first := new Node(0, 0);
      var sentinel := new Node(Coord(width), SENTINEL_Y);
      first.next := sentinel;
      this.width, this.height, this.numNodes := width, height, |pool|;
      this.align := DefaultAlign(width, |pool|);
      this.nodes := {first, sentinel} + set n | n in pool;
      heuristic := BottomLeft;
      freeHead, activeHead := pool[0], first;
      active, free, placed, wasted := [first, sentinel], pool, [], 0;
      sky := [Point(0, 0), Point(width, SENTINEL_Y)];
      new;
      FlatSky(width, height);
    }

    /** The loop that strings the free nodes together. */
    static method LinkUp(nodes: seq<Node>)
      requires |nodes| >= 1 && NoDuplicates(nodes)
      modifies nodes
      ensures Chain(nodes, null)
    {
      var i := 0;
      while i < |nodes| - 1
        invariant 0 <= i <= |nodes| - 1
        invariant forall j | 0 <= j < i :: nodes[j].next == nodes[j + 1]
      {
        nodes[i].next := nodes[i + 1];
        i := i + 1;
      }
      nodes[i].next := null;
    }

    static lemma FlatSky(width: int, height: int)
      requires 1 <= width <= 0xffff && 0 <= height <= 0xffff
      ensures var sky := [Point(0, 0), Point(width, SENTINEL_Y)];
              ValidSky(sky, width, height) && Packed([], sky, width, height) && AreaUnder(sky, 0, width) == BoxArea([])
    {
      var sky := [Point(0, 0), Point(width, SENTINEL_Y)];
      forall c | 0 <= c < width ensures HeightAt(sky, c) == 0 {
        HeightInSegment(sky, 0, c);
      }
      ExtendArea(sky, 0, 0, width, 0);
    }

    /** `stbrp_setup_allow_out_of_mem`. */
    method AllowOutOfMem(allow: bool)
      requires Valid()
      modifies this`align
      ensures Valid() && align == if allow then 1 else DefaultAlign(width, numNodes)
    {
      align := if allow then 1 else DefaultAlign(width, numNodes);
    }

    /** `stbrp_setup_heuristic`. */
    method SetHeuristic(h: Heuristic)
      requires Valid()
      modifies this`heuristic
      ensures Valid() && heuristic == h
    {
      heuristic := h;
    }

    /** `stbrp__skyline_find_min_y`: the greatest height under a window, and the area the window would close off. */
    method FindMinY(first: Node, x0: int, w: int, ghost k: int) returns (minY: int, waste: int)
      requires Ready() && InSegment(sky, k, x0) && first == active[k] && w >= 1 && x0 + w <= width
      ensures Ready() && sky == old(sky)
      ensures minY == RestsOn(sky, x0, w) && 0 <= minY <= height && waste == WasteAt(sky, k, x0, w)
      ensures Measured(sky, k, x0) ==> waste == w * minY - AreaUnder(sky, x0, x0 + w)
    {
      hide MaxHeight, AreaUnder, HeightAt;
      var node, x1 := first, x0 + w;
      var visited := 0;
      minY, waste := 0, 0;
      ghost var i := k;
      ScanStart(sky, k, x0, w);
      while node.x < x1
        invariant k <= i < |active| && node == active[i]
        invariant Scanned(sky, k, x0, w, i, minY, waste, visited)
        invariant WasteFrom(sky, i, x0, w, minY, waste, visited) == WasteAt(sky, k, x0, w)
        decreases |active| - i
      {
        assert i + 1 < |active| && node.next == active[i + 1];
        VisitSegmentScans(node.x, node.y, node.next.x, x0, w, minY, waste, visited, sky, k, i);
        var r := VisitSegment(node.x, node.y, node.next.x, x0, w, minY, waste, visited);
        minY, waste, visited := r.0, r.1, r.2;
        node := node.next;
        i := i + 1;
      }
      assert sky[i].x == node.x;
      ScanEnd(sky, k, x0, w, i, minY, waste, visited);
      MaxHeightBounds(sky, width, height, x0, x0 + w);
    }

    /** The node a link points to. */
    method Target(link: Link, ghost k: int) returns (node: Node)
      requires Ready() && 0 <= k < |active| && link == LinkTo(k)
      ensures node == active[k]
    {
      if link.AtHead? {
        node := activeHead;
      } else {
        assert active[k - 1].next == active[k];
        node := link.node.next;
      }
    }

    /** Node k is not the sentinel when a window of positive width fits at it. */
    lemma NodeColumn(k: int, w: int)
      requires Ready() && 0 <= k < |active| && w >= 1 && active[k].x + w <= width
      ensures k + 1 < |active| && InSegment(sky, k, active[k].x) && Candidate(sky, width, k, w)
      ensures 0 <= RestsAt(sky, k, w) <= height < HUGE
    {
      assert sky[k].x == active[k].x;
      MaxHeightBounds(sky, width, height, active[k].x, active[k].x + w);
    }

    /** The scan of `stbrp__skyline_find_best_pos` over the node positions with the bottom-left rule. */
    method ScanBottomLeft(w: int) returns (best: Link, bestY: int, ghost k: int)
      requires Ready() && w >= 1
      ensures Ready() && sky == old(sky)
      ensures if best.Nowhere? then width < w
              else 0 <= k < |active| && best == LinkTo(k)
                   && LeftmostLowest(sky, width, k, w) && bestY == RestsAt(sky, k, w)
    {
      best, bestY, k := Nowhere, HUGE, 0;
      var node, prev := activeHead, AtHead;
      ghost var n := 0;
      while node.x + w <= width
        invariant Ready() && sky == old(sky)
        invariant 0 <= n < |active| && node == active[n] && prev == LinkTo(n)
        invariant best.Nowhere? || (0 <= k < n && best == LinkTo(k))
        invariant BestSoFar(sky, width, n, w, !best.Nowhere?, bestY, k)
        decreases |active| - n
      {
        NodeColumn(n, w);
        var y, waste := FindMinY(node, node.x, w, n);
        BestStep(sky, width, n, w, !best.Nowhere?, bestY, k);
        if y < bestY {
          bestY, best, k := y, prev, n;
        }
        assert node.next == active[n + 1];
        prev, node := After(node), node.next;
        n := n + 1;
      }
      BestEnd(sky, width, n, w, !best.Nowhere?, bestY, k);
    }

    /** What the best-fit search has found among the windows starting at the first n nodes and ending at the first t. */
    ghost predicate BestFound(w: int, h: int, n: int, t: int, best: Best, k: int)
      reads this
    {
      && BestWindow(sky, Request(width, height, w, h), n, t, !best.link.Nowhere?, best.x, best.y, best.waste, k)
      && (!best.link.Nowhere? ==> 0 <= k < |active| && best.link == LinkTo(k))
    }

    /** The same scan with the best-fit rule. */
    method ScanBestFit(w: int, h: int) returns (best: Link, bestY: int, bestWaste: int, ghost k: int)
      requires Ready() && w >= 1
      ensures Ready() && sky == old(sky)
      ensures 0 <= k < |sky| && BestFound(w, h, |sky|, 0, Best(best, sky[k].x, bestY, bestWaste), k)
    {
      hide ValidSky, BestWindow, MaxHeight, WasteAt;
      ghost var q := Request(width, height, w, h);
      best, bestY, bestWaste, k := Nowhere, HUGE, HUGE, 0;
      NoWindowYet(sky, q, sky[0].x, 0);
      var node, prev := activeHead, AtHead;
      ghost var n := 0;
      while node.x + w <= width
        invariant Ready() && sky == old(sky)
        invariant 0 <= n < |active| && node == active[n] && prev == LinkTo(n) && node.x == sky[n].x
        invariant 0 <= k < |sky| && BestFound(w, h, n, 0, Best(best, sky[k].x, bestY, bestWaste), k)
        decreases |active| - n
      {
        NodeColumn(n, w);
        var y, waste := FindMinY(node, node.x, w, n);
        NextLeft(sky, q, n, !best.Nowhere?, sky[k].x, bestY, bestWaste, k, y, waste);
        if y + h <= height {
          if y < bestY || (y == bestY && waste < bestWaste) {
            bestY, bestWaste, best, k := y, waste, prev, n;
          }
        }
        assert node.next == active[n + 1];
        prev, node := After(node), node.next;
        n := n + 1;
      }
      LastLeft(sky, q, n, !best.Nowhere?, sky[k].x, bestY, bestWaste, k);
    }

    /** The first node a window of width w can end at. */
    method FirstTail(w: int) returns (tail: Node, ghost t: int)
      requires Ready() && 1 <= w <= width
      ensures Ready() && sky == old(sky)
      ensures 0 <= t < |active| && tail == active[t] && w <= tail.x
      ensures forall j | 0 <= j < t :: sky[j].x < w
    {
      tail := activeHead;
      t := 0;
      while tail.x < w
        invariant 0 <= t < |active| && tail == active[t] && forall j | 0 <= j < t :: sky[j].x < w
        decreases |active| - t
      {
        assert sky[t].x == tail.x && tail.next == active[t + 1];
        tail := tail.next;
        t := t + 1;
      }
    }

    /** The node whose segment holds xpos, from a node not right of xpos on, with the link to it. */
    method SegmentFrom(node0: Node, prev0: Link, xpos: int, ghost n0: int)
      returns (node: Node, prev: Link, ghost n: int)
      requires Ready() && 0 <= n0 < |active| && node0 == active[n0] && prev0 == LinkTo(n0)
      requires node0.x <= xpos < width
      ensures Ready() && sky == old(sky)
      ensures InSegment(sky, n, xpos) && node == active[n] && prev == LinkTo(n)
    {
      node, prev, n := node0, prev0, n0;
      assert n < |active| - 1 && sky[n].x == node.x;
      while node.next.x <= xpos
        invariant 0 <= n < |active| - 1 && node == active[n] && prev == LinkTo(n) && node.x <= xpos
        decreases |active| - n
      {
        assert node.next == active[n + 1] && sky[n + 1].x == node.next.x;
        prev, node := After(node), node.next;
        n := n + 1;
      }
      assert node.next == active[n + 1] && sky[n + 1].x == node.next.x && sky[n].x == node.x;
    }

    /** The second scan of the best-fit rule: windows whose right end is at a node. */
    method ScanRightAligned(w: int, h: int, best0: Best, ghost k0: int) returns (best: Best, ghost k: int)
      requires Ready() && 1 <= w <= width && BestFound(w, h, |sky|, 0, best0, k0)
      ensures Ready() && sky == old(sky)
      ensures BestFound(w, h, |sky|, |sky|, best, k)
    {
      hide ValidSky, BestWindow;
      best, k := best0, k0;
      var node, prev := activeHead, AtHead;
      ghost var n := 0;
      var first, t := FirstTail(w);
      Frame(sky, width, height);
      FirstRight(sky, Request(width, height, w, h), t, !best.link.Nowhere?, best.x, best.y, best.waste, k);
      var tail: Node? := first;
      while tail != null
        invariant Ready() && sky == old(sky)
        invariant 0 <= t <= |active| && (tail == null <==> t == |active|) && (tail != null ==> tail == active[t])
        invariant 0 <= n < |active| && node == active[n] && prev == LinkTo(n)
        invariant t < |active| ==> old(sky)[n].x + w <= old(sky)[t].x
        invariant BestFound(w, h, |sky|, t, best, k)
        decreases |active| - t
      {
        TailInside(t);
        assert sky[n].x == node.x;
        node, prev, best, k, n := TryWindow(w, h, tail.x - w, best, k, node, prev, n, t);
        NextTail(t);
        tail := tail.next;
        t := t + 1;
      }
    }

    /** One window of the second scan, starting at xpos: its node is found from an earlier one. */
    method TryWindow(w: int, h: int, xpos: int, best0: Best, ghost k0: int, node0: Node, prev0: Link, ghost n0: int,
                     ghost t: int)
      returns (node: Node, prev: Link, best: Best, ghost k: int, ghost n: int)
      requires Ready() && 0 <= n0 < |active| && node0 == active[n0] && prev0 == LinkTo(n0)
      requires node0.x <= xpos && w >= 1 && xpos + w <= width
      requires 0 <= t < |sky| && sky[t].x == xpos + w && BestFound(w, h, |sky|, t, best0, k0)
      ensures Ready() && sky == old(sky) && BestFound(w, h, |sky|, t + 1, best, k)
      ensures InSegment(sky, n, xpos) && node == active[n] && prev == LinkTo(n)
    {
      hide ValidSky, BestWindow, MaxHeight, WasteAt;
      best, k := best0, k0;
      node, prev, n := SegmentFrom(node0, prev0, xpos, n0);
      var y, waste := FindMinY(node, xpos, w, n);
      Frame(sky, width, height);
      NextRight(sky, Request(width, height, w, h), t, !best.link.Nowhere?, best.x, best.y, best.waste, k,
                xpos, y, waste, n);
      if y + h < height {
        if y <= best.y {
          if y < best.y || waste < best.waste || (waste == best.waste && xpos < best.x) {
            best, k := Best(prev, xpos, y, waste), n;
          }
        }
      }
    }

    lemma TailInside(t: int)
      requires Ready() && 0 <= t < |active|
      ensures sky[t].x == active[t].x <= width && (t + 1 < |active| ==> sky[t].x < sky[t + 1].x)
    {
    }

    lemma NextTail(t: int)
      requires Ready() && 0 <= t < |active|
      ensures active[t].next == if t + 1 < |active| then active[t + 1] else null
    {}

    /** `stbrp__skyline_find_best_pos`. */
    method FindBestPos(w: int, h: int) returns (res: FindResult, ghost k: int)
      requires Ready() && w >= 1 && align >= 1
      requires heuristic == BestFit ==> Aligned(w, align) <= width
      ensures Ready() && sky == old(sky) && (!res.link.Nowhere? ==> 0 <= k < |active| && res.link == LinkTo(k))
      ensures Found(heuristic, sky, width, height, Aligned(w, align), h, !res.link.Nowhere?, res.x, res.y, k)
    {
      hide ValidSky, BestWindow;
      var rounded := Aligned(w, align);
      var best, bestX, bestY, bestWaste := Nowhere, 0, HUGE, HUGE;
      if heuristic == BottomLeft {
        best, bestY, k := ScanBottomLeft(rounded);
      } else {
        best, bestY, bestWaste, k := ScanBestFit(rounded, h);
        NoneAnywhere(rounded, h, best, bestY, bestWaste, k);
      }
      if !best.Nowhere? {
        var target := Target(best, k);
        bestX := target.x;
      }
      if heuristic == BestFit {
        var better;
        better, k := ScanRightAligned(rounded, h, Best(best, bestX, bestY, bestWaste), k);
        best, bestX, bestY := better.link, better.x, better.y;
      }
      res := FindResult(best, bestX, bestY);
    }

    lemma NoneAnywhere(w: int, h: int, best: Link, y: int, waste: int, k: int)
      requires 0 <= k < |sky| && BestFound(w, h, |sky|, 0, Best(best, sky[k].x, y, waste), k)
      ensures best.Nowhere? ==> BestFound(w, h, |sky|, 0, Best(best, 0, y, waste), k)
    {}

    /** The active list is properly linked from node i on. */
    ghost predicate ChainFrom(i: int)
      reads this, active
    {
      forall m {:trigger active[m].next} | 0 <= m < |active| && i <= m ::
        active[m].next == if m + 1 < |active| then active[m + 1] else null
    }

    /** Moves the covered nodes, from node i on, to the free list, up to the first one that stays. */
    method FreeCovered(first: Node, right: int, ghost i: int) returns (cur: Node, ghost j: int)
      requires Mirrored() && 0 <= i < |active| && first == active[i] && NoDuplicates(active)
      requires ChainFrom(i)
      modifies this`freeHead, active`next
      ensures Mirrored() && j == LastCovered(sky, i, right) && cur == active[j]
      ensures freeHead == if i < j then active[j - 1] else old(freeHead)
      ensures forall m {:trigger active[m].next} | i <= m < j ::
                active[m].next == if i < m then active[m - 1] else old(freeHead)
      ensures forall m {:trigger active[m].next} | 0 <= m < i || j <= m < |active| ::
                active[m].next == old(active[m].next)
    {
      hide LastCovered;
      cur, j := first, i;
      while cur.next != null && cur.next.x <= right
        invariant i <= j < |active| && cur == active[j] && Mirrored()
        invariant LastCovered(sky, i, right) == LastCovered(sky, j, right)
        invariant freeHead == if i < j then active[j - 1] else old(freeHead)
        invariant forall m {:trigger active[m].next} | i <= m < j ::
                    active[m].next == if i < m then active[m - 1] else old(freeHead)
        invariant forall m {:trigger active[m].next} | 0 <= m < i || j <= m < |active| ::
                    active[m].next == old(active[m].next)
        decreases |active| - j
      {
        assert cur.next == old(active[j].next) == active[j + 1] && sky[j + 1].x == cur.next.x;
        LastCoveredNext(sky, j, right);
        var next := cur.next;
        cur.next := freeHead;
        freeHead := cur;
        cur, j := next, j + 1;
      }
      assert cur.next == old(active[j].next);
      assert j + 1 < |active| ==> cur.next == active[j + 1] && sky[j + 1].x == cur.next.x;
      LastCoveredNext(sky, j, right);
    }

    /** The nodes before place i are linked to one another and then to node, from the head of the list on. */
    ghost predicate LeadsTo(node: Node, i: int)
      reads this, active
    {
      && i <= |active| && activeHead == (if i == 0 then node else HeadOf(active))
      && forall m {:trigger active[m].next} | 0 <= m < i ::
           active[m].next == if m + 1 < i then active[m + 1] else node
    }

    /** First part of an insertion: the head of the free list gets its coordinates and is linked in before place i. */
    method Attach(link: Link, x: int, top: int, ghost k: int, ghost i: nat) returns (node: Node, cur: Node)
      requires Linked() && Skylined() && InSegment(sky, k, x) && link == LinkTo(k) && i == StartIndex(sky, k, x)
      requires |free| > 0 && 0 <= x <= 0xffff && 0 <= top <= 0xffff
      modifies this`activeHead, this`freeHead, nodes
      ensures node == free[0] && node.x == x && node.y == top && freeHead == HeadOf(free[1..]) && Chain(free[1..], null)
      ensures Mirrored() && i < |active| && cur == active[i] && ChainFrom(i) && LeadsTo(node, i)
    {
      hide ValidSky;
      assert active[k].next == active[k + 1] && free[0].next == if 1 < |free| then free[1] else null;
      assert k > 0 ==> active[k - 1].next == active[k];
      node, cur := freeHead, if link.AtHead? then activeHead else link.node.next;
      assert cur == active[k] && sky[k] == Point(cur.x, cur.y);
      node.x := Coord(x);
      node.y := Coord(top);
      freeHead := node.next;
      if cur.x < x {
        // preserve the existing node, start with the next one
        var next := cur.next;
        cur.next := node;
        cur := next;
      } else if link.AtHead? {
        activeHead := node;
      } else {
        link.node.next := node;
      }
    }

    /** Second part: the covered nodes go to the free list. */
    method Release(node: Node, first: Node, right: int, ghost i: int) returns (cur: Node, ghost j: int)
      requires NoDuplicates(active) && NoDuplicates(free) && Separate(active, free) && |free| > 0 && node == free[0]
      requires freeHead == HeadOf(free[1..]) && Chain(free[1..], null)
      requires Mirrored() && 0 <= i < |active| && first == active[i] && ChainFrom(i) && LeadsTo(node, i)
      modifies this`freeHead, active`next
      ensures Mirrored() && j == LastCovered(sky, i, right) && cur == active[j] && ChainFrom(j) && LeadsTo(node, i)
      ensures freeHead == HeadOf(SplicedFree(active, free, i, j)) && Chain(SplicedFree(active, free, i, j), null)
    {
      hide LastCovered, ValidSky, SplicedFree;
      cur, j := FreeCovered(first, right, i);
      SplicedFreeIsChain(active, free, i, j);
    }

    /** Last part: the node is linked to the first node that stays, whose left end moves to the right end. */
    method Stitch(node: Node, cur: Node, right: int, ghost i: int, ghost j: int)
      requires NoDuplicates(active) && NoDuplicates(free) && Separate(active, free) && |free| > 0 && node == free[0]
      requires Mirrored() && 0 <= i <= j < |active| && cur == active[j] && ChainFrom(j) && LeadsTo(node, i)
      requires Chain(SplicedFree(active, free, i, j), null) && 0 <= right <= 0xffff
      modifies node`next, cur`x
      ensures Chain(SplicedActive(active, free, i, j), null) && Chain(SplicedFree(active, free, i, j), null)
      ensures activeHead == SplicedActive(active, free, i, j)[0] && node.x == old(node.x)
      ensures forall m {:trigger active[m]} | 0 <= m < |active| ::
                active[m].y == sky[m].y && active[m].x == if m == j then Max(sky[m].x, right) else sky[m].x
    {
      SpliceSeparates(active, free, i, j);
      SplicedElements(active, free, i, j, i, 0);
      assert node !in SplicedFree(active, free, i, j);
      node.next := cur;
      if cur.x < right {
        cur.x := Coord(right);
      }
      SplicedIsChain(active, free, i, j);
    }

    /** The ghost fields follow the lists. */
    ghost method Adopt(i: int, j: int, k: int, x: int, w: int, top: int)
      requires NoDuplicates(active) && NoDuplicates(free) && Separate(active, free) && |free| > 0
      requires (forall n | n in active :: n in nodes) && (forall n | n in free :: n in nodes)
      requires |active| + |free| == numNodes + 2
      requires 0 <= k && Placeable(sky, width, height, k, x, w, top) && |active| == |sky|
      requires i == StartIndex(sky, k, x) && j == LastCovered(sky, i, x + w) && free[0].x == x && free[0].y == top
      requires Chain(SplicedActive(active, free, i, j), null) && Chain(SplicedFree(active, free, i, j), null)
      requires activeHead == SplicedActive(active, free, i, j)[0] && freeHead == HeadOf(SplicedFree(active, free, i, j))
      requires forall m {:trigger active[m]} | 0 <= m < |active| ::
                 active[m].y == sky[m].y && active[m].x == if m == j then Max(sky[m].x, x + w) else sky[m].x
      modifies this`active, this`free, this`sky
      ensures Linked() && Skylined() && sky == Place(old(sky), k, x, w, top)
    {
      hide Chain, NoDuplicates, Separate, Place, StartIndex, LastCovered, ValidSky;
      SpliceSeparates(active, free, i, j);
      PlaceValid(sky, width, height, k, x, w, top);
      SplicedMirrors(active, free, i, j, sky, k, x, w, top);
      active, free, sky := SplicedActive(active, free, i, j), SplicedFree(active, free, i, j), Place(sky, k, x, w, top);
    }

    /** Inserts the head of the free list as the segment of a rectangle at x, and frees the covered nodes. */
    method InsertNode(link: Link, x: int, w: int, top: int, ghost k: int)
      requires Linked() && Skylined() && 0 <= k && Placeable(sky, width, height, k, x, w, top) && link == LinkTo(k)
      requires freeHead != null
      modifies this`activeHead, this`freeHead, this`active, this`free, this`sky, nodes
      ensures Linked() && Skylined() && sky == Place(old(sky), k, x, w, top)
    {
      hide Chain, NoDuplicates, Separate, Place, StartIndex, LastCovered, ValidSky, SplicedActive, SplicedFree;
      ghost var i := StartIndex(sky, k, x);
      PlaceableCoordinates(sky, width, height, k, x, w, top);
      var node, cur := Attach(link, x, top, k, i);
      ghost var j;
      cur, j := Release(node, cur, x + w, i);
      Stitch(node, cur, x + w, i, j);
      Adopt(i, j, k, x, w, top);
    }

    /** `stbrp__skyline_pack_rectangle`. `pos` is what the search returned, `res` the answer. */
    method PackRectangle(w: int, h: int) returns (res: FindResult, ghost pos: FindResult, ghost k: int)
      requires Valid() && 1 <= w <= 0xffff && 1 <= h <= 0xffff
      requires heuristic == BestFit ==> Aligned(w, align) <= width
      modifies this`activeHead, this`freeHead, this`active, this`free, this`sky
      modifies this`placed, this`wasted, nodes
      ensures Valid()
      ensures Found(heuristic, old(sky), width, height, Aligned(w, align), h, !pos.link.Nowhere?, pos.x, pos.y, k)
      // refused when no position was found, when the one found is too high, or when all nodes are in use
      ensures res.link.Nowhere? <==> pos.link.Nowhere? || pos.y + h > height || |old(sky)| == numNodes + 2
      ensures res.link.Nowhere? ==>
                sky == old(sky) && placed == old(placed) && |free| == old(|free|) && wasted == old(wasted)
      ensures !res.link.Nowhere? ==>
                && res == pos && 0 <= k && Placeable(old(sky), width, height, k, res.x, w, res.y + h)
                && Inside(Box(res.x, res.y, w, h), width, height)
                && sky == Place(old(sky), k, res.x, w, res.y + h) && placed == old(placed) + [Box(res.x, res.y, w, h)]
      // the space lost is accounted for
      ensures !res.link.Nowhere? ==>
                && wasted == old(wasted) + Closed(old(sky), k, Box(res.x, res.y, w, h))
                && AreaUnder(sky, 0, width)
                   == AreaUnder(old(sky), 0, width) + w * h + Closed(old(sky), k, Box(res.x, res.y, w, h))
      // unless the best-fit rule rounded the width, only the columns of the rectangle are raised
      ensures !res.link.Nowhere? && (heuristic == BottomLeft || align == 1) ==>
                PlacedEnd(old(sky), k, res.x, w) == res.x + w
      // so it is refused exactly when the rounded width fits nowhere or all nodes are in use
      ensures !res.link.Nowhere? <==>
                FitsSomewhere(old(sky), width, height, Aligned(w, align), h) && |old(sky)| < numNodes + 2
      // and it rests as low as any position allows
      ensures !res.link.Nowhere? ==> res.y == RestsOn(old(sky), res.x, Aligned(w, align))
      ensures !res.link.Nowhere? ==>
                forall x | 0 <= x && x + Aligned(w, align) <= width :: res.y <= RestsOn(old(sky), x, Aligned(w, align))
    {
      hide Found, Place, FitsSomewhere, AreaUnder, Packed, Chain, NoDuplicates, Separate, RestsOn, PlacedEnd, Closed;
      hide Aligned;
      res, k := FindBestPos(w, h);
      pos := res;
      FoundIsLowest(heuristic, sky, width, height, Aligned(w, align), h, !pos.link.Nowhere?, pos.x, pos.y, k);
      if res.link.Nowhere? || res.y + h > height || freeHead == null {
        res := res.(link := Nowhere);
        return;
      }
      FoundWindow(heuristic, sky, width, height, Aligned(w, align), h, true, pos.x, pos.y, k);
      FoundMeaning(heuristic, sky, width, height, w, align, h, true, pos.x, pos.y, k);
      PlaceAt(res, Box(res.x, res.y, w, h), k);
    }

    /** Puts box b at the position found. */
    method PlaceAt(pos: FindResult, b: Box, ghost k: int)
      requires Valid() && freeHead != null && 0 <= k && Placeable(sky, width, height, k, b.x, b.w, b.y + b.h)
      requires 0 <= k < |active| && pos.link == LinkTo(k) && Inside(b, width, height)
      requires forall c | b.x <= c < b.x + b.w :: HeightAt(sky, c) <= b.y
      modifies this`activeHead, this`freeHead, this`active, this`free, this`sky
      modifies this`placed, this`wasted, nodes
      ensures Valid() && placed == old(placed) + [b] && sky == Place(old(sky), k, b.x, b.w, b.y + b.h)
      ensures wasted == old(wasted) + Closed(old(sky), k, b)
      ensures AreaUnder(sky, 0, width) == AreaUnder(old(sky), 0, width) + b.w * b.h + Closed(old(sky), k, b)
    {
      hide Chain, NoDuplicates, Separate, Packed, AreaUnder, Closed, Place, HeightAt, BoxArea, ValidSky;
      ghost var was := sky;
      InsertNode(pos.link, b.x, b.w, b.y + b.h, k);
      PlaceKeepsPacked(placed, was, width, height, k, b, sky);
      PlaceArea(was, width, height, k, b, sky);
      ClosedIsSpace(was, width, height, k, b);
      BoxAreaAppend(placed, b);
      wasted, placed := wasted + Closed(was, k, b), placed + [b];
    }

    /** The target is no larger than a 16-bit coordinate can say. */
    lemma Limits()
      requires Valid()
      ensures align >= 1 && 1 <= width <= 0xffff && 0 <= height <= 0xffff
    {
    }

    /** The rectangles placed so far lie inside the target and do not overlap. */
    lemma Safe()
      requires Valid()
      ensures Packed(placed, sky, width, height)
    {
    }

    /** The area under the skyline is that of the rectangles and the space lost, and never exceeds the target. */
    lemma Accounts()
      requires Valid()
      ensures AreaUnder(sky, 0, width) == BoxArea(placed) + wasted <= width * height && wasted >= 0
    {
      hide AreaUnder, HeightAt, BoxArea, Linked, Chain, Packed;
      forall c ensures HeightAt(sky, c) <= height { HeightBounds(sky, width, height, c); }
      AreaAtMost(sky, 0, width, height);
    }

    /** With at least as many nodes as columns, the free list is never empty and widths are not rounded. */
    lemma EnoughNodes()
      requires Valid() && width <= numNodes
      ensures |free| >= 1 && freeHead != null && DefaultAlign(width, numNodes) == 1
    {
      FewNodes(sky, width, height);
    }
  }

  lemma SplicedIsChain(a: seq<Node>, f: seq<Node>, i: int, j: int)
    requires 0 <= i <= j < |a| && |f| > 0 && f[0].next == a[j]
    requires forall m {:trigger a[m].next} | 0 <= m < i :: a[m].next == if m + 1 < i then a[m + 1] else f[0]
    requires forall m {:trigger a[m].next} | j <= m < |a| :: a[m].next == if m + 1 < |a| then a[m + 1] else null
    ensures Chain(SplicedActive(a, f, i, j), null)
  {
    var a' := SplicedActive(a, f, i, j);
    forall p | 0 <= p < |a'| ensures a'[p].next == if p + 1 < |a'| then a'[p + 1] else null {
      SplicedElements(a, f, i, j, p, 0);
      SplicedElements(a, f, i, j, p + 1, 0);
    }
  }

  lemma SplicedFreeIsChain(a: seq<Node>, f: seq<Node>, i: int, j: int)
    requires 0 <= i <= j < |a| && |f| > 0 && Chain(f[1..], null)
    requires forall m {:trigger a[m].next} | i <= m < j :: a[m].next == if i < m then a[m - 1] else HeadOf(f[1..])
    ensures Chain(SplicedFree(a, f, i, j), null)
    ensures HeadOf(SplicedFree(a, f, i, j)) == if i < j then a[j - 1] else HeadOf(f[1..])
  {
    var f' := SplicedFree(a, f, i, j);
    forall q | 0 <= q < |f'| ensures f'[q].next == if q + 1 < |f'| then f'[q + 1] else null {
      SplicedElements(a, f, i, j, 0, q);
      SplicedElements(a, f, i, j, 0, q + 1);
      if q >= j - i {
        assert f'[q] == f[1..][q - (j - i)];
      }
    }
  }

  lemma SplicedMirrors(a: seq<Node>, f: seq<Node>, i: int, j: int, sky: seq<Point>, k: int, x: int, w: int, top: int)
    requires 0 <= i <= j < |a| == |sky| && |f| > 0 && 0 <= k < |sky| - 1
    requires i == StartIndex(sky, k, x) && j == LastCovered(sky, i, x + w) && f[0].x == x && f[0].y == top
    requires forall m {:trigger a[m]} | 0 <= m < |a| ::
               a[m].y == sky[m].y && a[m].x == if m == j then Max(sky[m].x, x + w) else sky[m].x
    ensures var a', now := SplicedActive(a, f, i, j), Place(sky, k, x, w, top);
            |a'| == |now| && forall p | 0 <= p < |a'| :: now[p] == Point(a'[p].x, a'[p].y)
  {
    var a', now := SplicedActive(a, f, i, j), Place(sky, k, x, w, top);
    PlacePoints(sky, k, x, w, top);
    forall p | 0 <= p < |a'| ensures now[p] == Point(a'[p].x, a'[p].y) {
      SplicedElements(a, f, i, j, p, 0);
    }
  }

  ghost function SplicedActive(a: seq<Node>, f: seq<Node>, i: int, j: int): seq<Node>
    requires 0 <= i <= j < |a| && |f| > 0
  {
    a[..i] + [f[0]] + a[j..]
  }

  ghost function SplicedFree(a: seq<Node>, f: seq<Node>, i: int, j: int): seq<Node>
    requires 0 <= i <= j < |a| && |f| > 0
  {
    Reversed(a[i..j]) + f[1..]
  }

  /** Moving f[0] into the place of a[i..j], and a[i..j] to the front of f, keeps the lists disjoint and complete. */
  lemma SpliceSeparates(a: seq<Node>, f: seq<Node>, i: int, j: int)
    requires 0 <= i <= j < |a| && |f| > 0 && NoDuplicates(a) && NoDuplicates(f) && Separate(a, f)
    ensures NoDuplicates(SplicedActive(a, f, i, j)) && NoDuplicates(SplicedFree(a, f, i, j))
    ensures Separate(SplicedActive(a, f, i, j), SplicedFree(a, f, i, j))
    ensures |SplicedActive(a, f, i, j)| + |SplicedFree(a, f, i, j)| == |a| + |f|
    ensures forall n | n in SplicedActive(a, f, i, j) || n in SplicedFree(a, f, i, j) :: n in a || n in f
  {
    var a', f' := SplicedActive(a, f, i, j), SplicedFree(a, f, i, j);
    forall p, q | 0 <= p < |a'| && 0 <= q < |f'| ensures a'[p] != f'[q] {
      SplicedElements(a, f, i, j, p, q);
    }
  }

  lemma SplicedElements(a: seq<Node>, f: seq<Node>, i: int, j: int, p: int, q: int)
    requires 0 <= i <= j < |a| && |f| > 0
    ensures var a' := SplicedActive(a, f, i, j);
            0 <= p < |a'| ==> a'[p] == if p < i then a[p] else if p == i then f[0] else a[p - i - 1 + j]
    ensures var f' := SplicedFree(a, f, i, j);
            0 <= q < |f'| ==> f'[q] == if q < j - i then a[j - 1 - q] else f[q - (j - i) + 1]
  {}
}
