/** The rectangle records of the packer and the two orders in which they are sorted. */
module RectSorting {

  datatype Rect = Rect(id: int, w: int, h: int, x: int, y: int, wasPacked: int)

  datatype Order = ByHeight | ByOriginal

  /** `rect_height_compare` and `rect_original_order`. */
  function Compare(order: Order, p: Rect, q: Rect): int {
    match order
    case ByHeight =>
      if p.h > q.h then -1
      else if p.h < q.h then 1
      else if p.w > q.w then -1
      else if p.w < q.w then 1 else 0
    case ByOriginal =>
      if p.wasPacked < q.wasPacked then -1 else if p.wasPacked > q.wasPacked then 1 else 0
  }

  lemma CompareSwapped(order: Order, p: Rect, q: Rect)
    ensures Compare(order, p, q) > 0 <==> Compare(order, q, p) < 0
  {
  }

  lemma CompareTransitive(order: Order, p: Rect, q: Rect, r: Rect)
    requires Compare(order, p, q) <= 0 && Compare(order, q, r) <= 0
    ensures Compare(order, p, r) <= 0
  {
  }

  lemma InOrderTransitive(order: Order, p: Rect, q: Rect, r: Rect)
    requires InOrder(order, p, q) && InOrder(order, q, r)
    ensures InOrder(order, p, r)
  {
  }

  /** The first one is taller, or as tall and not narrower. */
  predicate TallFirst(p: Rect, q: Rect) {
    p.h > q.h || (p.h == q.h && p.w >= q.w)
  }

  /** What the two orders are. */
  predicate InOrder(order: Order, p: Rect, q: Rect) {
    match order
    case ByHeight => TallFirst(p, q)
    case ByOriginal => p.wasPacked <= q.wasPacked
  }

  /** The comparators decide them. */
  lemma CompareMeans(order: Order, p: Rect, q: Rect)
    ensures Compare(order, p, q) <= 0 <==> InOrder(order, p, q)
    ensures Compare(order, p, q) == 0 <==> InOrder(order, p, q) && InOrder(order, q, p)
  {
  }

  ghost predicate Sorted(order: Order, s: seq<Rect>) {
    forall i, j | 0 <= i < j < |s| :: InOrder(order, s[i], s[j])
  }

  ghost predicate Permutation(p: seq<int>, n: nat) {
    && |p| == n
    && (forall i | 0 <= i < n :: 0 <= p[i] < n)
    && forall i, j | 0 <= i < j < n :: p[i] != p[j]
  }

  /** s is t with its elements in the order p. */
  ghost predicate Rearranged(s: seq<Rect>, t: seq<Rect>, p: seq<int>) {
    |s| == |t| && Permutation(p, |t|) && forall i | 0 <= i < |s| :: s[i] == t[p[i]]
  }

  lemma SwapRearranges(s: seq<Rect>, t: seq<Rect>, p: seq<int>, j: nat)
    requires Rearranged(s, t, p) && 0 < j < |s|
    ensures |p| == |s| && Rearranged(s[j - 1 := s[j]][j := s[j - 1]], t, p[j - 1 := p[j]][j := p[j - 1]])
  {
  }

  /** Moves the last element of s[..i + 1] down into the sorted prefix. */
  method SiftDown(order: Order, a: array<Rect>, i: nat, ghost t: seq<Rect>, ghost p0: seq<int>)
    returns (ghost p: seq<int>)
    requires i < a.Length && Rearranged(a[..], t, p0) && Sorted(order, a[..i])
    modifies a
    ensures Rearranged(a[..], t, p) && Sorted(order, a[..i + 1])
  {
    hide Compare, InOrder, Rearranged;
    p := p0;
    var j := i;
    while j > 0 && Compare(order, a[j - 1], a[j]) > 0
      invariant 0 <= j <= i && Rearranged(a[..], t, p)
      invariant forall m, n | 0 <= m < n <= i && n != j :: InOrder(order, a[m], a[n])
      invariant forall n | j < n <= i :: InOrder(order, a[j], a[n])
    {
      CompareSwapped(order, a[j - 1], a[j]);
      CompareMeans(order, a[j], a[j - 1]);
      SwapRearranges(a[..], t, p, j);
      a[j - 1], a[j] := a[j], a[j - 1];
      p := p[j - 1 := p[j]][j := p[j - 1]];
      j := j - 1;
    }
    if j > 0 {
      CompareMeans(order, a[j - 1], a[j]);
    }
    forall m | 0 <= m < j ensures InOrder(order, a[m], a[j]) {
      if m < j - 1 {
        InOrderTransitive(order, a[m], a[j - 1], a[j]);
      }
    }
  }

  /** The library sort: some rearrangement in the order that the comparator decides. */
  method Sort(order: Order, a: array<Rect>) returns (ghost p: seq<int>)
    modifies a
    ensures Rearranged(a[..], old(a[..]), p) && Sorted(order, a[..])
  {
    ghost var t := a[..];
    p := seq(a.Length, i => i);
    for i := 0 to a.Length
      invariant Rearranged(a[..], t, p) && Sorted(order, a[..i])
    {
      p := SiftDown(order, a, i, t, p);
    }
    assert a[..a.Length] == a[..];
  }

  /** Distinct numbers below n in ascending order are 0, 1, 2, ... */
  lemma {:induction false} AscendingIsIdentity(s: seq<int>, n: nat, i: nat)
    requires |s| == n && i < n && (forall j | 0 <= j < n :: 0 <= s[j] < n)
    requires forall j, k | 0 <= j < k < n :: s[j] < s[k]
    ensures s[i] == i
  {
    AtLeast(s, i);
    AtMost(s, n, i);
  }

  lemma {:induction false} AtLeast(s: seq<int>, i: nat)
    requires i < |s| && s[0] >= 0 && forall j, k | 0 <= j < k < |s| :: s[j] < s[k]
    ensures s[i] >= i
  {
    if i > 0 {
      AtLeast(s, i - 1);
    }
  }

  lemma {:induction false} AtMost(s: seq<int>, n: nat, i: nat)
    requires i < n == |s| && s[n - 1] < n && forall j, k | 0 <= j < k < n :: s[j] < s[k]
    ensures s[i] <= i
    decreases n - i
  {
    if i < n - 1 {
      AtMost(s, n, i + 1);
    }
  }

  /** Sorting back by the numbers given before undoes any rearrangement in between. */
  lemma UnsortRestores(t: seq<Rect>, p: seq<int>, mid: seq<Rect>, s: seq<Rect>, q: seq<int>)
    requires Permutation(p, |t|) && |mid| == |t| && forall j | 0 <= j < |t| :: mid[j].wasPacked == p[j]
    requires Rearranged(s, mid, q) && Sorted(ByOriginal, s)
    ensures |q| == |s| && forall i | 0 <= i < |s| :: 0 <= q[i] < |t| && p[q[i]] == i && s[i] == mid[q[i]]
  {
    var keys := seq(|s|, i requires 0 <= i < |s| => s[i].wasPacked);
    assert forall i | 0 <= i < |s| :: keys[i] == p[q[i]];
    forall j, k | 0 <= j < k < |s| ensures keys[j] < keys[k] {
      assert InOrder(ByOriginal, s[j], s[k]);
      assert q[j] != q[k];
    }
    forall i | 0 <= i < |s| ensures p[q[i]] == i {
      AscendingIsIdentity(keys, |s|, i);
    }
  }
}
