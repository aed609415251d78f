/** The fixed-capacity sorted set of intervals behind the collision test. */
module PointSets {
  import opened RegexSyntax
  import opened RegexFirst

  predicate SortedByLow(points: seq<Interval>) {
    forall i, j | 0 <= i < j < |points| :: points[i].low <= points[j].low
  }

  /** obj stands before the first point whose low is not smaller. */
  predicate LowerBoundAt(points: seq<Interval>, low: int, k: nat) {
    && k <= |points|
    && (forall i | 0 <= i < k :: points[i].low < low)
    && (forall i | k <= i < |points| :: low <= points[i].low)
  }

  function InsertedAt(points: seq<Interval>, k: nat, iv: Interval): (r: seq<Interval>)
    requires k <= |points|
    ensures |r| == |points| + 1
    ensures forall i | 0 <= i < |r| :: r[i] == if i < k then points[i] else if i == k then iv else points[i - 1]
  {
    points[..k] + [iv] + points[k..]
  }

  lemma InsertKeepsOrder(points: seq<Interval>, k: nat, iv: Interval)
    requires SortedByLow(points) && LowerBoundAt(points, iv.low, k)
    ensures SortedByLow(InsertedAt(points, k, iv))
  {}

  lemma InsertKeepsMembers(points: seq<Interval>, k: nat, ivs: seq<Interval>, i: nat)
    requires k <= |points| && i < |ivs| && multiset(points) == multiset(ivs[..i])
    ensures multiset(InsertedAt(points, k, ivs[i])) == multiset(ivs[..i + 1])
  {
    assert points == points[..k] + points[k..];
    assert ivs[..i + 1] == ivs[..i] + [ivs[i]];
  }

  class PointSet {
    const points: array<Interval>
    var used: nat

    ghost predicate Valid()
      reads this, points
    {
      used <= points.Length && SortedByLow(Contents())
    }

    ghost function Contents(): seq<Interval>
      requires used <= points.Length
      reads this, points
    {
      points[..used]
    }

    constructor (capacity: nat)
      ensures Valid() && fresh(points) && points.Length == capacity + 1 && Contents() == []
    {
      points := new Interval[capacity + 1](_ => Interval(0, 0));
      used := 0;
    }

    /** The binary search of `lower_bound`. */
    method LowerBound(low: int) returns (it: nat)
      requires Valid()
      ensures LowerBoundAt(Contents(), low, it)
    {
      var first: nat, count: nat := 0, used;
      it := first;
      while count > 0
        invariant first + count <= used && first <= it
        invariant forall i | 0 <= i < first :: points[i].low < low
        invariant forall i | first + count <= i < used :: low <= points[i].low
        invariant count == 0 ==> it == first
      {
        var step := count / 2;
        it := first + step;
        assert points[it] == Contents()[it];
        if points[it].low < low {
          forall i | 0 <= i <= it ensures points[i].low < low {
            assert Contents()[i].low <= Contents()[it].low;
          }
          it := it + 1;
          first := it;
          count := count - (step + 1);
        } else {
          forall i | it <= i < used ensures low <= points[i].low {
            assert Contents()[it].low <= Contents()[i].low;
          }
          count := step;
        }
      }
    }

    /** Puts obj at place k; the points from k on move up by one place. */
    method Shift(k: nat, point: Interval)
      requires k <= used < points.Length
      modifies this, points
      ensures used == old(used) + 1
      ensures Contents() == InsertedAt(old(Contents()), k, point)
    {
      ghost var was := points[..used];
      var obj := point;
      var it: nat := k;
      while it != used
        invariant k <= it <= used && used == |was|
        invariant forall i | 0 <= i < k || it <= i < used :: points[i] == was[i]
        invariant it == k ==> obj == point
        invariant it > k ==> obj == was[it - 1] && points[k] == point
        invariant forall i | k < i < it :: points[i] == was[i - 1]
      {
        var tmp := points[it];
        points[it] := obj;
        obj := tmp;
        it := it + 1;
      }
      points[it] := obj;
      used := used + 1;
    }

    /** `insert`: the new point goes to its lower bound. */
    method Insert(low: int, high: int) returns (k: nat)
      requires Valid() && used < points.Length
      modifies this, points
      ensures Valid() && used == old(used) + 1
      ensures LowerBoundAt(old(Contents()), low, k) && Contents() == InsertedAt(old(Contents()), k, Interval(low, high))
    {
      k := LowerBound(low);
      InsertKeepsOrder(Contents(), k, Interval(low, high));
      Shift(k, Interval(low, high));
    }

    /** `check(low, high)`. */
    method Check(low: int, high: int) returns (hit: bool)
      requires Valid()
      ensures hit == CheckInterval(Contents(), Interval(low, high))
    {
      for i := 0 to used
        invariant forall j | 0 <= j < i :: !Touches(points[j], low, high)
      {
        if Touches(points[i], low, high) {
          assert Contents()[i] == points[i];
          return true;
        }
      }
      hit := false;
    }

    /** `populate`: all intervals of a FIRST list are inserted, in order. */
    method PopulateFrom(l: seq<FirstItem>)
      requires Valid() && Contents() == [] && |Populate(l)| <= points.Length
      modifies this, points
      ensures Valid() && multiset(Contents()) == multiset(Populate(l))
    {
      var ivs := Populate(l);
      for i := 0 to |ivs|
        invariant Valid() && used == i
        invariant multiset(Contents()) == multiset(ivs[..i])
      {
        ghost var was := Contents();
        var k := Insert(ivs[i].low, ivs[i].high);
        InsertKeepsMembers(was, k, ivs, i);
      }
      assert ivs[..|ivs|] == ivs;
    }

    /** `check` on a FIRST list. */
    method CheckList(l: seq<FirstItem>) returns (hit: bool)
      requires Valid()
      ensures hit == exists k | 0 <= k < |l| :: CheckItem(Contents(), l[k])
    {
      for k := 0 to |l|
        invariant forall j | 0 <= j < k :: !CheckItem(Contents(), l[j])
      {
        var one := CheckOne(l[k]);
        if one {
          return true;
        }
      }
      hit := false;
    }

    method CheckOne(item: FirstItem) returns (hit: bool)
      requires Valid()
      ensures hit == CheckItem(Contents(), item)
    {
      match item
      case CanBeAnything => hit := used > 0;
      case Item(m) =>
        hit := false;
        var ivs := MatcherIntervals(m);
        for j := 0 to |ivs|
          invariant hit == exists i | 0 <= i < j :: CheckInterval(Contents(), ivs[i])
        {
          var one := Check(ivs[j].low, ivs[j].high);
          hit := hit || one;
        }
    }
  }

  /** The answer of the check depends on which intervals are stored, not on their order. */
  lemma CheckIgnoresOrder(a: seq<Interval>, b: seq<Interval>, item: FirstItem)
    requires multiset(a) == multiset(b)
    ensures CheckItem(a, item) == CheckItem(b, item)
  {
    assert |a| == |multiset(a)| == |b|;
    forall iv ensures CheckInterval(a, iv) == CheckInterval(b, iv) {
      CheckOrderHalf(a, b, iv);
      CheckOrderHalf(b, a, iv);
    }
  }

  lemma CheckOrderHalf(a: seq<Interval>, b: seq<Interval>, iv: Interval)
    requires multiset(a) == multiset(b)
    ensures CheckInterval(a, iv) ==> CheckInterval(b, iv)
  {
    if CheckInterval(a, iv) {
      var i :| 0 <= i < |a| && Touches(a[i], iv.low, iv.high);
      assert a[i] in multiset(b);
      var j :| 0 <= j < |b| && b[j] == a[i];
    }
  }

  /** `collides`, on the sorted array. */
  method CollidesOnPoints(rhs: seq<FirstItem>, lhs: seq<FirstItem>) returns (hit: bool)
    requires |Populate(rhs)| <= FirstSize(rhs) + 1
    ensures hit == Collides(rhs, lhs)
  {
    var points := new PointSet(FirstSize(rhs));
    points.PopulateFrom(rhs);
    hit := points.CheckList(lhs);
    forall k | 0 <= k < |lhs| ensures CheckItem(points.Contents(), lhs[k]) == CheckItem(Populate(rhs), lhs[k]) {
      CheckIgnoresOrder(points.Contents(), Populate(rhs), lhs[k]);
    }
  }

  /** On non-empty intervals the four-way test is exactly "the intervals have a common point". */
  lemma TouchesIsOverlap(r: Interval, low: int, high: int)
    requires r.low <= r.high && low <= high
    ensures Touches(r, low, high) <==> exists c :: Within(r, c) && Within(Interval(low, high), c)
  {
    if Touches(r, low, high) {
      var c := if r.low <= low then low else r.low;
      assert Within(r, c) && Within(Interval(low, high), c);
    }
  }

  // ----- the capacity computed beforehand -----

  function PlainSize(p: Plain): nat
    decreases p
  {
    match p
    case Enumeration(values) => |values|
    case PlainSet(items) => PlainSizes(items)
    case _ => 1
  }

  function PlainSizes(items: seq<Plain>): nat
    decreases items
  {
    if |items| == 0 then 0 else PlainSize(items[0]) + PlainSizes(items[1..])
  }

  /** `calculate_size_of_first` of a matcher: a negated set counts one more than its members. */
  function MatcherSize(m: Matcher): nat
    decreases m
  {
    match m
    case Simple(p) => PlainSize(p)
    case NegativeSet(excluded) => 1 + |excluded|
    case Set(members) => MatcherSizes(members)
  }

  function MatcherSizes(members: seq<Matcher>): nat
    decreases members
  {
    if |members| == 0 then 0 else MatcherSize(members[0]) + MatcherSizes(members[1..])
  }

  /** `calculate_size_of_first` of a FIRST list. */
  function FirstSize(l: seq<FirstItem>): nat {
    if |l| == 0 then 0 else (if l[0].Item? then MatcherSize(l[0].matcher) else 1) + FirstSize(l[1..])
  }

  /** Negated sets hold single characters and ranges only. */
  predicate Flat(m: Matcher)
    decreases m
  {
    match m
    case Simple(_) => true
    case NegativeSet(excluded) => forall i | 0 <= i < |excluded| :: excluded[i].Character? || excluded[i].CharRange?
    case Set(members) => forall i | 0 <= i < |members| :: Flat(members[i])
  }

  predicate FlatList(l: seq<FirstItem>) {
    forall i | 0 <= i < |l| && l[i].Item? :: Flat(l[i].matcher)
  }

  lemma {:induction false} PlainFits(p: Plain)
    ensures |PlainIntervals(p)| == PlainSize(p)
    decreases p
  {
    match p
    case PlainSet(items) => PlainItemsFit(items);
    case _ =>
  }

  lemma {:induction false} PlainItemsFit(items: seq<Plain>)
    ensures |PlainItemsIntervals(items)| == PlainSizes(items)
    decreases items
  {
    if |items| > 0 {
      PlainFits(items[0]);
      PlainItemsFit(items[1..]);
    }
  }

  lemma {:induction false} GapsFit(excluded: seq<Plain>, start: int)
    requires forall i | 0 <= i < |excluded| :: excluded[i].Character? || excluded[i].CharRange?
    ensures |NegativeItems(excluded, start).0| <= |excluded|
  {
    if |excluded| > 0 {
      GapsFit(excluded[1..], NegativeHelper(excluded[0], start).1);
    }
  }

  lemma {:induction false} MatcherFits(m: Matcher)
    requires Flat(m)
    ensures |MatcherIntervals(m)| <= MatcherSize(m)
    decreases m
  {
    match m
    case Simple(p) => PlainFits(p);
    case NegativeSet(excluded) => GapsFit(excluded, INT64_MIN);
    case Set(members) => MembersFit(members);
  }

  lemma {:induction false} MembersFit(members: seq<Matcher>)
    requires forall i | 0 <= i < |members| :: Flat(members[i])
    ensures |MembersIntervals(members)| <= MatcherSizes(members)
    decreases members
  {
    if |members| > 0 {
      MatcherFits(members[0]);
      MembersFit(members[1..]);
    }
  }

  /** For flat lists the computed capacity is never exceeded. */
  lemma {:induction false} FlatListFits(l: seq<FirstItem>)
    requires FlatList(l)
    ensures |Populate(l)| <= FirstSize(l)
  {
    if |l| > 0 {
      if l[0].Item? {
        MatcherFits(l[0].matcher);
      }
      FlatListFits(l[1..]);
    }
  }

  /** Every negated set in the tree is flat. */
  predicate FlatTree(re: Re)
    decreases re
  {
    match re
    case One(m) => Flat(m)
    case Select(c) => FlatTrees(c)
    case Optional(c) => FlatTrees(c)
    case LazyOptional(c) => FlatTrees(c)
    case Sequence(c) => FlatTrees(c)
    case Plus(_, c) => FlatTrees(c)
    case Star(_, c) => FlatTrees(c)
    case Repeat(_, _, _, c) => FlatTrees(c)
    case Capture(_, c) => FlatTrees(c)
    case _ => true
  }

  predicate FlatTrees(c: Res)
    decreases c
  {
    match c
    case Single(re) => FlatTree(re)
    case Cons(h, t) => FlatTree(h) && FlatTrees(t)
  }

  predicate FlatStack(st: Stack) {
    match st
    case Finish => true
    case EndCycle => true
    case Close(_, below) => FlatStack(below)
    case Push(re, below) => FlatTree(re) && FlatStack(below)
  }

  lemma {:induction false} FlatPushAll(c: Res, st: Stack)
    requires FlatTrees(c) && FlatStack(st)
    ensures FlatStack(PushAll(c, st))
    decreases c
  {
    match c
    case Single(_) =>
    case Cons(_, t) => FlatPushAll(t, st);
  }

  lemma FlatAppend(l: seq<FirstItem>, m: seq<FirstItem>)
    requires FlatList(l) && FlatList(m)
    ensures FlatList(l + m)
  {}

  /** FIRST of a flat stack is a flat list. */
  lemma {:induction false} FirstOfFlat(l: seq<FirstItem>, st: Stack)
    requires FlatList(l) && FlatStack(st)
    ensures FlatList(First(l, st))
    decreases StackSize(st), 1
  {
    hide FlatList, FlatTree;
    match st
    case Finish =>
    case EndCycle =>
    case Close(_, below) => FirstOfFlat(l, below);
    case Push(re, below) =>
      match re {
        case One(m) =>
          FlatMatcherFirst(m);
          FlatAppend(l, MatcherFirst(m));
        case AnyCharacter => FlatItem(CanBeAnything);
        case Str(text) =>
          if |text| == 0 {
            FirstOfFlat(l, below);
          } else {
            FlatItem(Item(Simple(Character(text[0]))));
            FlatAppend(l, [Item(Simple(Character(text[0])))]);
          }
        case Select(c) => FirstOfFlatSelect(l, c, below);
        case Empty => FirstOfFlat(l, below);
        case AssertBegin => FirstOfFlat(l, below);
        case AssertEnd =>
        case _ => FirstOfFlatContent(l, re, below);
      }
  }

  lemma {:induction false} FirstOfFlatSelect(l: seq<FirstItem>, c: Res, below: Stack)
    requires FlatList(l) && FlatTree(Select(c)) && FlatStack(below)
    ensures FlatList(First(l, Push(Select(c), below)))
    decreases 1 + SizeAll(c) + StackSize(below), 0
  {
    hide FlatList;
    match c
    case Single(h) => FirstOfFlat(l, Push(h, below));
    case Cons(h, t) =>
      FirstOfFlat(l, Push(h, below));
      FirstOfFlatSelect(First(l, Push(h, below)), t, below);
  }

  lemma {:induction false} FirstOfFlatContent(l: seq<FirstItem>, re: Re, below: Stack)
    requires HasContent(re) && FlatList(l) && FlatTree(re) && FlatStack(below)
    ensures FlatList(First(l, Push(re, below)))
    decreases Size(re) + StackSize(below), 0
  {
    hide FlatList;
    var all := PushAll(re.content, below);
    PushAllSize(re.content, below);
    FlatPushAll(re.content, below);
    FirstOfFlat(l, all);
    FirstOfFlat(First(l, all), below);
    FirstOfFlat(l, below);
    FirstOfFlat(First(l, below), all);
  }

  lemma FlatItem(item: FirstItem)
    requires item.Item? ==> Flat(item.matcher)
    ensures FlatList([item])
  {}

  lemma FlatMatcherFirst(m: Matcher)
    requires FlatTree(One(m))
    ensures FlatList(MatcherFirst(m))
  {}

  /** So the array that the collision test of a repeat fills is large enough when the body of the repeat is flat. */
  lemma FlatBodyFits(c: Res)
    requires FlatTrees(c)
    ensures var rhs := First([], PushAll(c, EndCycle)); |Populate(rhs)| <= FirstSize(rhs)
  {
    FlatPushAll(c, EndCycle);
    FirstOfFlat([], PushAll(c, EndCycle));
    FlatListFits(First([], PushAll(c, EndCycle)));
  }

  /** Flatness is needed: the complement of the word characters reports four intervals where the array holds three. */
  lemma NonWordOverflows()
    ensures var l := [Item(NegativeSet([WORD_CHARS]))];
            |Populate(l)| == 4 && FirstSize(l) + 1 == 3
  {
    var items := WORD_CHARS.items;
    var (g0, n0) := NegativeHelper(items[0], INT64_MIN);
    var (g1, n1) := NegativeHelper(items[1], n0);
    var (g2, n2) := NegativeHelper(items[2], n1);
    var (g3, n3) := NegativeHelper(items[3], n2);
    assert (|g0|, |g1|, |g2|, |g3|) == (1, 1, 0, 1);
    assert items[1..][1..] == items[2..] && items[2..][1..] == items[3..] && items[3..][1..] == [];
    assert NegativeItems(items[3..], n2) == (g3, n3) by { assert g3 + [] == g3; }
    assert NegativeItems(items[2..], n1) == (g2 + g3, n3);
    assert NegativeItems(items[1..], n0) == (g1 + (g2 + g3), n3);
    assert NegativeItems(items, INT64_MIN) == (g0 + (g1 + (g2 + g3)), n3);
    var outer := [WORD_CHARS];
    assert outer[1..] == [];
    assert NegativeHelper(outer[0], INT64_MIN) == NegativeItems(items, INT64_MIN);
    assert |NegativeItems(outer, INT64_MIN).0| == 3;
    assert |Complement(outer)| == 4;
    var l := [Item(NegativeSet(outer))];
    assert l[1..] == [];
    assert Populate(l[1..]) == [];
  }
}
