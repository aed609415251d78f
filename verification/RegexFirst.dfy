/** FIRST sets of continuation stacks, the intervals they cover and the collision test between two of them. */
module RegexFirst {
  import opened RegexSyntax

  const INT64_MIN := -0x8000_0000_0000_0000
  const INT64_MAX := 0x7FFF_FFFF_FFFF_FFFF

  datatype FirstItem = CanBeAnything | Item(matcher: Matcher)

  function Characters(values: seq<Code>): (r: seq<FirstItem>)
    ensures |r| == |values|
    ensures forall i | 0 <= i < |r| :: r[i] == Item(Simple(Character(values[i])))
  {
    seq(|values|, i requires 0 <= i < |values| => Item(Simple(Character(values[i]))))
  }

  function PlainItems(items: seq<Plain>): (r: seq<FirstItem>)
    ensures |r| == |items|
    ensures forall i | 0 <= i < |r| :: r[i] == Item(Simple(items[i]))
  {
    seq(|items|, i requires 0 <= i < |items| => Item(Simple(items[i])))
  }

  function MatcherItems(members: seq<Matcher>): (r: seq<FirstItem>)
    ensures |r| == |members|
    ensures forall i | 0 <= i < |r| :: r[i] == Item(members[i])
  {
    seq(|members|, i requires 0 <= i < |members| => Item(members[i]))
  }

  /** The entries one matcher adds to a FIRST list: sets and enumerations are spread out. */
  function MatcherFirst(m: Matcher): seq<FirstItem> {
    match m
    case Simple(Enumeration(values)) => Characters(values)
    case Simple(PlainSet(items)) => PlainItems(items)
    case Set(members) => MatcherItems(members)
    case _ => [Item(m)]
  }

  /** `first(l, st)`. */
  function First(l: seq<FirstItem>, st: Stack): seq<FirstItem>
    decreases StackSize(st)
  {
    match st
    case Finish => l
    case EndCycle => l
    case Close(_, below) => First(l, below)
    case Push(re, below) =>
      match re {
        case One(m) => l + MatcherFirst(m)
        case AnyCharacter => [CanBeAnything]
        case Str(text) =>
          if |text| == 0 then First(l, below) else l + [Item(Simple(Character(text[0])))]
        case Select(Single(h)) => assert Size(re) == 2 + Size(h); First(l, Push(h, below))
        case Select(Cons(h, t)) =>
          assert Size(re) == 2 + Size(h) + SizeAll(t);
          First(First(l, Push(h, below)), Push(Select(t), below))
        case Optional(c) => PushAllSize(c, below); First(First(l, PushAll(c, below)), below)
        case LazyOptional(c) => PushAllSize(c, below); First(First(l, PushAll(c, below)), below)
        case Sequence(c) => PushAllSize(c, below); First(l, PushAll(c, below))
        case Empty => First(l, below)
        case Plus(_, c) => PushAllSize(c, below); First(l, PushAll(c, below))
        case Star(_, c) => PushAllSize(c, below); First(First(l, below), PushAll(c, below))
        case Repeat(_, a, _, c) =>
          PushAllSize(c, below);
          if a == 0 then First(First(l, below), PushAll(c, below)) else First(l, PushAll(c, below))
        case Capture(_, c) => PushAllSize(c, below); First(l, PushAll(c, below))
        case AssertBegin => First(l, below)
        case AssertEnd => l
      }
  }

  predicate ItemAccepts(item: FirstItem, c: Code) {
    match item
    case CanBeAnything => true
    case Item(m) => Accepts(m, c)
  }

  /** Some entry of the list accepts c. */
  predicate ListAccepts(l: seq<FirstItem>, c: Code) {
    exists i | 0 <= i < |l| :: ItemAccepts(l[i], c)
  }

  // ----- intervals -----

  datatype Interval = Interval(low: int, high: int)

  predicate Within(iv: Interval, c: int) {
    iv.low <= c <= iv.high
  }

  predicate Covered(ivs: seq<Interval>, c: int) {
    exists i | 0 <= i < |ivs| :: Within(ivs[i], c)
  }

  /** `negative_helper` on one matcher: the gap reported before it and the next start. */
  function Gap(low: Code, high: Code, start: int): (seq<Interval>, int) {
    (if low != INT64_MIN && start < low then [Interval(start, low - 1)] else [],
     if high != INT64_MAX then high + 1 else high)
  }

  function NegativeHelper(p: Plain, start: int): (seq<Interval>, int)
    decreases p
  {
    match p
    case Character(v) => Gap(v, v, start)
    case CharRange(low, high) => Gap(low, high, start)
    case Enumeration(values) => NegativeValues(values, start)
    case PlainSet(items) => NegativeItems(items, start)
  }

  function NegativeValues(values: seq<Code>, start: int): (seq<Interval>, int) {
    if |values| == 0 then ([], start)
    else
      var (ivs, next) := Gap(values[0], values[0], start);
      var (rest, end) := NegativeValues(values[1..], next);
      (ivs + rest, end)
  }

  function NegativeItems(items: seq<Plain>, start: int): (seq<Interval>, int)
    decreases items
  {
    if |items| == 0 then ([], start)
    else
      var (ivs, next) := NegativeHelper(items[0], start);
      var (rest, end) := NegativeItems(items[1..], next);
      (ivs + rest, end)
  }

  /** The intervals reported for a negated set. */
  function Complement(excluded: seq<Plain>): seq<Interval> {
    var (ivs, start) := NegativeItems(excluded, INT64_MIN);
    ivs + (if start < INT64_MAX then [Interval(start, INT64_MAX)] else [])
  }

  function PlainIntervals(p: Plain): seq<Interval>
    decreases p
  {
    match p
    case Character(v) => [Interval(v, v)]
    case CharRange(low, high) => [Interval(low, high)]
    case Enumeration(values) => seq(|values|, i requires 0 <= i < |values| => Interval(values[i], values[i]))
    case PlainSet(items) => PlainItemsIntervals(items)
  }

  function PlainItemsIntervals(items: seq<Plain>): seq<Interval>
    decreases items
  {
    if |items| == 0 then [] else PlainIntervals(items[0]) + PlainItemsIntervals(items[1..])
  }

  function MatcherIntervals(m: Matcher): seq<Interval>
    decreases m
  {
    match m
    case Simple(p) => PlainIntervals(p)
    case NegativeSet(excluded) => Complement(excluded)
    case Set(members) => MembersIntervals(members)
  }

  function MembersIntervals(members: seq<Matcher>): seq<Interval>
    decreases members
  {
    if |members| == 0 then [] else MatcherIntervals(members[0]) + MembersIntervals(members[1..])
  }

  function ItemIntervals(item: FirstItem): seq<Interval> {
    match item
    case CanBeAnything => [Interval(INT64_MIN, INT64_MAX)]
    case Item(m) => MatcherIntervals(m)
  }

  /** `point_set::populate` on a list: the intervals inserted, in order of insertion. */
  function Populate(l: seq<FirstItem>): seq<Interval> {
    if |l| == 0 then [] else ItemIntervals(l[0]) + Populate(l[1..])
  }

  /** The four-way test of `point_set::check`. */
  predicate Touches(r: Interval, low: int, high: int) {
    || (r.low <= low && low <= r.high)
    || (r.low <= high && high <= r.high)
    || (low <= r.low && r.low <= high)
    || (low <= r.high && r.high <= high)
  }

  predicate CheckInterval(points: seq<Interval>, iv: Interval) {
    exists i | 0 <= i < |points| :: Touches(points[i], iv.low, iv.high)
  }

  predicate CheckIntervals(points: seq<Interval>, ivs: seq<Interval>) {
    exists j | 0 <= j < |ivs| :: CheckInterval(points, ivs[j])
  }

  /** `point_set::check` on one entry of a FIRST list. */
  predicate CheckItem(points: seq<Interval>, item: FirstItem) {
    match item
    case CanBeAnything => |points| > 0
    case Item(m) => CheckIntervals(points, MatcherIntervals(m))
  }

  /** `collides`. */
  predicate Collides(rhs: seq<FirstItem>, lhs: seq<FirstItem>) {
    exists k | 0 <= k < |lhs| :: CheckItem(Populate(rhs), lhs[k])
  }

  // ----- the collision test misses no common character -----

  lemma {:induction false} CoveredAppend(a: seq<Interval>, b: seq<Interval>, c: int)
    ensures Covered(a + b, c) <==> Covered(a, c) || Covered(b, c)
  {
    forall i | 0 <= i < |a| && Within(a[i], c) ensures Covered(a + b, c) {
      assert (a + b)[i] == a[i];
    }
    forall i | 0 <= i < |b| && Within(b[i], c) ensures Covered(a + b, c) {
      assert (a + b)[|a| + i] == b[i];
    }
  }

  /** One step of `negative_helper` keeps "everything below start is covered or excluded". */
  lemma GapKeepsBelow(low: Code, high: Code, start: int, c: int)
    ensures var (ivs, next) := Gap(low, high, start);
            c < next && start <= c ==> Covered(ivs, c) || low <= c <= high
  {
    var (ivs, next) := Gap(low, high, start);
    if start <= c < next && c < low {
      assert Within(ivs[0], c);
    }
  }

  lemma {:induction false} NegativeHelperBelow(p: Plain, start: int, c: Code)
    ensures var (ivs, next) := NegativeHelper(p, start);
            start <= c < next ==> Covered(ivs, c) || PlainAccepts(p, c)
    decreases p
  {
    match p
    case Character(v) => GapKeepsBelow(v, v, start, c);
    case CharRange(low, high) => GapKeepsBelow(low, high, start, c);
    case Enumeration(values) => NegativeValuesBelow(values, start, c);
    case PlainSet(items) => NegativeItemsBelow(items, start, c);
  }

  lemma {:induction false} NegativeValuesBelow(values: seq<Code>, start: int, c: Code)
    ensures var (ivs, next) := NegativeValues(values, start);
            start <= c < next ==> Covered(ivs, c) || c in values
  {
    if |values| > 0 {
      GapKeepsBelow(values[0], values[0], start, c);
      var (ivs, next) := Gap(values[0], values[0], start);
      NegativeValuesBelow(values[1..], next, c);
      CoveredAppend(ivs, NegativeValues(values[1..], next).0, c);
    }
  }

  lemma {:induction false} NegativeItemsBelow(items: seq<Plain>, start: int, c: Code)
    ensures var (ivs, next) := NegativeItems(items, start);
            start <= c < next ==> Covered(ivs, c) || AnyPlainAccepts(items, c)
    decreases items
  {
    if |items| > 0 {
      NegativeHelperBelow(items[0], start, c);
      var (ivs, next) := NegativeHelper(items[0], start);
      NegativeItemsBelow(items[1..], next, c);
      CoveredAppend(ivs, NegativeItems(items[1..], next).0, c);
      if AnyPlainAccepts(items[1..], c) {
        var i :| 0 <= i < |items[1..]| && PlainAccepts(items[1..][i], c);
        assert PlainAccepts(items[i + 1], c);
      }
    }
  }

  lemma {:induction false} NegativeBelowMax(p: Plain, start: int)
    requires start < INT64_MAX
    ensures NegativeHelper(p, start).1 < INT64_MAX
    decreases p
  {
    match p
    case Character(_) =>
    case CharRange(_, _) =>
    case Enumeration(values) => NegativeValuesBelowMax(values, start);
    case PlainSet(items) => NegativeItemsBelowMax(items, start);
  }

  lemma {:induction false} NegativeValuesBelowMax(values: seq<Code>, start: int)
    requires start < INT64_MAX
    ensures NegativeValues(values, start).1 < INT64_MAX
  {
    if |values| > 0 {
      NegativeValuesBelowMax(values[1..], Gap(values[0], values[0], start).1);
    }
  }

  lemma {:induction false} NegativeItemsBelowMax(items: seq<Plain>, start: int)
    requires start < INT64_MAX
    ensures NegativeItems(items, start).1 < INT64_MAX
    decreases items
  {
    if |items| > 0 {
      NegativeBelowMax(items[0], start);
      NegativeItemsBelowMax(items[1..], NegativeHelper(items[0], start).1);
    }
  }

  /** The reported intervals cover every character outside the set, whatever the order of its members. */
  lemma ComplementCovers(excluded: seq<Plain>, c: Code)
    requires !AnyPlainAccepts(excluded, c)
    ensures Covered(Complement(excluded), c)
  {
    var (ivs, start) := NegativeItems(excluded, INT64_MIN);
    NegativeItemsBelow(excluded, INT64_MIN, c);
    NegativeItemsBelowMax(excluded, INT64_MIN);
    CoveredAppend(ivs, [Interval(start, INT64_MAX)], c);
    if c >= start {
      assert Within([Interval(start, INT64_MAX)][0], c);
    }
  }

  lemma {:induction false} PlainIntervalsCover(p: Plain, c: Code)
    requires PlainAccepts(p, c)
    ensures Covered(PlainIntervals(p), c)
    decreases p
  {
    match p
    case Character(v) => assert Within(PlainIntervals(p)[0], c);
    case CharRange(low, high) => assert Within(PlainIntervals(p)[0], c);
    case Enumeration(values) =>
      var i :| 0 <= i < |values| && values[i] == c;
      assert Within(PlainIntervals(p)[i], c);
    case PlainSet(items) =>
      var i :| 0 <= i < |items| && PlainAccepts(items[i], c);
      PlainItemsCover(items, i, c);
  }

  lemma {:induction false} PlainItemsCover(items: seq<Plain>, i: nat, c: Code)
    requires i < |items| && PlainAccepts(items[i], c)
    ensures Covered(PlainItemsIntervals(items), c)
    decreases items
  {
    CoveredAppend(PlainIntervals(items[0]), PlainItemsIntervals(items[1..]), c);
    if i == 0 {
      PlainIntervalsCover(items[0], c);
    } else {
      PlainItemsCover(items[1..], i - 1, c);
    }
  }

  lemma {:induction false} MatcherIntervalsCover(m: Matcher, c: Code)
    requires Accepts(m, c)
    ensures Covered(MatcherIntervals(m), c)
    decreases m
  {
    match m
    case Simple(p) => PlainIntervalsCover(p, c);
    case NegativeSet(excluded) => ComplementCovers(excluded, c);
    case Set(members) =>
      var i :| 0 <= i < |members| && Accepts(members[i], c);
      MembersCover(members, i, c);
  }

  lemma {:induction false} MembersCover(members: seq<Matcher>, i: nat, c: Code)
    requires i < |members| && Accepts(members[i], c)
    ensures Covered(MembersIntervals(members), c)
    decreases members
  {
    CoveredAppend(MatcherIntervals(members[0]), MembersIntervals(members[1..]), c);
    if i == 0 {
      MatcherIntervalsCover(members[0], c);
    } else {
      MembersCover(members[1..], i - 1, c);
    }
  }

  lemma {:induction false} PopulateCovers(l: seq<FirstItem>, i: nat, c: Code)
    requires i < |l| && ItemAccepts(l[i], c)
    ensures Covered(Populate(l), c)
  {
    CoveredAppend(ItemIntervals(l[0]), Populate(l[1..]), c);
    if i == 0 {
      match l[0]
      case CanBeAnything => assert Within(ItemIntervals(l[0])[0], c);
      case Item(m) => MatcherIntervalsCover(m, c);
    } else {
      PopulateCovers(l[1..], i - 1, c);
    }
  }

  /** When `collides` answers false, no character satisfies a matcher of each list. */
  lemma CollidesMissesNothing(rhs: seq<FirstItem>, lhs: seq<FirstItem>, c: Code)
    requires ListAccepts(rhs, c) && ListAccepts(lhs, c)
    ensures Collides(rhs, lhs)
  {
    var i :| 0 <= i < |rhs| && ItemAccepts(rhs[i], c);
    PopulateCovers(rhs, i, c);
    var points := Populate(rhs);
    var p :| 0 <= p < |points| && Within(points[p], c);
    var k :| 0 <= k < |lhs| && ItemAccepts(lhs[k], c);
    match lhs[k]
    case CanBeAnything => assert CheckItem(points, lhs[k]);
    case Item(m) =>
      MatcherIntervalsCover(m, c);
      var ivs := MatcherIntervals(m);
      var j :| 0 <= j < |ivs| && Within(ivs[j], c);
      assert Touches(points[p], ivs[j].low, ivs[j].high);
      assert CheckInterval(points, ivs[j]);
      assert CheckItem(points, lhs[k]);
  }
}
