/** The converse side of the FIRST sets and of the collision test: nothing is listed that cannot come first, and lists
    of sets in ascending order collide only when they have a character in common. */
module RegexFirstExact {
  import opened RegexSyntax
  import opened RegexFirst
  import opened RegexMatcher
  import opened RegexPossessive

  // ----- what can come first -----

  /** A span of re may begin with c, as far as its shape tells. */
  predicate StartsWith(re: Re, c: Code)
    decreases re
  {
    match re
    case One(m) => Accepts(m, c)
    case AnyCharacter => true
    case Str(text) => |text| > 0 && text[0] == c
    case Select(options) => SomeStartsWith(options, c)
    case Optional(content) => AllStartWith(content, c)
    case LazyOptional(content) => AllStartWith(content, c)
    case Sequence(content) => AllStartWith(content, c)
    case Plus(_, content) => AllStartWith(content, c)
    case Star(_, content) => AllStartWith(content, c)
    case Repeat(_, _, _, content) => AllStartWith(content, c)
    case Capture(_, content) => AllStartWith(content, c)
    case _ => false
  }

  predicate SomeStartsWith(options: Res, c: Code)
    decreases options
  {
    match options
    case Single(re) => StartsWith(re, c)
    case Cons(h, t) => StartsWith(h, c) || SomeStartsWith(t, c)
  }

  predicate AllStartWith(content: Res, c: Code)
    decreases content
  {
    match content
    case Single(re) => StartsWith(re, c)
    case Cons(h, t) => StartsWith(h, c) || (MayBeEmpty(h) && AllStartWith(t, c))
  }

  predicate StackStartsWith(st: Stack, c: Code) {
    match st
    case Finish => false
    case EndCycle => false
    case Close(_, below) => StackStartsWith(below, c)
    case Push(re, below) => StartsWith(re, c) || (MayBeEmpty(re) && StackStartsWith(below, c))
  }

  lemma {:induction false} PushAllStartsWith(content: Res, below: Stack, c: Code)
    ensures StackStartsWith(PushAll(content, below), c)
       <==> AllStartWith(content, c) || (MayBeEmptyEach(content) && StackStartsWith(below, c))
    decreases content
  {
    match content
    case Single(_) =>
    case Cons(_, t) => PushAllStartsWith(t, below, c);
  }

  lemma MatcherFirstExact(m: Matcher, c: Code)
    ensures ListAccepts(MatcherFirst(m), c) <==> Accepts(m, c)
  {
    var l := MatcherFirst(m);
    match m
    case Simple(Enumeration(values)) =>
      if c in values {
        var i :| 0 <= i < |values| && values[i] == c;
        assert ItemAccepts(l[i], c);
      }
    case Simple(PlainSet(items)) =>
      if i :| 0 <= i < |items| && PlainAccepts(items[i], c) {
        assert ItemAccepts(l[i], c);
      }
    case Set(members) =>
      if i :| 0 <= i < |members| && Accepts(members[i], c) {
        assert ItemAccepts(l[i], c);
      }
    case _ => assert ItemAccepts(l[0], c) <==> Accepts(m, c);
  }

  /** `first` adds to a list exactly what can come first on the stack. */
  lemma {:induction false} FirstIsExact(l: seq<FirstItem>, st: Stack, c: Code)
    ensures ListAccepts(First(l, st), c) <==> ListAccepts(l, c) || StackStartsWith(st, c)
    decreases StackSize(st), 1
  {
    hide ListAccepts, Accepts;
    match st
    case Finish =>
    case EndCycle =>
    case Close(_, below) => FirstIsExact(l, below, c);
    case Push(re, below) =>
      match re {
        case One(m) =>
          AcceptsAppend(l, MatcherFirst(m), c);
          MatcherFirstExact(m, c);
        case AnyCharacter => OneItem(CanBeAnything, c);
        case Str(text) =>
          if |text| == 0 {
            FirstIsExact(l, below, c);
          } else {
            var item := Item(Simple(Character(text[0])));
            AcceptsAppend(l, [item], c);
            OneItem(item, c);
          }
        case Select(options) => FirstIsExactSelect(l, options, below, c);
        case Empty => FirstIsExact(l, below, c);
        case AssertBegin => FirstIsExact(l, below, c);
        case AssertEnd =>
        case _ => FirstIsExactContent(l, re, below, c);
      }
  }

  lemma OneItem(item: FirstItem, c: Code)
    ensures ListAccepts([item], c) <==> (item.Item? ==> Accepts(item.matcher, c))
    ensures item == Item(Simple(Character(c))) ==> ListAccepts([item], c)
    ensures forall v | item == Item(Simple(Character(v))) :: ListAccepts([item], c) <==> v == c
  {
    assert ItemAccepts([item][0], c) <==> (item.Item? ==> Accepts(item.matcher, c));
  }

  lemma SelectStartsWith(options: Res, below: Stack, c: Code)
    ensures StackStartsWith(Push(Select(options), below), c)
       <==> SomeStartsWith(options, c) || (MayBeEmptySome(options) && StackStartsWith(below, c))
  {
    assert StartsWith(Select(options), c) == SomeStartsWith(options, c);
    assert MayBeEmpty(Select(options)) == MayBeEmptySome(options);
  }

  lemma {:induction false} FirstIsExactSelect(l: seq<FirstItem>, options: Res, below: Stack, c: Code)
    ensures ListAccepts(First(l, Push(Select(options), below)), c)
       <==> ListAccepts(l, c) || StackStartsWith(Push(Select(options), below), c)
    decreases 1 + SizeAll(options) + StackSize(below), 0
  {
    hide ListAccepts;
    SelectStartsWith(options, below, c);
    match options
    case Single(h) => FirstIsExact(l, Push(h, below), c);
    case Cons(h, t) =>
      FirstIsExact(l, Push(h, below), c);
      FirstIsExactSelect(First(l, Push(h, below)), t, below, c);
      SelectStartsWith(t, below, c);
  }

  lemma {:induction false} FirstIsExactContent(l: seq<FirstItem>, re: Re, below: Stack, c: Code)
    requires HasContent(re)
    ensures ListAccepts(First(l, Push(re, below)), c) <==> ListAccepts(l, c) || StackStartsWith(Push(re, below), c)
    decreases Size(re) + StackSize(below), 0
  {
    hide ListAccepts;
    var all := PushAll(re.content, below);
    PushAllSize(re.content, below);
    PushAllStartsWith(re.content, below, c);
    FirstIsExact(l, all, c);
    FirstIsExact(First(l, all), below, c);
    FirstIsExact(l, below, c);
    FirstIsExact(First(l, below), all, c);
  }

  // ----- what the intervals cover -----

  /** The characters that a code can be. */
  const CODE_MIN := -0x8000_0000
  const CODE_MAX := 0xFFFF_FFFF

  /** Not empty, and not beyond all characters. */
  predicate Proper(iv: Interval) {
    iv.low <= iv.high && iv.low <= CODE_MAX && CODE_MIN <= iv.high
  }

  predicate AllProper(ivs: seq<Interval>) {
    forall i | 0 <= i < |ivs| :: Proper(ivs[i])
  }

  /** The members are not empty and come in ascending order, without overlap and short of the ends of the range. */
  predicate Ascending(ivs: seq<Interval>) {
    && (forall i | 0 <= i < |ivs| :: CODE_MIN < ivs[i].low <= ivs[i].high < CODE_MAX)
    && (forall i, j | 0 <= i < j < |ivs| :: ivs[i].high < ivs[j].low)
  }

  /** Ranges are not empty, and the members of negated sets ascend. */
  predicate Orderly(m: Matcher)
    decreases m
  {
    match m
    case Simple(p) => AllProper(PlainIntervals(p))
    case NegativeSet(excluded) => Ascending(PlainItemsIntervals(excluded))
    case Set(members) => forall i | 0 <= i < |members| :: Orderly(members[i])
  }

  predicate OrderlyList(l: seq<FirstItem>) {
    forall i | 0 <= i < |l| && l[i].Item? :: Orderly(l[i].matcher)
  }

  /** The gaps before the given intervals, from start on, and where the last one ends. */
  function Gaps(ivs: seq<Interval>, start: int): (seq<Interval>, int)
    decreases |ivs|
  {
    if |ivs| == 0 then ([], start)
    else
      var (rest, end) := Gaps(ivs[1..], ivs[0].high + 1);
      ((if start < ivs[0].low then [Interval(start, ivs[0].low - 1)] else []) + rest, end)
  }

  lemma {:induction false} GapsAppend(a: seq<Interval>, b: seq<Interval>, start: int)
    ensures var (g, m) := Gaps(a, start);
            Gaps(a + b, start) == (g + Gaps(b, m).0, Gaps(b, m).1)
    decreases |a|
  {
    if |a| == 0 {
      assert a + b == b;
      assert [] + Gaps(b, start).0 == Gaps(b, start).0;
    } else {
      assert (a + b)[1..] == a[1..] + b;
      GapsAppend(a[1..], b, a[0].high + 1);
      var g0 := if start < a[0].low then [Interval(start, a[0].low - 1)] else [];
      var (g1, m) := Gaps(a[1..], a[0].high + 1);
      assert g0 + g1 + Gaps(b, m).0 == g0 + (g1 + Gaps(b, m).0);
    }
  }

  lemma GapsOne(iv: Interval, start: int)
    ensures Gaps([iv], start)
         == (if start < iv.low then [Interval(start, iv.low - 1)] else [], iv.high + 1)
  {
    assert [iv][1..] == [];
    var gap := if start < iv.low then [Interval(start, iv.low - 1)] else [];
    assert gap + [] == gap;
  }

  /** The walk over a negated set reports the gaps between its members. */
  lemma {:induction false} NegativeHelperGaps(p: Plain, start: int)
    ensures NegativeHelper(p, start) == Gaps(PlainIntervals(p), start)
    decreases p
  {
    match p
    case Character(v) => GapsOne(Interval(v, v), start);
    case CharRange(low, high) => GapsOne(Interval(low, high), start);
    case Enumeration(values) => NegativeValuesGaps(values, start);
    case PlainSet(items) => NegativeItemsGaps(items, start);
  }

  lemma {:induction false} NegativeValuesGaps(values: seq<Code>, start: int)
    ensures NegativeValues(values, start) == Gaps(PlainIntervals(Enumeration(values)), start)
  {
    if |values| > 0 {
      var ivs := PlainIntervals(Enumeration(values));
      assert ivs[1..] == PlainIntervals(Enumeration(values[1..]));
      var first: int := values[0];
      NegativeValuesGaps(values[1..], first + 1);
    }
  }

  lemma {:induction false} NegativeItemsGaps(items: seq<Plain>, start: int)
    ensures NegativeItems(items, start) == Gaps(PlainItemsIntervals(items), start)
    decreases items
  {
    if |items| > 0 {
      NegativeHelperGaps(items[0], start);
      NegativeItemsGaps(items[1..], NegativeHelper(items[0], start).1);
      GapsAppend(PlainIntervals(items[0]), PlainItemsIntervals(items[1..]), start);
    }
  }

  /** A gap is proper and touches none of the members, and what comes after the last one does neither. */
  lemma {:induction false} GapsMiss(ivs: seq<Interval>, start: int, c: int)
    requires Ascending(ivs) && start <= CODE_MAX && (forall i | 0 <= i < |ivs| :: start <= ivs[i].low)
    ensures var (gaps, end) := Gaps(ivs, start);
            && AllProper(gaps) && start <= end <= CODE_MAX && (|ivs| > 0 ==> CODE_MIN < end)
            && (Covered(gaps, c) ==> start <= c && !Covered(ivs, c))
            && (end <= c ==> !Covered(ivs, c))
    decreases |ivs|
  {
    hide Covered;
    NothingCovered(c);
    if |ivs| > 0 {
      var iv, rest := ivs[0], ivs[1..];
      var gap := if start < iv.low then [Interval(start, iv.low - 1)] else [];
      assert forall i | 0 <= i < |rest| :: rest[i] == ivs[i + 1];
      GapsMiss(rest, iv.high + 1, c);
      CoveredAppend(gap, Gaps(rest, iv.high + 1).0, c);
      CoveredAppend([iv], rest, c);
      assert ivs == [iv] + rest;
      OneCovered(iv, c);
      OneCovered(Interval(start, iv.low - 1), c);
      if c <= iv.high {
        NoneBelow(rest, c);
      }
    }
  }

  lemma NothingCovered(c: int)
    ensures !Covered([], c)
  {
  }

  lemma OneCovered(iv: Interval, c: int)
    ensures Covered([iv], c) <==> Within(iv, c)
  {
    assert Within([iv][0], c) <==> Within(iv, c);
  }

  lemma NoneBelow(ivs: seq<Interval>, c: int)
    requires forall i | 0 <= i < |ivs| :: c < ivs[i].low
    ensures !Covered(ivs, c)
  {
  }

  lemma {:induction false} PlainIntervalsExact(p: Plain, c: Code)
    ensures Covered(PlainIntervals(p), c) <==> PlainAccepts(p, c)
    decreases p
  {
    var ivs := PlainIntervals(p);
    match p
    case Character(v) => assert Within(ivs[0], c) <==> c == v;
    case CharRange(low, high) => assert Within(ivs[0], c) <==> low <= c <= high;
    case Enumeration(values) =>
      assert forall i | 0 <= i < |values| :: Within(ivs[i], c) <==> values[i] == c;
    case PlainSet(items) => PlainItemsExact(items, c);
  }

  lemma {:induction false} PlainItemsExact(items: seq<Plain>, c: Code)
    ensures Covered(PlainItemsIntervals(items), c) <==> AnyPlainAccepts(items, c)
    decreases items
  {
    if |items| > 0 {
      PlainIntervalsExact(items[0], c);
      PlainItemsExact(items[1..], c);
      CoveredAppend(PlainIntervals(items[0]), PlainItemsIntervals(items[1..]), c);
      assert forall i | 0 <= i < |items[1..]| :: items[1..][i] == items[i + 1];
      if AnyPlainAccepts(items, c) && !PlainAccepts(items[0], c) {
        var i :| 0 <= i < |items| && PlainAccepts(items[i], c);
        assert PlainAccepts(items[1..][i - 1], c);
      }
    }
  }

  /** The intervals of a negated set in ascending order are exactly its complement. */
  lemma ComplementIsExact(excluded: seq<Plain>, c: Code)
    requires Ascending(PlainItemsIntervals(excluded))
    ensures AllProper(Complement(excluded))
    ensures Covered(Complement(excluded), c) <==> !AnyPlainAccepts(excluded, c)
  {
    var ivs := PlainItemsIntervals(excluded);
    NegativeItemsGaps(excluded, INT64_MIN);
    GapsMiss(ivs, INT64_MIN, c);
    PlainItemsExact(excluded, c);
    var (gaps, end) := Gaps(ivs, INT64_MIN);
    CoveredAppend(gaps, [Interval(end, INT64_MAX)], c);
    if Covered([Interval(end, INT64_MAX)], c) {
      assert end <= c;
    }
    if !AnyPlainAccepts(excluded, c) {
      ComplementCovers(excluded, c);
    }
  }

  lemma {:induction false} MatcherIntervalsExact(m: Matcher, c: Code)
    requires Orderly(m)
    ensures AllProper(MatcherIntervals(m)) && (Covered(MatcherIntervals(m), c) <==> Accepts(m, c))
    decreases m
  {
    match m
    case Simple(p) => PlainIntervalsExact(p, c);
    case NegativeSet(excluded) => ComplementIsExact(excluded, c);
    case Set(members) => MembersExact(members, c);
  }

  lemma {:induction false} MembersExact(members: seq<Matcher>, c: Code)
    requires forall i | 0 <= i < |members| :: Orderly(members[i])
    ensures AllProper(MembersIntervals(members))
    ensures Covered(MembersIntervals(members), c) <==> exists i | 0 <= i < |members| :: Accepts(members[i], c)
    decreases members
  {
    if |members| > 0 {
      MatcherIntervalsExact(members[0], c);
      MembersExact(members[1..], c);
      CoveredAppend(MatcherIntervals(members[0]), MembersIntervals(members[1..]), c);
      if i :| 0 <= i < |members| && Accepts(members[i], c) {
        assert i > 0 ==> Accepts(members[1..][i - 1], c);
      }
    }
  }

  lemma {:induction false} PopulateExact(l: seq<FirstItem>, c: Code)
    requires OrderlyList(l)
    ensures AllProper(Populate(l)) && (Covered(Populate(l), c) <==> ListAccepts(l, c))
  {
    if |l| > 0 {
      ItemIntervalsExact(l[0], c);
      PopulateExact(l[1..], c);
      CoveredAppend(ItemIntervals(l[0]), Populate(l[1..]), c);
      assert l == [l[0]] + l[1..];
      AcceptsAppend([l[0]], l[1..], c);
      OneItem(l[0], c);
    }
  }

  lemma ItemIntervalsExact(item: FirstItem, c: Code)
    requires item.Item? ==> Orderly(item.matcher)
    ensures AllProper(ItemIntervals(item)) && (Covered(ItemIntervals(item), c) <==> ItemAccepts(item, c))
  {
    match item
    case CanBeAnything => assert Within(ItemIntervals(item)[0], c);
    case Item(m) => MatcherIntervalsExact(m, c);
  }

  /** A common character of two proper intervals that touch. */
  lemma CommonPoint(r: Interval, l: Interval) returns (c: Code)
    requires Proper(r) && Proper(l) && Touches(r, l.low, l.high)
    ensures Within(r, c) && Within(l, c)
  {
    var low := if r.low < l.low then l.low else r.low;
    c := if low < CODE_MIN then CODE_MIN else low;
  }

  lemma SomePoint(r: Interval) returns (c: Code)
    requires Proper(r)
    ensures Within(r, c)
  {
    c := if r.low < CODE_MIN then CODE_MIN else r.low;
  }

  /** So lists with orderly sets collide if and only if some character satisfies a matcher of each. */
  lemma CollidesIffCommon(rhs: seq<FirstItem>, lhs: seq<FirstItem>)
    requires OrderlyList(rhs) && OrderlyList(lhs)
    ensures Collides(rhs, lhs) <==> exists c :: ListAccepts(rhs, c) && ListAccepts(lhs, c)
  {
    hide Orderly, Accepts, MatcherIntervals;
    if c :| ListAccepts(rhs, c) && ListAccepts(lhs, c) {
      CollidesMissesNothing(rhs, lhs, c);
    }
    if Collides(rhs, lhs) {
      var points := Populate(rhs);
      var k :| 0 <= k < |lhs| && CheckItem(points, lhs[k]);
      PopulateExact(rhs, 0);
      ItemIntervalsExact(lhs[k], 0);
      var c: Code;
      if lhs[k].CanBeAnything? {
        c := SomePoint(points[0]);
        assert Covered(points, c);
      } else {
        var ivs := MatcherIntervals(lhs[k].matcher);
        var j :| 0 <= j < |ivs| && CheckInterval(points, ivs[j]);
        var i :| 0 <= i < |points| && Touches(points[i], ivs[j].low, ivs[j].high);
        c := CommonPoint(points[i], ivs[j]);
        assert Covered(points, c) && Covered(ivs, c);
      }
      PopulateExact(rhs, c);
      ItemIntervalsExact(lhs[k], c);
      assert ListAccepts(rhs, c) && ListAccepts(lhs, c);
    }
  }

  /** When a greedy repeat is rewritten: `$` comes next, or no character can begin both an iteration and the rest. */
  lemma RewritesIff(content: Res, below: Stack)
    requires OrderlyList(First([], PushAll(content, EndCycle))) && OrderlyList(First([], below))
    ensures GoesPossessive(Optimised, content, below)
       <==> (below.Push? && below.top.AssertEnd?)
            || !exists c :: StackStartsWith(PushAll(content, EndCycle), c) && StackStartsWith(below, c)
  {
    hide Collides, OrderlyList, First, ListAccepts, StackStartsWith;
    var rhs, lhs := First([], PushAll(content, EndCycle)), First([], below);
    CollidesIffCommon(rhs, lhs);
    if c :| ListAccepts(rhs, c) && ListAccepts(lhs, c) {
      CanBegin(content, below, c);
      assert StackStartsWith(PushAll(content, EndCycle), c) && StackStartsWith(below, c);
    }
    if c :| StackStartsWith(PushAll(content, EndCycle), c) && StackStartsWith(below, c) {
      CanBegin(content, below, c);
      assert ListAccepts(rhs, c) && ListAccepts(lhs, c);
    }
  }

  lemma CanBegin(content: Res, below: Stack, c: Code)
    ensures ListAccepts(First([], PushAll(content, EndCycle)), c) <==> StackStartsWith(PushAll(content, EndCycle), c)
    ensures ListAccepts(First([], below), c) <==> StackStartsWith(below, c)
  {
    hide First, ListAccepts, StackStartsWith;
    NothingListed(c);
    FirstIsExact([], PushAll(content, EndCycle), c);
    FirstIsExact([], below, c);
  }

  lemma NothingListed(c: Code)
    ensures !ListAccepts([], c)
  {
  }
}
