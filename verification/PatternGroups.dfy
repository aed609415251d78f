/** The groups of a parsed pattern: found in the order they are opened, numbered from 1, with the right contents. */
module PatternGroups {
  import opened RegexSyntax
  import opened RegexMatcher
  import opened RegexLanguage
  import opened PatternActions
  import opened PatternPrinter
  import opened PatternRoundTrip
  import opened PatternMeaning
  import PatternGrammar

  /** `find_captures`: a traversal with a work list. */
  function FindCaptures(work: Stack, output: seq<nat>): seq<nat>
    decreases StackSize(work)
  {
    match work
    case Push(re, below) => (
      match re
      case Select(c) => PushAllSize(c, below); FindCaptures(PushAll(c, below), output)
      case Optional(c) => PushAllSize(c, below); FindCaptures(PushAll(c, below), output)
      case LazyOptional(c) => PushAllSize(c, below); FindCaptures(PushAll(c, below), output)
      case Sequence(c) => PushAllSize(c, below); FindCaptures(PushAll(c, below), output)
      case Plus(_, c) => PushAllSize(c, below); FindCaptures(PushAll(c, below), output)
      case Star(_, c) => PushAllSize(c, below); FindCaptures(PushAll(c, below), output)
      case Repeat(_, _, _, c) => PushAllSize(c, below); FindCaptures(PushAll(c, below), output)
      case Capture(id, c) => PushAllSize(c, below); FindCaptures(PushAll(c, below), output + [id])
      case _ => FindCaptures(below, output))
    case _ => output
  }

  /** The group numbers of a tree, outer before inner, left before right. */
  function InOrder(re: Re): seq<nat>
    decreases re
  {
    match re
    case Capture(id, c) => [id] + InOrderAll(c)
    case Select(c) => InOrderAll(c)
    case Optional(c) => InOrderAll(c)
    case LazyOptional(c) => InOrderAll(c)
    case Sequence(c) => InOrderAll(c)
    case Plus(_, c) => InOrderAll(c)
    case Star(_, c) => InOrderAll(c)
    case Repeat(_, _, _, c) => InOrderAll(c)
    case _ => []
  }

  function InOrderAll(c: Res): seq<nat>
    decreases c
  {
    match c
    case Single(re) => InOrder(re)
    case Cons(h, t) => InOrder(h) + InOrderAll(t)
  }

  lemma {:induction false} FindsInOrder(re: Re, below: Stack, output: seq<nat>)
    ensures FindCaptures(Push(re, below), output) == FindCaptures(below, output + InOrder(re))
    decreases re
  {
    match re
    case Select(c) => FindsAllInOrder(c, below, output);
    case Optional(c) => FindsAllInOrder(c, below, output);
    case LazyOptional(c) => FindsAllInOrder(c, below, output);
    case Sequence(c) => FindsAllInOrder(c, below, output);
    case Plus(_, c) => FindsAllInOrder(c, below, output);
    case Star(_, c) => FindsAllInOrder(c, below, output);
    case Repeat(_, _, _, c) => FindsAllInOrder(c, below, output);
    case Capture(id, c) =>
      FindsAllInOrder(c, below, output + [id]);
      assert output + [id] + InOrderAll(c) == output + ([id] + InOrderAll(c));
    case _ => assert output + [] == output;
  }

  lemma {:induction false} FindsAllInOrder(c: Res, below: Stack, output: seq<nat>)
    ensures FindCaptures(PushAll(c, below), output) == FindCaptures(below, output + InOrderAll(c))
    decreases c
  {
    match c
    case Single(re) => FindsInOrder(re, below, output);
    case Cons(h, t) =>
      FindsInOrder(h, PushAll(t, below), output);
      FindsAllInOrder(t, below, output + InOrder(h));
      assert output + InOrder(h) + InOrderAll(t) == output + (InOrder(h) + InOrderAll(t));
  }

  /** n + 1, ..., n + count. */
  function Numbers(n: nat, count: nat): (r: seq<nat>)
    ensures |r| == count && forall i | 0 <= i < count :: r[i] == n + 1 + i
  {
    seq(count, i => n + 1 + i)
  }

  lemma NumbersAppend(n: nat, a: nat, b: nat)
    ensures Numbers(n, a) + Numbers(n + a, b) == Numbers(n, a + b)
  {
  }

  // ----- how the constructions of the parser treat groups -----

  lemma UnpackedGroups(re: Re)
    ensures InOrderAll(Unpacked(re)) == InOrder(re) && ContentsAll(Unpacked(re)) == Contents(re)
    ensures BoundsOrderedAll(Unpacked(re)) == BoundsOrdered(re)
  {
  }

  lemma SequenceGroups(a: Re, b: Re)
    ensures InOrder(MakeSequenceOf(a, b)) == InOrder(a) + InOrder(b)
    ensures Contents(MakeSequenceOf(a, b)) == Contents(a) + Contents(b)
    ensures BoundsOrdered(MakeSequenceOf(a, b)) == (BoundsOrdered(a) && BoundsOrdered(b))
  {
    if IsCharacter(a) && (IsCharacter(b) || b.Str?) {
      LeafGroups(a);
      LeafGroups(b);
      LeafGroups(MakeSequenceOf(a, b));
      var none: map<nat, Res> := map[];
      assert none + none == none;
    } else {
      UnpackedGroups(b);
      ConsGroups(a, Unpacked(b));
      assert MakeSequenceOf(a, b) == Re.Sequence(Cons(a, Unpacked(b)));
    }
  }

  lemma LeafGroups(re: Re)
    requires re.One? || re.Str?
    ensures InOrder(re) == [] && Contents(re) == map[] && BoundsOrdered(re)
  {
  }

  lemma ConsGroups(a: Re, c: Res)
    ensures InOrder(Re.Sequence(Cons(a, c))) == InOrder(Select(Cons(a, c))) == InOrder(a) + InOrderAll(c)
    ensures Contents(Re.Sequence(Cons(a, c))) == Contents(Select(Cons(a, c))) == Contents(a) + ContentsAll(c)
    ensures BoundsOrdered(Re.Sequence(Cons(a, c))) == BoundsOrdered(Select(Cons(a, c)))
         == (BoundsOrdered(a) && BoundsOrderedAll(c))
  {
    assert InOrderAll(Cons(a, c)) == InOrder(a) + InOrderAll(c);
    assert ContentsAll(Cons(a, c)) == Contents(a) + ContentsAll(c);
    assert BoundsOrderedAll(Cons(a, c)) == (BoundsOrdered(a) && BoundsOrderedAll(c));
  }

  lemma AlternateGroups(a: Re, b: Re)
    ensures InOrder(MakeAlternateOf(a, b)) == InOrder(a) + InOrder(b)
    ensures Contents(MakeAlternateOf(a, b)) == Contents(a) + Contents(b)
    ensures BoundsOrdered(MakeAlternateOf(a, b)) == (BoundsOrdered(a) && BoundsOrdered(b))
  {
    var c := if b.Select? then b.options else Single(b);
    assert InOrderAll(c) == InOrder(b) && ContentsAll(c) == Contents(b) && BoundsOrderedAll(c) == BoundsOrdered(b);
    ConsGroups(a, c);
  }

  lemma TimesGroups(times: Times, re: Re)
    ensures InOrder(BuildTimes(times, re)) == InOrder(re) && Contents(BuildTimes(times, re)) == Contents(re)
    ensures CountsFit(times) ==> BoundsOrdered(BuildTimes(times, re)) == BoundsOrdered(re)
  {
    UnpackedGroups(re);
  }

  // ----- the groups of a pattern -----

  ghost predicate SameLanguage(c: Res, p: Pattern) {
    forall s: seq<Code>, i: nat, j: nat :: SpansAll(c, s, i, j) <==> PatternSpans(p, s, i, j)
  }

  /** The groups gs, numbered from n + 1 on, each with the language of its content. */
  ghost predicate Describes(m: map<nat, Res>, n: nat, gs: seq<Pattern>) {
    (forall id: nat :: id in m <==> n < id <= n + |gs|) && forall i | 0 <= i < |gs| :: SameLanguage(m[n + 1 + i], gs[i])
  }

  lemma DescribesAppend(m: map<nat, Res>, m': map<nat, Res>, n: nat, gs: seq<Pattern>, gs': seq<Pattern>)
    requires Describes(m, n, gs) && Describes(m', n + |gs|, gs')
    ensures Describes(m + m', n, gs + gs')
  {
    forall i | 0 <= i < |gs + gs'| ensures SameLanguage((m + m')[n + 1 + i], (gs + gs')[i]) {
      if i < |gs| {
        assert SameLanguage(m[n + 1 + i], gs[i]);
        assert n + 1 + i !in m';
      } else {
        assert SameLanguage(m'[n + |gs| + 1 + (i - |gs|)], gs'[i - |gs|]);
      }
    }
  }

  /** What is proved about the tree b built for groups gs from the number n on, the languages if the counts fit. */
  ghost predicate Right(b: Built, n: nat, gs: seq<Pattern>, fit: bool) {
    && b.counter == n + |gs| && InOrder(b.re) == Numbers(n, |gs|)
    && (fit ==> Describes(Contents(b.re), n, gs) && BoundsOrdered(b.re))
  }

  lemma {:induction false} AtomGroupsRight(a: Atom, n: nat)
    ensures Right(BuildAtom(a, n), n, AtomGroups(a), AtomFits(a))
    decreases a
  {
    match a
    case Group(p) =>
      GroupsRight(p, n + 1);
      CaptureRight(BuildPattern(p, n + 1), p, n);
    case NonCapturing(p) => GroupsRight(p, n);
    case _ =>
  }

  lemma CaptureRight(b: Built, p: Pattern, n: nat)
    requires b == BuildPattern(p, n + 1) && Right(b, n + 1, Groups(p), Fits(p))
    ensures Right(Built(Capture(n + 1, Unpacked(b.re)), b.counter), n, [p] + Groups(p), Fits(p))
  {
    UnpackedGroups(b.re);
    var c := Unpacked(b.re);
    assert [n + 1] + Numbers(n + 1, |Groups(p)|) == Numbers(n, |[p] + Groups(p)|);
    if Fits(p) {
      forall s: seq<Code>, i: nat, j: nat ensures SpansAll(c, s, i, j) <==> PatternSpans(p, s, i, j) {
        UnpackedMeans(b.re, s, i, j);
        PatternMeans(p, n + 1, s, i, j);
      }
      assert SameLanguage(c, p);
      assert Describes(map[n + 1 := c], n, [p]);
      DescribesAppend(map[n + 1 := c], Contents(b.re), n, [p], Groups(p));
      assert Contents(Capture(n + 1, c)) == map[n + 1 := c] + Contents(b.re);
    }
  }

  /** Two trees in a row, put together by a construction that keeps groups and bounds. */
  lemma TogetherRight(a: Built, b: Built, re: Re, n: nat, gs: seq<Pattern>, gs': seq<Pattern>, fit: bool, fit': bool)
    requires Right(a, n, gs, fit) && Right(b, a.counter, gs', fit')
    requires InOrder(re) == InOrder(a.re) + InOrder(b.re) && Contents(re) == Contents(a.re) + Contents(b.re)
    requires BoundsOrdered(re) == (BoundsOrdered(a.re) && BoundsOrdered(b.re))
    ensures Right(Built(re, b.counter), n, gs + gs', fit && fit')
  {
    NumbersAppend(n, |gs|, |gs'|);
    if fit && fit' {
      DescribesAppend(Contents(a.re), Contents(b.re), n, gs, gs');
    }
  }

  lemma {:induction false} TermGroupsRight(t: Term, n: nat)
    ensures Right(BuildTerm(t, n), n, AtomGroups(t.atom), CountsFit(t.times) && AtomFits(t.atom))
    decreases t
  {
    AtomGroupsRight(t.atom, n);
    TimesGroups(t.times, BuildAtom(t.atom, n).re);
  }

  lemma {:induction false} TermsGroupsRight(ts: Terms, n: nat)
    ensures Right(BuildTerms(ts, n), n, TermsGroups(ts), TermsFit(ts))
    decreases ts
  {
    hide Right;
    match ts
    case Last(t) => TermGroupsRight(t, n);
    case Then(t, others) =>
      var a := BuildTerm(t, n);
      var b := BuildTerms(others, a.counter);
      TermGroupsRight(t, n);
      TermsGroupsRight(others, a.counter);
      SequenceGroups(a.re, b.re);
      TogetherRight(a, b, MakeSequenceOf(a.re, b.re), n, AtomGroups(t.atom), TermsGroups(others),
                    CountsFit(t.times) && AtomFits(t.atom), TermsFit(others));
  }

  lemma {:induction false} GroupsRight(p: Pattern, n: nat)
    ensures Right(BuildPattern(p, n), n, Groups(p), Fits(p))
    decreases p
  {
    match p
    case Void =>
    case Branch(ts) => TermsGroupsRight(ts, n);
    case Either(ts, others) =>
      var a := BuildTerms(ts, n);
      var b := BuildPattern(others, a.counter);
      TermsGroupsRight(ts, n);
      GroupsRight(others, a.counter);
      AlternateGroups(a.re, b.re);
      TogetherRight(a, b, MakeAlternateOf(a.re, b.re), n, TermsGroups(ts), Groups(others), TermsFit(ts), Fits(others));
  }

  /** The captures found in a parsed pattern are 1, ..., n, and group i holds what the i-th opened group says. */
  lemma GroupsAreNumberedInOrder(p: Pattern)
    ensures var re := BuildPattern(p, 0).re;
            && FindCaptures(Push(re, Finish), []) == Numbers(0, |Groups(p)|)
            && (Fits(p) ==> Describes(Contents(re), 0, Groups(p)))
  {
    GroupsRight(p, 0);
    var re := BuildPattern(p, 0).re;
    FindsInOrder(re, Finish, []);
    assert [] + InOrder(re) == InOrder(re);
  }

  // ----- from the text to the match -----

  predicate NoRepetition(ids: seq<nat>) {
    forall i, j | 0 <= i < j < |ids| :: ids[i] != ids[j]
  }

  lemma {:induction false} DistinctWhenUnrepeated(re: Re)
    requires NoRepetition(InOrder(re))
    ensures DistinctIds(re) && forall id: nat :: id in Ids(re) <==> id in InOrder(re)
    decreases re
  {
    match re
    case Capture(id, c) => TailUnrepeated([id], InOrderAll(c)); DistinctWhenUnrepeatedAll(c);
    case Select(c) => DistinctWhenUnrepeatedAll(c);
    case Optional(c) => DistinctWhenUnrepeatedAll(c);
    case LazyOptional(c) => DistinctWhenUnrepeatedAll(c);
    case Sequence(c) => DistinctWhenUnrepeatedAll(c);
    case Plus(_, c) => DistinctWhenUnrepeatedAll(c);
    case Star(_, c) => DistinctWhenUnrepeatedAll(c);
    case Repeat(_, _, _, c) => DistinctWhenUnrepeatedAll(c);
    case _ =>
  }

  lemma {:induction false} DistinctWhenUnrepeatedAll(c: Res)
    requires NoRepetition(InOrderAll(c))
    ensures DistinctIdsAll(c) && forall id: nat :: id in IdsAll(c) <==> id in InOrderAll(c)
    decreases c
  {
    match c
    case Single(re) => DistinctWhenUnrepeated(re);
    case Cons(h, t) =>
      TailUnrepeated(InOrder(h), InOrderAll(t));
      DistinctWhenUnrepeated(h);
      DistinctWhenUnrepeatedAll(t);
  }

  lemma TailUnrepeated(a: seq<nat>, b: seq<nat>)
    requires NoRepetition(a + b)
    ensures NoRepetition(a) && NoRepetition(b) && forall id: nat :: !(id in a && id in b)
  {
    var ab := a + b;
    forall i, j | 0 <= i < j < |b| ensures b[i] != b[j] {
      assert ab[|a| + i] != ab[|a| + j];
    }
    forall i, j | 0 <= i < |a| && 0 <= j < |b| ensures a[i] != b[j] {
      assert ab[i] != ab[|a| + j];
    }
    forall i, j | 0 <= i < j < |a| ensures a[i] != a[j] {
      assert ab[i] != ab[j];
    }
  }

  /** The parser accepts the text and leaves the tree re. */
  predicate Parses(text: PatternGrammar.Text, re: Re) {
    var r := Parse(text);
    r.decision.Accepted? && r.subject.Context? && r.subject.items == Tree(re, Items.Nothing)
  }

  /** Every matched group of k is one of the groups of p and holds a span in the language of that group. */
  ghost predicate GroupsOfPatternHold(p: Pattern, s: seq<Code>, k: Captures) {
    forall id: nat | Get(k, id).matched ::
      && 1 <= id <= |Groups(p)|
      && Get(k, id).begin <= Get(k, id).end <= |s|
      && PatternSpans(Groups(p)[id - 1], s, Get(k, id).begin, Get(k, id).end)
  }

  /** End to end: the text of p parses, and whatever is matched with the tree lies in the language of p as written,
      the groups included. */
  lemma ParsedMatchIsSound(build: Build, p: Pattern, s: seq<Code>, re: Re)
    requires Fits(p) && Parses(Print(p, PatternGrammar.End), re) && MatchRe(build, s, re).Matched?
    ensures PatternSpans(p, s, 0, |s|) && GroupsOfPatternHold(p, s, MatchRe(build, s, re).captures)
  {
    ParsedTree(p, re);
    MatchSound(build, s, re);
    PatternMeans(p, 0, s, 0, |s|);
    GroupsMean(p, s, re, MatchRe(build, s, re).captures);
  }

  /** The same for a search, at the place where the match was found. */
  lemma ParsedSearchIsSound(build: Build, p: Pattern, s: seq<Code>, it: nat, re: Re)
    requires Fits(p) && Parses(Print(p, PatternGrammar.End), re) && it <= |s| && SearchAt(build, s, it, re).Matched?
    ensures PatternSpans(p, s, it, SearchAt(build, s, it, re).end)
    ensures GroupsOfPatternHold(p, s, SearchAt(build, s, it, re).captures)
  {
    ParsedTree(p, re);
    SearchAtSound(build, s, it, re);
    PatternMeans(p, 0, s, it, SearchAt(build, s, it, re).end);
    GroupsMean(p, s, re, SearchAt(build, s, it, re).captures);
  }

  lemma ParsedTree(p: Pattern, re: Re)
    requires Fits(p) && Parses(Print(p, PatternGrammar.End), re)
    ensures re == BuildPattern(p, 0).re && BoundsOrdered(re) && DistinctIds(re) && Describes(Contents(re), 0, Groups(p))
  {
    ParseUndoesPrint(p);
    GroupsRight(p, 0);
    DistinctWhenUnrepeated(re);
  }

  lemma GroupsMean(p: Pattern, s: seq<Code>, re: Re, k: Captures)
    requires Describes(Contents(re), 0, Groups(p)) && GroupsHold(re, s, k)
    ensures GroupsOfPatternHold(p, s, k)
  {
    forall id: nat | Get(k, id).matched
      ensures 1 <= id <= |Groups(p)|
      ensures PatternSpans(Groups(p)[id - 1], s, Get(k, id).begin, Get(k, id).end)
    {
      assert id in Contents(re);
      assert SameLanguage(Contents(re)[0 + 1 + (id - 1)], Groups(p)[id - 1]);
    }
  }
}
