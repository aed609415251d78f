/** End to end: on patterns whose repeated atoms are single characters, with no `^` and no possessive repeats, parsing
    and matching decide membership in the language of the pattern as written. */
module PatternExact {
  import opened RegexSyntax
  import opened RegexMatcher
  import opened RegexLanguage
  import opened RegexTermination
  import opened RegexPossessive
  import opened RegexExact
  import opened RegexWays
  import opened PatternActions
  import opened PatternPrinter
  import opened PatternRoundTrip
  import opened PatternMeaning
  import opened PatternGroups
  import PatternGrammar

  predicate OneCharacter(a: Atom) {
    a.Literal? || a.Dot? || a.Class?
  }

  predicate PlainAtom(a: Atom)
    decreases a
  {
    match a
    case Group(p) => PlainPattern(p)
    case NonCapturing(p) => PlainPattern(p)
    case _ => !a.LineStart?
  }

  predicate PlainTerm(t: Term)
    decreases t
  {
    PlainAtom(t.atom) &&
    match t.times
    case ZeroOrMore(mode) => mode != Possessive && OneCharacter(t.atom)
    case OneOrMore(mode) => mode != Possessive && OneCharacter(t.atom)
    case Exactly(_) => CountsFit(t.times) && OneCharacter(t.atom)
    case AtLeast(_, mode) => CountsFit(t.times) && mode != Possessive && OneCharacter(t.atom)
    case Between(_, _, mode) => CountsFit(t.times) && mode != Possessive && OneCharacter(t.atom)
    case _ => true
  }

  predicate PlainTerms(ts: Terms)
    decreases ts
  {
    match ts
    case Last(t) => PlainTerm(t)
    case Then(t, others) => PlainTerm(t) && PlainTerms(others)
  }

  predicate PlainPattern(p: Pattern)
    decreases p
  {
    match p
    case Void => true
    case Branch(ts) => PlainTerms(ts)
    case Either(ts, others) => PlainTerms(ts) && PlainPattern(others)
  }

  lemma {:induction false} PlainFits(p: Pattern)
    requires PlainPattern(p)
    ensures Fits(p)
    decreases p
  {
    match p
    case Void =>
    case Branch(ts) => PlainTermsFit(ts);
    case Either(ts, others) => PlainTermsFit(ts); PlainFits(others);
  }

  lemma {:induction false} PlainTermsFit(ts: Terms)
    requires PlainTerms(ts)
    ensures TermsFit(ts)
    decreases ts
  {
    assert PlainTerm(ts.term) && PlainAtom(ts.term.atom);
    match ts.term.atom {
      case Group(p) => PlainFits(p);
      case NonCapturing(p) => PlainFits(p);
      case _ =>
    }
    if ts.Then? {
      PlainTermsFit(ts.others);
    }
  }

  // ----- what is built for plain patterns -----

  predicate Tame(re: Re) {
    Regular(re) && NoCaret(re)
  }

  lemma UnpackedSimple(re: Re)
    ensures Tame(re) <==> RegularAll(Unpacked(re)) && NoCaretAll(Unpacked(re))
  {
  }

  lemma SequenceSimple(a: Re, b: Re)
    requires Tame(a) && Tame(b)
    ensures Tame(MakeSequenceOf(a, b))
  {
    UnpackedSimple(b);
    var c := Cons(a, Unpacked(b));
    assert RegularAll(c) && NoCaretAll(c);
  }

  lemma AlternateSimple(a: Re, b: Re)
    requires Tame(a) && Tame(b)
    ensures Tame(MakeAlternateOf(a, b))
  {
    var o := if b.Select? then b.options else Single(b);
    assert RegularAll(o) && NoCaretAll(o);
    assert RegularAll(Cons(a, o)) && NoCaretAll(Cons(a, o));
  }

  lemma {:induction false} AtomSimple(a: Atom, n: nat)
    requires PlainAtom(a)
    ensures Tame(BuildAtom(a, n).re)
    decreases a
  {
    match a
    case Group(p) =>
      PatternSimple(p, n + 1);
      UnpackedSimple(BuildPattern(p, n + 1).re);
    case NonCapturing(p) => PatternSimple(p, n);
    case _ =>
  }

  lemma {:induction false} TermSimple(t: Term, n: nat)
    requires PlainTerm(t)
    ensures Tame(BuildTerm(t, n).re)
    decreases t
  {
    var re := BuildAtom(t.atom, n).re;
    AtomSimple(t.atom, n);
    UnpackedSimple(re);
    if OneCharacter(t.atom) {
      assert TotalWidth(Unpacked(re)) == Fixed(1);
    }
  }

  lemma {:induction false} TermsSimple(ts: Terms, n: nat)
    requires PlainTerms(ts)
    ensures Tame(BuildTerms(ts, n).re)
    decreases ts
  {
    match ts
    case Last(t) => TermSimple(t, n);
    case Then(t, others) =>
      TermSimple(t, n);
      TermsSimple(others, BuildTerm(t, n).counter);
      SequenceSimple(BuildTerm(t, n).re, BuildTerms(others, BuildTerm(t, n).counter).re);
  }

  lemma {:induction false} PatternSimple(p: Pattern, n: nat)
    requires PlainPattern(p)
    ensures Tame(BuildPattern(p, n).re)
    decreases p
  {
    match p
    case Void =>
    case Branch(ts) => TermsSimple(ts, n);
    case Either(ts, others) =>
      TermsSimple(ts, n);
      PatternSimple(others, BuildTerms(ts, n).counter);
      AlternateSimple(BuildTerms(ts, n).re, BuildPattern(others, BuildTerms(ts, n).counter).re);
  }

  /** Without `^` no rewriting is unsafe. */
  lemma {:induction false} NoCaretIsSafe(st: Stack)
    requires NoCaretStack(st)
    ensures CaretSafe(st)
    decreases StackSize(st), 1
  {
    hide NoCaretAll, SizeAll;
    match st
    case Finish =>
    case EndCycle =>
    case Close(_, below) => NoCaretIsSafe(below);
    case Push(re, below) =>
      NoCaretIsSafe(below);
      if Repeated(re) {
        NoCaretIsSafe(Cycle(re.content));
      } else if !Elementary(re) {
        match re {
          case Select(c) => NoCaretSelect(c, below);
          case Optional(c) => NoCaretIsSafe(Push(Sequence(c), below));
          case LazyOptional(c) => NoCaretIsSafe(Push(Sequence(c), below));
          case Sequence(c) => NoCaretSequence(c, below);
          case Capture(id, c) =>
            assert StackSize(Close(id, below)) == 1 + StackSize(below);
            NoCaretIsSafe(Push(Sequence(c), Close(id, below)));
        }
      }
  }

  lemma NoCaretWhole(re: Re)
    requires NoCaret(re)
    ensures CaretSafe(Push(re, Push(AssertEnd, Finish)))
  {
    assert NoCaret(AssertEnd) && NoCaretStack(Finish);
    assert NoCaretStack(Push(AssertEnd, Finish));
    NoCaretIsSafe(Push(re, Push(AssertEnd, Finish)));
  }

  lemma {:induction false} NoCaretSelect(c: Res, below: Stack)
    requires NoCaretAll(c) && NoCaretStack(below)
    ensures CaretSafe(Push(Select(c), below))
    decreases 1 + SizeAll(c) + StackSize(below), 0
  {
    match c
    case Single(h) => NoCaretIsSafe(Push(h, below));
    case Cons(h, t) =>
      NoCaretIsSafe(Push(h, below));
      NoCaretSelect(t, below);
  }

  lemma {:induction false} NoCaretSequence(c: Res, below: Stack)
    requires NoCaretAll(c) && NoCaretStack(below)
    ensures CaretSafe(Push(Sequence(c), below))
    decreases 1 + SizeAll(c) + StackSize(below), 0
  {
    match c
    case Single(h) => NoCaretIsSafe(Push(h, below));
    case Cons(h, t) =>
      assert StackSize(Push(Sequence(t), below)) == 1 + SizeAll(t) + StackSize(below);
      NoCaretIsSafe(Push(h, Push(Sequence(t), below)));
  }

  /** Parsing the text of a plain pattern and matching with the result decides the language of the pattern, in
      every build, the rewriting of greedy repeats included. */
  lemma ParsedMatchIsExact(build: Build, p: Pattern, s: seq<Code>, re: Re)
    requires PlainPattern(p) && Parses(Print(p, PatternGrammar.End), re)
    ensures MatchRe(build, s, re).Matched? <==> PatternSpans(p, s, 0, |s|)
  {
    hide MatchRe, CaretSafe, PatternSpans, Print, Regular, NoCaret, BuildPattern, PlainPattern, Fits;
    PlainFits(p);
    ParsedTree(p, re);
    PatternSimple(p, 0);
    NoCaretWhole(re);
    MatchIsExact(build, s, re);
    PatternMeans(p, 0, s, 0, |s|);
  }

  /** What the tree of a plain pattern satisfies. */
  lemma ParsedIsRegular(p: Pattern, re: Re)
    requires PlainPattern(p) && Parses(Print(p, PatternGrammar.End), re)
    ensures WellFormed(re) && DistinctIds(re) && CaretSafe(Push(re, Push(AssertEnd, Finish)))
    ensures CaretSafe(Push(re, Finish))
  {
    hide CaretSafe, Print, Regular, BuildPattern, PlainPattern, Fits;
    PlainFits(p);
    ParsedTree(p, re);
    PatternSimple(p, 0);
    NoCaretWhole(re);
    NoCaretIsSafe(Push(re, Finish));
    RegularWellFormed(re);
  }

  /** And of several ways to match, the one taken is the first in the order of preference, with the groups it
      records. */
  lemma ParsedMatchTakesFirstWay(build: Build, p: Pattern, s: seq<Code>, re: Re)
    requires PlainPattern(p) && Parses(Print(p, PatternGrammar.End), re)
    ensures var ws, r := Ways(re, s, 0), MatchRe(build, s, re);
            && (r.Matched? <==> PatternSpans(p, s, 0, |s|))
            && (r.Matched? ==> exists m: nat :: FirstEnding(ws, m, |s|) && r == Matched(|s|, ws[m].groups))
            && (r.Matched? ==> forall id | id in Unavoidable(re) :: id in r.captures && r.captures[id].matched)
  {
    hide MatchRe, CaretSafe, PatternSpans, Print, Ways, WellFormed, DistinctIds, Unavoidable, PlainPattern, Parses;
    ParsedIsRegular(p, re);
    ParsedMatchIsExact(build, p, s, re);
    MatchTakesFirstWay(build, s, re);
    MatchRecordsUnavoidable(build, s, re);
  }

  lemma ParsedSearchTakesFirstWay(build: Build, p: Pattern, s: seq<Code>, it: nat, re: Re)
    requires it <= |s| && PlainPattern(p) && Parses(Print(p, PatternGrammar.End), re)
    ensures var ws := Ways(re, s, it);
            SearchAt(build, s, it, re) == if |ws| == 0 then Failed else Matched(ws[0].end, ws[0].groups)
  {
    hide SearchAt, CaretSafe, Print, Ways, WellFormed, DistinctIds, PlainPattern, Parses;
    ParsedIsRegular(p, re);
    SearchTakesFirstWay(build, s, it, re);
  }
}
