/** Exactness: on patterns whose greedy and lazy repeats have bodies of one fixed width, the matcher decides the
    language of the pattern, with the collision optimisation switched on. */
module RegexExact {
  import opened RegexSyntax
  import opened RegexMatcher
  import opened RegexLanguage
  import opened RegexTermination
  import opened RegexPossessive

  datatype Width = Fixed(n: nat) | Varying

  function AddWidth(a: Width, b: Width): Width {
    if a.Fixed? && b.Fixed? then Fixed(a.n + b.n) else Varying
  }

  function TimesWidth(n: nat, w: Width): Width {
    if w.Fixed? then Fixed(n * w.n) else Varying
  }

  /** The number of characters every match of the tree consumes, when there is one such number. */
  function WidthOf(re: Re): Width
    decreases re
  {
    match re
    case One(_) => Fixed(1)
    case AnyCharacter => Fixed(1)
    case Str(text) => Fixed(|text|)
    case Select(c) => CommonWidth(c)
    case Optional(_) => Varying
    case LazyOptional(_) => Varying
    case Sequence(c) => TotalWidth(c)
    case Empty => Fixed(0)
    case Plus(_, _) => Varying
    case Star(_, _) => Varying
    case Repeat(_, a, b, c) => if a == b && a > 0 then TimesWidth(a, TotalWidth(c)) else Varying
    case Capture(_, c) => TotalWidth(c)
    case AssertBegin => Fixed(0)
    case AssertEnd => Fixed(0)
  }

  function CommonWidth(c: Res): Width
    decreases c
  {
    match c
    case Single(re) => WidthOf(re)
    case Cons(h, t) => if WidthOf(h) == CommonWidth(t) then WidthOf(h) else Varying
  }

  function TotalWidth(c: Res): Width
    decreases c
  {
    match c
    case Single(re) => WidthOf(re)
    case Cons(h, t) => AddWidth(WidthOf(h), TotalWidth(t))
  }

  lemma {:induction false} WidthOfSpan(re: Re, s: seq<Code>, i: nat, j: nat)
    requires WidthOf(re).Fixed? && Spans(re, s, i, j)
    ensures j == i + WidthOf(re).n
    decreases re, 0
  {
    match re
    case Select(c) => WidthOfSelect(c, s, i, j);
    case Sequence(c) => WidthOfAll(c, s, i, j);
    case Capture(_, c) => WidthOfAll(c, s, i, j);
    case Repeat(_, a, b, c) =>
      var n: nat :| InBounds(a, b, n) && SpansTimes(c, n, s, i, j);
      assert n == a;
      WidthOfTimes(c, n, s, i, j);
    case Str(text) => assert |s[i..j]| == j - i;
    case _ =>
  }

  lemma {:induction false} WidthOfSelect(c: Res, s: seq<Code>, i: nat, j: nat)
    requires CommonWidth(c).Fixed? && SpansOne(c, s, i, j)
    ensures j == i + CommonWidth(c).n
    decreases c, 0
  {
    match c
    case Single(re) => WidthOfSpan(re, s, i, j);
    case Cons(h, t) =>
      if Spans(h, s, i, j) {
        WidthOfSpan(h, s, i, j);
      } else {
        WidthOfSelect(t, s, i, j);
      }
  }

  lemma {:induction false} WidthOfAll(c: Res, s: seq<Code>, i: nat, j: nat)
    requires TotalWidth(c).Fixed? && SpansAll(c, s, i, j)
    ensures j == i + TotalWidth(c).n
    decreases c, 0
  {
    match c
    case Single(re) => WidthOfSpan(re, s, i, j);
    case Cons(h, t) =>
      var m: nat :| Spans(h, s, i, m) && SpansAll(t, s, m, j);
      WidthOfSpan(h, s, i, m);
      WidthOfAll(t, s, m, j);
  }

  lemma {:induction false} WidthOfTimes(c: Res, n: nat, s: seq<Code>, i: nat, j: nat)
    requires TotalWidth(c).Fixed? && SpansTimes(c, n, s, i, j)
    ensures j == i + n * TotalWidth(c).n
    decreases c, 1, n
  {
    if n > 0 {
      var m: nat :| SpansAll(c, s, i, m) && SpansTimes(c, n - 1, s, m, j);
      WidthOfAll(c, s, i, m);
      WidthOfTimes(c, n - 1, s, m, j);
      assert n * TotalWidth(c).n == TotalWidth(c).n + (n - 1) * TotalWidth(c).n;
    }
  }

  /** No possessive repeat, ordered bounds, and every repeat body has a fixed positive width. */
  predicate Regular(re: Re)
    decreases re
  {
    match re
    case Plus(mode, c) => RegularBody(mode, c) && RegularAll(c)
    case Star(mode, c) => RegularBody(mode, c) && RegularAll(c)
    case Repeat(mode, a, b, c) => RegularBody(mode, c) && (a <= b || b == 0) && RegularAll(c)
    case Select(c) => RegularAll(c)
    case Optional(c) => RegularAll(c)
    case LazyOptional(c) => RegularAll(c)
    case Sequence(c) => RegularAll(c)
    case Capture(_, c) => RegularAll(c)
    case _ => true
  }

  predicate RegularBody(mode: Mode, c: Res) {
    mode != Possessive && TotalWidth(c).Fixed? && TotalWidth(c).n > 0
  }

  predicate RegularAll(c: Res)
    decreases c
  {
    match c
    case Single(re) => Regular(re)
    case Cons(h, t) => Regular(h) && RegularAll(t)
  }

  lemma {:induction false} PositiveWidthConsumes(re: Re)
    requires WidthOf(re).Fixed? && WidthOf(re).n > 0
    ensures Consumes(re)
    decreases re
  {
    match re
    case Select(c) => PositiveCommonWidthConsumes(c);
    case Sequence(c) => PositiveTotalWidthConsumes(c);
    case Capture(_, c) => PositiveTotalWidthConsumes(c);
    case Repeat(_, a, b, c) =>
      assert a * TotalWidth(c).n > 0;
      PositiveTotalWidthConsumes(c);
    case _ =>
  }

  lemma {:induction false} PositiveCommonWidthConsumes(c: Res)
    requires CommonWidth(c).Fixed? && CommonWidth(c).n > 0
    ensures ConsumesEach(c)
    decreases c
  {
    match c
    case Single(re) => PositiveWidthConsumes(re);
    case Cons(h, t) =>
      PositiveWidthConsumes(h);
      PositiveCommonWidthConsumes(t);
  }

  lemma {:induction false} PositiveTotalWidthConsumes(c: Res)
    requires TotalWidth(c).Fixed? && TotalWidth(c).n > 0
    ensures ConsumesSome(c)
    decreases c
  {
    match c
    case Single(re) => PositiveWidthConsumes(re);
    case Cons(h, t) =>
      if WidthOf(h).n > 0 {
        PositiveWidthConsumes(h);
      } else {
        PositiveTotalWidthConsumes(t);
      }
  }

  lemma {:induction false} RegularWellFormed(re: Re)
    requires Regular(re)
    ensures WellFormed(re)
    decreases re
  {
    match re
    case Plus(_, c) => PositiveTotalWidthConsumes(c); RegularWellFormedAll(c);
    case Star(_, c) => PositiveTotalWidthConsumes(c); RegularWellFormedAll(c);
    case Repeat(_, _, _, c) => PositiveTotalWidthConsumes(c); RegularWellFormedAll(c);
    case Select(c) => RegularWellFormedAll(c);
    case Optional(c) => RegularWellFormedAll(c);
    case LazyOptional(c) => RegularWellFormedAll(c);
    case Sequence(c) => RegularWellFormedAll(c);
    case Capture(_, c) => RegularWellFormedAll(c);
    case _ =>
  }

  lemma {:induction false} RegularWellFormedAll(c: Res)
    requires RegularAll(c)
    ensures WellFormedAll(c)
    decreases c
  {
    match c
    case Single(re) => RegularWellFormed(re);
    case Cons(h, t) =>
      RegularWellFormed(h);
      RegularWellFormedAll(t);
  }

  // ----- completeness of the reference semantics -----

  /** From position p on, the stack matches with whatever captures. */
  ghost predicate MatchesFrom(s: seq<Code>, p: nat, st: Stack) {
    p <= |s| && forall k :: Evaluate(Reference, s, p, k, st).Matched?
  }

  /** A span of a tree followed by a position from which the rest matches is found. */
  lemma {:induction false} SpanIsFound(s: seq<Code>, pos: nat, mid: nat, k: Captures, re: Re, below: Stack)
    requires Regular(re) && WellFormedStack(below) && Spans(re, s, pos, mid) && MatchesFrom(s, mid, below)
    ensures Evaluate(Reference, s, pos, k, Push(re, below)).Matched?
    decreases re, 3, 0
  {
    if Elementary(re) {
      ElementarySpan(re, s, pos, mid);
      return;
    } else if Repeated(re) {
      var c := re.content;
      var n: nat :| InBounds(Low(re), High(re), n) && SpansTimes(c, n, s, pos, mid);
      RegularWellFormedAll(c);
      PositiveTotalWidthConsumes(c);
      RepeatIsFound(s, pos, mid, k, re.mode, Low(re), High(re), c, below, n);
      return;
    }
    RegularWellFormed(re);
    NeverDiverges(Reference, s, pos, k, Push(re, below));
    match re
    case Select(c) => SelectIsFound(s, pos, mid, k, c, below);
    case Sequence(c) => SequenceIsFound(s, pos, mid, k, c, below);
    case Optional(c) =>
      if pos < mid || !MatchesFrom(s, pos, below) {
        SequenceIsFound(s, pos, mid, k, c, below);
        assert Evaluate(Reference, s, pos, k, Push(Sequence(c), below)).Matched?;
      }
    case LazyOptional(c) =>
      if pos < mid || !MatchesFrom(s, pos, below) {
        SequenceIsFound(s, pos, mid, k, c, below);
        assert Evaluate(Reference, s, pos, k, Push(Sequence(c), below)).Matched?;
      }
    case Capture(id, c) =>
      forall k' ensures Evaluate(Reference, s, mid, k', Close(id, below)).Matched? {
        assert Evaluate(Reference, s, mid, EndCapture(k', id, mid), below).Matched?;
      }
      SequenceIsFound(s, pos, mid, StartCapture(k, id, pos), c, Close(id, below));
      assert Evaluate(Reference, s, pos, StartCapture(k, id, pos), Push(Sequence(c), Close(id, below))).Matched?;
  }

  lemma ElementarySpan(re: Re, s: seq<Code>, pos: nat, mid: nat)
    requires Elementary(re) && Spans(re, s, pos, mid)
    ensures Advance(re, s, pos) == To(mid)
  {
    if re.Str? {
      assert |s[pos..mid]| == mid - pos;
    }
  }

  lemma {:induction false} SelectIsFound(s: seq<Code>, pos: nat, mid: nat, k: Captures, c: Res, below: Stack)
    requires RegularAll(c) && WellFormedStack(below) && SpansOne(c, s, pos, mid) && MatchesFrom(s, mid, below)
    requires pos <= mid
    ensures EvaluateSelect(Reference, s, pos, k, c, below).Matched?
    decreases c, 2, 0
  {
    match c
    case Single(h) => SpanIsFound(s, pos, mid, k, h, below);
    case Cons(h, t) =>
      RegularWellFormed(h);
      NeverDiverges(Reference, s, pos, k, Push(h, below));
      if Spans(h, s, pos, mid) {
        SpanIsFound(s, pos, mid, k, h, below);
      } else {
        SelectIsFound(s, pos, mid, k, t, below);
      }
  }

  lemma {:induction false} SequenceIsFound(s: seq<Code>, pos: nat, mid: nat, k: Captures, c: Res, below: Stack)
    requires RegularAll(c) && WellFormedStack(below) && SpansAll(c, s, pos, mid) && MatchesFrom(s, mid, below)
    requires pos <= mid
    ensures EvaluateSequence(Reference, s, pos, k, c, below).Matched?
    decreases c, 2, 0
  {
    match c
    case Single(h) => SpanIsFound(s, pos, mid, k, h, below);
    case Cons(h, t) =>
      var m: nat :| Spans(h, s, pos, m) && SpansAll(t, s, m, mid);
      SpansAllInside(t, s, m, mid);
      RegularWellFormedAll(t);
      var rest := Push(Sequence(t), below);
      assert WellFormedStack(rest);
      forall k' ensures Evaluate(Reference, s, m, k', rest).Matched? {
        SequenceIsFound(s, m, mid, k', t, below);
      }
      SpanIsFound(s, pos, m, k, h, rest);
  }

  /** An iteration that exists is found, and it ends where the fixed width says. */
  lemma {:induction false} CycleIsFound(s: seq<Code>, pos: nat, mid: nat, k: Captures, c: Res)
    requires RegularAll(c) && TotalWidth(c).Fixed? && SpansAll(c, s, pos, mid)
    ensures pos <= mid <= |s|
    ensures Evaluate(Reference, s, pos, k, Cycle(c)).Matched? && Evaluate(Reference, s, pos, k, Cycle(c)).end == mid
    decreases c, 3, 0
  {
    SpansAllInside(c, s, pos, mid);
    assert WellFormedStack(EndCycle);
    assert MatchesFrom(s, mid, EndCycle);
    SequenceIsFound(s, pos, mid, k, c, EndCycle);
    assert Evaluate(Reference, s, pos, k, Cycle(c)).Matched?;
    RegularWellFormedAll(c);
    WellFormedOrderedAll(c);
    FactorCycle(Reference, s, pos, k, c, map[]);
    WidthOfAll(c, s, pos, mid);
    WidthOfAll(c, s, pos, Evaluate(Reference, s, pos, k, Cycle(c)).end);
  }

  lemma {:induction false} RepeatIsFound(s: seq<Code>, pos: nat, mid: nat, k: Captures, mode: Mode,
                                         a: nat, b: nat, c: Res, below: Stack, n: nat)
    requires RegularAll(c) && RegularBody(mode, c) && RepeatWellFormed(b, c) && WellFormedStack(below)
    requires InBounds(a, b, n) && SpansTimes(c, n, s, pos, mid) && MatchesFrom(s, mid, below) && pos <= |s|
    ensures EvaluateRepeat(Reference, s, pos, k, mode, a, b, c, below).Matched?
    decreases c, 5, 0
  {
    var p, k' := MandatoryIsFound(s, pos, mid, k, c, n, a);
    if mode == Lazy {
      LazyIsFound(s, p, mid, k', b, c, below, a, n - a);
    } else {
      GreedyIsFound(s, p, mid, k', b, c, below, a, n - a);
    }
  }

  lemma {:induction false} MandatoryIsFound(s: seq<Code>, pos: nat, mid: nat, k: Captures, c: Res, n: nat, a: nat)
    returns (p: nat, k': Captures)
    requires RegularAll(c) && TotalWidth(c).Fixed? && a <= n && SpansTimes(c, n, s, pos, mid) && pos <= |s|
    ensures Mandatory(Reference, s, pos, k, c, a) == Matched(p, k')
    ensures p <= |s| && SpansTimes(c, n - a, s, p, mid)
    decreases c, 4, a
  {
    if a == 0 {
      return pos, k;
    }
    var m: nat :| SpansAll(c, s, pos, m) && SpansTimes(c, n - 1, s, m, mid);
    CycleIsFound(s, pos, m, k, c);
    var r := Evaluate(Reference, s, pos, k, Cycle(c));
    p, k' := MandatoryIsFound(s, m, mid, r.captures, c, n - 1, a - 1);
  }

  lemma {:induction false} LazyIsFound(s: seq<Code>, pos: nat, mid: nat, k: Captures,
                                       b: nat, c: Res, below: Stack, i: nat, n: nat)
    requires RegularAll(c) && TotalWidth(c).Fixed? && RepeatWellFormed(b, c) && WellFormedStack(below)
    requires SpansTimes(c, n, s, pos, mid) && MatchesFrom(s, mid, below) && (b == 0 || i + n <= b) && pos <= |s|
    ensures LazyLoop(Reference, s, pos, k, b, c, below, i).Matched?
    decreases c, 4, n
  {
    NeverDiverges(Reference, s, pos, k, below);
    if n > 0 && Evaluate(Reference, s, pos, k, below).Failed? {
      var m: nat :| SpansAll(c, s, pos, m) && SpansTimes(c, n - 1, s, m, mid);
      CycleIsFound(s, pos, m, k, c);
      if b == 0 {
        CycleAdvances(Reference, s, pos, k, c);
      }
      LazyIsFound(s, m, mid, Evaluate(Reference, s, pos, k, Cycle(c)).captures, b, c, below, i + 1, n - 1);
    }
  }

  lemma {:induction false} GreedyIsFound(s: seq<Code>, pos: nat, mid: nat, k: Captures,
                                         b: nat, c: Res, below: Stack, i: nat, n: nat)
    requires RegularAll(c) && TotalWidth(c).Fixed? && RepeatWellFormed(b, c) && WellFormedStack(below)
    requires SpansTimes(c, n, s, pos, mid) && MatchesFrom(s, mid, below) && (b == 0 || i + n <= b) && pos <= |s|
    ensures GreedyLoop(Reference, s, pos, k, b, c, below, i).Matched?
    decreases c, 4, n
  {
    if n > 0 {
      var m: nat :| SpansAll(c, s, pos, m) && SpansTimes(c, n - 1, s, m, mid);
      CycleIsFound(s, pos, m, k, c);
      if b == 0 {
        CycleAdvances(Reference, s, pos, k, c);
      }
      GreedyIsFound(s, m, mid, Evaluate(Reference, s, pos, k, Cycle(c)).captures, b, c, below, i + 1, n - 1);
    } else {
      NeverDivergesLoops(Reference, s, pos, k, 0, b, c, below, i);
      assert Evaluate(Reference, s, pos, k, below).Matched?;
    }
  }

  // ----- the main theorems -----

  /** `match_re` succeeds if and only if the subject is in the language of the pattern. */
  lemma MatchIsExact(build: Build, s: seq<Code>, pattern: Re)
    requires Regular(pattern) && CaretSafe(Push(pattern, Push(AssertEnd, Finish)))
    ensures MatchRe(build, s, pattern).Matched? <==> Spans(pattern, s, 0, |s|)
  {
    RegularWellFormed(pattern);
    MatchUnchanged(build, s, pattern);
    var rest := Push(AssertEnd, Finish);
    if Spans(pattern, s, 0, |s|) {
      assert WellFormedStack(rest) by { assert WellFormedStack(Finish); }
      forall k ensures Evaluate(Reference, s, |s|, k, rest).Matched? {
        assert Evaluate(Reference, s, |s|, k, Finish).Matched?;
      }
      SpanIsFound(s, 0, |s|, map[], pattern, rest);
    }
    if MatchRe(Reference, s, pattern).Matched? {
      WellFormedOrdered(pattern);
      var sp := Factor(Reference, s, 0, map[], pattern, rest, map[]);
      assert Evaluate(Reference, s, sp.mid, sp.captures, rest).Matched?;
    }
  }

  /** A search attempt succeeds if and only if some span of the pattern starts there. */
  lemma SearchIsExact(build: Build, s: seq<Code>, it: nat, pattern: Re)
    requires it <= |s| && Regular(pattern) && CaretSafe(Push(pattern, Finish))
    ensures SearchAt(build, s, it, pattern).Matched? <==> exists j: nat :: Spans(pattern, s, it, j)
  {
    RegularWellFormed(pattern);
    SearchUnchanged(build, s, it, pattern);
    if j: nat :| Spans(pattern, s, it, j) {
      assert WellFormedStack(Finish) && MatchesFrom(s, j, Finish);
      SpanIsFound(s, it, j, map[], pattern, Finish);
    }
    if SearchAt(Reference, s, it, pattern).Matched? {
      WellFormedOrdered(pattern);
      var sp := Factor(Reference, s, it, map[], pattern, Finish, map[]);
      assert Spans(pattern, s, it, sp.mid);
    }
  }
}
