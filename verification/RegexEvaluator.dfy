/** The matcher in its imperative form: the repeat loops and the search loop, each proved against `Evaluate`. */
module RegexEvaluator {
  import opened RegexSyntax
  import opened RegexMatcher
  import opened RegexLanguage
  import opened RegexTermination
  import opened RegexPossessive
  import opened RegexExact

  /** `evaluate`. */
  method Run(build: Build, s: seq<Code>, pos: nat, caps: Captures, st: Stack) returns (r: Outcome)
    requires pos <= |s|
    ensures r == Evaluate(build, s, pos, caps, st)
    decreases StackSize(st), |s| - pos, 1
  {
    match st
    case Finish => r := Matched(pos, caps);
    case EndCycle => r := Matched(pos, caps);
    case Close(id, below) => r := Run(build, s, pos, EndCapture(caps, id, pos), below);
    case Push(re, below) =>
      if Elementary(re) {
        match Advance(re, s, pos)
        case Rejects => r := Failed;
        case To(p) => r := Run(build, s, p, caps, below);
      } else if Repeated(re) {
        r := RunRepeat(build, s, pos, caps, re.mode, Low(re), High(re), re.content, below);
      } else {
        match re
        case Select(c) => r := RunSelect(build, s, pos, caps, c, below);
        case Sequence(c) => r := RunSequence(build, s, pos, caps, c, below);
        case Optional(c) =>
          r := RunSequence(build, s, pos, caps, c, below);
          if r.Failed? { r := Run(build, s, pos, caps, below); }
        case LazyOptional(c) =>
          r := Run(build, s, pos, caps, below);
          if r.Failed? { r := RunSequence(build, s, pos, caps, c, below); }
        case Capture(id, c) =>
          assert StackSize(Close(id, below)) == 1 + StackSize(below);
          r := RunSequence(build, s, pos, StartCapture(caps, id, pos), c, Close(id, below));
      }
  }

  method RunSelect(build: Build, s: seq<Code>, pos: nat, caps: Captures, c: Res, below: Stack) returns (r: Outcome)
    requires pos <= |s|
    ensures r == EvaluateSelect(build, s, pos, caps, c, below)
    decreases 1 + SizeAll(c) + StackSize(below), |s| - pos, 0
  {
    match c
    case Single(h) => r := Run(build, s, pos, caps, Push(h, below));
    case Cons(h, t) =>
      r := Run(build, s, pos, caps, Push(h, below));
      if r.Failed? { r := RunSelect(build, s, pos, caps, t, below); }
  }

  method RunSequence(build: Build, s: seq<Code>, pos: nat, caps: Captures, c: Res, below: Stack) returns (r: Outcome)
    requires pos <= |s|
    ensures r == EvaluateSequence(build, s, pos, caps, c, below)
    ensures r == Evaluate(build, s, pos, caps, Push(Sequence(c), below))
    decreases 1 + SizeAll(c) + StackSize(below), |s| - pos, 0
  {
    match c
    case Single(h) => r := Run(build, s, pos, caps, Push(h, below));
    case Cons(h, t) =>
      assert StackSize(Push(Sequence(t), below)) == 1 + SizeAll(t) + StackSize(below);
      r := Run(build, s, pos, caps, Push(h, Push(Sequence(t), below)));
  }

  method RunRepeat(build: Build, s: seq<Code>, pos: nat, caps: Captures,
                   mode: Mode, a: nat, b: nat, c: Res, below: Stack) returns (r: Outcome)
    requires pos <= |s|
    ensures r == EvaluateRepeat(build, s, pos, caps, mode, a, b, c, below)
    decreases 2 + SizeAll(c) + StackSize(below), |s| - pos + 1, 0
  {
    hide EvaluateRepeat, Mandatory, PossessiveLoop, LazyLoop, GreedyLoop, GoesPossessive;
    RepeatTurn(build, s, pos, caps, mode, a, b, c, below);
    if mode == Possessive || (mode == Greedy && GoesPossessive(build, c, below)) {
      r := RunPossessive(build, s, pos, caps, a, b, c, below);
    } else {
      r := RunMandatory(build, s, pos, caps, c, a);
      if r.Matched? {
        if mode == Lazy {
          r := RunLazy(build, s, r.end, r.captures, a, b, c, below);
        } else {
          r := RunGreedy(build, s, r.end, r.captures, b, c, below, a);
        }
      }
    }
  }

  /** The loop over the first `a` iterations, shared by the lazy and the greedy repeat. */
  method RunMandatory(build: Build, s: seq<Code>, pos: nat, caps: Captures, c: Res, a: nat) returns (r: Outcome)
    requires pos <= |s|
    ensures r == Mandatory(build, s, pos, caps, c, a)
    decreases 2 + SizeAll(c), |s| - pos, a + 2
  {
    var i, current, captures := 0, pos, caps;
    while i < a
      invariant i <= a && pos <= current <= |s|
      invariant Mandatory(build, s, pos, caps, c, a) == Mandatory(build, s, current, captures, c, a - i)
    {
      var outer := Run(build, s, current, captures, Cycle(c));
      if !outer.Matched? {
        return outer;
      }
      captures, current, i := outer.captures, outer.end, i + 1;
    }
    r := Matched(current, captures);
  }

  /** Try as many iterations as possible, then the rest once. */
  method RunPossessive(build: Build, s: seq<Code>, pos: nat, caps: Captures,
                       a: nat, b: nat, c: Res, below: Stack) returns (r: Outcome)
    requires pos <= |s|
    ensures r == PossessiveLoop(build, s, pos, caps, a, b, c, below, 0)
    decreases 2 + SizeAll(c) + StackSize(below), |s| - pos, 2
  {
    hide Evaluate, PossessiveLoop;
    var i, current, captures := 0, pos, caps;
    while MoreAllowed(b, i)
      invariant pos <= current <= |s|
      invariant PossessiveLoop(build, s, pos, caps, a, b, c, below, 0)
             == PossessiveLoop(build, s, current, captures, a, b, c, below, i)
      decreases |s| - current, if i < b then b - i else 0
    {
      PossessiveTurn(build, s, current, captures, a, b, c, below, i);
      var inner := Run(build, s, current, captures, Cycle(c));
      match inner {
        case Matched(p, k) =>
          if b == 0 && p == current {
            return Diverges;
          }
          captures, current, i := k, p, i + 1;
        case Diverges => return Diverges;
        case Failed =>
          if i < a {
            return Failed;
          }
          r := Run(build, s, current, captures, below);
          return;
      }
    }
    PossessiveTurn(build, s, current, captures, a, b, c, below, i);
    r := Run(build, s, current, captures, below);
  }

  /** After the mandatory iterations: the rest first, one more iteration each time it fails. */
  method RunLazy(build: Build, s: seq<Code>, pos: nat, caps: Captures,
                 a: nat, b: nat, c: Res, below: Stack) returns (r: Outcome)
    requires pos <= |s|
    ensures r == LazyLoop(build, s, pos, caps, b, c, below, a)
    decreases 2 + SizeAll(c) + StackSize(below), |s| - pos, 2
  {
    hide Evaluate, LazyLoop;
    var i: nat, current, captures := a, pos, caps;
    LazyTurn(build, s, pos, caps, b, c, below, a);
    r := Run(build, s, current, captures, below);
    if !r.Failed? {
      return;
    }
    while MoreAllowed(b, i)
      invariant pos <= current <= |s|
      invariant Evaluate(build, s, current, captures, below).Failed?
      invariant LazyLoop(build, s, pos, caps, b, c, below, a) == LazyLoop(build, s, current, captures, b, c, below, i)
      decreases |s| - current, if i < b then b - i else 0
    {
      LazyTurn(build, s, current, captures, b, c, below, i);
      var inner := Run(build, s, current, captures, Cycle(c));
      if !inner.Matched? {
        return inner;
      }
      if b == 0 && inner.end == current {
        return Diverges;
      }
      LazyTurn(build, s, inner.end, inner.captures, b, c, below, i + 1);
      r := Run(build, s, inner.end, inner.captures, below);
      if !r.Failed? {
        return;
      }
      captures, current, i := inner.captures, inner.end, i + 1;
    }
    LazyTurn(build, s, current, captures, b, c, below, i);
    r := Run(build, s, current, captures, below);
  }

  /** `evaluate_recursive`. */
  method RunGreedy(build: Build, s: seq<Code>, pos: nat, caps: Captures,
                   b: nat, c: Res, below: Stack, i: nat) returns (r: Outcome)
    requires pos <= |s|
    ensures r == GreedyLoop(build, s, pos, caps, b, c, below, i)
    decreases 2 + SizeAll(c) + StackSize(below), |s| - pos, 2 + if i < b then b - i else 0
  {
    hide Evaluate, GreedyLoop;
    GreedyTurn(build, s, pos, caps, b, c, below, i);
    if MoreAllowed(b, i) {
      var inner := Run(build, s, pos, caps, Cycle(c));
      match inner {
        case Matched(p, k) =>
          if b == 0 && p == pos {
            return Diverges;
          }
          r := RunGreedy(build, s, p, k, b, c, below, i + 1);
          if !r.Failed? {
            return;
          }
        case Diverges => return Diverges;
        case Failed =>
      }
    }
    r := Run(build, s, pos, caps, below);
  }

  /** The answer of a search: the attempt at `it` ended it and all earlier attempts failed. */
  ghost predicate SearchAnswer(build: Build, s: seq<Code>, pattern: Re, it: nat, r: Outcome) {
    && it <= |s| && r == SearchAt(build, s, it, pattern)
    && (forall j: nat | j < it :: SearchAt(build, s, j, pattern).Failed?)
    && (r.Failed? ==> it == |s|)
  }

  /** `search_re`: the smallest start at which an attempt does not fail, the end of the subject included. */
  method SearchRe(build: Build, s: seq<Code>, pattern: Re) returns (it: nat, r: Outcome)
    ensures SearchAnswer(build, s, pattern, it, r)
  {
    it := 0;
    while it != |s|
      invariant it <= |s|
      invariant forall j: nat | j < it :: SearchAt(build, s, j, pattern).Failed?
    {
      r := Run(build, s, it, map[], Push(pattern, Finish));
      if !r.Failed? {
        return;
      }
      it := it + 1;
    }
    r := Run(build, s, it, map[], Push(pattern, Finish));
  }

  /** On regular patterns a search finds the leftmost span of the pattern, and fails only when there is none. */
  lemma SearchFindsLeftmost(build: Build, s: seq<Code>, pattern: Re, it: nat, r: Outcome)
    requires Regular(pattern) && CaretSafe(Push(pattern, Finish))
    requires SearchAnswer(build, s, pattern, it, r)
    ensures r.Matched? ==> Spans(pattern, s, it, r.end)
    ensures r.Matched? <==> exists i: nat, j: nat :: Spans(pattern, s, i, j)
    ensures forall i: nat, j: nat | Spans(pattern, s, i, j) :: it <= i
  {
    forall i: nat, j: nat | Spans(pattern, s, i, j)
      ensures it <= i <= |s| && SearchAt(build, s, i, pattern).Matched?
    {
      assert i <= j <= |s|;
      SearchIsExact(build, s, i, pattern);
      assert Spans(pattern, s, i, j);
    }
    if r.Matched? {
      RegularWellFormed(pattern);
      WellFormedOrdered(pattern);
      var sp := Factor(build, s, it, map[], pattern, Finish, map[]);
      assert Spans(pattern, s, it, r.end);
    } else {
      RegularWellFormed(pattern);
      assert WellFormedStack(Finish);
      NeverDiverges(build, s, it, map[], Push(pattern, Finish));
    }
  }
}
