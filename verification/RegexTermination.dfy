/** Matching terminates when every unbounded repeat has a consuming body, and the captures never influence whether
    or where a stack matches. */
module RegexTermination {
  import opened RegexSyntax
  import opened RegexMatcher
  import opened RegexLanguage

  /** Every match of the tree consumes at least one character. */
  predicate Consumes(re: Re)
    decreases re
  {
    match re
    case One(_) => true
    case AnyCharacter => true
    case Str(text) => |text| > 0
    case Select(c) => ConsumesEach(c)
    case Sequence(c) => ConsumesSome(c)
    case Plus(_, c) => ConsumesSome(c)
    case Repeat(_, a, _, c) => a > 0 && ConsumesSome(c)
    case Capture(_, c) => ConsumesSome(c)
    case _ => false
  }

  predicate ConsumesEach(c: Res)
    decreases c
  {
    match c
    case Single(re) => Consumes(re)
    case Cons(h, t) => Consumes(h) && ConsumesEach(t)
  }

  predicate ConsumesSome(c: Res)
    decreases c
  {
    match c
    case Single(re) => Consumes(re)
    case Cons(h, t) => Consumes(h) || ConsumesSome(t)
  }

  lemma {:induction false} ConsumesSpan(re: Re, s: seq<Code>, i: nat, j: nat)
    requires Consumes(re) && Spans(re, s, i, j)
    ensures i < j
    decreases re
  {
    match re
    case Select(c) => ConsumesEachSpan(c, s, i, j);
    case Sequence(c) => ConsumesSomeSpan(c, s, i, j);
    case Capture(_, c) => ConsumesSomeSpan(c, s, i, j);
    case Plus(_, c) =>
      var n: nat :| n >= 1 && SpansTimes(c, n, s, i, j);
      ConsumesTimesSpan(c, n, s, i, j);
    case Repeat(_, a, b, c) =>
      var n: nat :| InBounds(a, b, n) && SpansTimes(c, n, s, i, j);
      ConsumesTimesSpan(c, n, s, i, j);
    case Str(text) =>
    case _ =>
  }

  lemma {:induction false} ConsumesEachSpan(c: Res, s: seq<Code>, i: nat, j: nat)
    requires ConsumesEach(c) && SpansOne(c, s, i, j)
    ensures i < j
    decreases c
  {
    match c
    case Single(re) => ConsumesSpan(re, s, i, j);
    case Cons(h, t) =>
      if Spans(h, s, i, j) {
        ConsumesSpan(h, s, i, j);
      } else {
        ConsumesEachSpan(t, s, i, j);
      }
  }

  lemma {:induction false} ConsumesSomeSpan(c: Res, s: seq<Code>, i: nat, j: nat)
    requires ConsumesSome(c) && SpansAll(c, s, i, j)
    ensures i < j
    decreases c, 0
  {
    match c
    case Single(re) => ConsumesSpan(re, s, i, j);
    case Cons(h, t) =>
      var m: nat :| Spans(h, s, i, m) && SpansAll(t, s, m, j);
      SpansAllInside(t, s, m, j);
      if Consumes(h) {
        ConsumesSpan(h, s, i, m);
      } else {
        ConsumesSomeSpan(t, s, m, j);
      }
  }

  lemma {:induction false} SpansTimesInside(c: Res, n: nat, s: seq<Code>, i: nat, j: nat)
    requires SpansTimes(c, n, s, i, j)
    ensures i <= j <= |s|
    decreases n
  {
    if n > 0 {
      var m: nat :| SpansAll(c, s, i, m) && SpansTimes(c, n - 1, s, m, j);
      SpansAllInside(c, s, i, m);
      SpansTimesInside(c, n - 1, s, m, j);
    }
  }

  lemma {:induction false} ConsumesTimesSpan(c: Res, n: nat, s: seq<Code>, i: nat, j: nat)
    requires ConsumesSome(c) && n > 0 && SpansTimes(c, n, s, i, j)
    ensures i < j
    decreases c, 1
  {
    var m: nat :| SpansAll(c, s, i, m) && SpansTimes(c, n - 1, s, m, j);
    ConsumesSomeSpan(c, s, i, m);
    SpansTimesInside(c, n - 1, s, m, j);
  }

  /** Every repeat without upper bound has a body that consumes, and bounds are ordered. */
  predicate WellFormed(re: Re)
    decreases re
  {
    match re
    case Repeat(_, a, b, c) => (if b == 0 then ConsumesSome(c) else a <= b) && WellFormedAll(c)
    case Plus(_, c) => ConsumesSome(c) && WellFormedAll(c)
    case Star(_, c) => ConsumesSome(c) && WellFormedAll(c)
    case Select(c) => WellFormedAll(c)
    case Optional(c) => WellFormedAll(c)
    case LazyOptional(c) => WellFormedAll(c)
    case Sequence(c) => WellFormedAll(c)
    case Capture(_, c) => WellFormedAll(c)
    case _ => true
  }

  predicate WellFormedAll(c: Res)
    decreases c
  {
    match c
    case Single(re) => WellFormed(re)
    case Cons(h, t) => WellFormed(h) && WellFormedAll(t)
  }

  predicate WellFormedStack(st: Stack) {
    match st
    case Finish => true
    case EndCycle => true
    case Close(_, below) => WellFormedStack(below)
    case Push(re, below) => WellFormed(re) && WellFormedStack(below)
  }

  lemma {:induction false} WellFormedOrdered(re: Re)
    requires WellFormed(re)
    ensures BoundsOrdered(re)
    decreases re
  {
    match re
    case Repeat(_, _, _, c) => WellFormedOrderedAll(c);
    case Plus(_, c) => WellFormedOrderedAll(c);
    case Star(_, c) => WellFormedOrderedAll(c);
    case Select(c) => WellFormedOrderedAll(c);
    case Optional(c) => WellFormedOrderedAll(c);
    case LazyOptional(c) => WellFormedOrderedAll(c);
    case Sequence(c) => WellFormedOrderedAll(c);
    case Capture(_, c) => WellFormedOrderedAll(c);
    case _ =>
  }

  lemma {:induction false} WellFormedOrderedAll(c: Res)
    requires WellFormedAll(c)
    ensures BoundsOrderedAll(c)
    decreases c
  {
    match c
    case Single(re) => WellFormedOrdered(re);
    case Cons(h, t) =>
      WellFormedOrdered(h);
      WellFormedOrderedAll(t);
  }

  /** An iteration of an unbounded repeat moves forward. */
  lemma CycleAdvances(build: Build, s: seq<Code>, pos: nat, k: Captures, c: Res)
    requires pos <= |s| && WellFormedAll(c) && ConsumesSome(c)
    requires Evaluate(build, s, pos, k, Cycle(c)).Matched?
    ensures pos < Evaluate(build, s, pos, k, Cycle(c)).end
  {
    WellFormedOrderedAll(c);
    FactorCycle(build, s, pos, k, c, map[]);
    ConsumesSomeSpan(c, s, pos, Evaluate(build, s, pos, k, Cycle(c)).end);
  }

  predicate RepeatWellFormed(b: nat, c: Res) {
    WellFormedAll(c) && (b == 0 ==> ConsumesSome(c))
  }

  /** Termination: no run on a well-formed stack goes on forever. */
  lemma {:induction false} NeverDiverges(build: Build, s: seq<Code>, pos: nat, k: Captures, st: Stack)
    requires pos <= |s| && WellFormedStack(st)
    ensures !Evaluate(build, s, pos, k, st).Diverges?
    decreases StackSize(st), |s| - pos, 1
  {
    hide SizeAll, WellFormedAll, Advance, EvaluateSelect, EvaluateSequence, EvaluateRepeat;
    match st
    case Finish =>
    case EndCycle =>
    case Close(id, below) => NeverDiverges(build, s, pos, EndCapture(k, id, pos), below);
    case Push(re, below) =>
      if Elementary(re) {
        var m := Advance(re, s, pos);
        if m.To? { NeverDiverges(build, s, m.pos, k, below); }
        return;
      } else if Repeated(re) {
        NeverDivergesRepeat(build, s, pos, k, re.mode, Low(re), High(re), re.content, below);
        return;
      }
      match re {
        case Select(options) => NeverDivergesSelect(build, s, pos, k, options, below);
        case Optional(c) => NeverDivergesOptional(build, s, pos, k, re, below);
        case LazyOptional(c) => NeverDivergesOptional(build, s, pos, k, re, below);
        case Sequence(c) => NeverDivergesSequence(build, s, pos, k, c, below);
        case Capture(id, c) => NeverDivergesCapture(build, s, pos, k, id, c, below);
      }
  }

  lemma {:induction false} NeverDivergesOptional(build: Build, s: seq<Code>, pos: nat, k: Captures,
                                                 re: Re, below: Stack)
    requires pos <= |s| && WellFormedStack(Push(re, below)) && (re.Optional? || re.LazyOptional?)
    ensures !Evaluate(build, s, pos, k, Push(Sequence(re.content), below)).Diverges?
    ensures !Evaluate(build, s, pos, k, below).Diverges?
    decreases Size(re) + StackSize(below), |s| - pos, 0
  {
    hide SizeAll, WellFormedAll, Evaluate;
    NeverDiverges(build, s, pos, k, Push(Sequence(re.content), below));
    NeverDiverges(build, s, pos, k, below);
  }

  lemma {:induction false} NeverDivergesCapture(build: Build, s: seq<Code>, pos: nat, k: Captures,
                                                id: nat, c: Res, below: Stack)
    requires pos <= |s| && WellFormedStack(Push(Capture(id, c), below))
    ensures !Evaluate(build, s, pos, StartCapture(k, id, pos), Push(Sequence(c), Close(id, below))).Diverges?
    decreases 3 + SizeAll(c) + StackSize(below), |s| - pos, 0
  {
    hide SizeAll, WellFormedAll, Evaluate;
    assert StackSize(Close(id, below)) == 1 + StackSize(below);
    assert WellFormedStack(Close(id, below));
    NeverDiverges(build, s, pos, StartCapture(k, id, pos), Push(Sequence(c), Close(id, below)));
  }

  lemma {:induction false} NeverDivergesSelect(build: Build, s: seq<Code>, pos: nat, k: Captures, c: Res, below: Stack)
    requires pos <= |s| && WellFormedAll(c) && WellFormedStack(below)
    ensures !EvaluateSelect(build, s, pos, k, c, below).Diverges?
    decreases 1 + SizeAll(c) + StackSize(below), |s| - pos, 0
  {
    match c
    case Single(h) => NeverDiverges(build, s, pos, k, Push(h, below));
    case Cons(h, t) =>
      NeverDiverges(build, s, pos, k, Push(h, below));
      NeverDivergesSelect(build, s, pos, k, t, below);
  }

  lemma {:induction false} NeverDivergesSequence(build: Build, s: seq<Code>, pos: nat, k: Captures,
                                                 c: Res, below: Stack)
    requires pos <= |s| && WellFormedAll(c) && WellFormedStack(below)
    ensures !EvaluateSequence(build, s, pos, k, c, below).Diverges?
    decreases 1 + SizeAll(c) + StackSize(below), |s| - pos, 0
  {
    match c
    case Single(h) => NeverDiverges(build, s, pos, k, Push(h, below));
    case Cons(h, t) =>
      assert StackSize(Push(Sequence(t), below)) == 1 + SizeAll(t) + StackSize(below);
      NeverDiverges(build, s, pos, k, Push(h, Push(Sequence(t), below)));
  }

  lemma {:induction false} NeverDivergesRepeat(build: Build, s: seq<Code>, pos: nat, k: Captures,
                                               mode: Mode, a: nat, b: nat, c: Res, below: Stack)
    requires pos <= |s| && RepeatWellFormed(b, c) && WellFormedStack(below)
    ensures !EvaluateRepeat(build, s, pos, k, mode, a, b, c, below).Diverges?
    decreases 2 + SizeAll(c) + StackSize(below), |s| - pos + 1, 0
  {
    if mode == Possessive || (mode == Greedy && GoesPossessive(build, c, below)) {
      NeverDivergesLoops(build, s, pos, k, a, b, c, below, 0);
    } else {
      NeverDivergesMandatory(build, s, pos, k, c, a);
      var r := Mandatory(build, s, pos, k, c, a);
      if r.Matched? {
        NeverDivergesLoops(build, s, r.end, r.captures, a, b, c, below, a);
      }
    }
  }

  lemma {:induction false} NeverDivergesCycle(build: Build, s: seq<Code>, pos: nat, k: Captures, c: Res)
    requires pos <= |s| && WellFormedAll(c)
    ensures !Evaluate(build, s, pos, k, Cycle(c)).Diverges?
    decreases 2 + SizeAll(c), |s| - pos, 2
  {
    assert WellFormedStack(EndCycle);
    NeverDiverges(build, s, pos, k, Cycle(c));
  }

  lemma {:induction false} NeverDivergesMandatory(build: Build, s: seq<Code>, pos: nat, k: Captures, c: Res, n: nat)
    requires pos <= |s| && WellFormedAll(c)
    ensures !Mandatory(build, s, pos, k, c, n).Diverges?
    decreases 2 + SizeAll(c), |s| - pos, n + 3
  {
    if n > 0 {
      NeverDivergesCycle(build, s, pos, k, c);
      match Evaluate(build, s, pos, k, Cycle(c))
      case Matched(p, k') => NeverDivergesMandatory(build, s, p, k', c, n - 1);
      case _ =>
    }
  }

  lemma {:induction false} NeverDivergesLoops(build: Build, s: seq<Code>, pos: nat, k: Captures,
                                              a: nat, b: nat, c: Res, below: Stack, i: nat)
    requires pos <= |s| && RepeatWellFormed(b, c) && WellFormedStack(below)
    ensures !PossessiveLoop(build, s, pos, k, a, b, c, below, i).Diverges?
    ensures !LazyLoop(build, s, pos, k, b, c, below, i).Diverges?
    ensures !GreedyLoop(build, s, pos, k, b, c, below, i).Diverges?
    decreases 2 + SizeAll(c) + StackSize(below), |s| - pos, if i < b then b - i else 0
  {
    NeverDiverges(build, s, pos, k, below);
    NeverDivergesCycle(build, s, pos, k, c);
    match Evaluate(build, s, pos, k, Cycle(c))
    case Matched(p, k') =>
      if b == 0 {
        CycleAdvances(build, s, pos, k, c);
      }
      if MoreAllowed(b, i) {
        NeverDivergesLoops(build, s, p, k', a, b, c, below, i + 1);
      }
    case _ =>
  }

  // ----- captures do not influence matching -----

  /** The same verdict and the same end. */
  predicate SameVerdict(r1: Outcome, r2: Outcome) {
    && (r1.Failed? <==> r2.Failed?)
    && (r1.Diverges? <==> r2.Diverges?)
    && (r1.Matched? && r2.Matched? ==> r1.end == r2.end)
  }

  lemma {:induction false} CapturesIrrelevant(build: Build, s: seq<Code>, pos: nat, k1: Captures, k2: Captures,
                                              st: Stack)
    requires pos <= |s|
    ensures SameVerdict(Evaluate(build, s, pos, k1, st), Evaluate(build, s, pos, k2, st))
    decreases StackSize(st), |s| - pos, 1
  {
    hide SizeAll, Advance, EvaluateSelect, EvaluateSequence, EvaluateRepeat;
    match st
    case Finish =>
    case EndCycle =>
    case Close(id, below) => CapturesIrrelevant(build, s, pos, EndCapture(k1, id, pos), EndCapture(k2, id, pos), below);
    case Push(re, below) =>
      if Elementary(re) {
        var m := Advance(re, s, pos);
        if m.To? { CapturesIrrelevant(build, s, m.pos, k1, k2, below); }
        return;
      } else if Repeated(re) {
        CapturesIrrelevantRepeat(build, s, pos, k1, k2, re.mode, Low(re), High(re), re.content, below);
        return;
      }
      match re {
        case Select(options) => CapturesIrrelevantSelect(build, s, pos, k1, k2, options, below);
        case Optional(c) => CapturesIrrelevantOptional(build, s, pos, k1, k2, re, below);
        case LazyOptional(c) => CapturesIrrelevantOptional(build, s, pos, k1, k2, re, below);
        case Sequence(c) => CapturesIrrelevantSequence(build, s, pos, k1, k2, c, below);
        case Capture(id, c) =>
          assert StackSize(Close(id, below)) == 1 + StackSize(below);
          CapturesIrrelevant(build, s, pos, StartCapture(k1, id, pos), StartCapture(k2, id, pos),
                             Push(Sequence(c), Close(id, below)));
      }
  }

  lemma {:induction false} CapturesIrrelevantOptional(build: Build, s: seq<Code>, pos: nat, k1: Captures, k2: Captures,
                                                      re: Re, below: Stack)
    requires pos <= |s| && (re.Optional? || re.LazyOptional?)
    ensures SameVerdict(Evaluate(build, s, pos, k1, Push(Sequence(re.content), below)),
                        Evaluate(build, s, pos, k2, Push(Sequence(re.content), below)))
    ensures SameVerdict(Evaluate(build, s, pos, k1, below), Evaluate(build, s, pos, k2, below))
    decreases Size(re) + StackSize(below), |s| - pos, 0
  {
    hide SizeAll, Evaluate;
    CapturesIrrelevant(build, s, pos, k1, k2, Push(Sequence(re.content), below));
    CapturesIrrelevant(build, s, pos, k1, k2, below);
  }

  lemma {:induction false} CapturesIrrelevantSelect(build: Build, s: seq<Code>, pos: nat, k1: Captures, k2: Captures,
                                                    c: Res, below: Stack)
    requires pos <= |s|
    ensures SameVerdict(EvaluateSelect(build, s, pos, k1, c, below), EvaluateSelect(build, s, pos, k2, c, below))
    decreases 1 + SizeAll(c) + StackSize(below), |s| - pos, 0
  {
    match c
    case Single(h) => CapturesIrrelevant(build, s, pos, k1, k2, Push(h, below));
    case Cons(h, t) =>
      CapturesIrrelevant(build, s, pos, k1, k2, Push(h, below));
      CapturesIrrelevantSelect(build, s, pos, k1, k2, t, below);
  }

  lemma {:induction false} CapturesIrrelevantSequence(build: Build, s: seq<Code>, pos: nat, k1: Captures, k2: Captures,
                                                      c: Res, below: Stack)
    requires pos <= |s|
    ensures SameVerdict(EvaluateSequence(build, s, pos, k1, c, below), EvaluateSequence(build, s, pos, k2, c, below))
    decreases 1 + SizeAll(c) + StackSize(below), |s| - pos, 0
  {
    match c
    case Single(h) => CapturesIrrelevant(build, s, pos, k1, k2, Push(h, below));
    case Cons(h, t) =>
      assert StackSize(Push(Sequence(t), below)) == 1 + SizeAll(t) + StackSize(below);
      CapturesIrrelevant(build, s, pos, k1, k2, Push(h, Push(Sequence(t), below)));
  }

  lemma {:induction false} CapturesIrrelevantRepeat(build: Build, s: seq<Code>, pos: nat, k1: Captures, k2: Captures,
                                                    mode: Mode, a: nat, b: nat, c: Res, below: Stack)
    requires pos <= |s|
    ensures SameVerdict(EvaluateRepeat(build, s, pos, k1, mode, a, b, c, below),
                        EvaluateRepeat(build, s, pos, k2, mode, a, b, c, below))
    decreases 2 + SizeAll(c) + StackSize(below), |s| - pos + 1, 0
  {
    hide EvaluateRepeat, Mandatory, PossessiveLoop, LazyLoop, GreedyLoop, GoesPossessive;
    RepeatTurn(build, s, pos, k1, mode, a, b, c, below);
    RepeatTurn(build, s, pos, k2, mode, a, b, c, below);
    if mode == Possessive || (mode == Greedy && GoesPossessive(build, c, below)) {
      CapturesIrrelevantPossessive(build, s, pos, k1, k2, a, b, c, below, 0);
    } else {
      CapturesIrrelevantMandatory(build, s, pos, k1, k2, c, a);
      var r1, r2 := Mandatory(build, s, pos, k1, c, a), Mandatory(build, s, pos, k2, c, a);
      if r1.Matched? {
        if mode == Lazy {
          CapturesIrrelevantLazy(build, s, r1.end, r1.captures, r2.captures, b, c, below, a);
        } else {
          CapturesIrrelevantGreedy(build, s, r1.end, r1.captures, r2.captures, b, c, below, a);
        }
      }
    }
  }

  lemma {:induction false} CapturesIrrelevantMandatory(build: Build, s: seq<Code>, pos: nat, k1: Captures, k2: Captures,
                                                       c: Res, n: nat)
    requires pos <= |s|
    ensures SameVerdict(Mandatory(build, s, pos, k1, c, n), Mandatory(build, s, pos, k2, c, n))
    decreases 2 + SizeAll(c), |s| - pos, n + 2
  {
    if n > 0 {
      CapturesIrrelevant(build, s, pos, k1, k2, Cycle(c));
      match Evaluate(build, s, pos, k1, Cycle(c))
      case Matched(p, k1') =>
        CapturesIrrelevantMandatory(build, s, p, k1', Evaluate(build, s, pos, k2, Cycle(c)).captures, c, n - 1);
      case _ =>
    }
  }

  lemma {:induction false} CapturesIrrelevantPossessive(build: Build, s: seq<Code>, pos: nat,
                                                        k1: Captures, k2: Captures,
                                                        a: nat, b: nat, c: Res, below: Stack, i: nat)
    requires pos <= |s|
    ensures SameVerdict(PossessiveLoop(build, s, pos, k1, a, b, c, below, i),
                        PossessiveLoop(build, s, pos, k2, a, b, c, below, i))
    decreases 2 + SizeAll(c) + StackSize(below), |s| - pos, if i < b then b - i else 0
  {
    hide Evaluate, PossessiveLoop, SizeAll, StackSize;
    PossessiveTurn(build, s, pos, k1, a, b, c, below, i);
    PossessiveTurn(build, s, pos, k2, a, b, c, below, i);
    CapturesIrrelevant(build, s, pos, k1, k2, below);
    CapturesIrrelevant(build, s, pos, k1, k2, Cycle(c));
    var r1, r2 := Evaluate(build, s, pos, k1, Cycle(c)), Evaluate(build, s, pos, k2, Cycle(c));
    if r1.Matched? && MoreAllowed(b, i) && !(b == 0 && r1.end == pos) {
      CapturesIrrelevantPossessive(build, s, r1.end, r1.captures, r2.captures, a, b, c, below, i + 1);
    }
  }

  lemma {:induction false} CapturesIrrelevantLazy(build: Build, s: seq<Code>, pos: nat, k1: Captures, k2: Captures,
                                                     b: nat, c: Res, below: Stack, i: nat)
    requires pos <= |s|
    ensures SameVerdict(LazyLoop(build, s, pos, k1, b, c, below, i), LazyLoop(build, s, pos, k2, b, c, below, i))
    decreases 2 + SizeAll(c) + StackSize(below), |s| - pos, if i < b then b - i else 0
  {
    hide Evaluate, LazyLoop, SizeAll, StackSize;
    LazyTurn(build, s, pos, k1, b, c, below, i);
    LazyTurn(build, s, pos, k2, b, c, below, i);
    CapturesIrrelevant(build, s, pos, k1, k2, below);
    CapturesIrrelevant(build, s, pos, k1, k2, Cycle(c));
    var r1, r2 := Evaluate(build, s, pos, k1, Cycle(c)), Evaluate(build, s, pos, k2, Cycle(c));
    if r1.Matched? && MoreAllowed(b, i) && !(b == 0 && r1.end == pos) {
      CapturesIrrelevantLazy(build, s, r1.end, r1.captures, r2.captures, b, c, below, i + 1);
    }
  }

  lemma {:induction false} CapturesIrrelevantGreedy(build: Build, s: seq<Code>, pos: nat, k1: Captures, k2: Captures,
                                                     b: nat, c: Res, below: Stack, i: nat)
    requires pos <= |s|
    ensures SameVerdict(GreedyLoop(build, s, pos, k1, b, c, below, i), GreedyLoop(build, s, pos, k2, b, c, below, i))
    decreases 2 + SizeAll(c) + StackSize(below), |s| - pos, if i < b then b - i else 0
  {
    hide Evaluate, GreedyLoop, SizeAll, StackSize;
    GreedyTurn(build, s, pos, k1, b, c, below, i);
    GreedyTurn(build, s, pos, k2, b, c, below, i);
    CapturesIrrelevant(build, s, pos, k1, k2, below);
    CapturesIrrelevant(build, s, pos, k1, k2, Cycle(c));
    var r1, r2 := Evaluate(build, s, pos, k1, Cycle(c)), Evaluate(build, s, pos, k2, Cycle(c));
    if r1.Matched? && MoreAllowed(b, i) && !(b == 0 && r1.end == pos) {
      CapturesIrrelevantGreedy(build, s, r1.end, r1.captures, r2.captures, b, c, below, i + 1);
    }
  }
}
