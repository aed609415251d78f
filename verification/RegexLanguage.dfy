/** The language of a pattern, and soundness of the matcher with respect to it: whatever is matched lies in the
    language, and every matched group holds a span of its own content. */
module RegexLanguage {
  import opened RegexSyntax
  import opened RegexMatcher

  /** s[i..j] is in the language of re, the assertions being read at their place in s. */
  ghost predicate Spans(re: Re, s: seq<Code>, i: nat, j: nat)
    decreases re, 0
  {
    i <= j <= |s| &&
    match re
    case One(m) => j == i + 1 && Accepts(m, s[i])
    case AnyCharacter => j == i + 1
    case Str(text) => s[i..j] == text
    case Select(options) => SpansOne(options, s, i, j)
    case Optional(c) => i == j || SpansAll(c, s, i, j)
    case LazyOptional(c) => i == j || SpansAll(c, s, i, j)
    case Sequence(c) => SpansAll(c, s, i, j)
    case Empty => i == j
    case Plus(_, c) => exists n: nat :: n >= 1 && SpansTimes(c, n, s, i, j)
    case Star(_, c) => exists n: nat :: SpansTimes(c, n, s, i, j)
    case Repeat(_, a, b, c) => exists n: nat :: InBounds(a, b, n) && SpansTimes(c, n, s, i, j)
    case Capture(_, c) => SpansAll(c, s, i, j)
    case AssertBegin => i == j == 0
    case AssertEnd => i == j == |s|
  }

  predicate InBounds(a: nat, b: nat, n: nat) {
    a <= n && (b == 0 || n <= b)
  }

  /** The concatenation of the members. */
  ghost predicate SpansAll(c: Res, s: seq<Code>, i: nat, j: nat)
    decreases c, 0
  {
    match c
    case Single(re) => Spans(re, s, i, j)
    case Cons(h, t) => exists m: nat :: Spans(h, s, i, m) && SpansAll(t, s, m, j)
  }

  /** The union of the members. */
  ghost predicate SpansOne(c: Res, s: seq<Code>, i: nat, j: nat)
    decreases c, 0
  {
    match c
    case Single(re) => Spans(re, s, i, j)
    case Cons(h, t) => Spans(h, s, i, j) || SpansOne(t, s, i, j)
  }

  /** n repetitions of the concatenation of the members. */
  ghost predicate SpansTimes(c: Res, n: nat, s: seq<Code>, i: nat, j: nat)
    decreases c, 1, n
  {
    if n == 0 then i == j <= |s|
    else exists m: nat :: SpansAll(c, s, i, m) && SpansTimes(c, n - 1, s, m, j)
  }

  // ----- static conditions on patterns -----

  /** Every repeat has a <= b or b == 0. */
  predicate BoundsOrdered(re: Re)
    decreases re
  {
    match re
    case Repeat(_, a, b, c) => (a <= b || b == 0) && BoundsOrderedAll(c)
    case Select(c) => BoundsOrderedAll(c)
    case Optional(c) => BoundsOrderedAll(c)
    case LazyOptional(c) => BoundsOrderedAll(c)
    case Sequence(c) => BoundsOrderedAll(c)
    case Plus(_, c) => BoundsOrderedAll(c)
    case Star(_, c) => BoundsOrderedAll(c)
    case Capture(_, c) => BoundsOrderedAll(c)
    case _ => true
  }

  predicate BoundsOrderedAll(c: Res)
    decreases c
  {
    match c
    case Single(re) => BoundsOrdered(re)
    case Cons(h, t) => BoundsOrdered(h) && BoundsOrderedAll(t)
  }

  /** The group numbers occurring in a tree. */
  function Ids(re: Re): set<nat>
    decreases re
  {
    match re
    case Capture(id, c) => {id} + IdsAll(c)
    case Select(c) => IdsAll(c)
    case Optional(c) => IdsAll(c)
    case LazyOptional(c) => IdsAll(c)
    case Sequence(c) => IdsAll(c)
    case Plus(_, c) => IdsAll(c)
    case Star(_, c) => IdsAll(c)
    case Repeat(_, _, _, c) => IdsAll(c)
    case _ => {}
  }

  function IdsAll(c: Res): set<nat>
    decreases c
  {
    match c
    case Single(re) => Ids(re)
    case Cons(h, t) => Ids(h) + IdsAll(t)
  }

  /** `content` gives the content of every group, and no group contains itself. */
  predicate Numbered(re: Re, content: map<nat, Res>)
    decreases re
  {
    match re
    case Capture(id, c) => id in content && content[id] == c && id !in IdsAll(c) && NumberedAll(c, content)
    case Select(c) => NumberedAll(c, content)
    case Optional(c) => NumberedAll(c, content)
    case LazyOptional(c) => NumberedAll(c, content)
    case Sequence(c) => NumberedAll(c, content)
    case Plus(_, c) => NumberedAll(c, content)
    case Star(_, c) => NumberedAll(c, content)
    case Repeat(_, _, _, c) => NumberedAll(c, content)
    case _ => true
  }

  predicate NumberedAll(c: Res, content: map<nat, Res>)
    decreases c
  {
    match c
    case Single(re) => Numbered(re, content)
    case Cons(h, t) => Numbered(h, content) && NumberedAll(t, content)
  }

  // ----- captures -----

  /** The group is matched and its span lies in the language of its content. */
  ghost predicate GroupHolds(content: map<nat, Res>, s: seq<Code>, id: nat, g: Group) {
    g.matched && id in content && SpansAll(content[id], s, g.begin, g.end)
  }

  /** From `k` to `k'` only groups of `ids` change, and those that change hold a span of their content. */
  ghost predicate Updates(content: map<nat, Res>, s: seq<Code>, ids: set<nat>, k: Captures, k': Captures) {
    forall id: nat :: Get(k', id) == Get(k, id) || (id in ids && GroupHolds(content, s, id, Get(k', id)))
  }

  /** How matching (re, below...) factors: re spans [pos, mid] and the rest is matched from mid on. */
  datatype Split = Split(mid: nat, captures: Captures)

  ghost predicate SplitOk(build: Build, s: seq<Code>, pos: nat, k: Captures, below: Stack, r: Outcome,
                          numbered: bool, content: map<nat, Res>, ids: set<nat>, sp: Split) {
    && pos <= sp.mid <= |s|
    && Evaluate(build, s, sp.mid, sp.captures, below) == r
    && (numbered ==> Updates(content, s, ids, k, sp.captures))
  }

  /** A match of (re, below...) is a span of re followed by a match of below. */
  lemma {:induction false} Factor(build: Build, s: seq<Code>, pos: nat, k: Captures, re: Re, below: Stack,
                                  content: map<nat, Res>) returns (sp: Split)
    requires pos <= |s| && BoundsOrdered(re)
    requires Evaluate(build, s, pos, k, Push(re, below)).Matched?
    ensures Spans(re, s, pos, sp.mid)
    ensures SplitOk(build, s, pos, k, below, Evaluate(build, s, pos, k, Push(re, below)),
                    Numbered(re, content), content, Ids(re), sp)
    decreases re, 2, 0, 0
  {
    if Elementary(re) {
      sp := Split(Advance(re, s, pos).pos, k);
      return;
    } else if Repeated(re) {
      sp := FactorRepeat(build, s, pos, k, re.mode, Low(re), High(re), re.content, below, content);
      return;
    }
    match re
    case Select(options) => sp := FactorSelect(build, s, pos, k, options, below, content);
    case Optional(c) => sp := FactorOptional(build, s, pos, k, re, c, below, content);
    case LazyOptional(c) => sp := FactorOptional(build, s, pos, k, re, c, below, content);
    case Sequence(c) => sp := FactorSequence(build, s, pos, k, c, below, content);
    case Capture(id, c) => sp := FactorCapture(build, s, pos, k, id, c, below, content);
  }

  lemma {:induction false} FactorOptional(build: Build, s: seq<Code>, pos: nat, k: Captures, re: Re, c: Res,
                                          below: Stack, content: map<nat, Res>) returns (sp: Split)
    requires pos <= |s| && BoundsOrderedAll(c) && (re == Optional(c) || re == LazyOptional(c))
    requires Evaluate(build, s, pos, k, Push(re, below)).Matched?
    ensures pos == sp.mid || SpansAll(c, s, pos, sp.mid)
    ensures SplitOk(build, s, pos, k, below, Evaluate(build, s, pos, k, Push(re, below)),
                    NumberedAll(c, content), content, IdsAll(c), sp)
    decreases c, 2, 0, 0
  {
    var r1, r2 := EvaluateSequence(build, s, pos, k, c, below), Evaluate(build, s, pos, k, below);
    assert r1 == Evaluate(build, s, pos, k, Push(Sequence(c), below));
    if r1.Failed? || (re.LazyOptional? && !r2.Failed?) {
      sp := Split(pos, k);
    } else {
      sp := FactorSequence(build, s, pos, k, c, below, content);
    }
  }

  lemma {:induction false} FactorCapture(build: Build, s: seq<Code>, pos: nat, k: Captures, id: nat, c: Res,
                                         below: Stack, content: map<nat, Res>) returns (sp: Split)
    requires pos <= |s| && BoundsOrderedAll(c)
    requires Evaluate(build, s, pos, k, Push(Capture(id, c), below)).Matched?
    ensures SpansAll(c, s, pos, sp.mid)
    ensures SplitOk(build, s, pos, k, below, Evaluate(build, s, pos, k, Push(Capture(id, c), below)),
                    Numbered(Capture(id, c), content), content, {id} + IdsAll(c), sp)
    decreases c, 2, 0, 0
  {
    var k1 := StartCapture(k, id, pos);
    assert Evaluate(build, s, pos, k, Push(Capture(id, c), below))
        == EvaluateSequence(build, s, pos, k1, c, Close(id, below));
    var inner := FactorSequence(build, s, pos, k1, c, Close(id, below), content);
    sp := Split(inner.mid, EndCapture(inner.captures, id, inner.mid));
    if Numbered(Capture(id, c), content) {
      assert Get(inner.captures, id) == Get(k1, id);
      assert GroupHolds(content, s, id, Get(sp.captures, id));
      forall other: nat | other != id
        ensures Get(sp.captures, other) == Get(inner.captures, other) && Get(k1, other) == Get(k, other)
      {}
    }
  }

  lemma {:induction false} FactorSelect(build: Build, s: seq<Code>, pos: nat, k: Captures, c: Res, below: Stack,
                                        content: map<nat, Res>) returns (sp: Split)
    requires pos <= |s| && BoundsOrderedAll(c)
    requires EvaluateSelect(build, s, pos, k, c, below).Matched?
    ensures SpansOne(c, s, pos, sp.mid)
    ensures SplitOk(build, s, pos, k, below, EvaluateSelect(build, s, pos, k, c, below),
                    NumberedAll(c, content), content, IdsAll(c), sp)
    decreases c, 1, 0, 0
  {
    match c
    case Single(h) => sp := Factor(build, s, pos, k, h, below, content);
    case Cons(h, t) =>
      if Evaluate(build, s, pos, k, Push(h, below)).Failed? {
        sp := FactorSelect(build, s, pos, k, t, below, content);
      } else {
        sp := Factor(build, s, pos, k, h, below, content);
      }
  }

  lemma {:induction false} FactorSequence(build: Build, s: seq<Code>, pos: nat, k: Captures, c: Res, below: Stack,
                                          content: map<nat, Res>) returns (sp: Split)
    requires pos <= |s| && BoundsOrderedAll(c)
    requires EvaluateSequence(build, s, pos, k, c, below).Matched?
    ensures SpansAll(c, s, pos, sp.mid)
    ensures SplitOk(build, s, pos, k, below, EvaluateSequence(build, s, pos, k, c, below),
                    NumberedAll(c, content), content, IdsAll(c), sp)
    decreases c, 1, 0, 0
  {
    match c
    case Single(h) => sp := Factor(build, s, pos, k, h, below, content);
    case Cons(h, t) =>
      var sp1 := Factor(build, s, pos, k, h, Push(Sequence(t), below), content);
      sp := FactorSequence(build, s, sp1.mid, sp1.captures, t, below, content);
  }

  /** One iteration of a repeat. */
  lemma {:induction false} FactorCycle(build: Build, s: seq<Code>, pos: nat, k: Captures, c: Res,
                                       content: map<nat, Res>)
    requires pos <= |s| && BoundsOrderedAll(c)
    requires Evaluate(build, s, pos, k, Cycle(c)).Matched?
    ensures var r := Evaluate(build, s, pos, k, Cycle(c));
            SpansAll(c, s, pos, r.end) && (NumberedAll(c, content) ==> Updates(content, s, IdsAll(c), k, r.captures))
    decreases c, 2, 0, 0
  {
    var sp := FactorSequence(build, s, pos, k, c, EndCycle, content);
  }

  lemma {:induction false} FactorMandatory(build: Build, s: seq<Code>, pos: nat, k: Captures, c: Res, n: nat,
                                           content: map<nat, Res>)
    requires pos <= |s| && BoundsOrderedAll(c)
    requires Mandatory(build, s, pos, k, c, n).Matched?
    ensures var r := Mandatory(build, s, pos, k, c, n);
            && SpansTimes(c, n, s, pos, r.end)
            && (NumberedAll(c, content) ==> Updates(content, s, IdsAll(c), k, r.captures))
    decreases c, 3, n, 0
  {
    if n > 0 {
      FactorCycle(build, s, pos, k, c, content);
      var r1 := Evaluate(build, s, pos, k, Cycle(c));
      FactorMandatory(build, s, r1.end, r1.captures, c, n - 1, content);
    }
  }

  lemma {:induction false} FactorRepeat(build: Build, s: seq<Code>, pos: nat, k: Captures,
                                        mode: Mode, a: nat, b: nat, c: Res, below: Stack,
                                        content: map<nat, Res>) returns (sp: Split)
    requires pos <= |s| && BoundsOrderedAll(c) && (a <= b || b == 0)
    requires EvaluateRepeat(build, s, pos, k, mode, a, b, c, below).Matched?
    ensures exists n: nat :: InBounds(a, b, n) && SpansTimes(c, n, s, pos, sp.mid)
    ensures SplitOk(build, s, pos, k, below, EvaluateRepeat(build, s, pos, k, mode, a, b, c, below),
                    NumberedAll(c, content), content, IdsAll(c), sp)
    decreases c, 5, 0, 0
  {
    hide Evaluate, Mandatory, PossessiveLoop, LazyLoop, GreedyLoop, SpansAll, SpansTimes, Updates;
    hide NumberedAll, IdsAll, BoundsOrderedAll;
    if mode == Possessive || (mode == Greedy && GoesPossessive(build, c, below)) {
      sp := FactorPossessive(build, s, pos, k, a, b, c, below, 0, content);
      var n: nat :| InBounds(a, b, 0 + n) && SpansTimes(c, n, s, pos, sp.mid);
      assert InBounds(a, b, n);
    } else {
      var r1 := Mandatory(build, s, pos, k, c, a);
      FactorMandatory(build, s, pos, k, c, a, content);
      sp := FactorRest(build, s, r1.end, r1.captures, mode, a, b, c, below, content);
      RepeatCount(a, b, c, s, pos, r1.end, sp.mid);
      if NumberedAll(c, content) {
        UpdatesTwice(content, s, IdsAll(c), k, r1.captures, sp.captures);
      }
    }
  }

  /** The loop after the mandatory iterations. */
  function RestLoop(build: Build, s: seq<Code>, pos: nat, k: Captures,
                    mode: Mode, a: nat, b: nat, c: Res, below: Stack): Outcome
    requires pos <= |s|
  {
    if mode == Lazy then LazyLoop(build, s, pos, k, b, c, below, a) else GreedyLoop(build, s, pos, k, b, c, below, a)
  }

  lemma {:induction false} FactorRest(build: Build, s: seq<Code>, pos: nat, k: Captures,
                                      mode: Mode, a: nat, b: nat, c: Res, below: Stack,
                                      content: map<nat, Res>) returns (sp: Split)
    requires pos <= |s| && BoundsOrderedAll(c) && RestLoop(build, s, pos, k, mode, a, b, c, below).Matched?
    ensures exists n: nat :: (n == 0 || b == 0 || a + n <= b) && SpansTimes(c, n, s, pos, sp.mid)
    ensures SplitOk(build, s, pos, k, below, RestLoop(build, s, pos, k, mode, a, b, c, below),
                    NumberedAll(c, content), content, IdsAll(c), sp)
    decreases c, 4, |s| - pos + 1, 0
  {
    hide LazyLoop, GreedyLoop, SpansTimes, SplitOk;
    if mode == Lazy {
      sp := FactorLazy(build, s, pos, k, b, c, below, a, content);
    } else {
      sp := FactorGreedy(build, s, pos, k, b, c, below, a, content);
    }
  }

  /** a mandatory iterations and n further ones make a number of iterations within the bounds. */
  lemma RepeatCount(a: nat, b: nat, c: Res, s: seq<Code>, i: nat, mid: nat, j: nat)
    requires (a <= b || b == 0) && SpansTimes(c, a, s, i, mid)
    requires exists n: nat :: (n == 0 || b == 0 || a + n <= b) && SpansTimes(c, n, s, mid, j)
    ensures exists n: nat :: InBounds(a, b, n) && SpansTimes(c, n, s, i, j)
  {
    var n: nat :| (n == 0 || b == 0 || a + n <= b) && SpansTimes(c, n, s, mid, j);
    SpansTimesAdd(c, a, n, s, i, mid, j);
    assert InBounds(a, b, a + n);
  }

  lemma {:induction false} SpansTimesAdd(c: Res, m: nat, n: nat, s: seq<Code>, i: nat, mid: nat, j: nat)
    requires SpansTimes(c, m, s, i, mid) && SpansTimes(c, n, s, mid, j)
    ensures SpansTimes(c, m + n, s, i, j)
    decreases m
  {
    if m > 0 {
      var p: nat :| SpansAll(c, s, i, p) && SpansTimes(c, m - 1, s, p, mid);
      SpansTimesAdd(c, m - 1, n, s, p, mid, j);
      assert SpansTimes(c, m + n - 1, s, p, j);
    } else {
      assert i == mid;
    }
  }

  /** One more iteration in front of n others. */
  lemma OneMore(c: Res, n: nat, s: seq<Code>, i: nat, m: nat, j: nat)
    requires SpansAll(c, s, i, m) && SpansTimes(c, n, s, m, j)
    ensures SpansTimes(c, n + 1, s, i, j)
  {
    hide SpansAll;
    assert SpansTimes(c, n + 1 - 1, s, m, j);
  }

  lemma NoIteration(c: Res, s: seq<Code>, i: nat)
    requires i <= |s|
    ensures SpansTimes(c, 0, s, i, i)
  {
  }

  lemma UpdatesTwice(content: map<nat, Res>, s: seq<Code>, ids: set<nat>, k: Captures, k': Captures, k'': Captures)
    requires Updates(content, s, ids, k, k') && Updates(content, s, ids, k', k'')
    ensures Updates(content, s, ids, k, k'')
  {
    hide GroupHolds, Get;
  }

  lemma UpdatesNothing(content: map<nat, Res>, s: seq<Code>, ids: set<nat>, k: Captures)
    ensures Updates(content, s, ids, k, k)
  {
  }

  lemma {:induction false} FactorPossessive(build: Build, s: seq<Code>, pos: nat, k: Captures,
                                            a: nat, b: nat, c: Res, below: Stack, i: nat,
                                            content: map<nat, Res>) returns (sp: Split)
    requires pos <= |s| && BoundsOrderedAll(c) && (a <= b || b == 0) && (i <= b || b == 0)
    requires PossessiveLoop(build, s, pos, k, a, b, c, below, i).Matched?
    ensures exists n: nat :: InBounds(a, b, i + n) && SpansTimes(c, n, s, pos, sp.mid)
    ensures SplitOk(build, s, pos, k, below, PossessiveLoop(build, s, pos, k, a, b, c, below, i),
                    NumberedAll(c, content), content, IdsAll(c), sp)
    decreases c, 4, |s| - pos, if i < b then b - i else 0
  {
    hide Evaluate, PossessiveLoop, LazyLoop, GreedyLoop, SpansAll, SpansTimes, NumberedAll, IdsAll, Updates;
    PossessiveTurn(build, s, pos, k, a, b, c, below, i);
    var r1 := Evaluate(build, s, pos, k, Cycle(c));
    if MoreAllowed(b, i) && r1.Matched? {
      FactorCycle(build, s, pos, k, c, content);
      sp := FactorPossessive(build, s, r1.end, r1.captures, a, b, c, below, i + 1, content);
      var n: nat :| InBounds(a, b, i + 1 + n) && SpansTimes(c, n, s, r1.end, sp.mid);
      OneMore(c, n, s, pos, r1.end, sp.mid);
      assert InBounds(a, b, i + (n + 1));
      if NumberedAll(c, content) {
        UpdatesTwice(content, s, IdsAll(c), k, r1.captures, sp.captures);
      }
    } else {
      sp := Split(pos, k);
      NoIteration(c, s, pos);
      UpdatesNothing(content, s, IdsAll(c), k);
      assert InBounds(a, b, i + 0);
    }
  }

  lemma {:induction false} FactorLazy(build: Build, s: seq<Code>, pos: nat, k: Captures,
                                      b: nat, c: Res, below: Stack, i: nat,
                                      content: map<nat, Res>) returns (sp: Split)
    requires pos <= |s| && BoundsOrderedAll(c)
    requires LazyLoop(build, s, pos, k, b, c, below, i).Matched?
    ensures exists n: nat :: (n == 0 || b == 0 || i + n <= b) && SpansTimes(c, n, s, pos, sp.mid)
    ensures SplitOk(build, s, pos, k, below, LazyLoop(build, s, pos, k, b, c, below, i),
                    NumberedAll(c, content), content, IdsAll(c), sp)
    decreases c, 4, |s| - pos, if i < b then b - i else 0
  {
    hide Evaluate, PossessiveLoop, LazyLoop, GreedyLoop, SpansAll, SpansTimes, NumberedAll, IdsAll, Updates;
    LazyTurn(build, s, pos, k, b, c, below, i);
    if Evaluate(build, s, pos, k, below).Failed? {
      var r1 := Evaluate(build, s, pos, k, Cycle(c));
      FactorCycle(build, s, pos, k, c, content);
      sp := FactorLazy(build, s, r1.end, r1.captures, b, c, below, i + 1, content);
      var n: nat :| (n == 0 || b == 0 || i + 1 + n <= b) && SpansTimes(c, n, s, r1.end, sp.mid);
      OneMore(c, n, s, pos, r1.end, sp.mid);
      assert b == 0 || i + (n + 1) <= b;
      if NumberedAll(c, content) {
        UpdatesTwice(content, s, IdsAll(c), k, r1.captures, sp.captures);
      }
    } else {
      sp := Split(pos, k);
      NoIteration(c, s, pos);
      UpdatesNothing(content, s, IdsAll(c), k);
    }
  }

  lemma {:induction false} FactorGreedy(build: Build, s: seq<Code>, pos: nat, k: Captures,
                                        b: nat, c: Res, below: Stack, i: nat,
                                        content: map<nat, Res>) returns (sp: Split)
    requires pos <= |s| && BoundsOrderedAll(c)
    requires GreedyLoop(build, s, pos, k, b, c, below, i).Matched?
    ensures exists n: nat :: (n == 0 || b == 0 || i + n <= b) && SpansTimes(c, n, s, pos, sp.mid)
    ensures SplitOk(build, s, pos, k, below, GreedyLoop(build, s, pos, k, b, c, below, i),
                    NumberedAll(c, content), content, IdsAll(c), sp)
    decreases c, 4, |s| - pos, if i < b then b - i else 0
  {
    hide Evaluate, PossessiveLoop, LazyLoop, GreedyLoop, SpansAll, SpansTimes, NumberedAll, IdsAll, Updates;
    GreedyTurn(build, s, pos, k, b, c, below, i);
    var r1 := Evaluate(build, s, pos, k, Cycle(c));
    if MoreAllowed(b, i) && r1.Matched? && !GreedyLoop(build, s, r1.end, r1.captures, b, c, below, i + 1).Failed? {
      FactorCycle(build, s, pos, k, c, content);
      sp := FactorGreedy(build, s, r1.end, r1.captures, b, c, below, i + 1, content);
      var n: nat :| (n == 0 || b == 0 || i + 1 + n <= b) && SpansTimes(c, n, s, r1.end, sp.mid);
      OneMore(c, n, s, pos, r1.end, sp.mid);
      assert b == 0 || i + (n + 1) <= b;
      if NumberedAll(c, content) {
        UpdatesTwice(content, s, IdsAll(c), k, r1.captures, sp.captures);
      }
    } else {
      sp := Split(pos, k);
      NoIteration(c, s, pos);
      UpdatesNothing(content, s, IdsAll(c), k);
    }
  }

  // ----- the captured groups of a whole pattern -----

  /** No group number occurs twice. */
  predicate DistinctIds(re: Re)
    decreases re
  {
    match re
    case Capture(id, c) => id !in IdsAll(c) && DistinctIdsAll(c)
    case Select(c) => DistinctIdsAll(c)
    case Optional(c) => DistinctIdsAll(c)
    case LazyOptional(c) => DistinctIdsAll(c)
    case Sequence(c) => DistinctIdsAll(c)
    case Plus(_, c) => DistinctIdsAll(c)
    case Star(_, c) => DistinctIdsAll(c)
    case Repeat(_, _, _, c) => DistinctIdsAll(c)
    case _ => true
  }

  predicate DistinctIdsAll(c: Res)
    decreases c
  {
    match c
    case Single(re) => DistinctIds(re)
    case Cons(h, t) => Ids(h) !! IdsAll(t) && DistinctIds(h) && DistinctIdsAll(t)
  }

  /** The content of every group of a tree. */
  function Contents(re: Re): (m: map<nat, Res>)
    ensures m.Keys == Ids(re)
    decreases re
  {
    match re
    case Capture(id, c) => ContentsAll(c)[id := c]
    case Select(c) => ContentsAll(c)
    case Optional(c) => ContentsAll(c)
    case LazyOptional(c) => ContentsAll(c)
    case Sequence(c) => ContentsAll(c)
    case Plus(_, c) => ContentsAll(c)
    case Star(_, c) => ContentsAll(c)
    case Repeat(_, _, _, c) => ContentsAll(c)
    case _ => map[]
  }

  function ContentsAll(c: Res): (m: map<nat, Res>)
    ensures m.Keys == IdsAll(c)
    decreases c
  {
    match c
    case Single(re) => Contents(re)
    case Cons(h, t) => Contents(h) + ContentsAll(t)
  }

  /** The table of contents of a tree with distinct numbers, and of any table extending it, is right. */
  lemma {:induction false} ContentsNumber(re: Re, m: map<nat, Res>)
    requires DistinctIds(re) && forall id | id in Ids(re) :: id in m && m[id] == Contents(re)[id]
    ensures Numbered(re, m)
    decreases re
  {
    match re
    case Capture(id, c) =>
      assert m[id] == c;
      ContentsNumberAll(c, m);
    case Select(c) => ContentsNumberAll(c, m);
    case Optional(c) => ContentsNumberAll(c, m);
    case LazyOptional(c) => ContentsNumberAll(c, m);
    case Sequence(c) => ContentsNumberAll(c, m);
    case Plus(_, c) => ContentsNumberAll(c, m);
    case Star(_, c) => ContentsNumberAll(c, m);
    case Repeat(_, _, _, c) => ContentsNumberAll(c, m);
    case _ =>
  }

  lemma {:induction false} ContentsNumberAll(c: Res, m: map<nat, Res>)
    requires DistinctIdsAll(c) && forall id | id in IdsAll(c) :: id in m && m[id] == ContentsAll(c)[id]
    ensures NumberedAll(c, m)
    decreases c
  {
    match c
    case Single(re) => ContentsNumber(re, m);
    case Cons(h, t) =>
      ContentsNumber(h, m);
      ContentsNumberAll(t, m);
  }

  /** Every matched group of k holds a span of the subject lying in the language of the group's own content. */
  ghost predicate GroupsHold(pattern: Re, s: seq<Code>, k: Captures) {
    forall id: nat | Get(k, id).matched ::
      && id in Contents(pattern)
      && Get(k, id).begin <= Get(k, id).end <= |s|
      && SpansAll(Contents(pattern)[id], s, Get(k, id).begin, Get(k, id).end)
  }

  lemma {:induction false} SpansAllInside(c: Res, s: seq<Code>, i: nat, j: nat)
    requires SpansAll(c, s, i, j)
    ensures i <= j <= |s|
    decreases c
  {
    match c
    case Single(_) =>
    case Cons(h, t) =>
      var m: nat :| Spans(h, s, i, m) && SpansAll(t, s, m, j);
      SpansAllInside(t, s, m, j);
  }

  /** Soundness of one attempt, for any build: the match is in the language and so is every group. */
  lemma SearchAtSound(build: Build, s: seq<Code>, it: nat, pattern: Re)
    requires it <= |s| && BoundsOrdered(pattern) && DistinctIds(pattern)
    requires SearchAt(build, s, it, pattern).Matched?
    ensures var r := SearchAt(build, s, it, pattern);
            Spans(pattern, s, it, r.end) && GroupsHold(pattern, s, r.captures)
  {
    ContentsNumber(pattern, Contents(pattern));
    var sp := Factor(build, s, it, map[], pattern, Finish, Contents(pattern));
    GroupsFromUpdates(pattern, s, sp.captures);
  }

  /** Soundness of a full match. */
  lemma MatchSound(build: Build, s: seq<Code>, pattern: Re)
    requires BoundsOrdered(pattern) && DistinctIds(pattern)
    requires MatchRe(build, s, pattern).Matched?
    ensures var r := MatchRe(build, s, pattern);
            r.end == |s| && Spans(pattern, s, 0, |s|) && GroupsHold(pattern, s, r.captures)
  {
    ContentsNumber(pattern, Contents(pattern));
    var sp := Factor(build, s, 0, map[], pattern, Push(AssertEnd, Finish), Contents(pattern));
    assert Evaluate(build, s, sp.mid, sp.captures, Push(AssertEnd, Finish))
        == Evaluate(build, s, sp.mid, sp.captures, Finish) == Matched(sp.mid, sp.captures);
    GroupsFromUpdates(pattern, s, sp.captures);
  }

  lemma GroupsFromUpdates(pattern: Re, s: seq<Code>, k: Captures)
    requires Updates(Contents(pattern), s, Ids(pattern), map[], k)
    ensures GroupsHold(pattern, s, k)
  {
    forall id: nat | Get(k, id).matched
      ensures id in Contents(pattern)
      ensures SpansAll(Contents(pattern)[id], s, Get(k, id).begin, Get(k, id).end)
      ensures Get(k, id).begin <= Get(k, id).end <= |s|
    {
      assert !Get(map[], id).matched;
      assert GroupHolds(Contents(pattern), s, id, Get(k, id));
      SpansAllInside(Contents(pattern)[id], s, Get(k, id).begin, Get(k, id).end);
    }
  }
}
