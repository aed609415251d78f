/** FIRST sets are sound, and therefore turning a greedy repeat into a possessive one preserves its meaning. */
module RegexPossessive {
  import opened RegexSyntax
  import opened RegexFirst
  import opened RegexMatcher
  import opened RegexLanguage
  import opened RegexTermination

  // ----- `first` on spans -----

  /** Whatever l accepts is accepted by l'. */
  ghost predicate Wider(l: seq<FirstItem>, l': seq<FirstItem>) {
    forall c :: ListAccepts(l, c) ==> ListAccepts(l', c)
  }

  lemma {:induction false} AcceptsAppend(l: seq<FirstItem>, m: seq<FirstItem>, c: Code)
    ensures ListAccepts(l + m, c) <==> ListAccepts(l, c) || ListAccepts(m, c)
  {
    forall i | 0 <= i < |l| && ItemAccepts(l[i], c) ensures ListAccepts(l + m, c) {
      assert (l + m)[i] == l[i];
    }
    forall i | 0 <= i < |m| && ItemAccepts(m[i], c) ensures ListAccepts(l + m, c) {
      assert (l + m)[|l| + i] == m[i];
    }
  }

  /** `first` only ever widens the list it extends. */
  lemma {:induction false} FirstWidens(l: seq<FirstItem>, st: Stack)
    ensures Wider(l, First(l, st))
    decreases StackSize(st), 1
  {
    match st
    case Finish =>
    case EndCycle =>
    case Close(_, below) => FirstWidens(l, below);
    case Push(re, below) =>
      match re {
        case One(m) => AppendWidens(l, MatcherFirst(m));
        case AnyCharacter =>
          forall c ensures ListAccepts(First(l, st), c) { assert ItemAccepts(First(l, st)[0], c); }
        case Str(text) =>
          if |text| == 0 { FirstWidens(l, below); }
          else { AppendWidens(l, [Item(Simple(Character(text[0])))]); }
        case Select(c) => FirstWidensSelect(l, c, below);
        case Empty => FirstWidens(l, below);
        case AssertBegin => FirstWidens(l, below);
        case AssertEnd =>
        case _ => FirstWidensContent(l, re, below);
      }
  }

  lemma {:induction false} FirstWidensSelect(l: seq<FirstItem>, c: Res, below: Stack)
    ensures Wider(l, First(l, Push(Select(c), below)))
    decreases 1 + SizeAll(c) + StackSize(below), 0
  {
    match c
    case Single(h) => FirstWidens(l, Push(h, below));
    case Cons(h, t) =>
      FirstWidens(l, Push(h, below));
      FirstWidensSelect(First(l, Push(h, below)), t, below);
  }

  lemma {:induction false} FirstWidensContent(l: seq<FirstItem>, re: Re, below: Stack)
    requires HasContent(re)
    ensures Wider(l, First(l, Push(re, below)))
    decreases Size(re) + StackSize(below), 0
  {
    hide ListAccepts;
    var all := PushAll(re.content, below);
    PushAllSize(re.content, below);
    FirstWidens(l, all);
    FirstWidens(First(l, all), below);
    FirstWidens(l, below);
    FirstWidens(First(l, below), all);
  }

  lemma AppendMonotone(l: seq<FirstItem>, l': seq<FirstItem>, m: seq<FirstItem>)
    requires Wider(l, l')
    ensures Wider(l + m, l' + m)
  {
    forall c | ListAccepts(l + m, c) ensures ListAccepts(l' + m, c) {
      AcceptsAppend(l, m, c);
      AcceptsAppend(l', m, c);
    }
  }

  lemma SameWidth(l: seq<FirstItem>)
    ensures Wider(l, l)
  {
  }

  lemma AppendWidens(l: seq<FirstItem>, m: seq<FirstItem>)
    ensures Wider(l, l + m)
  {
    forall c | ListAccepts(l, c) ensures ListAccepts(l + m, c) {
      AcceptsAppend(l, m, c);
    }
  }

  /** A wider list stays wider after `first`. */
  lemma {:induction false} FirstMonotone(l: seq<FirstItem>, l': seq<FirstItem>, st: Stack)
    requires Wider(l, l')
    ensures Wider(First(l, st), First(l', st))
    decreases StackSize(st), 1
  {
    hide Wider;
    match st
    case Finish =>
    case EndCycle =>
    case Close(_, below) => FirstMonotone(l, l', below);
    case Push(re, below) =>
      match re {
        case One(m) => AppendMonotone(l, l', MatcherFirst(m));
        case AnyCharacter => SameWidth([CanBeAnything]);
        case Str(text) =>
          if |text| == 0 { FirstMonotone(l, l', below); }
          else { AppendMonotone(l, l', [Item(Simple(Character(text[0])))]); }
        case Select(c) => FirstMonotoneSelect(l, l', c, below);
        case Empty => FirstMonotone(l, l', below);
        case AssertBegin => FirstMonotone(l, l', below);
        case AssertEnd =>
        case _ => FirstMonotoneContent(l, l', re, below);
      }
  }

  lemma {:induction false} FirstMonotoneSelect(l: seq<FirstItem>, l': seq<FirstItem>, c: Res, below: Stack)
    requires Wider(l, l')
    ensures Wider(First(l, Push(Select(c), below)), First(l', Push(Select(c), below)))
    decreases 1 + SizeAll(c) + StackSize(below), 0
  {
    hide Wider;
    match c
    case Single(h) => FirstMonotone(l, l', Push(h, below));
    case Cons(h, t) =>
      FirstMonotone(l, l', Push(h, below));
      FirstMonotoneSelect(First(l, Push(h, below)), First(l', Push(h, below)), t, below);
  }

  lemma {:induction false} FirstMonotoneContent(l: seq<FirstItem>, l': seq<FirstItem>, re: Re, below: Stack)
    requires Wider(l, l') && HasContent(re)
    ensures Wider(First(l, Push(re, below)), First(l', Push(re, below)))
    decreases Size(re) + StackSize(below), 0
  {
    hide Wider;
    var all := PushAll(re.content, below);
    PushAllSize(re.content, below);
    FirstMonotone(l, l', all);
    FirstMonotone(First(l, all), First(l', all), below);
    FirstMonotone(l, l', below);
    FirstMonotone(First(l, below), First(l', below), all);
  }

  /** The tree can match the empty text wherever it stands; `$` cannot, `^` is counted as if it could. */
  predicate MayBeEmpty(re: Re)
    decreases re
  {
    match re
    case One(_) => false
    case AnyCharacter => false
    case Str(text) => |text| == 0
    case Select(c) => MayBeEmptySome(c)
    case Optional(_) => true
    case LazyOptional(_) => true
    case Sequence(c) => MayBeEmptyEach(c)
    case Empty => true
    case Plus(_, c) => MayBeEmptyEach(c)
    case Star(_, _) => true
    case Repeat(_, a, _, c) => a == 0 || MayBeEmptyEach(c)
    case Capture(_, c) => MayBeEmptyEach(c)
    case AssertBegin => true
    case AssertEnd => false
  }

  predicate MayBeEmptySome(c: Res)
    decreases c
  {
    match c
    case Single(re) => MayBeEmpty(re)
    case Cons(h, t) => MayBeEmpty(h) || MayBeEmptySome(t)
  }

  predicate MayBeEmptyEach(c: Res)
    decreases c
  {
    match c
    case Single(re) => MayBeEmpty(re)
    case Cons(h, t) => MayBeEmpty(h) && MayBeEmptyEach(t)
  }

  predicate MayBeEmptyStack(st: Stack) {
    match st
    case Finish => true
    case EndCycle => true
    case Close(_, below) => MayBeEmptyStack(below)
    case Push(re, below) => MayBeEmpty(re) && MayBeEmptyStack(below)
  }

  /** What a span [i, j] of a tree tells about FIRST: a consumed character is in it, and an empty span lets the
      FIRST set of the rest through. */
  ghost predicate FirstCovers(l: seq<FirstItem>, whole: Stack, below: Stack, empty: bool, s: seq<Code>, i: nat, j: nat)
    requires i < |s|
  {
    if i < j then ListAccepts(First(l, whole), s[i]) else empty && Wider(First(l, below), First(l, whole))
  }

  lemma {:induction false} FirstOfSpan(l: seq<FirstItem>, re: Re, below: Stack, s: seq<Code>, i: nat, j: nat)
    requires i < |s| && Spans(re, s, i, j)
    ensures FirstCovers(l, Push(re, below), below, MayBeEmpty(re), s, i, j)
    decreases re, 0
  {
    match re
    case One(m) => FirstOfMatcher(l, m, s[i]);
    case AnyCharacter => assert ItemAccepts(First(l, Push(re, below))[0], s[i]);
    case Str(text) =>
      if |text| > 0 {
        assert s[i] == s[i..j][0];
        assert ItemAccepts((l + [Item(Simple(Character(text[0])))])[|l|], s[i]);
      }
    case Select(c) => FirstOfSelect(l, c, below, s, i, j);
    case Optional(c) => FirstOfOptional(l, re, c, below, s, i, j);
    case LazyOptional(c) => FirstOfOptional(l, re, c, below, s, i, j);
    case Sequence(c) => FirstOfContent(l, c, below, s, i, j);
    case Empty =>
    case Plus(_, c) =>
      var n: nat :| n >= 1 && SpansTimes(c, n, s, i, j);
      FirstOfTimes(l, c, n, below, s, i, j);
    case Star(_, c) =>
      var n: nat :| SpansTimes(c, n, s, i, j);
      FirstOfStar(l, re, c, n, below, s, i, j);
    case Repeat(_, a, b, c) =>
      var n: nat :| InBounds(a, b, n) && SpansTimes(c, n, s, i, j);
      if a == 0 {
        FirstOfStar(l, re, c, n, below, s, i, j);
      } else {
        FirstOfTimes(l, c, n, below, s, i, j);
      }
    case Capture(_, c) => FirstOfContent(l, c, below, s, i, j);
    case AssertBegin =>
    case AssertEnd =>
  }

  lemma FirstOfMatcher(l: seq<FirstItem>, m: Matcher, c: Code)
    requires Accepts(m, c)
    ensures ListAccepts(l + MatcherFirst(m), c)
  {
    var items := MatcherFirst(m);
    AcceptsAppend(l, items, c);
    match m
    case Simple(Enumeration(values)) =>
      var i :| 0 <= i < |values| && values[i] == c;
      assert ItemAccepts(items[i], c);
    case Simple(PlainSet(ps)) =>
      var i :| 0 <= i < |ps| && PlainAccepts(ps[i], c);
      assert ItemAccepts(items[i], c);
    case Set(members) =>
      var i :| 0 <= i < |members| && Accepts(members[i], c);
      assert ItemAccepts(items[i], c);
    case _ => assert ItemAccepts(items[0], c);
  }

  lemma {:induction false} FirstOfContent(l: seq<FirstItem>, c: Res, below: Stack, s: seq<Code>, i: nat, j: nat)
    requires i < |s| && SpansAll(c, s, i, j)
    ensures FirstCovers(l, PushAll(c, below), below, MayBeEmptyEach(c), s, i, j)
    decreases c, 0
  {
    match c
    case Single(re) => FirstOfSpan(l, re, below, s, i, j);
    case Cons(h, t) =>
      var m: nat :| Spans(h, s, i, m) && SpansAll(t, s, m, j);
      SpansAllInside(t, s, m, j);
      FirstOfSpan(l, h, PushAll(t, below), s, i, m);
      if m == i {
        FirstOfContent(l, t, below, s, i, j);
      }
  }

  lemma {:induction false} FirstOfSelect(l: seq<FirstItem>, c: Res, below: Stack, s: seq<Code>, i: nat, j: nat)
    requires i < |s| && SpansOne(c, s, i, j)
    ensures FirstCovers(l, Push(Select(c), below), below, MayBeEmptySome(c), s, i, j)
    decreases c, 0
  {
    match c
    case Single(h) => FirstOfSpan(l, h, below, s, i, j);
    case Cons(h, t) =>
      var l' := First(l, Push(h, below));
      assert First(l, Push(Select(c), below)) == First(l', Push(Select(t), below));
      if Spans(h, s, i, j) {
        FirstOfSpan(l, h, below, s, i, j);
        FirstWidens(l', Push(Select(t), below));
      } else {
        FirstOfSelect(l', t, below, s, i, j);
        WidenedBelow(l, Push(h, below), below);
      }
  }

  lemma WidenedBelow(l: seq<FirstItem>, st: Stack, below: Stack)
    ensures Wider(First(l, below), First(First(l, st), below))
  {
    FirstWidens(l, st);
    FirstMonotone(l, First(l, st), below);
  }

  lemma {:induction false} FirstOfOptional(l: seq<FirstItem>, re: Re, c: Res, below: Stack,
                                           s: seq<Code>, i: nat, j: nat)
    requires i < |s| && (i == j || SpansAll(c, s, i, j)) && (re == Optional(c) || re == LazyOptional(c))
    ensures FirstCovers(l, Push(re, below), below, true, s, i, j)
    decreases c, 1
  {
    var all := PushAll(c, below);
    if i == j {
      WidenedBelow(l, all, below);
    } else {
      SpansAllInside(c, s, i, j);
      FirstOfContent(l, c, below, s, i, j);
      FirstWidens(First(l, all), below);
    }
  }

  /** Some iteration consumes when n iterations together do, and all earlier ones are empty. */
  lemma {:induction false} FirstOfTimes(l: seq<FirstItem>, c: Res, n: nat, below: Stack, s: seq<Code>, i: nat, j: nat)
    requires i < |s| && n > 0 && SpansTimes(c, n, s, i, j)
    ensures FirstCovers(l, PushAll(c, below), below, MayBeEmptyEach(c), s, i, j)
    decreases c, 1, n
  {
    var m: nat :| SpansAll(c, s, i, m) && SpansTimes(c, n - 1, s, m, j);
    SpansAllInside(c, s, i, m);
    SpansTimesInside(c, n - 1, s, m, j);
    FirstOfContent(l, c, below, s, i, m);
    if m == i && n > 1 {
      FirstOfTimes(l, c, n - 1, below, s, i, j);
    }
  }

  lemma {:induction false} FirstOfStar(l: seq<FirstItem>, re: Re, c: Res, n: nat, below: Stack,
                                       s: seq<Code>, i: nat, j: nat)
    requires i < |s| && SpansTimes(c, n, s, i, j)
    requires re.Star? || (re.Repeat? && re.a == 0)
    requires re.content == c
    ensures FirstCovers(l, Push(re, below), below, true, s, i, j)
    decreases c, 2, n
  {
    var all := PushAll(c, below);
    SpansTimesInside(c, n, s, i, j);
    if i < j {
      FirstOfTimes(First(l, below), c, n, below, s, i, j);
    }
    FirstWidens(First(l, below), all);
  }

  // ----- `first` on runs of the matcher -----

  predicate OrderedStack(st: Stack) {
    match st
    case Finish => true
    case EndCycle => true
    case Close(_, below) => OrderedStack(below)
    case Push(re, below) => BoundsOrdered(re) && OrderedStack(below)
  }

  /** `first` is a sound FIRST set: the first character a run consumes is accepted by `first` of the stack. A run
      that consumes nothing before the end of the subject shows that the stack may be empty. */
  lemma {:induction false} FirstSound(build: Build, s: seq<Code>, pos: nat, k: Captures, st: Stack)
    requires pos < |s| && OrderedStack(st)
    requires Evaluate(build, s, pos, k, st).Matched?
    ensures var end := Evaluate(build, s, pos, k, st).end;
            if pos < end then ListAccepts(First([], st), s[pos]) else MayBeEmptyStack(st)
    decreases st
  {
    match st
    case Finish =>
    case EndCycle =>
    case Close(id, below) => FirstSound(build, s, pos, EndCapture(k, id, pos), below);
    case Push(re, below) =>
      var sp := Factor(build, s, pos, k, re, below, map[]);
      FirstOfSpan([], re, below, s, pos, sp.mid);
      if sp.mid == pos {
        FirstSound(build, s, pos, sp.captures, below);
      }
  }

  // ----- stacks that may be empty always match -----

  predicate NoCaret(re: Re)
    decreases re
  {
    match re
    case AssertBegin => false
    case Select(c) => NoCaretAll(c)
    case Optional(c) => NoCaretAll(c)
    case LazyOptional(c) => NoCaretAll(c)
    case Sequence(c) => NoCaretAll(c)
    case Plus(_, c) => NoCaretAll(c)
    case Star(_, c) => NoCaretAll(c)
    case Repeat(_, _, _, c) => NoCaretAll(c)
    case Capture(_, c) => NoCaretAll(c)
    case _ => true
  }

  predicate NoCaretAll(c: Res)
    decreases c
  {
    match c
    case Single(re) => NoCaret(re)
    case Cons(h, t) => NoCaret(h) && NoCaretAll(t)
  }

  predicate NoCaretStack(st: Stack) {
    match st
    case Finish => true
    case EndCycle => true
    case Close(_, below) => NoCaretStack(below)
    case Push(re, below) => NoCaret(re) && NoCaretStack(below)
  }

  predicate AlwaysMatching(st: Stack) {
    WellFormedStack(st) && NoCaretStack(st) && MayBeEmptyStack(st)
  }

  lemma {:induction false} EmptyMatches(build: Build, s: seq<Code>, pos: nat, k: Captures, st: Stack)
    requires pos <= |s| && AlwaysMatching(st)
    ensures Evaluate(build, s, pos, k, st).Matched?
    decreases StackSize(st), |s| - pos, 1
  {
    hide SizeAll, WellFormedAll, NoCaretAll, MayBeEmptyEach, MayBeEmptySome;
    hide EvaluateSelect, EvaluateSequence, EvaluateRepeat;
    NeverDiverges(build, s, pos, k, st);
    match st
    case Finish =>
    case EndCycle =>
    case Close(id, below) => EmptyMatches(build, s, pos, EndCapture(k, id, pos), below);
    case Push(re, below) =>
      if Elementary(re) {
        EmptyMatches(build, s, pos, k, below);
      } else if Repeated(re) {
        EmptyMatchesRepeat(build, s, pos, k, re.mode, Low(re), High(re), re.content, below);
      } else {
        match re
        case Select(c) => EmptyMatchesSelect(build, s, pos, k, c, below);
        case Optional(c) => EmptyMatches(build, s, pos, k, below);
        case LazyOptional(c) => EmptyMatches(build, s, pos, k, below);
        case Sequence(c) => EmptyMatchesSequence(build, s, pos, k, c, below);
        case Capture(id, c) => EmptyMatchesCapture(build, s, pos, k, id, c, below);
      }
  }

  lemma {:induction false} EmptyMatchesCapture(build: Build, s: seq<Code>, pos: nat, k: Captures,
                                               id: nat, c: Res, below: Stack)
    requires pos <= |s| && AlwaysMatching(Push(Capture(id, c), below))
    ensures Evaluate(build, s, pos, StartCapture(k, id, pos), Push(Sequence(c), Close(id, below))).Matched?
    decreases 3 + SizeAll(c) + StackSize(below), |s| - pos, 0
  {
    hide SizeAll, WellFormedAll, NoCaretAll, MayBeEmptyEach, Evaluate;
    assert StackSize(Close(id, below)) == 1 + StackSize(below);
    assert AlwaysMatching(Close(id, below));
    EmptyMatches(build, s, pos, StartCapture(k, id, pos), Push(Sequence(c), Close(id, below)));
  }

  lemma {:induction false} EmptyMatchesSelect(build: Build, s: seq<Code>, pos: nat, k: Captures, c: Res, below: Stack)
    requires pos <= |s| && WellFormedAll(c) && NoCaretAll(c) && MayBeEmptySome(c) && AlwaysMatching(below)
    ensures EvaluateSelect(build, s, pos, k, c, below).Matched?
    decreases 1 + SizeAll(c) + StackSize(below), |s| - pos, 0
  {
    match c
    case Single(h) => EmptyMatches(build, s, pos, k, Push(h, below));
    case Cons(h, t) =>
      NeverDiverges(build, s, pos, k, Push(h, below));
      if MayBeEmpty(h) {
        EmptyMatches(build, s, pos, k, Push(h, below));
      } else {
        EmptyMatchesSelect(build, s, pos, k, t, below);
      }
  }

  lemma {:induction false} EmptyMatchesSequence(build: Build, s: seq<Code>, pos: nat, k: Captures, c: Res, below: Stack)
    requires pos <= |s| && WellFormedAll(c) && NoCaretAll(c) && MayBeEmptyEach(c) && AlwaysMatching(below)
    ensures EvaluateSequence(build, s, pos, k, c, below).Matched?
    decreases 1 + SizeAll(c) + StackSize(below), |s| - pos, 0
  {
    match c
    case Single(h) => EmptyMatches(build, s, pos, k, Push(h, below));
    case Cons(h, t) =>
      assert StackSize(Push(Sequence(t), below)) == 1 + SizeAll(t) + StackSize(below);
      assert AlwaysMatching(Push(Sequence(t), below));
      EmptyMatches(build, s, pos, k, Push(h, Push(Sequence(t), below)));
  }

  lemma {:induction false} EmptyMatchesRepeat(build: Build, s: seq<Code>, pos: nat, k: Captures,
                                              mode: Mode, a: nat, b: nat, c: Res, below: Stack)
    requires pos <= |s| && RepeatWellFormed(b, c) && NoCaretAll(c) && AlwaysMatching(below)
    requires a == 0 || MayBeEmptyEach(c)
    ensures EvaluateRepeat(build, s, pos, k, mode, a, b, c, below).Matched?
    decreases 2 + SizeAll(c) + StackSize(below), |s| - pos + 1, 0
  {
    hide Evaluate, Mandatory, PossessiveLoop, LazyLoop, GreedyLoop, WellFormedAll, NoCaretAll, MayBeEmptyEach, SizeAll;
    if mode == Possessive || (mode == Greedy && GoesPossessive(build, c, below)) {
      EmptyMatchesPossessive(build, s, pos, k, a, b, c, below, 0);
    } else {
      EmptyMatchesMandatory(build, s, pos, k, c, a);
      var r := Mandatory(build, s, pos, k, c, a);
      EmptyMatchesLoops(build, s, r.end, r.captures, b, c, below, a);
    }
  }

  lemma {:induction false} EmptyMatchesLoops(build: Build, s: seq<Code>, pos: nat, k: Captures,
                                             b: nat, c: Res, below: Stack, i: nat)
    requires pos <= |s| && RepeatWellFormed(b, c) && AlwaysMatching(below)
    ensures LazyLoop(build, s, pos, k, b, c, below, i).Matched?
    ensures GreedyLoop(build, s, pos, k, b, c, below, i).Matched?
    decreases 2 + SizeAll(c) + StackSize(below), |s| - pos, 0
  {
    hide Evaluate, PossessiveLoop, LazyLoop, GreedyLoop;
    EmptyMatches(build, s, pos, k, below);
    NeverDivergesLoops(build, s, pos, k, i, b, c, below, i);
    LazyTurn(build, s, pos, k, b, c, below, i);
    GreedyTurn(build, s, pos, k, b, c, below, i);
  }

  lemma {:induction false} EmptyMatchesMandatory(build: Build, s: seq<Code>, pos: nat, k: Captures, c: Res, n: nat)
    requires pos <= |s| && WellFormedAll(c) && NoCaretAll(c) && (n == 0 || MayBeEmptyEach(c))
    ensures Mandatory(build, s, pos, k, c, n).Matched?
    decreases 2 + SizeAll(c), |s| - pos, n + 2
  {
    if n > 0 {
      assert AlwaysMatching(EndCycle);
      EmptyMatches(build, s, pos, k, Cycle(c));
      var r := Evaluate(build, s, pos, k, Cycle(c));
      EmptyMatchesMandatory(build, s, r.end, r.captures, c, n - 1);
    }
  }

  lemma {:induction false} EmptyMatchesPossessive(build: Build, s: seq<Code>, pos: nat, k: Captures,
                                                  a: nat, b: nat, c: Res, below: Stack, i: nat)
    requires pos <= |s| && RepeatWellFormed(b, c) && NoCaretAll(c) && AlwaysMatching(below)
    requires a <= i || MayBeEmptyEach(c)
    ensures PossessiveLoop(build, s, pos, k, a, b, c, below, i).Matched?
    decreases 2 + SizeAll(c) + StackSize(below), |s| - pos, if i < b then b - i else 0
  {
    EmptyMatches(build, s, pos, k, below);
    NeverDivergesCycle(build, s, pos, k, c);
    var r := Evaluate(build, s, pos, k, Cycle(c));
    if r.Matched? && MoreAllowed(b, i) {
      if b == 0 {
        CycleAdvances(build, s, pos, k, c);
      }
      EmptyMatchesPossessive(build, s, r.end, r.captures, a, b, c, below, i + 1);
    } else if r.Failed? && i < a {
      assert AlwaysMatching(EndCycle);
      EmptyMatches(build, s, pos, k, Cycle(c));
    }
  }

  // ----- the rewriting of one repeat -----

  /** The condition under which the source rewrites: `$` comes next, or the FIRST sets do not collide. */
  predicate RewriteAllowed(c: Res, below: Stack) {
    || (below.Push? && below.top.AssertEnd?)
    || !Collides(First([], PushAll(c, EndCycle)), First([], below))
  }

  /** Once the rest has failed after a consuming iteration, it would also have failed before that iteration. */
  lemma RestFailsEarlier(build: Build, s: seq<Code>, pos: nat, k: Captures, c: Res, below: Stack)
    requires pos <= |s| && WellFormedAll(c) && WellFormedStack(below) && OrderedStack(below)
    requires NoCaretStack(below) && RewriteAllowed(c, below)
    requires Evaluate(build, s, pos, k, Cycle(c)).Matched?
    requires var r := Evaluate(build, s, pos, k, Cycle(c)); Evaluate(build, s, r.end, r.captures, below).Failed?
    ensures Evaluate(build, s, pos, k, below).Failed?
  {
    var r := Evaluate(build, s, pos, k, Cycle(c));
    NeverDiverges(build, s, pos, k, below);
    if r.end == pos {
      CapturesIrrelevant(build, s, pos, k, r.captures, below);
    } else if Evaluate(build, s, pos, k, below).Matched? {
      WellFormedOrderedAll(c);
      assert OrderedStack(EndCycle);
      FirstSound(build, s, pos, k, Cycle(c));
      if !(below.Push? && below.top.AssertEnd?) {
        FirstSound(build, s, pos, k, below);
        if pos < Evaluate(build, s, pos, k, below).end {
          CollidesMissesNothing(First([], PushAll(c, EndCycle)), First([], below), s[pos]);
        } else {
          EmptyMatches(build, s, r.end, r.captures, below);
        }
      }
    }
  }

  /** Wherever the rest fails after an iteration, it fails before that iteration too. */
  ghost predicate NothingToRetry(build: Build, s: seq<Code>, c: Res, below: Stack) {
    forall pos: nat, k | pos <= |s| && RestLost(build, s, pos, k, c, below) :: Evaluate(build, s, pos, k, below).Failed?
  }

  /** An iteration succeeds, the rest fails after it. */
  ghost predicate RestLost(build: Build, s: seq<Code>, pos: nat, k: Captures, c: Res, below: Stack)
    requires pos <= |s|
  {
    var r := Evaluate(build, s, pos, k, Cycle(c));
    r.Matched? && Evaluate(build, s, r.end, r.captures, below).Failed?
  }

  /** From the a-th iteration on, the backtracking loop and the possessive loop agree. */
  lemma {:induction false} GreedyLoopIsPossessive(build: Build, s: seq<Code>, pos: nat, k: Captures,
                                                  a: nat, b: nat, c: Res, below: Stack, i: nat)
    requires pos <= |s| && NothingToRetry(build, s, c, below) && a <= i
    ensures GreedyLoop(build, s, pos, k, b, c, below, i) == PossessiveLoop(build, s, pos, k, a, b, c, below, i)
    decreases |s| - pos, if i < b then b - i else 0
  {
    hide Evaluate, GreedyLoop, PossessiveLoop;
    GreedyTurn(build, s, pos, k, b, c, below, i);
    PossessiveTurn(build, s, pos, k, a, b, c, below, i);
    var r := Evaluate(build, s, pos, k, Cycle(c));
    if !MoreAllowed(b, i) || !r.Matched? || (b == 0 && r.end == pos) {
      return;
    }
    GreedyLoopIsPossessive(build, s, r.end, r.captures, a, b, c, below, i + 1);
    var deeper := GreedyLoop(build, s, r.end, r.captures, b, c, below, i + 1);
    assert PossessiveLoop(build, s, pos, k, a, b, c, below, i) == deeper;
    if deeper.Failed? {
      GreedyTurn(build, s, r.end, r.captures, b, c, below, i + 1);
      assert Evaluate(build, s, r.end, r.captures, below).Failed?;
      assert RestLost(build, s, pos, k, c, below);
    }
  }

  /** The a mandatory iterations followed by the backtracking loop agree with the possessive loop. */
  lemma {:induction false} MandatoryThenGreedy(build: Build, s: seq<Code>, pos: nat, k: Captures,
                                               a: nat, b: nat, c: Res, below: Stack, i: nat)
    requires pos <= |s| && NothingToRetry(build, s, c, below) && i <= a && (a <= b || b == 0) && RepeatWellFormed(b, c)
    ensures (match Mandatory(build, s, pos, k, c, a - i)
             case Matched(p, k') => GreedyLoop(build, s, p, k', b, c, below, a)
             case r => r)
         == PossessiveLoop(build, s, pos, k, a, b, c, below, i)
    decreases a - i
  {
    if i == a {
      GreedyLoopIsPossessive(build, s, pos, k, a, b, c, below, a);
    } else {
      var r := Evaluate(build, s, pos, k, Cycle(c));
      if r.Matched? {
        if b == 0 {
          CycleAdvances(build, s, pos, k, c);
        }
        MandatoryThenGreedy(build, s, r.end, r.captures, a, b, c, below, i + 1);
      }
    }
  }

  /** What evaluating a greedy repeat gives without any rewriting of that repeat. */
  function Backtracking(build: Build, s: seq<Code>, pos: nat, k: Captures,
                        a: nat, b: nat, c: Res, below: Stack): Outcome
    requires pos <= |s|
  {
    match Mandatory(build, s, pos, k, c, a)
    case Matched(p, k') => GreedyLoop(build, s, p, k', b, c, below, a)
    case r => r
  }

  /** The greedy-to-possessive rewriting preserves outcome, end and captures. */
  lemma PossessiveRewriteIsExact(build: Build, s: seq<Code>, pos: nat, k: Captures,
                                 a: nat, b: nat, c: Res, below: Stack)
    requires pos <= |s| && WellFormed(Repeat(Greedy, a, b, c)) && WellFormedStack(below)
    requires NoCaretStack(below) && RewriteAllowed(c, below)
    ensures Backtracking(build, s, pos, k, a, b, c, below)
         == EvaluateRepeat(build, s, pos, k, Possessive, a, b, c, below)
  {
    WellFormedOrderedStack(below);
    forall p: nat, k' | p <= |s| && RestLost(build, s, p, k', c, below)
      ensures Evaluate(build, s, p, k', below).Failed?
    {
      RestFailsEarlier(build, s, p, k', c, below);
    }
    MandatoryThenGreedy(build, s, pos, k, a, b, c, below, 0);
  }

  lemma {:induction false} WellFormedOrderedStack(st: Stack)
    requires WellFormedStack(st)
    ensures OrderedStack(st)
  {
    match st
    case Finish =>
    case EndCycle =>
    case Close(_, below) => WellFormedOrderedStack(below);
    case Push(re, below) =>
      WellFormedOrdered(re);
      WellFormedOrderedStack(below);
  }

  // ----- the rewriting of a whole pattern -----

  /** No `^` is reached after a greedy repeat. */
  predicate CaretSafe(st: Stack)
    decreases StackSize(st)
  {
    match st
    case Finish => true
    case EndCycle => true
    case Close(_, below) => CaretSafe(below)
    case Push(re, below) =>
      if Elementary(re) then CaretSafe(below)
      else if Repeated(re) then
        (re.mode == Greedy ==> NoCaretStack(below)) && CaretSafe(Cycle(re.content)) && CaretSafe(below)
      else match re {
        case Select(Single(h)) => assert Size(re) == 2 + Size(h); CaretSafe(Push(h, below))
        case Select(Cons(h, t)) =>
          assert Size(re) == 2 + Size(h) + SizeAll(t);
          CaretSafe(Push(h, below)) && CaretSafe(Push(Select(t), below))
        case Optional(c) => CaretSafe(Push(Sequence(c), below)) && CaretSafe(below)
        case LazyOptional(c) => CaretSafe(Push(Sequence(c), below)) && CaretSafe(below)
        case Sequence(Single(h)) => assert Size(re) == 2 + Size(h); CaretSafe(Push(h, below))
        case Sequence(Cons(h, t)) =>
          assert Size(re) == 2 + Size(h) + SizeAll(t);
          assert StackSize(Push(Sequence(t), below)) == 1 + SizeAll(t) + StackSize(below);
          CaretSafe(Push(h, Push(Sequence(t), below)))
        case Capture(id, c) =>
          assert StackSize(Close(id, below)) == 1 + StackSize(below);
          CaretSafe(Push(Sequence(c), Close(id, below)))
      }
  }

  predicate Rewritable(st: Stack) {
    WellFormedStack(st) && CaretSafe(st)
  }

  /** Every build gives what the reference semantics gives: verdict, end and captures. */
  lemma {:induction false} BuildsAgree(build: Build, s: seq<Code>, pos: nat, k: Captures, st: Stack)
    requires pos <= |s| && Rewritable(st)
    ensures Evaluate(build, s, pos, k, st) == Evaluate(Reference, s, pos, k, st)
    decreases StackSize(st), |s| - pos, 1
  {
    hide SizeAll, WellFormedAll, Advance, EvaluateSelect, EvaluateSequence, EvaluateRepeat;
    match st
    case Finish =>
    case EndCycle =>
    case Close(id, below) => BuildsAgree(build, s, pos, EndCapture(k, id, pos), below);
    case Push(re, below) =>
      if Elementary(re) {
        var m := Advance(re, s, pos);
        if m.To? { BuildsAgree(build, s, m.pos, k, below); }
      } else if Repeated(re) {
        BuildsAgreeRepeat(build, s, pos, k, re.mode, Low(re), High(re), re.content, below);
      } else if re.Capture? {
        BuildsAgreeCapture(build, s, pos, k, re.id, re.content, below);
      } else {
        match re
        case Select(c) => BuildsAgreeSelect(build, s, pos, k, c, below);
        case Optional(c) => BuildsAgreeOptional(build, s, pos, k, re, below);
        case LazyOptional(c) => BuildsAgreeOptional(build, s, pos, k, re, below);
        case Sequence(c) => BuildsAgreeSequence(build, s, pos, k, c, below);
      }
  }

  lemma {:induction false} BuildsAgreeOptional(build: Build, s: seq<Code>, pos: nat, k: Captures,
                                               re: Re, below: Stack)
    requires pos <= |s| && Rewritable(Push(re, below)) && (re.Optional? || re.LazyOptional?)
    ensures Evaluate(build, s, pos, k, Push(Sequence(re.content), below))
         == Evaluate(Reference, s, pos, k, Push(Sequence(re.content), below))
    ensures Evaluate(build, s, pos, k, below) == Evaluate(Reference, s, pos, k, below)
    decreases Size(re) + StackSize(below), |s| - pos, 0
  {
    hide SizeAll, WellFormedAll, Evaluate;
    BuildsAgree(build, s, pos, k, Push(Sequence(re.content), below));
    BuildsAgree(build, s, pos, k, below);
  }

  lemma {:induction false} BuildsAgreeCapture(build: Build, s: seq<Code>, pos: nat, k: Captures,
                                              id: nat, c: Res, below: Stack)
    requires pos <= |s| && Rewritable(Push(Capture(id, c), below))
    ensures var k', st := StartCapture(k, id, pos), Push(Sequence(c), Close(id, below));
            Evaluate(build, s, pos, k', st) == Evaluate(Reference, s, pos, k', st)
    decreases 3 + SizeAll(c) + StackSize(below), |s| - pos, 0
  {
    hide SizeAll, WellFormedAll, Evaluate;
    assert StackSize(Close(id, below)) == 1 + StackSize(below);
    assert WellFormedStack(Close(id, below));
    BuildsAgree(build, s, pos, StartCapture(k, id, pos), Push(Sequence(c), Close(id, below)));
  }

  lemma {:induction false} BuildsAgreeSelect(build: Build, s: seq<Code>, pos: nat, k: Captures, c: Res, below: Stack)
    requires pos <= |s| && WellFormedAll(c) && WellFormedStack(below) && CaretSafe(Push(Select(c), below))
    ensures EvaluateSelect(build, s, pos, k, c, below) == EvaluateSelect(Reference, s, pos, k, c, below)
    decreases 1 + SizeAll(c) + StackSize(below), |s| - pos, 0
  {
    match c
    case Single(h) => BuildsAgree(build, s, pos, k, Push(h, below));
    case Cons(h, t) =>
      BuildsAgree(build, s, pos, k, Push(h, below));
      BuildsAgreeSelect(build, s, pos, k, t, below);
  }

  lemma {:induction false} BuildsAgreeSequence(build: Build, s: seq<Code>, pos: nat, k: Captures, c: Res, below: Stack)
    requires pos <= |s| && WellFormedAll(c) && WellFormedStack(below) && CaretSafe(Push(Sequence(c), below))
    ensures EvaluateSequence(build, s, pos, k, c, below) == EvaluateSequence(Reference, s, pos, k, c, below)
    decreases 1 + SizeAll(c) + StackSize(below), |s| - pos, 0
  {
    match c
    case Single(h) => BuildsAgree(build, s, pos, k, Push(h, below));
    case Cons(h, t) =>
      assert StackSize(Push(Sequence(t), below)) == 1 + SizeAll(t) + StackSize(below);
      assert WellFormedStack(Push(Sequence(t), below));
      BuildsAgree(build, s, pos, k, Push(h, Push(Sequence(t), below)));
  }

  predicate RepeatRewritable(b: nat, c: Res, below: Stack) {
    RepeatWellFormed(b, c) && CaretSafe(Cycle(c)) && Rewritable(below)
  }

  lemma {:induction false} BuildsAgreeRepeat(build: Build, s: seq<Code>, pos: nat, k: Captures,
                                             mode: Mode, a: nat, b: nat, c: Res, below: Stack)
    requires pos <= |s| && RepeatRewritable(b, c, below) && (a <= b || b == 0)
    requires mode == Greedy ==> NoCaretStack(below)
    ensures EvaluateRepeat(build, s, pos, k, mode, a, b, c, below)
         == EvaluateRepeat(Reference, s, pos, k, mode, a, b, c, below)
    decreases 2 + SizeAll(c) + StackSize(below), |s| - pos + 1, 0
  {
    hide EvaluateRepeat, Mandatory, PossessiveLoop, LazyLoop, GreedyLoop, CaretSafe, WellFormedAll, WellFormedStack;
    RepeatTurn(build, s, pos, k, mode, a, b, c, below);
    RepeatTurn(Reference, s, pos, k, mode, a, b, c, below);
    if mode == Possessive {
      BuildsAgreePossessive(build, s, pos, k, a, b, c, below, 0);
    } else if mode == Greedy && GoesPossessive(build, c, below) {
      BuildsAgreePossessive(build, s, pos, k, a, b, c, below, 0);
      PossessiveRewriteIsExact(Reference, s, pos, k, a, b, c, below);
      RepeatTurn(Reference, s, pos, k, Possessive, a, b, c, below);
    } else {
      BuildsAgreeMandatory(build, s, pos, k, c, a);
      var r := Mandatory(build, s, pos, k, c, a);
      if r.Matched? {
        if mode == Lazy {
          BuildsAgreeLazy(build, s, r.end, r.captures, b, c, below, a);
        } else {
          BuildsAgreeGreedy(build, s, r.end, r.captures, b, c, below, a);
        }
      }
    }
  }

  lemma {:induction false} BuildsAgreeCycle(build: Build, s: seq<Code>, pos: nat, k: Captures, c: Res)
    requires pos <= |s| && WellFormedAll(c) && CaretSafe(Cycle(c))
    ensures Evaluate(build, s, pos, k, Cycle(c)) == Evaluate(Reference, s, pos, k, Cycle(c))
    decreases 2 + SizeAll(c), |s| - pos, 2
  {
    assert WellFormedStack(EndCycle);
    BuildsAgree(build, s, pos, k, Cycle(c));
  }

  lemma {:induction false} BuildsAgreeMandatory(build: Build, s: seq<Code>, pos: nat, k: Captures, c: Res, n: nat)
    requires pos <= |s| && WellFormedAll(c) && CaretSafe(Cycle(c))
    ensures Mandatory(build, s, pos, k, c, n) == Mandatory(Reference, s, pos, k, c, n)
    decreases 2 + SizeAll(c), |s| - pos, n + 3
  {
    if n > 0 {
      BuildsAgreeCycle(build, s, pos, k, c);
      var r := Evaluate(build, s, pos, k, Cycle(c));
      if r.Matched? {
        BuildsAgreeMandatory(build, s, r.end, r.captures, c, n - 1);
      }
    }
  }

  lemma {:induction false} BuildsAgreePossessive(build: Build, s: seq<Code>, pos: nat, k: Captures,
                                             a: nat, b: nat, c: Res, below: Stack, i: nat)
    requires pos <= |s| && RepeatRewritable(b, c, below)
    ensures PossessiveLoop(build, s, pos, k, a, b, c, below, i)
         == PossessiveLoop(Reference, s, pos, k, a, b, c, below, i)
    decreases 2 + SizeAll(c) + StackSize(below), |s| - pos, if i < b then b - i else 0
  {
    hide Evaluate, PossessiveLoop, CaretSafe, WellFormedAll, WellFormedStack, SizeAll, StackSize;
    PossessiveTurn(build, s, pos, k, a, b, c, below, i);
    PossessiveTurn(Reference, s, pos, k, a, b, c, below, i);
    BuildsAgree(build, s, pos, k, below);
    BuildsAgreeCycle(build, s, pos, k, c);
    var r := Evaluate(build, s, pos, k, Cycle(c));
    if r.Matched? && MoreAllowed(b, i) && !(b == 0 && r.end == pos) {
      BuildsAgreePossessive(build, s, r.end, r.captures, a, b, c, below, i + 1);
    }
  }

  lemma {:induction false} BuildsAgreeLazy(build: Build, s: seq<Code>, pos: nat, k: Captures,
                                             b: nat, c: Res, below: Stack, i: nat)
    requires pos <= |s| && RepeatRewritable(b, c, below)
    ensures LazyLoop(build, s, pos, k, b, c, below, i) == LazyLoop(Reference, s, pos, k, b, c, below, i)
    decreases 2 + SizeAll(c) + StackSize(below), |s| - pos, if i < b then b - i else 0
  {
    hide Evaluate, LazyLoop, CaretSafe, WellFormedAll, WellFormedStack, SizeAll, StackSize;
    LazyTurn(build, s, pos, k, b, c, below, i);
    LazyTurn(Reference, s, pos, k, b, c, below, i);
    var outer := Evaluate(build, s, pos, k, below);
    BuildsAgree(build, s, pos, k, below);
    if !outer.Failed? {
      return;
    }
    BuildsAgreeCycle(build, s, pos, k, c);
    var r := Evaluate(build, s, pos, k, Cycle(c));
    if r.Matched? && MoreAllowed(b, i) && !(b == 0 && r.end == pos) {
      BuildsAgreeLazy(build, s, r.end, r.captures, b, c, below, i + 1);
    }
  }

  lemma {:induction false} BuildsAgreeGreedy(build: Build, s: seq<Code>, pos: nat, k: Captures,
                                             b: nat, c: Res, below: Stack, i: nat)
    requires pos <= |s| && RepeatRewritable(b, c, below)
    ensures GreedyLoop(build, s, pos, k, b, c, below, i) == GreedyLoop(Reference, s, pos, k, b, c, below, i)
    decreases 2 + SizeAll(c) + StackSize(below), |s| - pos, if i < b then b - i else 0
  {
    hide Evaluate, GreedyLoop, CaretSafe, WellFormedAll, WellFormedStack, SizeAll, StackSize;
    GreedyTurn(build, s, pos, k, b, c, below, i);
    GreedyTurn(Reference, s, pos, k, b, c, below, i);
    BuildsAgree(build, s, pos, k, below);
    BuildsAgreeCycle(build, s, pos, k, c);
    var r := Evaluate(build, s, pos, k, Cycle(c));
    if r.Matched? && MoreAllowed(b, i) && !(b == 0 && r.end == pos) {
      BuildsAgreeGreedy(build, s, r.end, r.captures, b, c, below, i + 1);
    }
  }

  /** The collision optimisation never changes the result of a full match. */
  lemma MatchUnchanged(build: Build, s: seq<Code>, pattern: Re)
    requires WellFormed(pattern) && CaretSafe(Push(pattern, Push(AssertEnd, Finish)))
    ensures MatchRe(build, s, pattern) == MatchRe(Reference, s, pattern)
  {
    assert WellFormedStack(Push(AssertEnd, Finish)) by { assert WellFormedStack(Finish); }
    BuildsAgree(build, s, 0, map[], Push(pattern, Push(AssertEnd, Finish)));
  }

  /** Nor that of any attempt of a search. */
  lemma SearchUnchanged(build: Build, s: seq<Code>, it: nat, pattern: Re)
    requires it <= |s| && WellFormed(pattern) && CaretSafe(Push(pattern, Finish))
    ensures SearchAt(build, s, it, pattern) == SearchAt(Reference, s, it, pattern)
  {
    assert WellFormedStack(Finish);
    BuildsAgree(build, s, it, map[], Push(pattern, Finish));
  }
}
