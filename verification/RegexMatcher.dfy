/** The backtracking matcher: `evaluate` as a function of a continuation stack, a position and the captures. */
module RegexMatcher {
  import opened RegexSyntax
  import opened RegexFirst

  /** The storage of one group. A default-constructed iterator is position 0. */
  datatype Group = Group(begin: nat, end: nat, matched: bool)

  type Captures = map<nat, Group>

  /** `Diverges` stands for a run that never returns: an unbounded repeat whose body matched nothing. */
  datatype Outcome = Failed | Diverges | Matched(end: nat, captures: Captures)

  /** What the greedy rewriting is allowed to do: the default build, the build with CTRE_DISABLE_GREEDY_OPT,
      and a reference semantics without any rewriting. */
  datatype Build = Optimised | GreedyOptOff | Reference

  function Get(caps: Captures, id: nat): Group {
    if id in caps then caps[id] else Group(0, 0, false)
  }

  function StartCapture(caps: Captures, id: nat, pos: nat): Captures {
    caps[id := Get(caps, id).(begin := pos)]
  }

  function EndCapture(caps: Captures, id: nat, pos: nat): Captures {
    caps[id := Get(caps, id).(end := pos, matched := true)]
  }

  /** `evaluate_match_string` on a non-empty text. */
  predicate MatchString(text: seq<Code>, s: seq<Code>, pos: nat)
    requires |text| > 0 && pos <= |s|
    ensures MatchString(text, s, pos) <==> pos + |text| <= |s| && s[pos..pos + |text|] == text
  {
    if pos < |s| && text[0] == s[pos] then
      assert text == [text[0]] + text[1..];
      assert pos + |text| <= |s| ==> s[pos..pos + |text|] == [s[pos]] + s[pos + 1..pos + |text|];
      |text| > 1 ==> MatchString(text[1..], s, pos + 1)
    else
      assert pos + |text| <= |s| ==> s[pos..pos + |text|][0] == s[pos];
      false
  }

  /** What an elementary tree (a matcher, a text, `empty` or an assertion) does at a position. */
  datatype Move = Rejects | To(pos: nat)

  predicate Elementary(re: Re) {
    re.One? || re.AnyCharacter? || re.Str? || re.Empty? || re.AssertBegin? || re.AssertEnd?
  }

  /** The repeats: star is repeat<0, 0>, plus is repeat<1, 0>. */
  predicate Repeated(re: Re) {
    re.Star? || re.Plus? || re.Repeat?
  }

  function Low(re: Re): nat
    requires Repeated(re)
  {
    match re
    case Star(_, _) => 0
    case Plus(_, _) => 1
    case Repeat(_, a, _, _) => a
  }

  function High(re: Re): nat
    requires Repeated(re)
  {
    if re.Repeat? then re.b else 0
  }

  function Advance(re: Re, s: seq<Code>, pos: nat): (r: Move)
    requires pos <= |s| && Elementary(re)
    ensures r.To? ==> pos <= r.pos <= |s|
  {
    match re
    case One(m) => if pos == |s| || !Accepts(m, s[pos]) then Rejects else To(pos + 1)
    case AnyCharacter => if pos == |s| then Rejects else To(pos + 1)
    case Str(text) =>
      if |text| == 0 then To(pos) else if MatchString(text, s, pos) then To(pos + |text|) else Rejects
    case Empty => To(pos)
    case AssertBegin => if pos != 0 then Rejects else To(pos)
    case AssertEnd => if pos != |s| then Rejects else To(pos)
  }

  /** The stack against which each single iteration of a repeat runs. */
  function Cycle(content: Res): (st: Stack)
    ensures StackSize(st) == 2 + SizeAll(content)
  {
    assert StackSize(EndCycle) == 1;
    Push(Sequence(content), EndCycle)
  }

  /** Whether a greedy repeat is turned into a possessive one. */
  predicate GoesPossessive(build: Build, content: Res, below: Stack) {
    if below.Push? && below.top.AssertEnd? then
      build != Reference
    else
      build == Optimised && !Collides(First([], PushAll(content, EndCycle)), First([], below))
  }

  predicate MoreAllowed(b: nat, i: nat) {
    b == 0 || i < b
  }

  /** `evaluate`. */
  function Evaluate(build: Build, s: seq<Code>, pos: nat, caps: Captures, st: Stack): (r: Outcome)
    requires pos <= |s|
    ensures r.Matched? ==> pos <= r.end <= |s|
    decreases StackSize(st), |s| - pos, 1
  {
    match st
    case Finish => Matched(pos, caps)
    case EndCycle => Matched(pos, caps)
    case Close(id, below) => Evaluate(build, s, pos, EndCapture(caps, id, pos), below)
    case Push(re, below) =>
      if Elementary(re) then
        match Advance(re, s, pos)
        case Rejects => Failed
        case To(p) => Evaluate(build, s, p, caps, below)
      else if Repeated(re) then
        EvaluateRepeat(build, s, pos, caps, re.mode, Low(re), High(re), re.content, below)
      else match re {
        case Select(options) => EvaluateSelect(build, s, pos, caps, options, below)
        case Optional(c) =>
          var r1 := Evaluate(build, s, pos, caps, Push(Sequence(c), below));
          if r1.Failed? then Evaluate(build, s, pos, caps, below) else r1
        case LazyOptional(c) =>
          var r1 := Evaluate(build, s, pos, caps, below);
          if r1.Failed? then Evaluate(build, s, pos, caps, Push(Sequence(c), below)) else r1
        case Sequence(c) => EvaluateSequence(build, s, pos, caps, c, below)
        case Capture(id, c) =>
          assert StackSize(Close(id, below)) == 1 + StackSize(below);
          Evaluate(build, s, pos, StartCapture(caps, id, pos), Push(Sequence(c), Close(id, below)))
      }
  }

  /** `evaluate` on the stack (select<options...>, below...). */
  function EvaluateSelect(build: Build, s: seq<Code>, pos: nat, caps: Captures,
                          options: Res, below: Stack): (r: Outcome)
    requires pos <= |s|
    ensures r.Matched? ==> pos <= r.end <= |s|
    decreases 1 + SizeAll(options) + StackSize(below), |s| - pos, 0
  {
    match options
    case Single(h) => Evaluate(build, s, pos, caps, Push(h, below))
    case Cons(h, t) =>
      var r1 := Evaluate(build, s, pos, caps, Push(h, below));
      if r1.Failed? then EvaluateSelect(build, s, pos, caps, t, below) else r1
  }

  /** `evaluate` on the stack (sequence<c...>, below...). */
  function EvaluateSequence(build: Build, s: seq<Code>, pos: nat, caps: Captures,
                            c: Res, below: Stack): (r: Outcome)
    requires pos <= |s|
    ensures r.Matched? ==> pos <= r.end <= |s|
    decreases 1 + SizeAll(c) + StackSize(below), |s| - pos, 0
  {
    match c
    case Single(h) => Evaluate(build, s, pos, caps, Push(h, below))
    case Cons(h, t) =>
      assert StackSize(Push(Sequence(t), below)) == 1 + SizeAll(t) + StackSize(below);
      Evaluate(build, s, pos, caps, Push(h, Push(Sequence(t), below)))
  }

  /** `evaluate` on the stack (repeat<a, b, c...>, below...). */
  function EvaluateRepeat(build: Build, s: seq<Code>, pos: nat, caps: Captures,
                          mode: Mode, a: nat, b: nat, c: Res, below: Stack): (r: Outcome)
    requires pos <= |s|
    ensures r.Matched? ==> pos <= r.end <= |s|
    decreases (if mode == Greedy then 4 else 3) + SizeAll(c) + StackSize(below), |s| - pos, 0
  {
    match mode
    case Lazy =>
      (match Mandatory(build, s, pos, caps, c, a)
       case Matched(p, k) => LazyLoop(build, s, p, k, b, c, below, a)
       case r => r)
    case Possessive => PossessiveLoop(build, s, pos, caps, a, b, c, below, 0)
    case Greedy =>
      if GoesPossessive(build, c, below) then
        EvaluateRepeat(build, s, pos, caps, Possessive, a, b, c, below)
      else
        match Mandatory(build, s, pos, caps, c, a)
        case Matched(p, k) => GreedyLoop(build, s, p, k, b, c, below, a)
        case r => r
  }

  /** The first `n` iterations of a lazy or greedy repeat. */
  function Mandatory(build: Build, s: seq<Code>, pos: nat, caps: Captures, c: Res, n: nat): (r: Outcome)
    requires pos <= |s|
    ensures r.Matched? ==> pos <= r.end <= |s|
    decreases 2 + SizeAll(c), |s| - pos, n + 1
  {
    if n == 0 then Matched(pos, caps)
    else
      match Evaluate(build, s, pos, caps, Cycle(c))
      case Matched(p, k) => Mandatory(build, s, p, k, c, n - 1)
      case r => r
  }

  /** The possessive loop from its i-th iteration on. */
  function PossessiveLoop(build: Build, s: seq<Code>, pos: nat, caps: Captures,
                          a: nat, b: nat, c: Res, below: Stack, i: nat): (r: Outcome)
    requires pos <= |s|
    ensures r.Matched? ==> pos <= r.end <= |s|
    decreases 2 + SizeAll(c) + StackSize(below), |s| - pos, 1 + if i < b then b - i else 0
  {
    if MoreAllowed(b, i) then
      match Evaluate(build, s, pos, caps, Cycle(c))
      case Matched(p, k) =>
        if b == 0 && p == pos then Diverges else PossessiveLoop(build, s, p, k, a, b, c, below, i + 1)
      case Diverges => Diverges
      case Failed => if i < a then Failed else Evaluate(build, s, pos, caps, below)
    else
      Evaluate(build, s, pos, caps, below)
  }

  /** The lazy loop from its i-th iteration on: the rest first, one more iteration when it fails. */
  function LazyLoop(build: Build, s: seq<Code>, pos: nat, caps: Captures,
                    b: nat, c: Res, below: Stack, i: nat): (r: Outcome)
    requires pos <= |s|
    ensures r.Matched? ==> pos <= r.end <= |s|
    decreases 2 + SizeAll(c) + StackSize(below), |s| - pos, 1 + if i < b then b - i else 0
  {
    var outer := Evaluate(build, s, pos, caps, below);
    if !outer.Failed? then outer
    else if MoreAllowed(b, i) then
      match Evaluate(build, s, pos, caps, Cycle(c))
      case Matched(p, k) =>
        if b == 0 && p == pos then Diverges else LazyLoop(build, s, p, k, b, c, below, i + 1)
      case r => r
    else
      Failed
  }

  /** `evaluate_recursive`. */
  function GreedyLoop(build: Build, s: seq<Code>, pos: nat, caps: Captures,
                      b: nat, c: Res, below: Stack, i: nat): (r: Outcome)
    requires pos <= |s|
    ensures r.Matched? ==> pos <= r.end <= |s|
    decreases 2 + SizeAll(c) + StackSize(below), |s| - pos, 1 + if i < b then b - i else 0
  {
    var deeper :=
      if !MoreAllowed(b, i) then Failed
      else
        match Evaluate(build, s, pos, caps, Cycle(c))
        case Matched(p, k) =>
          if b == 0 && p == pos then Diverges else GreedyLoop(build, s, p, k, b, c, below, i + 1)
        case r => r;
    if deeper.Failed? then Evaluate(build, s, pos, caps, below) else deeper
  }

  // ----- the repeats and one turn of each loop, for proofs that need no more than that -----

  lemma RepeatTurn(build: Build, s: seq<Code>, pos: nat, k: Captures,
                   mode: Mode, a: nat, b: nat, c: Res, below: Stack)
    requires pos <= |s|
    ensures var r := Mandatory(build, s, pos, k, c, a);
            EvaluateRepeat(build, s, pos, k, mode, a, b, c, below)
            == if mode == Possessive || (mode == Greedy && GoesPossessive(build, c, below)) then
                 PossessiveLoop(build, s, pos, k, a, b, c, below, 0)
               else if !r.Matched? then r
               else if mode == Lazy then LazyLoop(build, s, r.end, r.captures, b, c, below, a)
               else GreedyLoop(build, s, r.end, r.captures, b, c, below, a)
  {
    hide Evaluate, Mandatory, PossessiveLoop, LazyLoop, GreedyLoop, GoesPossessive;
  }

  lemma MandatoryTurn(build: Build, s: seq<Code>, pos: nat, k: Captures, c: Res, n: nat)
    requires pos <= |s|
    ensures var r := Evaluate(build, s, pos, k, Cycle(c));
            Mandatory(build, s, pos, k, c, n)
            == if n == 0 then Matched(pos, k)
               else if !r.Matched? then r else Mandatory(build, s, r.end, r.captures, c, n - 1)
  {
    hide Evaluate;
  }

  lemma PossessiveTurn(build: Build, s: seq<Code>, pos: nat, k: Captures, a: nat, b: nat, c: Res, below: Stack, i: nat)
    requires pos <= |s|
    ensures var r := Evaluate(build, s, pos, k, Cycle(c));
            PossessiveLoop(build, s, pos, k, a, b, c, below, i)
            == if !MoreAllowed(b, i) || (r.Failed? && a <= i) then Evaluate(build, s, pos, k, below)
               else if !r.Matched? then r
               else if b == 0 && r.end == pos then Diverges
               else PossessiveLoop(build, s, r.end, r.captures, a, b, c, below, i + 1)
  {
    hide Evaluate;
  }

  lemma LazyTurn(build: Build, s: seq<Code>, pos: nat, k: Captures, b: nat, c: Res, below: Stack, i: nat)
    requires pos <= |s|
    ensures var outer, r := Evaluate(build, s, pos, k, below), Evaluate(build, s, pos, k, Cycle(c));
            LazyLoop(build, s, pos, k, b, c, below, i)
            == if !outer.Failed? then outer
               else if !MoreAllowed(b, i) then Failed
               else if !r.Matched? then r
               else if b == 0 && r.end == pos then Diverges
               else LazyLoop(build, s, r.end, r.captures, b, c, below, i + 1)
  {
    hide Evaluate;
  }

  lemma GreedyTurn(build: Build, s: seq<Code>, pos: nat, k: Captures, b: nat, c: Res, below: Stack, i: nat)
    requires pos <= |s|
    ensures var r := Evaluate(build, s, pos, k, Cycle(c));
            var deeper := if !MoreAllowed(b, i) then Failed
                          else if !r.Matched? then r
                          else if b == 0 && r.end == pos then Diverges
                          else GreedyLoop(build, s, r.end, r.captures, b, c, below, i + 1);
            GreedyLoop(build, s, pos, k, b, c, below, i)
            == if deeper.Failed? then Evaluate(build, s, pos, k, below) else deeper
  {
    hide Evaluate;
  }

  /** `match_re`. */
  function MatchRe(build: Build, s: seq<Code>, pattern: Re): Outcome {
    Evaluate(build, s, 0, map[], Push(pattern, Push(AssertEnd, Finish)))
  }

  /** One attempt of `search_re`, at position `it`. */
  function SearchAt(build: Build, s: seq<Code>, it: nat, pattern: Re): Outcome
    requires it <= |s|
  {
    Evaluate(build, s, it, map[], Push(pattern, Finish))
  }
}
