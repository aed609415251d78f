/** Concrete patterns showing that the conditions of the main theorems cannot be dropped. */
module RegexLimits {
  import opened RegexSyntax
  import opened RegexFirst
  import opened RegexMatcher
  import opened RegexLanguage

  const A: Code := 97
  const B: Code := 98

  function Letter(c: Code): Re {
    One(Simple(Character(c)))
  }

  const STAR_CARET := Sequence(Cons(Star(Greedy, Single(Letter(A))), Single(AssertBegin)))
  const CARET_STACK := Push(Sequence(Single(AssertBegin)), Finish)

  lemma CaretFacts(build: Build)
    ensures Evaluate(build, [A], 0, map[], Cycle(Single(Letter(A)))) == Matched(1, map[])
    ensures Evaluate(build, [A], 1, map[], Cycle(Single(Letter(A)))) == Failed
    ensures Evaluate(build, [A], 0, map[], CARET_STACK) == Matched(0, map[])
    ensures Evaluate(build, [A], 1, map[], CARET_STACK) == Failed
    ensures SearchAt(build, [A], 0, STAR_CARET)
         == EvaluateRepeat(build, [A], 0, map[], Greedy, 0, 0, Single(Letter(A)), CARET_STACK)
  {
    var s := [A];
    OneLetter(build, s, 0, A);
    OneLetterFails(build, s, 1, A);
    assert Evaluate(build, s, 1, map[], CARET_STACK)
        == EvaluateSequence(build, s, 1, map[], Single(AssertBegin), Finish);
    assert Evaluate(build, s, 1, map[], Push(AssertBegin, Finish)) == Failed;
    assert Evaluate(build, s, 0, map[], CARET_STACK)
        == EvaluateSequence(build, s, 0, map[], Single(AssertBegin), Finish);
    assert Evaluate(build, s, 0, map[], Push(AssertBegin, Finish)) == Evaluate(build, s, 0, map[], Finish);
    assert SearchAt(build, s, 0, STAR_CARET) == EvaluateSequence(build, s, 0, map[], STAR_CARET.content, Finish)
        == Evaluate(build, s, 0, map[], Push(STAR_CARET.content.head, CARET_STACK));
  }

  /** a*^ on "a": the reference semantics backtracks to the empty match at 0, the rewritten loop cannot. */
  lemma CaretAfterRepeatIsLost()
    ensures SearchAt(Reference, [A], 0, STAR_CARET) == Matched(0, map[])
    ensures SearchAt(Optimised, [A], 0, STAR_CARET) == Failed
  {
    var s, c, rest := [A], Single(Letter(A)), CARET_STACK;
    CaretFacts(Optimised);
    CaretFacts(Reference);
    assert First([], rest) == First([], Push(AssertBegin, Finish)) == First([], Finish) == [];
    assert GoesPossessive(Optimised, c, rest);
    assert PossessiveLoop(Optimised, s, 1, map[], 0, 0, c, rest, 1) == Failed;
    assert PossessiveLoop(Optimised, s, 0, map[], 0, 0, c, rest, 0) == Failed;
    assert GreedyLoop(Reference, s, 1, map[], 0, c, rest, 1) == Failed;
    assert GreedyLoop(Reference, s, 0, map[], 0, c, rest, 0) == Matched(0, map[]);
  }

  lemma OneLetter(build: Build, s: seq<Code>, pos: nat, c: Code)
    requires pos < |s| && s[pos] == c
    ensures Evaluate(build, s, pos, map[], Cycle(Single(Letter(c)))) == Matched(pos + 1, map[])
  {
    assert Evaluate(build, s, pos, map[], Cycle(Single(Letter(c))))
        == EvaluateSequence(build, s, pos, map[], Single(Letter(c)), EndCycle)
        == Evaluate(build, s, pos, map[], Push(Letter(c), EndCycle));
    assert Advance(Letter(c), s, pos) == To(pos + 1);
    assert Evaluate(build, s, pos, map[], Push(Letter(c), EndCycle)) == Evaluate(build, s, pos + 1, map[], EndCycle);
  }

  lemma OneLetterFails(build: Build, s: seq<Code>, pos: nat, c: Code)
    requires pos == |s|
    ensures Evaluate(build, s, pos, map[], Cycle(Single(Letter(c)))) == Failed
  {
    assert Evaluate(build, s, pos, map[], Cycle(Single(Letter(c))))
        == EvaluateSequence(build, s, pos, map[], Single(Letter(c)), EndCycle)
        == Evaluate(build, s, pos, map[], Push(Letter(c), EndCycle));
    assert Advance(Letter(c), s, pos) == Rejects;
  }

  /** a{3,2} on "aa": the possessive loop stops at the upper bound without looking at the lower one. */
  lemma InvertedBoundsDiffer()
    ensures var pattern := Repeat(Greedy, 3, 2, Single(Letter(A)));
            MatchRe(Reference, [A, A], pattern) == Failed && MatchRe(Optimised, [A, A], pattern) == Matched(2, map[])
  {
    var s, c, rest := [A, A], Single(Letter(A)), Push(AssertEnd, Finish);
    var pattern := Repeat(Greedy, 3, 2, c);
    assert MatchRe(Reference, s, pattern) == EvaluateRepeat(Reference, s, 0, map[], Greedy, 3, 2, c, rest);
    assert MatchRe(Optimised, s, pattern) == EvaluateRepeat(Optimised, s, 0, map[], Greedy, 3, 2, c, rest)
        == EvaluateRepeat(Optimised, s, 0, map[], Possessive, 3, 2, c, rest);
    OneLetter(Reference, s, 0, A);
    OneLetter(Reference, s, 1, A);
    OneLetterFails(Reference, s, 2, A);
    OneLetter(Optimised, s, 0, A);
    OneLetter(Optimised, s, 1, A);
    assert Evaluate(Optimised, s, 2, map[], rest) == Evaluate(Optimised, s, 2, map[], Finish) == Matched(2, map[]);
    assert Mandatory(Reference, s, 2, map[], c, 1) == Failed;
    assert Mandatory(Reference, s, 1, map[], c, 2) == Failed;
    assert Mandatory(Reference, s, 0, map[], c, 3) == Failed;
    assert PossessiveLoop(Optimised, s, 2, map[], 3, 2, c, rest, 2) == Matched(2, map[]);
    assert PossessiveLoop(Optimised, s, 1, map[], 3, 2, c, rest, 1) == Matched(2, map[]);
    assert PossessiveLoop(Optimised, s, 0, map[], 3, 2, c, rest, 0) == Matched(2, map[]);
  }

  lemma EmptyCycle(build: Build)
    ensures Evaluate(build, [], 0, map[], Cycle(Single(Optional(Single(Letter(A)))))) == Matched(0, map[])
  {
    var c := Single(Optional(Single(Letter(A))));
    assert Evaluate(build, [], 0, map[], Cycle(c)) == EvaluateSequence(build, [], 0, map[], c, EndCycle)
        == Evaluate(build, [], 0, map[], Push(Optional(Single(Letter(A))), EndCycle));
    assert Evaluate(build, [], 0, map[], Push(Sequence(Single(Letter(A))), EndCycle))
        == EvaluateSequence(build, [], 0, map[], Single(Letter(A)), EndCycle)
        == Evaluate(build, [], 0, map[], Push(Letter(A), EndCycle)) == Failed;
    assert Evaluate(build, [], 0, map[], EndCycle) == Matched(0, map[]);
    assert Evaluate(build, [], 0, map[], Cycle(c)) == Matched(0, map[]);
  }

  /** (?:a?)* on the empty subject never returns. */
  lemma EmptyBodyDiverges(build: Build)
    ensures MatchRe(build, [], Star(Greedy, Single(Optional(Single(Letter(A)))))) == Diverges
  {
    var c, rest := Single(Optional(Single(Letter(A)))), Push(AssertEnd, Finish);
    EmptyCycle(build);
    assert MatchRe(build, [], Star(Greedy, c)) == EvaluateRepeat(build, [], 0, map[], Greedy, 0, 0, c, rest);
    assert PossessiveLoop(build, [], 0, map[], 0, 0, c, rest, 0) == Diverges;
    assert GreedyLoop(build, [], 0, map[], 0, c, rest, 0) == Diverges;
  }

  const CHOICE := Cons(Letter(A), Single(Str([A, B])))
  const TWICE := Repeat(Greedy, 2, 2, Single(Select(CHOICE)))

  lemma TwiceSpans()
    ensures Spans(TWICE, [A, B, A], 0, 3)
  {
    var s, c := [A, B, A], Single(Select(CHOICE));
    assert s[0..2] == [A, B];
    assert Spans(Str([A, B]), s, 0, 2);
    assert SpansOne(CHOICE.tail, s, 0, 2);
    assert SpansOne(CHOICE, s, 0, 2);
    assert Spans(Select(CHOICE), s, 0, 2) && SpansAll(c, s, 0, 2);
    assert Spans(Letter(A), s, 2, 3) && SpansOne(CHOICE, s, 2, 3);
    assert Spans(Select(CHOICE), s, 2, 3) && SpansAll(c, s, 2, 3);
    assert SpansTimes(c, 0, s, 3, 3) && SpansTimes(c, 1, s, 2, 3) && SpansTimes(c, 2, s, 0, 3);
    assert InBounds(2, 2, 2);
  }

  lemma ChoiceFacts(build: Build)
    ensures Evaluate(build, [A, B, A], 0, map[], Cycle(Single(Select(CHOICE)))) == Matched(1, map[])
    ensures Evaluate(build, [A, B, A], 1, map[], Cycle(Single(Select(CHOICE)))) == Failed
  {
    var s := [A, B, A];
    ChoiceCycle(build, s, 0, CHOICE);
    assert Evaluate(build, s, 0, map[], Push(Letter(A), EndCycle)) == Evaluate(build, s, 1, map[], EndCycle);
    ChoiceCycle(build, s, 1, CHOICE);
    assert Evaluate(build, s, 1, map[], Push(Letter(A), EndCycle)) == Failed;
    assert s[1..3][0] != A;
    assert Evaluate(build, s, 1, map[], Push(Str([A, B]), EndCycle)) == Failed;
    assert EvaluateSelect(build, s, 1, map[], CHOICE.tail, EndCycle) == Failed;
  }

  /** (?:a|ab){2} does not match "aba" although it is in the language: an iteration is never reconsidered. */
  lemma IterationsAreAtomic(build: Build)
    ensures MatchRe(build, [A, B, A], TWICE) == Failed && Spans(TWICE, [A, B, A], 0, 3)
  {
    var s, c, rest := [A, B, A], Single(Select(CHOICE)), Push(AssertEnd, Finish);
    TwiceSpans();
    ChoiceFacts(build);
    assert MatchRe(build, s, TWICE) == EvaluateRepeat(build, s, 0, map[], Greedy, 2, 2, c, rest);
    assert PossessiveLoop(build, s, 0, map[], 2, 2, c, rest, 0)
        == EvaluateRepeat(build, s, 0, map[], Possessive, 2, 2, c, rest);
    assert Mandatory(build, s, 1, map[], c, 1) == Failed;
    assert Mandatory(build, s, 0, map[], c, 2) == Failed;
    assert PossessiveLoop(build, s, 1, map[], 2, 2, c, rest, 1) == Failed;
    assert PossessiveLoop(build, s, 0, map[], 2, 2, c, rest, 0) == Failed;
  }

  lemma ChoiceCycle(build: Build, s: seq<Code>, pos: nat, options: Res)
    requires pos <= |s|
    ensures Evaluate(build, s, pos, map[], Cycle(Single(Select(options))))
         == EvaluateSelect(build, s, pos, map[], options, EndCycle)
  {
    assert Evaluate(build, s, pos, map[], Cycle(Single(Select(options))))
        == EvaluateSequence(build, s, pos, map[], Single(Select(options)), EndCycle)
        == Evaluate(build, s, pos, map[], Push(Select(options), EndCycle));
  }
}
