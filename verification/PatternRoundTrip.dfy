/** The parser undoes the printer: every printed pattern is accepted and yields the tree `BuildPattern` describes. */
module PatternRoundTrip {
  import opened Options
  import opened RegexSyntax
  import opened PatternGrammar
  import opened PatternParser
  import opened PatternActions
  import opened PatternPrinter

  /** A tree and the number of groups opened so far. */
  datatype Built = Built(re: Re, counter: nat)

  function ClassOf(letter: Letter): Matcher {
    match letter
    case D => Matcher.Set([Simple(DIGIT_CHARS)])
    case NotD => NegativeSet([DIGIT_CHARS])
    case S => Matcher.Set([Simple(SPACE_CHARS)])
    case NotS => NegativeSet([SPACE_CHARS])
    case W => Matcher.Set([Simple(WORD_CHARS)])
    case NotW => NegativeSet([WORD_CHARS])
    case NotNewline => NegativeSet([Character(10)])
  }

  function BuildAtom(a: Atom, n: nat): Built
    decreases a
  {
    match a
    case Literal(c) => Built(One(Simple(Character(c))), n)
    case Dot => Built(AnyCharacter, n)
    case Class(letter) => Built(One(ClassOf(letter)), n)
    case LineStart => Built(AssertBegin, n)
    case LineEnd => Built(AssertEnd, n)
    case Group(p) => var b := BuildPattern(p, n + 1); Built(Capture(n + 1, Unpacked(b.re)), b.counter)
    case NonCapturing(p) => BuildPattern(p, n)
  }

  function BuildTimes(times: Times, re: Re): Re {
    match times
    case Once => re
    case ZeroOrOne(lazy) => if lazy then LazyOptional(Unpacked(re)) else Optional(Unpacked(re))
    case ZeroOrMore(mode) => Star(mode, Unpacked(re))
    case OneOrMore(mode) => Plus(mode, Unpacked(re))
    case Exactly(n) => Re.Repeat(Greedy, n % SIZE_LIMIT, n % SIZE_LIMIT, Unpacked(re))
    case AtLeast(n, mode) => Re.Repeat(mode, n % SIZE_LIMIT, 0, Unpacked(re))
    case Between(a, b, mode) => Re.Repeat(mode, a % SIZE_LIMIT, b % SIZE_LIMIT, Unpacked(re))
  }

  function BuildTerm(t: Term, n: nat): Built
    decreases t
  {
    var b := BuildAtom(t.atom, n);
    Built(BuildTimes(t.times, b.re), b.counter)
  }

  function BuildTerms(ts: Terms, n: nat): Built
    decreases ts
  {
    match ts
    case Last(t) => BuildTerm(t, n)
    case Then(t, others) =>
      var a := BuildTerm(t, n);
      var b := BuildTerms(others, a.counter);
      Built(MakeSequenceOf(a.re, b.re), b.counter)
  }

  function BuildPattern(p: Pattern, n: nat): Built
    decreases p
  {
    match p
    case Void => Built(Empty, n)
    case Branch(ts) => BuildTerms(ts, n)
    case Either(ts, others) =>
      var a := BuildTerms(ts, n);
      var b := BuildPattern(others, a.counter);
      Built(MakeAlternateOf(a.re, b.re), b.counter)
  }

  // ----- single steps of the machine -----

  function Go(previous: Option<Code>, text: Text, st: Symbols, s: Subject): Results<Subject> {
    Run(Apply, previous, text, st, s)
  }

  lemma Act(previous: Option<Code>, text: Text, action: Action, st: Symbols, s: Subject, s': Subject)
    requires Apply(action, previous, s) == Done(s')
    ensures Go(previous, text, On(Do(action), st), s) == Go(previous, text, st, s')
  {
  }

  lemma Drop(previous: Option<Code>, text: Text, n: Nonterminal, st: Symbols, s: Subject)
    requires RuleAt(n, text, st).Keep?
    ensures Go(previous, text, On(NT(n), st), s) == Go(previous, text, st, s)
  {
  }

  lemma Expand(previous: Option<Code>, text: Text, n: Nonterminal, st: Symbols, s: Subject, st': Symbols)
    requires RuleAt(n, text, st) == Swap(st') && st'.On? && !st'.top.Anything?
    ensures Go(previous, text, On(NT(n), st), s) == Go(previous, text, st', s)
  {
  }

  lemma Read(previous: Option<Code>, c: Code, text: Text, n: Nonterminal, st: Symbols, s: Subject, st': Symbols)
    requires Rule(n, c, st) == Swap(On(Anything, st'))
    ensures Go(previous, Next(c, text), On(NT(n), st), s) == Go(Some(c), text, st', s)
  {
  }

  lemma ReadTerminal(previous: Option<Code>, c: Code, text: Text, sym: Symbol, st: Symbols, s: Subject)
    requires sym == Anything || sym == Terminal(c)
    ensures Go(previous, Next(c, text), On(sym, st), s) == Go(Some(c), text, st, s)
  {
  }

  // ----- what the machine does with printed text -----

  /** The characters an atom may begin with. */
  predicate StartsAtom(c: Code) {
    !Quantifier(c) && c != CLOSE && c != BAR && c != OPEN_SQUARE
  }

  /** What may follow a whole term. */
  predicate Follows(k: Text) {
    k.End? || k.first == CLOSE || k.first == BAR || StartsAtom(k.first)
  }

  /** What may follow a whole pattern. */
  predicate Closes(k: Text) {
    k.End? || k.first == CLOSE
  }

  lemma AtomStarts(a: Atom, k: Text)
    ensures PrintAtom(a, k).Next? && StartsAtom(PrintAtom(a, k).first)
  {
  }

  lemma TermsStart(ts: Terms, k: Text)
    ensures PrintTerms(ts, k).Next? && StartsAtom(PrintTerms(ts, k).first)
  {
    AtomStarts(ts.term.atom, match ts
      case Last(t) => PrintTimes(t.times, k)
      case Then(t, others) => PrintTimes(t.times, PrintTerms(others, k)));
  }

  lemma PatternStarts(p: Pattern, k: Text)
    requires !p.Void?
    ensures Print(p, k).Next? && StartsAtom(Print(p, k).first)
  {
    match p
    case Branch(ts) => TermsStart(ts, k);
    case Either(ts, others) => TermsStart(ts, Char(BAR, Print(others, k)));
  }

  lemma ModeRules(n: Nonterminal, k: Text, st: Symbols)
    requires n == Mod || n == ModOpt
    ensures Follows(k) ==> RuleAt(n, k, st).Keep?
    ensures Rule(n, QUESTION, st) == Swap(On(Anything, On(Do(MakeLazy), st)))
    ensures n == Mod ==> Rule(n, PLUS, st) == Swap(On(Anything, On(Do(MakePossessive), st)))
  {
    hide SetRule, AtomRule;
  }

  lemma ModeActions(re: Re, items: Items, counter: nat)
    ensures forall c: Code ::
              && (SetMode(re, Lazy).Some? ==>
                    Apply(MakeLazy, Some(c), Context(Tree(re, items), counter))
                    == Done(Context(Tree(SetMode(re, Lazy).value, items), counter)))
              && (SetMode(re, Possessive).Some? ==>
                    Apply(MakePossessive, Some(c), Context(Tree(re, items), counter))
                    == Done(Context(Tree(SetMode(re, Possessive).value, items), counter)))
  {
    hide SetMode;
  }

  /** A repetition mark replaces the tree on top. */
  lemma ModeRead(mode: Mode, previous: Option<Code>, k: Text, n: Nonterminal, st: Symbols, re: Re, items: Items,
                 counter: nat, re': Re) returns (last: Option<Code>)
    requires (n == Mod || (n == ModOpt && mode != Possessive)) && Follows(k) && previous.Some?
    requires if mode == Greedy then re' == re else SetMode(re, mode) == Some(re')
    ensures last.Some?
    ensures Go(previous, PrintMode(mode, k), On(NT(n), st), Context(Tree(re, items), counter))
         == Go(last, k, st, Context(Tree(re', items), counter))
  {
    hide Go, Rule, RuleAt, Apply, SetMode;
    ModeRules(n, k, st);
    ModeActions(re, items, counter);
    var s, s' := Context(Tree(re, items), counter), Context(Tree(re', items), counter);
    match mode
    case Greedy =>
      Drop(previous, k, n, st, s);
      last := previous;
    case Lazy =>
      Read(previous, QUESTION, k, n, st, s, On(Do(MakeLazy), st));
      last := Some(QUESTION);
      Act(last, k, MakeLazy, st, s, s');
    case Possessive =>
      Read(previous, PLUS, k, n, st, s, On(Do(MakePossessive), st));
      last := Some(PLUS);
      Act(last, k, MakePossessive, st, s, s');
  }

  lemma RepeatRules(k: Text, st: Symbols)
    requires Follows(k)
    ensures RuleAt(Nonterminal.Repeat, k, st).Keep?
    ensures Rule(Nonterminal.Repeat, QUESTION, st) == Swap(On(Anything, On(Do(MakeOptional), On(NT(ModOpt), st))))
    ensures Rule(Nonterminal.Repeat, STAR, st) == Swap(On(Anything, On(Do(RepeatStar), On(NT(Mod), st))))
    ensures Rule(Nonterminal.Repeat, PLUS, st) == Swap(On(Anything, On(Do(RepeatPlus), On(NT(Mod), st))))
  {
  }

  lemma RepeatActions(re: Re, items: Items, counter: nat)
    ensures forall c: Code ::
              && Apply(MakeOptional, Some(c), Context(Tree(re, items), counter))
                 == Done(Context(Tree(Optional(Unpacked(re)), items), counter))
              && Apply(RepeatStar, Some(c), Context(Tree(re, items), counter))
                 == Done(Context(Tree(Star(Greedy, Unpacked(re)), items), counter))
              && Apply(RepeatPlus, Some(c), Context(Tree(re, items), counter))
                 == Done(Context(Tree(Re.Plus(Greedy, Unpacked(re)), items), counter))
  {
  }

  lemma TimesRead(times: Times, previous: Option<Code>, k: Text, st: Symbols, re: Re, items: Items, counter: nat)
    returns (last: Option<Code>)
    requires Follows(k) && previous.Some?
    ensures last.Some?
    ensures Go(previous, PrintTimes(times, k), On(NT(Nonterminal.Repeat), st), Context(Tree(re, items), counter))
         == Go(last, k, st, Context(Tree(BuildTimes(times, re), items), counter))
  {
    hide Go, Rule, RuleAt, Apply;
    RepeatRules(k, st);
    RepeatActions(re, items, counter);
    var s := Context(Tree(re, items), counter);
    match times
    case Once =>
      Drop(previous, k, Nonterminal.Repeat, st, s);
      last := previous;
    case ZeroOrOne(lazy) =>
      var mode, re1 := if lazy then Lazy else Greedy, Optional(Unpacked(re));
      Read(previous, QUESTION, PrintMode(mode, k), Nonterminal.Repeat, st, s, On(Do(MakeOptional), On(NT(ModOpt), st)));
      Act(Some(QUESTION), PrintMode(mode, k), MakeOptional, On(NT(ModOpt), st), s, Context(Tree(re1, items), counter));
      last := ModeRead(mode, Some(QUESTION), k, ModOpt, st, re1, items, counter, BuildTimes(times, re));
    case ZeroOrMore(mode) =>
      var re1 := Star(Greedy, Unpacked(re));
      Read(previous, STAR, PrintMode(mode, k), Nonterminal.Repeat, st, s, On(Do(RepeatStar), On(NT(Mod), st)));
      Act(Some(STAR), PrintMode(mode, k), RepeatStar, On(NT(Mod), st), s, Context(Tree(re1, items), counter));
      last := ModeRead(mode, Some(STAR), k, Mod, st, re1, items, counter, BuildTimes(times, re));
    case OneOrMore(mode) =>
      var re1 := Re.Plus(Greedy, Unpacked(re));
      Read(previous, PLUS, PrintMode(mode, k), Nonterminal.Repeat, st, s, On(Do(RepeatPlus), On(NT(Mod), st)));
      Act(Some(PLUS), PrintMode(mode, k), RepeatPlus, On(NT(Mod), st), s, Context(Tree(re1, items), counter));
      last := ModeRead(mode, Some(PLUS), k, Mod, st, re1, items, counter, BuildTimes(times, re));
    case _ => last := CountsRead(times, previous, k, st, re, items, counter);
  }

  lemma NumberRules(d: Code, st: Symbols)
    requires Digit(d)
    ensures Rule(Nonterminal.Number, d, st) == Swap(On(Anything, On(Do(CreateNumber), On(NT(Number2), st))))
    ensures Rule(Number2, d, st) == Swap(On(Anything, On(Do(PushNumber), On(NT(Number2), st))))
  {
    hide SetRule, AtomRule;
  }

  lemma NumberActions(d: Code, m: nat, items: Items, counter: nat)
    requires Digit(d)
    ensures Apply(CreateNumber, Some(d), Context(items, counter))
         == Done(Context(Numeral((d - 48) % SIZE_LIMIT, items), counter))
    ensures Apply(PushNumber, Some(d), Context(Numeral(m % SIZE_LIMIT, items), counter))
         == Done(Context(Numeral((m * 10 + (d - 48)) % SIZE_LIMIT, items), counter))
  {
    AppendDigit(m, d - 48);
  }

  /** The digits of a number, of which the first creates it. */
  lemma {:induction false} NumberRead(n: nat, previous: Option<Code>, k: Text, st: Symbols, items: Items, counter: nat)
    returns (last: Option<Code>)
    ensures last.Some?
    ensures Go(previous, PrintNumber(n, k), On(NT(Nonterminal.Number), st), Context(items, counter))
         == Go(last, k, On(NT(Number2), st), Context(Numeral(n % SIZE_LIMIT, items), counter))
    decreases n
  {
    hide Go, Rule, Apply;
    var d: Code := 48 + n % 10;
    NumberRules(d, st);
    NumberActions(d, n / 10, items, counter);
    last := Some(d);
    var s' := Context(Numeral(n % SIZE_LIMIT, items), counter);
    if n < 10 {
      Read(previous, d, k, Nonterminal.Number, st, Context(items, counter), On(Do(CreateNumber), On(NT(Number2), st)));
      Act(last, k, CreateNumber, On(NT(Number2), st), Context(items, counter), s');
    } else {
      var prev := NumberRead(n / 10, previous, Char(d, k), st, items, counter);
      var s1 := Context(Numeral(n / 10 % SIZE_LIMIT, items), counter);
      Read(prev, d, k, Number2, st, s1, On(Do(PushNumber), On(NT(Number2), st)));
      Act(last, k, PushNumber, On(NT(Number2), st), s1, s');
    }
  }

  lemma AppendDigit(m: nat, d: nat)
    requires d < 10
    ensures DigitOf(48 + d) == d && (m % SIZE_LIMIT * 10 + d) % SIZE_LIMIT == (m * 10 + d) % SIZE_LIMIT
  {
    var q := m / SIZE_LIMIT;
    assert m * 10 + d == m % SIZE_LIMIT * 10 + d + SIZE_LIMIT * (10 * q);
    ModShift(m % SIZE_LIMIT * 10 + d, 10 * q);
  }

  lemma {:induction false} ModShift(x: nat, q: nat)
    ensures (x + SIZE_LIMIT * q) % SIZE_LIMIT == x % SIZE_LIMIT
  {
    if q > 0 {
      ModShift(x, q - 1);
    }
  }

  lemma CountRules(st: Symbols)
    ensures Rule(Nonterminal.Repeat, OPEN_CURLY, st) == Swap(On(Anything, On(NT(Nonterminal.Number), On(NT(B), st))))
    ensures Rule(B, COMMA, st) == Swap(On(Anything, On(NT(N), st)))
    ensures forall k :: RuleAt(N, Char(CLOSE_CURLY, k), st)
                     == Swap(On(Do(RepeatAtLeast), On(Anything, On(NT(Mod), st))))
  {
    hide SetRule, AtomRule;
  }

  lemma CountEnds(st: Symbols)
    ensures forall k :: RuleAt(Number2, Char(CLOSE_CURLY, k), st).Keep? && RuleAt(Number2, Char(COMMA, k), st).Keep?
  {
    hide SetRule, AtomRule;
  }

  lemma CountsRead(times: Times, previous: Option<Code>, k: Text, st: Symbols, re: Re, items: Items, counter: nat)
    returns (last: Option<Code>)
    requires Follows(k) && (times.Exactly? || times.AtLeast? || times.Between?)
    ensures last.Some?
    ensures Go(previous, PrintTimes(times, k), On(NT(Nonterminal.Repeat), st), Context(Tree(re, items), counter))
         == Go(last, k, st, Context(Tree(BuildTimes(times, re), items), counter))
  {
    hide Go, Rule, RuleAt, Apply, PrintNumber, PrintMode;
    CountRules(st);
    CountEnds(On(NT(B), st));
    var s := Context(Tree(re, items), counter);
    var first := if times.Between? then times.a else times.n;
    var text := PrintTimes(times, k).rest;
    var rest := match times
      case Exactly(_) => Char(CLOSE_CURLY, k)
      case AtLeast(_, mode) => Char(COMMA, Char(CLOSE_CURLY, PrintMode(mode, k)))
      case Between(_, b, mode) => Char(COMMA, PrintNumber(b, Char(CLOSE_CURLY, PrintMode(mode, k))))
      case _ => k;
    Read(previous, OPEN_CURLY, text, Nonterminal.Repeat, st, s, On(NT(Nonterminal.Number), On(NT(B), st)));
    var prev := NumberRead(first, Some(OPEN_CURLY), rest, On(NT(B), st), Tree(re, items), counter);
    var s1 := Context(Numeral(first % SIZE_LIMIT, Tree(re, items)), counter);
    Drop(prev, rest, Number2, On(NT(B), st), s1);
    if times.Exactly? {
      last := ExactlyRead(times.n, prev, k, st, re, items, counter);
    } else {
      Read(prev, COMMA, rest.rest, B, st, s1, On(NT(N), st));
      if times.AtLeast? {
        last := AtLeastRead(times.n, times.mode, k, st, re, items, counter);
      } else {
        last := BetweenRead(times.a, times.b, times.mode, k, st, re, items, counter);
      }
    }
  }

  lemma ExactlyRead(n: nat, previous: Option<Code>, k: Text, st: Symbols, re: Re, items: Items, counter: nat)
    returns (last: Option<Code>)
    requires previous.Some?
    ensures last.Some?
    ensures Go(previous, Char(CLOSE_CURLY, k), On(NT(B), st),
               Context(Numeral(n % SIZE_LIMIT, Tree(re, items)), counter))
         == Go(last, k, st, Context(Tree(BuildTimes(Exactly(n), re), items), counter))
  {
    hide Go, SetRule, AtomRule;
    var text, s := Char(CLOSE_CURLY, k), Context(Numeral(n % SIZE_LIMIT, Tree(re, items)), counter);
    var s' := Context(Tree(BuildTimes(Exactly(n), re), items), counter);
    Expand(previous, text, B, st, s, On(Do(RepeatExactly), On(Anything, st)));
    Act(previous, text, RepeatExactly, On(Anything, st), s, s');
    ReadTerminal(previous, CLOSE_CURLY, k, Anything, st, s');
    last := Some(CLOSE_CURLY);
  }

  lemma AtLeastRead(n: nat, mode: Mode, k: Text, st: Symbols, re: Re, items: Items, counter: nat)
    returns (last: Option<Code>)
    requires Follows(k)
    ensures last.Some?
    ensures Go(Some(COMMA), Char(CLOSE_CURLY, PrintMode(mode, k)), On(NT(N), st),
               Context(Numeral(n % SIZE_LIMIT, Tree(re, items)), counter))
         == Go(last, k, st, Context(Tree(BuildTimes(AtLeast(n, mode), re), items), counter))
  {
    hide Go, Rule, RuleAt, Apply, PrintMode;
    CountRules(st);
    var rest, s := PrintMode(mode, k), Context(Numeral(n % SIZE_LIMIT, Tree(re, items)), counter);
    var re1, end := Re.Repeat(Greedy, n % SIZE_LIMIT, 0, Unpacked(re)), On(NT(Mod), st);
    Expand(Some(COMMA), Char(CLOSE_CURLY, rest), N, st, s, On(Do(RepeatAtLeast), On(Anything, end)));
    CountApplied(Some(COMMA), n % SIZE_LIMIT, 0, re, items, counter);
    Act(Some(COMMA), Char(CLOSE_CURLY, rest), RepeatAtLeast, On(Anything, end), s, Context(Tree(re1, items), counter));
    ReadTerminal(Some(COMMA), CLOSE_CURLY, rest, Anything, end, Context(Tree(re1, items), counter));
    last := ModeRead(mode, Some(CLOSE_CURLY), k, Mod, st, re1, items, counter, BuildTimes(AtLeast(n, mode), re));
  }

  lemma CountApplied(previous: Option<Code>, a: nat, b: nat, re: Re, items: Items, counter: nat)
    requires previous.Some?
    ensures Apply(RepeatAb, previous, Context(Numeral(b, Numeral(a, Tree(re, items))), counter))
         == Done(Context(Tree(Re.Repeat(Greedy, a, b, Unpacked(re)), items), counter))
    ensures Apply(RepeatAtLeast, previous, Context(Numeral(a, Tree(re, items)), counter))
         == Done(Context(Tree(Re.Repeat(Greedy, a, 0, Unpacked(re)), items), counter))
  {
  }

  /** What is left on the stack once the second number is read. */
  function BetweenRest(st: Symbols): Symbols {
    On(Do(RepeatAb), On(Terminal(CLOSE_CURLY), On(NT(Mod), st)))
  }

  lemma BetweenRules(st: Symbols)
    ensures forall text: Text | text.Next? && Digit(text.first) ::
              RuleAt(N, text, st) == Swap(On(NT(Nonterminal.Number), BetweenRest(st)))
  {
  }

  lemma BetweenRead(a: nat, b: nat, mode: Mode, k: Text, st: Symbols, re: Re, items: Items, counter: nat)
    returns (last: Option<Code>)
    requires Follows(k)
    ensures last.Some?
    ensures Go(Some(COMMA), PrintNumber(b, Char(CLOSE_CURLY, PrintMode(mode, k))), On(NT(N), st),
               Context(Numeral(a % SIZE_LIMIT, Tree(re, items)), counter))
         == Go(last, k, st, Context(Tree(BuildTimes(Between(a, b, mode), re), items), counter))
  {
    BetweenRules(st);
    hide Go, Rule, RuleAt, Apply, PrintMode, PrintNumber, Digit, Unpacked, BetweenRest;
    var items1, end := Numeral(a % SIZE_LIMIT, Tree(re, items)), Char(CLOSE_CURLY, PrintMode(mode, k));
    NumberStarts(b, end);
    Expand(Some(COMMA), PrintNumber(b, end), N, st, Context(items1, counter),
           On(NT(Nonterminal.Number), BetweenRest(st)));
    var prev := NumberRead(b, Some(COMMA), end, BetweenRest(st), items1, counter);
    last := BetweenEnd(a % SIZE_LIMIT, b % SIZE_LIMIT, mode, prev, k, st, re, items, counter);
  }

  /** The end of the two counts. */
  lemma BetweenEnd(a: nat, b: nat, mode: Mode, previous: Option<Code>, k: Text, st: Symbols, re: Re, items: Items,
                   counter: nat) returns (last: Option<Code>)
    requires Follows(k) && previous.Some?
    ensures last.Some?
    ensures Go(previous, Char(CLOSE_CURLY, PrintMode(mode, k)), On(NT(Number2), BetweenRest(st)),
               Context(Numeral(b, Numeral(a, Tree(re, items))), counter))
         == Go(last, k, st, Context(Tree(Re.Repeat(mode, a, b, Unpacked(re)), items), counter))
  {
    hide Go, Rule, RuleAt, Apply, PrintMode, Unpacked;
    var text, st2 := Char(CLOSE_CURLY, PrintMode(mode, k)), BetweenRest(st);
    var s1 := Context(Numeral(b, Numeral(a, Tree(re, items))), counter);
    var re1 := Re.Repeat(Greedy, a, b, Unpacked(re));
    var s2 := Context(Tree(re1, items), counter);
    CountEnds(st2);
    Drop(previous, text, Number2, st2, s1);
    CountApplied(previous, a, b, re, items, counter);
    Act(previous, text, RepeatAb, st2.below, s1, s2);
    ReadTerminal(previous, CLOSE_CURLY, text.rest, Terminal(CLOSE_CURLY), On(NT(Mod), st), s2);
    last := ModeRead(mode, Some(CLOSE_CURLY), k, Mod, st, re1, items, counter,
                     Re.Repeat(mode, a, b, Unpacked(re)));
  }

  lemma {:induction false} NumberStarts(n: nat, k: Text)
    ensures Digit(PrintNumber(n, k).first)
  {
    if n >= 10 {
      NumberStarts(n / 10, Char(48 + n % 10, k));
    }
  }

  /** The machine reads an atom, its first character included, and continues with `after`. */
  lemma {:induction false} AtomRead(a: Atom, k: Text, st: Symbols, after: Symbols, items: Items, n: nat)
    returns (last: Option<Code>)
    requires AtomRule(PrintAtom(a, k).first, after) == Swap(On(Anything, st))
    ensures last.Some?
    ensures Go(Some(PrintAtom(a, k).first), PrintAtom(a, k).rest, st, Context(items, n))
         == Go(last, k, after, Context(Tree(BuildAtom(a, n).re, items), BuildAtom(a, n).counter))
    decreases a
  {
    hide Go;
    match a
    case Literal(c) => last := LeafRead(a, k, st, after, items, n);
    case Dot => last := LeafRead(a, k, st, after, items, n);
    case Class(letter) => last := ClassRead(letter, k, after, items, n);
    case LineStart => last := LeafRead(a, k, st, after, items, n);
    case LineEnd => last := LeafRead(a, k, st, after, items, n);
    case Group(p) => last := GroupRead(p, k, after, items, n);
    case NonCapturing(p) => last := NonCapturingRead(p, k, after, items, n);
  }

  lemma LeafActions(a: Atom, items: Items, n: nat)
    ensures a.Literal? ==>
              Apply(PushCharacter, Some(a.c), Context(items, n))
              == Done(Context(Tree(One(Simple(Character(a.c))), items), n))
    ensures forall c: Code ::
              && Apply(PushCharacterAnything, Some(c), Context(items, n)) == Done(Context(Tree(AnyCharacter, items), n))
              && Apply(PushAssertBegin, Some(c), Context(items, n)) == Done(Context(Tree(AssertBegin, items), n))
              && Apply(PushAssertEnd, Some(c), Context(items, n)) == Done(Context(Tree(AssertEnd, items), n))
  {
  }

  lemma LeafRead(a: Atom, k: Text, st: Symbols, after: Symbols, items: Items, n: nat) returns (last: Option<Code>)
    requires a.Literal? || a.Dot? || a.LineStart? || a.LineEnd?
    requires AtomRule(PrintAtom(a, k).first, after) == Swap(On(Anything, st))
    ensures last.Some?
    ensures Go(Some(PrintAtom(a, k).first), PrintAtom(a, k).rest, st, Context(items, n))
         == Go(last, k, after, Context(Tree(BuildAtom(a, n).re, items), n))
  {
    hide Go, Rule, Apply;
    LeafActions(a, items, n);
    var s' := Context(Tree(BuildAtom(a, n).re, items), n);
    last := Some(PrintAtom(a, k).first);
    if a.Literal? && Metacharacter(a.c) {
      Read(last, a.c, k, Backslash, after, Context(items, n), On(Do(PushCharacter), after)) by {
        EscapedRule(a.c, after);
      }
      last := Some(a.c);
      Act(last, k, PushCharacter, after, Context(items, n), s');
    } else {
      Act(last, k, st.top.action, after, Context(items, n), s');
    }
  }

  lemma EscapedRule(c: Code, st: Symbols)
    requires Metacharacter(c)
    ensures Rule(Backslash, c, st) == Swap(On(Anything, On(Do(PushCharacter), st)))
  {
  }

  function ClassAction(letter: Letter): Action {
    match letter
    case D => ClassDigit
    case NotD => ClassNondigit
    case S => ClassSpace
    case NotS => ClassNonspace
    case W => ClassWord
    case NotW => ClassNonword
    case NotNewline => ClassNonnewline
  }

  lemma ClassRead(letter: Letter, k: Text, after: Symbols, items: Items, n: nat) returns (last: Option<Code>)
    ensures last.Some?
    ensures Go(Some(BACKSLASH), Next(LetterOf(letter), k), On(NT(Backslash), after), Context(items, n))
         == Go(last, k, after, Context(Tree(One(ClassOf(letter)), items), n))
  {
    hide Go;
    last := Some(LetterOf(letter));
    var st := On(Do(ClassAction(letter)), after);
    LetterRule(letter, after);
    Read(Some(BACKSLASH), LetterOf(letter), k, Backslash, after, Context(items, n), st);
    Act(last, k, ClassAction(letter), after, Context(items, n), Context(Tree(One(ClassOf(letter)), items), n));
  }

  lemma LetterRule(letter: Letter, st: Symbols)
    ensures Rule(Backslash, LetterOf(letter), st) == Swap(On(Anything, On(Do(ClassAction(letter)), st)))
  {
  }

  lemma GroupActions(items: Items, n: nat)
    ensures forall c: Code ::
              && Apply(PrepareCapture, Some(c), Context(items, n)) == Done(Context(GroupId(n + 1, items), n + 1))
              && Apply(ResetCapture, Some(c), Context(GroupId(n + 1, items), n + 1)) == Done(Context(items, n))
  {
  }

  lemma CaptureApplied(previous: Option<Code>, re: Re, id: nat, items: Items, n: nat)
    requires previous.Some?
    ensures Apply(MakeCapture, previous, Context(Tree(re, GroupId(id, items)), n))
         == Done(Context(Tree(Capture(id, Unpacked(re)), items), n))
  {
  }

  lemma {:induction false} GroupRead(p: Pattern, k: Text, after: Symbols, items: Items, n: nat)
    returns (last: Option<Code>)
    ensures last.Some?
    ensures Go(Some(OPEN), Print(p, Char(CLOSE, k)), On(Do(PrepareCapture), On(NT(Block), after)), Context(items, n))
         == Go(last, k, after, Context(Tree(BuildAtom(Group(p), n).re, items), BuildAtom(Group(p), n).counter))
    decreases p, 1
  {
    hide Go, Rule, RuleAt, Apply, Print;
    GroupActions(items, n);
    var text, s1, b := Print(p, Char(CLOSE, k)), Context(GroupId(n + 1, items), n + 1), BuildPattern(p, n + 1);
    Act(Some(OPEN), text, PrepareCapture, On(NT(Block), after), Context(items, n), s1);
    BlockRule(p, k, after);
    var inner := On(Do(MakeCapture), On(Terminal(CLOSE), after));
    Expand(Some(OPEN), text, Block, after, s1, On(NT(ContentInCapture), inner));
    var prev := PatternRead(ContentInCapture, p, Some(OPEN), Char(CLOSE, k), inner, GroupId(n + 1, items), n + 1);
    var s2 := Context(Tree(b.re, GroupId(n + 1, items)), b.counter);
    var s3 := Context(Tree(Capture(n + 1, Unpacked(b.re)), items), b.counter);
    CaptureApplied(prev, b.re, n + 1, items, b.counter);
    Act(prev, Char(CLOSE, k), MakeCapture, On(Terminal(CLOSE), after), s2, s3);
    ReadTerminal(prev, CLOSE, k, Terminal(CLOSE), after, s3);
    last := Some(CLOSE);
  }

  lemma BlockRule(p: Pattern, k: Text, after: Symbols)
    ensures RuleAt(Block, Print(p, Char(CLOSE, k)), after) == Swap(Inside(MakeCapture, after))
  {
    if !p.Void? {
      PatternStarts(p, Char(CLOSE, k));
    }
  }

  lemma NonCapturingRules(st: Symbols)
    ensures Rule(Block, QUESTION, st) == Swap(On(Anything, On(NT(Nonterminal.D), st)))
    ensures forall k :: RuleAt(Nonterminal.D, Char(COLON, k), st)
                     == Swap(On(Do(ResetCapture), On(Anything, On(NT(ContentInCapture), On(Terminal(CLOSE), st)))))
  {
  }

  lemma {:induction false} NonCapturingRead(p: Pattern, k: Text, after: Symbols, items: Items, n: nat)
    returns (last: Option<Code>)
    ensures last.Some?
    ensures Go(Some(OPEN), Char(QUESTION, Char(COLON, Print(p, Char(CLOSE, k)))),
               On(Do(PrepareCapture), On(NT(Block), after)), Context(items, n))
         == Go(last, k, after, Context(Tree(BuildPattern(p, n).re, items), BuildPattern(p, n).counter))
    decreases p, 1
  {
    hide Go, Rule, RuleAt, Apply, Print, BuildPattern;
    NonCapturingRules(after);
    GroupActions(items, n);
    var text := Char(COLON, Print(p, Char(CLOSE, k)));
    var s0, s1 := Context(items, n), Context(GroupId(n + 1, items), n + 1);
    Act(Some(OPEN), Char(QUESTION, text), PrepareCapture, On(NT(Block), after), s0, s1);
    Read(Some(OPEN), QUESTION, text, Block, after, s1, On(NT(Nonterminal.D), after));
    var inner := On(Terminal(CLOSE), after);
    var content := On(Anything, On(NT(ContentInCapture), inner));
    Expand(Some(QUESTION), text, Nonterminal.D, after, s1, On(Do(ResetCapture), content));
    Act(Some(QUESTION), text, ResetCapture, content, s1, s0);
    ReadTerminal(Some(QUESTION), COLON, text.rest, Anything, content.below, s0);
    var prev := PatternRead(ContentInCapture, p, Some(COLON), Char(CLOSE, k), inner, items, n);
    var b := BuildPattern(p, n);
    ReadTerminal(prev, CLOSE, k, Terminal(CLOSE), after, Context(Tree(b.re, items), b.counter));
    last := Some(CLOSE);
  }

  lemma PatternRules(x: Nonterminal, k: Text, st: Symbols)
    requires x.Start? || x.Content? || x.ContentInCapture?
    ensures Closes(k) ==> RuleAt(Content2, k, st).Keep?
    ensures x.ContentInCapture? && k.Next? && Closes(k) ==> RuleAt(x, k, st) == Swap(On(Do(PushEmpty), st))
    ensures Rule(Content2, BAR, st) == Swap(On(Anything, On(NT(A), st)))
  {
    hide SetRule;
  }

  lemma JoinActions(previous: Option<Code>, a: Re, b: Re, items: Items, n: nat)
    requires previous.Some?
    ensures Apply(PushEmpty, previous, Context(items, n)) == Done(Context(Tree(Empty, items), n))
    ensures Apply(MakeAlternate, previous, Context(Tree(b, Tree(a, items)), n))
         == Done(Context(Tree(MakeAlternateOf(a, b), items), n))
    ensures Apply(MakeSequence, previous, Context(Tree(b, Tree(a, items)), n))
         == Done(Context(Tree(MakeSequenceOf(a, b), items), n))
  {
    hide MakeAlternateOf, MakeSequenceOf;
  }

  /** A whole pattern, from one of the three nonterminals for patterns on. */
  lemma {:induction false} PatternRead(x: Nonterminal, p: Pattern, previous: Option<Code>, k: Text, st: Symbols,
                                       items: Items, n: nat) returns (last: Option<Code>)
    requires x.Start? || x.Content? || x.ContentInCapture?
    requires Closes(k) && (p.Void? ==> x.ContentInCapture? && k.Next? && previous.Some?)
    ensures last.Some?
    ensures Go(previous, Print(p, k), On(NT(x), st), Context(items, n))
         == Go(last, k, st, Context(Tree(BuildPattern(p, n).re, items), BuildPattern(p, n).counter))
    decreases p, 0
  {
    hide Go, Rule, RuleAt, Apply, BuildTerms, PrintTerms;
    PatternRules(x, k, st);
    match p
    case Void =>
      JoinActions(previous, Empty, Empty, items, n);
      Expand(previous, k, x, st, Context(items, n), On(Do(PushEmpty), st));
      Act(previous, k, PushEmpty, st, Context(items, n), Context(Tree(Empty, items), n));
      last := previous;
    case Branch(ts) =>
      last := BranchRead(x, ts, previous, k, st, items, n);
      var b := BuildTerms(ts, n);
      Drop(last, k, Content2, st, Context(Tree(b.re, items), b.counter));
    case Either(ts, others) =>
      var a, b := BuildTerms(ts, n), BuildPattern(p.others, BuildTerms(ts, n).counter);
      var rest := Print(others, k);
      var prev := BranchRead(x, ts, previous, Char(BAR, rest), st, items, n);
      Read(prev, BAR, rest, Content2, st, Context(Tree(a.re, items), a.counter), On(NT(A), st));
      last := OthersRead(others, k, st, Tree(a.re, items), a.counter);
      JoinActions(last, a.re, b.re, items, b.counter);
      Act(last, k, MakeAlternate, st, Context(Tree(b.re, Tree(a.re, items)), b.counter),
          Context(Tree(MakeAlternateOf(a.re, b.re), items), b.counter));
  }

  lemma {:induction false} OthersRead(p: Pattern, k: Text, st: Symbols, items: Items, n: nat)
    returns (last: Option<Code>)
    requires Closes(k)
    ensures last.Some?
    ensures Go(Some(BAR), Print(p, k), On(NT(A), st), Context(items, n))
         == Go(last, k, On(Do(MakeAlternate), st),
                Context(Tree(BuildPattern(p, n).re, items), BuildPattern(p, n).counter))
    decreases p, 1
  {
    hide Go;
    var st', s := On(Do(MakeAlternate), st), Context(items, n);
    if p.Void? {
      last := Some(BAR);
      Expand(last, k, A, st, s, On(Do(PushEmpty), st'));
      Act(last, k, PushEmpty, st', s, Context(Tree(Empty, items), n));
    } else {
      PatternStarts(p, k);
      Expand(Some(BAR), Print(p, k), A, st, s, On(NT(Nonterminal.Content), st'));
      last := PatternRead(Nonterminal.Content, p, Some(BAR), k, st', items, n);
    }
  }

  /** One alternative, up to what follows it. */
  lemma {:induction false} BranchRead(x: Nonterminal, ts: Terms, previous: Option<Code>, k: Text, st: Symbols,
                                      items: Items, n: nat) returns (last: Option<Code>)
    requires x.Start? || x.Content? || x.ContentInCapture?
    requires Closes(k) || k.first == BAR
    ensures last.Some?
    ensures Go(previous, PrintTerms(ts, k), On(NT(x), st), Context(items, n))
         == Go(last, k, On(NT(Content2), st), Context(Tree(BuildTerms(ts, n).re, items), BuildTerms(ts, n).counter))
    decreases ts, 1
  {
    hide Go;
    TermsStart(ts, k);
    var text, end := PrintTerms(ts, k), On(NT(Content2), st);
    var after := On(NT(Nonterminal.Repeat), On(NT(String2), end));
    var st' := AtomRule(text.first, after).stack.below;
    Read(previous, text.first, text.rest, x, st, Context(items, n), st');
    last := TermsRead(ts, k, st', end, items, n);
  }

  lemma BranchEnds(k: Text, st: Symbols)
    requires Closes(k) || k.first == BAR
    ensures RuleAt(String2, k, st).Keep?
  {
    hide SetRule;
  }

  /** The terms of an alternative; the first character of the first one is read already. */
  lemma {:induction false} TermsRead(ts: Terms, k: Text, st: Symbols, end: Symbols, items: Items, n: nat)
    returns (last: Option<Code>)
    requires Closes(k) || k.first == BAR
    requires AtomRule(PrintTerms(ts, k).first, On(NT(Nonterminal.Repeat), On(NT(String2), end)))
          == Swap(On(Anything, st))
    ensures last.Some?
    ensures Go(Some(PrintTerms(ts, k).first), PrintTerms(ts, k).rest, st, Context(items, n))
         == Go(last, k, end, Context(Tree(BuildTerms(ts, n).re, items), BuildTerms(ts, n).counter))
    decreases ts, 0
  {
    hide Go, Rule, RuleAt, Apply, AtomRule, PrintTimes, PrintAtom, BuildTerm;
    match ts
    case Last(t) =>
      BranchEnds(k, end);
      last := TermRead(t, k, st, On(NT(String2), end), items, n);
      var b := BuildTerm(t, n);
      Drop(last, k, String2, end, Context(Tree(b.re, items), b.counter));
    case Then(t, others) =>
      TermsStart(others, k);
      var rest := PrintTerms(others, k);
      var prev := TermRead(t, rest, st, On(NT(String2), end), items, n);
      var a, b := BuildTerm(t, n), BuildTerms(others, BuildTerm(t, n).counter);
      last := MoreRead(others, prev, k, end, Tree(a.re, items), a.counter);
      JoinActions(last, a.re, b.re, items, b.counter);
      Act(last, k, MakeSequence, end, Context(Tree(b.re, Tree(a.re, items)), b.counter),
          Context(Tree(MakeSequenceOf(a.re, b.re), items), b.counter));
  }

  lemma {:induction false} MoreRead(ts: Terms, previous: Option<Code>, k: Text, end: Symbols, items: Items, n: nat)
    returns (last: Option<Code>)
    requires Closes(k) || k.first == BAR
    ensures last.Some?
    ensures Go(previous, PrintTerms(ts, k), On(NT(String2), end), Context(items, n))
         == Go(last, k, On(Do(MakeSequence), end),
               Context(Tree(BuildTerms(ts, n).re, items), BuildTerms(ts, n).counter))
    decreases ts, 1
  {
    hide Go;
    TermsStart(ts, k);
    var text, end', s := PrintTerms(ts, k), On(Do(MakeSequence), end), Context(items, n);
    var below := On(NT(String2), end');
    Expand(previous, text, String2, end, s, On(NT(AtomRepeat), below));
    var st' := AtomRule(text.first, On(NT(Nonterminal.Repeat), below)).stack.below;
    Read(previous, text.first, text.rest, AtomRepeat, below, s, st');
    last := TermsRead(ts, k, st', end', items, n);
  }

  lemma {:induction false} TermRead(t: Term, k: Text, st: Symbols, after: Symbols, items: Items, n: nat)
    returns (last: Option<Code>)
    requires Follows(k)
    requires AtomRule(PrintAtom(t.atom, PrintTimes(t.times, k)).first, On(NT(Nonterminal.Repeat), after))
          == Swap(On(Anything, st))
    ensures last.Some?
    ensures Go(Some(PrintAtom(t.atom, PrintTimes(t.times, k)).first),
               PrintAtom(t.atom, PrintTimes(t.times, k)).rest, st,
               Context(items, n))
         == Go(last, k, after, Context(Tree(BuildTerm(t, n).re, items), BuildTerm(t, n).counter))
    decreases t
  {
    hide Go;
    var b := BuildAtom(t.atom, n);
    var prev := AtomRead(t.atom, PrintTimes(t.times, k), st, On(NT(Nonterminal.Repeat), after), items, n);
    last := TimesRead(t.times, prev, k, after, b.re, items, b.counter);
  }

  /** The parser accepts every printed pattern and builds its tree. */
  lemma ParseUndoesPrint(p: Pattern)
    ensures var r := Parse(Print(p, End));
            && r.decision.Accepted?
            && r.subject == Context(Tree(BuildPattern(p, 0).re, Nothing), BuildPattern(p, 0).counter)
  {
    var text, s := Print(p, End), Context(Nothing, 0);
    AlwaysDecides(Apply, text, s);
    if p.Void? {
      Expand(None, End, Start, Bottom, s, On(Do(PushEmpty), Bottom));
      Act(None, End, PushEmpty, Bottom, s, Context(Tree(Empty, Nothing), 0));
    } else {
      var last := PatternRead(Start, p, None, End, Bottom, Nothing, 0);
    }
  }
}
