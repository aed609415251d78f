/** The language of patterns: a grammar that says nothing of how to choose between its productions, and its
    derivations. */
module PatternLanguage {
  import opened Options
  import opened PatternGrammar
  import opened PatternParser

  // ----- the grammar -----

  /** A sentential form: a character, a nonterminal or an action, and what follows. */
  function Char(c: char, rest: Symbols): Symbols {
    On(Terminal(c as int), rest)
  }

  function Sub(n: Nonterminal, rest: Symbols): Symbols {
    On(NT(n), rest)
  }

  function Emit(action: Action, rest: Symbols): Symbols {
    On(Do(action), rest)
  }

  /** The form begins with a character, and goes on as given. */
  predicate Reads(goal: Symbols, rest: Symbols) {
    goal.On? && goal.top.Terminal? && goal == On(Terminal(goal.top.c), rest)
  }

  predicate IsDigit(c: Code) {
    '0' as int <= c <= '9' as int
  }

  predicate IsHexDigit(c: Code) {
    IsDigit(c) || 'A' as int <= c <= 'F' as int || 'a' as int <= c <= 'f' as int
  }

  predicate IsNameStart(c: Code) {
    'A' as int <= c <= 'Z' as int || 'a' as int <= c <= 'z' as int || c == '_' as int
  }

  predicate IsNamePart(c: Code) {
    IsNameStart(c) || IsDigit(c)
  }

  predicate IsPropertyPart(c: Code) {
    IsNamePart(c) || c == '.' as int
  }

  /** The repetition marks and curly brackets. */
  predicate IsRepetition(c: Code) {
    c == '*' as int || c == '+' as int || c == '?' as int || c == '{' as int || c == '}' as int
  }

  /** What must be escaped to stand for itself, in sets and outside. */
  predicate IsSpecial(c: Code) {
    || IsRepetition(c) || c == '(' as int || c == ')' as int || c == '|' as int || c == '.' as int
    || c == '$' as int || c == '^' as int || c == '[' as int || c == ']' as int || c == '\\' as int
  }

  /** What stands for itself outside a set; a closing square bracket does. */
  predicate IsPlain(c: Code) {
    !IsSpecial(c) || c == ']' as int
  }

  /** What stands for itself in a set; at its head and at the end of a range there is one exception more. */
  predicate IsMember(c: Code) {
    c != '[' as int && c != '\\' as int && c != '-' as int && c != ']' as int && c != '|' as int
  }

  predicate IsFirstMember(c: Code) {
    IsMember(c) && c != '^' as int
  }

  /** An atom other than a set. */
  predicate ProducesAtom(rest: Symbols, goal: Symbols) {
    || goal == Char('\\', Sub(Backslash, rest))
    || goal == Char('(', Emit(PrepareCapture, Sub(Block, rest)))
    || goal == Char('^', Emit(PushAssertBegin, rest))
    || goal == Char('$', Emit(PushAssertEnd, rest))
    || goal == Char('.', Emit(PushCharacterAnything, rest))
    || (Reads(goal, Emit(PushCharacter, rest)) && IsPlain(goal.top.c))
  }

  /** An atom, a repetition mark, more of them, alternatives. */
  predicate ProducesContent(rest: Symbols, goal: Symbols) {
    var more := Sub(Repeat, Sub(String2, Sub(Content2, rest)));
    ProducesAtom(more, goal) || goal == Char('[', Sub(C, more))
  }

  /** Characters by code or by letter. */
  predicate ProducesCode(rest: Symbols, goal: Symbols) {
    || goal == Char('u', Sub(K, rest)) || goal == Char('x', Sub(L, rest))
    || goal == Char('a', Emit(PushCharacterAlarm, rest)) || goal == Char('e', Emit(PushCharacterEscape, rest))
    || goal == Char('f', Emit(PushCharacterFormfeed, rest)) || goal == Char('n', Emit(PushCharacterNewline, rest))
    || goal == Char('0', Emit(PushCharacterNull, rest)) || goal == Char('r', Emit(PushCharacterReturnCarriage, rest))
    || goal == Char('t', Emit(PushCharacterTab, rest))
  }

  /** Classes, numbered back references and properties. */
  predicate ProducesClass(rest: Symbols, goal: Symbols) {
    || goal == Char('d', Emit(ClassDigit, rest)) || goal == Char('D', Emit(ClassNondigit, rest))
    || goal == Char('s', Emit(ClassSpace, rest)) || goal == Char('S', Emit(ClassNonspace, rest))
    || goal == Char('w', Emit(ClassWord, rest)) || goal == Char('W', Emit(ClassNonword, rest))
    || goal == Char('N', Emit(ClassNonnewline, rest))
    || (Reads(goal, Emit(CreateNumber, Emit(MakeBackReference, rest))) && IsDigit(goal.top.c)
        && goal.top.c != '0' as int)
    || goal == Char('p', Char('{', Sub(PropertyName, Char('}', Emit(MakeProperty, rest)))))
    || goal == Char('P', Char('{', Sub(PropertyName, Char('}', Emit(MakePropertyNegative, rest)))))
  }

  /** An escape outside a set. */
  predicate ProducesBackslash(rest: Symbols, goal: Symbols) {
    || (Reads(goal, Emit(PushCharacter, rest)) && (IsSpecial(goal.top.c) || goal.top.c == '-' as int))
    || goal == Char('g', Char('{', Sub(M, rest))) || ProducesCode(rest, goal) || ProducesClass(rest, goal)
  }

  /** An escape in a set: one that stands for a single character by code may begin a range. */
  predicate ProducesSetEscape(dash: Nonterminal, rest: Symbols, goal: Symbols) {
    || goal == Char('-', Sub(dash, rest))
    || (Reads(goal, Emit(PushCharacter, rest)) && IsSpecial(goal.top.c))
    || ProducesCode(Sub(Range, rest), goal) || ProducesClass(rest, goal)
  }

  /** A set member, and a range that begins with it. */
  predicate ProducesMember(escape: Nonterminal, rest: Symbols, goal: Symbols) {
    || goal == Sub(ClassNamed, Sub(Range, rest))
    || goal == Char('\\', Sub(escape, rest))
    || (Reads(goal, Emit(PushCharacter, Sub(Range, rest))) && IsMember(goal.top.c))
  }

  function HexDigitPushed(rest: Symbols): Symbols {
    On(AnyHexDigit, Emit(PushHexdec, rest))
  }

  /** A code in curly brackets, or of one digit and the given more. */
  predicate ProducesHex(more: Symbols, rest: Symbols, goal: Symbols) {
    || goal == Emit(CreateHexdec, Char('{', HexDigitPushed(Sub(HexdecRepeat, Char('}', Emit(FinishHexdec, rest))))))
    || (goal.On? && goal.top == Do(CreateHexdec)
        && Reads(goal.below, Emit(PushHexdec, more)) && IsHexDigit(goal.below.top.c))
  }

  /** The name of a class between the colons. */
  predicate ProducesName(rest: Symbols, goal: Symbols) {
    || goal == Char('x', Char('d', Char('i', Char('g', Char('i', Char('t', Emit(ClassNamedXdigit, rest)))))))
    || goal == Char('d', Char('i', Char('g', Char('i', Char('t', Emit(ClassNamedDigit, rest))))))
    || goal == Char('b', Char('l', Char('a', Char('n', Char('k', Emit(ClassNamedBlank, rest))))))
    || goal == Char('c', Char('n', Char('t', Char('r', Char('l', Emit(ClassNamedCntrl, rest))))))
    || goal == Char('w', Char('o', Char('r', Char('d', Emit(ClassNamedWord, rest)))))
    || goal == Char('l', Char('o', Char('w', Char('e', Char('r', Emit(ClassNamedLower, rest))))))
    || goal == Char('s', Char('p', Char('a', Char('c', Char('e', Emit(ClassNamedSpace, rest))))))
    || goal == Char('u', Char('p', Char('p', Char('e', Char('r', Emit(ClassNamedUpper, rest))))))
    || goal == Char('g', Char('r', Char('a', Char('p', Char('h', Emit(ClassNamedGraph, rest))))))
    || goal == Char('a', Sub(G, rest)) || goal == Char('p', Sub(H, rest))
  }

  /** The productions for groups and alternatives. */
  predicate ProducesGroup(n: Nonterminal, rest: Symbols, goal: Symbols) {
    match n
    case Start => goal == Emit(PushEmpty, rest) || ProducesContent(rest, goal)
    case Content => ProducesContent(rest, goal)
    case ContentInCapture => goal == Emit(PushEmpty, rest) || ProducesContent(rest, goal)
    case Content2 => goal == rest || goal == Char('|', Sub(A, rest))
    case A => goal == Emit(PushEmpty, Emit(MakeAlternate, rest)) || goal == Sub(Content, Emit(MakeAlternate, rest))
    case String2 => goal == rest || goal == Sub(AtomRepeat, Sub(String2, Emit(MakeSequence, rest)))
    case AtomRepeat => ProducesAtom(Sub(Repeat, rest), goal) || goal == Sub(CharacterClass, Sub(Repeat, rest))
    case Block => goal == Char('?', Sub(D, rest)) || goal == Sub(ContentInCapture, Emit(MakeCapture, Char(')', rest)))
    case D =>
      || goal == Char('<', Sub(BlockName, Char('>',
                   Sub(ContentInCapture, Emit(MakeCaptureWithName, Char(')', rest))))))
      || goal == Emit(ResetCapture, Char(':', Sub(ContentInCapture, Char(')', rest))))
      || goal == Emit(ResetCapture, Char('!', Emit(StartLookaheadNegative,
                   Sub(ContentInCapture, Emit(LookFinish, Char(')', rest))))))
      || goal == Emit(ResetCapture, Char('=', Emit(StartLookaheadPositive,
                   Sub(ContentInCapture, Emit(LookFinish, Char(')', rest))))))
    case _ => false
  }

  /** The productions for repetition marks and numbers. */
  predicate ProducesRepeat(n: Nonterminal, rest: Symbols, goal: Symbols) {
    match n
    case Repeat =>
      || goal == rest || goal == Char('?', Emit(MakeOptional, Sub(ModOpt, rest)))
      || goal == Char('*', Emit(RepeatStar, Sub(Mod, rest))) || goal == Char('+', Emit(RepeatPlus, Sub(Mod, rest)))
      || goal == Char('{', Sub(Number, Sub(B, rest)))
    case Mod => goal == rest || goal == Char('?', Emit(MakeLazy, rest)) || goal == Char('+', Emit(MakePossessive, rest))
    case ModOpt => goal == rest || goal == Char('?', Emit(MakeLazy, rest))
    case B => goal == Emit(RepeatExactly, Char('}', rest)) || goal == Char(',', Sub(N, rest))
    case N =>
      || goal == Emit(RepeatAtLeast, Char('}', Sub(Mod, rest)))
      || goal == Sub(Number, Emit(RepeatAb, Char('}', Sub(Mod, rest))))
    case Number => Reads(goal, Emit(CreateNumber, Sub(Number2, rest))) && IsDigit(goal.top.c)
    case Number2 => goal == rest || (Reads(goal, Emit(PushNumber, Sub(Number2, rest))) && IsDigit(goal.top.c))
    case _ => false
  }

  /** The productions for sets. */
  predicate ProducesSet(n: Nonterminal, rest: Symbols, goal: Symbols) {
    match n
    case CharacterClass => goal == Char('[', Sub(C, rest))
    case C =>
      || goal == Sub(Set, Emit(SetMake, Char(']', rest)))
      || goal == Char('^', Sub(Set2a, Emit(SetMakeNegative, Char(']', rest))))
    case Set => goal == Sub(Setitem, Emit(SetStart, Sub(Set2b, rest)))
    case Set2a => goal == rest || goal == Sub(Setitem2, Emit(SetStart, Sub(Set2b, rest)))
    case Set2b => goal == rest || goal == Sub(Setitem2, Emit(SetCombine, Sub(Set2b, rest)))
    case Setitem => ProducesMember(E, rest, goal) && goal.top != Terminal('^' as int)
    case Setitem2 => ProducesMember(F, rest, goal)
    case E => ProducesSetEscape(Q, rest, goal)
    case F => ProducesSetEscape(R, rest, goal)
    case Q => goal == Emit(PushCharacter, rest) || goal == Emit(PushCharacter, Char('-', Sub(J, rest)))
    case R => goal == Emit(PushCharacter, rest) || goal == Emit(PushCharacter, Char('-', Sub(J, rest)))
    case Range => goal == rest || goal == Char('-', Sub(J, rest))
    case J =>
      || goal == Char('\\', Sub(BackslashRange, Emit(MakeRange, rest)))
      || (Reads(goal, Emit(PushCharacter, Emit(MakeRange, rest))) && IsFirstMember(goal.top.c))
    case BackslashRange => goal == Char('-', Emit(PushCharacter, rest)) || ProducesCode(rest, goal)
    case ClassNamed => goal == Char('[', Sub(I, rest))
    case I =>
      || goal == Char(':', Sub(P, rest))
      || goal == Char('=', Sub(CollateChar, Emit(EquivalentCharacter, Char('=', Char(']', rest)))))
    case CollateChar => Reads(goal, Emit(PushCharacter, rest))
    case P =>
      || goal == Sub(ClassNamedName, Char(':', Char(']', rest)))
      || goal == Char('^', Sub(ClassNamedName, Emit(NegateClassNamed, Char(':', Char(']', rest)))))
    case _ => false
  }

  /** The productions for escapes and names. */
  predicate ProducesEscape(n: Nonterminal, rest: Symbols, goal: Symbols) {
    match n
    case Backslash => ProducesBackslash(rest, goal)
    case K =>
      ProducesHex(HexDigitPushed(HexDigitPushed(HexDigitPushed(Emit(FinishHexdec, rest)))), rest, goal)
    case L => ProducesHex(HexDigitPushed(Emit(FinishHexdec, rest)), rest, goal)
    case HexdecRepeat =>
      goal == rest || (Reads(goal, Emit(PushHexdec, Sub(HexdecRepeat, rest))) && IsHexDigit(goal.top.c))
    case M =>
      || goal == Sub(BlockName, Char('}', Emit(MakeBackReference, rest)))
      || goal == Sub(Number, Char('}', Emit(MakeBackReference, rest)))
      || goal == Char('-', Sub(Number, Char('}', Emit(MakeRelativeBackReference, rest))))
    case BlockName => Reads(goal, Emit(PushName, Sub(BlockName2, rest))) && IsNameStart(goal.top.c)
    case BlockName2 => goal == rest || (Reads(goal, Emit(PushName, Sub(BlockName2, rest))) && IsNamePart(goal.top.c))
    case PropertyName => Reads(goal, Emit(PushPropertyName, Sub(PropertyName2, rest))) && IsPropertyPart(goal.top.c)
    case PropertyName2 =>
      || goal == rest || goal == Char('=', Sub(PropertyValue, rest))
      || (Reads(goal, Emit(PushPropertyName, Sub(PropertyName2, rest))) && IsPropertyPart(goal.top.c))
    case PropertyValue => Reads(goal, Emit(PushPropertyValue, Sub(PropertyValue2, rest))) && IsPropertyPart(goal.top.c)
    case PropertyValue2 =>
      goal == rest || (Reads(goal, Emit(PushPropertyValue, Sub(PropertyValue2, rest))) && IsPropertyPart(goal.top.c))
    case ClassNamedName => ProducesName(rest, goal)
    case G =>
      || goal == Char('l', Sub(O, rest))
      || goal == Char('s', Char('c', Char('i', Char('i', Emit(ClassNamedAscii, rest)))))
    case H =>
      || goal == Char('r', Char('i', Char('n', Char('t', Emit(ClassNamedPrint, rest)))))
      || goal == Char('u', Char('n', Char('c', Char('t', Emit(ClassNamedPunct, rest)))))
    case O =>
      || goal == Char('p', Char('h', Char('a', Emit(ClassNamedAlpha, rest))))
      || goal == Char('n', Char('u', Char('m', Emit(ClassNamedAlnum, rest))))
    case _ => false
  }

  /** The nonterminals with productions of each kind; the others are those for escapes and names. */
  predicate IsGroup(n: Nonterminal) {
    n in {A, AtomRepeat, Block, Content, Content2, ContentInCapture, D, Start, String2}
  }

  predicate IsRepeat(n: Nonterminal) {
    n in {B, Mod, ModOpt, N, Number, Number2, Repeat}
  }

  predicate IsSet(n: Nonterminal) {
    n in {BackslashRange, C, CharacterClass, ClassNamed, CollateChar, E, F, I, J, P, Q, R, Range,
          Set, Set2a, Set2b, Setitem, Setitem2}
  }

  /** Nonterminal n, followed by rest, becomes goal. */
  predicate Produces(n: Nonterminal, rest: Symbols, goal: Symbols) {
    if IsGroup(n) then ProducesGroup(n, rest, goal)
    else if IsRepeat(n) then ProducesRepeat(n, rest, goal)
    else if IsSet(n) then ProducesSet(n, rest, goal)
    else ProducesEscape(n, rest, goal)
  }

  // ----- derivations -----

  /** An action and the character read before it. */
  datatype Event = Event(action: Action, previous: Option<Code>)

  /** The form derives the text in the given number of steps, and its actions are the given events. */
  ghost predicate Derives(form: Symbols, previous: Option<Code>, text: Text, events: seq<Event>, steps: nat)
    decreases steps
  {
    steps > 0 &&
    match form
    case Bottom => text.End? && events == []
    case On(Do(action), rest) =>
      && |events| > 0 && events[0] == Event(action, previous)
      && Derives(rest, previous, text, events[1..], steps - 1)
    case On(NT(n), rest) => exists goal :: Produces(n, rest, goal) && Derives(goal, previous, text, events, steps - 1)
    case On(Terminal(c), rest) =>
      text.Next? && text.first == c && Derives(rest, Some(c), text.rest, events, steps - 1)
    case On(AnyHexDigit, rest) =>
      text.Next? && IsHexDigit(text.first) && Derives(rest, Some(text.first), text.rest, events, steps - 1)
    case On(Anything, _) => false
  }

  ghost predicate DerivesSome(form: Symbols, previous: Option<Code>, text: Text, events: seq<Event>) {
    exists steps: nat :: Derives(form, previous, text, events, steps)
  }

  /** The text is a pattern, and its derivation runs these actions. */
  ghost predicate InLanguage(text: Text, events: seq<Event>) {
    DerivesSome(On(NT(Start), Bottom), None, text, events)
  }

  // ----- building a derivation from its end -----

  lemma ByProduction(n: Nonterminal, rest: Symbols, goal: Symbols, previous: Option<Code>, text: Text,
                     events: seq<Event>)
    requires Produces(n, rest, goal) && DerivesSome(goal, previous, text, events)
    ensures DerivesSome(On(NT(n), rest), previous, text, events)
  {
    hide Produces;
    var steps: nat :| Derives(goal, previous, text, events, steps);
    assert Derives(On(NT(n), rest), previous, text, events, steps + 1);
  }

  lemma ByAction(action: Action, rest: Symbols, previous: Option<Code>, text: Text, events: seq<Event>)
    requires DerivesSome(rest, previous, text, events)
    ensures DerivesSome(On(Do(action), rest), previous, text, [Event(action, previous)] + events)
  {
    var steps: nat :| Derives(rest, previous, text, events, steps);
    assert ([Event(action, previous)] + events)[1..] == events;
    assert Derives(On(Do(action), rest), previous, text, [Event(action, previous)] + events, steps + 1);
  }

  lemma ByCharacter(c: Code, rest: Symbols, previous: Option<Code>, text: Text, events: seq<Event>)
    requires DerivesSome(rest, Some(c), text, events)
    ensures DerivesSome(On(Terminal(c), rest), previous, Next(c, text), events)
  {
    var steps: nat :| Derives(rest, Some(c), text, events, steps);
    assert Derives(On(Terminal(c), rest), previous, Next(c, text), events, steps + 1);
  }

  lemma ByEnd(previous: Option<Code>)
    ensures DerivesSome(Bottom, previous, End, [])
  {
    assert Derives(Bottom, previous, End, [], 1);
  }

  /** What may come after an atom that stands alone. */
  function Alone(): Symbols {
    Sub(Repeat, Sub(String2, Sub(Content2, Bottom)))
  }

  lemma AloneEnds(previous: Option<Code>)
    ensures DerivesSome(Alone(), previous, End, [])
  {
    hide DerivesSome;
    var content2 := Sub(Content2, Bottom);
    ByEnd(previous);
    ByProduction(Content2, Bottom, Bottom, previous, End, []);
    ByProduction(String2, content2, content2, previous, End, []);
    ByProduction(Repeat, Sub(String2, content2), Sub(String2, content2), previous, End, []);
  }

  /** The end of a set, after its only member. */
  lemma SetEnds(y: Code)
    ensures DerivesSome(Emit(SetStart, Sub(Set2b, Emit(SetMake, Char(']', Alone())))), Some(y), Next(']' as int, End),
                        [Event(SetStart, Some(y)), Event(SetMake, Some(y))])
  {
    hide DerivesSome, Alone;
    var made := Emit(SetMake, Char(']', Alone()));
    var text := Next(']' as int, End);
    AloneEnds(Some(']' as int));
    ByCharacter(']' as int, Alone(), Some(y), End, []);
    ByAction(SetMake, Char(']', Alone()), Some(y), text, []);
    assert [Event(SetMake, Some(y))] + [] == [Event(SetMake, Some(y))];
    ByProduction(Set2b, made, made, Some(y), text, [Event(SetMake, Some(y))]);
    ByAction(SetStart, Sub(Set2b, made), Some(y), text, [Event(SetMake, Some(y))]);
    assert [Event(SetStart, Some(y))] + [Event(SetMake, Some(y))]
        == [Event(SetStart, Some(y)), Event(SetMake, Some(y))];
  }

  /** The second half of a range. */
  lemma RangeEnds(x: Code, y: Code, rest: Symbols, text: Text, events: seq<Event>)
    requires IsFirstMember(y) && DerivesSome(rest, Some(y), text, events)
    ensures DerivesSome(Sub(Range, rest), Some(x), Next('-' as int, Next(y, text)),
                        [Event(PushCharacter, Some(y)), Event(MakeRange, Some(y))] + events)
  {
    hide DerivesSome;
    var e1 := [Event(MakeRange, Some(y))] + events;
    var e2 := [Event(PushCharacter, Some(y))] + e1;
    var end := Emit(PushCharacter, Emit(MakeRange, rest));
    ByAction(MakeRange, rest, Some(y), text, events);
    ByAction(PushCharacter, Emit(MakeRange, rest), Some(y), text, e1);
    ByCharacter(y, end, Some('-' as int), text, e2);
    ByProduction(J, rest, On(Terminal(y), end), Some('-' as int), Next(y, text), e2);
    ByCharacter('-' as int, Sub(J, rest), Some(x), Next(y, text), e2);
    ByProduction(Range, rest, Char('-', Sub(J, rest)), Some(x), Next('-' as int, Next(y, text)), e2);
    assert e2 == [Event(PushCharacter, Some(y)), Event(MakeRange, Some(y))] + events;
  }

  /** A set of one range is a pattern, as `[a-z]` is, and this is what it runs. */
  lemma RangeIsPattern(x: Code, y: Code)
    requires IsFirstMember(x) && IsFirstMember(y)
    ensures InLanguage(Next('[' as int, Next(x, Next('-' as int, Next(y, Next(']' as int, End))))),
                       [Event(PushCharacter, Some(x)), Event(PushCharacter, Some(y)), Event(MakeRange, Some(y)),
                        Event(SetStart, Some(y)), Event(SetMake, Some(y))])
  {
    var more := Alone();
    var start := Emit(SetStart, Sub(Set2b, Emit(SetMake, Char(']', more))));
    SetEnds(y);
    RangeEnds(x, y, start, Next(']' as int, End), [Event(SetStart, Some(y)), Event(SetMake, Some(y))]);
    hide DerivesSome, Produces;
    var events := [Event(PushCharacter, Some(y)), Event(MakeRange, Some(y))]
                  + [Event(SetStart, Some(y)), Event(SetMake, Some(y))];
    FirstMember(x, start, more, Next('-' as int, Next(y, Next(']' as int, End))), events);
    assert [Event(PushCharacter, Some(x))] + events
        == [Event(PushCharacter, Some(x)), Event(PushCharacter, Some(y)), Event(MakeRange, Some(y)),
            Event(SetStart, Some(y)), Event(SetMake, Some(y))];
  }

  /** The head of a set that stands alone. */
  lemma FirstMember(x: Code, start: Symbols, more: Symbols, text: Text, events: seq<Event>)
    requires IsFirstMember(x) && more == Alone() && start == Emit(SetStart, Sub(Set2b, Emit(SetMake, Char(']', more))))
    requires DerivesSome(Sub(Range, start), Some(x), text, events)
    ensures InLanguage(Next('[' as int, Next(x, text)), [Event(PushCharacter, Some(x))] + events)
  {
    hide DerivesSome;
    var all := [Event(PushCharacter, Some(x))] + events;
    var first := On(Terminal(x), Emit(PushCharacter, Sub(Range, start)));
    var made := Emit(SetMake, Char(']', more));
    var open: Option<Code> := Some('[' as int);
    ByAction(PushCharacter, Sub(Range, start), Some(x), text, events);
    ByCharacter(x, first.below, open, text, all);
    ByProduction(Setitem, start, first, open, Next(x, text), all);
    ByProduction(Set, made, Sub(Setitem, start), open, Next(x, text), all);
    ByProduction(C, more, Sub(Set, made), open, Next(x, text), all);
    ByCharacter('[' as int, Sub(C, more), None, Next(x, text), all);
    ByProduction(Start, Bottom, Char('[', Sub(C, more)), None, Next('[' as int, Next(x, text)), all);
  }
}
