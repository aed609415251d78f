/** The rule table against the grammar of patterns: what the table does is always a production, and of the productions
    of a nonterminal it takes the one that can go on with the next character. */
module PatternTable {
  import opened Options
  import opened PatternGrammar
  import opened PatternParser
  import opened PatternLanguage

  // ----- what a form can begin with, and what can follow a nonterminal -----

  /** What an atom can begin with. */
  predicate IsAtomStart(c: Code) {
    !IsRepetition(c) && c != ')' as int && c != '|' as int
  }

  /** A bound on the characters n can begin with, exact where the machine has to choose. */
  predicate First(n: Nonterminal, c: Code) {
    match n
    case Start => IsAtomStart(c)
    case Content => IsAtomStart(c)
    case ContentInCapture => IsAtomStart(c)
    case A => IsAtomStart(c)
    case AtomRepeat => IsAtomStart(c)
    case String2 => IsAtomStart(c)
    case Content2 => c == '|' as int
    case Repeat => IsRepetition(c) && c != '}' as int
    case B => c == ',' as int || c == '}' as int
    case Number => IsDigit(c)
    case CharacterClass => c == '[' as int
    case ClassNamed => c == '[' as int
    case Set => IsFirstMember(c) || c == '[' as int || c == '\\' as int
    case Setitem => IsFirstMember(c) || c == '[' as int || c == '\\' as int
    case Setitem2 => IsMember(c) || c == '[' as int || c == '\\' as int
    case Set2a => IsMember(c) || c == '[' as int || c == '\\' as int
    case Set2b => IsMember(c) || c == '[' as int || c == '\\' as int
    case Range => c == '-' as int
    case BlockName => IsNameStart(c)
    case ClassNamedName =>
      || c == 'x' as int || c == 'd' as int || c == 'b' as int || c == 'c' as int || c == 'w' as int || c == 'l' as int
      || c == 's' as int || c == 'u' as int || c == 'g' as int || c == 'a' as int || c == 'p' as int
    case _ => true
  }

  /** The form can derive a text that begins with c. */
  predicate CanStart(form: Symbols, c: Code) {
    match form
    case Bottom => false
    case On(Do(_), rest) => CanStart(rest, c)
    case On(NT(n), rest) => First(n, c) || (Nullable(n) && CanStart(rest, c))
    case On(Terminal(v), _) => c == v
    case On(AnyHexDigit, _) => IsHexDigit(c)
    case On(Anything, _) => false
  }

  /** The form can derive the empty text. */
  predicate CanEnd(form: Symbols) {
    match form
    case Bottom => true
    case On(Do(_), rest) => CanEnd(rest)
    case On(NT(n), rest) => Nullable(n) && CanEnd(rest)
    case On(_, _) => false
  }

  /** A bound on the characters that can come after n, where the machine has to know. */
  predicate Follow(n: Nonterminal, c: Code) {
    match n
    case Start => false
    case Content => c == ')' as int
    case Content2 => c == ')' as int
    case ContentInCapture => c == ')' as int
    case A => c == ')' as int
    case String2 => c == ')' as int || c == '|' as int
    case Repeat => !IsRepetition(c)
    case AtomRepeat => !IsRepetition(c)
    case Mod => !IsRepetition(c)
    case ModOpt => !IsRepetition(c)
    case B => !IsRepetition(c)
    case N => !IsRepetition(c)
    case Number => c == ',' as int || c == '}' as int
    case Number2 => c == ',' as int || c == '}' as int
    case BlockName => c == '>' as int || c == '}' as int
    case BlockName2 => c == '>' as int || c == '}' as int
    case HexdecRepeat => c == '}' as int
    case PropertyName => c == '}' as int
    case PropertyName2 => c == '}' as int
    case PropertyValue => c == '}' as int
    case PropertyValue2 => c == '}' as int
    case Set => c == ']' as int
    case Set2a => c == ']' as int
    case Set2b => c == ']' as int
    case Setitem => InSet(c)
    case Setitem2 => InSet(c)
    case Range => InSet(c)
    case E => InSet(c)
    case F => InSet(c)
    case Q => InSet(c)
    case R => InSet(c)
    case _ => true
  }

  /** What can stand after a set member. */
  predicate InSet(c: Code) {
    c != '-' as int && c != '|' as int
  }

  /** The text can end after n. */
  predicate FollowEnd(n: Nonterminal) {
    match n
    case ContentInCapture => false
    case Number => false
    case Number2 => false
    case BlockName => false
    case BlockName2 => false
    case HexdecRepeat => false
    case PropertyName => false
    case PropertyName2 => false
    case PropertyValue => false
    case PropertyValue2 => false
    case Set => false
    case Set2a => false
    case Set2b => false
    case Setitem => false
    case Setitem2 => false
    case Range => false
    case E => false
    case F => false
    case Q => false
    case R => false
    case _ => true
  }

  ghost predicate FollowedBy(n: Nonterminal, rest: Symbols) {
    && (forall c | CanStart(rest, c) :: Follow(n, c))
    && (CanEnd(rest) ==> FollowEnd(n))
  }

  /** Every nonterminal of the form is followed by what may follow it. */
  ghost predicate Followed(form: Symbols) {
    match form
    case Bottom => true
    case On(NT(n), rest) => FollowedBy(n, rest) && Followed(rest)
    case On(_, rest) => Followed(rest)
  }

  /** A form of the grammar; the machine has `Anything` in place of the character that it has looked at. */
  predicate Closed(form: Symbols) {
    match form
    case Bottom => true
    case On(sym, rest) => !sym.Anything? && Closed(rest)
  }

  /** The form that a stack stands for when c is next. */
  function Fixed(st: Symbols, c: Code): Symbols {
    match st
    case On(Anything, rest) => On(Terminal(c), rest)
    case On(Do(action), rest) => On(Do(action), Fixed(rest, c))
    case _ => st
  }

  lemma {:induction false} FixedSame(st: Symbols, c: Code)
    requires Closed(st)
    ensures Fixed(st, c) == st
  {
    if st.On? && st.top.Do? {
      FixedSame(st.below, c);
    }
  }

  /** The step of the machine, c being next, replaces n by goal. */
  predicate Takes(step: Step, rest: Symbols, c: Code, goal: Symbols) {
    (step.Keep? && goal == rest) || (step.Swap? && goal == Fixed(step.stack, c))
  }

  predicate TakesEnd(step: Step, rest: Symbols, goal: Symbols) {
    (step.Keep? && goal == rest) || (step.Swap? && goal == step.stack)
  }

  // ----- the table against the grammar -----

  /** What the table does is a production. */
  predicate Sound(n: Nonterminal, c: Code, rest: Symbols) {
    match Rule(n, c, rest)
    case Reject => true
    case Keep => Produces(n, rest, rest)
    case Swap(st) => Produces(n, rest, Fixed(st, c))
  }

  /** A production that can begin with c: n can, or n can be empty and the rest can; and when what may follow n does,
      the machine takes it. */
  predicate Selected(n: Nonterminal, c: Code, rest: Symbols, goal: Symbols) {
    && (First(n, c) || (Nullable(n) && CanStart(rest, c)))
    && ((CanStart(rest, c) ==> Follow(n, c)) ==> Takes(Rule(n, c, rest), rest, c, goal))
  }

  /** A production keeps forms closed, and one that can be empty is what the machine takes at the end. */
  predicate Kept(n: Nonterminal, rest: Symbols, goal: Symbols) {
    && Closed(goal) && (CanEnd(goal) ==> Nullable(n) && CanEnd(rest))
    && (CanEnd(goal) && FollowEnd(n) ==> TakesEnd(RuleAtEnd(n, rest), rest, goal))
  }

  // ----- the facts about forms, one symbol at a time -----

  lemma StartFacts()
    ensures forall a, st, c :: CanStart(On(Do(a), st), c) == CanStart(st, c)
    ensures forall n, st, c :: CanStart(On(NT(n), st), c) == (First(n, c) || (Nullable(n) && CanStart(st, c)))
    ensures forall v, st, c :: CanStart(On(Terminal(v), st), c) == (c == v)
    ensures forall st, c :: CanStart(On(AnyHexDigit, st), c) == IsHexDigit(c)
  {
  }

  lemma EndFacts()
    ensures forall a, st :: CanEnd(On(Do(a), st)) == CanEnd(st)
    ensures forall n, st :: CanEnd(On(NT(n), st)) == (Nullable(n) && CanEnd(st))
    ensures forall v, st :: !CanEnd(On(Terminal(v), st))
    ensures forall st :: !CanEnd(On(AnyHexDigit, st))
  {
  }

  lemma ClosedFacts()
    ensures forall a, st :: Closed(On(Do(a), st)) == Closed(st)
    ensures forall n, st :: Closed(On(NT(n), st)) == Closed(st)
    ensures forall v, st :: Closed(On(Terminal(v), st)) == Closed(st)
    ensures forall st :: Closed(On(AnyHexDigit, st)) == Closed(st)
  {
  }

  lemma FollowedFacts()
    ensures forall a, st :: Followed(On(Do(a), st)) == Followed(st)
    ensures forall n, st :: Followed(On(NT(n), st)) == (FollowedBy(n, st) && Followed(st))
    ensures forall v, st :: Followed(On(Terminal(v), st)) == Followed(st)
    ensures forall st :: Followed(On(AnyHexDigit, st)) == Followed(st)
  {
  }

  lemma FixedFacts()
    ensures forall a, st, c :: Fixed(On(Do(a), st), c) == On(Do(a), Fixed(st, c))
    ensures forall st, c :: Fixed(On(Anything, st), c) == On(Terminal(c), st)
    ensures forall n, st, c :: Fixed(On(NT(n), st), c) == On(NT(n), st)
    ensures forall v, st, c :: Fixed(On(Terminal(v), st), c) == On(Terminal(v), st)
  {
  }

  /** A form that begins with a character, which the given step takes, and keeps what holds of the rest. */
  ghost predicate Headed(step: Step, rest: Symbols, goal: Symbols) {
    && goal.On? && goal.top.Terminal? && goal == On(Terminal(goal.top.c), goal.below)
    && step == Swap(On(Anything, goal.below))
    && (Closed(rest) ==> Closed(goal)) && (Followed(rest) ==> Followed(goal))
  }

  // the productions that several nonterminals share

  lemma CodeHeaded(rest: Symbols, goal: Symbols)
    requires ProducesCode(rest, goal)
    ensures Headed(CodeEscape(goal.top.c, rest), rest, goal)
    ensures !IsSpecial(goal.top.c) && goal.top.c != '-' as int && goal.top.c != 'g' as int
  {
    ClosedFacts();
    StartFacts();
    EndFacts();
    FollowedFacts();
    hide Closed, Followed, CanStart, CanEnd;
  }

  lemma CodeSound(c: Code, rest: Symbols)
    ensures var step := CodeEscape(c, rest);
            step.Reject? || (step.Swap? && step.stack.On? && step.stack == On(Anything, step.stack.below)
                             && ProducesCode(rest, On(Terminal(c), step.stack.below)))
  {
  }

  lemma ClassHeaded(rest: Symbols, goal: Symbols)
    requires ProducesClass(rest, goal)
    ensures Headed(ClassEscape(goal.top.c, rest), rest, goal)
    ensures !IsSpecial(goal.top.c) && goal.top.c != '-' as int && goal.top.c != 'g' as int
    ensures forall st :: CodeEscape(goal.top.c, st).Reject?
  {
    ClosedFacts();
    StartFacts();
    EndFacts();
    FollowedFacts();
    hide Closed, Followed, CanStart, CanEnd;
  }

  lemma ClassSound(c: Code, rest: Symbols)
    ensures var step := ClassEscape(c, rest);
            step.Reject? || (step.Swap? && step.stack.On? && step.stack == On(Anything, step.stack.below)
                             && ProducesClass(rest, On(Terminal(c), step.stack.below)))
  {
  }

  lemma NameHeaded(rest: Symbols, goal: Symbols)
    requires ProducesName(rest, goal)
    ensures Headed(NameRule(goal.top.c, rest), rest, goal) && First(ClassNamedName, goal.top.c)
  {
    ClosedFacts();
    StartFacts();
    EndFacts();
    FollowedFacts();
    hide Closed, Followed, CanStart, CanEnd;
  }

  lemma NameSound(c: Code, rest: Symbols)
    ensures var step := NameRule(c, rest);
            step.Reject? || (step.Swap? && step.stack.On? && step.stack == On(Anything, step.stack.below)
                             && ProducesName(rest, On(Terminal(c), step.stack.below)))
  {
  }

  lemma AtomHeaded(rest: Symbols, goal: Symbols)
    requires ProducesAtom(rest, goal)
    ensures Headed(AtomRule(goal.top.c, rest), rest, goal) && IsAtomStart(goal.top.c) && goal.top.c != '[' as int
  {
    ClosedFacts();
    FollowedFacts();
    hide Closed, Followed, CanStart, CanEnd;
  }

  lemma AtomSound(c: Code, rest: Symbols)
    ensures var step := AtomRule(c, rest);
            step.Reject? || (step.Swap? && step.stack.On? && step.stack == On(Anything, step.stack.below)
                             && var goal := On(Terminal(c), step.stack.below);
                                ProducesAtom(rest, goal) || goal == Char('[', Sub(C, rest)))
  {
  }

  lemma HexSound(c: Code, others: Symbols, rest: Symbols)
    ensures var step := HexRule(c, others, rest);
            step.Reject? || (step.Swap? && ProducesHex(others, rest, Fixed(step.stack, c)))
  {
    FixedFacts();
  }

  /** The character tests of the table are those of the grammar. */
  lemma CharFacts(c: Code)
    ensures Metacharacter(c) == IsSpecial(c) && Quantifier(c) == IsRepetition(c)
    ensures Digit(c) == IsDigit(c) && HexDigit(c) == IsHexDigit(c)
    ensures LetterOrUnderscore(c) == IsNameStart(c) && Word(c) == IsNamePart(c)
  {
  }

  /** What comes after the first atom of a pattern. */
  lemma ContentTail(n: Nonterminal, rest: Symbols)
    requires n in {Start, Content, ContentInCapture} && FollowedBy(n, rest) && Followed(rest)
    ensures var more := Sub(Repeat, Sub(String2, Sub(Content2, rest)));
            Followed(more) && Followed(Sub(C, more))
  {
    StartFacts();
    EndFacts();
    FollowedFacts();
    hide CanStart, CanEnd, Followed;
    assert FollowedBy(Content2, rest);
    assert FollowedBy(String2, Sub(Content2, rest));
    assert FollowedBy(Repeat, Sub(String2, Sub(Content2, rest)));
  }

  lemma AtomRepeatTail(rest: Symbols)
    requires FollowedBy(AtomRepeat, rest) && Followed(rest)
    ensures Followed(Sub(Repeat, rest))
  {
    FollowedFacts();
    hide CanStart, CanEnd, Followed;
  }

  /** After some nonterminals anything may come. */
  lemma FreeFacts()
    ensures forall st :: FollowedBy(M, st) && FollowedBy(J, st) && FollowedBy(BackslashRange, st)
    ensures forall st :: FollowedBy(K, st) && FollowedBy(L, st) && FollowedBy(CharacterClass, st)
  {
  }

  /** A range may come after a set member. */
  lemma RangeTail(n: Nonterminal, rest: Symbols)
    requires n in {E, F} && FollowedBy(n, rest) && Followed(rest)
    ensures Followed(Sub(Range, rest)) && Followed(Sub(Q, rest)) && Followed(Sub(R, rest))
  {
    FollowedFacts();
    hide CanStart, CanEnd, Followed;
  }

  /** Where the rows of the table stand. */
  lemma RowsFor(n: Nonterminal, c: Code, rest: Symbols)
    ensures IsSet(n) ==> Rule(n, c, rest) == SetRule(n, c, rest)
    ensures !IsGroup(n) && !IsRepeat(n) && !IsSet(n) && n != BlockName && n != BlockName2 ==>
              Rule(n, c, rest) == EscapeRule(n, c, rest)
  {
    hide EscapeRule, AtomRule, Quantifier, Digit, Word, LetterOrUnderscore, Inside;
  }

  /** The rows of the table for escapes. */
  lemma EscapeRows(c: Code, rest: Symbols)
    ensures Rule(Backslash, c, rest) == BackslashStep(c, rest)
    ensures Rule(E, c, rest) == SetEscapeStep(Q, c, rest) && Rule(F, c, rest) == SetEscapeStep(R, c, rest)
  {
    hide Metacharacter, CodeEscape, ClassEscape;
  }

  /** What the table does with an escape in a set. */
  function SetEscapeStep(dash: Nonterminal, c: Code, rest: Symbols): Step {
    if c == '-' as int then Swap(On(Anything, Sub(dash, rest)))
    else if Metacharacter(c) then Swap(On(Anything, Emit(PushCharacter, rest)))
    else if CodeEscape(c, rest).Swap? then CodeEscape(c, Sub(Range, rest))
    else ClassEscape(c, rest)
  }

  /** What the table does with an escape outside a set. */
  function BackslashStep(c: Code, rest: Symbols): Step {
    if c == 'g' as int then Swap(On(Anything, Char('{', Sub(M, rest))))
    else if Metacharacter(c) || c == '-' as int then Swap(On(Anything, Emit(PushCharacter, rest)))
    else if CodeEscape(c, rest).Swap? then CodeEscape(c, rest)
    else ClassEscape(c, rest)
  }

  lemma BackslashSound(c: Code, rest: Symbols)
    ensures var step := BackslashStep(c, rest);
            step.Reject? || (step.Swap? && ProducesBackslash(rest, Fixed(step.stack, c)))
  {
    CodeSound(c, rest);
    ClassSound(c, rest);
    CharFacts(c);
    FixedFacts();
    hide CodeEscape, ClassEscape, ProducesCode, ProducesClass, Metacharacter, IsSpecial, Fixed;
    var step := BackslashStep(c, rest);
    if c == 'g' as int {
      assert Fixed(step.stack, c) == Char('g', Char('{', Sub(M, rest)));
    } else if Metacharacter(c) || c == '-' as int {
      assert Fixed(step.stack, c) == On(Terminal(c), Emit(PushCharacter, rest));
    } else if step.Swap? {
      assert Fixed(step.stack, c) == On(Terminal(c), step.stack.below);
    }
  }

  lemma SetEscapeSound(dash: Nonterminal, c: Code, rest: Symbols)
    ensures var step := SetEscapeStep(dash, c, rest);
            step.Reject? || (step.Swap? && ProducesSetEscape(dash, rest, Fixed(step.stack, c)))
  {
    CodeSound(c, Sub(Range, rest));
    ClassSound(c, rest);
    CodesAlike(c, rest, Sub(Range, rest));
    CharFacts(c);
    FixedFacts();
    hide CodeEscape, ClassEscape, ProducesCode, ProducesClass, Metacharacter, IsSpecial, Fixed;
    var step := SetEscapeStep(dash, c, rest);
    if c == '-' as int {
      assert Fixed(step.stack, c) == Char('-', Sub(dash, rest));
    } else if Metacharacter(c) {
      assert Fixed(step.stack, c) == On(Terminal(c), Emit(PushCharacter, rest));
    } else if step.Swap? {
      assert Fixed(step.stack, c) == On(Terminal(c), step.stack.below);
    }
  }

  /** Which characters are codes does not depend on what follows. */
  lemma CodesAlike(c: Code, st: Symbols, st': Symbols)
    ensures CodeEscape(c, st).Swap? <==> CodeEscape(c, st').Swap?
  {
  }

  lemma SoundContents(n: Nonterminal, c: Code, rest: Symbols)
    requires n in {Start, Content, ContentInCapture} && Closed(rest)
    ensures Sound(n, c, rest)
  {
    FixedSame(rest, c);
    FixedFacts();
    var more := Sub(Repeat, Sub(String2, Sub(Content2, rest)));
    AtomSound(c, more);
    hide Closed, Fixed, AtomRule, ProducesAtom, SetRule, ProducesRepeat, ProducesSet, ProducesEscape;
  }

  lemma SelectsContents(n: Nonterminal, c: Code, rest: Symbols, goal: Symbols)
    requires n in {Start, Content, ContentInCapture} && ProducesGroup(n, rest, goal)
    requires Closed(rest) && CanStart(goal, c)
    ensures First(n, c) || (Nullable(n) && CanStart(rest, c))
    ensures (CanStart(rest, c) ==> Follow(n, c)) ==> Takes(Rule(n, c, rest), rest, c, goal)
  {
    FixedSame(rest, c);
    FixedFacts();
    StartFacts();
    var more := Sub(Repeat, Sub(String2, Sub(Content2, rest)));
    if ProducesAtom(more, goal) { AtomHeaded(more, goal); }
    hide CanStart, Closed, Followed, Fixed, AtomRule, ProducesAtom, SetRule;
  }

  lemma KeepsContents(n: Nonterminal, rest: Symbols, goal: Symbols)
    requires n in {Start, Content, ContentInCapture} && ProducesGroup(n, rest, goal) && Closed(rest)
    ensures Closed(goal) && (CanEnd(goal) ==> Nullable(n) && CanEnd(rest))
    ensures CanEnd(goal) && FollowEnd(n) ==> TakesEnd(RuleAtEnd(n, rest), rest, goal)
    ensures FollowedBy(n, rest) && Followed(rest) ==> Followed(goal)
  {
    ClosedFacts();
    EndFacts();
    FollowedFacts();
    var more := Sub(Repeat, Sub(String2, Sub(Content2, rest)));
    if ProducesAtom(more, goal) { AtomHeaded(more, goal); }
    if FollowedBy(n, rest) && Followed(rest) { ContentTail(n, rest); }
    hide FollowedBy, IsPlain, First;
    hide CanStart, CanEnd, Closed, Followed, AtomRule, ProducesAtom, SetRule;
  }

  lemma SoundAtomRepeats(n: Nonterminal, c: Code, rest: Symbols)
    requires n == AtomRepeat && Closed(rest)
    ensures Sound(n, c, rest)
  {
    FixedSame(rest, c);
    FixedFacts();
    AtomSound(c, Sub(Repeat, rest));
    hide Closed, Fixed, AtomRule, ProducesAtom, SetRule, ProducesRepeat, ProducesSet, ProducesEscape;
  }

  lemma SelectsAtomRepeats(n: Nonterminal, c: Code, rest: Symbols, goal: Symbols)
    requires n == AtomRepeat && ProducesGroup(n, rest, goal) && Closed(rest) && CanStart(goal, c)
    ensures First(n, c) || (Nullable(n) && CanStart(rest, c))
    ensures (CanStart(rest, c) ==> Follow(n, c)) ==> Takes(Rule(n, c, rest), rest, c, goal)
  {
    FixedSame(rest, c);
    FixedFacts();
    StartFacts();
    if ProducesAtom(Sub(Repeat, rest), goal) { AtomHeaded(Sub(Repeat, rest), goal); }
    hide CanStart, Closed, Followed, Fixed, AtomRule, ProducesAtom, SetRule;
  }

  lemma KeepsAtomRepeats(n: Nonterminal, rest: Symbols, goal: Symbols)
    requires n == AtomRepeat && ProducesGroup(n, rest, goal) && Closed(rest)
    ensures Closed(goal) && (CanEnd(goal) ==> Nullable(n) && CanEnd(rest))
    ensures CanEnd(goal) && FollowEnd(n) ==> TakesEnd(RuleAtEnd(n, rest), rest, goal)
    ensures FollowedBy(n, rest) && Followed(rest) ==> Followed(goal)
  {
    ClosedFacts();
    EndFacts();
    FollowedFacts();
    if ProducesAtom(Sub(Repeat, rest), goal) { AtomHeaded(Sub(Repeat, rest), goal); }
    if FollowedBy(n, rest) && Followed(rest) { AtomRepeatTail(rest); }
    FreeFacts();
    hide FollowedBy, IsPlain, First;
    hide CanStart, CanEnd, Closed, Followed, AtomRule, ProducesAtom, SetRule;
  }

  lemma SoundBranches(n: Nonterminal, c: Code, rest: Symbols)
    requires n in {Content2, A, String2, Block, D} && Closed(rest)
    ensures Sound(n, c, rest)
  {
    FixedSame(rest, c);
    FixedFacts();
    hide Closed, Fixed, AtomRule, ProducesAtom, SetRule, ProducesRepeat, ProducesSet, ProducesEscape;
  }

  lemma SelectsBranches(n: Nonterminal, c: Code, rest: Symbols, goal: Symbols)
    requires n in {Content2, A, String2, Block, D} && ProducesGroup(n, rest, goal) && Closed(rest) && CanStart(goal, c)
    ensures First(n, c) || (Nullable(n) && CanStart(rest, c))
    ensures (CanStart(rest, c) ==> Follow(n, c)) ==> Takes(Rule(n, c, rest), rest, c, goal)
  {
    FixedSame(rest, c);
    FixedFacts();
    StartFacts();
    hide CanStart, Closed, Followed, Fixed, AtomRule, ProducesAtom, SetRule;
  }

  lemma KeepsBranches(n: Nonterminal, rest: Symbols, goal: Symbols)
    requires n in {Content2, A, String2, Block, D} && ProducesGroup(n, rest, goal) && Closed(rest)
    ensures Closed(goal) && (CanEnd(goal) ==> Nullable(n) && CanEnd(rest))
    ensures CanEnd(goal) && FollowEnd(n) ==> TakesEnd(RuleAtEnd(n, rest), rest, goal)
    ensures FollowedBy(n, rest) && Followed(rest) ==> Followed(goal)
  {
    ClosedFacts();
    EndFacts();
    StartFacts();
    FollowedFacts();
    hide CanStart, CanEnd, Closed, Followed, AtomRule, ProducesAtom, SetRule;
  }

  lemma SoundRepeats(n: Nonterminal, c: Code, rest: Symbols)
    requires n in {Repeat, Mod, ModOpt} && Closed(rest)
    ensures Sound(n, c, rest)
  {
    FixedSame(rest, c);
    FixedFacts();
    hide Closed, Fixed, AtomRule, SetRule, ProducesGroup, ProducesSet, ProducesEscape;
  }

  lemma SelectsRepeats(n: Nonterminal, c: Code, rest: Symbols, goal: Symbols)
    requires n in {Repeat, Mod, ModOpt} && ProducesRepeat(n, rest, goal) && Closed(rest) && CanStart(goal, c)
    ensures First(n, c) || (Nullable(n) && CanStart(rest, c))
    ensures (CanStart(rest, c) ==> Follow(n, c)) ==> Takes(Rule(n, c, rest), rest, c, goal)
  {
    FixedSame(rest, c);
    FixedFacts();
    StartFacts();
    hide CanStart, Closed, Followed, Fixed, AtomRule, SetRule;
  }

  lemma KeepsRepeats(n: Nonterminal, rest: Symbols, goal: Symbols)
    requires n in {Repeat, Mod, ModOpt} && ProducesRepeat(n, rest, goal) && Closed(rest)
    ensures Closed(goal) && (CanEnd(goal) ==> Nullable(n) && CanEnd(rest))
    ensures CanEnd(goal) && FollowEnd(n) ==> TakesEnd(RuleAtEnd(n, rest), rest, goal)
    ensures FollowedBy(n, rest) && Followed(rest) ==> Followed(goal)
  {
    ClosedFacts();
    EndFacts();
    StartFacts();
    FollowedFacts();
    hide CanStart, CanEnd, Closed, Followed, AtomRule, SetRule;
  }

  lemma SoundCounts(n: Nonterminal, c: Code, rest: Symbols)
    requires n in {B, N, Number, Number2} && Closed(rest)
    ensures Sound(n, c, rest)
  {
    FixedSame(rest, c);
    FixedFacts();
    hide Closed, Fixed, AtomRule, SetRule, ProducesGroup, ProducesSet, ProducesEscape;
  }

  lemma SelectsCounts(n: Nonterminal, c: Code, rest: Symbols, goal: Symbols)
    requires n in {B, N, Number, Number2} && ProducesRepeat(n, rest, goal) && Closed(rest) && CanStart(goal, c)
    ensures First(n, c) || (Nullable(n) && CanStart(rest, c))
    ensures (CanStart(rest, c) ==> Follow(n, c)) ==> Takes(Rule(n, c, rest), rest, c, goal)
  {
    FixedSame(rest, c);
    FixedFacts();
    StartFacts();
    hide CanStart, Closed, Followed, Fixed, AtomRule, SetRule;
  }

  lemma KeepsCounts(n: Nonterminal, rest: Symbols, goal: Symbols)
    requires n in {B, N, Number, Number2} && ProducesRepeat(n, rest, goal) && Closed(rest)
    ensures Closed(goal) && (CanEnd(goal) ==> Nullable(n) && CanEnd(rest))
    ensures CanEnd(goal) && FollowEnd(n) ==> TakesEnd(RuleAtEnd(n, rest), rest, goal)
    ensures FollowedBy(n, rest) && Followed(rest) ==> Followed(goal)
  {
    ClosedFacts();
    EndFacts();
    StartFacts();
    FollowedFacts();
    hide CanStart, CanEnd, Closed, Followed, AtomRule, SetRule;
  }

  lemma SoundBrackets(n: Nonterminal, c: Code, rest: Symbols)
    requires n in {CharacterClass, C} && Closed(rest)
    ensures Sound(n, c, rest)
  {
    FixedSame(rest, c);
    FixedFacts();
    RowsFor(n, c, rest);
    hide Rule;
    hide Closed, Fixed, EscapeRule, AtomRule, ProducesGroup, ProducesRepeat, ProducesEscape;
  }

  lemma SelectsBrackets(n: Nonterminal, c: Code, rest: Symbols, goal: Symbols)
    requires n in {CharacterClass, C} && ProducesSet(n, rest, goal) && Closed(rest) && CanStart(goal, c)
    ensures First(n, c) || (Nullable(n) && CanStart(rest, c))
    ensures (CanStart(rest, c) ==> Follow(n, c)) ==> Takes(Rule(n, c, rest), rest, c, goal)
  {
    FixedSame(rest, c);
    FixedFacts();
    StartFacts();
    RowsFor(n, c, rest);
    hide Rule;
    hide CanStart, Closed, Followed, Fixed, EscapeRule, AtomRule;
  }

  lemma KeepsBrackets(n: Nonterminal, rest: Symbols, goal: Symbols)
    requires n in {CharacterClass, C} && ProducesSet(n, rest, goal) && Closed(rest)
    ensures Closed(goal) && (CanEnd(goal) ==> Nullable(n) && CanEnd(rest))
    ensures CanEnd(goal) && FollowEnd(n) ==> TakesEnd(RuleAtEnd(n, rest), rest, goal)
    ensures FollowedBy(n, rest) && Followed(rest) ==> Followed(goal)
  {
    ClosedFacts();
    EndFacts();
    StartFacts();
    FollowedFacts();
    hide CanStart, CanEnd, Closed, Followed, EscapeRule, AtomRule;
  }

  lemma SoundFirstItems(n: Nonterminal, c: Code, rest: Symbols)
    requires n == Set && Closed(rest)
    ensures Sound(n, c, rest)
  {
    FixedSame(rest, c);
    FixedFacts();
    RowsFor(n, c, rest);
    hide Rule;
    hide Closed, Fixed, EscapeRule, AtomRule, ProducesGroup, ProducesRepeat, ProducesEscape;
  }

  lemma SelectsFirstItems(n: Nonterminal, c: Code, rest: Symbols, goal: Symbols)
    requires n == Set && ProducesSet(n, rest, goal) && Closed(rest) && CanStart(goal, c)
    ensures First(n, c) || (Nullable(n) && CanStart(rest, c))
    ensures (CanStart(rest, c) ==> Follow(n, c)) ==> Takes(Rule(n, c, rest), rest, c, goal)
  {
    FixedSame(rest, c);
    FixedFacts();
    StartFacts();
    RowsFor(n, c, rest);
    hide Rule;
    hide CanStart, Closed, Followed, Fixed, EscapeRule, AtomRule;
  }

  lemma KeepsFirstItems(n: Nonterminal, rest: Symbols, goal: Symbols)
    requires n == Set && ProducesSet(n, rest, goal) && Closed(rest)
    ensures Closed(goal) && (CanEnd(goal) ==> Nullable(n) && CanEnd(rest))
    ensures CanEnd(goal) && FollowEnd(n) ==> TakesEnd(RuleAtEnd(n, rest), rest, goal)
    ensures FollowedBy(n, rest) && Followed(rest) ==> Followed(goal)
  {
    ClosedFacts();
    EndFacts();
    StartFacts();
    FollowedFacts();
    hide CanStart, CanEnd, Closed, Followed, EscapeRule, AtomRule;
  }

  lemma SoundNegatedItems(n: Nonterminal, c: Code, rest: Symbols)
    requires n == Set2a && Closed(rest)
    ensures Sound(n, c, rest)
  {
    FixedSame(rest, c);
    FixedFacts();
    RowsFor(n, c, rest);
    hide Rule;
    hide Closed, Fixed, EscapeRule, AtomRule, ProducesGroup, ProducesRepeat, ProducesEscape;
  }

  lemma SelectsNegatedItems(n: Nonterminal, c: Code, rest: Symbols, goal: Symbols)
    requires n == Set2a && ProducesSet(n, rest, goal) && Closed(rest) && CanStart(goal, c)
    ensures First(n, c) || (Nullable(n) && CanStart(rest, c))
    ensures (CanStart(rest, c) ==> Follow(n, c)) ==> Takes(Rule(n, c, rest), rest, c, goal)
  {
    FixedSame(rest, c);
    FixedFacts();
    StartFacts();
    RowsFor(n, c, rest);
    hide Rule;
    hide CanStart, Closed, Followed, Fixed, EscapeRule, AtomRule;
  }

  lemma KeepsNegatedItems(n: Nonterminal, rest: Symbols, goal: Symbols)
    requires n == Set2a && ProducesSet(n, rest, goal) && Closed(rest)
    ensures Closed(goal) && (CanEnd(goal) ==> Nullable(n) && CanEnd(rest))
    ensures CanEnd(goal) && FollowEnd(n) ==> TakesEnd(RuleAtEnd(n, rest), rest, goal)
    ensures FollowedBy(n, rest) && Followed(rest) ==> Followed(goal)
  {
    ClosedFacts();
    EndFacts();
    StartFacts();
    FollowedFacts();
    hide CanStart, CanEnd, Closed, Followed, EscapeRule, AtomRule;
  }

  lemma SoundNextItems(n: Nonterminal, c: Code, rest: Symbols)
    requires n == Set2b && Closed(rest)
    ensures Sound(n, c, rest)
  {
    FixedSame(rest, c);
    FixedFacts();
    RowsFor(n, c, rest);
    hide Rule;
    hide Closed, Fixed, EscapeRule, AtomRule, ProducesGroup, ProducesRepeat, ProducesEscape;
  }

  lemma SelectsNextItems(n: Nonterminal, c: Code, rest: Symbols, goal: Symbols)
    requires n == Set2b && ProducesSet(n, rest, goal) && Closed(rest) && CanStart(goal, c)
    ensures First(n, c) || (Nullable(n) && CanStart(rest, c))
    ensures (CanStart(rest, c) ==> Follow(n, c)) ==> Takes(Rule(n, c, rest), rest, c, goal)
  {
    FixedSame(rest, c);
    FixedFacts();
    StartFacts();
    RowsFor(n, c, rest);
    hide Rule;
    hide CanStart, Closed, Followed, Fixed, EscapeRule, AtomRule;
  }

  lemma KeepsNextItems(n: Nonterminal, rest: Symbols, goal: Symbols)
    requires n == Set2b && ProducesSet(n, rest, goal) && Closed(rest)
    ensures Closed(goal) && (CanEnd(goal) ==> Nullable(n) && CanEnd(rest))
    ensures CanEnd(goal) && FollowEnd(n) ==> TakesEnd(RuleAtEnd(n, rest), rest, goal)
    ensures FollowedBy(n, rest) && Followed(rest) ==> Followed(goal)
  {
    ClosedFacts();
    EndFacts();
    StartFacts();
    FollowedFacts();
    hide CanStart, CanEnd, Closed, Followed, EscapeRule, AtomRule;
  }

  lemma SoundMembers(n: Nonterminal, c: Code, rest: Symbols)
    requires n in {Setitem, Setitem2} && Closed(rest)
    ensures Sound(n, c, rest)
  {
    FixedSame(rest, c);
    FixedFacts();
    RowsFor(n, c, rest);
    hide Rule;
    hide Closed, Fixed, EscapeRule, AtomRule, ProducesGroup, ProducesRepeat, ProducesEscape;
  }

  lemma SelectsMembers(n: Nonterminal, c: Code, rest: Symbols, goal: Symbols)
    requires n in {Setitem, Setitem2} && ProducesSet(n, rest, goal) && Closed(rest) && CanStart(goal, c)
    ensures First(n, c) || (Nullable(n) && CanStart(rest, c))
    ensures (CanStart(rest, c) ==> Follow(n, c)) ==> Takes(Rule(n, c, rest), rest, c, goal)
  {
    FixedSame(rest, c);
    FixedFacts();
    StartFacts();
    RowsFor(n, c, rest);
    hide Rule;
    hide CanStart, Closed, Followed, Fixed, EscapeRule, AtomRule;
  }

  lemma KeepsMembers(n: Nonterminal, rest: Symbols, goal: Symbols)
    requires n in {Setitem, Setitem2} && ProducesSet(n, rest, goal) && Closed(rest)
    ensures Closed(goal) && (CanEnd(goal) ==> Nullable(n) && CanEnd(rest))
    ensures CanEnd(goal) && FollowEnd(n) ==> TakesEnd(RuleAtEnd(n, rest), rest, goal)
    ensures FollowedBy(n, rest) && Followed(rest) ==> Followed(goal)
  {
    ClosedFacts();
    EndFacts();
    StartFacts();
    FollowedFacts();
    hide CanStart, CanEnd, Closed, Followed, EscapeRule, AtomRule;
  }

  lemma SoundFirstEscapes(n: Nonterminal, c: Code, rest: Symbols)
    requires n == E && Closed(rest)
    ensures Sound(n, c, rest)
  {
    FixedSame(rest, c);
    FixedFacts();
    EscapeRows(c, rest);
    SetEscapeSound(Q, c, rest);
    hide Rule, SetEscapeStep, ProducesSetEscape;
    hide Closed, Fixed, CodeEscape, ClassEscape, ProducesCode, ProducesClass, AtomRule;
    hide ProducesGroup, ProducesRepeat, ProducesEscape;
  }

  lemma SelectsFirstEscapes(n: Nonterminal, c: Code, rest: Symbols, goal: Symbols)
    requires n == E && ProducesSet(n, rest, goal) && Closed(rest) && CanStart(goal, c)
    ensures First(n, c) || (Nullable(n) && CanStart(rest, c))
    ensures (CanStart(rest, c) ==> Follow(n, c)) ==> Takes(Rule(n, c, rest), rest, c, goal)
  {
    FixedSame(rest, c);
    FixedFacts();
    StartFacts();
    if ProducesCode(Sub(Range, rest), goal) { CodeHeaded(Sub(Range, rest), goal); }
    if ProducesClass(rest, goal) { ClassHeaded(rest, goal); }
    CodesAlike(c, rest, Sub(Range, rest));
    EscapeRows(c, rest);
    CharFacts(c);
    hide Metacharacter, IsSpecial, Rule;
    hide CanStart, Closed, Followed, Fixed, CodeEscape, ClassEscape, ProducesCode, ProducesClass, AtomRule;
  }

  lemma SetEscapeKept(dash: Nonterminal, rest: Symbols, goal: Symbols)
    requires ProducesSetEscape(dash, rest, goal) && Closed(rest)
    ensures Closed(goal) && !CanEnd(goal)
    ensures Followed(rest) && Followed(Sub(Range, rest)) && Followed(Sub(dash, rest)) ==> Followed(goal)
  {
    ClosedFacts();
    EndFacts();
    FollowedFacts();
    if ProducesCode(Sub(Range, rest), goal) {
      CodeHeaded(Sub(Range, rest), goal);
    } else if ProducesClass(rest, goal) {
      ClassHeaded(rest, goal);
    }
    hide CanEnd, Closed, Followed, FollowedBy, ProducesCode, ProducesClass, IsSpecial, CodeEscape, ClassEscape;
  }

  lemma KeepsFirstEscapes(n: Nonterminal, rest: Symbols, goal: Symbols)
    requires n == E && ProducesSet(n, rest, goal) && Closed(rest)
    ensures Closed(goal) && (CanEnd(goal) ==> Nullable(n) && CanEnd(rest))
    ensures CanEnd(goal) && FollowEnd(n) ==> TakesEnd(RuleAtEnd(n, rest), rest, goal)
    ensures FollowedBy(n, rest) && Followed(rest) ==> Followed(goal)
  {
    SetEscapeKept(Q, rest, goal);
    if FollowedBy(n, rest) && Followed(rest) { RangeTail(n, rest); }
    hide ProducesSetEscape, CanEnd, Closed, Followed, FollowedBy;
  }

  lemma SoundNextEscapes(n: Nonterminal, c: Code, rest: Symbols)
    requires n == F && Closed(rest)
    ensures Sound(n, c, rest)
  {
    FixedSame(rest, c);
    FixedFacts();
    EscapeRows(c, rest);
    SetEscapeSound(R, c, rest);
    hide Rule, SetEscapeStep, ProducesSetEscape;
    hide Closed, Fixed, CodeEscape, ClassEscape, ProducesCode, ProducesClass, AtomRule;
    hide ProducesGroup, ProducesRepeat, ProducesEscape;
  }

  lemma SelectsNextEscapes(n: Nonterminal, c: Code, rest: Symbols, goal: Symbols)
    requires n == F && ProducesSet(n, rest, goal) && Closed(rest) && CanStart(goal, c)
    ensures First(n, c) || (Nullable(n) && CanStart(rest, c))
    ensures (CanStart(rest, c) ==> Follow(n, c)) ==> Takes(Rule(n, c, rest), rest, c, goal)
  {
    FixedSame(rest, c);
    FixedFacts();
    StartFacts();
    if ProducesCode(Sub(Range, rest), goal) { CodeHeaded(Sub(Range, rest), goal); }
    if ProducesClass(rest, goal) { ClassHeaded(rest, goal); }
    CodesAlike(c, rest, Sub(Range, rest));
    EscapeRows(c, rest);
    CharFacts(c);
    hide Metacharacter, IsSpecial, Rule;
    hide CanStart, Closed, Followed, Fixed, CodeEscape, ClassEscape, ProducesCode, ProducesClass, AtomRule;
  }

  lemma KeepsNextEscapes(n: Nonterminal, rest: Symbols, goal: Symbols)
    requires n == F && ProducesSet(n, rest, goal) && Closed(rest)
    ensures Closed(goal) && (CanEnd(goal) ==> Nullable(n) && CanEnd(rest))
    ensures CanEnd(goal) && FollowEnd(n) ==> TakesEnd(RuleAtEnd(n, rest), rest, goal)
    ensures FollowedBy(n, rest) && Followed(rest) ==> Followed(goal)
  {
    SetEscapeKept(R, rest, goal);
    if FollowedBy(n, rest) && Followed(rest) { RangeTail(n, rest); }
    hide ProducesSetEscape, CanEnd, Closed, Followed, FollowedBy;
  }

  lemma SoundDashes(n: Nonterminal, c: Code, rest: Symbols)
    requires n in {Q, R, Range} && Closed(rest)
    ensures Sound(n, c, rest)
  {
    FixedSame(rest, c);
    FixedFacts();
    RowsFor(n, c, rest);
    hide Rule;
    hide Closed, Fixed, EscapeRule, AtomRule, ProducesGroup, ProducesRepeat, ProducesEscape;
  }

  lemma SelectsDashes(n: Nonterminal, c: Code, rest: Symbols, goal: Symbols)
    requires n in {Q, R, Range} && ProducesSet(n, rest, goal) && Closed(rest) && CanStart(goal, c)
    ensures First(n, c) || (Nullable(n) && CanStart(rest, c))
    ensures (CanStart(rest, c) ==> Follow(n, c)) ==> Takes(Rule(n, c, rest), rest, c, goal)
  {
    FixedSame(rest, c);
    FixedFacts();
    StartFacts();
    RowsFor(n, c, rest);
    hide Rule;
    hide CanStart, Closed, Followed, Fixed, EscapeRule, AtomRule;
  }

  lemma KeepsDashes(n: Nonterminal, rest: Symbols, goal: Symbols)
    requires n in {Q, R, Range} && ProducesSet(n, rest, goal) && Closed(rest)
    ensures Closed(goal) && (CanEnd(goal) ==> Nullable(n) && CanEnd(rest))
    ensures CanEnd(goal) && FollowEnd(n) ==> TakesEnd(RuleAtEnd(n, rest), rest, goal)
    ensures FollowedBy(n, rest) && Followed(rest) ==> Followed(goal)
  {
    ClosedFacts();
    EndFacts();
    FollowedFacts();
    FreeFacts();
    hide FollowedBy, First;
    hide CanStart, CanEnd, Closed, Followed, EscapeRule, AtomRule;
  }

  lemma SoundRangeEnds(n: Nonterminal, c: Code, rest: Symbols)
    requires n in {J, BackslashRange} && Closed(rest)
    ensures Sound(n, c, rest)
  {
    FixedSame(rest, c);
    FixedFacts();
    RowsFor(n, c, rest);
    hide Rule;
    CodeSound(c, rest);
    hide Closed, Fixed, CodeEscape, ClassEscape, ProducesCode, AtomRule, ProducesGroup, ProducesRepeat, ProducesEscape;
  }

  lemma SelectsRangeEnds(n: Nonterminal, c: Code, rest: Symbols, goal: Symbols)
    requires n in {J, BackslashRange} && ProducesSet(n, rest, goal) && Closed(rest) && CanStart(goal, c)
    ensures First(n, c) || (Nullable(n) && CanStart(rest, c))
    ensures (CanStart(rest, c) ==> Follow(n, c)) ==> Takes(Rule(n, c, rest), rest, c, goal)
  {
    FixedSame(rest, c);
    FixedFacts();
    StartFacts();
    RowsFor(n, c, rest);
    hide Rule;
    if ProducesCode(rest, goal) { CodeHeaded(rest, goal); }
    hide CanStart, Closed, Followed, Fixed, CodeEscape, ClassEscape, ProducesCode, AtomRule;
  }

  lemma KeepsRangeEnds(n: Nonterminal, rest: Symbols, goal: Symbols)
    requires n in {J, BackslashRange} && ProducesSet(n, rest, goal) && Closed(rest)
    ensures Closed(goal) && (CanEnd(goal) ==> Nullable(n) && CanEnd(rest))
    ensures CanEnd(goal) && FollowEnd(n) ==> TakesEnd(RuleAtEnd(n, rest), rest, goal)
    ensures FollowedBy(n, rest) && Followed(rest) ==> Followed(goal)
  {
    ClosedFacts();
    EndFacts();
    FollowedFacts();
    if ProducesCode(rest, goal) { CodeHeaded(rest, goal); }
    FreeFacts();
    hide FollowedBy, First;
    hide CanStart, CanEnd, Closed, Followed, CodeEscape, ClassEscape, ProducesCode, AtomRule;
  }

  lemma SoundNamedSets(n: Nonterminal, c: Code, rest: Symbols)
    requires n in {ClassNamed, I, CollateChar} && Closed(rest)
    ensures Sound(n, c, rest)
  {
    FixedSame(rest, c);
    FixedFacts();
    RowsFor(n, c, rest);
    hide Rule;
    hide Closed, Fixed, EscapeRule, AtomRule, ProducesGroup, ProducesRepeat, ProducesEscape;
  }

  lemma SelectsNamedSets(n: Nonterminal, c: Code, rest: Symbols, goal: Symbols)
    requires n in {ClassNamed, I, CollateChar} && ProducesSet(n, rest, goal) && Closed(rest) && CanStart(goal, c)
    ensures First(n, c) || (Nullable(n) && CanStart(rest, c))
    ensures (CanStart(rest, c) ==> Follow(n, c)) ==> Takes(Rule(n, c, rest), rest, c, goal)
  {
    FixedSame(rest, c);
    FixedFacts();
    StartFacts();
    RowsFor(n, c, rest);
    hide Rule;
    hide CanStart, Closed, Followed, Fixed, EscapeRule, AtomRule;
  }

  lemma KeepsNamedSets(n: Nonterminal, rest: Symbols, goal: Symbols)
    requires n in {ClassNamed, I, CollateChar} && ProducesSet(n, rest, goal) && Closed(rest)
    ensures Closed(goal) && (CanEnd(goal) ==> Nullable(n) && CanEnd(rest))
    ensures CanEnd(goal) && FollowEnd(n) ==> TakesEnd(RuleAtEnd(n, rest), rest, goal)
    ensures FollowedBy(n, rest) && Followed(rest) ==> Followed(goal)
  {
    ClosedFacts();
    EndFacts();
    StartFacts();
    FollowedFacts();
    hide CanStart, CanEnd, Closed, Followed, EscapeRule, AtomRule;
  }

  lemma SoundNameEnds(n: Nonterminal, c: Code, rest: Symbols)
    requires n == P && Closed(rest)
    ensures Sound(n, c, rest)
  {
    FixedSame(rest, c);
    FixedFacts();
    RowsFor(n, c, rest);
    hide Rule;
    NameSound(c, rest);
    hide Closed, Fixed, ProducesCode, AtomRule, CodeEscape, ClassEscape, ProducesGroup, ProducesRepeat, ProducesEscape;
  }

  lemma SelectsNameEnds(n: Nonterminal, c: Code, rest: Symbols, goal: Symbols)
    requires n == P && ProducesSet(n, rest, goal) && Closed(rest) && CanStart(goal, c)
    ensures First(n, c) || (Nullable(n) && CanStart(rest, c))
    ensures (CanStart(rest, c) ==> Follow(n, c)) ==> Takes(Rule(n, c, rest), rest, c, goal)
  {
    FixedSame(rest, c);
    FixedFacts();
    StartFacts();
    RowsFor(n, c, rest);
    hide Rule;
    hide CanStart, Closed, Followed, Fixed, ProducesCode, AtomRule, CodeEscape, ClassEscape;
  }

  lemma KeepsNameEnds(n: Nonterminal, rest: Symbols, goal: Symbols)
    requires n == P && ProducesSet(n, rest, goal) && Closed(rest)
    ensures Closed(goal) && (CanEnd(goal) ==> Nullable(n) && CanEnd(rest))
    ensures CanEnd(goal) && FollowEnd(n) ==> TakesEnd(RuleAtEnd(n, rest), rest, goal)
    ensures FollowedBy(n, rest) && Followed(rest) ==> Followed(goal)
  {
    ClosedFacts();
    EndFacts();
    StartFacts();
    FollowedFacts();
    hide CanStart, CanEnd, Closed, Followed, ProducesCode, AtomRule, CodeEscape, ClassEscape;
  }

  lemma SoundEscapes(n: Nonterminal, c: Code, rest: Symbols)
    requires n == Backslash && Closed(rest)
    ensures Sound(n, c, rest)
  {
    FixedSame(rest, c);
    FixedFacts();
    EscapeRows(c, rest);
    BackslashSound(c, rest);
    hide Rule, BackslashStep, ProducesBackslash;
    hide Closed, Fixed, CodeEscape, ClassEscape, ProducesCode, ProducesClass, AtomRule;
    hide ProducesGroup, ProducesRepeat, ProducesSet;
  }

  lemma SelectsEscapes(n: Nonterminal, c: Code, rest: Symbols, goal: Symbols)
    requires n == Backslash && ProducesEscape(n, rest, goal) && Closed(rest) && CanStart(goal, c)
    ensures First(n, c) || (Nullable(n) && CanStart(rest, c))
    ensures (CanStart(rest, c) ==> Follow(n, c)) ==> Takes(Rule(n, c, rest), rest, c, goal)
  {
    FixedSame(rest, c);
    FixedFacts();
    StartFacts();
    if ProducesCode(rest, goal) { CodeHeaded(rest, goal); }
    if ProducesClass(rest, goal) { ClassHeaded(rest, goal); }
    CodesAlike(c, rest, Sub(Range, rest));
    EscapeRows(c, rest);
    CharFacts(c);
    hide Metacharacter, IsSpecial, Rule;
    hide CanStart, Closed, Followed, Fixed, CodeEscape, ClassEscape, ProducesCode, ProducesClass, AtomRule;
  }

  lemma KeepsEscapes(n: Nonterminal, rest: Symbols, goal: Symbols)
    requires n == Backslash && ProducesEscape(n, rest, goal) && Closed(rest)
    ensures Closed(goal) && (CanEnd(goal) ==> Nullable(n) && CanEnd(rest))
    ensures CanEnd(goal) && FollowEnd(n) ==> TakesEnd(RuleAtEnd(n, rest), rest, goal)
    ensures FollowedBy(n, rest) && Followed(rest) ==> Followed(goal)
  {
    ClosedFacts();
    EndFacts();
    FollowedFacts();
    if ProducesCode(rest, goal) { CodeHeaded(rest, goal); }
    if ProducesClass(rest, goal) { ClassHeaded(rest, goal); }
    FreeFacts();
    hide FollowedBy, IsSpecial, First;
    hide CanStart, CanEnd, Closed, Followed, CodeEscape, ClassEscape, ProducesCode, ProducesClass, AtomRule;
  }

  lemma SoundCodes(n: Nonterminal, c: Code, rest: Symbols)
    requires n in {K, L} && Closed(rest)
    ensures Sound(n, c, rest)
  {
    FixedSame(rest, c);
    FixedFacts();
    RowsFor(n, c, rest);
    hide Rule, SetRule;
    CharFacts(c);
    hide HexDigit, IsHexDigit;
    hide Closed, Fixed, AtomRule, ProducesGroup, ProducesRepeat, ProducesSet;
  }

  lemma SelectsCodes(n: Nonterminal, c: Code, rest: Symbols, goal: Symbols)
    requires n in {K, L} && ProducesEscape(n, rest, goal) && Closed(rest) && CanStart(goal, c)
    ensures First(n, c) || (Nullable(n) && CanStart(rest, c))
    ensures (CanStart(rest, c) ==> Follow(n, c)) ==> Takes(Rule(n, c, rest), rest, c, goal)
  {
    FixedSame(rest, c);
    FixedFacts();
    StartFacts();
    RowsFor(n, c, rest);
    hide Rule, SetRule;
    hide CanStart, Closed, Followed, Fixed, AtomRule;
  }

  lemma KeepsCodes(n: Nonterminal, rest: Symbols, goal: Symbols)
    requires n in {K, L} && ProducesEscape(n, rest, goal) && Closed(rest)
    ensures Closed(goal) && (CanEnd(goal) ==> Nullable(n) && CanEnd(rest))
    ensures CanEnd(goal) && FollowEnd(n) ==> TakesEnd(RuleAtEnd(n, rest), rest, goal)
    ensures FollowedBy(n, rest) && Followed(rest) ==> Followed(goal)
  {
    ClosedFacts();
    EndFacts();
    StartFacts();
    FollowedFacts();
    hide CanStart, CanEnd, Closed, Followed, AtomRule;
  }

  lemma SoundNames(n: Nonterminal, c: Code, rest: Symbols)
    requires n in {HexdecRepeat, BlockName, BlockName2} && Closed(rest)
    ensures Sound(n, c, rest)
  {
    FixedSame(rest, c);
    FixedFacts();
    CharFacts(c);
    hide Word, IsNamePart, LetterOrUnderscore, IsNameStart, HexDigit, IsHexDigit, Digit, IsDigit;
    hide Closed, Fixed, AtomRule, ProducesGroup, ProducesRepeat, ProducesSet;
  }

  lemma SelectsNames(n: Nonterminal, c: Code, rest: Symbols, goal: Symbols)
    requires n in {HexdecRepeat, BlockName, BlockName2} && ProducesEscape(n, rest, goal)
    requires Closed(rest) && CanStart(goal, c)
    ensures First(n, c) || (Nullable(n) && CanStart(rest, c))
    ensures (CanStart(rest, c) ==> Follow(n, c)) ==> Takes(Rule(n, c, rest), rest, c, goal)
  {
    FixedSame(rest, c);
    FixedFacts();
    StartFacts();
    hide CanStart, Closed, Followed, Fixed, AtomRule;
  }

  lemma KeepsNames(n: Nonterminal, rest: Symbols, goal: Symbols)
    requires n in {HexdecRepeat, BlockName, BlockName2} && ProducesEscape(n, rest, goal) && Closed(rest)
    ensures Closed(goal) && (CanEnd(goal) ==> Nullable(n) && CanEnd(rest))
    ensures CanEnd(goal) && FollowEnd(n) ==> TakesEnd(RuleAtEnd(n, rest), rest, goal)
    ensures FollowedBy(n, rest) && Followed(rest) ==> Followed(goal)
  {
    ClosedFacts();
    EndFacts();
    StartFacts();
    FollowedFacts();
    hide CanStart, CanEnd, Closed, Followed, AtomRule;
  }

  lemma SoundReferences(n: Nonterminal, c: Code, rest: Symbols)
    requires n == M && Closed(rest)
    ensures Sound(n, c, rest)
  {
    FixedSame(rest, c);
    FixedFacts();
    RowsFor(n, c, rest);
    hide Rule, SetRule;
    CharFacts(c);
    hide Word, IsNamePart, LetterOrUnderscore, IsNameStart, HexDigit, IsHexDigit, Digit, IsDigit;
    hide Closed, Fixed, AtomRule, ProducesGroup, ProducesRepeat, ProducesSet;
  }

  lemma SelectsReferences(n: Nonterminal, c: Code, rest: Symbols, goal: Symbols)
    requires n == M && ProducesEscape(n, rest, goal) && Closed(rest) && CanStart(goal, c)
    ensures First(n, c) || (Nullable(n) && CanStart(rest, c))
    ensures (CanStart(rest, c) ==> Follow(n, c)) ==> Takes(Rule(n, c, rest), rest, c, goal)
  {
    FixedSame(rest, c);
    FixedFacts();
    StartFacts();
    RowsFor(n, c, rest);
    hide Rule, SetRule;
    hide CanStart, Closed, Followed, Fixed, AtomRule;
  }

  lemma KeepsReferences(n: Nonterminal, rest: Symbols, goal: Symbols)
    requires n == M && ProducesEscape(n, rest, goal) && Closed(rest)
    ensures Closed(goal) && (CanEnd(goal) ==> Nullable(n) && CanEnd(rest))
    ensures CanEnd(goal) && FollowEnd(n) ==> TakesEnd(RuleAtEnd(n, rest), rest, goal)
    ensures FollowedBy(n, rest) && Followed(rest) ==> Followed(goal)
  {
    ClosedFacts();
    EndFacts();
    StartFacts();
    FollowedFacts();
    hide CanStart, CanEnd, Closed, Followed, AtomRule;
  }

  lemma SoundPropertyNames(n: Nonterminal, c: Code, rest: Symbols)
    requires n in {PropertyName, PropertyName2} && Closed(rest)
    ensures Sound(n, c, rest)
  {
    FixedSame(rest, c);
    FixedFacts();
    RowsFor(n, c, rest);
    hide Rule, SetRule;
    CharFacts(c);
    hide Word, IsNamePart, LetterOrUnderscore, Digit;
    hide Closed, Fixed, AtomRule, ProducesGroup, ProducesRepeat, ProducesSet;
  }

  lemma SelectsPropertyNames(n: Nonterminal, c: Code, rest: Symbols, goal: Symbols)
    requires n in {PropertyName, PropertyName2} && ProducesEscape(n, rest, goal) && Closed(rest) && CanStart(goal, c)
    ensures First(n, c) || (Nullable(n) && CanStart(rest, c))
    ensures (CanStart(rest, c) ==> Follow(n, c)) ==> Takes(Rule(n, c, rest), rest, c, goal)
  {
    FixedSame(rest, c);
    FixedFacts();
    StartFacts();
    RowsFor(n, c, rest);
    hide Rule, SetRule;
    hide CanStart, Closed, Followed, Fixed, AtomRule;
  }

  lemma KeepsPropertyNames(n: Nonterminal, rest: Symbols, goal: Symbols)
    requires n in {PropertyName, PropertyName2} && ProducesEscape(n, rest, goal) && Closed(rest)
    ensures Closed(goal) && (CanEnd(goal) ==> Nullable(n) && CanEnd(rest))
    ensures CanEnd(goal) && FollowEnd(n) ==> TakesEnd(RuleAtEnd(n, rest), rest, goal)
    ensures FollowedBy(n, rest) && Followed(rest) ==> Followed(goal)
  {
    ClosedFacts();
    EndFacts();
    StartFacts();
    FollowedFacts();
    hide CanStart, CanEnd, Closed, Followed, AtomRule;
  }

  lemma SoundPropertyValues(n: Nonterminal, c: Code, rest: Symbols)
    requires n in {PropertyValue, PropertyValue2} && Closed(rest)
    ensures Sound(n, c, rest)
  {
    FixedSame(rest, c);
    FixedFacts();
    RowsFor(n, c, rest);
    hide Rule, SetRule;
    CharFacts(c);
    hide Word, IsNamePart, LetterOrUnderscore, Digit;
    hide Closed, Fixed, AtomRule, ProducesGroup, ProducesRepeat, ProducesSet;
  }

  lemma SelectsPropertyValues(n: Nonterminal, c: Code, rest: Symbols, goal: Symbols)
    requires n in {PropertyValue, PropertyValue2} && ProducesEscape(n, rest, goal) && Closed(rest) && CanStart(goal, c)
    ensures First(n, c) || (Nullable(n) && CanStart(rest, c))
    ensures (CanStart(rest, c) ==> Follow(n, c)) ==> Takes(Rule(n, c, rest), rest, c, goal)
  {
    FixedSame(rest, c);
    FixedFacts();
    StartFacts();
    RowsFor(n, c, rest);
    hide Rule, SetRule;
    hide CanStart, Closed, Followed, Fixed, AtomRule;
  }

  lemma KeepsPropertyValues(n: Nonterminal, rest: Symbols, goal: Symbols)
    requires n in {PropertyValue, PropertyValue2} && ProducesEscape(n, rest, goal) && Closed(rest)
    ensures Closed(goal) && (CanEnd(goal) ==> Nullable(n) && CanEnd(rest))
    ensures CanEnd(goal) && FollowEnd(n) ==> TakesEnd(RuleAtEnd(n, rest), rest, goal)
    ensures FollowedBy(n, rest) && Followed(rest) ==> Followed(goal)
  {
    ClosedFacts();
    EndFacts();
    StartFacts();
    FollowedFacts();
    hide CanStart, CanEnd, Closed, Followed, AtomRule;
  }

  lemma SoundClassNames(n: Nonterminal, c: Code, rest: Symbols)
    requires n == ClassNamedName && Closed(rest)
    ensures Sound(n, c, rest)
  {
    FixedSame(rest, c);
    FixedFacts();
    RowsFor(n, c, rest);
    hide Rule, SetRule;
    NameSound(c, rest);
    hide Closed, Fixed, NameRule, ProducesName, AtomRule, ProducesGroup, ProducesRepeat, ProducesSet;
  }

  lemma SelectsClassNames(n: Nonterminal, c: Code, rest: Symbols, goal: Symbols)
    requires n == ClassNamedName && ProducesEscape(n, rest, goal) && Closed(rest) && CanStart(goal, c)
    ensures First(n, c) || (Nullable(n) && CanStart(rest, c))
    ensures (CanStart(rest, c) ==> Follow(n, c)) ==> Takes(Rule(n, c, rest), rest, c, goal)
  {
    FixedSame(rest, c);
    FixedFacts();
    StartFacts();
    RowsFor(n, c, rest);
    hide Rule, SetRule;
    NameHeaded(rest, goal);
    hide CanStart, Closed, Followed, Fixed, NameRule, ProducesName, AtomRule;
  }

  lemma KeepsClassNames(n: Nonterminal, rest: Symbols, goal: Symbols)
    requires n == ClassNamedName && ProducesEscape(n, rest, goal) && Closed(rest)
    ensures Closed(goal) && (CanEnd(goal) ==> Nullable(n) && CanEnd(rest))
    ensures CanEnd(goal) && FollowEnd(n) ==> TakesEnd(RuleAtEnd(n, rest), rest, goal)
    ensures FollowedBy(n, rest) && Followed(rest) ==> Followed(goal)
  {
    ClosedFacts();
    EndFacts();
    StartFacts();
    FollowedFacts();
    NameHeaded(rest, goal);
    hide CanStart, CanEnd, Closed, Followed, NameRule, ProducesName, AtomRule;
  }

  lemma SoundWords(n: Nonterminal, c: Code, rest: Symbols)
    requires n in {G, H, O} && Closed(rest)
    ensures Sound(n, c, rest)
  {
    FixedSame(rest, c);
    FixedFacts();
    RowsFor(n, c, rest);
    hide Rule, SetRule;
    hide Closed, Fixed, AtomRule, ProducesGroup, ProducesRepeat, ProducesSet;
  }

  lemma SelectsWords(n: Nonterminal, c: Code, rest: Symbols, goal: Symbols)
    requires n in {G, H, O} && ProducesEscape(n, rest, goal) && Closed(rest) && CanStart(goal, c)
    ensures First(n, c) || (Nullable(n) && CanStart(rest, c))
    ensures (CanStart(rest, c) ==> Follow(n, c)) ==> Takes(Rule(n, c, rest), rest, c, goal)
  {
    FixedSame(rest, c);
    FixedFacts();
    StartFacts();
    RowsFor(n, c, rest);
    hide Rule, SetRule;
    hide CanStart, Closed, Followed, Fixed, AtomRule;
  }

  lemma KeepsWords(n: Nonterminal, rest: Symbols, goal: Symbols)
    requires n in {G, H, O} && ProducesEscape(n, rest, goal) && Closed(rest)
    ensures Closed(goal) && (CanEnd(goal) ==> Nullable(n) && CanEnd(rest))
    ensures CanEnd(goal) && FollowEnd(n) ==> TakesEnd(RuleAtEnd(n, rest), rest, goal)
    ensures FollowedBy(n, rest) && Followed(rest) ==> Followed(goal)
  {
    ClosedFacts();
    EndFacts();
    StartFacts();
    FollowedFacts();
    hide CanStart, CanEnd, Closed, Followed, AtomRule;
  }

  // ----- all nonterminals together -----

  lemma RuleSound(n: Nonterminal, c: Code, rest: Symbols)
    requires Closed(rest)
    ensures Sound(n, c, rest)
  {
    hide Sound, Closed;
    match n
    case A => SoundBranches(n, c, rest);
    case AtomRepeat => SoundAtomRepeats(n, c, rest);
    case B => SoundCounts(n, c, rest);
    case Backslash => SoundEscapes(n, c, rest);
    case BackslashRange => SoundRangeEnds(n, c, rest);
    case Block => SoundBranches(n, c, rest);
    case BlockName => SoundNames(n, c, rest);
    case BlockName2 => SoundNames(n, c, rest);
    case C => SoundBrackets(n, c, rest);
    case CharacterClass => SoundBrackets(n, c, rest);
    case ClassNamed => SoundNamedSets(n, c, rest);
    case ClassNamedName => SoundClassNames(n, c, rest);
    case CollateChar => SoundNamedSets(n, c, rest);
    case Content => SoundContents(n, c, rest);
    case Content2 => SoundBranches(n, c, rest);
    case ContentInCapture => SoundContents(n, c, rest);
    case D => SoundBranches(n, c, rest);
    case E => SoundFirstEscapes(n, c, rest);
    case F => SoundNextEscapes(n, c, rest);
    case G => SoundWords(n, c, rest);
    case H => SoundWords(n, c, rest);
    case HexdecRepeat => SoundNames(n, c, rest);
    case I => SoundNamedSets(n, c, rest);
    case J => SoundRangeEnds(n, c, rest);
    case K => SoundCodes(n, c, rest);
    case L => SoundCodes(n, c, rest);
    case M => SoundReferences(n, c, rest);
    case Mod => SoundRepeats(n, c, rest);
    case ModOpt => SoundRepeats(n, c, rest);
    case N => SoundCounts(n, c, rest);
    case Number => SoundCounts(n, c, rest);
    case Number2 => SoundCounts(n, c, rest);
    case O => SoundWords(n, c, rest);
    case P => SoundNameEnds(n, c, rest);
    case PropertyName => SoundPropertyNames(n, c, rest);
    case PropertyName2 => SoundPropertyNames(n, c, rest);
    case PropertyValue => SoundPropertyValues(n, c, rest);
    case PropertyValue2 => SoundPropertyValues(n, c, rest);
    case Q => SoundDashes(n, c, rest);
    case R => SoundDashes(n, c, rest);
    case Range => SoundDashes(n, c, rest);
    case Repeat => SoundRepeats(n, c, rest);
    case Set => SoundFirstItems(n, c, rest);
    case Set2a => SoundNegatedItems(n, c, rest);
    case Set2b => SoundNextItems(n, c, rest);
    case Setitem => SoundMembers(n, c, rest);
    case Setitem2 => SoundMembers(n, c, rest);
    case Start => SoundContents(n, c, rest);
    case String2 => SoundBranches(n, c, rest);
  }

  lemma ProductionSelected(n: Nonterminal, c: Code, rest: Symbols, goal: Symbols)
    requires Produces(n, rest, goal) && Closed(rest) && CanStart(goal, c)
    ensures Selected(n, c, rest, goal)
  {
    hide ProducesGroup, ProducesRepeat, ProducesSet, ProducesEscape, CanStart, Closed, First, Follow, Takes;
    match n
    case A => SelectsBranches(n, c, rest, goal);
    case AtomRepeat => SelectsAtomRepeats(n, c, rest, goal);
    case B => SelectsCounts(n, c, rest, goal);
    case Backslash => SelectsEscapes(n, c, rest, goal);
    case BackslashRange => SelectsRangeEnds(n, c, rest, goal);
    case Block => SelectsBranches(n, c, rest, goal);
    case BlockName => SelectsNames(n, c, rest, goal);
    case BlockName2 => SelectsNames(n, c, rest, goal);
    case C => SelectsBrackets(n, c, rest, goal);
    case CharacterClass => SelectsBrackets(n, c, rest, goal);
    case ClassNamed => SelectsNamedSets(n, c, rest, goal);
    case ClassNamedName => SelectsClassNames(n, c, rest, goal);
    case CollateChar => SelectsNamedSets(n, c, rest, goal);
    case Content => SelectsContents(n, c, rest, goal);
    case Content2 => SelectsBranches(n, c, rest, goal);
    case ContentInCapture => SelectsContents(n, c, rest, goal);
    case D => SelectsBranches(n, c, rest, goal);
    case E => SelectsFirstEscapes(n, c, rest, goal);
    case F => SelectsNextEscapes(n, c, rest, goal);
    case G => SelectsWords(n, c, rest, goal);
    case H => SelectsWords(n, c, rest, goal);
    case HexdecRepeat => SelectsNames(n, c, rest, goal);
    case I => SelectsNamedSets(n, c, rest, goal);
    case J => SelectsRangeEnds(n, c, rest, goal);
    case K => SelectsCodes(n, c, rest, goal);
    case L => SelectsCodes(n, c, rest, goal);
    case M => SelectsReferences(n, c, rest, goal);
    case Mod => SelectsRepeats(n, c, rest, goal);
    case ModOpt => SelectsRepeats(n, c, rest, goal);
    case N => SelectsCounts(n, c, rest, goal);
    case Number => SelectsCounts(n, c, rest, goal);
    case Number2 => SelectsCounts(n, c, rest, goal);
    case O => SelectsWords(n, c, rest, goal);
    case P => SelectsNameEnds(n, c, rest, goal);
    case PropertyName => SelectsPropertyNames(n, c, rest, goal);
    case PropertyName2 => SelectsPropertyNames(n, c, rest, goal);
    case PropertyValue => SelectsPropertyValues(n, c, rest, goal);
    case PropertyValue2 => SelectsPropertyValues(n, c, rest, goal);
    case Q => SelectsDashes(n, c, rest, goal);
    case R => SelectsDashes(n, c, rest, goal);
    case Range => SelectsDashes(n, c, rest, goal);
    case Repeat => SelectsRepeats(n, c, rest, goal);
    case Set => SelectsFirstItems(n, c, rest, goal);
    case Set2a => SelectsNegatedItems(n, c, rest, goal);
    case Set2b => SelectsNextItems(n, c, rest, goal);
    case Setitem => SelectsMembers(n, c, rest, goal);
    case Setitem2 => SelectsMembers(n, c, rest, goal);
    case Start => SelectsContents(n, c, rest, goal);
    case String2 => SelectsBranches(n, c, rest, goal);
  }

  lemma ProductionKeeps(n: Nonterminal, rest: Symbols, goal: Symbols)
    requires Produces(n, rest, goal) && Closed(rest)
    ensures Kept(n, rest, goal) && (FollowedBy(n, rest) && Followed(rest) ==> Followed(goal))
  {
    hide ProducesGroup, ProducesRepeat, ProducesSet, ProducesEscape, CanEnd, Closed, FollowEnd, TakesEnd;
    hide FollowedBy, Followed;
    match n
    case A => KeepsBranches(n, rest, goal);
    case AtomRepeat => KeepsAtomRepeats(n, rest, goal);
    case B => KeepsCounts(n, rest, goal);
    case Backslash => KeepsEscapes(n, rest, goal);
    case BackslashRange => KeepsRangeEnds(n, rest, goal);
    case Block => KeepsBranches(n, rest, goal);
    case BlockName => KeepsNames(n, rest, goal);
    case BlockName2 => KeepsNames(n, rest, goal);
    case C => KeepsBrackets(n, rest, goal);
    case CharacterClass => KeepsBrackets(n, rest, goal);
    case ClassNamed => KeepsNamedSets(n, rest, goal);
    case ClassNamedName => KeepsClassNames(n, rest, goal);
    case CollateChar => KeepsNamedSets(n, rest, goal);
    case Content => KeepsContents(n, rest, goal);
    case Content2 => KeepsBranches(n, rest, goal);
    case ContentInCapture => KeepsContents(n, rest, goal);
    case D => KeepsBranches(n, rest, goal);
    case E => KeepsFirstEscapes(n, rest, goal);
    case F => KeepsNextEscapes(n, rest, goal);
    case G => KeepsWords(n, rest, goal);
    case H => KeepsWords(n, rest, goal);
    case HexdecRepeat => KeepsNames(n, rest, goal);
    case I => KeepsNamedSets(n, rest, goal);
    case J => KeepsRangeEnds(n, rest, goal);
    case K => KeepsCodes(n, rest, goal);
    case L => KeepsCodes(n, rest, goal);
    case M => KeepsReferences(n, rest, goal);
    case Mod => KeepsRepeats(n, rest, goal);
    case ModOpt => KeepsRepeats(n, rest, goal);
    case N => KeepsCounts(n, rest, goal);
    case Number => KeepsCounts(n, rest, goal);
    case Number2 => KeepsCounts(n, rest, goal);
    case O => KeepsWords(n, rest, goal);
    case P => KeepsNameEnds(n, rest, goal);
    case PropertyName => KeepsPropertyNames(n, rest, goal);
    case PropertyName2 => KeepsPropertyNames(n, rest, goal);
    case PropertyValue => KeepsPropertyValues(n, rest, goal);
    case PropertyValue2 => KeepsPropertyValues(n, rest, goal);
    case Q => KeepsDashes(n, rest, goal);
    case R => KeepsDashes(n, rest, goal);
    case Range => KeepsDashes(n, rest, goal);
    case Repeat => KeepsRepeats(n, rest, goal);
    case Set => KeepsFirstItems(n, rest, goal);
    case Set2a => KeepsNegatedItems(n, rest, goal);
    case Set2b => KeepsNextItems(n, rest, goal);
    case Setitem => KeepsMembers(n, rest, goal);
    case Setitem2 => KeepsMembers(n, rest, goal);
    case Start => KeepsContents(n, rest, goal);
    case String2 => KeepsBranches(n, rest, goal);
  }

  /** What the machine does at the end is a production. */
  lemma EndSound(n: Nonterminal, rest: Symbols)
    ensures var step := RuleAtEnd(n, rest);
            match step
            case Reject => true
            case Keep => Produces(n, rest, rest)
            case Swap(st) => Produces(n, rest, st) && (Closed(rest) ==> Closed(st))
  {
    ClosedFacts();
    hide Closed;
  }
}
