/** The grammar of patterns: the symbols the LL(1) parser keeps on its stack, and its rule table. */
module PatternGrammar {
  import RegexSyntax

  type Code = RegexSyntax.Code

  /** What is left of the input. */
  datatype Text = End | Next(first: Code, rest: Text)

  /** The nonterminals of `ctre::pcre`. */
  datatype Nonterminal =
    | Start | A | AtomRepeat | B | Backslash | BackslashRange | Block | BlockName2 | BlockName | C | CharacterClass
    | ClassNamed | ClassNamedName | CollateChar | Content2 | Content | ContentInCapture | D | E | F | G | H
    | HexdecRepeat | I | J | K | L | M | Mod | ModOpt | N | Number2 | Number | O | P | PropertyName2 | PropertyName
    | PropertyValue2 | PropertyValue | Q | R | Range | Repeat | Set2a | Set2b | Set | Setitem2 | Setitem | String2

  /** The semantic actions. */
  datatype Action =
    | ClassDigit | ClassNamedAlnum | ClassNamedAlpha | ClassNamedAscii | ClassNamedBlank | ClassNamedCntrl
    | ClassNamedDigit | ClassNamedGraph | ClassNamedLower | ClassNamedPrint | ClassNamedPunct | ClassNamedSpace
    | ClassNamedUpper | ClassNamedWord | ClassNamedXdigit | ClassNondigit | ClassNonnewline | ClassNonspace
    | ClassNonword | ClassSpace | ClassWord | CreateHexdec | CreateNumber | EquivalentCharacter | FinishHexdec
    | LookFinish | MakeAlternate | MakeBackReference | MakeCapture | MakeCaptureWithName | MakeLazy | MakeOptional
    | MakePossessive | MakeProperty | MakePropertyNegative | MakeRange | MakeRelativeBackReference | MakeSequence
    | NegateClassNamed | PrepareCapture | PushAssertBegin | PushAssertEnd | PushCharacter | PushCharacterAlarm
    | PushCharacterAnything | PushCharacterEscape | PushCharacterFormfeed | PushCharacterNewline | PushCharacterNull
    | PushCharacterReturnCarriage | PushCharacterTab | PushEmpty | PushHexdec | PushName | PushNumber
    | PushPropertyName | PushPropertyValue | RepeatAb | RepeatAtLeast | RepeatExactly | RepeatPlus | RepeatStar
    | ResetCapture | SetCombine | SetMake | SetMakeNegative | SetStart | StartLookaheadNegative
    | StartLookaheadPositive

  datatype Symbol =
    | Do(action: Action)
    | NT(nonterminal: Nonterminal)
    | Terminal(c: Code)
    | AnyHexDigit
    | Anything

  /** The stack of the parser. */
  datatype Symbols = Bottom | On(top: Symbol, below: Symbols)

  /** What the table says: give up, drop the nonterminal, or continue with another stack. */
  datatype Step = Reject | Keep | Swap(stack: Symbols)

  const EXCLAMATION: Code := 33
  const DOLLAR: Code := 36
  const OPEN: Code := 40
  const CLOSE: Code := 41
  const STAR: Code := 42
  const PLUS: Code := 43
  const COMMA: Code := 44
  const MINUS: Code := 45
  const DOT: Code := 46
  const ZERO: Code := 48
  const COLON: Code := 58
  const LESS: Code := 60
  const EQUAL: Code := 61
  const GREATER: Code := 62
  const QUESTION: Code := 63
  const OPEN_SQUARE: Code := 91
  const BACKSLASH: Code := 92
  const CLOSE_SQUARE: Code := 93
  const CARET: Code := 94
  const UNDERSCORE: Code := 95
  const OPEN_CURLY: Code := 123
  const BAR: Code := 124
  const CLOSE_CURLY: Code := 125

  predicate Quantifier(c: Code) {
    c == STAR || c == PLUS || c == QUESTION || c == OPEN_CURLY || c == CLOSE_CURLY
  }

  predicate Metacharacter(c: Code) {
    || Quantifier(c) || c == OPEN || c == CLOSE || c == BAR || c == DOT || c == DOLLAR || c == CARET
    || c == OPEN_SQUARE || c == CLOSE_SQUARE || c == BACKSLASH
  }

  predicate Digit(c: Code) {
    ZERO <= c <= ZERO + 9
  }

  predicate HexDigit(c: Code) {
    Digit(c) || 'A' as int <= c <= 'F' as int || 'a' as int <= c <= 'f' as int
  }

  predicate LetterOrUnderscore(c: Code) {
    'A' as int <= c <= 'Z' as int || 'a' as int <= c <= 'z' as int || c == UNDERSCORE
  }

  predicate Word(c: Code) {
    LetterOrUnderscore(c) || Digit(c)
  }

  /** The letters of a word, one after the other. */
  function Two(a: char, b: char, st: Symbols): Symbols {
    On(Terminal(a as int), On(Terminal(b as int), st))
  }

  function Three(a: char, b: char, c: char, st: Symbols): Symbols {
    On(Terminal(a as int), Two(b, c, st))
  }

  function Four(a: char, b: char, c: char, d: char, st: Symbols): Symbols {
    On(Terminal(a as int), Three(b, c, d, st))
  }

  // ----- the rule table -----

  /** The rules for the start of an atom. */
  function AtomRule(c: Code, after: Symbols): Step {
    if c == BACKSLASH then Swap(On(Anything, On(NT(Backslash), after)))
    else if c == OPEN_SQUARE then Swap(On(Anything, On(NT(C), after)))
    else if c == OPEN then Swap(On(Anything, On(Do(PrepareCapture), On(NT(Block), after))))
    else if c == CARET then Swap(On(Anything, On(Do(PushAssertBegin), after)))
    else if c == DOLLAR then Swap(On(Anything, On(Do(PushAssertEnd), after)))
    else if c == DOT then Swap(On(Anything, On(Do(PushCharacterAnything), after)))
    else if Quantifier(c) || c == CLOSE || c == BAR then Reject
    else Swap(On(Anything, On(Do(PushCharacter), after)))
  }

  /** Escapes that stand for one character given by a code or a letter. */
  function CodeEscape(c: Code, st: Symbols): Step {
    if c == 'u' as int then Swap(On(Anything, On(NT(K), st)))
    else if c == 'x' as int then Swap(On(Anything, On(NT(L), st)))
    else if c == 'a' as int then Swap(On(Anything, On(Do(PushCharacterAlarm), st)))
    else if c == 'e' as int then Swap(On(Anything, On(Do(PushCharacterEscape), st)))
    else if c == 'f' as int then Swap(On(Anything, On(Do(PushCharacterFormfeed), st)))
    else if c == 'n' as int then Swap(On(Anything, On(Do(PushCharacterNewline), st)))
    else if c == ZERO then Swap(On(Anything, On(Do(PushCharacterNull), st)))
    else if c == 'r' as int then Swap(On(Anything, On(Do(PushCharacterReturnCarriage), st)))
    else if c == 't' as int then Swap(On(Anything, On(Do(PushCharacterTab), st)))
    else Reject
  }

  /** Escapes for character classes, properties and numbered back references. */
  function ClassEscape(c: Code, st: Symbols): Step {
    if c == 'd' as int then Swap(On(Anything, On(Do(ClassDigit), st)))
    else if c == 'D' as int then Swap(On(Anything, On(Do(ClassNondigit), st)))
    else if c == 'N' as int then Swap(On(Anything, On(Do(ClassNonnewline), st)))
    else if c == 'S' as int then Swap(On(Anything, On(Do(ClassNonspace), st)))
    else if c == 'W' as int then Swap(On(Anything, On(Do(ClassNonword), st)))
    else if c == 's' as int then Swap(On(Anything, On(Do(ClassSpace), st)))
    else if c == 'w' as int then Swap(On(Anything, On(Do(ClassWord), st)))
    else if Digit(c) && c != ZERO then Swap(On(Anything, On(Do(CreateNumber), On(Do(MakeBackReference), st))))
    else if c == 'p' as int then Swap(On(Anything, PropertyRest(MakeProperty, st)))
    else if c == 'P' as int then Swap(On(Anything, PropertyRest(MakePropertyNegative, st)))
    else Reject
  }

  function PropertyRest(make: Action, st: Symbols): Symbols {
    On(Terminal(OPEN_CURLY), On(NT(PropertyName), On(Terminal(CLOSE_CURLY), On(Do(make), st))))
  }

  /** One more hexadecimal digit. */
  function MoreHex(st: Symbols): Symbols {
    On(AnyHexDigit, On(Do(PushHexdec), st))
  }

  /** A code in curly brackets, or one digit and the given others. */
  function HexRule(c: Code, others: Symbols, st: Symbols): Step {
    if c == OPEN_CURLY then
      Swap(On(Do(CreateHexdec), On(Anything, MoreHex(
           On(NT(HexdecRepeat), On(Terminal(CLOSE_CURLY), On(Do(FinishHexdec), st)))))))
    else if HexDigit(c) then Swap(On(Do(CreateHexdec), On(Anything, On(Do(PushHexdec), others))))
    else Reject
  }

  /** The contents of a group and what closes it. */
  function Inside(finish: Action, st: Symbols): Symbols {
    On(NT(ContentInCapture), On(Do(finish), On(Terminal(CLOSE), st)))
  }

  function ClassEnd(c: Code, st: Symbols): Symbols {
    On(Terminal(c), On(Terminal(CLOSE_SQUARE), st))
  }

  /** The names of character classes. */
  function NameRule(c: Code, st: Symbols): Step {
    if c == 'x' as int then
      Swap(On(Anything, On(Terminal('d' as int), Four('i', 'g', 'i', 't', On(Do(ClassNamedXdigit), st)))))
    else if c == 'd' as int then Swap(On(Anything, Four('i', 'g', 'i', 't', On(Do(ClassNamedDigit), st))))
    else if c == 'b' as int then Swap(On(Anything, Four('l', 'a', 'n', 'k', On(Do(ClassNamedBlank), st))))
    else if c == 'c' as int then Swap(On(Anything, Four('n', 't', 'r', 'l', On(Do(ClassNamedCntrl), st))))
    else if c == 'w' as int then Swap(On(Anything, Three('o', 'r', 'd', On(Do(ClassNamedWord), st))))
    else if c == 'l' as int then Swap(On(Anything, Four('o', 'w', 'e', 'r', On(Do(ClassNamedLower), st))))
    else if c == 's' as int then Swap(On(Anything, Four('p', 'a', 'c', 'e', On(Do(ClassNamedSpace), st))))
    else if c == 'u' as int then Swap(On(Anything, Four('p', 'p', 'e', 'r', On(Do(ClassNamedUpper), st))))
    else if c == 'g' as int then Swap(On(Anything, Four('r', 'a', 'p', 'h', On(Do(ClassNamedGraph), st))))
    else if c == 'a' as int then Swap(On(Anything, On(NT(G), st)))
    else if c == 'p' as int then Swap(On(Anything, On(NT(H), st)))
    else Reject
  }

  /** The rules for escapes, properties and class names. */
  function EscapeRule(n: Nonterminal, c: Code, st: Symbols): Step {
    match n
    case Backslash =>
      if c == 'g' as int then Swap(On(Anything, On(Terminal(OPEN_CURLY), On(NT(M), st))))
      else if Metacharacter(c) || c == MINUS then Swap(On(Anything, On(Do(PushCharacter), st)))
      else if CodeEscape(c, st).Swap? then CodeEscape(c, st)
      else ClassEscape(c, st)
    case BackslashRange =>
      if c == MINUS then Swap(On(Anything, On(Do(PushCharacter), st)))
      else CodeEscape(c, st)
    case ClassNamedName => NameRule(c, st)
    case E =>
      if c == MINUS then Swap(On(Anything, On(NT(Q), st)))
      else if Metacharacter(c) then Swap(On(Anything, On(Do(PushCharacter), st)))
      else if CodeEscape(c, st).Swap? then CodeEscape(c, On(NT(Range), st))
      else ClassEscape(c, st)
    case F =>
      if c == MINUS then Swap(On(Anything, On(NT(R), st)))
      else if Metacharacter(c) then Swap(On(Anything, On(Do(PushCharacter), st)))
      else if CodeEscape(c, st).Swap? then CodeEscape(c, On(NT(Range), st))
      else ClassEscape(c, st)
    case G =>
      if c == 's' as int then Swap(On(Anything, Three('c', 'i', 'i', On(Do(ClassNamedAscii), st))))
      else if c == 'l' as int then Swap(On(Anything, On(NT(O), st)))
      else Reject
    case H =>
      if c == 'r' as int then Swap(On(Anything, Three('i', 'n', 't', On(Do(ClassNamedPrint), st))))
      else if c == 'u' as int then Swap(On(Anything, Three('n', 'c', 't', On(Do(ClassNamedPunct), st))))
      else Reject
    case HexdecRepeat =>
      if c == CLOSE_CURLY then Keep
      else if HexDigit(c) then Swap(On(Anything, On(Do(PushHexdec), On(NT(HexdecRepeat), st))))
      else Reject
    case K => HexRule(c, MoreHex(MoreHex(MoreHex(On(Do(FinishHexdec), st)))), st)
    case L => HexRule(c, MoreHex(On(Do(FinishHexdec), st)), st)
    case M =>
      if LetterOrUnderscore(c) then Swap(On(NT(BlockName), On(Terminal(CLOSE_CURLY), On(Do(MakeBackReference), st))))
      else if c == MINUS then
        Swap(On(Anything, On(NT(Number), On(Terminal(CLOSE_CURLY), On(Do(MakeRelativeBackReference), st)))))
      else if Digit(c) then Swap(On(NT(Number), On(Terminal(CLOSE_CURLY), On(Do(MakeBackReference), st))))
      else Reject
    case O =>
      if c == 'p' as int then Swap(On(Anything, Two('h', 'a', On(Do(ClassNamedAlpha), st))))
      else if c == 'n' as int then Swap(On(Anything, Two('u', 'm', On(Do(ClassNamedAlnum), st))))
      else Reject
    case P =>
      if NameRule(c, st).Swap? then Swap(On(NT(ClassNamedName), ClassEnd(COLON, st)))
      else if c == CARET then Swap(On(Anything, On(NT(ClassNamedName), On(Do(NegateClassNamed), ClassEnd(COLON, st)))))
      else Reject
    case PropertyName2 =>
      if c == CLOSE_CURLY then Keep
      else if c == EQUAL then Swap(On(Anything, On(NT(PropertyValue), st)))
      else if Word(c) || c == DOT then Swap(On(Anything, On(Do(PushPropertyName), On(NT(PropertyName2), st))))
      else Reject
    case PropertyName =>
      if Word(c) || c == DOT then Swap(On(Anything, On(Do(PushPropertyName), On(NT(PropertyName2), st))))
      else Reject
    case PropertyValue2 =>
      if c == CLOSE_CURLY then Keep
      else if Word(c) || c == DOT then Swap(On(Anything, On(Do(PushPropertyValue), On(NT(PropertyValue2), st))))
      else Reject
    case PropertyValue =>
      if Word(c) || c == DOT then Swap(On(Anything, On(Do(PushPropertyValue), On(NT(PropertyValue2), st))))
      else Reject
    case _ => Reject
  }

  /** The rules for character sets. */
  function SetRule(n: Nonterminal, c: Code, st: Symbols): Step {
    match n
    case C =>
      if c == CARET then Swap(On(Anything, On(NT(Set2a), On(Do(SetMakeNegative), On(Terminal(CLOSE_SQUARE), st)))))
      else if c == MINUS || c == CLOSE_SQUARE || c == BAR then Reject
      else Swap(On(NT(Set), On(Do(SetMake), On(Terminal(CLOSE_SQUARE), st))))
    case CharacterClass =>
      if c == OPEN_SQUARE then Swap(On(Anything, On(NT(C), st)))
      else Reject
    case ClassNamed =>
      if c == OPEN_SQUARE then Swap(On(Anything, On(NT(I), st)))
      else Reject
    case CollateChar => Swap(On(Anything, On(Do(PushCharacter), st)))
    case I =>
      if c == EQUAL then Swap(On(Anything, On(NT(CollateChar), On(Do(EquivalentCharacter), ClassEnd(EQUAL, st)))))
      else if c == COLON then Swap(On(Anything, On(NT(P), st)))
      else Reject
    case J =>
      if c == BACKSLASH then Swap(On(Anything, On(NT(BackslashRange), On(Do(MakeRange), st))))
      else if c == MINUS || c == OPEN_SQUARE || c == CLOSE_SQUARE || c == CARET || c == BAR then Reject
      else Swap(On(Anything, On(Do(PushCharacter), On(Do(MakeRange), st))))
    case Q =>
      if c == MINUS then Swap(On(Do(PushCharacter), On(Anything, On(NT(J), st))))
      else if c == BAR then Reject
      else Swap(On(Do(PushCharacter), st))
    case R =>
      if c == MINUS then Swap(On(Do(PushCharacter), On(Anything, On(NT(J), st))))
      else if c == BAR then Reject
      else Swap(On(Do(PushCharacter), st))
    case Range =>
      if c == MINUS then Swap(On(Anything, On(NT(J), st)))
      else if c == BAR then Reject
      else Keep
    case Set =>
      if c == MINUS || c == CLOSE_SQUARE || c == CARET || c == BAR then Reject
      else Swap(On(NT(Setitem), On(Do(SetStart), On(NT(Set2b), st))))
    case Set2a =>
      if c == CLOSE_SQUARE then Keep
      else if c == MINUS || c == BAR then Reject
      else Swap(On(NT(Setitem2), On(Do(SetStart), On(NT(Set2b), st))))
    case Set2b =>
      if c == CLOSE_SQUARE then Keep
      else if c == MINUS || c == BAR then Reject
      else Swap(On(NT(Setitem2), On(Do(SetCombine), On(NT(Set2b), st))))
    case Setitem =>
      if c == OPEN_SQUARE then Swap(On(NT(ClassNamed), On(NT(Range), st)))
      else if c == BACKSLASH then Swap(On(Anything, On(NT(E), st)))
      else if c == MINUS || c == CLOSE_SQUARE || c == CARET || c == BAR then Reject
      else Swap(On(Anything, On(Do(PushCharacter), On(NT(Range), st))))
    case Setitem2 =>
      if c == OPEN_SQUARE then Swap(On(NT(ClassNamed), On(NT(Range), st)))
      else if c == BACKSLASH then Swap(On(Anything, On(NT(F), st)))
      else if c == MINUS || c == CLOSE_SQUARE || c == BAR then Reject
      else Swap(On(Anything, On(Do(PushCharacter), On(NT(Range), st))))
    case _ => EscapeRule(n, c, st)
  }

  /** `rule(n, term<c>)`, applied to the stack (n, st...). */
  function Rule(n: Nonterminal, c: Code, st: Symbols): Step {
    match n
    case Start => AtomRule(c, On(NT(Repeat), On(NT(String2), On(NT(Content2), st))))
    case A =>
      if c == CLOSE then Swap(On(Do(PushEmpty), On(Do(MakeAlternate), st)))
      else if Quantifier(c) || c == BAR then Reject
      else Swap(On(NT(Content), On(Do(MakeAlternate), st)))
    case AtomRepeat =>
      if c == OPEN_SQUARE then Swap(On(NT(CharacterClass), On(NT(Repeat), st)))
      else AtomRule(c, On(NT(Repeat), st))
    case B =>
      if c == COMMA then Swap(On(Anything, On(NT(N), st)))
      else if c == CLOSE_CURLY then Swap(On(Do(RepeatExactly), On(Anything, st)))
      else Reject
    case Block =>
      if c == QUESTION then Swap(On(Anything, On(NT(D), st)))
      else if c == STAR || c == PLUS || c == OPEN_CURLY || c == BAR || c == CLOSE_CURLY then Reject
      else Swap(Inside(MakeCapture, st))
    case BlockName =>
      if LetterOrUnderscore(c) then Swap(On(Anything, On(Do(PushName), On(NT(BlockName2), st))))
      else Reject
    case BlockName2 =>
      if c == GREATER || c == CLOSE_CURLY then Keep
      else if Word(c) then Swap(On(Anything, On(Do(PushName), On(NT(BlockName2), st))))
      else Reject
    case Content => AtomRule(c, On(NT(Repeat), On(NT(String2), On(NT(Content2), st))))
    case Content2 =>
      if c == CLOSE then Keep
      else if c == BAR then Swap(On(Anything, On(NT(A), st)))
      else Reject
    case ContentInCapture =>
      if c == CLOSE then Swap(On(Do(PushEmpty), st))
      else AtomRule(c, On(NT(Repeat), On(NT(String2), On(NT(Content2), st))))
    case D =>
      if c == LESS then Swap(On(Anything, On(NT(BlockName), On(Terminal(GREATER), Inside(MakeCaptureWithName, st)))))
      else if c == COLON then
        Swap(On(Do(ResetCapture), On(Anything, On(NT(ContentInCapture), On(Terminal(CLOSE), st)))))
      else if c == EXCLAMATION then
        Swap(On(Do(ResetCapture), On(Anything, On(Do(StartLookaheadNegative), Inside(LookFinish, st)))))
      else if c == EQUAL then
        Swap(On(Do(ResetCapture), On(Anything, On(Do(StartLookaheadPositive), Inside(LookFinish, st)))))
      else Reject
    case Mod =>
      if c == QUESTION then Swap(On(Anything, On(Do(MakeLazy), st)))
      else if c == PLUS then Swap(On(Anything, On(Do(MakePossessive), st)))
      else if c == STAR || c == OPEN_CURLY || c == CLOSE_CURLY then Reject
      else Keep
    case ModOpt =>
      if c == QUESTION then Swap(On(Anything, On(Do(MakeLazy), st)))
      else if c == STAR || c == PLUS || c == OPEN_CURLY || c == CLOSE_CURLY then Reject
      else Keep
    case N =>
      if Digit(c) then Swap(On(NT(Number), On(Do(RepeatAb), On(Terminal(CLOSE_CURLY), On(NT(Mod), st)))))
      else if c == CLOSE_CURLY then Swap(On(Do(RepeatAtLeast), On(Anything, On(NT(Mod), st))))
      else Reject
    case Number =>
      if Digit(c) then Swap(On(Anything, On(Do(CreateNumber), On(NT(Number2), st))))
      else Reject
    case Number2 =>
      if c == COMMA || c == CLOSE_CURLY then Keep
      else if Digit(c) then Swap(On(Anything, On(Do(PushNumber), On(NT(Number2), st))))
      else Reject
    case Repeat =>
      if c == QUESTION then Swap(On(Anything, On(Do(MakeOptional), On(NT(ModOpt), st))))
      else if c == OPEN_CURLY then Swap(On(Anything, On(NT(Number), On(NT(B), st))))
      else if c == PLUS then Swap(On(Anything, On(Do(RepeatPlus), On(NT(Mod), st))))
      else if c == STAR then Swap(On(Anything, On(Do(RepeatStar), On(NT(Mod), st))))
      else if c == CLOSE_CURLY then Reject
      else Keep
    case String2 =>
      if c == CLOSE || c == BAR then Keep
      else if Quantifier(c) then Reject
      else Swap(On(NT(AtomRepeat), On(NT(String2), On(Do(MakeSequence), st))))
    case _ => SetRule(n, c, st)
  }

  /** `rule(n, epsilon)`. */
  function RuleAtEnd(n: Nonterminal, st: Symbols): Step {
    match n
    case Start => Swap(On(Do(PushEmpty), st))
    case A => Swap(On(Do(PushEmpty), On(Do(MakeAlternate), st)))
    case Q => Swap(On(Do(PushCharacter), st))
    case R => Swap(On(Do(PushCharacter), st))
    case Content2 => Keep
    case Mod => Keep
    case ModOpt => Keep
    case Range => Keep
    case Repeat => Keep
    case String2 => Keep
    case _ => Reject
  }
}
