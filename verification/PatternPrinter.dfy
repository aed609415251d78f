/** Patterns as a reader writes them: their text, their language and their capturing groups. */
module PatternPrinter {
  import opened RegexSyntax
  import PatternGrammar

  type Text = PatternGrammar.Text

  /** Alternatives; an empty one can only stand last. */
  datatype Pattern = Void | Branch(terms: Terms) | Either(terms: Terms, others: Pattern)

  /** What is concatenated. */
  datatype Terms = Last(term: Term) | Then(term: Term, others: Terms)

  datatype Term = Term(atom: Atom, times: Times)

  datatype Times =
    | Once
    | ZeroOrOne(lazy: bool)
    | ZeroOrMore(mode: Mode)
    | OneOrMore(mode: Mode)
    | Exactly(n: nat)
    | AtLeast(n: nat, mode: Mode)
    | Between(a: nat, b: nat, mode: Mode)

  datatype Atom =
    | Literal(c: Code)
    | Dot
    | Class(letter: Letter)
    | LineStart
    | LineEnd
    | Group(inside: Pattern)
    | NonCapturing(inside: Pattern)

  datatype Letter = D | NotD | S | NotS | W | NotW | NotNewline

  // ----- the text of a pattern, followed by k -----

  function Char(c: Code, k: Text): Text {
    PatternGrammar.Next(c, k)
  }

  function LetterOf(letter: Letter): Code {
    match letter
    case D => 'd' as int
    case NotD => 'D' as int
    case S => 's' as int
    case NotS => 'S' as int
    case W => 'w' as int
    case NotW => 'W' as int
    case NotNewline => 'N' as int
  }

  function PrintAtom(a: Atom, k: Text): (r: Text)
    ensures r.Next?
    decreases a
  {
    match a
    case Literal(c) =>
      if PatternGrammar.Metacharacter(c) then Char(PatternGrammar.BACKSLASH, Char(c, k)) else Char(c, k)
    case Dot => Char(PatternGrammar.DOT, k)
    case Class(letter) => Char(PatternGrammar.BACKSLASH, Char(LetterOf(letter), k))
    case LineStart => Char(PatternGrammar.CARET, k)
    case LineEnd => Char(PatternGrammar.DOLLAR, k)
    case Group(p) => Char(PatternGrammar.OPEN, Print(p, Char(PatternGrammar.CLOSE, k)))
    case NonCapturing(p) =>
      Char(PatternGrammar.OPEN, Char(PatternGrammar.QUESTION, Char(PatternGrammar.COLON,
        Print(p, Char(PatternGrammar.CLOSE, k)))))
  }

  function PrintMode(mode: Mode, k: Text): Text {
    match mode
    case Greedy => k
    case Lazy => Char(PatternGrammar.QUESTION, k)
    case Possessive => Char(PatternGrammar.PLUS, k)
  }

  /** A decimal number. */
  function PrintNumber(n: nat, k: Text): (r: Text)
    ensures r.Next?
  {
    if n < 10 then Char(48 + n, k) else PrintNumber(n / 10, Char(48 + n % 10, k))
  }

  function PrintTimes(times: Times, k: Text): Text {
    match times
    case Once => k
    case ZeroOrOne(lazy) => Char(PatternGrammar.QUESTION, PrintMode(if lazy then Lazy else Greedy, k))
    case ZeroOrMore(mode) => Char(PatternGrammar.STAR, PrintMode(mode, k))
    case OneOrMore(mode) => Char(PatternGrammar.PLUS, PrintMode(mode, k))
    case Exactly(n) =>
      Char(PatternGrammar.OPEN_CURLY, PrintNumber(n, Char(PatternGrammar.CLOSE_CURLY, k)))
    case AtLeast(n, mode) =>
      Char(PatternGrammar.OPEN_CURLY, PrintNumber(n, Char(PatternGrammar.COMMA,
        Char(PatternGrammar.CLOSE_CURLY, PrintMode(mode, k)))))
    case Between(a, b, mode) =>
      Char(PatternGrammar.OPEN_CURLY, PrintNumber(a, Char(PatternGrammar.COMMA,
        PrintNumber(b, Char(PatternGrammar.CLOSE_CURLY, PrintMode(mode, k))))))
  }

  function PrintTerms(ts: Terms, k: Text): (r: Text)
    ensures r.Next?
    decreases ts
  {
    match ts
    case Last(t) => PrintAtom(t.atom, PrintTimes(t.times, k))
    case Then(t, others) => PrintAtom(t.atom, PrintTimes(t.times, PrintTerms(others, k)))
  }

  function Print(p: Pattern, k: Text): Text
    decreases p
  {
    match p
    case Void => k
    case Branch(ts) => PrintTerms(ts, k)
    case Either(ts, others) => PrintTerms(ts, Char(PatternGrammar.BAR, Print(others, k)))
  }

  // ----- the language of a pattern -----

  predicate InClass(letter: Letter, c: Code) {
    var digit := 48 <= c <= 57;
    var space := c == 32 || 9 <= c <= 13;
    var word := digit || 65 <= c <= 90 || 97 <= c <= 122 || c == 95;
    match letter
    case D => digit
    case NotD => !digit
    case S => space
    case NotS => !space
    case W => word
    case NotW => !word
    case NotNewline => c != 10
  }

  ghost predicate AtomSpans(a: Atom, s: seq<Code>, i: nat, j: nat)
    decreases a, 0
  {
    i <= j <= |s| &&
    match a
    case Literal(c) => j == i + 1 && s[i] == c
    case Dot => j == i + 1
    case Class(letter) => j == i + 1 && InClass(letter, s[i])
    case LineStart => i == j == 0
    case LineEnd => i == j == |s|
    case Group(p) => PatternSpans(p, s, i, j)
    case NonCapturing(p) => PatternSpans(p, s, i, j)
  }

  /** n copies of the atom in a row. */
  ghost predicate AtomTimes(a: Atom, n: nat, s: seq<Code>, i: nat, j: nat)
    decreases a, 1, n
  {
    if n == 0 then i == j <= |s|
    else exists m: nat :: AtomSpans(a, s, i, m) && AtomTimes(a, n - 1, s, m, j)
  }

  ghost predicate TermSpans(t: Term, s: seq<Code>, i: nat, j: nat)
    decreases t, 0
  {
    match t.times
    case Once => AtomSpans(t.atom, s, i, j)
    case ZeroOrOne(_) => i == j <= |s| || AtomSpans(t.atom, s, i, j)
    case ZeroOrMore(_) => exists n: nat :: AtomTimes(t.atom, n, s, i, j)
    case OneOrMore(_) => exists n: nat :: n >= 1 && AtomTimes(t.atom, n, s, i, j)
    case Exactly(n) => AtomTimes(t.atom, n, s, i, j)
    case AtLeast(a, _) => exists n: nat :: n >= a && AtomTimes(t.atom, n, s, i, j)
    case Between(a, b, _) => exists n: nat :: a <= n <= b && AtomTimes(t.atom, n, s, i, j)
  }

  ghost predicate TermsSpan(ts: Terms, s: seq<Code>, i: nat, j: nat)
    decreases ts, 0
  {
    match ts
    case Last(t) => TermSpans(t, s, i, j)
    case Then(t, others) => exists m: nat :: TermSpans(t, s, i, m) && TermsSpan(others, s, m, j)
  }

  /** s[i..j] is in the language of the pattern. */
  ghost predicate PatternSpans(p: Pattern, s: seq<Code>, i: nat, j: nat)
    decreases p, 0
  {
    match p
    case Void => i == j <= |s|
    case Branch(ts) => TermsSpan(ts, s, i, j)
    case Either(ts, others) => TermsSpan(ts, s, i, j) || PatternSpans(others, s, i, j)
  }

  // ----- the capturing groups, in the order of their opening parentheses -----

  function AtomGroups(a: Atom): seq<Pattern>
    decreases a
  {
    match a
    case Group(p) => [p] + Groups(p)
    case NonCapturing(p) => Groups(p)
    case _ => []
  }

  function TermsGroups(ts: Terms): seq<Pattern>
    decreases ts
  {
    match ts
    case Last(t) => AtomGroups(t.atom)
    case Then(t, others) => AtomGroups(t.atom) + TermsGroups(others)
  }

  function Groups(p: Pattern): seq<Pattern>
    decreases p
  {
    match p
    case Void => []
    case Branch(ts) => TermsGroups(ts)
    case Either(ts, others) => TermsGroups(ts) + Groups(others)
  }
}
