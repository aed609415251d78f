/** The pattern trees of the compile-time regex engine and the continuation stacks its matcher runs on. */
module RegexSyntax {

  /** A character of a pattern or of a subject: any value of a character type of at most 32 bits. */
  type Code = c: int | -0x8000_0000 <= c <= 0xFFFF_FFFF

  /** The one-character matchers that may stand inside a negated set. */
  datatype Plain =
    | Character(value: Code)
    | CharRange(low: Code, high: Code)
    | Enumeration(values: seq<Code>)
    | PlainSet(items: seq<Plain>)

  /** The one-character matchers, `any` excepted (see `AnyCharacter` below). */
  datatype Matcher =
    | Simple(plain: Plain)
    | NegativeSet(excluded: seq<Plain>)
    | Set(members: seq<Matcher>)

  /** `match_char` of a plain matcher. */
  predicate PlainAccepts(p: Plain, c: Code)
    decreases p
  {
    match p
    case Character(v) => c == v
    case CharRange(low, high) => low <= c && c <= high
    case Enumeration(values) => c in values
    case PlainSet(items) => exists i | 0 <= i < |items| :: PlainAccepts(items[i], c)
  }

  predicate AnyPlainAccepts(items: seq<Plain>, c: Code) {
    exists i | 0 <= i < |items| :: PlainAccepts(items[i], c)
  }

  /** `match_char`. */
  predicate Accepts(m: Matcher, c: Code)
    decreases m
  {
    match m
    case Simple(p) => PlainAccepts(p, c)
    case NegativeSet(excluded) => !AnyPlainAccepts(excluded, c)
    case Set(members) => exists i | 0 <= i < |members| :: Accepts(members[i], c)
  }

  /** The named classes, as the source spells them. */
  const DIGIT_CHARS := CharRange(48, 57)
  const SPACE_CHARS := Enumeration([32, 9, 10, 11, 12, 13])
  const WORD_CHARS := PlainSet([CharRange(65, 90), CharRange(97, 122), CharRange(48, 57), Character(95)])

  datatype Mode = Greedy | Lazy | Possessive

  /** The regex tree. A bound `b == 0` on a repeat means "no upper bound". */
  datatype Re =
    | One(matcher: Matcher)
    | AnyCharacter
    | Str(text: seq<Code>)
    | Select(options: Res)
    | Optional(content: Res)
    | LazyOptional(content: Res)
    | Sequence(content: Res)
    | Empty
    | Plus(mode: Mode, content: Res)
    | Star(mode: Mode, content: Res)
    | Repeat(mode: Mode, a: nat, b: nat, content: Res)
    | Capture(id: nat, content: Res)
    | AssertBegin
    | AssertEnd

  /** The trees that hold a list of others, alternatives excepted. */
  predicate HasContent(re: Re) {
    re.Optional? || re.LazyOptional? || re.Sequence? || re.Plus? || re.Star? || re.Repeat? || re.Capture?
  }

  /** A non-empty template pack of trees. */
  datatype Res = Single(re: Re) | Cons(head: Re, tail: Res)

  /** What remains to be matched. `Finish` is the pair (end_mark, accept), `EndCycle` is end_cycle_mark and
      `Close` is numeric_mark. */
  datatype Stack =
    | Finish
    | EndCycle
    | Close(id: nat, below: Stack)
    | Push(top: Re, below: Stack)

  /** The stack (Content..., Tail...). */
  function PushAll(content: Res, st: Stack): Stack {
    match content
    case Single(re) => Push(re, st)
    case Cons(h, t) => Push(h, PushAll(t, st))
  }

  // ----- sizes, used as termination measures -----

  function Size(re: Re): (n: nat)
    ensures n >= 1
    decreases re
  {
    match re
    case Select(options) => 1 + SizeAll(options)
    case Optional(c) => 2 + SizeAll(c)
    case LazyOptional(c) => 2 + SizeAll(c)
    case Sequence(c) => 1 + SizeAll(c)
    case Plus(_, c) => 5 + SizeAll(c)
    case Star(_, c) => 5 + SizeAll(c)
    case Repeat(mode, _, _, c) => (if mode == Greedy then 4 else 3) + SizeAll(c)
    case Capture(_, c) => 3 + SizeAll(c)
    case _ => 1
  }

  function SizeAll(content: Res): (n: nat)
    ensures n >= 2
    decreases content
  {
    match content
    case Single(re) => 1 + Size(re)
    case Cons(h, t) => 1 + Size(h) + SizeAll(t)
  }

  function StackSize(st: Stack): (n: nat)
    ensures n >= 1
  {
    match st
    case Finish => 1
    case EndCycle => 1
    case Close(_, below) => 1 + StackSize(below)
    case Push(re, below) => Size(re) + StackSize(below)
  }

  lemma PushAllSize(content: Res, st: Stack)
    ensures StackSize(PushAll(content, st)) < SizeAll(content) + StackSize(st)
    decreases content
  {
    match content
    case Single(_) =>
    case Cons(_, t) => PushAllSize(t, st);
  }
}
