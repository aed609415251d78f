/** The semantic actions `pcre_actions`, as far as they build trees without sets, names, codes and look-ahead. */
module PatternActions {
  import opened Options
  import opened RegexSyntax
  import opened PatternGrammar
  import opened PatternParser

  /** The work stack of the actions. */
  datatype Items =
    | Nothing
    | Tree(re: Re, below: Items)
    | GroupId(id: nat, below: Items)
    | Numeral(n: nat, below: Items)

  /** `pcre_context`; `Outside` when an action was met that this model does not follow. */
  datatype Subject = Context(items: Items, counter: nat) | Outside

  /** Numbers are of type size_t. */
  const SIZE_LIMIT: nat := 0x1_0000_0000_0000_0000

  predicate IsCharacter(re: Re) {
    re.One? && re.matcher.Simple? && re.matcher.plain.Character?
  }

  /** The trees that a tree contributes to the construct around it. */
  function Unpacked(re: Re): Res {
    if re.Sequence? then re.content else Single(re)
  }

  /** `make_sequence`: characters grow into strings, and a sequence on the right is taken apart. */
  function MakeSequenceOf(a: Re, b: Re): Re {
    if IsCharacter(a) && IsCharacter(b) then Str([a.matcher.plain.value, b.matcher.plain.value])
    else if IsCharacter(a) && b.Str? then Str([a.matcher.plain.value] + b.text)
    else Re.Sequence(Cons(a, Unpacked(b)))
  }

  /** `make_alternate`: a choice on the right is taken apart. */
  function MakeAlternateOf(a: Re, b: Re): Re {
    Select(Cons(a, if b.Select? then b.options else Single(b)))
  }

  function PushTree(s: Subject, re: Re): Applied<Subject>
    requires s.Context?
  {
    Done(Context(Tree(re, s.items), s.counter))
  }

  /** Replaces the tree on top. */
  function ReplaceTree(s: Subject, re: Re): Applied<Subject>
    requires s.Context? && s.items.Tree?
  {
    Done(Context(Tree(re, s.items.below), s.counter))
  }

  /** `make_lazy` and `make_possessive`. */
  function SetMode(re: Re, mode: Mode): Option<Re> {
    match re
    case Optional(c) => if mode == Lazy then Some(LazyOptional(c)) else None
    case Plus(Greedy, c) => Some(Plus(mode, c))
    case Star(Greedy, c) => Some(Star(mode, c))
    case Repeat(Greedy, a, b, c) => Some(Re.Repeat(mode, a, b, c))
    case _ => None
  }

  /** `pcre_actions::apply`. */
  function Apply(action: Action, previous: Option<Code>, s: Subject): Applied<Subject> {
    if s.Outside? then Done(s)
    else if previous.None? then
      if action.PushEmpty? && s.items.Nothing? then PushTree(s, Empty) else NoOverload
    else
      match action
      case PushCharacter => PushTree(s, One(Simple(Character(previous.value))))
      case PushCharacterAnything => PushTree(s, AnyCharacter)
      case PushAssertBegin => PushTree(s, AssertBegin)
      case PushAssertEnd => PushTree(s, AssertEnd)
      case ClassDigit => PushTree(s, One(Matcher.Set([Simple(DIGIT_CHARS)])))
      case ClassNondigit => PushTree(s, One(NegativeSet([DIGIT_CHARS])))
      case ClassSpace => PushTree(s, One(Matcher.Set([Simple(SPACE_CHARS)])))
      case ClassNonspace => PushTree(s, One(NegativeSet([SPACE_CHARS])))
      case ClassWord => PushTree(s, One(Matcher.Set([Simple(WORD_CHARS)])))
      case ClassNonword => PushTree(s, One(NegativeSet([WORD_CHARS])))
      case ClassNonnewline => PushTree(s, One(NegativeSet([Character(10)])))
      case PushEmpty => PushTree(s, Empty)
      case PrepareCapture => Done(Context(GroupId(s.counter + 1, s.items), s.counter + 1))
      case ResetCapture =>
        if s.items.GroupId? && s.counter >= 1 then Done(Context(s.items.below, s.counter - 1)) else NoOverload
      case MakeCapture =>
        if s.items.Tree? && s.items.below.GroupId? then
          Done(Context(Tree(Capture(s.items.below.id, Unpacked(s.items.re)), s.items.below.below), s.counter))
        else NoOverload
      case MakeOptional => if s.items.Tree? then ReplaceTree(s, Optional(Unpacked(s.items.re))) else NoOverload
      case RepeatPlus => if s.items.Tree? then ReplaceTree(s, Plus(Greedy, Unpacked(s.items.re))) else NoOverload
      case RepeatStar => if s.items.Tree? then ReplaceTree(s, Star(Greedy, Unpacked(s.items.re))) else NoOverload
      case CreateNumber => Done(Context(Numeral(DigitOf(previous.value), s.items), s.counter))
      case PushNumber =>
        if s.items.Numeral? then
          Done(Context(Numeral((s.items.n * 10 + DigitOf(previous.value)) % SIZE_LIMIT, s.items.below), s.counter))
        else NoOverload
      case RepeatAb =>
        if s.items.Numeral? && s.items.below.Numeral? then
          Counted(s.items.below.n, s.items.n, s.items.below.below, s.counter)
        else NoOverload
      case RepeatExactly =>
        if s.items.Numeral? then Counted(s.items.n, s.items.n, s.items.below, s.counter) else NoOverload
      case RepeatAtLeast =>
        if s.items.Numeral? then Counted(s.items.n, 0, s.items.below, s.counter) else NoOverload
      case MakeLazy => Changed(s, Lazy)
      case MakePossessive => Changed(s, Possessive)
      case MakeSequence =>
        if TwoTrees(s.items) then
          Done(Context(Tree(MakeSequenceOf(s.items.below.re, s.items.re), s.items.below.below), s.counter))
        else NoOverload
      case MakeAlternate =>
        if TwoTrees(s.items) then
          Done(Context(Tree(MakeAlternateOf(s.items.below.re, s.items.re), s.items.below.below), s.counter))
        else NoOverload
      case _ => Done(Outside)
  }

  /** `V - '0'` in the type size_t. */
  function DigitOf(c: Code): nat {
    (c - 48) % SIZE_LIMIT
  }

  /** A repeat with bounds a and b; 0 as the upper bound means that there is none. */
  function Counted(a: nat, b: nat, items: Items, counter: nat): Applied<Subject> {
    if items.Tree? then Done(Context(Tree(Re.Repeat(Greedy, a, b, Unpacked(items.re)), items.below), counter))
    else NoOverload
  }

  predicate TwoTrees(items: Items) {
    items.Tree? && items.below.Tree?
  }

  function Changed(s: Subject, mode: Mode): Applied<Subject>
    requires s.Context?
  {
    if s.items.Tree? && SetMode(s.items.re, mode).Some? then ReplaceTree(s, SetMode(s.items.re, mode).value)
    else NoOverload
  }

  /** The parser of patterns. */
  function Parse(text: Text): Results<Subject> {
    Trampoline(Apply, text, Context(Nothing, 0))
  }
}
