/** The LL(1) machine `ctll::parser` over that grammar, for any semantic actions. */
module PatternParser {
  import opened Options
  import opened PatternGrammar

  /** The result of a semantic action: a new subject, a rejection, or no overload that fits (an ill-formed program). */
  datatype Applied<S> = Done(subject: S) | Refused | NoOverload

  datatype Decision = Rejected | Accepted | Undecided | IllFormed

  /** `results`: where the machine stands. `previous` is the character before the position. */
  datatype Results<S> =
    Results(previous: Option<Code>, text: Text, stack: Symbols, subject: S, decision: Decision)

  // ----- why one round of the machine ends -----

  /** The nonterminals that can leave the stack without a character being read. */
  predicate Nullable(n: Nonterminal) {
    match n
    case Start => true
    case A => true
    case BlockName2 => true
    case Content2 => true
    case ContentInCapture => true
    case HexdecRepeat => true
    case Mod => true
    case ModOpt => true
    case Number2 => true
    case PropertyName2 => true
    case PropertyValue2 => true
    case Q => true
    case R => true
    case Range => true
    case Repeat => true
    case Set2a => true
    case Set2b => true
    case String2 => true
    case _ => false
  }

  /** A bound on the expansions below n before a character must be read. */
  function Weight(n: Nonterminal): (w: nat)
    ensures 2 <= w <= 5
  {
    match n
    case Block => 5
    case C => 5
    case Set => 4
    case Set2a => 4
    case Set2b => 4
    case String2 => 4
    case A => 3
    case AtomRepeat => 3
    case B => 3
    case D => 3
    case K => 3
    case L => 3
    case M => 3
    case N => 3
    case P => 3
    case Q => 3
    case R => 3
    case Setitem => 3
    case Setitem2 => 3
    case _ => 2
  }

  /** The weights up to the first symbol that cannot leave the stack without a character being read. */
  function Rank(st: Symbols): nat {
    match st
    case Bottom => 0
    case On(Do(_), below) => 1 + Rank(below)
    case On(NT(n), below) => Weight(n) + if Nullable(n) then Rank(below) else 0
    case On(_, _) => 1
  }

  /** Rule (n, c) reads the character, or lowers the rank, or gives up. */
  predicate Lowers(n: Nonterminal, c: Code, st: Symbols) {
    match Rule(n, c, st)
    case Reject => true
    case Keep => Nullable(n)
    case Swap(st') => st'.On? && (st'.top.Anything? || Rank(st') < Rank(On(NT(n), st)))
  }

  /** The rank, symbol by symbol. */
  lemma Ranks()
    ensures forall a, st :: Rank(On(Do(a), st)) == 1 + Rank(st)
    ensures forall n, st :: Rank(On(NT(n), st)) == Weight(n) + if Nullable(n) then Rank(st) else 0
    ensures forall c, st :: Rank(On(Terminal(c), st)) == 1
    ensures forall st :: Rank(On(AnyHexDigit, st)) == 1 && Rank(On(Anything, st)) == 1
  {
  }

  lemma BranchLowers(c: Code, st: Symbols)
    ensures Lowers(A, c, st)
  {
    Ranks();
    hide Rank, SetRule, AtomRule;
  }

  lemma CaptureLowers(c: Code, st: Symbols)
    ensures Lowers(ContentInCapture, c, st)
  {
    Ranks();
    hide Rank, SetRule, AtomRule;
    ReadFirst(c, On(NT(Repeat), On(NT(String2), On(NT(Content2), st))));
  }

  lemma GroupsLower(c: Code, st: Symbols)
    ensures Lowers(Block, c, st) && Lowers(D, c, st)
  {
    Ranks();
    hide Rank, SetRule, AtomRule;
  }

  lemma TermsLower(c: Code, st: Symbols)
    ensures Lowers(AtomRepeat, c, st) && Lowers(String2, c, st)
  {
    Ranks();
    hide Rank, SetRule;
  }

  lemma BoundsLower(c: Code, st: Symbols)
    ensures Lowers(B, c, st) && Lowers(N, c, st)
  {
    Ranks();
    hide Rank, SetRule, AtomRule;
  }

  lemma ClassLowers(c: Code, st: Symbols)
    ensures Lowers(C, c, st)
  {
    Ranks();
    hide Rank, EscapeRule, AtomRule, Digit, HexDigit, LetterOrUnderscore;
  }

  lemma SetLowers(c: Code, st: Symbols)
    ensures Lowers(Set, c, st)
  {
    Ranks();
    hide Rank, EscapeRule, AtomRule, Digit, HexDigit, LetterOrUnderscore;
  }

  lemma FirstItemLowers(c: Code, st: Symbols)
    ensures Lowers(Set2a, c, st)
  {
    Ranks();
    hide Rank, EscapeRule, AtomRule, Digit, HexDigit, LetterOrUnderscore;
  }

  lemma NextItemLowers(c: Code, st: Symbols)
    ensures Lowers(Set2b, c, st)
  {
    Ranks();
    hide Rank, EscapeRule, AtomRule, Digit, HexDigit, LetterOrUnderscore;
  }

  lemma FirstMemberLowers(c: Code, st: Symbols)
    ensures Lowers(Setitem, c, st)
  {
    Ranks();
    hide Rank, EscapeRule, AtomRule, Digit, HexDigit, LetterOrUnderscore;
  }

  lemma NextMemberLowers(c: Code, st: Symbols)
    ensures Lowers(Setitem2, c, st)
  {
    Ranks();
    hide Rank, EscapeRule, AtomRule, Digit, HexDigit, LetterOrUnderscore;
  }

  lemma CodesLower(c: Code, st: Symbols)
    ensures Lowers(K, c, st) && Lowers(L, c, st)
  {
    Ranks();
    hide Rank, AtomRule, CodeEscape, ClassEscape;
  }

  lemma NamesLower(c: Code, st: Symbols)
    ensures Lowers(M, c, st) && Lowers(P, c, st)
  {
    Ranks();
    hide Rank, AtomRule, CodeEscape, ClassEscape;
  }

  lemma DashesLower(c: Code, st: Symbols)
    ensures Lowers(Q, c, st) && Lowers(R, c, st)
  {
    Ranks();
    hide Rank, EscapeRule, AtomRule;
  }

  /** The other rules read the character first or drop the nonterminal. */
  lemma OthersLower(n: Nonterminal, c: Code, st: Symbols)
    requires n !in {A, AtomRepeat, B, Block, C, ContentInCapture, D, K, L, M, N, P, Q, R,
                    Set, Set2a, Set2b, Setitem, Setitem2, String2}
    ensures Lowers(n, c, st)
  {
    hide Lowers;
    if n in {Start, BlockName, BlockName2, Content, Content2, Mod, ModOpt, Number, Number2, Repeat} {
      MarksLower(n, c, st);
    } else {
      PartsLower(n, c, st);
    }
  }

  lemma MarksLower(n: Nonterminal, c: Code, st: Symbols)
    requires n in {Start, BlockName, BlockName2, Content, Content2, Mod, ModOpt, Number, Number2, Repeat}
    ensures Lowers(n, c, st)
  {
    hide Rank, AtomRule, SetRule, Digit, Word, LetterOrUnderscore, Quantifier;
    ReadFirst(c, On(NT(Repeat), On(NT(String2), On(NT(Content2), st))));
  }

  lemma PartsLower(n: Nonterminal, c: Code, st: Symbols)
    requires n !in {A, AtomRepeat, B, Block, C, ContentInCapture, D, K, L, M, N, P, Q, R,
                    Set, Set2a, Set2b, Setitem, Setitem2, String2}
    requires n !in {Start, BlockName, BlockName2, Content, Content2, Mod, ModOpt, Number, Number2, Repeat}
    ensures Lowers(n, c, st)
  {
    hide Rank, AtomRule, CodeEscape, ClassEscape, NameRule, HexRule, PropertyRest, Inside;
    hide Digit, Word, HexDigit, LetterOrUnderscore, Metacharacter, Quantifier;
    ReadFirst(c, st);
    ReadFirst(c, On(NT(Range), st));
  }

  /** These rules read the character. */
  lemma ReadFirst(c: Code, st: Symbols)
    ensures Reads(AtomRule(c, st)) && Reads(CodeEscape(c, st)) && Reads(ClassEscape(c, st)) && Reads(NameRule(c, st))
  {
  }

  predicate Reads(step: Step) {
    step.Reject? || (step.Swap? && step.stack.On? && step.stack.top.Anything?)
  }

  lemma RuleLowers(n: Nonterminal, c: Code, st: Symbols)
    ensures Lowers(n, c, st)
  {
    hide Lowers;
    match n
    case A => BranchLowers(c, st);
    case ContentInCapture => CaptureLowers(c, st);
    case Block => GroupsLower(c, st);
    case D => GroupsLower(c, st);
    case AtomRepeat => TermsLower(c, st);
    case String2 => TermsLower(c, st);
    case B => BoundsLower(c, st);
    case N => BoundsLower(c, st);
    case C => ClassLowers(c, st);
    case Set => SetLowers(c, st);
    case Set2a => FirstItemLowers(c, st);
    case Set2b => NextItemLowers(c, st);
    case Setitem => FirstMemberLowers(c, st);
    case Setitem2 => NextMemberLowers(c, st);
    case K => CodesLower(c, st);
    case L => CodesLower(c, st);
    case M => NamesLower(c, st);
    case P => NamesLower(c, st);
    case Q => DashesLower(c, st);
    case R => DashesLower(c, st);
    case _ => OthersLower(n, c, st);
  }

  lemma EndLowersRank(n: Nonterminal, st: Symbols)
    ensures RuleAtEnd(n, st).Swap? ==> Rank(RuleAtEnd(n, st).stack) < Rank(On(NT(n), st))
    ensures RuleAtEnd(n, st).Keep? ==> Rank(st) < Rank(On(NT(n), st))
  {
  }

  // ----- the machine -----

  /** The rule for n at the current position. */
  function RuleAt(n: Nonterminal, text: Text, st: Symbols): (step: Step)
    ensures step.Keep? ==> Rank(st) < Rank(On(NT(n), st))
    ensures step.Swap? && !(step.stack.On? && step.stack.top.Anything? && text.Next?) ==>
              Rank(step.stack) < Rank(On(NT(n), st))
  {
    match text
    case End => EndLowersRank(n, st); RuleAtEnd(n, st)
    case Next(c, _) => RuleLowers(n, c, st); Rule(n, c, st)
  }

  /** Whether a terminal on the stack admits character c. */
  predicate Admits(sym: Symbol, c: Code) {
    match sym
    case Terminal(v) => c == v
    case AnyHexDigit => HexDigit(c)
    case _ => sym.Anything?
  }

  /** One round: `decide` and `move` until a character is read or a decision is made. */
  function Decide<S>(apply: (Action, Option<Code>, S) -> Applied<S>, previous: Option<Code>, text: Text, st: Symbols,
                     subject: S): Results<S>
    decreases Rank(st)
  {
    match st
    case Bottom => Results(previous, text, st, subject, if text.End? then Accepted else Rejected)
    case On(Do(action), below) => (
      match apply(action, previous, subject)
      case Done(subject') => Decide(apply, previous, text, below, subject')
      case Refused => Results(previous, text, st, subject, Rejected)
      case NoOverload => Results(previous, text, st, subject, IllFormed))
    case On(NT(n), below) => (
      match RuleAt(n, text, below)
      case Reject => Results(previous, text, below, subject, Rejected)
      case Keep => Decide(apply, previous, text, below, subject)
      case Swap(st') =>
        if st'.On? && st'.top.Anything? && text.Next? then
          Results(Some(text.first), text.rest, st'.below, subject, Undecided)
        else
          Decide(apply, previous, text, st', subject))
    case On(sym, below) =>
      if text.Next? && Admits(sym, text.first) then Results(Some(text.first), text.rest, below, subject, Undecided)
      else Results(previous, text, below, subject, Rejected)
  }

  /** `results + placeholder`: another round, unless there is a decision already. */
  function Again<S>(apply: (Action, Option<Code>, S) -> Applied<S>, r: Results<S>): Results<S> {
    if r.decision.Undecided? then Decide(apply, r.previous, r.text, r.stack, r.subject) else r
  }

  function Rounds<S>(apply: (Action, Option<Code>, S) -> Applied<S>, n: nat, r: Results<S>): Results<S> {
    if n == 0 then r else Rounds(apply, n - 1, Again(apply, r))
  }

  function Length(text: Text): nat {
    match text
    case End => 0
    case Next(_, rest) => 1 + Length(rest)
  }

  /** `trampoline_decide`: a first round and as many more as the input has characters. */
  function Trampoline<S>(apply: (Action, Option<Code>, S) -> Applied<S>, text: Text, subject: S): Results<S> {
    Rounds(apply, Length(text), Decide(apply, None, text, On(NT(Start), Bottom), subject))
  }

  /** An undecided round has read exactly one character; a decided one none, and only a whole input is accepted. */
  lemma {:induction false} RoundReadsOne<S>(apply: (Action, Option<Code>, S) -> Applied<S>, previous: Option<Code>,
                                            text: Text, st: Symbols, subject: S)
    ensures var r := Decide(apply, previous, text, st, subject);
            && (r.decision.Undecided? ==> text.Next? && r.text == text.rest && r.previous == Some(text.first))
            && (!r.decision.Undecided? ==> r.text == text && r.previous == previous)
            && (r.decision.Accepted? ==> text.End? && r.stack.Bottom?)
    decreases Rank(st)
  {
    match st
    case Bottom =>
    case On(Do(action), below) =>
      if apply(action, previous, subject).Done? {
        RoundReadsOne(apply, previous, text, below, apply(action, previous, subject).subject);
      }
    case On(NT(n), below) =>
      var step := RuleAt(n, text, below);
      if step.Keep? {
        RoundReadsOne(apply, previous, text, below, subject);
      } else if step.Swap? && !(step.stack.On? && step.stack.top.Anything? && text.Next?) {
        RoundReadsOne(apply, previous, text, step.stack, subject);
      }
    case _ =>
  }

  /** The machine run to its end. */
  function Run<S>(apply: (Action, Option<Code>, S) -> Applied<S>, previous: Option<Code>, text: Text, st: Symbols,
                  subject: S): Results<S>
    decreases text
  {
    var r := Decide(apply, previous, text, st, subject);
    RoundReadsOne(apply, previous, text, st, subject);
    if r.decision.Undecided? then Run(apply, r.previous, r.text, r.stack, r.subject) else r
  }

  /** One step of that run. */
  lemma RunTurn<S>(apply: (Action, Option<Code>, S) -> Applied<S>, previous: Option<Code>, text: Text, st: Symbols,
                   subject: S)
    ensures Run(apply, previous, text, st, subject)
         == match st
            case Bottom => Results(previous, text, st, subject, if text.End? then Accepted else Rejected)
            case On(Do(action), below) => (
              match apply(action, previous, subject)
              case Done(subject') => Run(apply, previous, text, below, subject')
              case Refused => Results(previous, text, st, subject, Rejected)
              case NoOverload => Results(previous, text, st, subject, IllFormed))
            case On(NT(n), below) => (
              match RuleAt(n, text, below)
              case Reject => Results(previous, text, below, subject, Rejected)
              case Keep => Run(apply, previous, text, below, subject)
              case Swap(st') => Run(apply, previous, text, st', subject))
            case On(sym, below) =>
              if text.Next? && Admits(sym, text.first) then Run(apply, Some(text.first), text.rest, below, subject)
              else Results(previous, text, below, subject, Rejected)
  {
    hide RuleAt;
  }

  /** One round per remaining character, and one more, always suffice. */
  lemma {:induction false} RoundsSuffice<S>(apply: (Action, Option<Code>, S) -> Applied<S>, previous: Option<Code>,
                                            text: Text, st: Symbols, subject: S, n: nat)
    requires n >= Length(text)
    ensures Rounds(apply, n, Decide(apply, previous, text, st, subject)) == Run(apply, previous, text, st, subject)
    ensures !Run(apply, previous, text, st, subject).decision.Undecided?
    decreases text
  {
    var r := Decide(apply, previous, text, st, subject);
    RoundReadsOne(apply, previous, text, st, subject);
    if r.decision.Undecided? {
      RoundsSuffice(apply, r.previous, r.text, r.stack, r.subject, n - 1);
    } else {
      Decided(apply, n, r);
    }
  }

  lemma {:induction false} Decided<S>(apply: (Action, Option<Code>, S) -> Applied<S>, n: nat, r: Results<S>)
    requires !r.decision.Undecided?
    ensures Rounds(apply, n, r) == r
  {
    if n > 0 {
      Decided(apply, n - 1, r);
    }
  }

  /** The fold over the input never ends undecided, and what it accepts it has read to the end. */
  lemma AlwaysDecides<S>(apply: (Action, Option<Code>, S) -> Applied<S>, text: Text, subject: S)
    ensures var r := Trampoline(apply, text, subject);
            && r == Run(apply, None, text, On(NT(Start), Bottom), subject) && !r.decision.Undecided?
            && (r.decision.Accepted? ==> r.text.End? && r.stack.Bottom?)
  {
    RoundsSuffice(apply, None, text, On(NT(Start), Bottom), subject, Length(text));
    AcceptsAtEnd(apply, None, text, On(NT(Start), Bottom), subject);
  }

  lemma {:induction false} AcceptsAtEnd<S>(apply: (Action, Option<Code>, S) -> Applied<S>, previous: Option<Code>,
                                           text: Text, st: Symbols, subject: S)
    ensures var r := Run(apply, previous, text, st, subject);
            r.decision.Accepted? ==> r.text.End? && r.stack.Bottom?
    decreases text
  {
    var r := Decide(apply, previous, text, st, subject);
    RoundReadsOne(apply, previous, text, st, subject);
    if r.decision.Undecided? {
      AcceptsAtEnd(apply, r.previous, r.text, r.stack, r.subject);
    }
  }
}
