/** The LL(1) machine accepts exactly the language of patterns, with the actions of the derivation in their order. */
module PatternAcceptance {
  import opened Options
  import opened PatternGrammar
  import opened PatternParser
  import opened PatternLanguage
  import opened PatternTable

  // ----- derivations, one step at a time -----

  lemma {:induction false} DerivationStarts(form: Symbols, previous: Option<Code>, text: Text, events: seq<Event>,
                                            steps: nat)
    requires Derives(form, previous, text, events, steps) && Closed(form)
    ensures if text.Next? then CanStart(form, text.first) else CanEnd(form)
    decreases steps
  {
    hide Produces, First;
    match form
    case On(Do(_), rest) => DerivationStarts(rest, previous, text, events[1..], steps - 1);
    case On(NT(n), rest) =>
      var goal :| Produces(n, rest, goal) && Derives(goal, previous, text, events, steps - 1);
      ProductionKeeps(n, rest, goal);
      DerivationStarts(goal, previous, text, events, steps - 1);
      if text.Next? {
        ProductionSelected(n, text.first, rest, goal);
      }
    case _ =>
  }

  // ----- the machine with actions that only take notes -----

  function Note(action: Action, previous: Option<Code>, log: seq<Event>): Applied<seq<Event>> {
    Done(log + [Event(action, previous)])
  }

  /** The machine on a form, taking notes. */
  function Noted(previous: Option<Code>, text: Text, st: Symbols, log: seq<Event>): Results<seq<Event>> {
    Run(Note, previous, text, st, log)
  }

  lemma NotedTurn(previous: Option<Code>, text: Text, st: Symbols, log: seq<Event>)
    ensures Noted(previous, text, st, log)
         == match st
            case Bottom => Results(previous, text, st, log, if text.End? then Accepted else Rejected)
            case On(Do(action), below) => Noted(previous, text, below, log + [Event(action, previous)])
            case On(NT(n), below) => (
              match RuleAt(n, text, below)
              case Reject => Results(previous, text, below, log, Rejected)
              case Keep => Noted(previous, text, below, log)
              case Swap(st') => Noted(previous, text, st', log))
            case On(sym, below) =>
              if text.Next? && Admits(sym, text.first) then Noted(Some(text.first), text.rest, below, log)
              else Results(previous, text, below, log, Rejected)
  {
    hide RuleAt;
    RunTurn(Note, previous, text, st, log);
  }

  /** `Anything` reads the character that comes next. */
  lemma {:induction false} FixedRunsAlike(previous: Option<Code>, text: Text, st: Symbols, log: seq<Event>)
    requires text.Next?
    ensures Noted(previous, text, Fixed(st, text.first), log) == Noted(previous, text, st, log)
    decreases st
  {
    hide Noted;
    match st
    case On(Do(action), below) =>
      NotedTurn(previous, text, st, log);
      NotedTurn(previous, text, Fixed(st, text.first), log);
      FixedRunsAlike(previous, text, below, log + [Event(action, previous)]);
    case On(Anything, below) =>
      NotedTurn(previous, text, st, log);
      NotedTurn(previous, text, Fixed(st, text.first), log);
    case _ =>
  }

  /** The machine accepts whatever the grammar derives, with the actions of the derivation. */
  lemma {:induction false} DerivedIsAccepted(form: Symbols, previous: Option<Code>, text: Text, events: seq<Event>,
                                             steps: nat, log: seq<Event>)
    requires Derives(form, previous, text, events, steps) && Closed(form) && Followed(form)
    ensures var r := Noted(previous, text, form, log); r.decision.Accepted? && r.subject == log + events
    decreases steps
  {
    hide Noted, Produces, CanStart, CanEnd, First, Follow, Rule, RuleAtEnd;
    NotedTurn(previous, text, form, log);
    match form
    case Bottom => assert log + [] == log;
    case On(Do(action), rest) =>
      DerivedIsAccepted(rest, previous, text, events[1..], steps - 1, log + [Event(action, previous)]);
      assert log + [events[0]] + events[1..] == log + events;
    case On(NT(n), rest) =>
      var goal :| Produces(n, rest, goal) && Derives(goal, previous, text, events, steps - 1);
      ProductionKeeps(n, rest, goal);
      DerivationStarts(goal, previous, text, events, steps - 1);
      DerivedIsAccepted(goal, previous, text, events, steps - 1, log);
      if text.Next? {
        ProductionSelected(n, text.first, rest, goal);
        RuleTaken(n, previous, text, rest, goal, log);
      }
    case On(Terminal(c), rest) => DerivedIsAccepted(rest, Some(c), text.rest, events, steps - 1, log);
    case On(AnyHexDigit, rest) =>
      CharFacts(text.first);
      DerivedIsAccepted(rest, Some(text.first), text.rest, events, steps - 1, log);
    case _ =>
  }

  lemma RuleTaken(n: Nonterminal, previous: Option<Code>, text: Text, rest: Symbols, goal: Symbols, log: seq<Event>)
    requires text.Next? && Takes(Rule(n, text.first, rest), rest, text.first, goal)
    ensures Noted(previous, text, On(NT(n), rest), log) == Noted(previous, text, goal, log)
  {
    hide Noted, Rule, Fixed;
    NotedTurn(previous, text, On(NT(n), rest), log);
    var step := Rule(n, text.first, rest);
    if step.Swap? {
      FixedRunsAlike(previous, text, step.stack, log);
    }
  }

  /** And whatever the machine accepts has a derivation, with the actions it has noted. */
  lemma {:induction false} AcceptedIsDerived(form: Symbols, previous: Option<Code>, text: Text, log: seq<Event>)
    returns (events: seq<Event>, steps: nat)
    requires Closed(form) && Noted(previous, text, form, log).decision.Accepted?
    ensures Noted(previous, text, form, log).subject == log + events
    ensures Derives(form, previous, text, events, steps)
    decreases text, Rank(form)
  {
    hide Noted, Produces, Rule, RuleAtEnd, Rank;
    RankFacts(form);
    NotedTurn(previous, text, form, log);
    events, steps := [], 1;
    match form
    case Bottom =>
    case On(Do(action), rest) =>
      events, steps := AcceptedIsDerived(rest, previous, text, log + [Event(action, previous)]);
      assert log + [Event(action, previous)] + events == log + ([Event(action, previous)] + events);
      events, steps := [Event(action, previous)] + events, steps + 1;
      assert events[1..] + [] == events[1..];
    case On(NT(n), rest) =>
      var goal := GoalTaken(n, previous, text, rest, log);
      events, steps := AcceptedIsDerived(goal, previous, text, log);
      steps := steps + 1;
      assert Produces(n, rest, goal) && Derives(goal, previous, text, events, steps - 1);
    case On(Terminal(c), rest) =>
      events, steps := AcceptedIsDerived(rest, Some(c), text.rest, log);
      steps := steps + 1;
    case On(AnyHexDigit, rest) =>
      CharFacts(text.first);
      events, steps := AcceptedIsDerived(rest, Some(text.first), text.rest, log);
      steps := steps + 1;
    case _ =>
  }

  lemma RankFacts(st: Symbols)
    ensures st.On? && st.top.Do? ==> Rank(st.below) < Rank(st)
  {
  }

  /** The production that the machine takes, if it accepts. */
  lemma GoalTaken(n: Nonterminal, previous: Option<Code>, text: Text, rest: Symbols, log: seq<Event>)
    returns (goal: Symbols)
    requires Closed(rest) && Noted(previous, text, On(NT(n), rest), log).decision.Accepted?
    ensures Produces(n, rest, goal) && Closed(goal) && Rank(goal) < Rank(On(NT(n), rest))
    ensures Noted(previous, text, goal, log) == Noted(previous, text, On(NT(n), rest), log)
  {
    hide Noted, Produces, Rule, RuleAtEnd, Rank, Closed, Fixed;
    NotedTurn(previous, text, On(NT(n), rest), log);
    var step := RuleAt(n, text, rest);
    if text.End? {
      EndSound(n, rest);
      goal := if step.Keep? then rest else step.stack;
    } else {
      var c := text.first;
      RuleSound(n, c, rest);
      if step.Keep? {
        goal := rest;
      } else {
        goal := Fixed(step.stack, c);
        ProductionKeeps(n, rest, goal);
        FixedRunsAlike(previous, text, step.stack, log);
        FixedRank(step.stack, c);
        ReadingRank(n, step.stack, rest);
      }
    }
  }

  lemma {:induction false} FixedRank(st: Symbols, c: Code)
    ensures Rank(Fixed(st, c)) == Rank(st)
  {
    if st.On? && st.top.Do? {
      FixedRank(st.below, c);
    }
  }

  lemma ReadingRank(n: Nonterminal, st: Symbols, rest: Symbols)
    ensures st.On? && st.top.Anything? ==> Rank(st) < Rank(On(NT(n), rest))
  {
  }

  // ----- the parser with any actions -----

  /** The actions of the events, one after the other. */
  function Applies<S>(apply: (Action, Option<Code>, S) -> Applied<S>, events: seq<Event>, subject: S): Applied<S> {
    if |events| == 0 then Done(subject)
    else
      match apply(events[0].action, events[0].previous, subject)
      case Done(subject') => Applies(apply, events[1..], subject')
      case Refused => Refused
      case NoOverload => NoOverload
  }

  /** With other actions the machine goes the same way, as long as none refuses, and applies what it would note. */
  lemma {:induction false} RunAsNoted<S>(apply: (Action, Option<Code>, S) -> Applied<S>, previous: Option<Code>,
                                         text: Text, st: Symbols, log: seq<Event>, subject: S)
    returns (events: seq<Event>)
    ensures var r := Noted(previous, text, st, log);
            && r.subject == log + events
            && match Applies(apply, events, subject)
               case Done(subject') => Run(apply, previous, text, st, subject)
                                      == Results(r.previous, r.text, r.stack, subject', r.decision)
               case Refused => Run(apply, previous, text, st, subject).decision.Rejected?
               case NoOverload => Run(apply, previous, text, st, subject).decision.IllFormed?
    decreases text, Rank(st)
  {
    hide Noted, Run, Rule, RuleAtEnd, Rank;
    RankFacts(st);
    NotedTurn(previous, text, st, log);
    RunTurn(apply, previous, text, st, subject);
    events := [];
    assert log + [] == log;
    match st
    case Bottom =>
    case On(Do(action), below) =>
      var first := [Event(action, previous)];
      match apply(action, previous, subject) {
        case Done(subject') =>
          var others := RunAsNoted(apply, previous, text, below, log + first, subject');
          events := first + others;
          assert log + first + others == log + (first + others) && events[1..] == others;
        case _ =>
          var others := NotesOnly(previous, text, below, log + first);
          events := first + others;
          assert log + first + others == log + (first + others);
      }
    case On(NT(n), below) =>
      match RuleAt(n, text, below) {
        case Reject =>
        case Keep => events := RunAsNoted(apply, previous, text, below, log, subject);
        case Swap(st') =>
          ReadingRank(n, st', below);
          events := RunAsNoted(apply, previous, text, st', log, subject);
      }
    case On(sym, below) =>
      if text.Next? && Admits(sym, text.first) {
        events := RunAsNoted(apply, Some(text.first), text.rest, below, log, subject);
      }
  }

  /** Notes are only ever added. */
  lemma {:induction false} NotesOnly(previous: Option<Code>, text: Text, st: Symbols, log: seq<Event>)
    returns (events: seq<Event>)
    ensures Noted(previous, text, st, log).subject == log + events
    decreases text, Rank(st)
  {
    hide Noted, Rule, RuleAtEnd, Rank;
    RankFacts(st);
    NotedTurn(previous, text, st, log);
    events := [];
    assert log + [] == log;
    match st
    case Bottom =>
    case On(Do(action), below) =>
      var first := [Event(action, previous)];
      var others := NotesOnly(previous, text, below, log + first);
      events := first + others;
      assert log + first + others == log + (first + others);
    case On(NT(n), below) =>
      match RuleAt(n, text, below) {
        case Reject =>
        case Keep => events := NotesOnly(previous, text, below, log);
        case Swap(st') =>
          ReadingRank(n, st', below);
          events := NotesOnly(previous, text, st', log);
      }
    case On(sym, below) =>
      if text.Next? && Admits(sym, text.first) {
        events := NotesOnly(Some(text.first), text.rest, below, log);
      }
  }

  lemma StartFollowed()
    ensures Closed(On(NT(Start), Bottom)) && Followed(On(NT(Start), Bottom))
  {
  }

  /** A text has one derivation at most. */
  lemma OneDerivation(text: Text, events: seq<Event>, events': seq<Event>)
    requires InLanguage(text, events) && InLanguage(text, events')
    ensures events == events'
  {
    hide Noted, Derives, Closed, Followed;
    StartFollowed();
    var form := On(NT(Start), Bottom);
    var n: nat :| Derives(form, None, text, events, n);
    var m: nat :| Derives(form, None, text, events', m);
    DerivedIsAccepted(form, None, text, events, n, []);
    DerivedIsAccepted(form, None, text, events', m, []);
    assert [] + events == events && [] + events' == events';
  }

  /** The parser accepts exactly the language of the grammar: with any semantic actions, the result is what the actions
      of the derivation make of the subject. */
  lemma ParserIsExact<S>(apply: (Action, Option<Code>, S) -> Applied<S>, text: Text, subject: S, result: S)
    ensures Trampoline(apply, text, subject).decision.Accepted? && Trampoline(apply, text, subject).subject == result
       <==> exists events :: InLanguage(text, events) && Applies(apply, events, subject) == Done(result)
  {
    hide Noted, Derives, Closed, Followed, Applies, Trampoline, Run;
    StartFollowed();
    AlwaysDecides(apply, text, subject);
    var form := On(NT(Start), Bottom);
    var noted := RunAsNoted(apply, None, text, form, [], subject);
    assert [] + noted == noted;
    if events :| InLanguage(text, events) && Applies(apply, events, subject) == Done(result) {
      var steps: nat :| Derives(form, None, text, events, steps);
      DerivedIsAccepted(form, None, text, events, steps, []);
      assert [] + events == events;
    }
    var r := Trampoline(apply, text, subject);
    if r.decision.Accepted? && r.subject == result {
      var events, steps := AcceptedIsDerived(form, None, text, []);
      assert [] + events == events;
      assert InLanguage(text, noted);
    }
  }
}
