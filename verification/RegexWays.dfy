/** The ways in which a tree can match from a position, in order of preference and with the groups each of them records.
    The ways are defined tree by tree, without continuation stacks; the matcher takes the first way after which the rest
    matches. */
module RegexWays {
  import opened RegexSyntax
  import opened RegexMatcher
  import opened RegexLanguage
  import opened RegexTermination
  import opened RegexPossessive
  import opened RegexExact
  import opened RegexEvaluator

  /** Where a way ends, and the groups it records. */
  datatype Way = Way(end: nat, groups: Captures)

  function Here(i: nat): Way {
    Way(i, map[])
  }

  predicate InRange(ws: seq<Way>, i: nat, n: nat) {
    forall m | 0 <= m < |ws| :: i <= ws[m].end <= n
  }

  /** Only groups of ids are recorded, and a group is recorded as matched. */
  predicate Records(ws: seq<Way>, ids: set<nat>) {
    forall m | 0 <= m < |ws| :: MatchedAmong(ws[m].groups, ids)
  }

  predicate MatchedAmong(groups: Captures, ids: set<nat>) {
    forall id | id in groups :: id in ids && groups[id].matched
  }

  /** The ways vs taken after w: what vs records later overwrites what w has recorded. */
  function After(w: Way, vs: seq<Way>): (ws: seq<Way>)
    ensures |ws| == |vs|
    ensures forall m | 0 <= m < |ws| :: ws[m] == Way(vs[m].end, w.groups + vs[m].groups)
  {
    seq(|vs|, m requires 0 <= m < |vs| => Way(vs[m].end, w.groups + vs[m].groups))
  }

  /** Group id is recorded to span from i to the end of each way. */
  function Recorded(id: nat, i: nat, vs: seq<Way>): (ws: seq<Way>)
    ensures |ws| == |vs|
    ensures forall m | 0 <= m < |ws| :: ws[m] == Way(vs[m].end, vs[m].groups[id := Group(i, vs[m].end, true)])
  {
    seq(|vs|, m requires 0 <= m < |vs| => Way(vs[m].end, vs[m].groups[id := Group(i, vs[m].end, true)]))
  }

  function Backwards(vs: seq<Way>): (ws: seq<Way>)
    ensures |ws| == |vs| && forall m | 0 <= m < |ws| :: ws[m] == vs[|vs| - 1 - m]
  {
    seq(|vs|, m requires 0 <= m < |vs| => vs[|vs| - 1 - m])
  }

  /** Which of the runs of 0, 1, 2, ... iterations a repeat with lower bound a offers: a greedy one the longer ones
      first, a lazy one the shorter ones first, a possessive one the longest only. */
  function Offered(mode: Mode, a: nat, runs: seq<Way>): (ws: seq<Way>)
    ensures forall i: nat, n: nat | InRange(runs, i, n) :: InRange(ws, i, n)
    ensures forall ids | Records(runs, ids) :: Records(ws, ids)
  {
    if |runs| <= a then []
    else
      match mode
      case Greedy => Backwards(runs[a..])
      case Lazy => runs[a..]
      case Possessive => [runs[|runs| - 1]]
  }

  /** The ways of re from i on, the preferred ones first: an optional part is taken before it is skipped, a lazy one the
      other way round, and alternatives come in their order. */
  function Ways(re: Re, s: seq<Code>, i: nat): (ws: seq<Way>)
    requires i <= |s|
    ensures InRange(ws, i, |s|)
    decreases re, 0, 0, 0
  {
    match re
    case One(m) => if i < |s| && Accepts(m, s[i]) then [Here(i + 1)] else []
    case AnyCharacter => if i < |s| then [Here(i + 1)] else []
    case Str(text) => if i + |text| <= |s| && s[i..i + |text|] == text then [Here(i + |text|)] else []
    case Empty => [Here(i)]
    case AssertBegin => if i == 0 then [Here(i)] else []
    case AssertEnd => if i == |s| then [Here(i)] else []
    case Select(c) => WaysOne(c, s, i)
    case Optional(c) => WaysAll(c, s, i) + [Here(i)]
    case LazyOptional(c) => [Here(i)] + WaysAll(c, s, i)
    case Sequence(c) => WaysAll(c, s, i)
    case Capture(id, c) => Recorded(id, i, WaysAll(c, s, i))
    case Plus(mode, c) => Offered(mode, 1, Runs(c, s, i, 0, 0))
    case Star(mode, c) => Offered(mode, 0, Runs(c, s, i, 0, 0))
    case Repeat(mode, a, b, c) => Offered(mode, a, Runs(c, s, i, b, 0))
  }

  /** The ways of the alternatives. */
  function WaysOne(c: Res, s: seq<Code>, i: nat): (ws: seq<Way>)
    requires i <= |s|
    ensures InRange(ws, i, |s|)
    decreases c, 1, 0, 0
  {
    match c
    case Single(re) => Ways(re, s, i)
    case Cons(h, t) => Ways(h, s, i) + WaysOne(t, s, i)
  }

  /** The ways of the concatenation. */
  function WaysAll(c: Res, s: seq<Code>, i: nat): (ws: seq<Way>)
    requires i <= |s|
    ensures InRange(ws, i, |s|)
    decreases c, 1, 0, 0
  {
    match c
    case Single(re) => Ways(re, s, i)
    case Cons(h, t) => Continued(Ways(h, s, i), t, s, i)
  }

  /** Each of the ways ws continued by the ways of c. */
  function Continued(ws: seq<Way>, c: Res, s: seq<Code>, i: nat): (r: seq<Way>)
    requires i <= |s| && InRange(ws, i, |s|)
    ensures InRange(r, i, |s|)
    decreases c, 2, 0, |ws|
  {
    if |ws| == 0 then []
    else After(ws[0], WaysAll(c, s, ws[0].end)) + Continued(ws[1..], c, s, i)
  }

  /** The runs of iterations of c from i on when n were done before: none, one, two, ... An iteration goes the preferred
      way and is never reconsidered; b bounds the number of iterations unless it is 0. */
  function Runs(c: Res, s: seq<Code>, i: nat, b: nat, n: nat): (runs: seq<Way>)
    requires i <= |s|
    ensures |runs| >= 1 && runs[0] == Here(i) && InRange(runs, i, |s|)
    decreases c, 3, |s| - i, if n < b then b - n else 0
  {
    var ws := WaysAll(c, s, i);
    if (b != 0 && n >= b) || |ws| == 0 || (b == 0 && ws[0].end == i) then [Here(i)]
    else [Here(i)] + After(ws[0], Runs(c, s, ws[0].end, b, n + 1))
  }

  // ----- the matcher takes the first way after which the rest matches -----

  /** The rest, after a way. */
  function Rest(s: seq<Code>, k: Captures, w: Way, below: Stack): Outcome {
    if w.end <= |s| then Evaluate(Reference, s, w.end, k + w.groups, below) else Failed
  }

  /** The first of the ways after which the rest does not fail. */
  function Choose(s: seq<Code>, k: Captures, ws: seq<Way>, below: Stack): Outcome {
    if |ws| == 0 then Failed
    else
      var r := Rest(s, k, ws[0], below);
      if r.Failed? then Choose(s, k, ws[1..], below) else r
  }

  lemma ChooseHere(s: seq<Code>, k: Captures, i: nat, below: Stack)
    requires i <= |s|
    ensures Choose(s, k, [Here(i)], below) == Evaluate(Reference, s, i, k, below)
  {
    hide Evaluate;
    assert k + map[] == k;
  }

  lemma ChooseOne(s: seq<Code>, k: Captures, w: Way, below: Stack)
    requires w.end <= |s|
    ensures Choose(s, k, [w], below) == Evaluate(Reference, s, w.end, k + w.groups, below)
  {
    hide Evaluate;
  }

  lemma {:induction false} ChooseAppend(s: seq<Code>, k: Captures, a: seq<Way>, b: seq<Way>, below: Stack)
    ensures Choose(s, k, a + b, below)
         == if Choose(s, k, a, below).Failed? then Choose(s, k, b, below) else Choose(s, k, a, below)
  {
    hide Rest;
    if |a| == 0 {
      assert a + b == b;
    } else {
      assert (a + b)[1..] == a[1..] + b;
      ChooseAppend(s, k, a[1..], b, below);
    }
  }

  lemma RestAfter(s: seq<Code>, k: Captures, w: Way, v: Way, below: Stack)
    ensures Rest(s, k, Way(v.end, w.groups + v.groups), below) == Rest(s, k + w.groups, v, below)
  {
    hide Evaluate;
    assert k + (w.groups + v.groups) == k + w.groups + v.groups;
  }

  lemma {:induction false} ChooseAfter(s: seq<Code>, k: Captures, w: Way, vs: seq<Way>, below: Stack)
    ensures Choose(s, k, After(w, vs), below) == Choose(s, k + w.groups, vs, below)
  {
    hide Rest;
    if |vs| > 0 {
      assert After(w, vs)[1..] == After(w, vs[1..]);
      RestAfter(s, k, w, vs[0], below);
      ChooseAfter(s, k, w, vs[1..], below);
    }
  }

  /** Ending a group after the ways that began within it is recording it. */
  lemma {:induction false} ChooseRecorded(s: seq<Code>, k: Captures, id: nat, i: nat, vs: seq<Way>, below: Stack)
    requires forall m | 0 <= m < |vs| :: id !in vs[m].groups
    ensures Choose(s, StartCapture(k, id, i), vs, Close(id, below)) == Choose(s, k, Recorded(id, i, vs), below)
  {
    hide Rest;
    if |vs| > 0 {
      RestRecorded(s, k, id, i, vs[0], below);
      assert Recorded(id, i, vs)[1..] == Recorded(id, i, vs[1..]);
      ChooseRecorded(s, k, id, i, vs[1..], below);
    }
  }

  lemma RestRecorded(s: seq<Code>, k: Captures, id: nat, i: nat, v: Way, below: Stack)
    requires id !in v.groups
    ensures Rest(s, StartCapture(k, id, i), v, Close(id, below))
         == Rest(s, k, Way(v.end, v.groups[id := Group(i, v.end, true)]), below)
  {
    if v.end <= |s| {
      var k1 := StartCapture(k, id, i);
      CloseIs(s, v.end, k1 + v.groups, id, below);
      hide Evaluate;
      assert EndCapture(k1 + v.groups, id, v.end) == k + v.groups[id := Group(i, v.end, true)];
    }
  }

  lemma CloseIs(s: seq<Code>, p: nat, k: Captures, id: nat, below: Stack)
    requires p <= |s|
    ensures Evaluate(Reference, s, p, k, Close(id, below)) == Evaluate(Reference, s, p, EndCapture(k, id, p), below)
  {
  }

  lemma RecordsAfter(w: Way, vs: seq<Way>, ids: set<nat>, more: set<nat>)
    requires MatchedAmong(w.groups, ids) && Records(vs, more)
    ensures Records(After(w, vs), ids + more)
  {
  }

  lemma RecordsAppend(a: seq<Way>, b: seq<Way>, ids: set<nat>, more: set<nat>)
    requires Records(a, ids) && Records(b, more)
    ensures Records(a + b, ids + more)
  {
  }

  lemma RecordsHere(i: nat, ids: set<nat>)
    ensures Records([Here(i)], ids)
  {
  }

  lemma RecordsGroup(id: nat, i: nat, vs: seq<Way>, ids: set<nat>)
    requires Records(vs, ids)
    ensures Records(Recorded(id, i, vs), {id} + ids)
  {
  }

  /** A way records groups of the tree only, and as matched. */
  lemma {:induction false} WaysRecordOwn(re: Re, s: seq<Code>, i: nat)
    requires i <= |s|
    ensures Records(Ways(re, s, i), Ids(re))
    decreases re, 0, 0, 0
  {
    hide MatchedAmong;
    match re
    case Select(c) => WaysOneRecordOwn(c, s, i);
    case Optional(c) => WaysAllRecordOwn(c, s, i); RecordsHere(i, IdsAll(c));
    case LazyOptional(c) => WaysAllRecordOwn(c, s, i); RecordsHere(i, IdsAll(c));
    case Sequence(c) => WaysAllRecordOwn(c, s, i);
    case Capture(id, c) =>
      WaysAllRecordOwn(c, s, i);
      RecordsGroup(id, i, WaysAll(c, s, i), IdsAll(c));
    case Plus(_, c) => RunsRecordOwn(c, s, i, 0, 0);
    case Star(_, c) => RunsRecordOwn(c, s, i, 0, 0);
    case Repeat(_, _, b, c) => RunsRecordOwn(c, s, i, b, 0);
    case Str(text) => RecordsHere(i + |text|, {});
    case _ =>
      RecordsHere(i, {});
      RecordsHere(i + 1, {});
  }

  lemma {:induction false} WaysOneRecordOwn(c: Res, s: seq<Code>, i: nat)
    requires i <= |s|
    ensures Records(WaysOne(c, s, i), IdsAll(c))
    decreases c, 1, 0, 0
  {
    hide Records;
    match c
    case Single(re) => WaysRecordOwn(re, s, i);
    case Cons(h, t) =>
      WaysRecordOwn(h, s, i);
      WaysOneRecordOwn(t, s, i);
      RecordsAppend(Ways(h, s, i), WaysOne(t, s, i), Ids(h), IdsAll(t));
  }

  lemma {:induction false} WaysAllRecordOwn(c: Res, s: seq<Code>, i: nat)
    requires i <= |s|
    ensures Records(WaysAll(c, s, i), IdsAll(c))
    decreases c, 1, 0, 0
  {
    hide Records;
    match c
    case Single(re) => WaysRecordOwn(re, s, i);
    case Cons(h, t) =>
      WaysRecordOwn(h, s, i);
      ContinuedRecordOwn(Ways(h, s, i), t, s, i, Ids(h));
  }

  lemma {:induction false} ContinuedRecordOwn(ws: seq<Way>, c: Res, s: seq<Code>, i: nat, ids: set<nat>)
    requires i <= |s| && InRange(ws, i, |s|) && Records(ws, ids)
    ensures Records(Continued(ws, c, s, i), ids + IdsAll(c))
    decreases c, 2, 0, |ws|
  {
    hide MatchedAmong, WaysAll, Ways, IdsAll;
    if |ws| > 0 {
      var w, vs, more := ws[0], WaysAll(c, s, ws[0].end), IdsAll(c);
      WaysAllRecordOwn(c, s, w.end);
      RecordsAfter(w, vs, ids, more);
      ContinuedRecordOwn(ws[1..], c, s, i, ids);
      RecordsAppend(After(w, vs), Continued(ws[1..], c, s, i), ids + more, ids + more);
      assert ids + more + (ids + more) == ids + more;
    }
  }

  lemma {:induction false} RunsRecordOwn(c: Res, s: seq<Code>, i: nat, b: nat, n: nat)
    requires i <= |s|
    ensures Records(Runs(c, s, i, b, n), IdsAll(c))
    decreases c, 3, |s| - i, if n < b then b - n else 0
  {
    hide MatchedAmong, WaysAll, Ways, IdsAll;
    var ws, ids := WaysAll(c, s, i), IdsAll(c);
    RecordsHere(i, ids);
    if !((b != 0 && n >= b) || |ws| == 0 || (b == 0 && ws[0].end == i)) {
      var next := Runs(c, s, ws[0].end, b, n + 1);
      WaysAllRecordOwn(c, s, i);
      RunsRecordOwn(c, s, ws[0].end, b, n + 1);
      RecordsAfter(ws[0], next, ids, ids);
      assert ids + ids == ids;
      RecordsAppend([Here(i)], After(ws[0], next), ids, ids);
    }
  }

  /** The matcher, run on re and a rest, takes the first way of re after which the rest matches. */
  lemma {:induction false} FirstWayTaken(s: seq<Code>, pos: nat, k: Captures, re: Re, below: Stack)
    requires pos <= |s| && WellFormed(re) && DistinctIds(re)
    ensures Evaluate(Reference, s, pos, k, Push(re, below)) == Choose(s, k, Ways(re, s, pos), below)
    decreases re, 0, 0, 0
  {
    hide Choose, WaysAll, WaysOne, Runs, EvaluateSelect, EvaluateSequence, EvaluateRepeat;
    hide WellFormedAll, DistinctIdsAll;
    if Elementary(re) {
      ElementaryWay(s, pos, k, re, below);
    } else if Repeated(re) {
      FirstWayRepeat(s, pos, k, re.mode, Low(re), High(re), re.content, below);
    } else {
      match re
      case Select(c) => FirstWaySelect(s, pos, k, c, below);
      case Sequence(c) => FirstWaySequence(s, pos, k, c, below);
      case Optional(c) =>
        FirstWaySequence(s, pos, k, c, below);
        ChooseHere(s, k, pos, below);
        ChooseAppend(s, k, WaysAll(c, s, pos), [Here(pos)], below);
      case LazyOptional(c) =>
        FirstWaySequence(s, pos, k, c, below);
        ChooseHere(s, k, pos, below);
        ChooseAppend(s, k, [Here(pos)], WaysAll(c, s, pos), below);
      case Capture(id, c) =>
        FirstWaySequence(s, pos, StartCapture(k, id, pos), c, Close(id, below));
        WaysAllRecordOwn(c, s, pos);
        ChooseRecorded(s, k, id, pos, WaysAll(c, s, pos), below);
    }
  }

  lemma ElementaryWay(s: seq<Code>, pos: nat, k: Captures, re: Re, below: Stack)
    requires pos <= |s| && Elementary(re)
    ensures Evaluate(Reference, s, pos, k, Push(re, below)) == Choose(s, k, Ways(re, s, pos), below)
  {
    var m := Advance(re, s, pos);
    assert Ways(re, s, pos) == if m.To? then [Here(m.pos)] else [] by {
      if re.Str? && |re.text| == 0 {
        assert s[pos..pos] == re.text;
      }
    }
    if m.To? {
      ChooseHere(s, k, m.pos, below);
    }
  }

  lemma {:induction false} FirstWaySelect(s: seq<Code>, pos: nat, k: Captures, c: Res, below: Stack)
    requires pos <= |s| && WellFormedAll(c) && DistinctIdsAll(c)
    ensures EvaluateSelect(Reference, s, pos, k, c, below) == Choose(s, k, WaysOne(c, s, pos), below)
    decreases c, 1, 0, 0
  {
    hide Choose, Ways, Evaluate;
    match c
    case Single(h) => FirstWayTaken(s, pos, k, h, below);
    case Cons(h, t) =>
      FirstWayTaken(s, pos, k, h, below);
      FirstWaySelect(s, pos, k, t, below);
      ChooseAppend(s, k, Ways(h, s, pos), WaysOne(t, s, pos), below);
  }

  lemma {:induction false} FirstWaySequence(s: seq<Code>, pos: nat, k: Captures, c: Res, below: Stack)
    requires pos <= |s| && WellFormedAll(c) && DistinctIdsAll(c)
    ensures EvaluateSequence(Reference, s, pos, k, c, below) == Choose(s, k, WaysAll(c, s, pos), below)
    ensures Evaluate(Reference, s, pos, k, Push(Sequence(c), below)) == Choose(s, k, WaysAll(c, s, pos), below)
    decreases c, 1, 0, 0
  {
    SequenceIs(s, pos, k, c, below);
    hide Choose, Ways, Evaluate;
    match c
    case Single(h) => FirstWayTaken(s, pos, k, h, below);
    case Cons(h, t) =>
      FirstWayTaken(s, pos, k, h, Push(Sequence(t), below));
      FirstWayContinued(s, pos, k, Ways(h, s, pos), t, below);
  }

  lemma SequenceIs(s: seq<Code>, pos: nat, k: Captures, c: Res, below: Stack)
    requires pos <= |s|
    ensures Evaluate(Reference, s, pos, k, Push(Sequence(c), below)) == EvaluateSequence(Reference, s, pos, k, c, below)
  {
  }

  lemma {:induction false} FirstWayContinued(s: seq<Code>, pos: nat, k: Captures, ws: seq<Way>, t: Res, below: Stack)
    requires pos <= |s| && InRange(ws, pos, |s|) && WellFormedAll(t) && DistinctIdsAll(t)
    ensures Choose(s, k, ws, Push(Sequence(t), below)) == Choose(s, k, Continued(ws, t, s, pos), below)
    decreases t, 2, 0, |ws|
  {
    hide Evaluate, WaysAll, Choose;
    NoChoice(s, k, below);
    NoChoice(s, k, Push(Sequence(t), below));
    if |ws| > 0 {
      var w, vs := ws[0], WaysAll(t, s, ws[0].end);
      FirstWaySequence(s, w.end, k + w.groups, t, below);
      assert ws == [w] + ws[1..];
      ChooseAppend(s, k, [w], ws[1..], Push(Sequence(t), below));
      ChooseOne(s, k, w, Push(Sequence(t), below));
      ChooseAfter(s, k, w, vs, below);
      FirstWayContinued(s, pos, k, ws[1..], t, below);
      ChooseAppend(s, k, After(w, vs), Continued(ws[1..], t, s, pos), below);
    }
  }

  /** An iteration goes the preferred way. */
  lemma {:induction false} CycleIsFirstWay(s: seq<Code>, pos: nat, k: Captures, c: Res)
    requires pos <= |s| && WellFormedAll(c) && DistinctIdsAll(c)
    ensures var ws := WaysAll(c, s, pos);
            Evaluate(Reference, s, pos, k, Cycle(c))
            == if |ws| == 0 then Failed else Matched(ws[0].end, k + ws[0].groups)
    decreases c, 2, 0, 0
  {
    FirstWaySequence(s, pos, k, c, EndCycle);
  }

  /** The loops of a repeat take the runs in their order. */
  lemma {:induction false} LoopsTakeRuns(s: seq<Code>, pos: nat, k: Captures,
                                         a: nat, b: nat, c: Res, below: Stack, n: nat)
    requires pos <= |s| && RepeatWellFormed(b, c) && DistinctIdsAll(c)
    ensures LoopsAgree(s, pos, k, a, b, c, below, n, Runs(c, s, pos, b, n))
    decreases c, 3, |s| - pos, if n < b then b - n else 0
  {
    hide WaysAll, Runs, WellFormedAll, DistinctIdsAll, LoopsAgree, Evaluate;
    CycleIsFirstWay(s, pos, k, c);
    var ws := WaysAll(c, s, pos);
    if b == 0 && |ws| > 0 {
      CycleAdvances(Reference, s, pos, k, c);
    }
    RunsTurn(c, s, pos, b, n);
    if (b == 0 || n < b) && |ws| > 0 {
      var w, next := ws[0], Runs(c, s, ws[0].end, b, n + 1);
      LoopsTakeRuns(s, w.end, k + w.groups, a, b, c, below, n + 1);
      LoopsOnce(s, pos, k, a, b, c, below, n, w, next);
    } else {
      LoopsEnd(s, pos, k, a, b, c, below, n);
    }
  }

  /** The three loops, at position pos after n iterations, take the given runs. */
  ghost predicate LoopsAgree(s: seq<Code>, pos: nat, k: Captures,
                             a: nat, b: nat, c: Res, below: Stack, n: nat, runs: seq<Way>)
    requires pos <= |s| && |runs| > 0
  {
    && LazyLoop(Reference, s, pos, k, b, c, below, n) == Choose(s, k, runs, below)
    && GreedyLoop(Reference, s, pos, k, b, c, below, n) == Choose(s, k, Backwards(runs), below)
    && PossessiveLoop(Reference, s, pos, k, a, b, c, below, n)
       == if n + |runs| <= a && (b == 0 || n + |runs| <= b) then Failed
          else Choose(s, k, [runs[|runs| - 1]], below)
  }

  lemma LoopsEnd(s: seq<Code>, pos: nat, k: Captures, a: nat, b: nat, c: Res, below: Stack, n: nat)
    requires pos <= |s| && ((b != 0 && n >= b) || Evaluate(Reference, s, pos, k, Cycle(c)).Failed?)
    ensures LoopsAgree(s, pos, k, a, b, c, below, n, [Here(pos)])
  {
    hide Evaluate, Choose, LazyLoop, GreedyLoop, PossessiveLoop;
    LazyTurn(Reference, s, pos, k, b, c, below, n);
    GreedyTurn(Reference, s, pos, k, b, c, below, n);
    PossessiveTurn(Reference, s, pos, k, a, b, c, below, n);
    ChooseHere(s, k, pos, below);
    assert Backwards([Here(pos)]) == [Here(pos)];
  }

  lemma LoopsOnce(s: seq<Code>, pos: nat, k: Captures, a: nat, b: nat, c: Res, below: Stack, n: nat,
                  w: Way, next: seq<Way>)
    requires pos <= |s| && (b == 0 || n < b) && (b == 0 ==> pos < w.end) && pos <= w.end <= |s| && |next| > 0
    requires Evaluate(Reference, s, pos, k, Cycle(c)) == Matched(w.end, k + w.groups)
    requires LoopsAgree(s, w.end, k + w.groups, a, b, c, below, n + 1, next)
    ensures LoopsAgree(s, pos, k, a, b, c, below, n, [Here(pos)] + After(w, next))
  {
    hide Evaluate, Choose, LazyLoop, GreedyLoop, PossessiveLoop, After, Backwards;
    LazyTurn(Reference, s, pos, k, b, c, below, n);
    GreedyTurn(Reference, s, pos, k, b, c, below, n);
    PossessiveTurn(Reference, s, pos, k, a, b, c, below, n);
    ChooseHere(s, k, pos, below);
    ChooseAppend(s, k, [Here(pos)], After(w, next), below);
    ChooseAfter(s, k, w, next, below);
    OneMoreRun(pos, w, next);
    ChooseAppend(s, k, After(w, Backwards(next)), [Here(pos)], below);
    ChooseAfter(s, k, w, Backwards(next), below);
    ChooseAfter(s, k, w, [next[|next| - 1]], below);
  }

  lemma OneMoreRun(i: nat, w: Way, next: seq<Way>)
    requires |next| > 0
    ensures var runs := [Here(i)] + After(w, next);
            && Backwards(runs) == After(w, Backwards(next)) + [Here(i)]
            && [runs[|runs| - 1]] == After(w, [next[|next| - 1]])
  {
    var runs := [Here(i)] + After(w, next);
    assert Backwards(runs) == After(w, Backwards(next)) + [Here(i)];
    assert [runs[|runs| - 1]] == After(w, [next[|next| - 1]]);
  }

  /** The runs in terms of those after one more iteration. */
  lemma RunsTurn(c: Res, s: seq<Code>, i: nat, b: nat, n: nat)
    requires i <= |s| && (b == 0 && |WaysAll(c, s, i)| > 0 ==> i < WaysAll(c, s, i)[0].end)
    ensures var ws, runs := WaysAll(c, s, i), Runs(c, s, i, b, n);
            runs == if (b != 0 && n >= b) || |ws| == 0 then [Here(i)]
                    else [Here(i)] + After(ws[0], Runs(c, s, ws[0].end, b, n + 1))
  {
    hide WaysAll;
  }

  /** The mandatory iterations lead to the run of that many, and the longer runs go on from there. */
  lemma {:induction false} MandatoryRun(s: seq<Code>, pos: nat, k: Captures, b: nat, c: Res, n: nat, m: nat)
    requires pos <= |s| && RepeatWellFormed(b, c) && DistinctIdsAll(c) && (b == 0 || n + m <= b)
    ensures var runs := Runs(c, s, pos, b, n);
            && Mandatory(Reference, s, pos, k, c, m)
               == (if |runs| <= m then Failed else Matched(runs[m].end, k + runs[m].groups))
            && (m < |runs| ==> runs[m..] == After(runs[m], Runs(c, s, runs[m].end, b, n + m)))
    decreases c, 3, |s| - pos, m
  {
    hide Evaluate, WaysAll, WellFormedAll, DistinctIdsAll, Runs, After, Mandatory, InRange, SizeAll;
    var ws := WaysAll(c, s, pos);
    FirstInRange(c, s, pos);
    CycleIsFirstWay(s, pos, k, c);
    MandatoryTurn(Reference, s, pos, k, c, m);
    if b == 0 && |ws| > 0 {
      CycleAdvances(Reference, s, pos, k, c);
    }
    if m == 0 {
      NoRunBefore(pos, k, Runs(c, s, pos, b, n));
    } else {
      RunsTurn(c, s, pos, b, n);
      if |ws| > 0 {
        var w, next := ws[0], Runs(c, s, ws[0].end, b, n + 1);
        MandatoryRun(s, w.end, k + w.groups, b, c, n + 1, m - 1);
        if m - 1 < |next| {
          OneRunBefore(pos, k, w, next, m, Runs(c, s, next[m - 1].end, b, n + m));
        }
      }
    }
  }

  lemma FirstInRange(c: Res, s: seq<Code>, i: nat)
    requires i <= |s|
    ensures |WaysAll(c, s, i)| > 0 ==> i <= WaysAll(c, s, i)[0].end <= |s|
  {
  }

  lemma NoRunBefore(i: nat, k: Captures, runs: seq<Way>)
    requires |runs| > 0 && runs[0] == Here(i)
    ensures k + runs[0].groups == k && runs[0..] == After(runs[0], runs)
  {
    forall m | 0 <= m < |runs| ensures runs[m] == After(runs[0], runs)[m] {
      assert map[] + runs[m].groups == runs[m].groups;
    }
  }

  lemma OneRunBefore(i: nat, k: Captures, w: Way, next: seq<Way>, m: nat, last: seq<Way>)
    requires 0 < m <= |next| && next[m - 1..] == After(next[m - 1], last)
    ensures var runs := [Here(i)] + After(w, next);
            && |runs| == 1 + |next| && runs[m].end == next[m - 1].end
            && k + w.groups + next[m - 1].groups == k + runs[m].groups && runs[m..] == After(runs[m], last)
  {
    var runs := [Here(i)] + After(w, next);
    MapsAssociate(k, w.groups, next[m - 1].groups);
    forall j | 0 <= j < |last| ensures runs[m..][j] == After(runs[m], last)[j] {
      assert next[m - 1..][j] == next[m - 1 + j];
      MapsAssociate(w.groups, next[m - 1].groups, last[j].groups);
    }
    assert |runs[m..]| == |next[m - 1..]| == |last|;
  }

  lemma MapsAssociate(a: Captures, b: Captures, c: Captures)
    ensures a + (b + c) == a + b + c
  {
  }

  lemma {:induction false} FirstWayRepeat(s: seq<Code>, pos: nat, k: Captures,
                                          mode: Mode, a: nat, b: nat, c: Res, below: Stack)
    requires pos <= |s| && RepeatWellFormed(b, c) && DistinctIdsAll(c) && (a <= b || b == 0)
    ensures EvaluateRepeat(Reference, s, pos, k, mode, a, b, c, below)
         == Choose(s, k, Offered(mode, a, Runs(c, s, pos, b, 0)), below)
    decreases c, 4, 0, 0
  {
    hide Evaluate, EvaluateRepeat, Mandatory, Choose, WaysAll, LazyLoop, GreedyLoop, PossessiveLoop, Runs;
    hide WellFormedAll, DistinctIdsAll, After, Backwards;
    RepeatTurn(Reference, s, pos, k, mode, a, b, c, below);
    var runs := Runs(c, s, pos, b, 0);
    NoChoice(s, k, below);
    if mode == Possessive {
      LoopsTakeRuns(s, pos, k, a, b, c, below, 0);
      RunsBounded(c, s, pos, b, 0);
      return;
    }
    MandatoryRun(s, pos, k, b, c, 0, a);
    if a < |runs| {
      var w, rest := runs[a], Runs(c, s, runs[a].end, b, a);
      LoopsTakeRuns(s, w.end, k + w.groups, a, b, c, below, a);
      ChooseAfter(s, k, w, rest, below);
      BackwardsAfter(w, rest);
      ChooseAfter(s, k, w, Backwards(rest), below);
    }
  }

  lemma BackwardsAfter(w: Way, vs: seq<Way>)
    ensures Backwards(After(w, vs)) == After(w, Backwards(vs))
  {
  }

  /** There is a run of at most b iterations, the one of none included. */
  lemma {:induction false} RunsBounded(c: Res, s: seq<Code>, i: nat, b: nat, n: nat)
    requires i <= |s| && (b == 0 || n <= b)
    ensures b == 0 || n + |Runs(c, s, i, b, n)| <= b + 1
    decreases |s| - i, if n < b then b - n else 0
  {
    hide WaysAll;
    var ws := WaysAll(c, s, i);
    if b != 0 && n < b && |ws| > 0 {
      RunsBounded(c, s, ws[0].end, b, n + 1);
    }
  }

  lemma NoChoice(s: seq<Code>, k: Captures, below: Stack)
    ensures Choose(s, k, [], below).Failed?
  {
  }

  // ----- what a full match and a search return -----

  /** Place m holds the first of the ways that end at j. */
  ghost predicate FirstEnding(ws: seq<Way>, m: nat, j: nat) {
    m < |ws| && ws[m].end == j && forall n | 0 <= n < m :: ws[n].end != j
  }

  lemma {:induction false} ChooseWhole(s: seq<Code>, ws: seq<Way>)
    requires InRange(ws, 0, |s|)
    ensures var r := Choose(s, map[], ws, Push(AssertEnd, Finish));
            && !r.Diverges?
            && (r.Failed? <==> forall m | 0 <= m < |ws| :: ws[m].end != |s|)
            && (r.Matched? ==> exists m: nat :: FirstEnding(ws, m, |s|) && r == Matched(|s|, ws[m].groups))
  {
    if |ws| > 0 {
      AtEndOnly(s, ws[0].end, map[] + ws[0].groups);
      ChooseWhole(s, ws[1..]);
      hide Evaluate;
      assert map[] + ws[0].groups == ws[0].groups;
      var r := Choose(s, map[], ws, Push(AssertEnd, Finish));
      if ws[0].end == |s| {
        assert FirstEnding(ws, 0, |s|);
      } else if r.Matched? {
        var m: nat :| FirstEnding(ws[1..], m, |s|) && r == Matched(|s|, ws[1..][m].groups);
        assert FirstEnding(ws, m + 1, |s|);
      }
      assert forall m | 0 < m < |ws| :: ws[m] == ws[1..][m - 1];
    }
  }

  lemma AtEndOnly(s: seq<Code>, p: nat, k: Captures)
    requires p <= |s|
    ensures Evaluate(Reference, s, p, k, Push(AssertEnd, Finish)) == if p == |s| then Matched(p, k) else Failed
  {
    assert Evaluate(Reference, s, p, k, Finish) == Matched(p, k);
  }

  /** `match_re` returns the groups of the first way of the pattern that takes the whole subject, and fails when none
      does. */
  lemma MatchTakesFirstWay(build: Build, s: seq<Code>, pattern: Re)
    requires WellFormed(pattern) && DistinctIds(pattern) && CaretSafe(Push(pattern, Push(AssertEnd, Finish)))
    ensures var ws, r := Ways(pattern, s, 0), MatchRe(build, s, pattern);
            && !r.Diverges?
            && (r.Failed? <==> forall m | 0 <= m < |ws| :: ws[m].end != |s|)
            && (r.Matched? ==> exists m: nat :: FirstEnding(ws, m, |s|) && r == Matched(|s|, ws[m].groups))
  {
    hide Ways, Evaluate, CaretSafe, Choose;
    MatchUnchanged(build, s, pattern);
    FirstWayTaken(s, 0, map[], pattern, Push(AssertEnd, Finish));
    ChooseWhole(s, Ways(pattern, s, 0));
  }

  /** An attempt of a search returns the end and the groups of the first way of the pattern from there, and fails when
      there is none. */
  lemma SearchTakesFirstWay(build: Build, s: seq<Code>, it: nat, pattern: Re)
    requires it <= |s| && WellFormed(pattern) && DistinctIds(pattern) && CaretSafe(Push(pattern, Finish))
    ensures var ws := Ways(pattern, s, it);
            SearchAt(build, s, it, pattern) == if |ws| == 0 then Failed else Matched(ws[0].end, ws[0].groups)
  {
    hide Ways, CaretSafe;
    SearchUnchanged(build, s, it, pattern);
    FirstWayTaken(s, it, map[], pattern, Finish);
    var ws := Ways(pattern, s, it);
    if |ws| > 0 {
      assert map[] + ws[0].groups == ws[0].groups;
    }
  }

  /** So a whole search returns the first way from the leftmost position that has one. */
  lemma SearchTakesLeftmostWay(build: Build, s: seq<Code>, pattern: Re, it: nat, r: Outcome)
    requires WellFormed(pattern) && DistinctIds(pattern) && CaretSafe(Push(pattern, Finish))
    requires SearchAnswer(build, s, pattern, it, r)
    ensures it <= |s| && forall i: nat | i < it :: Ways(pattern, s, i) == []
    ensures var ws := Ways(pattern, s, it);
            r == if |ws| == 0 then Failed else Matched(ws[0].end, ws[0].groups)
    ensures r.Failed? ==> it == |s|
  {
    hide Ways, CaretSafe, SearchAt;
    forall i: nat | i < it ensures Ways(pattern, s, i) == [] {
      SearchTakesFirstWay(build, s, i, pattern);
    }
    SearchTakesFirstWay(build, s, it, pattern);
  }

  // ----- the ways and the language -----

  ghost predicate EndInLanguage(ws: seq<Way>, c: Res, s: seq<Code>, i: nat) {
    forall m | 0 <= m < |ws| :: SpansAll(c, s, i, ws[m].end)
  }

  /** Run number m has m iterations. */
  ghost predicate EndRuns(runs: seq<Way>, c: Res, s: seq<Code>, i: nat) {
    forall m | 0 <= m < |runs| :: SpansTimes(c, m, s, i, runs[m].end)
  }

  /** Every way is a span of the tree. */
  lemma {:induction false} WaysAreSpans(re: Re, s: seq<Code>, i: nat)
    requires i <= |s| && BoundsOrdered(re)
    ensures forall m | 0 <= m < |Ways(re, s, i)| :: Spans(re, s, i, Ways(re, s, i)[m].end)
    decreases re, 0, 0, 0
  {
    match re
    case Select(c) => WaysOneAreSpans(c, s, i);
    case Optional(c) => WaysAllAreSpans(c, s, i);
    case LazyOptional(c) => WaysAllAreSpans(c, s, i);
    case Sequence(c) => WaysAllAreSpans(c, s, i);
    case Capture(_, c) => WaysAllAreSpans(c, s, i);
    case Plus(mode, c) => OfferedAreSpans(re, mode, 1, 0, c, s, i);
    case Star(mode, c) => OfferedAreSpans(re, mode, 0, 0, c, s, i);
    case Repeat(mode, a, b, c) => OfferedAreSpans(re, mode, a, b, c, s, i);
    case _ =>
  }

  lemma {:induction false} WaysOneAreSpans(c: Res, s: seq<Code>, i: nat)
    requires i <= |s| && BoundsOrderedAll(c)
    ensures forall m | 0 <= m < |WaysOne(c, s, i)| :: SpansOne(c, s, i, WaysOne(c, s, i)[m].end)
    decreases c, 1, 0, 0
  {
    match c
    case Single(re) => WaysAreSpans(re, s, i);
    case Cons(h, t) =>
      WaysAreSpans(h, s, i);
      WaysOneAreSpans(t, s, i);
  }

  lemma {:induction false} WaysAllAreSpans(c: Res, s: seq<Code>, i: nat)
    requires i <= |s| && BoundsOrderedAll(c)
    ensures EndInLanguage(WaysAll(c, s, i), c, s, i)
    decreases c, 1, 0, 0
  {
    match c
    case Single(re) => WaysAreSpans(re, s, i);
    case Cons(h, t) =>
      WaysAreSpans(h, s, i);
      ContinuedAreSpans(Ways(h, s, i), h, t, s, i);
  }

  lemma {:induction false} ContinuedAreSpans(ws: seq<Way>, h: Re, t: Res, s: seq<Code>, i: nat)
    requires i <= |s| && InRange(ws, i, |s|) && BoundsOrderedAll(t)
    requires forall m | 0 <= m < |ws| :: Spans(h, s, i, ws[m].end)
    ensures EndInLanguage(Continued(ws, t, s, i), Cons(h, t), s, i)
    decreases t, 2, 0, |ws|
  {
    hide Ways, WaysAll, Spans;
    if |ws| > 0 {
      WaysAllAreSpans(t, s, ws[0].end);
      ContinuedAreSpans(ws[1..], h, t, s, i);
    }
  }

  lemma {:induction false} RunsAreSpans(c: Res, s: seq<Code>, i: nat, b: nat, n: nat)
    requires i <= |s| && BoundsOrderedAll(c)
    ensures EndRuns(Runs(c, s, i, b, n), c, s, i)
    decreases c, 3, |s| - i, if n < b then b - n else 0
  {
    hide WaysAll, SpansAll, SpansTimes, EndRuns;
    var ws := WaysAll(c, s, i);
    if !((b != 0 && n >= b) || |ws| == 0 || (b == 0 && ws[0].end == i)) {
      WaysAllAreSpans(c, s, i);
      RunsTurn(c, s, i, b, n);
      RunsAreSpans(c, s, ws[0].end, b, n + 1);
      EndRunsAfter(c, s, i, ws[0], Runs(c, s, ws[0].end, b, n + 1));
    } else {
      EndRunsHere(c, s, i);
    }
  }

  lemma EndRunsHere(c: Res, s: seq<Code>, i: nat)
    requires i <= |s|
    ensures EndRuns([Here(i)], c, s, i)
  {
  }

  lemma EndRunsAfter(c: Res, s: seq<Code>, i: nat, w: Way, next: seq<Way>)
    requires i <= |s| && SpansAll(c, s, i, w.end) && EndRuns(next, c, s, w.end)
    ensures EndRuns([Here(i)] + After(w, next), c, s, i)
  {
    hide SpansAll, SpansTimes;
    var runs := [Here(i)] + After(w, next);
    NoIteration(c, s, i);
    forall m | 0 < m < |runs| ensures SpansTimes(c, m, s, i, runs[m].end) {
      assert SpansTimes(c, m - 1, s, w.end, next[m - 1].end);
      OneMore(c, m - 1, s, i, w.end, runs[m].end);
    }
  }

  lemma {:induction false} OfferedAreSpans(re: Re, mode: Mode, a: nat, b: nat, c: Res, s: seq<Code>, i: nat)
    requires i <= |s| && BoundsOrderedAll(c) && Repeated(re) && a == Low(re) && b == High(re) && c == re.content
    ensures forall m | 0 <= m < |Offered(mode, a, Runs(c, s, i, b, 0))| ::
              Spans(re, s, i, Offered(mode, a, Runs(c, s, i, b, 0))[m].end)
    decreases c, 4, 0, 0
  {
    var runs, ws := Runs(c, s, i, b, 0), Offered(mode, a, Runs(c, s, i, b, 0));
    RunsAreSpans(c, s, i, b, 0);
    RunsBounded(c, s, i, b, 0);
    forall m | 0 <= m < |ws| ensures Spans(re, s, i, ws[m].end) {
      var n := OfferedRun(mode, a, runs, m);
      assert InBounds(a, b, n) && SpansTimes(c, n, s, i, ws[m].end);
    }
  }

  /** The number of iterations of an offered run. */
  lemma OfferedRun(mode: Mode, a: nat, runs: seq<Way>, m: nat) returns (n: nat)
    requires m < |Offered(mode, a, runs)|
    ensures a <= n < |runs| && Offered(mode, a, runs)[m] == runs[n]
  {
    hide InRange, Records;
    n := match mode
      case Greedy => |runs| - 1 - m
      case Lazy => a + m
      case Possessive => |runs| - 1;
  }

  ghost predicate EndsAt(ws: seq<Way>, j: nat) {
    exists m :: 0 <= m < |ws| && ws[m].end == j
  }

  lemma EndsAtSome(ws: seq<Way>, vs: seq<Way>, us: seq<Way>, j: nat)
    requires ws == vs + us && (EndsAt(vs, j) || EndsAt(us, j))
    ensures EndsAt(ws, j)
  {
    if EndsAt(vs, j) {
      var m :| 0 <= m < |vs| && vs[m].end == j;
      assert ws[m].end == j;
    } else {
      var m :| 0 <= m < |us| && us[m].end == j;
      assert ws[|vs| + m].end == j;
    }
  }

  /** On regular trees every span is a way: the ways are the language, in order of preference. */
  lemma {:induction false} SpansAreWays(re: Re, s: seq<Code>, i: nat, j: nat)
    requires Regular(re) && Spans(re, s, i, j)
    ensures EndsAt(Ways(re, s, i), j)
    decreases re, 0, 0, 0
  {
    hide EndsAt;
    match re
    case Select(c) => SpansAreWaysOne(c, s, i, j);
    case Optional(c) =>
      EndsHere(i);
      if i < j { SpansAreWaysAll(c, s, i, j); }
      EndsAtSome(Ways(re, s, i), WaysAll(c, s, i), [Here(i)], j);
    case LazyOptional(c) =>
      EndsHere(i);
      if i < j { SpansAreWaysAll(c, s, i, j); }
      EndsAtSome(Ways(re, s, i), [Here(i)], WaysAll(c, s, i), j);
    case Sequence(c) => SpansAreWaysAll(c, s, i, j);
    case Capture(id, c) =>
      SpansAreWaysAll(c, s, i, j);
      EndsRecorded(id, i, WaysAll(c, s, i), j);
    case Plus(mode, c) => SpansAreOffered(re, mode, 1, 0, c, s, i, j);
    case Star(mode, c) => SpansAreOffered(re, mode, 0, 0, c, s, i, j);
    case Repeat(mode, a, b, c) => SpansAreOffered(re, mode, a, b, c, s, i, j);
    case Str(text) =>
      assert |s[i..j]| == j - i;
      EndsHere(j);
    case _ => EndsHere(j);
  }

  lemma EndsHere(j: nat)
    ensures EndsAt([Here(j)], j)
  {
    assert [Here(j)][0].end == j;
  }

  lemma EndsRecorded(id: nat, i: nat, vs: seq<Way>, j: nat)
    requires EndsAt(vs, j)
    ensures EndsAt(Recorded(id, i, vs), j)
  {
    var m :| 0 <= m < |vs| && vs[m].end == j;
    assert Recorded(id, i, vs)[m].end == j;
  }

  lemma {:induction false} SpansAreWaysOne(c: Res, s: seq<Code>, i: nat, j: nat)
    requires RegularAll(c) && i <= |s| && SpansOne(c, s, i, j)
    ensures EndsAt(WaysOne(c, s, i), j)
    decreases c, 1, 0, 0
  {
    hide EndsAt;
    match c
    case Single(re) => SpansAreWays(re, s, i, j);
    case Cons(h, t) =>
      if Spans(h, s, i, j) { SpansAreWays(h, s, i, j); } else { SpansAreWaysOne(t, s, i, j); }
      EndsAtSome(WaysOne(c, s, i), Ways(h, s, i), WaysOne(t, s, i), j);
  }

  lemma {:induction false} SpansAreWaysAll(c: Res, s: seq<Code>, i: nat, j: nat)
    requires RegularAll(c) && i <= |s| && SpansAll(c, s, i, j)
    ensures EndsAt(WaysAll(c, s, i), j)
    decreases c, 1, 0, 0
  {
    match c
    case Single(re) => SpansAreWays(re, s, i, j);
    case Cons(h, t) =>
      var m: nat :| Spans(h, s, i, m) && SpansAll(t, s, m, j);
      SpansAreWays(h, s, i, m);
      SpansAllInside(t, s, m, j);
      SpansAreWaysAll(t, s, m, j);
      EndsContinued(Ways(h, s, i), t, s, i, m, j);
  }

  lemma {:induction false} EndsContinued(ws: seq<Way>, t: Res, s: seq<Code>, i: nat, m: nat, j: nat)
    requires i <= |s| && InRange(ws, i, |s|) && EndsAt(ws, m) && m <= |s| && EndsAt(WaysAll(t, s, m), j)
    ensures EndsAt(Continued(ws, t, s, i), j)
    decreases |ws|
  {
    hide WaysAll;
    var vs := WaysAll(t, s, ws[0].end);
    if ws[0].end == m {
      var n :| 0 <= n < |vs| && vs[n].end == j;
      assert After(ws[0], vs)[n].end == j;
      assert EndsAt(After(ws[0], vs), j);
    } else {
      var n :| 0 <= n < |ws| && ws[n].end == m;
      assert ws[1..][n - 1].end == m;
      EndsContinued(ws[1..], t, s, i, m, j);
    }
    EndsAtSome(Continued(ws, t, s, i), After(ws[0], vs), Continued(ws[1..], t, s, i), j);
  }

  /** n iterations of a body of fixed width are run number n. */
  lemma {:induction false} SpansAreRuns(c: Res, s: seq<Code>, i: nat, b: nat, n0: nat, n: nat, j: nat)
    requires RegularAll(c) && TotalWidth(c).Fixed? && TotalWidth(c).n > 0 && i <= |s|
    requires SpansTimes(c, n, s, i, j) && (b == 0 || n0 + n <= b)
    ensures n < |Runs(c, s, i, b, n0)| && Runs(c, s, i, b, n0)[n].end == j
    decreases c, 3, n, 0
  {
    hide WaysAll, SpansAll, SpansTimes, RegularAll, TotalWidth, Runs, InRange;
    if n > 0 {
      var m := FirstIteration(c, s, i, n, j);
      var ws := WaysAll(c, s, i);
      RunsTurn(c, s, i, b, n0);
      SpansAreRuns(c, s, m, b, n0 + 1, n - 1, j);
    } else {
      NoIterationEnds(c, s, i, j);
    }
  }

  lemma NoIterationEnds(c: Res, s: seq<Code>, i: nat, j: nat)
    requires SpansTimes(c, 0, s, i, j)
    ensures i == j
  {
  }

  /** The first of n iterations is the preferred way of the body. */
  lemma {:induction false} FirstIteration(c: Res, s: seq<Code>, i: nat, n: nat, j: nat) returns (m: nat)
    requires RegularAll(c) && TotalWidth(c).Fixed? && TotalWidth(c).n > 0 && i <= |s| && n > 0
    requires SpansTimes(c, n, s, i, j)
    ensures i < m <= |s| && SpansTimes(c, n - 1, s, m, j)
    ensures |WaysAll(c, s, i)| > 0 && WaysAll(c, s, i)[0].end == m
    decreases c, 2, 0, 0
  {
    hide WaysAll, SpansAll, RegularAll, TotalWidth;
    m :| SpansAll(c, s, i, m) && SpansTimes(c, n - 1, s, m, j);
    SpansAreWaysAll(c, s, i, m);
    RegularWellFormedAll(c);
    WellFormedOrderedAll(c);
    WaysAllAreSpans(c, s, i);
    WidthOfAll(c, s, i, m);
    WidthOfAll(c, s, i, WaysAll(c, s, i)[0].end);
  }

  lemma {:induction false} SpansAreOffered(re: Re, mode: Mode, a: nat, b: nat, c: Res, s: seq<Code>, i: nat, j: nat)
    requires Repeated(re) && a == Low(re) && b == High(re) && mode == re.mode && c == re.content
    requires RegularAll(c) && RegularBody(mode, c) && Spans(re, s, i, j)
    ensures EndsAt(Offered(mode, a, Runs(c, s, i, b, 0)), j)
    decreases c, 4, 0, 0
  {
    hide Runs, SpansTimes, Spans, RegularAll, TotalWidth, EndsAt, Offered;
    var n := IterationsOf(re, s, i, j);
    SpansAreRuns(c, s, i, b, 0, n, j);
    RunIsOffered(mode, a, Runs(c, s, i, b, 0), n);
  }

  lemma IterationsOf(re: Re, s: seq<Code>, i: nat, j: nat) returns (n: nat)
    requires Repeated(re) && Spans(re, s, i, j)
    ensures Low(re) <= n && (High(re) == 0 || n <= High(re)) && SpansTimes(re.content, n, s, i, j) && i <= |s|
  {
    var a, b := Low(re), High(re);
    n :| InBounds(a, b, n) && SpansTimes(re.content, n, s, i, j);
    assert InBounds(a, b, n);
    assert a <= n;
  }

  lemma RunIsOffered(mode: Mode, a: nat, runs: seq<Way>, n: nat)
    requires a <= n < |runs| && mode != Possessive
    ensures EndsAt(Offered(mode, a, runs), runs[n].end)
  {
    hide InRange, Records;
    assert Offered(mode, a, runs)[if mode == Greedy then |runs| - 1 - n else n - a].end == runs[n].end;
  }

  // ----- groups that every way records -----

  /** The groups on every path through the tree. */
  function Unavoidable(re: Re): set<nat>
    decreases re
  {
    match re
    case Capture(id, c) => {id} + UnavoidableAll(c)
    case Sequence(c) => UnavoidableAll(c)
    case Select(c) => UnavoidableOne(c)
    case Plus(_, c) => UnavoidableAll(c)
    case Repeat(_, a, _, c) => if a > 0 then UnavoidableAll(c) else {}
    case _ => {}
  }

  function UnavoidableAll(c: Res): set<nat>
    decreases c
  {
    match c
    case Single(re) => Unavoidable(re)
    case Cons(h, t) => Unavoidable(h) + UnavoidableAll(t)
  }

  function UnavoidableOne(c: Res): set<nat>
    decreases c
  {
    match c
    case Single(re) => Unavoidable(re)
    case Cons(h, t) => Unavoidable(h) * UnavoidableOne(t)
  }

  ghost predicate AllRecord(ws: seq<Way>, ids: set<nat>) {
    forall m | 0 <= m < |ws| :: ids <= ws[m].groups.Keys
  }

  /** Every way records the groups on every path. */
  lemma {:induction false} UnavoidableRecorded(re: Re, s: seq<Code>, i: nat)
    requires i <= |s|
    ensures AllRecord(Ways(re, s, i), Unavoidable(re))
    decreases re, 0, 0, 0
  {
    match re
    case Capture(_, c) => UnavoidableRecordedAll(c, s, i);
    case Sequence(c) => UnavoidableRecordedAll(c, s, i);
    case Select(c) => UnavoidableRecordedOne(c, s, i);
    case Plus(mode, c) => UnavoidableOffered(mode, 1, 0, c, s, i);
    case Repeat(mode, a, b, c) => if a > 0 { UnavoidableOffered(mode, a, b, c, s, i); }
    case _ =>
  }

  lemma {:induction false} UnavoidableRecordedOne(c: Res, s: seq<Code>, i: nat)
    requires i <= |s|
    ensures AllRecord(WaysOne(c, s, i), UnavoidableOne(c))
    decreases c, 1, 0, 0
  {
    match c
    case Single(re) => UnavoidableRecorded(re, s, i);
    case Cons(h, t) =>
      UnavoidableRecorded(h, s, i);
      UnavoidableRecordedOne(t, s, i);
  }

  lemma {:induction false} UnavoidableRecordedAll(c: Res, s: seq<Code>, i: nat)
    requires i <= |s|
    ensures AllRecord(WaysAll(c, s, i), UnavoidableAll(c))
    decreases c, 1, 0, 0
  {
    match c
    case Single(re) => UnavoidableRecorded(re, s, i);
    case Cons(h, t) =>
      UnavoidableRecorded(h, s, i);
      UnavoidableContinued(Ways(h, s, i), t, s, i, Unavoidable(h));
  }

  lemma {:induction false} UnavoidableContinued(ws: seq<Way>, c: Res, s: seq<Code>, i: nat, ids: set<nat>)
    requires i <= |s| && InRange(ws, i, |s|) && AllRecord(ws, ids)
    ensures AllRecord(Continued(ws, c, s, i), ids + UnavoidableAll(c))
    decreases c, 2, 0, |ws|
  {
    hide WaysAll, UnavoidableAll;
    if |ws| > 0 {
      UnavoidableRecordedAll(c, s, ws[0].end);
      UnavoidableContinued(ws[1..], c, s, i, ids);
    }
  }

  lemma {:induction false} UnavoidableOffered(mode: Mode, a: nat, b: nat, c: Res, s: seq<Code>, i: nat)
    requires i <= |s| && a > 0
    ensures AllRecord(Offered(mode, a, Runs(c, s, i, b, 0)), UnavoidableAll(c))
    decreases c, 3, 0, 0
  {
    UnavoidableRecordedAll(c, s, i);
    hide WaysAll, UnavoidableAll, Runs, Offered;
    var runs, ids := Runs(c, s, i, b, 0), UnavoidableAll(c);
    LaterRuns(c, s, i, b);
    forall m | 0 <= m < |Offered(mode, a, runs)| ensures ids <= Offered(mode, a, runs)[m].groups.Keys {
      var n := OfferedRun(mode, a, runs, m);
    }
  }

  /** A run of at least one iteration records what the first iteration records. */
  lemma LaterRuns(c: Res, s: seq<Code>, i: nat, b: nat)
    requires i <= |s|
    ensures var ws, runs := WaysAll(c, s, i), Runs(c, s, i, b, 0);
            forall n | 0 < n < |runs| :: |ws| > 0 && ws[0].groups.Keys <= runs[n].groups.Keys
  {
    hide WaysAll;
  }

  /** So after a full match those groups are matched, and a pattern that is one group records the whole subject. */
  lemma MatchRecordsUnavoidable(build: Build, s: seq<Code>, pattern: Re)
    requires WellFormed(pattern) && DistinctIds(pattern) && CaretSafe(Push(pattern, Push(AssertEnd, Finish)))
    ensures var r := MatchRe(build, s, pattern);
            r.Matched? ==>
              && (forall id | id in Unavoidable(pattern) :: id in r.captures && r.captures[id].matched)
              && (pattern.Capture? ==> pattern.id in r.captures && r.captures[pattern.id] == Group(0, |s|, true))
  {
    hide WellFormed, DistinctIds, CaretSafe, MatchRe, Unavoidable, WaysAll;
    MatchTakesFirstWay(build, s, pattern);
    UnavoidableRecorded(pattern, s, 0);
    WaysRecordOwn(pattern, s, 0);
  }

  /** The same for an attempt of a search. */
  lemma SearchRecordsUnavoidable(build: Build, s: seq<Code>, it: nat, pattern: Re)
    requires it <= |s| && WellFormed(pattern) && DistinctIds(pattern) && CaretSafe(Push(pattern, Finish))
    ensures var r := SearchAt(build, s, it, pattern);
            r.Matched? ==>
              && (forall id | id in Unavoidable(pattern) :: id in r.captures && r.captures[id].matched)
              && (pattern.Capture? ==> pattern.id in r.captures && r.captures[pattern.id] == Group(it, r.end, true))
  {
    hide WellFormed, DistinctIds, CaretSafe, SearchAt, Unavoidable, WaysAll;
    SearchTakesFirstWay(build, s, it, pattern);
    UnavoidableRecorded(pattern, s, it);
    WaysRecordOwn(pattern, s, it);
  }

  // ----- what this means for one character -----

  /** A search attempt with an optional character takes the character when it is there. */
  lemma OptionalTakesCharacter(build: Build, s: seq<Code>, it: nat, m: Matcher)
    requires it <= |s|
    ensures SearchAt(build, s, it, Optional(Single(One(m))))
         == Matched(if it < |s| && Accepts(m, s[it]) then it + 1 else it, map[])
  {
    var re := Optional(Single(One(m)));
    OneCharacterSafe(re, m);
    SearchTakesFirstWay(build, s, it, re);
    hide SearchAt, CaretSafe, Accepts;
    assert WaysAll(Single(One(m)), s, it) == Ways(One(m), s, it);
  }

  /** A lazy one leaves it. */
  lemma LazyOptionalLeavesCharacter(build: Build, s: seq<Code>, it: nat, m: Matcher)
    requires it <= |s|
    ensures SearchAt(build, s, it, LazyOptional(Single(One(m)))) == Matched(it, map[])
  {
    var re := LazyOptional(Single(One(m)));
    OneCharacterSafe(re, m);
    SearchTakesFirstWay(build, s, it, re);
    hide SearchAt, CaretSafe, Accepts;
  }

  lemma OneCharacterSafe(re: Re, m: Matcher)
    requires (Repeated(re) && re.mode != Possessive && High(re) == 0) || re.Optional? || re.LazyOptional?
    requires re.content == Single(One(m))
    ensures WellFormed(re) && DistinctIds(re) && CaretSafe(Push(re, Finish))
  {
    var c := Single(One(m));
    assert WellFormed(One(m)) && Consumes(One(m)) && DistinctIds(One(m));
    assert CaretSafe(Push(One(m), EndCycle)) && CaretSafe(Push(One(m), Finish));
    assert CaretSafe(Push(Sequence(c), EndCycle)) && CaretSafe(Push(Sequence(c), Finish));
  }

  /** Where the run of accepted characters from i on ends. */
  function RunEnd(m: Matcher, s: seq<Code>, i: nat): (j: nat)
    requires i <= |s|
    ensures i <= j <= |s| && (forall p | i <= p < j :: Accepts(m, s[p])) && (j < |s| ==> !Accepts(m, s[j]))
    decreases |s| - i
  {
    if i < |s| && Accepts(m, s[i]) then RunEnd(m, s, i + 1) else i
  }

  lemma {:induction false} RunsOfCharacter(m: Matcher, s: seq<Code>, i: nat, n: nat)
    requires i <= |s|
    ensures var runs := Runs(Single(One(m)), s, i, 0, n);
            |runs| == RunEnd(m, s, i) - i + 1 && forall x | 0 <= x < |runs| :: runs[x] == Here(i + x)
    decreases |s| - i
  {
    hide Accepts;
    var c := Single(One(m));
    assert WaysAll(c, s, i) == Ways(One(m), s, i);
    if i < |s| && Accepts(m, s[i]) {
      RunsOfCharacter(m, s, i + 1, n + 1);
      var next := Runs(c, s, i + 1, 0, n + 1);
      assert Runs(c, s, i, 0, n) == [Here(i)] + After(Here(i + 1), next);
      assert forall x | 0 <= x < |next| :: map[] + next[x].groups == map[];
    }
  }

  /** A greedy star over one character takes the whole run of accepted characters, and a lazy one takes none. */
  lemma StarTakesRun(build: Build, s: seq<Code>, it: nat, m: Matcher)
    requires it <= |s|
    ensures SearchAt(build, s, it, Star(Greedy, Single(One(m)))) == Matched(RunEnd(m, s, it), map[])
    ensures SearchAt(build, s, it, Star(Lazy, Single(One(m)))) == Matched(it, map[])
  {
    OneCharacterSafe(Star(Greedy, Single(One(m))), m);
    OneCharacterSafe(Star(Lazy, Single(One(m))), m);
    SearchTakesFirstWay(build, s, it, Star(Greedy, Single(One(m))));
    SearchTakesFirstWay(build, s, it, Star(Lazy, Single(One(m))));
    RunsOfCharacter(m, s, it, 0);
    hide SearchAt, CaretSafe, Accepts, Runs;
  }
}
