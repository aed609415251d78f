/** The parsed tree means what the pattern says, and its groups are numbered in the order they are opened, although
    the parser flattens nested sequences and choices. */
module PatternMeaning {
  import opened RegexSyntax
  import opened RegexLanguage
  import opened PatternActions
  import opened PatternPrinter
  import opened PatternRoundTrip
  import PatternGrammar

  // ----- language -----

  lemma UnpackedMeans(re: Re, s: seq<Code>, i: nat, j: nat)
    ensures SpansAll(Unpacked(re), s, i, j) <==> Spans(re, s, i, j)
  {
    if re.Sequence? && SpansAll(re.content, s, i, j) {
      SpansAllInside(re.content, s, i, j);
    }
  }

  /** Building a sequence, a string included, is concatenation. */
  lemma SequenceMeans(a: Re, b: Re, s: seq<Code>, i: nat, j: nat)
    ensures Spans(MakeSequenceOf(a, b), s, i, j) <==> exists m: nat :: Spans(a, s, i, m) && Spans(b, s, m, j)
  {
    if IsCharacter(a) && (IsCharacter(b) || b.Str?) {
      var v, text := a.matcher.plain.value, if b.Str? then b.text else [b.matcher.plain.value];
      assert MakeSequenceOf(a, b) == Str([v] + text);
      StringMeans(v, text, s, i, j);
      forall m: nat ensures Spans(a, s, i, m) <==> m == i + 1 <= |s| && s[i] == v {
        CharacterMeans(a, s, i, m);
      }
      if IsCharacter(b) && i < |s| {
        CharacterMeans(b, s, i + 1, j);
        StringOfOne(s, i + 1, j);
      }
    } else {
      var c := Cons(a, Unpacked(b));
      forall m: nat ensures SpansAll(Unpacked(b), s, m, j) <==> Spans(b, s, m, j) {
        UnpackedMeans(b, s, m, j);
      }
      assert MakeSequenceOf(a, b) == Re.Sequence(c);
      if Spans(Re.Sequence(c), s, i, j) {
        assert SpansAll(c, s, i, j);
        var m: nat :| Spans(a, s, i, m) && SpansAll(Unpacked(b), s, m, j);
        assert Spans(b, s, m, j);
      } else if m: nat :| Spans(a, s, i, m) && Spans(b, s, m, j) {
        assert SpansAll(Unpacked(b), s, m, j);
        assert SpansAll(c, s, i, j);
      }
    }
  }

  lemma CharacterMeans(a: Re, s: seq<Code>, i: nat, m: nat)
    requires IsCharacter(a)
    ensures Spans(a, s, i, m) <==> m == i + 1 <= |s| && s[i] == a.matcher.plain.value
  {
  }

  lemma StringOfOne(s: seq<Code>, i: nat, j: nat)
    ensures forall c: Code :: i <= j <= |s| ==> (s[i..j] == [c] <==> j == i + 1 && s[i] == c)
  {
  }

  lemma StringMeans(c: Code, text: seq<Code>, s: seq<Code>, i: nat, j: nat)
    ensures Spans(Str([c] + text), s, i, j) <==> i < |s| && s[i] == c && Spans(Str(text), s, i + 1, j)
  {
    if i < j <= |s| {
      assert s[i..j] == [s[i]] + s[i + 1..j];
    }
  }

  lemma AlternateMeans(a: Re, b: Re, s: seq<Code>, i: nat, j: nat)
    ensures Spans(MakeAlternateOf(a, b), s, i, j) <==> Spans(a, s, i, j) || Spans(b, s, i, j)
  {
    var o := if b.Select? then b.options else Single(b);
    assert SpansOne(Cons(a, o), s, i, j) <==> Spans(a, s, i, j) || SpansOne(o, s, i, j);
    assert Spans(b, s, i, j) <==> i <= j <= |s| && SpansOne(o, s, i, j);
  }

  // ----- counted repeats -----

  /** The counts are as the tree can hold them: the upper ones are not 0, which the tree reads as "no bound", the
      bounds are in order, and all fit the type size_t. */
  predicate CountsFit(times: Times) {
    match times
    case Exactly(n) => 0 < n < SIZE_LIMIT
    case AtLeast(n, _) => n < SIZE_LIMIT
    case Between(a, b, _) => a <= b && 0 < b < SIZE_LIMIT
    case _ => true
  }

  predicate AtomFits(a: Atom)
    decreases a
  {
    match a
    case Group(p) => Fits(p)
    case NonCapturing(p) => Fits(p)
    case _ => true
  }

  predicate TermsFit(ts: Terms)
    decreases ts
  {
    CountsFit(ts.term.times) && AtomFits(ts.term.atom) && (ts.Then? ==> TermsFit(ts.others))
  }

  /** All counts of the pattern fit. */
  predicate Fits(p: Pattern)
    decreases p
  {
    match p
    case Void => true
    case Branch(ts) => TermsFit(ts)
    case Either(ts, others) => TermsFit(ts) && Fits(others)
  }

  lemma {:induction false} TimesInside(a: Atom, n: nat, s: seq<Code>, i: nat, j: nat)
    requires AtomTimes(a, n, s, i, j)
    ensures i <= j <= |s|
    decreases n
  {
    if n > 0 {
      var m: nat :| AtomSpans(a, s, i, m) && AtomTimes(a, n - 1, s, m, j);
      TimesInside(a, n - 1, s, m, j);
    }
  }

  lemma {:induction false} AtomMeans(a: Atom, n: nat, s: seq<Code>, i: nat, j: nat)
    requires AtomFits(a)
    ensures Spans(BuildAtom(a, n).re, s, i, j) <==> AtomSpans(a, s, i, j)
    decreases a, 0
  {
    match a
    case Literal(c) => CharacterMeans(BuildAtom(a, n).re, s, i, j);
    case Dot =>
    case Class(letter) => if i < |s| { ClassMeans(letter, s[i]); }
    case LineStart =>
    case LineEnd =>
    case Group(p) =>
      var re := BuildPattern(p, n + 1).re;
      PatternMeans(p, n + 1, s, i, j);
      UnpackedMeans(re, s, i, j);
      assert Spans(re, s, i, j) ==> i <= j <= |s|;
    case NonCapturing(p) =>
      PatternMeans(p, n, s, i, j);
      assert Spans(BuildPattern(p, n).re, s, i, j) ==> i <= j <= |s|;
  }

  lemma ClassMeans(letter: Letter, c: Code)
    ensures Accepts(ClassOf(letter), c) <==> InClass(letter, c)
  {
    assert forall p :: Accepts(Simple(p), c) <==> PlainAccepts(p, c);
    match letter
    case D => assert ClassOf(letter).members[0] == Simple(DIGIT_CHARS);
    case NotD => assert ClassOf(letter).excluded[0] == DIGIT_CHARS;
    case S => assert ClassOf(letter).members[0] == Simple(SPACE_CHARS);
    case NotS => assert ClassOf(letter).excluded[0] == SPACE_CHARS;
    case W => assert ClassOf(letter).members[0] == Simple(WORD_CHARS); WordMeans(c);
    case NotW => assert ClassOf(letter).excluded[0] == WORD_CHARS; WordMeans(c);
    case NotNewline => assert ClassOf(letter).excluded[0] == Character(10);
  }

  lemma WordMeans(c: Code)
    ensures PlainAccepts(WORD_CHARS, c) <==> InClass(W, c)
  {
    assert forall p | p in WORD_CHARS.items :: p.CharRange? || p.Character?;
    assert WORD_CHARS.items[0] == CharRange(65, 90) && WORD_CHARS.items[1] == CharRange(97, 122);
    assert WORD_CHARS.items[2] == CharRange(48, 57) && WORD_CHARS.items[3] == Character(95);
  }

  lemma {:induction false} TimesMean(a: Atom, n: nat, times: nat, s: seq<Code>, i: nat, j: nat)
    requires AtomFits(a)
    ensures SpansTimes(Unpacked(BuildAtom(a, n).re), times, s, i, j) <==> AtomTimes(a, times, s, i, j)
    decreases a, 1, times
  {
    if times > 0 {
      var re := BuildAtom(a, n).re;
      forall m: nat
        ensures SpansAll(Unpacked(re), s, i, m) <==> AtomSpans(a, s, i, m)
        ensures SpansTimes(Unpacked(re), times - 1, s, m, j) <==> AtomTimes(a, times - 1, s, m, j)
      {
        AtomMeans(a, n, s, i, m);
        UnpackedMeans(re, s, i, m);
        TimesMean(a, n, times - 1, s, m, j);
      }
    }
  }

  lemma {:induction false} TermMeans(t: Term, n: nat, s: seq<Code>, i: nat, j: nat)
    requires AtomFits(t.atom) && CountsFit(t.times)
    ensures Spans(BuildTerm(t, n).re, s, i, j) <==> TermSpans(t, s, i, j)
    decreases t
  {
    hide BuildAtom, Unpacked;
    var re := BuildAtom(t.atom, n).re;
    AtomMeans(t.atom, n, s, i, j);
    UnpackedMeans(re, s, i, j);
    forall k: nat
      ensures SpansTimes(Unpacked(re), k, s, i, j) <==> AtomTimes(t.atom, k, s, i, j)
      ensures AtomTimes(t.atom, k, s, i, j) ==> i <= j <= |s|
    {
      TimesMean(t.atom, n, k, s, i, j);
      if AtomTimes(t.atom, k, s, i, j) {
        TimesInside(t.atom, k, s, i, j);
      }
    }
    if t.times.Exactly? {
      BoundedMeans(Unpacked(re), t.times.n, t.times.n, Greedy, s, i, j);
    } else if t.times.AtLeast? {
      BoundedMeans(Unpacked(re), t.times.n, 0, t.times.mode, s, i, j);
    } else if t.times.Between? {
      BoundedMeans(Unpacked(re), t.times.a, t.times.b, t.times.mode, s, i, j);
    }
  }

  lemma CountOfRepeat(mode: Mode, a: nat, b: nat, c: Res, s: seq<Code>, i: nat, j: nat) returns (k: nat)
    requires Spans(Re.Repeat(mode, a, b, c), s, i, j)
    ensures InBounds(a, b, k) && SpansTimes(c, k, s, i, j)
  {
    k :| InBounds(a, b, k) && SpansTimes(c, k, s, i, j);
  }

  lemma BoundedMeans(c: Res, a: nat, b: nat, mode: Mode, s: seq<Code>, i: nat, j: nat)
    requires a < SIZE_LIMIT && b < SIZE_LIMIT
    ensures Spans(Re.Repeat(mode, a % SIZE_LIMIT, b % SIZE_LIMIT, c), s, i, j)
       <==> i <= j <= |s| && exists k: nat :: a <= k && (b == 0 || k <= b) && SpansTimes(c, k, s, i, j)
  {
    assert a % SIZE_LIMIT == a && b % SIZE_LIMIT == b;
    if Spans(Re.Repeat(mode, a, b, c), s, i, j) {
      var k := CountOfRepeat(mode, a, b, c, s, i, j);
      assert exists k: nat :: a <= k && (b == 0 || k <= b) && SpansTimes(c, k, s, i, j);
    } else if k: nat :| i <= j <= |s| && a <= k && (b == 0 || k <= b) && SpansTimes(c, k, s, i, j) {
      assert InBounds(a, b, k);
    }
  }

  lemma SplitTerms(t: Term, others: Terms, s: seq<Code>, i: nat, j: nat) returns (m: nat)
    requires TermsSpan(Then(t, others), s, i, j)
    ensures TermSpans(t, s, i, m) && TermsSpan(others, s, m, j)
  {
    m :| TermSpans(t, s, i, m) && TermsSpan(others, s, m, j);
  }

  lemma {:induction false} TermsMean(ts: Terms, n: nat, s: seq<Code>, i: nat, j: nat)
    requires TermsFit(ts)
    ensures Spans(BuildTerms(ts, n).re, s, i, j) <==> TermsSpan(ts, s, i, j)
    decreases ts
  {
    match ts
    case Last(t) => TermMeans(t, n, s, i, j);
    case Then(t, others) =>
      var a := BuildTerm(t, n);
      var b := BuildTerms(others, a.counter);
      SequenceMeans(a.re, b.re, s, i, j);
      forall m: nat
        ensures Spans(a.re, s, i, m) <==> TermSpans(t, s, i, m)
        ensures Spans(b.re, s, m, j) <==> TermsSpan(others, s, m, j)
      {
        TermMeans(t, n, s, i, m);
        TermsMean(others, a.counter, s, m, j);
      }
      assert BuildTerms(ts, n).re == MakeSequenceOf(a.re, b.re);
      if TermsSpan(ts, s, i, j) {
        var m := SplitTerms(t, others, s, i, j);
        assert Spans(a.re, s, i, m) && Spans(b.re, s, m, j);
      }
  }

  /** The parsed tree has the language of the pattern. */
  lemma {:induction false} PatternMeans(p: Pattern, n: nat, s: seq<Code>, i: nat, j: nat)
    requires Fits(p)
    ensures Spans(BuildPattern(p, n).re, s, i, j) <==> PatternSpans(p, s, i, j)
    decreases p
  {
    match p
    case Void =>
    case Branch(ts) => TermsMean(ts, n, s, i, j);
    case Either(ts, others) =>
      var a := BuildTerms(ts, n);
      var b := BuildPattern(others, a.counter);
      AlternateMeans(a.re, b.re, s, i, j);
      TermsMean(ts, n, s, i, j);
      PatternMeans(others, a.counter, s, i, j);
  }

  // ----- where a count is not kept -----

  ghost predicate AllAre(c: Code, s: seq<Code>, i: nat, j: nat) {
    i <= j <= |s| && forall k | i <= k < j :: s[k] == c
  }

  lemma {:induction false} LiteralTimes(c: Code, n: nat, s: seq<Code>, i: nat, j: nat)
    ensures AtomTimes(Literal(c), n, s, i, j) <==> j == i + n && AllAre(c, s, i, j)
    decreases n
  {
    if n > 0 {
      forall m: nat
        ensures AtomSpans(Literal(c), s, i, m) <==> m == i + 1 <= |s| && s[i] == c
        ensures AtomTimes(Literal(c), n - 1, s, m, j) <==> j == m + n - 1 && AllAre(c, s, m, j)
      {
        LiteralTimes(c, n - 1, s, m, j);
      }
      if j == i + n && AllAre(c, s, i, j) {
        assert AtomSpans(Literal(c), s, i, i + 1) && AtomTimes(Literal(c), n - 1, s, i + 1, j);
      }
    }
  }

  /** What the tree of c{n} accepts: n modulo 2^64 copies, and any number of them when that is 0. */
  lemma CountedLiteralTree(c: Code, n: nat, s: seq<Code>, i: nat, j: nat)
    ensures Spans(BuildTerm(Term(Literal(c), Exactly(n)), 0).re, s, i, j)
       <==> AllAre(c, s, i, j) && (n % SIZE_LIMIT == 0 || j == i + n % SIZE_LIMIT)
  {
    var a, m := Literal(c), n % SIZE_LIMIT;
    var body := Unpacked(BuildAtom(a, 0).re);
    forall k: nat ensures SpansTimes(body, k, s, i, j) <==> j == i + k && AllAre(c, s, i, j) {
      TimesMean(a, 0, k, s, i, j);
      LiteralTimes(c, k, s, i, j);
    }
    if AllAre(c, s, i, j) && (m == 0 || j == i + m) {
      assert InBounds(m, m, j - i) && SpansTimes(body, j - i, s, i, j);
    }
  }

  /** A counted character means what was written if and only if its count is neither 0 nor too large for size_t. */
  lemma ExactCountKeptIff(c: Code, n: nat)
    ensures (forall s: seq<Code>, i: nat, j: nat ::
               Spans(BuildTerm(Term(Literal(c), Exactly(n)), 0).re, s, i, j)
               <==> TermSpans(Term(Literal(c), Exactly(n)), s, i, j))
       <==> 0 < n < 0x1_0000_0000_0000_0000
  {
    var t, m := Term(Literal(c), Exactly(n)), n % SIZE_LIMIT;
    if 0 < n < SIZE_LIMIT {
      forall s: seq<Code>, i: nat, j: nat ensures Spans(BuildTerm(t, 0).re, s, i, j) <==> TermSpans(t, s, i, j) {
        TermMeans(t, 0, s, i, j);
      }
    } else {
      var len := if m == 0 then 1 else m;
      var s := seq(len, k => c);
      CountedLiteralTree(c, n, s, 0, len);
      LiteralTimes(c, n, s, 0, len);
      assert Spans(BuildTerm(t, 0).re, s, 0, len) && !TermSpans(t, s, 0, len);
    }
  }
}
