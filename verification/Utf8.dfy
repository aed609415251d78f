/** The UTF-8 branch of `ctll::fixed_string`. */
module Utf8 {

  type Byte = bv8

  /** A code unit of 32 bits, `char32_t`. */
  type Unit = bv32

  /** `length_value_t`; length 0 marks a byte that cannot begin a character. */
  datatype LengthValue = LengthValue(value: Unit, length: nat)

  /** `length_and_value_of_utf8_code_point`. */
  function LengthAndValue(first: Byte): (r: LengthValue)
    ensures r.length <= 6
  {
    if first & 0x80 == 0x00 then LengthValue(first as Unit, 1)
    else if first & 0xE0 == 0xC0 then LengthValue((first & 0x1F) as Unit, 2)
    else if first & 0xF0 == 0xE0 then LengthValue((first & 0x0F) as Unit, 3)
    else if first & 0xF8 == 0xF0 then LengthValue((first & 0x07) as Unit, 4)
    else if first & 0xFC == 0xF8 then LengthValue((first & 0x03) as Unit, 5)
    else if first & 0xFC == 0xFC then LengthValue((first & 0x01) as Unit, 6)
    else LengthValue(0, 0)
  }

  predicate Continuation(b: Byte) {
    b & 0xC0 == 0x80
  }

  /** `value_of_trailing_utf8_code_point`, without the flag. */
  function TrailingValue(b: Byte): Unit {
    if Continuation(b) then (b & 0x3F) as Unit else 0
  }

  /** One fall-through case of the switch: the next byte, if there is one, is taken in. */
  datatype State = State(i: nat, value: Unit, correct: bool)

  function TakeIn(s: seq<Byte>, st: State): State {
    var i := st.i + 1;
    if i < |s| then State(i, (st.value << 6) | TrailingValue(s[i]), st.correct && Continuation(s[i]))
    else State(i, st.value, st.correct)
  }

  function TakeInMany(s: seq<Byte>, n: nat, st: State): (r: State)
    ensures r.i == st.i + n
    decreases n
  {
    if n == 0 then st else TakeInMany(s, n - 1, TakeIn(s, st))
  }

  datatype Decoded = Decoded(values: seq<Unit>, correct: bool)

  /** What the loop of the constructor produces from index i on. */
  function DecodeFrom(s: seq<Byte>, i: nat): (r: Decoded)
    ensures i + |r.values| <= |s| || r.values == []
    decreases |s| - i
  {
    if i >= |s| || (i == |s| - 1 && s[i] == 0) then Decoded([], true)
    else
      var info := LengthAndValue(s[i]);
      if info.length == 0 then Decoded([], false)
      else
        var st := TakeInMany(s, info.length - 1, State(i, info.value, true));
        var rest := DecodeFrom(s, st.i + 1);
        Decoded([st.value] + rest.values, st.correct && rest.correct)
  }

  lemma DecodeEnd(s: seq<Byte>, i: nat)
    requires i >= |s| || (i == |s| - 1 && s[i] == 0)
    ensures DecodeFrom(s, i) == Decoded([], true)
  {
  }

  /** One turn of the loop. */
  lemma DecodeStep(s: seq<Byte>, i: nat)
    requires i < |s|
    ensures var info, d := LengthAndValue(s[i]), DecodeFrom(s, i);
            if i == |s| - 1 && s[i] == 0 then d == Decoded([], true)
            else if info.length == 0 then d == Decoded([], false)
            else
              var st := TakeInMany(s, info.length - 1, State(i, info.value, true));
              var rest := DecodeFrom(s, st.i + 1);
              d == Decoded([st.value] + rest.values, st.correct && rest.correct)
  {
  }

  /** Where the loop stands at index i: done was decoded so far, with the given flag. */
  ghost predicate Reached(s: seq<Byte>, i: nat, done: seq<Unit>, correct: bool) {
    var rest := DecodeFrom(s, i);
    DecodeFrom(s, 0) == Decoded(done + rest.values, correct && rest.correct)
  }

  lemma ReachedStart(s: seq<Byte>)
    ensures Reached(s, 0, [], true)
  {
    assert [] + DecodeFrom(s, 0).values == DecodeFrom(s, 0).values;
  }

  lemma ReachedEnd(s: seq<Byte>, i: nat, done: seq<Unit>, correct: bool)
    requires Reached(s, i, done, correct) && (i >= |s| || (i == |s| - 1 && s[i] == 0))
    ensures DecodeFrom(s, 0) == Decoded(done, correct)
  {
    DecodeEnd(s, i);
  }

  lemma ReachedBadLead(s: seq<Byte>, i: nat, done: seq<Unit>, correct: bool)
    requires Reached(s, i, done, correct) && i < |s| && !(i == |s| - 1 && s[i] == 0)
    requires LengthAndValue(s[i]).length == 0
    ensures DecodeFrom(s, 0) == Decoded(done, false)
  {
    hide DecodeFrom, LengthAndValue;
    DecodeStep(s, i);
  }

  lemma ReachedNext(s: seq<Byte>, i: nat, done: seq<Unit>, correct: bool, st: State)
    requires Reached(s, i, done, correct) && i < |s| && !(i == |s| - 1 && s[i] == 0)
    requires var info := LengthAndValue(s[i]);
             info.length >= 1 && st == TakeInMany(s, info.length - 1, State(i, info.value, true))
    ensures Reached(s, st.i + 1, done + [st.value], correct && st.correct)
  {
    hide DecodeFrom, LengthAndValue, TakeInMany;
    DecodeStep(s, i);
    Regroup(done, st.value, DecodeFrom(s, st.i + 1).values);
  }

  lemma Regroup<T>(a: seq<T>, x: T, b: seq<T>)
    ensures a + ([x] + b) == a + [x] + b
  {
  }

  class FixedString {
    const content: array<Unit>
    var realSize: nat
    var correctFlag: bool

    /** The constructor from an array of bytes. */
    constructor (input: array<Byte>)
      requires input.Length > 0
      ensures fresh(content) && content.Length == input.Length
      ensures var d := DecodeFrom(input[..], 0);
              && realSize == |d.values| <= content.Length && content[..realSize] == d.values && correctFlag == d.correct
      ensures forall k | realSize <= k < content.Length :: content[k] == 0
    {
      hide TakeInMany, LengthAndValue, DecodeFrom, Reached;
      content := new Unit[input.Length](_ => 0);
      realSize, correctFlag := 0, true;
      new;
      ghost var s, done := input[..], [];
      ReachedStart(s);
      var i := 0;
      while i < input.Length
        invariant realSize <= i && realSize <= content.Length && input[..] == s
        invariant content[..realSize] == done && Reached(s, i, done, correctFlag)
        invariant forall k | realSize <= k < content.Length :: content[k] == 0
        decreases input.Length - i
      {
        if i == input.Length - 1 && input[i] == 0 {
          break;
        }
        var info := LengthAndValue(input[i]);
        if info.length == 0 {
          ReachedBadLead(s, i, done, correctFlag);
          correctFlag := false;
          return;
        }
        var st := Unwind(input, info.length, State(i, info.value, true));
        ReachedNext(s, i, done, correctFlag, st);
        content[realSize] := st.value;
        done := done + [st.value];
        realSize, correctFlag := realSize + 1, correctFlag && st.correct;
        i := st.i + 1;
      }
      ReachedEnd(s, i, done, correctFlag);
    }

    /** The switch: it is entered at the case for the length and falls through to the case of one byte. */
    static method Unwind(input: array<Byte>, length: nat, st0: State) returns (st: State)
      requires 1 <= length <= 6
      ensures st == TakeInMany(input[..], length - 1, st0)
    {
      st := st0;
      if length >= 6 { st := NextByte(input, st); }
      if length >= 5 { st := NextByte(input, st); }
      if length >= 4 { st := NextByte(input, st); }
      if length >= 3 { st := NextByte(input, st); }
      if length >= 2 { st := NextByte(input, st); }
    }

    static method NextByte(input: array<Byte>, st0: State) returns (st: State)
      ensures st == TakeIn(input[..], st0)
    {
      var i, value, correct := st0.i + 1, st0.value, st0.correct;
      if i < input.Length {
        value := (value << 6) | TrailingValue(input[i]);
        if !Continuation(input[i]) {
          correct := false;
        }
      }
      st := State(i, value, correct);
    }
  }

  // ----- correctness of the flag -----

  /** The lead bytes as the code reads them, and as section 2 of RFC 2279 defines them. */
  datatype Standard = AsCoded | Rfc2279

  function LeadLength(standard: Standard, b: Byte): nat {
    match standard
    case AsCoded => LengthAndValue(b).length
    case Rfc2279 =>
      if b < 0x80 then 1
      else if b < 0xC0 then 0
      else if b < 0xE0 then 2
      else if b < 0xF0 then 3
      else if b < 0xF8 then 4
      else if b < 0xFC then 5
      else if b < 0xFE then 6
      else 0
  }

  /** The code takes the two bytes that never occur in UTF-8 for lead bytes of six; otherwise it follows the RFC. */
  lemma LeadLengths(b: Byte)
    ensures LeadLength(AsCoded, b) == if b >= 0xFE then 6 else LeadLength(Rfc2279, b)
    ensures b >= 0xFE ==> !Continuation(b)
  {
  }

  /** A lead byte followed by the right number of continuation bytes. */
  ghost predicate Group(standard: Standard, g: seq<Byte>) {
    |g| >= 1 && LeadLength(standard, g[0]) == |g| && forall k | 1 <= k < |g| :: Continuation(g[k])
  }

  ghost function Concat(gs: seq<seq<Byte>>): seq<Byte> {
    if |gs| == 0 then [] else gs[0] + Concat(gs[1..])
  }

  ghost predicate Grouping(standard: Standard, gs: seq<seq<Byte>>, s: seq<Byte>) {
    Concat(gs) == s && forall g | g in gs :: Group(standard, g)
  }

  ghost predicate Splits(standard: Standard, s: seq<Byte>) {
    exists gs :: Grouping(standard, gs, s)
  }

  lemma SplitsFirst(standard: Standard, s: seq<Byte>, n: nat)
    requires |s| > 0 && n == LeadLength(standard, s[0])
    ensures Splits(standard, s) <==>
              1 <= n <= |s| && (forall k | 1 <= k < n :: Continuation(s[k])) && Splits(standard, s[n..])
  {
    if Splits(standard, s) {
      var gs :| Grouping(standard, gs, s);
      var g := gs[0];
      assert Group(standard, g) && s[..|g|] == g && s[|g|..] == Concat(gs[1..]);
      assert g[0] == s[0] && forall k | 1 <= k < |g| :: g[k] == s[k];
      assert Grouping(standard, gs[1..], s[n..]);
    }
    if 1 <= n <= |s| && (forall k | 1 <= k < n :: Continuation(s[k])) && Splits(standard, s[n..]) {
      var gs :| Grouping(standard, gs, s[n..]);
      assert ([s[..n]] + gs)[1..] == gs;
      assert s[..n] + s[n..] == s;
      assert Grouping(standard, [s[..n]] + gs, s);
    }
  }

  lemma SplitsNothing(standard: Standard)
    ensures Splits(standard, [])
  {
    assert Grouping(standard, [], []);
  }

  lemma {:induction false} TakeInFlag(s: seq<Byte>, n: nat, st: State)
    ensures TakeInMany(s, n, st).correct <==>
              st.correct && forall k | st.i < k <= st.i + n && k < |s| :: Continuation(s[k])
    decreases n
  {
    if n > 0 {
      TakeInFlag(s, n - 1, TakeIn(s, st));
    }
  }

  lemma {:induction false} FlagFrom(s: seq<Byte>, i: nat)
    requires i < |s| && s[|s| - 1] == 0
    ensures DecodeFrom(s, i).correct <==> Splits(AsCoded, s[i..|s| - 1])
    decreases |s| - i
  {
    hide DecodeFrom, TakeInMany, LengthAndValue, Splits;
    var m, body := |s| - 1, s[i..|s| - 1];
    if i == m {
      assert body == [];
      SplitsNothing(AsCoded);
      DecodeEnd(s, i);
    } else {
      var info := LengthAndValue(s[i]);
      var n := info.length;
      SplitsFirst(AsCoded, body, n);
      DecodeStep(s, i);
      if n >= 1 {
        TakeInFlag(s, n - 1, State(i, info.value, true));
        assert !Continuation(s[m]);
        if i + n <= m {
          FlagFrom(s, i + n);
          assert body[n..] == s[i + n..m];
          assert forall k | 1 <= k < n :: body[k] == s[i + k];
        }
      }
    }
  }

  /** For a NUL-terminated array the flag says exactly whether the bytes before the NUL split into characters. */
  lemma CorrectIffSplits(s: seq<Byte>)
    requires |s| >= 1 && s[|s| - 1] == 0
    ensures DecodeFrom(s, 0).correct <==> Splits(AsCoded, s[..|s| - 1])
  {
    FlagFrom(s, 0);
    assert s[0..|s| - 1] == s[..|s| - 1];
  }

  /** The bytes FE and FF do not occur. */
  predicate NoForeign(s: seq<Byte>) {
    forall k | 0 <= k < |s| :: s[k] < 0xFE
  }

  lemma {:induction false} SplitsAgree(s: seq<Byte>)
    ensures Splits(Rfc2279, s) <==> Splits(AsCoded, s) && NoForeign(s)
    decreases |s|
  {
    if |s| == 0 {
      SplitsNothing(AsCoded);
      SplitsNothing(Rfc2279);
      assert s == [];
    } else {
      LeadLengths(s[0]);
      var n := LeadLength(AsCoded, s[0]);
      SplitsFirst(AsCoded, s, n);
      SplitsFirst(Rfc2279, s, LeadLength(Rfc2279, s[0]));
      if 1 <= n <= |s| && forall k | 1 <= k < n :: Continuation(s[k]) {
        SplitsAgree(s[n..]);
        forall k | 1 <= k < n ensures s[k] < 0xFE {
          LeadLengths(s[k]);
        }
        assert NoForeign(s) <==> s[0] < 0xFE && NoForeign(s[n..]) by {
          assert forall k | n <= k < |s| :: s[k] == s[n..][k - n];
        }
      }
    }
  }

  /** It says whether they split as RFC 2279 asks, provided the bytes FE and FF do not occur. */
  lemma Rfc2279IffCorrect(s: seq<Byte>)
    requires |s| >= 1 && s[|s| - 1] == 0
    ensures Splits(Rfc2279, s[..|s| - 1]) <==> DecodeFrom(s, 0).correct && NoForeign(s[..|s| - 1])
  {
    CorrectIffSplits(s);
    SplitsAgree(s[..|s| - 1]);
  }

  /** The byte FE, which UTF-8 never uses, is accepted at the head of six bytes. */
  lemma ForeignLeadAccepted()
    ensures var s: seq<Byte> := [0xFE, 0x80, 0x80, 0x80, 0x80, 0x80, 0];
            DecodeFrom(s, 0).correct && !Splits(Rfc2279, s[..6])
  {
    var s: seq<Byte> := [0xFE, 0x80, 0x80, 0x80, 0x80, 0x80, 0];
    assert LengthAndValue(s[0]).length == 6;
    SplitsFirst(AsCoded, s[..6], 6);
    assert s[..6][6..] == [];
    SplitsNothing(AsCoded);
    assert forall k | 1 <= k < 6 :: s[..6][k] == 0x80 && Continuation(s[..6][k]);
    CorrectIffSplits(s);
    Rfc2279IffCorrect(s);
    assert s[..6][0] == 0xFE;
  }

  // ----- round trip -----

  /** The code points of Unicode that are characters. */
  predicate Scalar(c: Unit) {
    c <= 0x10FFFF && !(0xD800 <= c <= 0xDFFF)
  }

  type Character = c: Unit | Scalar(c) witness 0

  /** The encoding of section 3 of RFC 3629. */
  function EncodeOne(c: Character): (g: seq<Byte>)
    ensures 1 <= |g| <= 4
  {
    if c <= 0x7F then [c as Byte]
    else if c <= 0x7FF then [(0xC0 | (c >> 6)) as Byte, Trail(c)]
    else if c <= 0xFFFF then [(0xE0 | (c >> 12)) as Byte, Trail(c >> 6), Trail(c)]
    else
      assert Scalar(c);
      [(0xF0 | (c >> 18)) as Byte, Trail(c >> 12), Trail(c >> 6), Trail(c)]
  }

  function Trail(c: Unit): Byte {
    (0x80 | (c & 0x3F)) as Byte
  }

  function Encode(cs: seq<Character>): seq<Byte> {
    if |cs| == 0 then [] else EncodeOne(cs[0]) + Encode(cs[1..])
  }

  lemma TrailTaken(c: Unit)
    ensures Continuation(Trail(c)) && TrailingValue(Trail(c)) == c & 0x3F
  {
  }

  lemma Rejoin(c: Unit)
    ensures ((c >> 6) << 6) | (c & 0x3F) == c
    ensures (c >> 6) >> 6 == c >> 12 && (c >> 12) >> 6 == c >> 18
  {
  }

  lemma LeadRead(c: Unit)
    ensures c <= 0x7F ==> LengthAndValue(c as Byte) == LengthValue(c, 1)
    ensures 0x7F < c <= 0x7FF ==> LengthAndValue((0xC0 | (c >> 6)) as Byte) == LengthValue(c >> 6, 2)
    ensures 0x7FF < c <= 0xFFFF ==> LengthAndValue((0xE0 | (c >> 12)) as Byte) == LengthValue(c >> 12, 3)
    ensures 0xFFFF < c <= 0x10FFFF ==> LengthAndValue((0xF0 | (c >> 18)) as Byte) == LengthValue(c >> 18, 4)
  {
  }

  /** c without its last six bits. */
  function Upper(c: Unit): Unit {
    c >> 6
  }

  /** Taking in the byte that holds the last six bits of c. */
  lemma BitsTaken(s: seq<Byte>, i: nat, c: Unit)
    requires i + 1 < |s| && s[i + 1] == Trail(c)
    ensures TakeIn(s, State(i, Upper(c), true)) == State(i + 1, c, true)
  {
    TrailTaken(c);
    Rejoin(c);
  }

  lemma TakeInUpToThree(s: seq<Byte>, st: State)
    ensures TakeInMany(s, 0, st) == st && TakeInMany(s, 1, st) == TakeIn(s, st)
    ensures TakeInMany(s, 2, st) == TakeIn(s, TakeIn(s, st))
    ensures TakeInMany(s, 3, st) == TakeIn(s, TakeIn(s, TakeIn(s, st)))
  {
    hide TakeIn;
    assert TakeInMany(s, 3, st) == TakeInMany(s, 2, TakeIn(s, st));
  }

  /** The bytes s[i..] begin with those of c: a lead for the upper bits and n more for six bits each. */
  ghost predicate Holds(s: seq<Byte>, i: nat, c: Unit, n: nat) {
    && n <= 3 && i + n < |s|
    && (n >= 1 ==> s[i + n] == Trail(c))
    && (n >= 2 ==> s[i + n - 1] == Trail(Upper(c)))
    && (n == 3 ==> s[i + n - 2] == Trail(Upper(Upper(c))))
  }

  /** The bits of c left for the lead. */
  function LeadBits(c: Unit, n: nat): Unit {
    if n == 0 then c else if n == 1 then Upper(c) else if n == 2 then Upper(Upper(c)) else Upper(Upper(Upper(c)))
  }

  lemma BytesTaken(s: seq<Byte>, i: nat, c: Unit, n: nat)
    requires Holds(s, i, c, n)
    ensures TakeInMany(s, n, State(i, LeadBits(c, n), true)) == State(i + n, c, true)
  {
    hide TakeInMany, TakeIn, Trail, Upper;
    TakeInUpToThree(s, State(i, LeadBits(c, n), true));
    if n == 3 {
      BitsTaken(s, i, Upper(Upper(c)));
    }
    if n >= 2 {
      BitsTaken(s, i + n - 2, Upper(c));
    }
    if n >= 1 {
      BitsTaken(s, i + n - 1, c);
    }
  }

  lemma EncodedBytes(c: Character)
    ensures var g := EncodeOne(c);
            Holds(g, 0, c, |g| - 1) && LengthAndValue(g[0]) == LengthValue(LeadBits(c, |g| - 1), |g|)
  {
    hide LengthAndValue, Trail;
    assert Scalar(c);
    LeadRead(c);
    Rejoin(c);
  }

  /** The bytes of an encoded character give it back. */
  lemma OneTaken(s: seq<Byte>, i: nat, c: Character)
    requires i + |EncodeOne(c)| <= |s| && s[i..i + |EncodeOne(c)|] == EncodeOne(c)
    ensures var info := LengthAndValue(s[i]);
            info.length == |EncodeOne(c)|
            && TakeInMany(s, info.length - 1, State(i, info.value, true)) == State(i + info.length - 1, c, true)
  {
    hide LengthAndValue, Trail, TakeIn, TakeInMany, EncodeOne, Upper, LeadBits;
    var g := EncodeOne(c);
    EncodedBytes(c);
    assert forall k {:trigger g[k]} | 0 <= k < |g| :: g[k] == s[i + k];
    assert g[0] == s[i];
    assert Holds(s, i, c, |g| - 1);
    BytesTaken(s, i, c, |g| - 1);
  }

  lemma {:induction false} DecodeEncoded(s: seq<Byte>, i: nat, cs: seq<Character>)
    requires i < |s| && s[i..] == Encode(cs) + [0]
    ensures DecodeFrom(s, i) == Decoded(cs, true)
    decreases |cs|
  {
    hide DecodeFrom, TakeInMany, LengthAndValue, EncodeOne;
    if |cs| == 0 {
      assert s[i..] == [0] && s[i] == s[i..][0];
      DecodeEnd(s, i);
    } else {
      var g, rest := EncodeOne(cs[0]), Encode(cs[1..]) + [0];
      assert s[i..] == g + rest;
      assert s[i..i + |g|] == s[i..][..|g|] == g && s[i + |g|..] == s[i..][|g|..] == rest;
      OneTaken(s, i, cs[0]);
      DecodeEncoded(s, i + |g|, cs[1..]);
      DecodeStep(s, i);
      assert |s[i..]| >= 2;
      var all: seq<Unit> := cs;
      assert [all[0]] + all[1..] == all;
    }
  }

  /** Decoding undoes encoding, and the flag stays set, for every text of characters of Unicode. */
  lemma DecodeUndoesEncode(cs: seq<Character>)
    ensures DecodeFrom(Encode(cs) + [0], 0) == Decoded(cs, true)
  {
    DecodeEncoded(Encode(cs) + [0], 0, cs);
  }
}
