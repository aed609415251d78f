/** The tables of `magic_enum`: values, indexes and names of an enumeration, and the cast from a name. */
module MagicEnum {
  import opened Options

  /** An enumeration as reflected: names[i] is the name found for the value low + i, empty if there is none. */
  datatype Enumeration = Enumeration(low: int, names: seq<string>)

  predicate IsValid(e: Enumeration, v: int) {
    e.low <= v < e.low + |e.names| && e.names[v - e.low] != ""
  }

  /** The sizes that the static assertions admit, and at least one enumerator. */
  ghost predicate Admitted(e: Enumeration) {
    1 < |e.names| < 0xffff && exists v :: IsValid(e, v)
  }

  /** How many of the first n values are valid. */
  function Count(e: Enumeration, n: nat): (r: nat)
    requires n <= |e.names|
    ensures r <= n
  {
    if n == 0 then 0 else Count(e, n - 1) + if e.names[n - 1] != "" then 1 else 0
  }

  /** The valid ones among the first n values, in ascending order. */
  ghost function ValuesUpTo(e: Enumeration, n: nat): (r: seq<int>)
    requires n <= |e.names|
    ensures |r| == Count(e, n)
  {
    if n == 0 then [] else ValuesUpTo(e, n - 1) + if e.names[n - 1] != "" then [e.low + n - 1] else []
  }

  ghost function Values(e: Enumeration): seq<int> {
    ValuesUpTo(e, |e.names|)
  }

  // ----- the list of values -----

  lemma {:induction false} CountGrows(e: Enumeration, m: nat, n: nat)
    requires m <= n <= |e.names|
    ensures Count(e, m) <= Count(e, n) <= Count(e, m) + (n - m)
    decreases n
  {
    if m < n {
      CountGrows(e, m, n - 1);
    }
  }

  lemma {:induction false} ValuesGrow(e: Enumeration, m: nat, n: nat)
    requires m <= n <= |e.names|
    ensures Count(e, m) <= Count(e, n) && ValuesUpTo(e, n)[..Count(e, m)] == ValuesUpTo(e, m)
    decreases n
  {
    if m < n {
      ValuesGrow(e, m, n - 1);
    }
  }

  /** The place of a valid value in the list is the number of valid values below it. */
  lemma PlaceOfValue(e: Enumeration, v: int)
    requires IsValid(e, v)
    ensures Count(e, v - e.low) < |Values(e)| && Values(e)[Count(e, v - e.low)] == v
  {
    var i := v - e.low;
    ValuesGrow(e, i + 1, |e.names|);
    assert Values(e)[..Count(e, i + 1)][Count(e, i)] == v;
  }

  lemma {:induction false} ValuesBelow(e: Enumeration, n: nat, i: nat)
    requires n <= |e.names| && i < Count(e, n)
    ensures IsValid(e, ValuesUpTo(e, n)[i]) && ValuesUpTo(e, n)[i] < e.low + n
    ensures Count(e, ValuesUpTo(e, n)[i] - e.low) == i
    decreases n
  {
    if i < Count(e, n - 1) {
      ValuesBelow(e, n - 1, i);
    }
  }

  /** `values` lists exactly the valid values, in strictly ascending order. */
  lemma ValuesAreTheValidOnes(e: Enumeration)
    ensures forall v :: v in Values(e) <==> IsValid(e, v)
    ensures forall i, j | 0 <= i < j < |Values(e)| :: Values(e)[i] < Values(e)[j]
  {
    var n := |e.names|;
    forall i | 0 <= i < |Values(e)| ensures IsValid(e, Values(e)[i]) && Count(e, Values(e)[i] - e.low) == i {
      ValuesBelow(e, n, i);
    }
    forall v | IsValid(e, v) ensures v in Values(e) {
      PlaceOfValue(e, v);
    }
    forall i, j | 0 <= i < j < |Values(e)| ensures Values(e)[i] < Values(e)[j] {
      var a, b := Values(e)[i], Values(e)[j];
      if a >= b {
        CountGrows(e, b - e.low, a - e.low);
      }
    }
  }

  // ----- smallest and largest value, and the index table -----

  ghost function Min(e: Enumeration): int
    requires Admitted(e)
  {
    NotEmpty(e);
    Values(e)[0]
  }

  ghost function Max(e: Enumeration): int
    requires Admitted(e)
  {
    NotEmpty(e);
    Values(e)[|Values(e)| - 1]
  }

  lemma NotEmpty(e: Enumeration)
    requires Admitted(e)
    ensures |Values(e)| > 0
  {
    var v :| IsValid(e, v);
    PlaceOfValue(e, v);
  }

  lemma MinMax(e: Enumeration)
    requires Admitted(e)
    ensures IsValid(e, Min(e)) && IsValid(e, Max(e)) && Min(e) <= Max(e)
    ensures forall v | IsValid(e, v) :: Min(e) <= v <= Max(e)
    ensures Count(e, Min(e) - e.low) == 0
  {
    NotEmpty(e);
    ValuesAreTheValidOnes(e);
    assert Min(e) in Values(e) && Max(e) in Values(e);
    forall v | IsValid(e, v) ensures Min(e) <= v <= Max(e) {
      PlaceOfValue(e, v);
    }
    ValuesBelow(e, |e.names|, 0);
  }

  lemma LastCounts(e: Enumeration)
    requires Admitted(e)
    ensures e.low <= Min(e) <= Max(e) < e.low + |e.names|
    ensures Count(e, Min(e) - e.low) == 0 && Count(e, Max(e) - e.low + 1) == |Values(e)|
  {
    NotEmpty(e);
    MinMax(e);
    ValuesBelow(e, |e.names|, |Values(e)| - 1);
    CountGrows(e, Max(e) - e.low + 1, |e.names|);
  }

  /** Where all of a stretch is counted, every value of it is valid. */
  lemma FullStretch(e: Enumeration, a: nat, i: nat, b: nat)
    requires a <= i < b <= |e.names| && Count(e, b) == Count(e, a) + (b - a)
    ensures e.names[i] != "" && Count(e, i) == Count(e, a) + (i - a)
  {
    CountGrows(e, a, i);
    CountGrows(e, i + 1, b);
  }

  /** `invalid_index_v`: the largest number of the index type. */
  ghost function InvalidIndex(e: Enumeration): int
    requires Admitted(e)
  {
    if Max(e) - Min(e) + 1 < 0xff then 0xff else 0xffff
  }

  /** Entry i of the table `indexes`. */
  ghost function IndexEntry(e: Enumeration, i: nat): int
    requires Admitted(e) && i <= Max(e) - Min(e)
  {
    MinMax(e);
    if IsValid(e, Min(e) + i) then Count(e, Min(e) + i - e.low) else InvalidIndex(e)
  }

  /** No real index is the sentinel, so the counter never wraps in the index type. */
  lemma SentinelIsNoIndex(e: Enumeration, v: int)
    requires Admitted(e) && IsValid(e, v)
    ensures 0 <= Count(e, v - e.low) < InvalidIndex(e)
  {
    MinMax(e);
    CountGrows(e, Min(e) - e.low, v - e.low);
  }

  // ----- the tables, as they are built and read -----

  /** `enum_traits` of an enumeration, with its tables. */
  class EnumTraits {
    const e: Enumeration
    var values: array<int>
    var indexes: array<int>
    var min: int
    var max: int
    var invalidIndex: int

    ghost predicate Valid()
      reads this, values, indexes
    {
      && Admitted(e) && values[..] == Values(e) && min == Min(e) && max == Max(e)
      && invalidIndex == InvalidIndex(e) && indexes.Length == max - min + 1
      && forall i | 0 <= i < indexes.Length :: indexes[i] == IndexEntry(e, i)
    }

    constructor (e: Enumeration)
      requires Admitted(e)
      ensures Valid() && this.e == e && fresh(values) && fresh(indexes)
    {
      NotEmpty(e);
      MinMax(e);
      var table := EnumTraits.BuildValues(e);
      var first, last := table[0], table[table.Length - 1];
      var inverse := EnumTraits.BuildIndexes(e, first, last);
      this.e, values, indexes, min, max := e, table, inverse, first, last;
      invalidIndex := if last - first + 1 < 0xff then 0xff else 0xffff;
    }

    /** `values`. */
    static method BuildValues(e: Enumeration) returns (values: array<int>)
      ensures fresh(values) && values[..] == Values(e)
    {
      var count := Count(e, |e.names|);
      values := new int[count];
      var i, v := 0, 0;
      while v < count
        invariant i <= |e.names| && v == Count(e, i) <= count && values[..v] == ValuesUpTo(e, i)
        decreases |e.names| - i
      {
        CountGrows(e, i, |e.names|);
        if i < |e.names| {
          CountGrows(e, i + 1, |e.names|);
        }
        if e.names[i] != "" {
          values[v] := e.low + i;
          v := v + 1;
        }
        i := i + 1;
      }
      ValuesGrow(e, i, |e.names|);
      assert values[..v] == values[..];
    }

    /** `indexes`. */
    static method BuildIndexes(e: Enumeration, min: int, max: int) returns (indexes: array<int>)
      requires Admitted(e) && min == Min(e) && max == Max(e)
      ensures fresh(indexes) && indexes.Length == max - min + 1
      ensures forall i | 0 <= i < indexes.Length :: indexes[i] == IndexEntry(e, i)
    {
      MinMax(e);
      var size := max - min + 1;
      var invalid := if size < 0xff then 0xff else 0xffff;
      indexes := new int[size];
      var i, next := 0, 0;
      while i < size
        invariant 0 <= i <= size && min - e.low + i <= |e.names| && next == Count(e, min - e.low + i)
        invariant forall j | 0 <= j < i :: indexes[j] == IndexEntry(e, j)
      {
        if e.names[min + i - e.low] != "" {
          indexes[i] := next;
          next := next + 1;
        } else {
          indexes[i] := invalid;
        }
        i := i + 1;
      }
    }

    predicate Sparse()
      reads this, values, indexes
    {
      indexes.Length != values.Length
    }

    /** `index`: -1 for what is no value. */
    function Index(v: int): (r: int)
      requires Valid()
      reads this, values, indexes
    {
      if min <= v <= max then
        if Sparse() then
          if indexes[v - min] != invalidIndex then indexes[v - min] else -1
        else v - min
      else -1
    }

    /** `value`. */
    function ValueAt(i: nat): (r: int)
      requires Valid() && i < values.Length
      reads this, values, indexes
    {
      if Sparse() then values[i] else i + min
    }

    /** `name`. */
    function Name(v: int): (r: string)
      requires Valid()
      reads this, values, indexes
      ensures r == if IsValid(e, v) then e.names[v - e.low] else ""
    {
      IndexMeans(v);
      if Index(v) != -1 then
        PlaceOfValue(e, v);
        e.names[values[Index(v)] - e.low]
      else ""
    }

    /** In a dense enumeration every number between the smallest and the largest value is a value. */
    lemma DenseHasNoHoles(v: int)
      requires Valid() && !Sparse() && min <= v <= max
      ensures IsValid(e, v) && Count(e, v - e.low) == v - min
    {
      hide IndexEntry, InvalidIndex, Values;
      LastCounts(e);
      assert Admitted(e) && min == Min(e) && max == Max(e) && values[..] == Values(e);
      FullStretch(e, min - e.low, v - e.low, max - e.low + 1);
    }

    /** `index` finds the place of every value, and of nothing else, in both layouts. */
    lemma IndexMeans(v: int)
      requires Valid()
      ensures Index(v) == if IsValid(e, v) then Count(e, v - e.low) else -1
    {
      MinMax(e);
      if IsValid(e, v) {
        SentinelIsNoIndex(e, v);
      }
      if min <= v <= max {
        if Sparse() {
          assert indexes[v - min] == IndexEntry(e, v - min);
        } else {
          DenseHasNoHoles(v);
        }
      }
    }

    lemma ValueMeans(i: nat)
      requires Valid() && i < values.Length
      ensures ValueAt(i) == values[i] && IsValid(e, values[i])
    {
      ValuesBelow(e, |e.names|, i);
      var v := values[i];
      assert v == Values(e)[i];
      if !Sparse() {
        MinMax(e);
        DenseHasNoHoles(v);
      }
    }

    /** `index` and `value` are inverse to one another. */
    lemma IndexAndValueInverse(v: int, i: nat)
      requires Valid()
      ensures IsValid(e, v) ==> 0 <= Index(v) < values.Length && ValueAt(Index(v)) == v
      ensures i < values.Length ==> Index(ValueAt(i)) == i
    {
      IndexMeans(v);
      if IsValid(e, v) {
        PlaceOfValue(e, v);
        ValueMeans(Index(v));
      }
      if i < values.Length {
        ValueMeans(i);
        IndexMeans(ValueAt(i));
        ValuesBelow(e, |e.names|, i);
      }
    }

    // ----- the cast from a name -----

    /** The first strategy of `enum_cast`: through the list of names. */
    method CastByNames(name: string) returns (r: Option<int>)
      requires Valid()
      ensures AnswersName(e, name, r)
    {
      hide Admitted, InvalidIndex, IndexEntry;
      var i := 0;
      while i < values.Length
        invariant 0 <= i <= values.Length
        invariant forall j | 0 <= j < i :: !Called(e, Values(e)[j], name)
      {
        ValuesBelow(e, |e.names|, i);
        assert values[i] == Values(e)[i];
        if name == Name(values[i]) {
          NoneBefore(e, name, i);
          return Some(values[i]);
        }
        i := i + 1;
      }
      NoneBefore(e, name, i);
      r := None;
    }

    /** The second strategy: through all numbers from the smallest to the largest value. */
    method CastByRange(name: string) returns (r: Option<int>)
      requires Valid()
      ensures name != "" ==> AnswersName(e, name, r)
      ensures name == "" ==> (r.Some? <==> exists v | min <= v <= max :: !IsValid(e, v))
    {
      hide Admitted, InvalidIndex, IndexEntry, Values;
      assert Admitted(e);
      MinMax(e);
      var i := min;
      while i <= max
        invariant min <= i <= max + 1
        invariant forall v | min <= v < i :: !Called(e, v, name)
        invariant name == "" ==> forall v | min <= v < i :: IsValid(e, v)
        decreases max - i
      {
        if name == Name(i) {
          return Some(i);
        }
        i := i + 1;
      }
      r := None;
    }

    /** `enum_cast` from a name. */
    method EnumCast(name: string) returns (r: Option<int>)
      requires Valid() && name != ""
      ensures AnswersName(e, name, r)
    {
      if indexes.Length > values.Length * 2 {
        r := CastByNames(name);
      } else {
        r := CastByRange(name);
      }
    }
  }

  predicate Called(e: Enumeration, v: int, name: string) {
    IsValid(e, v) && e.names[v - e.low] == name
  }

  /** r is the smallest value called name, or says that there is none. */
  ghost predicate AnswersName(e: Enumeration, name: string, r: Option<int>) {
    match r
    case Some(v) => Called(e, v, name) && forall w | w < v :: !Called(e, w, name)
    case None => forall w :: !Called(e, w, name)
  }

  /** There is one such answer, so the two strategies agree. */
  lemma OneAnswer(e: Enumeration, name: string, r: Option<int>, r': Option<int>)
    requires AnswersName(e, name, r) && AnswersName(e, name, r')
    ensures r == r'
  {
    if r.Some? && r'.Some? {
      assert !(r.value < r'.value) && !(r'.value < r.value);
    }
  }

  lemma NoneBefore(e: Enumeration, name: string, i: nat)
    requires i <= |Values(e)| && forall j | 0 <= j < i :: !Called(e, Values(e)[j], name)
    ensures forall w | i == |Values(e)| || w < Values(e)[i] :: !Called(e, w, name)
  {
    ValuesAreTheValidOnes(e);
    forall w | Called(e, w, name) ensures i < |Values(e)| && Values(e)[i] <= w {
      PlaceOfValue(e, w);
    }
  }
}
