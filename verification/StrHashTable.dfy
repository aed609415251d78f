/** The fixed-capacity chained table `StrHashTable`. */
module StrHashTables {
  import opened Options

  const CHAINSIZE: nat := 5
  const MAX_CHAR_SIZE: nat := 255
  const NUL: char := '\0'

  predicate Blank(c: char) {
    c == ' ' || c == '\t'
  }

  /** A C string: no NUL inside. */
  predicate CString(s: string) {
    forall i | 0 <= i < |s| :: s[i] != NUL
  }

  /** The text without spaces and tabs. */
  function Strip(s: string): (r: string)
    ensures |r| <= |s| && (CString(s) ==> CString(r))
  {
    if |s| == 0 then ""
    else Strip(s[..|s| - 1]) + if Blank(s[|s| - 1]) then "" else [s[|s| - 1]]
  }

  /** Nothing but spaces and tabs is dropped, and no space or tab is kept. */
  lemma {:induction false} StripDropsBlanks(s: string)
    ensures ' ' !in Strip(s) && '\t' !in Strip(s)
    ensures forall c: char | c != ' ' && c != '\t' :: multiset(Strip(s))[c] == multiset(s)[c]
  {
    if |s| > 0 {
      StripDropsBlanks(s[..|s| - 1]);
      assert s == s[..|s| - 1] + [s[|s| - 1]];
    }
  }

  /** The order is kept: what is stripped of two texts stands side by side. */
  lemma {:induction false} StripAppend(a: string, b: string)
    ensures Strip(a + b) == Strip(a) + Strip(b)
  {
    if |b| == 0 {
      assert a + b == a;
    } else {
      StripAppend(a, b[..|b| - 1]);
      assert (a + b)[..|a + b| - 1] == a + b[..|b| - 1];
    }
  }

  /** So a text without spaces and tabs stays as it is. */
  lemma {:induction false} StripKeeps(s: string)
    requires ' ' !in s && '\t' !in s
    ensures Strip(s) == s
  {
    if |s| > 0 {
      StripKeeps(s[..|s| - 1]);
      assert s == s[..|s| - 1] + [s[|s| - 1]];
    }
  }

  /** And a space or tab anywhere makes no difference. */
  lemma BlanksDoNotCount(a: string, c: char, b: string)
    requires c == ' ' || c == '\t'
    ensures Strip(a + [c] + b) == Strip(a + b)
  {
    StripOne(c);
    hide Strip;
    StripAppend(a + [c], b);
    StripAppend(a, [c]);
    StripAppend(a, b);
    assert Strip(a) + "" == Strip(a);
  }

  lemma StripOne(c: char)
    ensures Strip([c]) == if c == ' ' || c == '\t' then "" else [c]
  {
    assert [c][..0] == [];
  }

  /** A key that fits into a bucket once stripped. */
  predicate Fits(key: string) {
    CString(key) && |Strip(key)| < MAX_CHAR_SIZE
  }

  /** The character of the NUL-terminated copy of s at place j. */
  function CharAt(s: string, j: nat): char {
    if j < |s| then s[j] else NUL
  }

  datatype Bucket<T> = Bucket(key: string, value: T, count: nat)

  datatype Entry<T> = Entry(key: string, value: T)

  /** The entries of bucket number h, oldest first. */
  ghost function Chain<T>(log: seq<Entry<T>>, bucketOf: string -> nat, h: nat): seq<Entry<T>> {
    if |log| == 0 then []
    else
      var last := log[|log| - 1];
      Chain(log[..|log| - 1], bucketOf, h) + if bucketOf(last.key) == h then [last] else []
  }

  lemma ChainAppend<T>(log: seq<Entry<T>>, bucketOf: string -> nat, h: nat, e: Entry<T>)
    ensures Chain(log + [e], bucketOf, h) == Chain(log, bucketOf, h) + if bucketOf(e.key) == h then [e] else []
  {
    assert (log + [e])[..|log|] == log;
  }

  /** What `get` answers on a chain: the first entry that begins with k. */
  ghost function FirstPrefix<T>(chain: seq<Entry<T>>, k: string): Option<T> {
    if |chain| == 0 then None
    else if k <= chain[0].key then Some(chain[0].value)
    else FirstPrefix(chain[1..], k)
  }

  /** The map that the table stands for: the first value given to a key. */
  ghost function Lookup<T>(log: seq<Entry<T>>, k: string): Option<T> {
    if |log| == 0 then None
    else if log[0].key == k then Some(log[0].value)
    else Lookup(log[1..], k)
  }

  ghost function Entries<T>(strs: seq<string>, values: seq<T>): (r: seq<Entry<T>>)
    requires |strs| == |values|
    ensures |r| == |strs| && forall i | 0 <= i < |r| :: r[i] == Entry(Strip(strs[i]), values[i])
  {
    seq(|strs|, i requires 0 <= i < |strs| => Entry(Strip(strs[i]), values[i]))
  }

  /** An entry that ends up in a chain found room there. */
  lemma ChainRoom<T>(log: seq<Entry<T>>, bucketOf: string -> nat, i: nat)
    requires i < |log| && |Chain(log, bucketOf, bucketOf(log[i].key))| <= CHAINSIZE
    ensures |Chain(log[..i], bucketOf, bucketOf(log[i].key))| < CHAINSIZE
  {
    var h := bucketOf(log[i].key);
    assert log[..i + 1] == log[..i] + [log[i]];
    ChainAppend(log[..i], bucketOf, h, log[i]);
    ChainGrows(log, bucketOf, h, i + 1);
  }

  lemma {:induction false} ChainGrows<T>(log: seq<Entry<T>>, bucketOf: string -> nat, h: nat, i: nat)
    requires i <= |log|
    ensures |Chain(log[..i], bucketOf, h)| <= |Chain(log, bucketOf, h)|
    decreases |log|
  {
    if i < |log| {
      ChainGrows(log[..|log| - 1], bucketOf, h, i);
      assert log[..|log| - 1][..i] == log[..i];
    } else {
      assert log[..i] == log;
    }
  }

  class StrHashTable<T(0)> {
    const size: nat
    /** `getStringHash`, scaled to the number of buckets. */
    const bucketOf: string -> nat
    const buckets: array2<Bucket<T>>
    const marked: array<bool>
    /** `T{}`, the value in an unused bucket. */
    const init: T
    var bucketCount: nat

    /** The accepted insertions, oldest first, with stripped keys. */
    ghost var log: seq<Entry<T>>

    /** Bucket number h holds exactly its chain. */
    ghost predicate Holds(h: nat)
      requires h < size && buckets.Length0 == size && buckets.Length1 == CHAINSIZE && marked.Length == size
      reads this`log, buckets, marked
    {
      var chain := Chain(log, bucketOf, h);
      && |chain| <= CHAINSIZE && (marked[h] <==> |chain| > 0)
      && buckets[h, 0].count == (if |chain| == 0 then 0 else |chain| - 1)
      && (|chain| == 0 ==> buckets[h, 0].key == "" && buckets[h, 0].value == init)
      && forall i | 0 <= i < |chain| :: buckets[h, i].key == chain[i].key && buckets[h, i].value == chain[i].value
    }

    ghost predicate Valid()
      reads this`log, buckets, marked
    {
      && buckets.Length0 == size && buckets.Length1 == CHAINSIZE && marked.Length == size
      && (forall k :: bucketOf(k) < size) && (forall i | 0 <= i < |log| :: CString(log[i].key))
      && forall h: nat | h < size :: Holds(h)
    }

    constructor (size: nat, bucketOf: string -> nat, init: T)
      requires forall k :: bucketOf(k) < size
      ensures Valid() && fresh(buckets) && fresh(marked) && this.size == size && this.bucketOf == bucketOf
      ensures this.init == init && log == [] && bucketCount == 0
    {
      this.size, this.bucketOf, this.init, bucketCount, log := size, bucketOf, init, 0, [];
      buckets := new Bucket<T>[size, CHAINSIZE]((h, i) => Bucket("", init, 0));
      marked := new bool[size](h => false);
    }

    /** `remSpaces`. */
    static method RemSpaces(val: string, res: array<char>) returns (ghost n: nat)
      requires CString(val) && |Strip(val)| < res.Length
      modifies res
      ensures n == |Strip(val)| && res[..n] == Strip(val) && res[n] == NUL
      ensures ' ' !in res[..n] && '\t' !in res[..n]
      ensures forall c: char | c != ' ' && c != '\t' :: multiset(res[..n])[c] == multiset(val)[c]
    {
      StripDropsBlanks(val);
      var i, j := 0, 0;
      while i < |val|
        invariant i <= |val| && j == |Strip(val[..i])| < res.Length && res[..j] == Strip(val[..i])
        invariant |Strip(val)| < res.Length
      {
        StripGrows(val, i + 1);
        assert val[..i + 1][..i] == val[..i];
        if !Blank(val[i]) {
          res[j] := val[i];
          j := j + 1;
        }
        i := i + 1;
      }
      assert val[..i] == val;
      res[j] := NUL;
      n := j;
    }

    /** The string view of a NUL-terminated array: it ends before the first NUL. */
    static method View(a: array<char>, ghost n: nat) returns (s: string)
      requires n < a.Length && CString(a[..n]) && a[n] == NUL
      ensures s == a[..n]
    {
      forall m | 0 <= m < n ensures a[m] != NUL { assert a[..n][m] == a[m]; }
      var i := 0;
      while a[i] != NUL
        invariant i <= n
        decreases n - i
      {
        i := i + 1;
      }
      s := a[..i];
    }

    /** The stripped key, through the local character array of the callers. */
    static method Stripped(key: string) returns (k: string)
      requires Fits(key)
      ensures k == Strip(key)
    {
      var charKey := new char[MAX_CHAR_SIZE];
      ghost var n := RemSpaces(key, charKey);
      k := View(charKey, n);
    }

    /** Appends to the chain of the key's bucket. */
    method Put(key: string, value: T)
      requires Valid() && CString(key) && |Chain(log, bucketOf, bucketOf(key))| < CHAINSIZE
      modifies this`log, buckets, marked
      ensures Valid() && log == old(log) + [Entry(key, value)]
    {
      hide Chain;
      var h := bucketOf(key);
      forall g: nat ensures Chain(log + [Entry(key, value)], bucketOf, g)
                         == Chain(log, bucketOf, g) + if h == g then [Entry(key, value)] else [] {
        ChainAppend(log, bucketOf, g, Entry(key, value));
      }
      assert Holds(h);
      if marked[h] {
        var place := buckets[h, 0].count + 1;
        buckets[h, place] := Bucket(key, value, buckets[h, place].count);
        buckets[h, 0] := buckets[h, 0].(count := place);
      } else {
        marked[h] := true;
        buckets[h, 0] := Bucket(key, value, buckets[h, 0].count);
      }
      log := log + [Entry(key, value)];
      forall g: nat | g < size ensures Holds(g) {
        assert old(Holds(g));
      }
    }

    /** `add`. The last free place is never given out, and every call counts. */
    method Add(key: string, value: T)
      requires Valid() && Fits(key)
      requires bucketCount + 1 < size ==> |Chain(log, bucketOf, bucketOf(Strip(key)))| < CHAINSIZE
      modifies this`log, this`bucketCount, buckets, marked
      ensures Valid() && bucketCount == old(bucketCount) + 1
      ensures log == if bucketCount < size then old(log) + [Entry(Strip(key), value)] else old(log)
    {
      bucketCount := bucketCount + 1;
      if bucketCount < size {
        var k := Stripped(key);
        Put(k, value);
      }
    }

    /** `setup`: a table of the given keys and values, each put in without a look at the places left. */
    static method Setup(size: nat, bucketOf: string -> nat, init: T, strs: seq<string>, values: seq<T>)
      returns (base: StrHashTable<T>)
      requires |strs| == |values| <= size && (forall k :: bucketOf(k) < size)
      requires forall i | 0 <= i < |strs| :: Fits(strs[i])
      requires forall h: nat :: |Chain(Entries(strs, values), bucketOf, h)| <= CHAINSIZE
      ensures fresh(base) && fresh(base.buckets) && fresh(base.marked) && base.Valid()
      ensures base.size == size && base.bucketOf == bucketOf && base.init == init
      ensures base.log == Entries(strs, values) && base.bucketCount == |strs|
    {
      base := new StrHashTable<T>(size, bucketOf, init);
      ghost var all := Entries(strs, values);
      for i := 0 to |strs|
        invariant fresh(base) && fresh(base.buckets) && fresh(base.marked) && base.Valid()
        invariant base.size == size && base.bucketOf == bucketOf && base.init == init
        invariant base.log == all[..i] && base.bucketCount == i
      {
        var k := Stripped(strs[i]);
        ChainRoom(all, bucketOf, i);
        base.Put(k, values[i]);
        base.bucketCount := base.bucketCount + 1;
        assert all[..i + 1] == all[..i] + [all[i]];
      }
      assert all[..|strs|] == all;
    }

    /** `isValidState`. */
    method IsValidState() returns (r: bool)
      ensures r <==> bucketCount < size
    {
      r := bucketCount < size;
    }

    /** `get`: the first entry of the chain that begins with the stripped key. */
    method Get(key: string) returns (r: Option<T>)
      requires Valid() && Fits(key)
      ensures var k := Strip(key);
              var chain := Chain(log, bucketOf, bucketOf(k));
              r == if chain == [] && k == "" then Some(init) else FirstPrefix(chain, k)
    {
      var k := Stripped(key);
      var h := bucketOf(k);
      assert Holds(h);
      ghost var chain := Chain(log, bucketOf, h);
      forall i | 0 <= i < |chain| ensures CString(chain[i].key) { ChainStrings(log, bucketOf, h, i); }
      var i := 0;
      while i < CHAINSIZE
        invariant i == 0 || i < |chain|
        invariant FirstPrefix(chain, k) == FirstPrefix(chain[i..], k) && (i > 0 ==> k != "")
      {
        var j := Common(k, buckets[h, i].key);
        if CharAt(k, j) == NUL {
          return Some(buckets[h, i].value);
        } else if buckets[h, 0].count == i {
          break;
        }
        assert chain[i..][1..] == chain[i + 1..];
        i := i + 1;
      }
      r := None;
    }

    /** The comparison loop of `get`. */
    static method Common(k: string, key: string) returns (j: nat)
      requires CString(k) && CString(key)
      ensures CharAt(k, j) == NUL <==> k <= key
    {
      j := 0;
      while CharAt(k, j) == CharAt(key, j) && CharAt(k, j) != NUL
        invariant j <= |k| && j <= |key| && k[..j] == key[..j]
        decreases |k| - j
      {
        j := j + 1;
      }
    }
  }

  lemma {:induction false} StripGrows(s: string, i: nat)
    requires i <= |s|
    ensures |Strip(s[..i])| <= |Strip(s)|
    decreases |s| - i
  {
    if i < |s| {
      StripGrows(s, i + 1);
      assert s[..i + 1][..i] == s[..i];
    } else {
      assert s[..i] == s;
    }
  }

  lemma {:induction false} ChainStrings<T>(log: seq<Entry<T>>, bucketOf: string -> nat, h: nat, i: nat)
    requires (forall j | 0 <= j < |log| :: CString(log[j].key)) && i < |Chain(log, bucketOf, h)|
    ensures CString(Chain(log, bucketOf, h)[i].key) && bucketOf(Chain(log, bucketOf, h)[i].key) == h
  {
    var rest := log[..|log| - 1];
    if i < |Chain(rest, bucketOf, h)| {
      ChainStrings(rest, bucketOf, h, i);
    }
  }

  // ----- the table as a map -----

  /** The place of the first entry of the chain that begins with k, which is the one `get` takes. */
  ghost function PrefixPlace<T>(chain: seq<Entry<T>>, k: string): (i: nat)
    ensures FirstPrefix(chain, k) == if i < |chain| then Some(chain[i].value) else None
    ensures i <= |chain| && (i < |chain| ==> k <= chain[i].key) && forall j | 0 <= j < i :: !(k <= chain[j].key)
  {
    if |chain| == 0 || k <= chain[0].key then 0 else PrefixPlace(chain[1..], k) + 1
  }

  /** The place of the first entry with key k, which is the one the map names. */
  ghost function ExactPlace<T>(chain: seq<Entry<T>>, k: string): (i: nat)
    ensures Lookup(chain, k) == if i < |chain| then Some(chain[i].value) else None
    ensures i <= |chain| && (i < |chain| ==> k == chain[i].key) && forall j | 0 <= j < i :: k != chain[j].key
  {
    if |chain| == 0 || k == chain[0].key then 0 else ExactPlace(chain[1..], k) + 1
  }

  /** A longer key that begins with k stands before any entry for k itself. */
  ghost predicate Shadowed<T>(chain: seq<Entry<T>>, k: string) {
    exists i | 0 <= i < |chain| :: k < chain[i].key && forall j | 0 <= j < i :: chain[j].key != k
  }

  /** `get` takes the entry that the map names if and only if no longer key stands before it. */
  lemma SameEntryIffNotShadowed<T>(chain: seq<Entry<T>>, k: string)
    ensures PrefixPlace(chain, k) == ExactPlace(chain, k) <==> !Shadowed(chain, k)
  {
    var i, e := PrefixPlace(chain, k), ExactPlace(chain, k);
    if i < e {
      assert k < chain[i].key;
    }
  }

  /** Looking a key up in its chain is looking it up among all insertions. */
  lemma {:induction false} LookupInChain<T>(log: seq<Entry<T>>, bucketOf: string -> nat, k: string)
    ensures Lookup(Chain(log, bucketOf, bucketOf(k)), k) == Lookup(log, k)
    decreases |log|
  {
    if |log| > 0 {
      var rest, last := log[..|log| - 1], log[|log| - 1];
      var chain := Chain(rest, bucketOf, bucketOf(k));
      LookupInChain(rest, bucketOf, k);
      assert log == rest + [last];
      LookupAppend(rest, last, k);
      LookupAppend(chain, last, k);
      assert chain + [] == chain;
    }
  }

  lemma {:induction false} LookupAppend<T>(log: seq<Entry<T>>, e: Entry<T>, k: string)
    ensures Lookup(log + [e], k)
         == if Lookup(log, k).Some? then Lookup(log, k) else if e.key == k then Some(e.value) else None
  {
    if |log| > 0 {
      LookupAppend(log[1..], e, k);
      assert (log + [e])[1..] == log[1..] + [e];
    } else {
      assert log + [e] == [e];
    }
  }

  /** The table refines the map: what `get` answers is the first value given to the stripped key, unless the key is
      empty or a longer stored key hides it. */
  lemma GetIsLookup<T>(log: seq<Entry<T>>, bucketOf: string -> nat, k: string)
    requires k != "" && !Shadowed(Chain(log, bucketOf, bucketOf(k)), k)
    ensures FirstPrefix(Chain(log, bucketOf, bucketOf(k)), k) == Lookup(log, k)
  {
    SameEntryIffNotShadowed(Chain(log, bucketOf, bucketOf(k)), k);
    LookupInChain(log, bucketOf, k);
  }

  /** A key that was never inserted can be answered with the value of a longer one. */
  lemma PrefixesAreFound<T>(a: T)
    ensures var log := [Entry("abc", a)];
            FirstPrefix(Chain(log, (k: string) => 0, 0), "ab") == Some(a) && Lookup(log, "ab") == None
  {
    var log := [Entry("abc", a)];
    assert log[..0] == [];
    assert Chain(log, (k: string) => 0, 0) == [log[0]];
    assert "ab" <= "abc" && log[1..] == [];
  }

  /** The lengths of the first n chains. */
  ghost function TotalLength<T>(log: seq<Entry<T>>, bucketOf: string -> nat, n: nat): nat {
    if n == 0 then 0 else TotalLength(log, bucketOf, n - 1) + |Chain(log, bucketOf, n - 1)|
  }

  lemma {:induction false} TotalAppend<T>(log: seq<Entry<T>>, e: Entry<T>, bucketOf: string -> nat, n: nat)
    ensures TotalLength(log + [e], bucketOf, n) == TotalLength(log, bucketOf, n) + if bucketOf(e.key) < n then 1 else 0
    decreases n
  {
    if n > 0 {
      TotalAppend(log, e, bucketOf, n - 1);
      ChainAppend(log, bucketOf, n - 1, e);
    }
  }

  /** No insertion is lost or doubled: together the chains are as long as the list of accepted insertions. */
  lemma {:induction false} ChainsHoldAll<T>(log: seq<Entry<T>>, bucketOf: string -> nat, size: nat)
    requires forall k :: bucketOf(k) < size
    ensures TotalLength(log, bucketOf, size) == |log|
    decreases |log|
  {
    if |log| == 0 {
      NoChains<T>(bucketOf, size);
      assert log == [];
    } else {
      ChainsHoldAll(log[..|log| - 1], bucketOf, size);
      TotalAppend(log[..|log| - 1], log[|log| - 1], bucketOf, size);
      assert log == log[..|log| - 1] + [log[|log| - 1]];
    }
  }

  lemma {:induction false} NoChains<T>(bucketOf: string -> nat, n: nat)
    ensures TotalLength<T>([], bucketOf, n) == 0
  {
    if n > 0 {
      NoChains<T>(bucketOf, n - 1);
    }
  }
}
