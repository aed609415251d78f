/** The 32-bit string hash `fnv_hash`. */
module FnvHash {

  const WORD: int := 0x1_0000_0000

  /** An unsigned 32-bit integer. */
  type Hash = h: int | 0 <= h < 0x1_0000_0000

  /** A `char`, which is signed. */
  type Char = c: int | -128 <= c <= 127

  const BASIS: Hash := 2166136261
  const PRIME: int := 16777619

  /** The inverse of PRIME modulo 2^32. */
  const INVERSE: int := 899433627

  /** Exclusive or, bit by bit. */
  function Xor(a: nat, b: nat): nat {
    if a == 0 && b == 0 then 0 else (a + b) % 2 + 2 * Xor(a / 2, b / 2)
  }

  function Pow2(n: nat): nat {
    if n == 0 then 1 else 2 * Pow2(n - 1)
  }

  lemma {:induction false} XorBelow(a: nat, b: nat, n: nat)
    requires a < Pow2(n) && b < Pow2(n)
    ensures Xor(a, b) < Pow2(n)
  {
    if n > 0 {
      XorBelow(a / 2, b / 2, n - 1);
    }
  }

  /** The exclusive or of two words is a word. */
  function XorWord(a: Hash, b: Hash): Hash {
    assert Pow2(32) == WORD by { assert Pow2(8) == 256; assert Pow2(16) == 65536; assert Pow2(24) == 0x100_0000; }
    XorBelow(a, b, 32);
    Xor(a, b)
  }

  /** `static_cast<H>(c)`. */
  function Extend(c: Char): Hash {
    if c < 0 then WORD + c else c
  }

  function TimesPrime(x: Hash): Hash {
    x * PRIME % WORD
  }

  function Step(value: Hash, c: Char): Hash {
    TimesPrime(XorWord(value, Extend(c)))
  }

  /** `hash_impl`. */
  function HashFrom(s: seq<Char>, value: Hash): Hash {
    if |s| == 0 then value else HashFrom(s[1..], Step(value, s[0]))
  }

  /** `str_hash_impl` on a text with a NUL in it. */
  function StringHashFrom(s: seq<Char>, value: Hash): Hash
    requires 0 in s
  {
    if s[0] == 0 then value else StringHashFrom(s[1..], Step(value, s[0]))
  }

  /** The two forms agree on what stands before the NUL. */
  lemma {:induction false} FormsAgree(s: seq<Char>, t: seq<Char>, value: Hash)
    requires forall i | 0 <= i < |s| :: s[i] != 0
    ensures StringHashFrom(s + [0] + t, value) == HashFrom(s, value)
  {
    if |s| == 0 {
      assert s + [0] + t == [0] + t;
    } else {
      assert (s + [0] + t)[1..] == s[1..] + [0] + t;
      FormsAgree(s[1..], t, Step(value, s[0]));
    }
  }

  // ----- every step keeps states apart -----

  lemma {:induction false} XorCommutes(a: nat, b: nat)
    ensures Xor(a, b) == Xor(b, a)
  {
    if a > 0 || b > 0 {
      XorCommutes(a / 2, b / 2);
    }
  }

  lemma {:induction false} XorTwice(a: nat, b: nat)
    ensures Xor(Xor(a, b), b) == a
  {
    if a > 0 || b > 0 {
      XorTwice(a / 2, b / 2);
      var x, q := Xor(a, b), Xor(a / 2, b / 2);
      Halves((a + b) % 2, q);
      Parity(a, b, q);
      if x > 0 || b > 0 {
        assert Xor(x, b) == (x + b) % 2 + 2 * Xor(x / 2, b / 2);
      }
    }
  }

  lemma Halves(p: nat, q: nat)
    requires p < 2
    ensures (p + 2 * q) / 2 == q && (p + 2 * q) % 2 == p
  {
  }

  lemma Parity(a: nat, b: nat, q: nat)
    ensures ((a + b) % 2 + 2 * q + b) % 2 + 2 * (a / 2) == a
  {
  }

  /** Multiplying by the inverse undoes the multiplication. */
  lemma MultiplicationInvertible(x: Hash)
    ensures TimesPrime(x) * INVERSE % WORD == x
  {
    var q := x * PRIME / WORD;
    assert PRIME * INVERSE == 1 + 3513497 * WORD;
    var r := x * PRIME % WORD;
    assert r * INVERSE == x + WORD * (3513497 * x - q * INVERSE);
  }

  lemma StepInjective(v: Hash, w: Hash, c: Char, d: Char)
    requires XorWord(v, Extend(c)) != XorWord(w, Extend(d))
    ensures Step(v, c) != Step(w, d)
  {
    MultiplicationInvertible(XorWord(v, Extend(c)));
    MultiplicationInvertible(XorWord(w, Extend(d)));
  }

  lemma XorInjective(v: Hash, w: Hash, a: Hash, b: Hash)
    ensures v != w ==> XorWord(v, a) != XorWord(w, a)
    ensures a != b ==> XorWord(v, a) != XorWord(v, b)
  {
    XorTwice(v, a);
    XorTwice(w, a);
    XorCommutes(v, a);
    XorCommutes(v, b);
    XorTwice(a, v);
    XorTwice(b, v);
  }

  lemma {:induction false} StaysApart(s: seq<Char>, v: Hash, w: Hash)
    requires v != w
    ensures HashFrom(s, v) != HashFrom(s, w)
  {
    hide Step;
    if |s| > 0 {
      XorInjective(v, w, Extend(s[0]), 0);
      StepInjective(v, w, s[0], s[0]);
      StaysApart(s[1..], Step(v, s[0]), Step(w, s[0]));
    }
  }

  /** Two texts that differ in exactly one character never hash alike, from any basis. */
  lemma {:induction false} OneDifferenceSeparates(s: seq<Char>, t: seq<Char>, i: nat, value: Hash)
    requires |s| == |t| && i < |s| && s[i] != t[i] && forall j | 0 <= j < |s| && j != i :: s[j] == t[j]
    ensures HashFrom(s, value) != HashFrom(t, value)
  {
    hide Step;
    if i == 0 {
      XorInjective(value, value, Extend(s[0]), Extend(t[0]));
      StepInjective(value, value, s[0], t[0]);
      assert s[1..] == t[1..];
      StaysApart(s[1..], Step(value, s[0]), Step(value, t[0]));
    } else {
      OneDifferenceSeparates(s[1..], t[1..], i - 1, Step(value, s[0]));
    }
  }

  // ----- the published algorithm -----

  /** FNV-1a as published: the octet itself enters, not its signed extension. */
  function Fnv1aFrom(s: seq<Char>, value: Hash): Hash {
    if |s| == 0 then value else Fnv1aFrom(s[1..], OctetStep(value, s[0]))
  }

  function OctetStep(value: Hash, c: Char): Hash {
    TimesPrime(XorWord(value, Octet(c)))
  }

  function Octet(c: Char): Hash {
    if c < 0 then 256 + c else c
  }

  /** On 7-bit text the code computes FNV-1a. */
  lemma {:induction false} AgreesOnAscii(s: seq<Char>, value: Hash)
    requires forall i | 0 <= i < |s| :: s[i] >= 0
    ensures HashFrom(s, value) == Fnv1aFrom(s, value)
  {
    hide XorWord;
    if |s| > 0 {
      AgreesOnAscii(s[1..], Step(value, s[0]));
    }
  }

  /** It does not on a text with exactly one other character, wherever that stands. */
  lemma {:induction false} DiffersOnOneForeign(s: seq<Char>, i: nat, value: Hash)
    requires i < |s| && s[i] < 0 && forall j | 0 <= j < |s| && j != i :: s[j] >= 0
    ensures HashFrom(s, value) != Fnv1aFrom(s, value)
  {
    hide XorWord;
    if i == 0 {
      XorInjective(value, value, Extend(s[0]), Octet(s[0]));
      MultiplicationInvertible(XorWord(value, Extend(s[0])));
      MultiplicationInvertible(XorWord(value, Octet(s[0])));
      StaysApart(s[1..], Step(value, s[0]), OctetStep(value, s[0]));
      AgreesOnAscii(s[1..], OctetStep(value, s[0]));
    } else {
      DiffersOnOneForeign(s[1..], i - 1, Step(value, s[0]));
    }
  }

  // ----- when the two meet again -----

  /** The bits that sign extension sets. */
  const HIGH: Hash := 0xffff_ff00

  /** Equal in the low byte and different in every other bit. */
  predicate Opposite(v: Hash, w: Hash) {
    XorWord(v, HIGH) == w
  }

  lemma {:induction false} XorAssociates(a: nat, b: nat, c: nat)
    ensures Xor(Xor(a, b), c) == Xor(a, Xor(b, c))
  {
    hide Xor;
    var x, y := Xor(a, b), Xor(b, c);
    XorHalves(a, b);
    XorHalves(b, c);
    XorHalves(x, c);
    XorHalves(a, y);
    ParityAssociates(a, b, c);
    if a > 0 || b > 0 || c > 0 {
      XorAssociates(a / 2, b / 2, c / 2);
    }
  }

  lemma ParityAssociates(a: nat, b: nat, c: nat)
    ensures forall x, y | x % 2 == (a + b) % 2 && y % 2 == (b + c) % 2 :: (x + c) % 2 == (a + y) % 2
  {
  }

  /** The last bit and the rest of an exclusive or. */
  lemma XorHalves(a: nat, b: nat)
    ensures Xor(a, b) % 2 == (a + b) % 2 && Xor(a, b) / 2 == Xor(a / 2, b / 2)
    ensures Xor(a, b) == (a + b) % 2 + 2 * Xor(a / 2, b / 2)
  {
  }

  /** a with k zeros behind it. */
  function Shifted(a: nat, k: nat): nat {
    if k == 0 then a else 2 * Shifted(a, k - 1)
  }

  /** The last k bits of an exclusive or are those of its operands. */
  lemma {:induction false} SplitXor(q: nat, r: nat, m: nat, s: nat, k: nat)
    requires r < Pow2(k) && s < Pow2(k)
    ensures Xor(Shifted(q, k) + r, Shifted(m, k) + s) == Shifted(Xor(q, m), k) + Xor(r, s)
  {
    hide Xor, Pow2, Shifted;
    if k == 0 {
      NoShift(q, m);
    } else {
      var r', p := LastBit(r);
      var s', t := LastBit(s);
      ShiftMore(q, k);
      ShiftMore(m, k);
      ShiftMore(Xor(q, m), k);
      SplitXor(q, r', m, s', k - 1);
      SplitStep(Shifted(q, k - 1), r', p, Shifted(m, k - 1), s', t, Shifted(Xor(q, m), k - 1));
    }
  }

  lemma NoShift(a: nat, b: nat)
    ensures Pow2(0) == 1 && Shifted(a, 0) == a && Shifted(b, 0) == b && Shifted(Xor(a, b), 0) == Xor(a, b)
    ensures Xor(0, 0) == 0
  {
  }

  lemma ShiftMore(a: nat, k: nat)
    requires k > 0
    ensures Pow2(k) == 2 * Pow2(k - 1) && Shifted(a, k) == 2 * Shifted(a, k - 1)
  {
  }

  lemma LastBit(a: nat) returns (half: nat, bit: nat)
    ensures bit < 2 && a == 2 * half + bit
  {
    half, bit := a / 2, a % 2;
  }

  lemma SplitStep(u: nat, r: nat, p: nat, v: nat, s: nat, q: nat, x: nat)
    requires p < 2 && q < 2 && Xor(u + r, v + s) == x + Xor(r, s)
    ensures Xor(2 * (u + r) + p, 2 * (v + s) + q) == 2 * x + Xor(2 * r + p, 2 * s + q)
  {
    hide Xor;
    XorDoubled(u + r, p, v + s, q);
    XorDoubled(r, p, s, q);
  }

  lemma XorDoubled(a: nat, p: nat, b: nat, q: nat)
    requires p < 2 && q < 2
    ensures Xor(2 * a + p, 2 * b + q) == (p + q) % 2 + 2 * Xor(a, b)
  {
    XorHalves(2 * a + p, 2 * b + q);
    hide Xor;
    Halves(p, a);
    Halves(q, b);
    SameParity(a, b, p + q);
  }

  lemma SameParity(a: nat, b: nat, n: nat)
    ensures (2 * a + 2 * b + n) % 2 == n % 2
  {
  }

  lemma LowBytes(a: nat, b: nat)
    ensures Xor(a, b) == Xor(a / 256, b / 256) * 256 + Xor(a % 256, b % 256)
    ensures Xor(a, b) % 256 == Xor(a % 256, b % 256) < 256
  {
    hide Xor, Shifted;
    SomePowers();
    Bytes(a / 256);
    Bytes(b / 256);
    Bytes(Xor(a / 256, b / 256));
    SplitXor(a / 256, a % 256, b / 256, b % 256, 8);
    XorBelow(a % 256, b % 256, 8);
  }

  lemma Bytes(a: nat)
    ensures Shifted(a, 8) == 256 * a
  {
    assert Shifted(a, 1) == 2 * a;
    assert Shifted(a, 2) == 4 * a;
    assert Shifted(a, 3) == 8 * a;
    assert Shifted(a, 4) == 16 * a;
    assert Shifted(a, 5) == 32 * a;
    assert Shifted(a, 6) == 64 * a;
    assert Shifted(a, 7) == 128 * a;
  }

  lemma {:induction false} XorZero(a: nat)
    ensures Xor(a, 0) == a
  {
    if a > 0 {
      XorZero(a / 2);
    }
  }

  /** Exclusive or with ones is the complement. */
  lemma {:induction false} Complement(a: nat, n: nat)
    requires a < Pow2(n)
    ensures Pow2(n) >= 1 && Xor(a, Pow2(n) - 1) == Pow2(n) - 1 - a
  {
    XorHalves(0, 0);
    hide Xor;
    if n > 0 {
      Complement(a / 2, n - 1);
      XorHalves(a, 2 * Pow2(n - 1) - 1);
      OnesHalved(a, Pow2(n - 1));
    }
  }

  lemma OnesHalved(a: nat, p: nat)
    requires p >= 1
    ensures (a + (2 * p - 1)) % 2 == 1 - a % 2 && (2 * p - 1) / 2 == p - 1
  {
  }

  lemma SomePowers()
    ensures Pow2(8) == 256 && Pow2(24) == 0x100_0000
  {
    assert Pow2(8) == 256;
    assert Pow2(16) == 65536;
  }

  /** Opposite states add up to a number that the low byte determines. */
  lemma OppositeSum(v: Hash, w: Hash)
    ensures Opposite(v, w) <==> w + v == WORD - 256 + 2 * (v % 256)
  {
    hide Xor;
    SomePowers();
    LowBytes(v, HIGH);
    XorZero(v % 256);
    Complement(v / 256, 24);
  }

  lemma OppositeLow(v: Hash, w: Hash)
    requires Opposite(v, w)
    ensures v % 256 == w % 256
  {
    hide Xor;
    LowBytes(v, HIGH);
    XorZero(v % 256);
  }

  /** The extension of a foreign character is its octet with those bits set. */
  lemma ExtendIsOctet(c: Char)
    requires c < 0
    ensures Extend(c) == Xor(Octet(c), HIGH) == Xor(HIGH, Octet(c))
  {
    OppositeSum(Octet(c), Extend(c));
    XorCommutes(Octet(c), HIGH);
  }

  /** At a foreign character the two computations meet exactly when their states are opposite. */
  lemma MeetIff(v: Hash, w: Hash, c: Char)
    requires c < 0
    ensures Step(v, c) == OctetStep(w, c) <==> Opposite(v, w)
  {
    ExtendIsOctet(c);
    XorAssociates(v, HIGH, Octet(c));
    XorInjective(XorWord(v, HIGH), w, Octet(c), 0);
    MultiplicationInvertible(XorWord(v, Extend(c)));
    MultiplicationInvertible(XorWord(w, Octet(c)));
  }

  lemma {:induction false} HashAppend(s: seq<Char>, t: seq<Char>, value: Hash)
    ensures HashFrom(s + t, value) == HashFrom(t, HashFrom(s, value))
    ensures Fnv1aFrom(s + t, value) == Fnv1aFrom(t, Fnv1aFrom(s, value))
  {
    hide Step, OctetStep;
    if |s| == 0 {
      assert s + t == t;
    } else {
      assert (s + t)[1..] == s[1..] + t;
      HashAppend(s[1..], t, Step(value, s[0]));
      HashAppend(s[1..], t, OctetStep(value, s[0]));
    }
  }

  /** So for any text whose last character that is not 7-bit is c, the code computes FNV-1a exactly when the states
      before c are opposite. */
  lemma AgreesIffOpposite(s: seq<Char>, c: Char, t: seq<Char>, value: Hash)
    requires c < 0 && forall i | 0 <= i < |t| :: t[i] >= 0
    ensures HashFrom(s + [c] + t, value) == Fnv1aFrom(s + [c] + t, value)
            <==> Opposite(HashFrom(s, value), Fnv1aFrom(s, value))
  {
    hide Step, OctetStep, Opposite;
    var v, w := HashFrom(s, value), Fnv1aFrom(s, value);
    HashAppend(s + [c], t, value);
    HashAppend(s, [c], value);
    OneCharacter(c, v, w);
    MeetIff(v, w, c);
    AgreesOnAscii(t, OctetStep(w, c));
    if Step(v, c) != OctetStep(w, c) {
      StaysApart(t, Step(v, c), OctetStep(w, c));
    }
  }

  lemma OneCharacter(c: Char, v: Hash, w: Hash)
    ensures HashFrom([c], v) == Step(v, c) && Fnv1aFrom([c], w) == OctetStep(w, c)
  {
    hide Step, OctetStep;
    assert [c][1..] == [];
  }

  /** Two such characters side by side, all others being 7-bit: the code computes FNV-1a exactly when the low byte of
      the state before them, exclusive or the first octet, is 0x80. */
  lemma AgreesOnTwoForeignIff(s: seq<Char>, c: Char, d: Char, t: seq<Char>, value: Hash)
    requires c < 0 && d < 0
    requires (forall i | 0 <= i < |s| :: s[i] >= 0) && forall i | 0 <= i < |t| :: t[i] >= 0
    ensures HashFrom(s + [c] + [d] + t, value) == Fnv1aFrom(s + [c] + [d] + t, value)
            <==> XorWord(HashFrom(s, value), Octet(c)) % 256 == 0x80
  {
    hide Step, OctetStep, XorWord, Opposite;
    var v := HashFrom(s, value);
    AgreesOnAscii(s, value);
    AgreesIffOpposite(s + [c], d, t, value);
    HashAppend(s, [c], value);
    OneCharacter(c, v, v);
    OppositeAfter(v, c);
  }

  /** One foreign character makes equal states opposite exactly when the low byte that is multiplied is 0x80. */
  lemma OppositeAfter(v: Hash, c: Char)
    requires c < 0
    ensures Opposite(Step(v, c), OctetStep(v, c)) <==> XorWord(v, Octet(c)) % 256 == 0x80
  {
    var x, y := XorWord(v, Extend(c)), XorWord(v, Octet(c));
    assert Opposite(y, x) by {
      ExtendIsOctet(c);
      XorAssociates(v, Octet(c), HIGH);
    }
    hide XorWord, Opposite, TimesPrime;
    ProductsOpposite(x, y);
  }

  /** The products of opposite words are opposite exactly when their low byte is 0x80. */
  lemma ProductsOpposite(x: Hash, y: Hash)
    requires Opposite(y, x)
    ensures Opposite(TimesPrime(x), TimesPrime(y)) <==> y % 256 == 0x80
  {
    hide Opposite, TimesPrime;
    OppositeLow(y, x);
    OppositeSum(y, x);
    OppositeSum(TimesPrime(x), TimesPrime(y));
    LowByteOfProduct(x);
    var z := SumOfProducts(x, y, y % 256);
    SumMeets(TimesPrime(x), TimesPrime(y), y % 256, z);
  }

  lemma SumMeets(v: Hash, w: Hash, low: nat, z: int)
    requires low < 256 && v % 256 == low * 147 % 256 && v + w == 2 * (low - 128) * PRIME + WORD * z
    ensures w + v == WORD - 256 + 2 * (v % 256) <==> low == 0x80
  {
    var q, u := low * 147 / 256, v % 256;
    assert u == low * 147 - 256 * q;
    if low == 0x80 {
      assert u == 0x80 && 0 < v;
      assert z == 1;
    } else {
      NeverElse(low - 128, q, z - 1);
    }
  }

  lemma LowByteOfProduct(x: Hash)
    ensures TimesPrime(x) % 256 == x % 256 * 147 % 256
  {
    var m, v := x * PRIME / WORD, x * PRIME % WORD;
    var k, low := x / 256, x % 256;
    assert x * PRIME == m * WORD + v;
    WholeBytes(k * PRIME + low * 65537 - m * 0x100_0000, low * 147);
  }

  lemma WholeBytes(a: int, b: int)
    ensures (256 * a + b) % 256 == b % 256
  {
  }

  lemma SumOfProducts(x: Hash, y: Hash, low: int) returns (z: int)
    requires x + y == WORD - 256 + 2 * low
    ensures TimesPrime(x) + TimesPrime(y) == 2 * (low - 128) * PRIME + WORD * z
  {
    var m, n := x * PRIME / WORD, y * PRIME / WORD;
    z := PRIME - m - n;
  }

  /** The two sums differ by 512 times a number that is zero only if t is. */
  lemma NeverElse(t: int, q: int, z: int)
    requires -128 <= t <= 127 && t != 0 && 0 <= q <= 146
    ensures 65537 * t + 0x80_0000 * z + q - 73 != 0
  {
    assert 65536 * (t + 128 * z) != 0 ==> 65536 * (t + 128 * z) >= 65536 || 65536 * (t + 128 * z) <= -65536;
  }

  /** The bytes 02 C5 80: two foreign characters, and the code computes FNV-1a all the same. */
  lemma MeetsAgain()
    ensures HashFrom([2, -59, -128], BASIS) == Fnv1aFrom([2, -59, -128], BASIS)
  {
    hide HashFrom, Fnv1aFrom;
    var s: seq<Char> := [2];
    assert s + [-59] + [-128] + [] == [2, -59, -128];
    AgreesOnTwoForeignIff(s, -59, -128, [], BASIS);
    OneCharacter(2, BASIS, BASIS);
    AfterTwo(BASIS);
  }

  lemma AfterTwo(v: Hash)
    requires v % 256 == 0xc5
    ensures XorWord(Step(v, 2), Octet(-59)) % 256 == 0x80
  {
    hide Step, Xor, XorWord;
    LowByteOfStep(v, 2);
    XorBytes(Step(v, 2), Octet(-59));
    TwoBytes();
  }

  lemma TwoBytes()
    ensures Xor(0xc5, 2) == 0xc7 && Xor(0x45, 0xc5) == 0x80
  {
  }

  lemma XorBytes(a: Hash, b: Hash)
    ensures XorWord(a, b) % 256 == Xor(a % 256, b % 256)
  {
    LowBytes(a, b);
  }

  lemma LowByteOfStep(v: Hash, c: Char)
    requires c >= 0
    ensures Step(v, c) % 256 == Xor(v % 256, c) * 147 % 256
  {
    hide Xor;
    XorBytes(v, c);
    LowByteOfProduct(XorWord(v, c));
  }
}
