/**
 * The parts of Java's integer and string semantics the modelled code relies
 * on: fixed-width casts, the exact-arithmetic helpers of java.lang.Math,
 * Math.round on (real-valued) doubles, String.hashCode and String.compareTo.
 */
module JavaNumbers {
  import opened Results

  const INT_MIN: int := -0x8000_0000
  const INT_MAX: int := 0x7fff_ffff
  const LONG_MIN: int := -0x8000_0000_0000_0000
  const LONG_MAX: int := 0x7fff_ffff_ffff_ffff

  const INT_MODULUS: nat := 0x1_0000_0000
  const SHORT_MODULUS: nat := 0x1_0000
  const BYTE_MODULUS: nat := 0x100

  type Int8 = x: int | -0x80 <= x < 0x80
  type Int16 = x: int | -0x8000 <= x < 0x8000
  type Int32 = x: int | -0x8000_0000 <= x < 0x8000_0000
  type Int64 = x: int | -0x8000_0000_0000_0000 <= x < 0x8000_0000_0000_0000

  predicate IsInt32(x: int) {
    INT_MIN <= x <= INT_MAX
  }

  /** The number of values of Java's byte, short and int types. */
  predicate IsModulus(modulus: nat) {
    modulus == BYTE_MODULUS || modulus == SHORT_MODULUS || modulus == INT_MODULUS
  }

  /**
   * Two's-complement truncation to a width whose number of values is
   * `modulus`: what Java's `(int)`, `(short)` and `(byte)` casts of a long
   * do, and what unchecked `int` addition does.
   */
  function Truncate(x: int, modulus: nat): (r: int)
    requires IsModulus(modulus)
    ensures -(modulus / 2) <= r < modulus / 2
    ensures (x - r) % modulus == 0
    ensures -(modulus / 2) <= x < modulus / 2 ==> r == x
  {
    var m := x % modulus;
    if m < modulus / 2 then m else m - modulus
  }

  /** Math.toIntExact: the long narrowed to int, or "integer overflow". */
  function ToIntExact(v: int): (r: Result<Int32>)
    ensures r.Ok? <==> IsInt32(v)
    ensures r.Ok? ==> r.value == v
    ensures r.Err? ==> r.error == Arithmetic("integer overflow")
  {
    if Truncate(v, INT_MODULUS) != v then Err(Arithmetic("integer overflow")) else Ok(v)
  }

  /** Math.multiplyExact(int, int): the product, or "integer overflow". */
  function MultiplyExact(a: Int32, b: Int32): (r: Result<Int32>)
    ensures r.Ok? <==> IsInt32(a * b)
    ensures r.Ok? ==> r.value == a * b
  {
    ToIntExact(a * b)
  }

  /** The `(short) v != v` check of DropVariation.calculateDamage. */
  function NarrowToShort(v: int): (r: Result<Int16>)
    ensures r.Ok? <==> -32768 <= v <= 32767
    ensures r.Ok? ==> r.value == v
    ensures r.Err? ==> r.error == Arithmetic("short overflow")
  {
    if Truncate(v, SHORT_MODULUS) != v then Err(Arithmetic("short overflow")) else Ok(v)
  }

  /** The `(byte) v != v` check of DropVariation.calculateData. */
  function NarrowToByte(v: int): (r: Result<Int8>)
    ensures r.Ok? <==> -128 <= v <= 127
    ensures r.Ok? ==> r.value == v
    ensures r.Err? ==> r.error == Arithmetic("integer overflow")
  {
    if Truncate(v, BYTE_MODULUS) != v then Err(Arithmetic("integer overflow")) else Ok(v)
  }

  /**
   * Math.round(double) on a real argument: the nearest integer, halves
   * rounded up, saturated to the range of long.
   */
  function RoundToLong(x: real): (r: Int64)
    ensures LONG_MIN as real <= x + 0.5 < LONG_MAX as real + 1.0 ==> x - 0.5 < r as real <= x + 0.5
    ensures x + 0.5 < LONG_MIN as real ==> r == LONG_MIN
    ensures LONG_MAX as real + 1.0 <= x + 0.5 ==> r == LONG_MAX
  {
    var f := (x + 0.5).Floor;
    if f < LONG_MIN then LONG_MIN else if f > LONG_MAX then LONG_MAX else f
  }

  function Abs(x: real): (r: real)
    ensures 0.0 <= r && (r == x || r == -x)
  {
    if x < 0.0 then -x else x
  }

  /** Math.max(double, double) on reals. */
  function RealMax(a: real, b: real): (r: real)
    ensures a <= r && b <= r && (r == a || r == b)
  {
    if a >= b then a else b
  }

  /**
   * The UTF-16 code units Java stores for one character: the character
   * itself inside the Basic Multilingual Plane, a surrogate pair outside it.
   */
  function CodeUnits(c: char): (u: seq<int>)
    ensures |u| == 1 <==> c as int < 0x1_0000
    ensures |u| == 1 || |u| == 2
    ensures forall i :: 0 <= i < |u| ==> 0 <= u[i] < 0x1_0000
    ensures |u| == 1 ==> u[0] == c as int
    ensures |u| == 2 ==> 0xD800 <= u[0] < 0xDC00 && 0xDC00 <= u[1] < 0xE000
  {
    if c as int < 0x1_0000 then [c as int]
    else
      var v := c as int - 0x1_0000;
      [0xD800 + v / 0x400, 0xDC00 + v % 0x400]
  }

  /** A Java string's contents: the UTF-16 encoding of its characters. */
  function Utf16(s: string): (u: seq<int>)
    ensures |s| <= |u| <= 2 * |s|
    ensures forall i :: 0 <= i < |u| ==> 0 <= u[i] < 0x1_0000
    ensures (forall i :: 0 <= i < |s| ==> s[i] as int < 0x1_0000) ==>
              |u| == |s| && forall i :: 0 <= i < |s| ==> u[i] == s[i] as int
  {
    if s == [] then [] else CodeUnits(s[0]) + Utf16(s[1..])
  }

  /** Distinct strings have distinct encodings. */
  lemma {:induction false} Utf16Injective(s: string, t: string)
    requires Utf16(s) == Utf16(t)
    ensures s == t
  {
    if s != [] && t != [] {
      CodeUnitsPrefix(s[0], t[0], Utf16(s[1..]), Utf16(t[1..]));
      Utf16Injective(s[1..], t[1..]);
      assert s == [s[0]] + s[1..] && t == [t[0]] + t[1..];
    }
  }

  /** The units of a first character are told apart from whatever follows them. */
  lemma CodeUnitsPrefix(c: char, d: char, rest: seq<int>, rest': seq<int>)
    requires CodeUnits(c) + rest == CodeUnits(d) + rest'
    ensures c == d && rest == rest'
  {
    var a, b := CodeUnits(c), CodeUnits(d);
    assert a[0] == (a + rest)[0] == b[0];
    if |a| == 2 {
      assert a[1] == (a + rest)[1] == b[1];
      var v, w := c as int - 0x1_0000, d as int - 0x1_0000;
      assert v == v / 0x400 * 0x400 + v % 0x400 && w == w / 0x400 * 0x400 + w % 0x400;
    }
    assert rest == (a + rest)[|a|..] == (b + rest')[|b|..] == rest';
  }

  /** The int hash h = 31 * h + u over a sequence of code units. */
  function UnitsHash(u: seq<int>): (h: Int32)
    ensures u == [] ==> h == 0
  {
    if u == [] then 0
    else Truncate(31 * UnitsHash(u[..|u| - 1]) + u[|u| - 1], INT_MODULUS)
  }

  /** String.hashCode: the hash of the string's UTF-16 code units. */
  function StringHash(s: string): (h: Int32)
    ensures s == [] ==> h == 0
  {
    UnitsHash(Utf16(s))
  }

  /** A character outside the Basic Multilingual Plane hashes as its two surrogates. */
  lemma SurrogatePairHash()
    ensures Utf16("\U{1F600}") == [0xD83D, 0xDE00]
    ensures StringHash("\U{1F600}") == 31 * 0xD83D + 0xDE00
  {
    var u := Utf16("\U{1F600}");
    assert u == CodeUnits('\U{1F600}');
    assert u[..1] == [0xD83D];
    assert UnitsHash([0xD83D]) == 0xD83D by {
      assert [0xD83D][..0] == [];
    }
  }

  /**
   * String.compareTo over code units: the difference of the first
   * differing units, or else the difference of the lengths.
   */
  function CompareUnits(a: seq<int>, b: seq<int>): int
  {
    if a == [] || b == [] then |a| - |b|
    else if a[0] != b[0] then a[0] - b[0]
    else CompareUnits(a[1..], b[1..])
  }

  /** String.compareTo: the comparison of the two strings' UTF-16 code units. */
  function CompareStrings(s: string, t: string): (r: int)
    ensures r < 0 <==> LexLess(Utf16(s), Utf16(t))
    ensures r == 0 <==> s == t
  {
    CompareUnitsSign(Utf16(s), Utf16(t));
    CompareStringsZero(s, t);
    CompareUnits(Utf16(s), Utf16(t))
  }

  /**
   * The lexicographic order: a is a proper prefix of b, or at the first
   * position where they differ a has the smaller unit.
   */
  ghost predicate LexLess(a: seq<int>, b: seq<int>) {
    || (|a| < |b| && a == b[..|a|])
    || exists k :: 0 <= k < |a| && k < |b| && a[..k] == b[..k] && a[k] < b[k]
  }

  /** compareTo is negative exactly when the first sequence comes first lexicographically. */
  lemma {:induction false} CompareUnitsSign(a: seq<int>, b: seq<int>)
    ensures CompareUnits(a, b) < 0 <==> LexLess(a, b)
  {
    if a == [] {
      assert a == b[..0];
    } else if b == [] {
    } else if a[0] != b[0] {
      if LexLess(a, b) {
        LexLessHead(a, b);
      }
      assert a[..0] == b[..0];
    } else {
      CompareUnitsSign(a[1..], b[1..]);
      LexLessTail(a, b);
    }
  }

  /** A sequence that comes first starts with a unit no larger. */
  lemma LexLessHead(a: seq<int>, b: seq<int>)
    requires a != [] && b != [] && LexLess(a, b)
    ensures a[0] <= b[0]
  {
    if |a| < |b| && a == b[..|a|] {
      assert a[0] == b[..|a|][0];
    } else {
      var k :| 0 <= k < |a| && k < |b| && a[..k] == b[..k] && a[k] < b[k];
      if k > 0 {
        assert a[0] == a[..k][0] == b[..k][0] == b[0];
      }
    }
  }

  /** With equal first units, the order is decided by the rest. */
  lemma LexLessTail(a: seq<int>, b: seq<int>)
    requires a != [] && b != [] && a[0] == b[0]
    ensures LexLess(a, b) <==> LexLess(a[1..], b[1..])
  {
    if LexLess(a[1..], b[1..]) {
      if |a[1..]| < |b[1..]| && a[1..] == b[1..][..|a[1..]|] {
        assert a == [a[0]] + a[1..] && b[..|a|] == [b[0]] + b[1..][..|a[1..]|];
      } else {
        var k :| 0 <= k < |a[1..]| && k < |b[1..]| && a[1..][..k] == b[1..][..k] && a[1..][k] < b[1..][k];
        assert a[..k + 1] == [a[0]] + a[1..][..k] && b[..k + 1] == [b[0]] + b[1..][..k];
        assert a[k + 1] < b[k + 1];
      }
    }
    if LexLess(a, b) {
      if |a| < |b| && a == b[..|a|] {
        assert a[1..] == b[1..][..|a[1..]|];
      } else {
        var k :| 0 <= k < |a| && k < |b| && a[..k] == b[..k] && a[k] < b[k];
        if k == 0 {
          assert false;
        }
        assert a[1..][..k - 1] == a[..k][1..] == b[..k][1..] == b[1..][..k - 1];
        assert a[1..][k - 1] < b[1..][k - 1];
      }
    }
  }

  /** compareTo is antisymmetric: swapping the arguments negates the result. */
  lemma {:induction false} CompareUnitsAntisymmetric(a: seq<int>, b: seq<int>)
    ensures CompareUnits(a, b) == -CompareUnits(b, a)
  {
    if a != [] && b != [] && a[0] == b[0] {
      CompareUnitsAntisymmetric(a[1..], b[1..]);
    }
  }

  /** compareTo is zero exactly on equal sequences. */
  lemma {:induction false} CompareUnitsZero(a: seq<int>, b: seq<int>)
    ensures CompareUnits(a, b) == 0 <==> a == b
  {
    if a != [] && b != [] && a[0] == b[0] {
      CompareUnitsZero(a[1..], b[1..]);
      assert a == [a[0]] + a[1..] && b == [b[0]] + b[1..];
    }
  }

  /** Equal strings are exactly those whose code units compare as 0. */
  lemma CompareStringsZero(s: string, t: string)
    ensures CompareUnits(Utf16(s), Utf16(t)) == 0 <==> s == t
  {
    CompareUnitsZero(Utf16(s), Utf16(t));
    if Utf16(s) == Utf16(t) {
      Utf16Injective(s, t);
    }
  }

  /** compareTo on strings is antisymmetric. */
  lemma CompareStringsAntisymmetric(s: string, t: string)
    ensures CompareStrings(s, t) == -CompareStrings(t, s)
  {
    CompareUnitsAntisymmetric(Utf16(s), Utf16(t));
  }

  /**
   * compareTo orders by code units, not by characters: U+FFFF comes after
   * U+1F600, whose first surrogate is 0xD83D.
   */
  lemma SurrogatesSortBelowHighCharacters()
    ensures CompareStrings("\U{FFFF}", "\U{1F600}") == 0xFFFF - 0xD83D
  {
    assert Utf16("\U{FFFF}") == [0xFFFF];
    assert Utf16("\U{1F600}") == CodeUnits('\U{1F600}') == [0xD83D, 0xDE00];
  }
}
