/**
 * The few pieces of java.lang that the samples lean on and whose exact
 * behaviour matters to them: 32- and 64-bit two's-complement wrap-around,
 * Math.abs, the truncating remainder operator, String.hashCode,
 * Integer.toString / Integer.valueOf, String.compareTo and
 * Character.isWhitespace.
 */
module JavaLang {
  import opened Wrappers

  const INT_MIN: int := -0x8000_0000
  const INT_MAX: int := 0x7FFF_FFFF
  const LONG_MIN: int := -0x8000_0000_0000_0000
  const LONG_MAX: int := 0x7FFF_FFFF_FFFF_FFFF

  predicate IsInt32(x: int) { INT_MIN <= x <= INT_MAX }
  predicate IsInt64(x: int) { LONG_MIN <= x <= LONG_MAX }

  /** The int value a 32-bit register holds after computing x exactly. */
  function Wrap32(x: int): (r: int)
    ensures IsInt32(r)
    ensures (r - x) % 0x1_0000_0000 == 0
    ensures IsInt32(x) ==> r == x
  {
    (x - INT_MIN) % 0x1_0000_0000 + INT_MIN
  }

  /** The long value a 64-bit register holds after computing x exactly. */
  function Wrap64(x: int): (r: int)
    ensures IsInt64(r)
    ensures (r - x) % 0x1_0000_0000_0000_0000 == 0
    ensures IsInt64(x) ==> r == x
  {
    (x - LONG_MIN) % 0x1_0000_0000_0000_0000 + LONG_MIN
  }

  /** Math.abs(int): the negation of Integer.MIN_VALUE overflows back to itself. */
  function Abs32(x: int): (r: int)
    requires IsInt32(x)
    ensures IsInt32(r)
    ensures x != INT_MIN ==> r >= 0 && (r == x || r == -x)
    ensures x == INT_MIN ==> r == INT_MIN
  {
    Wrap32(if x < 0 then -x else x)
  }

  /**
   * Java's `a % b`: the quotient is truncated toward zero, so the remainder
   * takes the sign of the dividend (Dafny's own `%` is Euclidean).
   */
  function Rem(a: int, b: int): (r: int)
    requires b != 0
    ensures (a >= 0 ==> 0 <= r) && (a <= 0 ==> r <= 0)
    ensures -(Abs(b) as int) < r < Abs(b)
    ensures (a - r) % b == 0
  {
    var m := if a >= 0 then a else -a;
    var r0 := m % Abs(b);
    RemLeavesMultiple(a, b, m, r0);
    if a >= 0 then r0 else -r0
  }

  /** Taking off the remainder of the magnitude leaves a multiple of `b`, on either sign. */
  lemma RemLeavesMultiple(a: int, b: int, m: nat, r0: int)
    requires b != 0 && m == (if a >= 0 then a else -a) && r0 == m % Abs(b)
    ensures (a - (if a >= 0 then r0 else -r0)) % b == 0
  {
    var q := m / Abs(b);
    assert m - r0 == Abs(b) * q;
    var k := if (a >= 0) == (b > 0) then q else -q;
    assert Abs(b) * q == b * (if b > 0 then q else -q);
    assert a - (if a >= 0 then r0 else -r0) == b * k;
    MultipleRemZero(b, k);
  }

  /** A multiple of `b` leaves no remainder. */
  lemma MultipleRemZero(b: int, k: int)
    requires b != 0
    ensures (b * k) % b == 0
  {
    var x := b * k;
    var d := k - x / b;
    assert b * d == x % b;
    if d != 0 {
      ProductAtLeast(b, d);
      assert false;
    }
  }

  /** A non-zero multiple of `b` is at least as large as `b`. */
  lemma ProductAtLeast(b: int, d: int)
    requires d != 0
    ensures Abs(b * d) >= Abs(b)
  {
    var n: nat := Abs(d);
    assert Abs(b * d) == Abs(b) * n by {
      if d < 0 { assert b * d == -(b * n); }
    }
    var e: nat := n - 1;
    assert Abs(b) * n == Abs(b) + Abs(b) * e;
    assert Abs(b) * e >= 0;
  }

  function Abs(x: int): nat { if x < 0 then -x else x }

  // ---------------------------------------------------------------------
  // String.hashCode

  /**
   * The UTF-16 code units of a string: characters outside the Basic
   * Multilingual Plane take a surrogate pair, the rest one unit each.
   */
  function CodeUnits(s: string): (u: seq<int>)
    ensures |u| >= |s|
    ensures forall i :: 0 <= i < |u| ==> 0 <= u[i] <= 0xFFFF
  {
    if s == [] then []
    else
      var c := s[|s| - 1] as int;
      CodeUnits(s[..|s| - 1]) +
        (if c <= 0xFFFF then [c]
         else [0xD800 + (c - 0x10000) / 0x400, 0xDC00 + (c - 0x10000) % 0x400])
  }

  /** s[0]*31^(n-1) + ... + s[n-1], computed exactly (no wrap-around). */
  function Polynomial(u: seq<int>): int
  {
    if u == [] then 0 else 31 * Polynomial(u[..|u| - 1]) + u[|u| - 1]
  }

  /** The loop `h = 31 * h + c` over the code units, wrapping at every step. */
  function HashLoop(u: seq<int>): (h: int)
    ensures IsInt32(h)
  {
    if u == [] then 0 else Wrap32(31 * HashLoop(u[..|u| - 1]) + u[|u| - 1])
  }

  function HashCode(s: string): (h: int)
    ensures IsInt32(h)
  {
    HashLoop(CodeUnits(s))
  }

  /**
   * Wrapping at every step of the loop gives the same int as computing the
   * polynomial exactly and wrapping once: String.hashCode is the polynomial
   * hash reduced to 32 bits.
   */
  lemma {:induction false} HashIsWrappedPolynomial(u: seq<int>)
    ensures HashLoop(u) == Wrap32(Polynomial(u))
  {
    if u != [] {
      var p := u[..|u| - 1];
      HashIsWrappedPolynomial(p);
      var k := (HashLoop(p) - Polynomial(p)) / 0x1_0000_0000;
      assert HashLoop(p) == Polynomial(p) + k * 0x1_0000_0000;
      var x := 31 * HashLoop(p) + u[|u| - 1];
      var y := Polynomial(u);
      assert x == y + (31 * k) * 0x1_0000_0000;
      WrapShift(y, 31 * k);
    }
  }

  /** One iteration of the hash loop, for evaluating the hash of a known string. */
  lemma HashStep(p: seq<int>, c: int, h: int)
    requires HashLoop(p) == h
    ensures HashLoop(p + [c]) == Wrap32(31 * h + c)
  {
    assert (p + [c])[..|p|] == p;
  }

  /** Strings inside the Basic Multilingual Plane are their own code units. */
  lemma {:induction false} CodeUnitsBmp(s: string)
    requires forall i :: 0 <= i < |s| ==> s[i] as int <= 0xFFFF
    ensures |CodeUnits(s)| == |s|
    ensures forall i :: 0 <= i < |s| ==> CodeUnits(s)[i] == s[i] as int
  {
    if s != [] { CodeUnitsBmp(s[..|s| - 1]); }
  }

  lemma WrapShift(y: int, k: int)
    ensures Wrap32(y + k * 0x1_0000_0000) == Wrap32(y)
  {
    var m := 0x1_0000_0000;
    assert (y + k * m - INT_MIN) % m == (y - INT_MIN) % m;
  }

  lemma WrapShift64(y: int, k: int)
    ensures Wrap64(y + k * 0x1_0000_0000_0000_0000) == Wrap64(y)
  {
    var m := 0x1_0000_0000_0000_0000;
    assert (y + k * m - LONG_MIN) % m == (y - LONG_MIN) % m;
  }

  /** Adding and then subtracting the same long gets the original long back, overflow or not. */
  lemma AddThenSubtract64(b: int, a: int)
    requires IsInt64(b) && IsInt64(a)
    ensures Wrap64(Wrap64(b + a) - a) == b
  {
    var m := 0x1_0000_0000_0000_0000;
    var k := (Wrap64(b + a) - (b + a)) / m;
    assert Wrap64(b + a) == b + a + k * m;
    assert Wrap64(b + a) - a == b + k * m;
    WrapShift64(b, k);
  }

  // ---------------------------------------------------------------------
  // Integer.toString and Integer.valueOf

  predicate IsDigit(c: char) { '0' <= c <= '9' }

  predicate AllDigits(s: string) { forall i :: 0 <= i < |s| ==> IsDigit(s[i]) }

  function DigitChar(d: int): (c: char)
    requires 0 <= d <= 9
    ensures IsDigit(c)
  {
    ('0' as int + d) as char
  }

  function DigitValue(c: char): (d: nat)
    requires IsDigit(c)
    ensures d <= 9 && DigitChar(d) == c
  {
    (c as int - '0' as int)
  }

  /** The value of a non-empty run of decimal digits, most significant first. */
  function DigitsValue(s: string): nat
    requires AllDigits(s)
  {
    if s == [] then 0 else 10 * DigitsValue(s[..|s| - 1]) + DigitValue(s[|s| - 1])
  }

  /** Integer.toString of a non-negative value: decimal, no leading zeros. */
  function NatToString(n: nat): (s: string)
    ensures |s| >= 1
    ensures AllDigits(s)
    ensures |s| > 1 ==> s[0] != '0'
  {
    if n < 10 then [DigitChar(n)] else NatToString(n / 10) + [DigitChar(n % 10)]
  }

  /** Integer.toString: a leading '-' for negative values. */
  function IntToString(n: int): (s: string)
    ensures |s| >= 1
    ensures n < 0 <==> s[0] == '-'
  {
    if n < 0 then "-" + NatToString(-n) else NatToString(n)
  }

  lemma {:induction false} NatToStringValue(n: nat)
    ensures DigitsValue(NatToString(n)) == n
  {
    if n >= 10 {
      NatToStringValue(n / 10);
      var s := NatToString(n);
      assert s[..|s| - 1] == NatToString(n / 10);
    }
  }

  /**
   * Integer.valueOf(String): an optional '+' or '-' followed by at least one
   * decimal digit, with a value in the int range; anything else is a
   * NumberFormatException, modelled as None.
   */
  function ParseInt(s: string): (r: Option<int>)
    ensures r.Some? ==> IsInt32(r.value)
    ensures r.Some? ==> |s| >= 1
  {
    if s == [] then None
    else
      var neg := s[0] == '-';
      var digits := if s[0] == '-' || s[0] == '+' then s[1..] else s;
      if digits == [] || !AllDigits(digits) then None
      else
        var v: int := if neg then -(DigitsValue(digits) as int) else DigitsValue(digits);
        if IsInt32(v) then Some(v) else None
  }

  /** Integer.valueOf(Integer.toString(n)) == n for every int n. */
  lemma ParseIntToString(n: int)
    requires IsInt32(n)
    ensures ParseInt(IntToString(n)) == Some(n)
  {
    var m := if n < 0 then -n else n;
    NatToStringValue(m);
    if n < 0 {
      assert IntToString(n)[1..] == NatToString(m);
    }
  }

  /** Input with something other than digits after the sign is refused. */
  lemma ParseIntRejectsNonDigit(s: string, i: nat)
    requires 0 < i < |s| && !IsDigit(s[i])
    ensures ParseInt(s) == None
  {
    var digits := if s[0] == '-' || s[0] == '+' then s[1..] else s;
    var j := if s[0] == '-' || s[0] == '+' then i - 1 else i;
    assert 0 <= j < |digits| && !IsDigit(digits[j]);
    assert !AllDigits(digits);
  }

  // ---------------------------------------------------------------------
  // String.compareTo

  /** `a.compareTo(b) < 0`: first differing character, else the shorter one. */
  predicate Less(a: string, b: string)
  {
    if a == [] then b != []
    else if b == [] then false
    else if a[0] != b[0] then a[0] < b[0]
    else Less(a[1..], b[1..])
  }

  lemma {:induction false} LessIrreflexive(a: string)
    ensures !Less(a, a)
  {
    if a != [] { LessIrreflexive(a[1..]); }
  }

  lemma {:induction false} LessAsymmetric(a: string, b: string)
    requires Less(a, b)
    ensures !Less(b, a)
  {
    if a != [] && b != [] && a[0] == b[0] { LessAsymmetric(a[1..], b[1..]); }
  }

  lemma {:induction false} LessTransitive(a: string, b: string, c: string)
    requires Less(a, b) && Less(b, c)
    ensures Less(a, c)
  {
    if a != [] && b != [] && c != [] && a[0] == b[0] && b[0] == c[0] {
      LessTransitive(a[1..], b[1..], c[1..]);
    }
  }

  lemma {:induction false} LessTotal(a: string, b: string)
    requires a != b
    ensures Less(a, b) || Less(b, a)
  {
    if a != [] && b != [] && a[0] == b[0] {
      assert a == [a[0]] + a[1..] && b == [b[0]] + b[1..];
      LessTotal(a[1..], b[1..]);
    }
  }

  // ---------------------------------------------------------------------
  // Character.isWhitespace

  /**
   * Character.isWhitespace: the Unicode space, line and paragraph separators
   * other than the no-break spaces U+00A0, U+2007 and U+202F, plus the
   * controls U+0009-U+000D and U+001C-U+001F.
   */
  predicate IsWhitespace(c: char)
  {
    var u := c as int;
    (0x09 <= u <= 0x0D) || (0x1C <= u <= 0x1F) || u == 0x20 || u == 0x1680
    || (0x2000 <= u <= 0x2006) || (0x2008 <= u <= 0x200A)
    || u == 0x2028 || u == 0x2029 || u == 0x205F || u == 0x3000
  }
}
