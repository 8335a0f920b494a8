/**
 * Definitions shared by every part of the model: an optional value for the
 * source's NULL returns, the C-locale character map used by tolower, and C's
 * integer division, which truncates toward zero where Dafny's is Euclidean.
 */
module Base {

  /** A value or nothing; stands for a pointer that may be NULL. */
  datatype Option<T> = None | Some(value: T)

  // ---------------------------------------------------------------------------
  // Characters and C strings.  A C string is modelled by the characters before
  // its terminating NUL, so strlen(s) is |s|.
  // ---------------------------------------------------------------------------

  predicate IsUpper(c: char) { 'A' <= c <= 'Z' }

  predicate IsDigit(c: char) { '0' <= c <= '9' }

  /** tolower in the C locale: maps 'A'..'Z' to 'a'..'z' and fixes everything else. */
  function ToLower(c: char): (r: char)
    ensures IsUpper(c) ==> r as int == c as int + 32
    ensures !IsUpper(c) ==> r == c
  {
    if IsUpper(c) then (c as int + 32) as char else c
  }

  /** The per-character tolower image of s: the value a lower-casing copy loop produces. */
  function LowerString(s: string): (r: string)
    ensures |r| == |s|
    ensures forall i :: 0 <= i < |s| ==> r[i] == ToLower(s[i])
  {
    if s == [] then [] else [ToLower(s[0])] + LowerString(s[1..])
  }

  /**
   * A per-character copy loop through tolower into a freshly allocated buffer.
   * `allocOk` is the allocator's verdict on the buffer: on failure the result
   * is NULL.
   */
  method LowerStringCopy(s: string, allocOk: bool) returns (r: Option<string>)
    ensures allocOk <==> r.Some?
    ensures r.Some? ==> |r.value| == |s| && r.value == LowerString(s)
  {
    if !allocOk {
      return None;
    }
    var cpy := new char[|s|];
    var i := 0;
    while i < |s|
      invariant 0 <= i <= |s|
      invariant forall k :: 0 <= k < i ==> cpy[k] == ToLower(s[k])
    {
      cpy[i] := ToLower(s[i]);
      i := i + 1;
    }
    r := Some(cpy[..]);
  }

  /** Lower-casing never changes a string that has no upper-case letter. */
  lemma {:induction false} LowerStringFixesLower(s: string)
    requires forall i :: 0 <= i < |s| ==> !IsUpper(s[i])
    ensures LowerString(s) == s
  {
    if s != [] {
      LowerStringFixesLower(s[1..]);
    }
  }

  /** Lower-casing is idempotent. */
  lemma LowerStringIdempotent(s: string)
    ensures LowerString(LowerString(s)) == LowerString(s)
  {
    var t := LowerString(s);
    forall i | 0 <= i < |t| ensures !IsUpper(t[i]) { }
    LowerStringFixesLower(t);
  }

  // ---------------------------------------------------------------------------
  // C integer division.  C99 division truncates toward zero and the remainder
  // takes the sign of the dividend.
  // ---------------------------------------------------------------------------

  function Abs(a: int): nat { if a < 0 then -a else a }

  /** a / b in C: the quotient of the magnitudes, negated when the signs differ. */
  function CDiv(a: int, b: int): int
    requires b != 0
  {
    var q := Abs(a) / Abs(b);
    if (a < 0) == (b < 0) then q else -q
  }

  /** a % b in C: what is left of a after taking away CDiv(a, b) whole b's. */
  function CMod(a: int, b: int): int
    requires b != 0
  {
    a - CDiv(a, b) * b
  }

  /**
   * For a positive divisor C division rounds toward zero: down for a
   * non-negative dividend and up for a negative one, and the C remainder has
   * the sign of the dividend and is smaller than the divisor.
   */
  lemma CDivPositiveDivisor(a: int, b: int)
    requires b > 0
    ensures a >= 0 ==> CDiv(a, b) * b <= a < CDiv(a, b) * b + b
    ensures a < 0 ==> CDiv(a, b) * b - b < a <= CDiv(a, b) * b
    ensures a == CDiv(a, b) * b + CMod(a, b)
    ensures -b < CMod(a, b) < b
    ensures a >= 0 ==> CMod(a, b) >= 0
    ensures a <= 0 ==> CMod(a, b) <= 0
  {
    var n, r := Abs(a) / b, Abs(a) % b;
    var p := n * b;
    assert Abs(a) == p + r && 0 <= r < b;
    if a < 0 {
      NegMul(n, b);
      assert CDiv(a, b) * b == -p;
    } else {
      assert CDiv(a, b) * b == p;
    }
  }

  /** Proof helper for CDivPositiveDivisor: negation commutes with multiplication. */
  lemma NegMul(n: int, b: int)
    ensures (-n) * b == -(n * b)
  {
  }

  /** For a non-negative dividend and positive divisor C division agrees with Dafny's. */
  lemma CDivNonNegative(a: int, b: int)
    requires a >= 0 && b > 0
    ensures CDiv(a, b) == a / b && CMod(a, b) == a % b
  {
  }

  // ---------------------------------------------------------------------------
  // Integer widths of the LP64 data model the source asserts (print_utils.c).
  // ---------------------------------------------------------------------------

  const INT_MIN: int := -0x8000_0000
  const INT_MAX: int := 0x7fff_ffff
  const UINT_MAX: int := 0xffff_ffff
  const LONG_MIN: int := -0x8000_0000_0000_0000
  const LONG_MAX: int := 0x7fff_ffff_ffff_ffff
  const ULONG_MAX: int := 0xffff_ffff_ffff_ffff

  predicate IsLong(x: int) { LONG_MIN <= x <= LONG_MAX }
}
