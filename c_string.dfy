/**
 * The C library string routines the programs rely on, over C strings
 * modelled as their characters before the terminator: strncmp (as an
 * equality-within-n test, the only way the programs use it) and strtol in
 * base 10.
 */
module CString {
  import opened Base

  /** Character i of the C string s: its characters, then the terminator. */
  function CharAt(s: string, i: nat): char {
    if i < |s| then s[i] else '\0'
  }

  /**
   * strncmp(a, b, n) == 0 from position i on: the strings agree on every
   * position below n up to and including the first terminator.
   */
  function StrNEq(a: string, b: string, n: nat, i: nat): bool
    decreases n - i
  {
    if i >= n then true
    else if CharAt(a, i) != CharAt(b, i) then false
    else if CharAt(a, i) == '\0' then true
    else StrNEq(a, b, n, i + 1)
  }

  /** strncmp(a, b, n) == 0 exactly when strncmp(b, a, n) == 0. */
  lemma {:induction false} StrNEqSymmetric(a: string, b: string, n: nat, i: nat)
    ensures StrNEq(a, b, n, i) == StrNEq(b, a, n, i)
    decreases n - i
  {
    if i < n && CharAt(a, i) == CharAt(b, i) && CharAt(a, i) != '\0' {
      StrNEqSymmetric(a, b, n, i + 1);
    }
  }

  /**
   * A comparison length that reaches b's terminator makes strncmp an exact
   * equality test: the strings agree from i on exactly when their tails
   * from i are equal.
   */
  lemma {:induction false} StrNEqExact(a: string, b: string, n: nat, i: nat)
    requires '\0' !in a && '\0' !in b
    requires n == |b| + 1 && i <= |b| && i <= |a|
    ensures StrNEq(a, b, n, i) <==> a[i..] == b[i..]
    decreases n - i
  {
    if i < |a| {
      assert a[i] in a && a[i..] != [];
    }
    if i < |b| {
      assert b[i] in b && b[i..] != [];
    }
    if i < |a| && i < |b| && a[i] == b[i] {
      StrNEqExact(a, b, n, i + 1);
      assert a[i..] == [a[i]] + a[i + 1..] && b[i..] == [b[i]] + b[i + 1..];
    } else if i < |a| && i < |b| {
      assert a[i..][0] != b[i..][0];
    }
  }

  /** A string longer than b never compares equal to b within b's length plus its terminator. */
  lemma {:induction false} StrNEqLonger(a: string, b: string, n: nat, i: nat)
    requires '\0' !in a && n == |b| + 1 && |a| > |b| && i <= |b|
    ensures !StrNEq(a, b, n, i)
    decreases n - i
  {
    if i < |b| && CharAt(a, i) == CharAt(b, i) && CharAt(a, i) != '\0' {
      StrNEqLonger(a, b, n, i + 1);
    } else if i == |b| {
      assert a[i] in a;
    }
  }

  /** strncmp(a, b, strlen(b) + 1) == 0 exactly when a is b. */
  lemma StrNCmpWithTerminator(a: string, b: string)
    requires '\0' !in a && '\0' !in b
    ensures StrNEq(a, b, |b| + 1, 0) <==> a == b
  {
    if |a| <= |b| {
      StrNEqExact(a, b, |b| + 1, 0);
      assert a[0..] == a && b[0..] == b;
    } else {
      StrNEqLonger(a, b, |b| + 1, 0);
    }
  }

  /**
   * Comparing only strlen(b) characters tests for a prefix: from i on, a
   * agrees with b up to b's end exactly when a is at least as long as b and
   * its characters i to |b| are b's.
   */
  lemma {:induction false} StrNEqPrefixFrom(a: string, b: string, i: nat)
    requires '\0' !in a && '\0' !in b
    requires i <= |b| && i <= |a|
    ensures StrNEq(a, b, |b|, i) <==> |b| <= |a| && a[i..|b|] == b[i..]
    decreases |b| - i
  {
    if i < |b| {
      assert b[i] in b;
      if i == |a| {
        assert CharAt(a, i) != CharAt(b, i);
      } else {
        assert a[i] in a;
        if a[i] == b[i] {
          StrNEqPrefixFrom(a, b, i + 1);
          if |b| <= |a| {
            assert a[i..|b|] == [a[i]] + a[i + 1..|b|];
            assert b[i..] == [b[i]] + b[i + 1..];
          }
        } else if |b| <= |a| {
          assert a[i..|b|][0] != b[i..][0];
        }
      }
    }
  }

  /** p is a prefix of s. */
  predicate HasPrefix(s: string, p: string) {
    |p| <= |s| && s[..|p|] == p
  }

  /** strncmp(a, b, strlen(b)) == 0 exactly when b is a prefix of a. */
  lemma StrNCmpPrefix(a: string, b: string)
    requires '\0' !in a && '\0' !in b
    ensures StrNEq(a, b, |b|, 0) <==> HasPrefix(a, b)
  {
    StrNEqPrefixFrom(a, b, 0);
    assert b[0..] == b;
  }

  // ---------------------------------------------------------------------------
  // strtol(s, &end, 10).
  // ---------------------------------------------------------------------------

  /** isspace in the C locale: ' ', '\t', '\n', '\v', '\f', '\r'. */
  predicate IsSpace(c: char) {
    c == ' ' || '\t' <= c <= '\r'
  }

  /** The first index from i on that does not hold white space. */
  function SkipSpace(s: string, i: nat): (j: nat)
    requires i <= |s|
    ensures i <= j <= |s|
    ensures j < |s| ==> !IsSpace(s[j])
    ensures forall k :: i <= k < j ==> IsSpace(s[k])
    decreases |s| - i
  {
    if i < |s| && IsSpace(s[i]) then SkipSpace(s, i + 1) else i
  }

  /** The end of the run of decimal digits that starts at i. */
  function DigitRun(s: string, i: nat): (j: nat)
    requires i <= |s|
    ensures i <= j <= |s|
    ensures j < |s| ==> !IsDigit(s[j])
    ensures forall k :: i <= k < j ==> IsDigit(s[k])
    decreases |s| - i
  {
    if i < |s| && IsDigit(s[i]) then DigitRun(s, i + 1) else i
  }

  predicate AllDigits(s: string) {
    forall i :: 0 <= i < |s| ==> IsDigit(s[i])
  }

  /** The value of a string of decimal digits, most significant first ("" is 0). */
  function DecimalValue(s: string): nat
    requires AllDigits(s)
  {
    if s == [] then 0 else DecimalValue(s[..|s| - 1]) * 10 + (s[|s| - 1] as int - '0' as int)
  }

  /** The decimal digits of n, most significant first, without leading zeros. */
  function DecimalString(n: nat): (s: string)
    ensures |s| >= 1 && AllDigits(s)
  {
    (if n < 10 then [] else DecimalString(n / 10)) + [('0' as int + n % 10) as char]
  }

  /** Reading back the digits of n gives n. */
  lemma {:induction false} DecimalRoundTrip(n: nat)
    ensures DecimalValue(DecimalString(n)) == n
  {
    var s := DecimalString(n);
    var front := if n < 10 then [] else DecimalString(n / 10);
    assert s[..|s| - 1] == front;
    if n >= 10 {
      DecimalRoundTrip(n / 10);
    }
  }

  /** What strtol reports: the (clamped) value, the end index, and whether errno is set to ERANGE. */
  datatype Conversion = Conversion(value: int, end: nat, outOfRange: bool)

  /** The long value strtol stores for the mathematical value v. */
  function ClampLong(v: int): (r: int)
    ensures IsLong(r)
    ensures IsLong(v) ==> r == v
  {
    if v > LONG_MAX then LONG_MAX else if v < LONG_MIN then LONG_MIN else v
  }

  /**
   * strtol(s, &end, 10): leading white space, an optional sign, then as many
   * digits as there are.  With no digit, nothing is converted: the value is 0
   * and end is the start of s.  A value outside long is clamped and ERANGE is
   * reported.
   */
  function Strtol(s: string): (c: Conversion)
    ensures c.end <= |s|
    ensures IsLong(c.value)
  {
    var j := SkipSpace(s, 0);
    var signed := j < |s| && (s[j] == '-' || s[j] == '+');
    var k := if signed then j + 1 else j;
    var e := DigitRun(s, k);
    if e == k then Conversion(0, 0, false)
    else
      var v: int := DecimalValue(s[k..e]);
      var sv := if signed && s[j] == '-' then -v else v;
      Conversion(ClampLong(sv), e, !IsLong(sv))
  }

  /**
   * On a non-empty string of digits strtol converts all of it, to the
   * digits' value, and reports ERANGE exactly when that exceeds LONG_MAX.
   */
  lemma StrtolDigits(s: string)
    requires s != [] && AllDigits(s)
    ensures Strtol(s).end == |s|
    ensures Strtol(s).outOfRange <==> DecimalValue(s) > LONG_MAX
    ensures !Strtol(s).outOfRange ==> Strtol(s).value == DecimalValue(s)
  {
    assert !IsSpace(s[0]) && s[0] != '-' && s[0] != '+';
    assert SkipSpace(s, 0) == 0;
    DigitRunAll(s, 0);
    assert s[0..|s|] == s;
  }

  /** The digit run of an all-digit string runs to its end. */
  lemma {:induction false} DigitRunAll(s: string, i: nat)
    requires AllDigits(s) && i <= |s|
    ensures DigitRun(s, i) == |s|
    decreases |s| - i
  {
    if i < |s| {
      DigitRunAll(s, i + 1);
    }
  }
}
