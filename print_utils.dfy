/**
 * ls_src/print_utils.c: get_f_max_strlen, the buffer size (digits, sign and
 * terminator) that printing any value through one of six printf integer
 * formats can need.  A C string is modelled as its characters before the
 * terminator; strncmp reads the terminator as one more character.
 */
module PrintUtils {
  import opened Base
  import opened CString

  /** The table's widths: INT_MIN, UINT_MAX, LONG_MIN and ULONG_MAX printed, each with a terminator. */
  const INT_MAX_STRLEN: int := 12
  const UINT_MAX_STRLEN: int := 11
  const LONG_MAX_STRLEN: int := 21
  const ULONG_MAX_STRLEN: int := 21
  const LLONG_MAX_STRLEN: int := 21
  const ULLONG_MAX_STRLEN: int := 21

  /**
   * get_f_max_strlen: the width for format, matched with comparison lengths
   * that include the terminator, or -1 for any other string.
   */
  function GetFMaxStrlen(format: string): (r: int)
    requires '\0' !in format
    ensures r == INT_MAX_STRLEN <==> format == "%d"
    ensures r == UINT_MAX_STRLEN <==> format == "%u"
    ensures r == LONG_MAX_STRLEN <==> format in {"%ld", "%lu", "%lld", "%llu"}
    ensures r == -1 <==> format !in FORMATS
  {
    StrNCmpWithTerminator(format, "%d");
    StrNCmpWithTerminator(format, "%u");
    StrNCmpWithTerminator(format, "%ld");
    StrNCmpWithTerminator(format, "%lu");
    StrNCmpWithTerminator(format, "%lld");
    StrNCmpWithTerminator(format, "%llu");
    if StrNEq(format, "%d", 3, 0) then INT_MAX_STRLEN
    else if StrNEq(format, "%u", 3, 0) then UINT_MAX_STRLEN
    else if StrNEq(format, "%ld", 4, 0) then LONG_MAX_STRLEN
    else if StrNEq(format, "%lu", 4, 0) then ULONG_MAX_STRLEN
    else if StrNEq(format, "%lld", 5, 0) then LLONG_MAX_STRLEN
    else if StrNEq(format, "%llu", 5, 0) then ULLONG_MAX_STRLEN
    else -1
  }

  /** The six formats the table lists. */
  const FORMATS: set<string> := {"%d", "%u", "%ld", "%lu", "%lld", "%llu"}

  /** No listed format is a proper prefix of another. */
  lemma FormatsPrefixFree(g: string, h: string)
    requires g in FORMATS && h in FORMATS && |g| < |h|
    ensures h[..|g|] != g
  {
    if |g| == 2 {
      assert h[1] == 'l';
    } else {
      assert h[2] == 'l' && g[2] != 'l';
    }
  }

  /** A format that merely begins with a listed one is not matched. */
  lemma ExtendedFormatRejected(format: string, extra: string)
    requires '\0' !in extra && extra != []
    requires format in FORMATS
    ensures '\0' !in format + extra
    ensures GetFMaxStrlen(format + extra) == -1
  {
    var f := format + extra;
    if f in FORMATS {
      assert f[..|format|] == format;
      FormatsPrefixFree(format, f);
    }
  }

  /** The number of decimal digits of n. */
  function Digits(n: nat): nat {
    if n < 10 then 1 else 1 + Digits(n / 10)
  }

  /** 10 to the power k. */
  function Pow10(k: nat): nat {
    if k == 0 then 1 else 10 * Pow10(k - 1)
  }

  /** n has at most k digits exactly when n < 10^k (k >= 1). */
  lemma {:induction false} DigitsBound(n: nat, k: nat)
    requires k >= 1
    ensures Digits(n) <= k <==> n < Pow10(k)
    decreases k
  {
    if n < 10 {
      assert Pow10(1) == 10;
      if k > 1 {
        PowMonotone(1, k);
      }
    } else if k == 1 {
      assert Pow10(1) == 10;
    } else {
      DigitsBound(n / 10, k - 1);
      assert n < Pow10(k) <==> n / 10 < Pow10(k - 1);
    }
  }

  /** 10^j <= 10^k for j <= k. */
  lemma {:induction false} PowMonotone(j: nat, k: nat)
    requires j <= k
    ensures Pow10(j) <= Pow10(k)
    decreases k
  {
    if j < k {
      PowMonotone(j, k - 1);
    }
  }

  /** The characters "%d" (and "%ld") print for x: a '-' for a negative value, then the digits. */
  function SignedLen(x: int): nat {
    (if x < 0 then 1 else 0) + Digits(Abs(x))
  }

  /** Every int prints, with its terminator, within the "%d" width, and INT_MIN needs all of it. */
  lemma IntWidthSuffices(x: int)
    requires INT_MIN <= x <= INT_MAX
    ensures SignedLen(x) + 1 <= GetFMaxStrlen("%d")
    ensures SignedLen(INT_MIN) + 1 == GetFMaxStrlen("%d")
  {
    assert Pow10(10) == 10000000000;
    assert Pow10(9) == 1000000000;
    DigitsBound(Abs(x), 10);
    DigitsBound(Abs(INT_MIN), 10);
    DigitsBound(Abs(INT_MIN), 9);
  }

  /** Every unsigned int prints within the "%u" width, and UINT_MAX needs all of it. */
  lemma UIntWidthSuffices(x: int)
    requires 0 <= x <= UINT_MAX
    ensures Digits(x) + 1 <= GetFMaxStrlen("%u")
    ensures Digits(UINT_MAX) + 1 == GetFMaxStrlen("%u")
  {
    assert Pow10(10) == 10000000000;
    assert Pow10(9) == 1000000000;
    DigitsBound(x, 10);
    DigitsBound(UINT_MAX, 10);
    DigitsBound(UINT_MAX, 9);
  }

  /** Every long prints within the "%ld" width, and LONG_MIN needs all of it. */
  lemma LongWidthSuffices(x: int)
    requires LONG_MIN <= x <= LONG_MAX
    ensures SignedLen(x) + 1 <= GetFMaxStrlen("%ld")
    ensures SignedLen(LONG_MIN) + 1 == GetFMaxStrlen("%ld")
  {
    Pow10Value19();
    DigitsBound(Abs(x), 19);
    DigitsBound(Abs(LONG_MIN), 19);
    DigitsBound(Abs(LONG_MIN), 18);
  }

  /** Every unsigned long prints within the "%lu" width, and ULONG_MAX needs all of it. */
  lemma ULongWidthSuffices(x: int)
    requires 0 <= x <= ULONG_MAX
    ensures Digits(x) + 1 <= GetFMaxStrlen("%lu")
    ensures Digits(ULONG_MAX) + 1 == GetFMaxStrlen("%lu")
  {
    Pow10Value19();
    assert Pow10(20) == 10 * Pow10(19);
    DigitsBound(x, 20);
    DigitsBound(ULONG_MAX, 20);
    DigitsBound(ULONG_MAX, 19);
  }

  /** 10^18 and 10^19, for the long bounds. */
  lemma Pow10Value19()
    ensures Pow10(18) == 1000000000000000000
    ensures Pow10(19) == 10000000000000000000
  {
    assert Pow10(9) == 1000000000;
    assert Pow10(18) == Pow10(9) * Pow10(9) by {
      PowAdd(9, 9);
    }
  }

  /** 10^(j+k) == 10^j * 10^k. */
  lemma {:induction false} PowAdd(j: nat, k: nat)
    ensures Pow10(j + k) == Pow10(j) * Pow10(k)
    decreases k
  {
    if k > 0 {
      PowAdd(j, k - 1);
      assert Pow10(j + k) == 10 * Pow10(j + k - 1);
    }
  }
}
