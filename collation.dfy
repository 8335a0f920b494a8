/**
 * The two-level sort key shared by the sort tree, the pointer arrays and the
 * sorted lists: a lower-cased primary string compared first, and the original
 * string as the tie-break.  strcoll is a parameter of the model; all that is
 * assumed of it is that it is a strict total order on strings.
 */
module Collation {
  import opened Base

  /** strcoll(a, b): negative, zero or positive as a collates before, with or after b. */
  type Coll = (string, string) -> int

  /** Swapping the arguments of strcoll flips the sign of a non-zero result. */
  predicate Flips(coll: Coll, a: string, b: string) {
    coll(a, b) < 0 <==> coll(b, a) > 0
  }

  /** "collates before" is transitive through b. */
  predicate ChainsThrough(coll: Coll, a: string, b: string, c: string) {
    coll(a, b) < 0 && coll(b, c) < 0 ==> coll(a, c) < 0
  }

  /**
   * What every use of the collation relies on: strcoll's sign gives a strict
   * total order.  The last two properties are stated through named predicates
   * so that a proof uses them where it names them.
   */
  ghost predicate StrictTotal(coll: Coll) {
    && (forall a: string, b: string :: coll(a, b) == 0 <==> a == b)
    && (forall a: string, b: string :: Flips(coll, a, b))
    && (forall a: string, b: string, c: string :: ChainsThrough(coll, a, b, c))
  }

  /** key_s: the lower-cased copy (cmp_char) and the original (cmp_case). */
  datatype Key = Key(cmpChar: string, cmpCase: string)

  /** The key the source builds for a string s. */
  function KeyOf(s: string): (k: Key)
    ensures |k.cmpChar| == |s| && k.cmpCase == s
    ensures forall i :: 0 <= i < |s| ==> k.cmpChar[i] == ToLower(s[i])
  {
    Key(LowerString(s), s)
  }

  /** key_order: compare the lower-cased strings, and the originals only on a tie. */
  function KeyOrder(coll: Coll, k1: Key, k2: Key): int {
    var ret := coll(k1.cmpChar, k2.cmpChar);
    if ret == 0 then coll(k1.cmpCase, k2.cmpCase) else ret
  }

  /** k1 sorts strictly before k2. */
  predicate KeyLess(coll: Coll, k1: Key, k2: Key) {
    KeyOrder(coll, k1, k2) < 0
  }

  /** key_order returns 0 exactly when both components collate equal, i.e. the keys are equal. */
  lemma KeyOrderZeroIff(coll: Coll, k1: Key, k2: Key)
    requires StrictTotal(coll)
    ensures KeyOrder(coll, k1, k2) == 0 <==> k1 == k2
  {
  }

  /** key_order is decided by the lower-cased strings whenever they differ. */
  lemma KeyOrderPrimaryFirst(coll: Coll, k1: Key, k2: Key)
    requires StrictTotal(coll)
    requires k1.cmpChar != k2.cmpChar
    ensures KeyLess(coll, k1, k2) <==> coll(k1.cmpChar, k2.cmpChar) < 0
  {
  }

  /** Swapping the arguments of key_order flips its sign. */
  lemma KeyOrderAntisymmetric(coll: Coll, k1: Key, k2: Key)
    requires StrictTotal(coll)
    ensures KeyOrder(coll, k1, k2) < 0 <==> KeyOrder(coll, k2, k1) > 0
  {
    assert Flips(coll, k1.cmpChar, k2.cmpChar) && Flips(coll, k1.cmpCase, k2.cmpCase);
  }

  /** The strict key order is transitive. */
  lemma KeyLessTransitive(coll: Coll, k1: Key, k2: Key, k3: Key)
    requires StrictTotal(coll)
    requires KeyLess(coll, k1, k2) && KeyLess(coll, k2, k3)
    ensures KeyLess(coll, k1, k3)
  {
    assert ChainsThrough(coll, k1.cmpChar, k2.cmpChar, k3.cmpChar);
    assert ChainsThrough(coll, k1.cmpCase, k2.cmpCase, k3.cmpCase);
    if k1.cmpChar == k2.cmpChar && k2.cmpChar == k3.cmpChar {
    } else if k1.cmpChar == k2.cmpChar {
    } else if k2.cmpChar == k3.cmpChar {
    } else {
      assert coll(k1.cmpChar, k2.cmpChar) < 0 && coll(k2.cmpChar, k3.cmpChar) < 0;
    }
  }

  /** Two distinct keys are ordered one way or the other. */
  lemma KeyLessTotal(coll: Coll, k1: Key, k2: Key)
    requires StrictTotal(coll)
    requires k1 != k2
    ensures KeyLess(coll, k1, k2) || KeyLess(coll, k2, k1)
  {
    KeyOrderAntisymmetric(coll, k1, k2);
  }

  /** Distinct strings get distinct keys, so a key equality is a string equality. */
  lemma KeyOfInjective(s: string, t: string)
    ensures KeyOf(s) == KeyOf(t) <==> s == t
  {
  }

  // ---------------------------------------------------------------------------
  // The C/POSIX locale, where strcoll is strcmp, is an instance of the order
  // the model assumes.
  // ---------------------------------------------------------------------------

  /** strcmp on NUL-free strings: the sign of the first differing character, a prefix first. */
  function ByteCompare(a: string, b: string): (r: int)
    ensures -1 <= r <= 1
  {
    if a == [] && b == [] then 0
    else if a == [] then -1
    else if b == [] then 1
    else if a[0] < b[0] then -1
    else if a[0] > b[0] then 1
    else ByteCompare(a[1..], b[1..])
  }

  lemma {:induction false} ByteCompareZero(a: string, b: string)
    ensures ByteCompare(a, b) == 0 <==> a == b
  {
    if a != [] && b != [] && a[0] == b[0] {
      ByteCompareZero(a[1..], b[1..]);
      assert a == [a[0]] + a[1..] && b == [b[0]] + b[1..];
    }
  }

  lemma {:induction false} ByteCompareFlip(a: string, b: string)
    ensures ByteCompare(a, b) == -ByteCompare(b, a)
  {
    if a != [] && b != [] && a[0] == b[0] {
      ByteCompareFlip(a[1..], b[1..]);
    }
  }

  lemma {:induction false} ByteCompareTransitive(a: string, b: string, c: string)
    requires ByteCompare(a, b) < 0 && ByteCompare(b, c) < 0
    ensures ByteCompare(a, c) < 0
  {
    if a != [] && b != [] && c != [] && a[0] == b[0] && b[0] == c[0] {
      ByteCompareTransitive(a[1..], b[1..], c[1..]);
    }
  }

  /** strcmp is a strict total order, so the model covers the C locale. */
  lemma ByteOrderIsStrictTotal()
    ensures StrictTotal((a: string, b: string) => ByteCompare(a, b))
  {
    var coll := (a: string, b: string) => ByteCompare(a, b);
    forall a: string, b: string ensures coll(a, b) == 0 <==> a == b {
      ByteCompareZero(a, b);
    }
    forall a: string, b: string ensures Flips(coll, a, b) {
      ByteCompareFlip(a, b);
    }
    forall a: string, b: string, c: string ensures ChainsThrough(coll, a, b, c) {
      if coll(a, b) < 0 && coll(b, c) < 0 {
        ByteCompareTransitive(a, b, c);
      }
    }
  }
}
