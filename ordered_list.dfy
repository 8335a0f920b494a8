/**
 * What the two sorted singly-linked lists (ls_src/list.c and
 * find_src/list.c) have in common: a list is the sequence of its nodes'
 * data, ordered by the two-level key of each node, and insertion walks from
 * the head while the new node orders after the current node's successor.
 */
module OrderedList {
  import opened Collation

  /** The list is in non-decreasing key order from position c on. */
  ghost predicate NonDecreasingFrom<T>(coll: Coll, key: T -> Key, s: seq<T>, c: nat) {
    forall i, j :: c <= i < j < |s| ==> KeyOrder(coll, key(s[i]), key(s[j])) <= 0
  }

  /** The list is in strictly increasing key order from position c on. */
  ghost predicate IncreasingFrom<T>(coll: Coll, key: T -> Key, s: seq<T>, c: nat) {
    forall i, j :: c <= i < j < |s| ==> KeyLess(coll, key(s[i]), key(s[j]))
  }

  /** s with e linked in before position k. */
  function Splice<T>(s: seq<T>, k: int, e: T): (r: seq<T>)
    requires 0 <= k <= |s|
    ensures |r| == |s| + 1 && r[k] == e
    ensures forall i :: 0 <= i < k ==> r[i] == s[i]
    ensures forall i :: k < i < |r| ==> r[i] == s[i - 1]
  {
    s[..k] + [e] + s[k..]
  }

  /**
   * Where the insertion walk starting at position c stops: the first
   * position, from c on, whose node e does not order after (node_order > 0),
   * or the end of the list, where node_order meets NULL.
   */
  function Stop<T>(coll: Coll, key: T -> Key, s: seq<T>, e: T, c: int): (k: int)
    requires 0 <= c <= |s|
    ensures c <= k <= |s|
    ensures forall i :: c <= i < k ==> KeyOrder(coll, key(e), key(s[i])) > 0
    ensures k < |s| ==> KeyOrder(coll, key(e), key(s[k])) <= 0
    decreases |s| - c
  {
    if c == |s| || KeyOrder(coll, key(e), key(s[c])) <= 0 then c else Stop(coll, key, s, e, c + 1)
  }

  // ---------------------------------------------------------------------------
  // The non-strict key order.
  // ---------------------------------------------------------------------------

  /** key_order's sign flips with its arguments, and a positive result is "after". */
  lemma KeyOrderFlip(coll: Coll, k1: Key, k2: Key)
    requires StrictTotal(coll)
    ensures KeyOrder(coll, k1, k2) <= 0 <==> KeyOrder(coll, k2, k1) >= 0
    ensures KeyOrder(coll, k1, k2) > 0 <==> KeyLess(coll, k2, k1)
  {
    KeyOrderAntisymmetric(coll, k1, k2);
    KeyOrderAntisymmetric(coll, k2, k1);
    KeyOrderZeroIff(coll, k1, k2);
    KeyOrderZeroIff(coll, k2, k1);
  }

  /** "orders at or before" is transitive, and strict if either step is. */
  lemma KeyLeTransitive(coll: Coll, k1: Key, k2: Key, k3: Key)
    requires StrictTotal(coll)
    requires KeyOrder(coll, k1, k2) <= 0 && KeyOrder(coll, k2, k3) <= 0
    ensures KeyOrder(coll, k1, k3) <= 0
    ensures KeyLess(coll, k1, k2) || KeyLess(coll, k2, k3) ==> KeyLess(coll, k1, k3)
  {
    KeyOrderZeroIff(coll, k1, k2);
    KeyOrderZeroIff(coll, k2, k3);
    if KeyLess(coll, k1, k2) && KeyLess(coll, k2, k3) {
      KeyLessTransitive(coll, k1, k2, k3);
    }
  }

  // ---------------------------------------------------------------------------
  // Linking a node in keeps the order.
  // ---------------------------------------------------------------------------

  /** Linking e in at k, between a predecessor at or before it and a successor at or after it, keeps the list non-decreasing from c. */
  lemma SpliceNonDecreasing<T>(coll: Coll, key: T -> Key, s: seq<T>, k: int, e: T, c: int)
    requires StrictTotal(coll)
    requires 0 <= c <= k <= |s| && NonDecreasingFrom(coll, key, s, c)
    requires c < k ==> KeyOrder(coll, key(s[k - 1]), key(e)) <= 0
    requires k < |s| ==> KeyOrder(coll, key(e), key(s[k])) <= 0
    ensures NonDecreasingFrom(coll, key, Splice(s, k, e), c)
  {
    var r := Splice(s, k, e);
    forall i, j | c <= i < j < |r| ensures KeyOrder(coll, key(r[i]), key(r[j])) <= 0 {
      if i < k && j == k {
        if i < k - 1 {
          KeyLeTransitive(coll, key(s[i]), key(s[k - 1]), key(e));
        }
      } else if i == k && j > k {
        if j - 1 > k {
          KeyLeTransitive(coll, key(e), key(s[k]), key(s[j - 1]));
        }
      } else if i < k && j > k {
        assert KeyOrder(coll, key(s[i]), key(s[j - 1])) <= 0;
      }
    }
  }

  /** Linking e in at k, strictly between its neighbours, keeps the list increasing from c. */
  lemma SpliceIncreasing<T>(coll: Coll, key: T -> Key, s: seq<T>, k: int, e: T, c: int)
    requires StrictTotal(coll)
    requires 0 <= c <= k <= |s| && IncreasingFrom(coll, key, s, c)
    requires c < k ==> KeyLess(coll, key(s[k - 1]), key(e))
    requires k < |s| ==> KeyLess(coll, key(e), key(s[k]))
    ensures IncreasingFrom(coll, key, Splice(s, k, e), c)
  {
    var r := Splice(s, k, e);
    forall i, j | c <= i < j < |r| ensures KeyLess(coll, key(r[i]), key(r[j])) {
      if i < k && j == k {
        if i < k - 1 {
          KeyLessTransitive(coll, key(s[i]), key(s[k - 1]), key(e));
        }
      } else if i == k && j > k {
        if j - 1 > k {
          KeyLessTransitive(coll, key(e), key(s[k]), key(s[j - 1]));
        }
      } else if i < k && j > k {
        assert KeyLess(coll, key(s[i]), key(s[j - 1]));
      }
    }
  }

  /** Linking e in adds exactly e to the list's contents. */
  lemma SpliceContents<T>(s: seq<T>, k: int, e: T)
    requires 0 <= k <= |s|
    ensures multiset(Splice(s, k, e)) == multiset(s) + multiset{e}
  {
    assert s == s[..k] + s[k..];
    calc {
      multiset(Splice(s, k, e));
      multiset(s[..k]) + multiset{e} + multiset(s[k..]);
      multiset(s[..k] + s[k..]) + multiset{e};
    }
  }

  /**
   * In a list that is non-decreasing from c, the walk from c stops on a node
   * equal to e exactly when some node from c on is equal to e.
   */
  lemma StopFindsEqual<T>(coll: Coll, key: T -> Key, s: seq<T>, e: T, c: int)
    requires StrictTotal(coll)
    requires 0 <= c <= |s| && NonDecreasingFrom(coll, key, s, c)
    ensures var k := Stop(coll, key, s, e, c);
            (k < |s| && key(s[k]) == key(e)) <==> exists j :: c <= j < |s| && key(s[j]) == key(e)
  {
    var k := Stop(coll, key, s, e, c);
    if j :| c <= j < |s| && key(s[j]) == key(e) {
      assert k <= j by {
        if j < k {
          KeyOrderZeroIff(coll, key(e), key(s[j]));
        }
      }
      KeyOrderZeroIff(coll, key(e), key(s[k]));
      if KeyOrder(coll, key(e), key(s[k])) < 0 {
        KeyOrderFlip(coll, key(e), key(s[k]));
        KeyOrderFlip(coll, key(s[k]), key(e));
        assert KeyOrder(coll, key(s[k]), key(s[j])) <= 0;
      }
    }
  }

  /** A list that is increasing from c is non-decreasing from c. */
  lemma IncreasingIsNonDecreasing<T>(coll: Coll, key: T -> Key, s: seq<T>, c: nat)
    requires IncreasingFrom(coll, key, s, c)
    ensures NonDecreasingFrom(coll, key, s, c)
  {
  }
}
