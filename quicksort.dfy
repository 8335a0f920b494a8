/**
 * The randomized quicksort that the two growable pointer arrays share
 * (_qs_sort_r/_qs_partition and _f_list_sort_r/_f_list_partition): a Lomuto
 * partition around a pivot that rand() picks from [p, r] and swaps to the end
 * of the range, then recursion on both sides.  The comparison is a parameter;
 * the arrays pass "key_order(x, y) < 0".
 */
module Quicksort {

  /** glibc's RAND_MAX: rand() returns a value in [0, RAND_MAX]. */
  const RAND_MAX: int := 0x7fff_ffff

  /** Transitivity of `less` through y. */
  predicate ChainsAt<T>(less: (T, T) -> bool, x: T, y: T, z: T) {
    less(x, y) && less(y, z) ==> less(x, z)
  }

  /** Asymmetry of `less` on x and y. */
  predicate AsymmetricAt<T>(less: (T, T) -> bool, x: T, y: T) {
    less(x, y) ==> !less(y, x)
  }

  /** What the sort needs of the comparison: a strict (partial) order. */
  ghost predicate StrictOrder<T(!new)>(less: (T, T) -> bool) {
    && (forall x: T, y: T, z: T :: ChainsAt(less, x, y, z))
    && (forall x: T, y: T :: AsymmetricAt(less, x, y))
  }

  /** Non-decreasing: no element is less than one before it. */
  predicate SortedBy<T>(s: seq<T>, less: (T, T) -> bool) {
    forall i, j :: 0 <= i < j < |s| ==> !less(s[j], s[i])
  }

  /** Every element of s is less than pv. */
  predicate AllBelow<T>(s: seq<T>, pv: T, less: (T, T) -> bool) {
    forall k :: 0 <= k < |s| ==> less(s[k], pv)
  }

  /** No element of s is less than pv. */
  predicate NoneBelow<T>(s: seq<T>, pv: T, less: (T, T) -> bool) {
    forall k :: 0 <= k < |s| ==> !less(s[k], pv)
  }

  /** t agrees with s everywhere except possibly on [lo, hi). */
  ghost predicate SameOutside<T>(s: seq<T>, t: seq<T>, lo: int, hi: int) {
    |s| == |t| && forall k :: 0 <= k < |s| && !(lo <= k < hi) ==> s[k] == t[k]
  }

  // ---------------------------------------------------------------------------
  // Facts about sequences used by the proofs below (proof helpers, not
  // operations of the sort).
  // ---------------------------------------------------------------------------

  /** AllBelow only depends on the elements, not their positions. */
  lemma PermKeepsAllBelow<T>(s: seq<T>, t: seq<T>, pv: T, less: (T, T) -> bool)
    requires multiset(s) == multiset(t) && AllBelow(s, pv, less)
    ensures AllBelow(t, pv, less)
  {
    forall k | 0 <= k < |t| ensures less(t[k], pv) {
      assert t[k] in multiset(s);
      var i :| 0 <= i < |s| && s[i] == t[k];
    }
  }

  /** NoneBelow only depends on the elements, not their positions. */
  lemma PermKeepsNoneBelow<T>(s: seq<T>, t: seq<T>, pv: T, less: (T, T) -> bool)
    requires multiset(s) == multiset(t) && NoneBelow(s, pv, less)
    ensures NoneBelow(t, pv, less)
  {
    forall k | 0 <= k < |t| ensures !less(t[k], pv) {
      assert t[k] in multiset(s);
      var i :| 0 <= i < |s| && s[i] == t[k];
    }
  }

  /** Two sorted runs either side of a pivot that separates them make one sorted run. */
  lemma JoinSorted<T(!new)>(lo: seq<T>, pv: T, hi: seq<T>, less: (T, T) -> bool)
    requires StrictOrder(less)
    requires SortedBy(lo, less) && SortedBy(hi, less)
    requires AllBelow(lo, pv, less) && NoneBelow(hi, pv, less)
    ensures SortedBy(lo + [pv] + hi, less)
  {
    var s := lo + [pv] + hi;
    forall i, j | 0 <= i < j < |s| ensures !less(s[j], s[i]) {
      if i < |lo| && j == |lo| {
        assert AsymmetricAt(less, s[i], pv);
      } else if i < |lo| && j > |lo| {
        assert ChainsAt(less, s[j], s[i], pv);
      }
    }
  }

  /** Swapping two positions inside [lo, hi) keeps the multiset of [lo, hi) and everything outside. */
  lemma SwapInRange<T>(s: seq<T>, t: seq<T>, i: int, j: int, lo: int, hi: int)
    requires 0 <= lo <= i < hi <= |s| && lo <= j < hi
    requires t == s[i := s[j]][j := s[i]]
    ensures multiset(t[lo..hi]) == multiset(s[lo..hi])
    ensures SameOutside(s, t, lo, hi)
  {
    var u := s[lo..hi];
    assert t[lo..hi] == u[i - lo := s[j]][j - lo := s[i]];
  }

  /** The glue of one quicksort step: partition, sort the left part, sort the right part. */
  lemma SortStep<T(!new)>(a0: seq<T>, a1: seq<T>, a2: seq<T>, a3: seq<T>, p: int, q: int, r: int,
                    less: (T, T) -> bool)
    requires StrictOrder(less)
    requires 0 <= p <= q <= r < |a0|
    requires SameOutside(a0, a1, p, r + 1) && multiset(a1[p..r + 1]) == multiset(a0[p..r + 1])
    requires AllBelow(a1[p..q], a1[q], less) && NoneBelow(a1[q + 1..r + 1], a1[q], less)
    requires SameOutside(a1, a2, p, q) && multiset(a2[p..q]) == multiset(a1[p..q])
    requires SortedBy(a2[p..q], less)
    requires SameOutside(a2, a3, q + 1, r + 1)
    requires multiset(a3[q + 1..r + 1]) == multiset(a2[q + 1..r + 1])
    requires SortedBy(a3[q + 1..r + 1], less)
    ensures SameOutside(a0, a3, p, r + 1)
    ensures multiset(a3[p..r + 1]) == multiset(a0[p..r + 1])
    ensures SortedBy(a3[p..r + 1], less)
  {
    var pv := a1[q];
    assert a3[p..q] == a2[p..q];
    assert a2[q + 1..r + 1] == a1[q + 1..r + 1];
    assert a3[q] == pv;
    assert a3[p..r + 1] == a3[p..q] + [pv] + a3[q + 1..r + 1];
    assert a1[p..r + 1] == a1[p..q] + [pv] + a1[q + 1..r + 1];
    PermKeepsAllBelow(a1[p..q], a2[p..q], pv, less);
    PermKeepsNoneBelow(a1[q + 1..r + 1], a3[q + 1..r + 1], pv, less);
    JoinSorted(a3[p..q], pv, a3[q + 1..r + 1], less);
  }

  // ---------------------------------------------------------------------------
  // The algorithm.
  // ---------------------------------------------------------------------------

  /** swap: exchanges two slots and changes nothing else. */
  method Swap<T>(a: array<T>, i: int, j: int)
    requires 0 <= i < a.Length && 0 <= j < a.Length
    modifies a
    ensures a[..] == old(a[..])[i := old(a[j])][j := old(a[i])]
  {
    var temp := a[j];
    a[j] := a[i];
    a[i] := temp;
  }

  /** rand() % (r - p + 1) + p: the chosen pivot, always inside [p, r]. */
  function PivotIndex(p: int, r: int, rnd: int): (pivot: int)
    requires p <= r && 0 <= rnd
    ensures p <= pivot <= r
  {
    (rnd % (r - p + 1)) + p
  }

  /**
   * The Lomuto loop's invariant on the array contents s, relative to the
   * contents s0 on entry: [p, i] holds elements less than the pivot pv, (i, j)
   * elements that are not, pv sits at r, and nothing left [p, r].
   */
  ghost predicate LomutoInv<T>(s: seq<T>, s0: seq<T>, p: int, r: int, i: int, j: int, pv: T,
                               less: (T, T) -> bool) {
    && 0 <= p <= j <= r < |s| && p - 1 <= i < j && s[r] == pv
    && (forall k :: p <= k <= i ==> less(s[k], pv))
    && (forall k :: i < k < j ==> !less(s[k], pv))
    && SameOutside(s0, s, p, r + 1) && multiset(s[p..r + 1]) == multiset(s0[p..r + 1])
  }

  /** One iteration of the Lomuto loop keeps its invariant. */
  lemma LomutoStep<T>(s: seq<T>, t: seq<T>, s0: seq<T>, p: int, r: int, i: int, j: int, pv: T,
                      less: (T, T) -> bool)
    requires LomutoInv(s, s0, p, r, i, j, pv, less) && j < r
    requires t == if less(s[j], pv) && i + 1 < j then s[i + 1 := s[j]][j := s[i + 1]] else s
    ensures LomutoInv(t, s0, p, r, if less(s[j], pv) then i + 1 else i, j + 1, pv, less)
  {
    if less(s[j], pv) && i + 1 < j {
      SwapInRange(s, t, i + 1, j, p, r + 1);
    }
  }

  /** The last swap of the Lomuto loop puts the pivot between the two parts. */
  lemma LomutoFinish<T>(s: seq<T>, t: seq<T>, s0: seq<T>, p: int, r: int, i: int, pv: T,
                        less: (T, T) -> bool)
    requires LomutoInv(s, s0, p, r, i - 1, r, pv, less)
    requires t == if i < r then s[i := s[r]][r := s[i]] else s
    ensures t[i] == pv
    ensures AllBelow(t[p..i], pv, less) && NoneBelow(t[i + 1..r + 1], pv, less)
    ensures SameOutside(s0, t, p, r + 1) && multiset(t[p..r + 1]) == multiset(s0[p..r + 1])
  {
    if i < r {
      SwapInRange(s, t, i, r, p, r + 1);
    }
  }

  /**
   * _qs_partition / _f_list_partition.  `rnd` is rand()'s value; the pivot it
   * picks is swapped to r and the Lomuto loop below does the rest.
   */
  method Partition<T>(a: array<T>, p: int, r: int, rnd: int, less: (T, T) -> bool) returns (q: int)
    requires 0 <= p <= r < a.Length && 0 <= rnd <= RAND_MAX
    modifies a
    ensures p <= q <= r
    ensures a[q] == old(a[PivotIndex(p, r, rnd)])
    ensures AllBelow(a[p..q], a[q], less)
    ensures NoneBelow(a[q + 1..r + 1], a[q], less)
    ensures SameOutside(old(a[..]), a[..], p, r + 1)
    ensures multiset(a[p..r + 1]) == multiset(old(a[p..r + 1]))
  {
    var pivot := PivotIndex(p, r, rnd);
    if pivot != r {
      ghost var s0 := a[..];
      Swap(a, pivot, r);
      SwapInRange(s0, a[..], pivot, r, p, r + 1);
    }
    q := PartitionAtEnd(a, p, r, less);
  }

  /**
   * The loop of _qs_partition / _f_list_partition, with the pivot already at
   * r: every element less than the pivot is moved to the front, and the pivot
   * is swapped in after them.
   */
  method PartitionAtEnd<T>(a: array<T>, p: int, r: int, less: (T, T) -> bool) returns (q: int)
    requires 0 <= p <= r < a.Length
    modifies a
    ensures p <= q <= r
    ensures a[q] == old(a[r])
    ensures AllBelow(a[p..q], a[q], less)
    ensures NoneBelow(a[q + 1..r + 1], a[q], less)
    ensures SameOutside(old(a[..]), a[..], p, r + 1)
    ensures multiset(a[p..r + 1]) == multiset(old(a[p..r + 1]))
  {
    ghost var s0 := a[..];
    ghost var pv := a[r];
    var i := LomutoLoop(a, p, r, less);
    i := i + 1;
    ghost var s := a[..];
    if i < r {
      Swap(a, i, r);
    }
    LomutoFinish(s, a[..], s0, p, r, i, pv, less);
    assert old(a[p..r + 1]) == s0[p..r + 1];
    q := i;
  }

  /** The scan of the partition loop: on exit [p, i] holds the elements less than the pivot at r. */
  method LomutoLoop<T>(a: array<T>, p: int, r: int, less: (T, T) -> bool) returns (i: int)
    requires 0 <= p <= r < a.Length
    modifies a
    ensures LomutoInv(a[..], old(a[..]), p, r, i, r, old(a[r]), less)
  {
    ghost var s0 := a[..];
    ghost var pv := a[r];
    i := p - 1;
    var j := p;
    while j < r
      invariant LomutoInv(a[..], s0, p, r, i, j, pv, less)
    {
      ghost var s, i0 := a[..], i;
      if less(a[j], a[r]) {
        i := i + 1;
        if i < j {
          Swap(a, i, j);
        }
      }
      LomutoStep(s, a[..], s0, p, r, i0, j, pv, less);
      j := j + 1;
    }
  }

  /**
   * _qs_sort_r / _f_list_sort_r on the inclusive range [p, r]; r = p - 1 is
   * the empty range the top-level call makes for an empty array.  Each
   * partition draws a fresh rand() value.
   */
  method SortR<T(!new)>(a: array<T>, p: int, r: int, less: (T, T) -> bool)
    requires 0 <= p <= r + 1 <= a.Length
    requires StrictOrder(less)
    modifies a
    ensures SameOutside(old(a[..]), a[..], p, r + 1)
    ensures multiset(a[p..r + 1]) == multiset(old(a[p..r + 1]))
    ensures SortedBy(a[p..r + 1], less)
    decreases r - p
  {
    if p < r {
      var rnd :| 0 <= rnd <= RAND_MAX;
      ghost var a0 := a[..];
      var q := Partition(a, p, r, rnd, less);
      ghost var a1 := a[..];
      SortR(a, p, q - 1, less);
      ghost var a2 := a[..];
      SortR(a, q + 1, r, less);
      SortStep(a0, a1, a2, a[..], p, q, r, less);
    }
  }
}
