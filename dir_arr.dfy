/**
 * dir_arr.c: a growable array of pointers to (string, key) records that
 * ls fills with directory entries and sorts with the randomized quicksort.
 * The capacity steps through a fixed table; arr_len counts the slots in use
 * and arr_size_i indexes the table.  A NULL slot is None.
 */
module DirArr {
  import opened Base
  import opened Collation
  import opened Quicksort

  /** arr_size[]: the capacities the array steps through. */
  const ARR_SIZE: seq<int> := [0x0000000F, 0x000000FF, 0x000003FF, 0x00000FFF,
                               0x00003FFF, 0x0000FFFF, 0x0003FFFF, 0x000FFFFF,
                               0x003FFFFF, 0x00FFFFFF, 0x03FFFFFF, 0x0FFFFFFF,
                               0x3FFFFFFF, 0xFFFFFFFF]
  const N_ARR_SIZE: int := 14

  /** The table grows strictly, and only its last entry wraps to 0 when one is added in 32 bits. */
  lemma ArrSizeTable()
    ensures |ARR_SIZE| == N_ARR_SIZE
    ensures forall i, j :: 0 <= i < j < N_ARR_SIZE ==> ARR_SIZE[i] < ARR_SIZE[j]
    ensures forall i :: 0 <= i < N_ARR_SIZE ==> 0 < ARR_SIZE[i] <= UINT_MAX
    ensures forall i :: 0 <= i < N_ARR_SIZE - 1 ==> (ARR_SIZE[i] + 1) % (UINT_MAX + 1) == ARR_SIZE[i] + 1
    ensures (ARR_SIZE[N_ARR_SIZE - 1] + 1) % (UINT_MAX + 1) == 0
  {
  }

  /** struct data_s: the string and its key.  cmp_case aliases data. */
  datatype DataS = DataS(data: string, key: Key)

  /** The comparison _qs_partition uses, "key_order(...) < 0", on possibly-NULL slots. */
  function SlotLess(coll: Coll): (Option<DataS>, Option<DataS>) -> bool {
    (x: Option<DataS>, y: Option<DataS>) => x.Some? && y.Some? && KeyLess(coll, x.value.key, y.value.key)
  }

  /** For a strcoll that is a strict total order the slot comparison is a strict order. */
  lemma SlotLessIsStrictOrder(coll: Coll)
    requires StrictTotal(coll)
    ensures StrictOrder(SlotLess(coll))
  {
    var less := SlotLess(coll);
    forall x: Option<DataS>, y: Option<DataS>, z: Option<DataS> ensures ChainsAt(less, x, y, z) {
      if less(x, y) && less(y, z) {
        KeyLessTransitive(coll, x.value.key, y.value.key, z.value.key);
      }
    }
    forall x: Option<DataS>, y: Option<DataS> ensures AsymmetricAt(less, x, y) {
      if x.Some? && y.Some? {
        KeyOrderAntisymmetric(coll, x.value.key, y.value.key);
      }
    }
  }

  /** A sorted run of filled slots is in non-decreasing key_order. */
  lemma SortedSlotsKeyOrder(coll: Coll, c: seq<Option<DataS>>)
    requires StrictTotal(coll)
    requires forall k :: 0 <= k < |c| ==> c[k].Some?
    requires SortedBy(c, SlotLess(coll))
    ensures forall i, j :: 0 <= i < j < |c| ==> KeyOrder(coll, c[i].value.key, c[j].value.key) <= 0
  {
    forall i, j | 0 <= i < j < |c| ensures KeyOrder(coll, c[i].value.key, c[j].value.key) <= 0 {
      var ki, kj := c[i].value.key, c[j].value.key;
      assert !SlotLess(coll)(c[j], c[i]);
      KeyOrderAntisymmetric(coll, ki, kj);
      KeyOrderZeroIff(coll, kj, ki);
      KeyOrderZeroIff(coll, ki, kj);
    }
  }

  /**
   * make_key: cmp_case is s itself and cmp_char a tolower copy of it.
   * `allocOk` is malloc's verdict on the copy; on failure the result is
   * -1, modelled as None.
   */
  method MakeKey(s: string, allocOk: bool) returns (r: Option<Key>)
    ensures r.Some? <==> allocOk
    ensures r.Some? ==> r.value == KeyOf(s)
  {
    var cmpChar := LowerStringCopy(s, allocOk);
    if cmpChar.None? {
      return None;
    }
    r := Some(Key(cmpChar.value, s));
  }

  /** struct dir_ds_s, the container qs. */
  class Qs {
    /** The collation strcoll uses. */
    const coll: Coll
    var arr: array<Option<DataS>>
    var arrLen: int
    var arrSizeI: int

    /** A usable container: the array has the capacity arr_size_i names and arr_len fits in it. */
    ghost predicate Valid()
      reads this
    {
      && 0 <= arrSizeI < N_ARR_SIZE
      && arr.Length == ARR_SIZE[arrSizeI]
      && 0 <= arrLen <= arr.Length
    }

    /** The slots in use, in order. */
    ghost function Contents(): seq<Option<DataS>>
      requires 0 <= arrLen <= arr.Length
      reads this, arr
    {
      arr[..arrLen]
    }

    /** Every slot in use holds a record (no failed insertion left a NULL behind). */
    ghost predicate Filled()
      requires 0 <= arrLen <= arr.Length
      reads this, arr
    {
      forall k :: 0 <= k < arrLen ==> arr[k].Some?
    }

    /** The freshly malloc'd container before its first resize: arr_size_i = -1, arr_len = 0. */
    constructor (coll: Coll)
      ensures this.coll == coll && arrSizeI == -1 && arrLen == 0 && arr.Length == 0
    {
      this.coll := coll;
      arr := new Option<DataS>[0];
      arrLen := 0;
      arrSizeI := -1;
    }

    /**
     * _qs_resize: advance arr_size_i; at N_ARR_SIZE return 1, on malloc
     * failure (`allocOk` false) return -1, otherwise copy the first arr_len
     * slots into an array of the next capacity.  When qs_add_elem calls it,
     * arr_len is already one past the old capacity and the C copy loop reads
     * one slot past the old array; that slot reads as None here.
     */
    method Resize(allocOk: bool) returns (ret: int)
      requires -1 <= arrSizeI < N_ARR_SIZE
      requires arrSizeI == -1 ==> arrLen == 0
      requires arrSizeI >= 0 ==> arr.Length == ARR_SIZE[arrSizeI] && 0 <= arrLen <= arr.Length + 1
      modifies this
      ensures arrSizeI == old(arrSizeI) + 1 && arrLen == old(arrLen)
      ensures arrSizeI == N_ARR_SIZE ==> ret == 1 && arr == old(arr)
      ensures arrSizeI < N_ARR_SIZE && !allocOk ==> ret == -1 && arr == old(arr)
      ensures arrSizeI < N_ARR_SIZE && allocOk ==>
                && ret == 0 && fresh(arr) && arr.Length == ARR_SIZE[arrSizeI] && arrLen <= arr.Length
                && (var n := if arrLen <= old(arr.Length) then arrLen else old(arr.Length);
                    arr[..n] == old(arr[..n]) && forall k :: n <= k < arr.Length ==> arr[k].None?)
    {
      ArrSizeTable();
      arrSizeI := arrSizeI + 1;
      if arrSizeI == N_ARR_SIZE {
        return 1;
      }
      if !allocOk {
        return -1;
      }
      var arrCpy := new Option<DataS>[ARR_SIZE[arrSizeI]](_ => None);
      assert arrLen <= arrCpy.Length;
      var i := 0;
      while i < arrLen
        modifies arrCpy
        invariant 0 <= i <= arrLen
        invariant forall k :: 0 <= k < i ==> arrCpy[k] == if k < arr.Length then arr[k] else None
        invariant forall k :: i <= k < arrCpy.Length ==> arrCpy[k].None?
      {
        arrCpy[i] := if i < arr.Length then arr[i] else None;
        i := i + 1;
      }
      arr := arrCpy;
      ret := 0;
    }

    /**
     * qs_add_elem: arr_len is incremented first; if it now passes the
     * capacity (the source tests arr_size[arr_size_i] + 1 == arr_len in 32-bit
     * unsigned arithmetic) the array is resized, and a non-zero result of the
     * resize is returned as it is.  Then the record is stored at arr_len - 1.
     * A failed malloc of the record (`slotOk` false) or of the key (`keyOk`
     * false) leaves that slot NULL and returns -1, with arr_len still
     * incremented.
     */
    method AddElem(s: string, resizeOk: bool, slotOk: bool, keyOk: bool) returns (ret: int)
      requires Valid() && arrLen < INT_MAX
      modifies this, arr
      ensures ret == 0 || ret == -1
      ensures arrLen == old(arrLen) + 1
      ensures old(arrLen) == old(arr.Length) && !resizeOk ==>
                ret == -1 && arrSizeI == old(arrSizeI) + 1 && arr == old(arr) && arr[..] == old(arr[..])
      ensures !(old(arrLen) == old(arr.Length) && !resizeOk) ==>
                && Valid()
                && arrSizeI == old(arrSizeI) + (if old(arrLen) == old(arr.Length) then 1 else 0)
                && Contents() == old(Contents()) + [if slotOk && keyOk then Some(DataS(s, KeyOf(s))) else None]
                && (ret == 0 <==> slotOk && keyOk)
    {
      ArrSizeTable();
      ghost var before := arr[..arrLen];
      arrLen := arrLen + 1;
      if (ARR_SIZE[arrSizeI] + 1) % (UINT_MAX + 1) == arrLen {
        ret := Resize(resizeOk);
        if ret != 0 {
          return ret;
        }
      }
      var i := arrLen - 1;
      assert arr[..i] == before;
      if !slotOk {
        arr[i] := None;
        return -1;
      }
      var key := MakeKey(s, keyOk);
      if key.None? {
        arr[i] := None;
        return -1;
      }
      arr[i] := Some(DataS(s, key.value));
      ret := 0;
    }

    /**
     * qs_sort: the randomized quicksort over arr[0 .. arr_len).  The
     * comparison dereferences every slot, so every slot in use must hold a
     * record.
     */
    method Sort()
      requires Valid() && Filled() && StrictTotal(coll)
      modifies arr
      ensures Valid() && Filled()
      ensures multiset(Contents()) == multiset(old(Contents()))
      ensures SortedBy(Contents(), SlotLess(coll))
      ensures arr[arrLen..] == old(arr[arrLen..])
    {
      SlotLessIsStrictOrder(coll);
      SortR(arr, 0, arrLen - 1, SlotLess(coll));
      assert arr[arrLen..] == old(arr[arrLen..]);
      forall k | 0 <= k < arrLen ensures arr[k].Some? {
        assert arr[k] in multiset(old(arr[..arrLen]));
      }
    }
  }

  /**
   * qs_init_container: a new container with its first resize done, or NULL
   * when that resize's malloc fails (`allocOk` false).  srand is not modelled.
   */
  method InitContainer(coll: Coll, allocOk: bool) returns (c: Qs?)
    ensures c != null <==> allocOk
    ensures c != null ==> fresh(c) && c.Valid() && c.coll == coll && c.arrSizeI == 0 && c.Contents() == []
  {
    c := new Qs(coll);
    var ret := c.Resize(allocOk);
    if ret < 0 {
      return null;
    }
  }
}
