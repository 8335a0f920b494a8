/**
 * f_list.c: the growable array of file records (name, key, stat pointer)
 * that the later ls keeps, with the same capacity table and randomized
 * quicksort as dir_arr.c.  Here len only grows when an element is stored, so
 * the slots in use always hold records.
 */
module FList {
  import opened Base
  import opened Collation
  import opened Quicksort

  /** _f_list_size[]: the capacities the array steps through. */
  const F_LIST_SIZE: seq<int> := [0x0000000F, 0x000000FF, 0x000003FF, 0x00000FFF,
                                  0x00003FFF, 0x0000FFFF, 0x0003FFFF, 0x000FFFFF,
                                  0x003FFFFF, 0x00FFFFFF, 0x03FFFFFF, 0x0FFFFFFF,
                                  0x3FFFFFFF, 0xFFFFFFFF]
  const F_LIST_SIZE_LEN: int := 14

  /** The table has _F_LIST_SIZE_LEN entries and grows strictly. */
  lemma FListSizeTable()
    ensures |F_LIST_SIZE| == F_LIST_SIZE_LEN
    ensures forall i, j :: 0 <= i < j < F_LIST_SIZE_LEN ==> F_LIST_SIZE[i] < F_LIST_SIZE[j]
    ensures forall i :: 0 <= i < F_LIST_SIZE_LEN ==> 0 < F_LIST_SIZE[i] <= UINT_MAX
  {
  }

  /**
   * struct f_data_s.  The stat pointer is stored and never read; it is an
   * opaque handle here, None for NULL.
   */
  datatype FData = FData(fName: string, key: Key, fStat: Option<nat>)

  /** "key_order(...) < 0" on slots. */
  function SlotLess(coll: Coll): (Option<FData>, Option<FData>) -> bool {
    (x: Option<FData>, y: Option<FData>) => x.Some? && y.Some? && KeyLess(coll, x.value.key, y.value.key)
  }

  /** For a strcoll that is a strict total order the slot comparison is a strict order. */
  lemma SlotLessIsStrictOrder(coll: Coll)
    requires StrictTotal(coll)
    ensures StrictOrder(SlotLess(coll))
  {
    var less := SlotLess(coll);
    forall x: Option<FData>, y: Option<FData>, z: Option<FData> ensures ChainsAt(less, x, y, z) {
      if less(x, y) && less(y, z) {
        KeyLessTransitive(coll, x.value.key, y.value.key, z.value.key);
      }
    }
    forall x: Option<FData>, y: Option<FData> ensures AsymmetricAt(less, x, y) {
      if x.Some? && y.Some? {
        KeyOrderAntisymmetric(coll, x.value.key, y.value.key);
      }
    }
  }

  /** A sorted run of records is in non-decreasing key_order. */
  lemma SortedSlotsKeyOrder(coll: Coll, c: seq<Option<FData>>)
    requires StrictTotal(coll)
    requires forall k :: 0 <= k < |c| ==> c[k].Some?
    requires SortedBy(c, SlotLess(coll))
    ensures forall i, j :: 0 <= i < j < |c| ==> KeyOrder(coll, c[i].value.key, c[j].value.key) <= 0
  {
    forall i, j | 0 <= i < j < |c| ensures KeyOrder(coll, c[i].value.key, c[j].value.key) <= 0 {
      var ki, kj := c[i].value.key, c[j].value.key;
      assert !SlotLess(coll)(c[j], c[i]);
      KeyOrderAntisymmetric(coll, ki, kj);
      KeyOrderZeroIff(coll, kj, ki);
      KeyOrderZeroIff(coll, ki, kj);
    }
  }

  /**
   * make_key: cmp_case is f_name itself and cmp_char a tolower copy;
   * `allocOk` false is a failed malloc of the copy (-1, here None).
   */
  method MakeKey(fName: string, allocOk: bool) returns (r: Option<Key>)
    ensures r.Some? <==> allocOk
    ensures r.Some? ==> r.value == KeyOf(fName)
  {
    var cmpChar := LowerStringCopy(fName, allocOk);
    if cmpChar.None? {
      return None;
    }
    r := Some(Key(cmpChar.value, fName));
  }

  /** struct f_list_s. */
  class FList {
    /** The collation strcoll uses. */
    const coll: Coll
    var fData: array<Option<FData>>
    var len: int
    var sizeI: int

    /** The array has the capacity size_i names, and every slot below len holds a record. */
    ghost predicate Valid()
      reads this, fData
    {
      && 0 <= sizeI < F_LIST_SIZE_LEN
      && fData.Length == F_LIST_SIZE[sizeI]
      && 0 <= len <= fData.Length
      && forall k :: 0 <= k < len ==> fData[k].Some?
    }

    /** The records in use, in order. */
    ghost function Contents(): seq<Option<FData>>
      requires 0 <= len <= fData.Length
      reads this, fData
    {
      fData[..len]
    }

    /** The state f_list_init leaves: empty, at the first capacity. */
    constructor (coll: Coll)
      ensures Valid() && this.coll == coll && len == 0 && sizeI == 0 && fData.Length == F_LIST_SIZE[0]
      ensures Contents() == []
    {
      this.coll := coll;
      fData := new Option<FData>[F_LIST_SIZE[0]](_ => None);
      len := 0;
      sizeI := 0;
    }

    /**
     * _f_list_resize: advance size_i; at _F_LIST_SIZE_LEN return 1, on a
     * failed malloc (`allocOk` false) return -1, otherwise copy all len
     * records, in order, into an array of the next capacity.
     */
    method Resize(allocOk: bool) returns (ret: int)
      requires Valid()
      modifies this
      ensures sizeI == old(sizeI) + 1 && len == old(len)
      ensures sizeI == F_LIST_SIZE_LEN ==> ret == 1 && fData == old(fData)
      ensures sizeI < F_LIST_SIZE_LEN && !allocOk ==> ret == -1 && fData == old(fData)
      ensures sizeI < F_LIST_SIZE_LEN && allocOk ==>
                ret == 0 && fresh(fData) && Valid() && Contents() == old(Contents())
    {
      FListSizeTable();
      sizeI := sizeI + 1;
      if sizeI == F_LIST_SIZE_LEN {
        return 1;
      }
      if !allocOk {
        return -1;
      }
      var cpy := new Option<FData>[F_LIST_SIZE[sizeI]](_ => None);
      var i := 0;
      while i < len
        modifies cpy
        invariant 0 <= i <= len
        invariant forall k :: 0 <= k < i ==> cpy[k] == fData[k]
      {
        cpy[i] := fData[i];
        i := i + 1;
      }
      assert cpy[..len] == fData[..len];
      fData := cpy;
      ret := 0;
    }

    /**
     * f_list_add_elem: resize when len equals the capacity and return a
     * non-zero resize result as it is; then store the record at index len.
     * len is an int, so the last capacity is never reached and the resize
     * never returns 1 here.
     * A failed malloc of the record (`slotOk`) or of its key (`keyOk`)
     * leaves that slot NULL, len unchanged, and returns -1.
     */
    method AddElem(fName: string, fStat: Option<nat>, resizeOk: bool, slotOk: bool, keyOk: bool)
      returns (ret: int)
      requires Valid() && len < INT_MAX
      modifies this, fData
      ensures ret == 0 || ret == -1
      ensures len == old(len) + (if ret == 0 then 1 else 0)
      ensures old(len) == old(fData.Length) && !resizeOk ==>
                ret == -1 && sizeI == old(sizeI) + 1 && fData == old(fData) && fData[..] == old(fData[..])
      ensures !(old(len) == old(fData.Length) && !resizeOk) ==>
                && Valid()
                && sizeI == old(sizeI) + (if old(len) == old(fData.Length) then 1 else 0)
                && (ret == 0 <==> slotOk && keyOk)
                && Contents() == old(Contents()) + (if ret == 0 then [Some(FData(fName, KeyOf(fName), fStat))] else [])
                && fData[old(len)] == (if ret == 0 then Some(FData(fName, KeyOf(fName), fStat)) else None)
    {
      FListSizeTable();
      if F_LIST_SIZE[sizeI] == len {
        ret := Resize(resizeOk);
        if ret != 0 {
          return ret;
        }
      }
      var i := len;
      if !slotOk {
        fData[i] := None;
        return -1;
      }
      var key := MakeKey(fName, keyOk);
      if key.None? {
        fData[i] := None;
        return -1;
      }
      fData[i] := Some(FData(fName, key.value, fStat));
      len := len + 1;
      ret := 0;
    }

    /** f_list_sort: the randomized quicksort over f_data[0 .. len). */
    method Sort()
      requires Valid() && StrictTotal(coll)
      modifies fData
      ensures Valid()
      ensures multiset(Contents()) == multiset(old(Contents()))
      ensures SortedBy(Contents(), SlotLess(coll))
      ensures fData[len..] == old(fData[len..])
    {
      SlotLessIsStrictOrder(coll);
      SortR(fData, 0, len - 1, SlotLess(coll));
      assert fData[len..] == old(fData[len..]);
      forall k | 0 <= k < len ensures fData[k].Some? {
        assert fData[k] in multiset(old(fData[..len]));
      }
    }
  }

  /**
   * f_list_init and f_list_init_seed: a new empty list, or NULL when the
   * malloc of the struct (`structOk`) or of the first array (`arrOk`) fails.
   * The two differ only in how they seed srand, which is not modelled.
   */
  method Init(coll: Coll, structOk: bool, arrOk: bool) returns (fl: FList?)
    ensures fl != null <==> structOk && arrOk
    ensures fl != null ==> fresh(fl) && fl.Valid() && fl.coll == coll && fl.sizeI == 0 && fl.Contents() == []
  {
    if !structOk || !arrOk {
      return null;
    }
    fl := new FList(coll);
  }
}
