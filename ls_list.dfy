/**
 * ls_src/list.c: the increasing-order linked list of file names (with their
 * lower-cased copies and stat pointers) that ls builds.  A list is modelled
 * by the sequence of its nodes' data from the head; a NULL successor is the
 * end of the sequence.
 */
module LsList {
  import opened Base
  import opened Collation
  import opened OrderedList

  /** list_err (list.h:11-15). */
  datatype ListErr = ListErrNone | ListErrMalloc | ListErrDupEntry {
    function Code(): int {
      match this
      case ListErrNone => 0
      case ListErrMalloc => 1
      case ListErrDupEntry => 2
    }
  }

  /** struct data_s.  The stat pointer is only stored: an opaque handle, None for NULL. */
  datatype Data = Data(fName: string, fNameLower: string, fStat: Option<nat>)

  /** The key node_order compares: the lower-cased name first, then the name. */
  function DataKey(d: Data): Key {
    Key(d.fNameLower, d.fName)
  }

  /**
   * node_order: NULL orders after every node and equal to NULL; two nodes
   * compare their lower-cased names and, on a tie, their names.
   */
  function NodeOrder(coll: Coll, n1: Option<Data>, n2: Option<Data>): int {
    if n1.None? && n2.None? then 0
    else if n1.None? then 1
    else if n2.None? then -1
    else KeyOrder(coll, DataKey(n1.value), DataKey(n2.value))
  }

  /**
   * node_order is a total order on nodes with NULL as its maximum: zero
   * exactly for equal data keys (or two NULLs), and swapping the arguments
   * flips the sign.
   */
  lemma NodeOrderTotal(coll: Coll, n1: Option<Data>, n2: Option<Data>)
    requires StrictTotal(coll)
    ensures NodeOrder(coll, n1, n2) == 0 <==>
              (n1.None? && n2.None?) || (n1.Some? && n2.Some? && DataKey(n1.value) == DataKey(n2.value))
    ensures NodeOrder(coll, n1, n2) < 0 <==> NodeOrder(coll, n2, n1) > 0
    ensures n1.Some? && n2.None? ==> NodeOrder(coll, n1, n2) < 0
  {
    if n1.Some? && n2.Some? {
      KeyOrderZeroIff(coll, DataKey(n1.value), DataKey(n2.value));
      KeyOrderAntisymmetric(coll, DataKey(n1.value), DataKey(n2.value));
    }
  }

  /** The data a successful node_fill_data stores for its file has the key KeyOf(f_name). */
  lemma FilledDataKey(fName: string, fStat: Option<nat>)
    ensures DataKey(Data(fName, LowerString(fName), fStat)) == KeyOf(fName)
  {
  }

  // ---------------------------------------------------------------------------
  // node_fill_data.
  // ---------------------------------------------------------------------------

  /** ENOMEM, the errno a failed malloc leaves. */
  const ENOMEM: int := 12

  /** errno after "errno = 0; p = malloc(...)": ENOMEM when malloc failed, still 0 otherwise. */
  function ErrnoAfterMalloc(allocOk: bool): int {
    if allocOk then 0 else ENOMEM
  }

  /**
   * node_fill_data as written: after the name copy (`nameOk`) the test is
   * "f_name == NULL && errno"; after the lower-cased copy (`lowerOk`) it is
   * "f_name_lower && errno", which can only fire for a non-NULL copy.
   */
  function NodeFillDataAsWritten(nameOk: bool, lowerOk: bool): ListErr {
    var nameNull, errno := !nameOk, ErrnoAfterMalloc(nameOk);
    if nameNull && errno != 0 then ListErrMalloc
    else
      var lowerNonNull, errno' := lowerOk, ErrnoAfterMalloc(lowerOk);
      if lowerNonNull && errno' != 0 then ListErrMalloc else ListErrNone
  }

  /**
   * The as-written check never reports a failed lower-cased copy: the result
   * is LIST_ERR_MALLOC exactly when the name copy fails, so a NULL
   * f_name_lower is stored and later handed to strcoll by node_order.
   */
  lemma NodeFillDataMissesLowerFailure(nameOk: bool, lowerOk: bool)
    ensures NodeFillDataAsWritten(nameOk, lowerOk) == ListErrMalloc <==> !nameOk
    ensures NodeFillDataAsWritten(true, false) == ListErrNone
  {
  }

  /**
   * node_fill_data with the evidently intended test on the lower-cased copy
   * (a NULL copy is an allocation failure): copies the name and its
   * lower-cased form and stores the stat pointer.
   */
  method NodeFillData(fName: string, fStat: Option<nat>, nameOk: bool, lowerOk: bool)
    returns (err: ListErr, d: Option<Data>)
    ensures err == ListErrNone <==> nameOk && lowerOk
    ensures err != ListErrNone ==> err == ListErrMalloc
    ensures d.Some? <==> err == ListErrNone
    ensures d.Some? ==> d.value == Data(fName, LowerString(fName), fStat) && DataKey(d.value) == KeyOf(fName)
  {
    if !nameOk {
      return ListErrMalloc, None;
    }
    var lower := LowerStringCopy(fName, lowerOk);
    if lower.None? {
      return ListErrMalloc, None;
    }
    err, d := ListErrNone, Some(Data(fName, lower.value, fStat));
  }

  // ---------------------------------------------------------------------------
  // list_add_ordered.
  // ---------------------------------------------------------------------------

  /** What list_add_ordered returns and the list it leaves. */
  datatype Outcome = Outcome(err: ListErr, nodes: seq<Data>)

  /**
   * list_add_ordered on the list s for a filled node e, as written: an empty
   * list becomes [e]; a node ordering before the head becomes the head;
   * otherwise the walk compares e only with the head's successors, and e is
   * rejected as a duplicate of the node the walk stops on or linked in
   * before it.
   */
  function AddOrderedSpec(coll: Coll, s: seq<Data>, e: Data): Outcome {
    if s == [] then Outcome(ListErrNone, [e])
    else if NodeOrder(coll, Some(e), Some(s[0])) < 0 then Outcome(ListErrNone, [e] + s)
    else
      var k := Stop(coll, DataKey, s, e, 1);
      if k < |s| && KeyOrder(coll, DataKey(e), DataKey(s[k])) == 0 then Outcome(ListErrDupEntry, s)
      else Outcome(ListErrNone, Splice(s, k, e))
  }

  /** list_add_ordered keeps a non-decreasing list non-decreasing. */
  lemma AddOrderedKeepsOrder(coll: Coll, s: seq<Data>, e: Data)
    requires StrictTotal(coll) && NonDecreasingFrom(coll, DataKey, s, 0)
    ensures NonDecreasingFrom(coll, DataKey, AddOrderedSpec(coll, s, e).nodes, 0)
  {
    if s == [] {
    } else if NodeOrder(coll, Some(e), Some(s[0])) < 0 {
      KeyOrderFlip(coll, DataKey(e), DataKey(s[0]));
      assert [e] + s == Splice(s, 0, e);
      SpliceNonDecreasing(coll, DataKey, s, 0, e, 0);
    } else {
      var k := Stop(coll, DataKey, s, e, 1);
      if !(k < |s| && KeyOrder(coll, DataKey(e), DataKey(s[k])) == 0) {
        KeyOrderFlip(coll, DataKey(e), DataKey(s[k - 1]));
        SpliceNonDecreasing(coll, DataKey, s, k, e, 0);
      }
    }
  }

  /**
   * A successful insertion adds exactly the new node; any other outcome
   * leaves the list as it was.
   */
  lemma AddOrderedContents(coll: Coll, s: seq<Data>, e: Data)
    ensures var r := AddOrderedSpec(coll, s, e);
            (r.err == ListErrNone ==> multiset(r.nodes) == multiset(s) + multiset{e}) &&
            (r.err != ListErrNone ==> r.nodes == s) &&
            r.err != ListErrMalloc
  {
    var r := AddOrderedSpec(coll, s, e);
    if s != [] && NodeOrder(coll, Some(e), Some(s[0])) >= 0 {
      SpliceContents(s, Stop(coll, DataKey, s, e, 1), e);
    }
  }

  /**
   * On a non-decreasing list the insertion reports a duplicate exactly when
   * a node after the head has the new node's key.
   */
  lemma AddOrderedDupIff(coll: Coll, s: seq<Data>, e: Data)
    requires StrictTotal(coll) && NonDecreasingFrom(coll, DataKey, s, 0)
    ensures AddOrderedSpec(coll, s, e).err == ListErrDupEntry <==>
              exists j :: 1 <= j < |s| && DataKey(s[j]) == DataKey(e)
  {
    if s != [] {
      KeyOrderZeroIff(coll, DataKey(e), DataKey(s[0]));
      if NodeOrder(coll, Some(e), Some(s[0])) < 0 {
        forall j | 1 <= j < |s| ensures DataKey(s[j]) != DataKey(e) {
          KeyOrderFlip(coll, DataKey(e), DataKey(s[0]));
          KeyLeTransitive(coll, DataKey(e), DataKey(s[0]), DataKey(s[j]));
        }
      } else {
        var k := Stop(coll, DataKey, s, e, 1);
        StopFindsEqual(coll, DataKey, s, e, 1);
        if k < |s| {
          KeyOrderZeroIff(coll, DataKey(e), DataKey(s[k]));
        }
      }
    }
  }

  /**
   * The head is never compared for equality: inserting a node equal to the
   * head of a strictly increasing list links it in right after the head and
   * reports success, and the list is no longer strictly increasing.
   */
  lemma AddOrderedDuplicatesHead(coll: Coll, s: seq<Data>, e: Data)
    requires StrictTotal(coll) && IncreasingFrom(coll, DataKey, s, 0)
    requires s != [] && DataKey(e) == DataKey(s[0])
    ensures AddOrderedSpec(coll, s, e) == Outcome(ListErrNone, Splice(s, 1, e))
    ensures !IncreasingFrom(coll, DataKey, Splice(s, 1, e), 0)
  {
    KeyOrderZeroIff(coll, DataKey(e), DataKey(s[0]));
    var k := Stop(coll, DataKey, s, e, 1);
    if 1 < |s| {
      assert KeyLess(coll, DataKey(s[0]), DataKey(s[1]));
      KeyOrderFlip(coll, DataKey(s[0]), DataKey(s[1]));
      assert k == 1;
    }
    var r := Splice(s, 1, e);
    assert r[0] == s[0] && r[1] == e;
    KeyOrderZeroIff(coll, DataKey(r[0]), DataKey(r[1]));
  }

  /**
   * list_add_ordered with the evidently intended head check: a node equal to
   * the head is a duplicate too.
   */
  function AddOrderedCheckedSpec(coll: Coll, s: seq<Data>, e: Data): Outcome {
    if s != [] && NodeOrder(coll, Some(e), Some(s[0])) == 0 then Outcome(ListErrDupEntry, s)
    else AddOrderedSpec(coll, s, e)
  }

  /**
   * With the head check the list stays strictly increasing, a duplicate is
   * reported exactly when some node has the new key, and a success adds
   * exactly the new node.
   */
  lemma AddOrderedCheckedKeepsIncreasing(coll: Coll, s: seq<Data>, e: Data)
    requires StrictTotal(coll) && IncreasingFrom(coll, DataKey, s, 0)
    ensures IncreasingFrom(coll, DataKey, AddOrderedCheckedSpec(coll, s, e).nodes, 0)
    ensures AddOrderedCheckedSpec(coll, s, e).err == ListErrDupEntry <==>
              exists j :: 0 <= j < |s| && DataKey(s[j]) == DataKey(e)
    ensures AddOrderedCheckedSpec(coll, s, e).err == ListErrNone ==>
              multiset(AddOrderedCheckedSpec(coll, s, e).nodes) == multiset(s) + multiset{e}
  {
    AddOrderedContents(coll, s, e);
    IncreasingIsNonDecreasing(coll, DataKey, s, 0);
    if s == [] {
    } else if NodeOrder(coll, Some(e), Some(s[0])) == 0 {
      KeyOrderZeroIff(coll, DataKey(e), DataKey(s[0]));
    } else {
      KeyOrderZeroIff(coll, DataKey(e), DataKey(s[0]));
      AddOrderedDupIff(coll, s, e);
      if NodeOrder(coll, Some(e), Some(s[0])) < 0 {
        KeyOrderFlip(coll, DataKey(e), DataKey(s[0]));
        assert [e] + s == Splice(s, 0, e);
        SpliceIncreasing(coll, DataKey, s, 0, e, 0);
      } else {
        var k := Stop(coll, DataKey, s, e, 1);
        if !(k < |s| && KeyOrder(coll, DataKey(e), DataKey(s[k])) == 0) {
          KeyOrderFlip(coll, DataKey(e), DataKey(s[k - 1]));
          if k < |s| {
            KeyOrderZeroIff(coll, DataKey(e), DataKey(s[k]));
          }
          SpliceIncreasing(coll, DataKey, s, k, e, 0);
        }
      }
    }
  }

  /** The successor of node c: the node at c + 1, or NULL at the end. */
  function Next(s: seq<Data>, c: int): Option<Data>
    requires 0 <= c < |s|
  {
    if c + 1 < |s| then Some(s[c + 1]) else None
  }

  /** The list: *l, the chain of nodes from the head. */
  class LsList {
    /** The collation strcoll uses. */
    const coll: Coll
    var nodes: seq<Data>

    /** The order every insertion keeps: non-decreasing (the head duplicate breaks strictness). */
    ghost predicate Valid()
      reads this
    {
      StrictTotal(coll) && NonDecreasingFrom(coll, DataKey, nodes, 0)
    }

    /** list_init(NULL) after a successful malloc: a new, empty list. */
    constructor (coll: Coll)
      requires StrictTotal(coll)
      ensures Valid() && this.coll == coll && nodes == []
    {
      this.coll := coll;
      nodes := [];
    }

    /** list_init(l) for an existing l: *l = NULL. */
    method Init()
      requires StrictTotal(coll)
      modifies this
      ensures Valid() && nodes == []
    {
      nodes := [];
    }

    /**
     * list_add_ordered.  `nodeOk` is malloc's verdict on the node, `nameOk`
     * and `lowerOk` those on node_fill_data's two copies.
     */
    method AddOrdered(fName: string, fStat: Option<nat>, nodeOk: bool, nameOk: bool, lowerOk: bool)
      returns (ret: ListErr)
      requires Valid()
      modifies this
      ensures Valid()
      ensures !(nodeOk && nameOk && lowerOk) ==> ret == ListErrMalloc && nodes == old(nodes)
      ensures nodeOk && nameOk && lowerOk ==>
                Outcome(ret, nodes) == AddOrderedSpec(coll, old(nodes), Data(fName, LowerString(fName), fStat))
    {
      if !nodeOk {
        return ListErrMalloc;
      }
      var d;
      ret, d := NodeFillData(fName, fStat, nameOk, lowerOk);
      if ret == ListErrMalloc {
        return;
      }
      var n := d.value;
      AddOrderedKeepsOrder(coll, nodes, n);
      if nodes == [] {
        nodes := [n];
        return ListErrNone;
      }
      var ord := NodeOrder(coll, Some(n), Some(nodes[0]));
      if ord < 0 {
        nodes := [n] + nodes;
        return ListErrNone;
      }
      var c := 0;
      ord := NodeOrder(coll, Some(n), Next(nodes, c));
      while ord > 0
        invariant 0 <= c < |nodes|
        invariant Stop(coll, DataKey, nodes, n, c + 1) == Stop(coll, DataKey, nodes, n, 1)
        invariant ord == NodeOrder(coll, Some(n), Next(nodes, c))
        decreases |nodes| - c
      {
        c := c + 1;
        ord := NodeOrder(coll, Some(n), Next(nodes, c));
      }
      if ord == 0 {
        ret := ListErrDupEntry;
      } else {
        nodes := nodes[..c + 1] + [n] + nodes[c + 1..];
        ret := ListErrNone;
      }
    }

    /** list_delete: every node is freed in turn and *l becomes NULL. */
    method Delete()
      requires StrictTotal(coll)
      modifies this
      ensures Valid() && nodes == []
    {
      while nodes != []
        decreases |nodes|
      {
        nodes := nodes[1..];
      }
    }
  }

  /**
   * list_init: for a NULL l a new list is malloc'd (`allocOk` is malloc's
   * verdict; NULL on failure); otherwise l itself is emptied.
   */
  method ListInit(coll: Coll, l: LsList?, allocOk: bool) returns (r: LsList?)
    requires StrictTotal(coll)
    requires l != null ==> StrictTotal(l.coll)
    modifies l
    ensures l != null ==> r == l && l.Valid() && l.nodes == []
    ensures l == null ==> (r != null <==> allocOk)
    ensures l == null && r != null ==> fresh(r) && r.Valid() && r.coll == coll && r.nodes == []
  {
    if l != null {
      l.Init();
      return l;
    }
    if !allocOk {
      return null;
    }
    r := new LsList(coll);
  }
}
