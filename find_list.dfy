/**
 * find_src/list.c: the increasing-order linked list of paths find keeps.
 * A list is modelled by the sequence of its nodes' data from the head; a
 * NULL successor is the end of the sequence.  Insertion starts at the head
 * and compares only with successors, so the head stays the first node ever
 * inserted and the order holds from the second node on.
 */
module FindList {
  import opened Base
  import opened Collation
  import opened OrderedList

  /** list_err (path_list.h:10-15). */
  datatype ListErr = ListErrNone | ListErrMalloc | ListErrDupEntry {
    function Code(): int {
      match this
      case ListErrNone => 0
      case ListErrMalloc => 1
      case ListErrDupEntry => 2
    }
  }

  /** struct data_s (path_list.h:17-20). */
  datatype Data = Data(path: string, pathLower: string)

  /** The key node_order compares: path_lower first, then path. */
  function DataKey(d: Data): Key {
    Key(d.pathLower, d.path)
  }

  /** node_order: NULL is after every node and equal to NULL; otherwise path_lower, then path. */
  function NodeOrder(coll: Coll, n1: Option<Data>, n2: Option<Data>): int {
    if n1.None? && n2.None? then 0
    else if n1.None? then 1
    else if n2.None? then -1
    else KeyOrder(coll, DataKey(n1.value), DataKey(n2.value))
  }

  /**
   * node_order is a total order on nodes with NULL as its maximum: zero
   * exactly for equal keys (or two NULLs), and swapping the arguments flips
   * the sign.
   */
  lemma NodeOrderTotal(coll: Coll, n1: Option<Data>, n2: Option<Data>)
    requires StrictTotal(coll)
    ensures NodeOrder(coll, n1, n2) == 0 <==>
              (n1.None? && n2.None?) || (n1.Some? && n2.Some? && DataKey(n1.value) == DataKey(n2.value))
    ensures NodeOrder(coll, n1, n2) < 0 <==> NodeOrder(coll, n2, n1) > 0
    ensures n1.Some? && n2.None? ==> NodeOrder(coll, n1, n2) < 0
  {
    if n1.Some? && n2.Some? {
      KeyOrderZeroIff(coll, DataKey(n1.value), DataKey(n2.value));
      KeyOrderAntisymmetric(coll, DataKey(n1.value), DataKey(n2.value));
    }
  }

  // ---------------------------------------------------------------------------
  // node_fill_data.
  // ---------------------------------------------------------------------------

  /** ENOMEM, the errno a failed malloc leaves. */
  const ENOMEM: int := 12

  /** errno after "errno = 0; p = malloc(...)". */
  function ErrnoAfterMalloc(allocOk: bool): int {
    if allocOk then 0 else ENOMEM
  }

  /**
   * node_fill_data as written: "path == NULL && errno" after the path copy
   * (`pathOk`), but "path_lower && errno" after the lower-cased copy
   * (`lowerOk`), which cannot fire for a NULL copy.
   */
  function NodeFillDataAsWritten(pathOk: bool, lowerOk: bool): ListErr {
    var pathNull, errno := !pathOk, ErrnoAfterMalloc(pathOk);
    if pathNull && errno != 0 then ListErrMalloc
    else
      var lowerNonNull, errno' := lowerOk, ErrnoAfterMalloc(lowerOk);
      if lowerNonNull && errno' != 0 then ListErrMalloc else ListErrNone
  }

  /**
   * The as-written check reports LIST_ERR_MALLOC exactly when the path copy
   * fails: a failed lower-cased copy is stored as a NULL path_lower.
   */
  lemma NodeFillDataMissesLowerFailure(pathOk: bool, lowerOk: bool)
    ensures NodeFillDataAsWritten(pathOk, lowerOk) == ListErrMalloc <==> !pathOk
    ensures NodeFillDataAsWritten(true, false) == ListErrNone
  {
  }

  /** node_fill_data with a NULL lower-cased copy treated as the allocation failure it is. */
  method NodeFillData(path: string, pathOk: bool, lowerOk: bool) returns (err: ListErr, d: Option<Data>)
    ensures err == ListErrNone <==> pathOk && lowerOk
    ensures err != ListErrNone ==> err == ListErrMalloc
    ensures d.Some? <==> err == ListErrNone
    ensures d.Some? ==> d.value == Data(path, LowerString(path)) && DataKey(d.value) == KeyOf(path)
  {
    if !pathOk {
      return ListErrMalloc, None;
    }
    var lower := LowerStringCopy(path, lowerOk);
    if lower.None? {
      return ListErrMalloc, None;
    }
    err, d := ListErrNone, Some(Data(path, lower.value));
  }

  // ---------------------------------------------------------------------------
  // list_add_ordered.
  // ---------------------------------------------------------------------------

  /** What list_add_ordered returns and the list it leaves. */
  datatype Outcome = Outcome(err: ListErr, nodes: seq<Data>)

  /**
   * list_add_ordered on s for a filled node e, as written: an empty list
   * becomes [e]; otherwise the walk starts at the head and moves on while e
   * orders after the current node's successor, then rejects e as a duplicate
   * of that successor or links e in before it.
   */
  function AddOrderedSpec(coll: Coll, s: seq<Data>, e: Data): Outcome {
    if s == [] then Outcome(ListErrNone, [e])
    else
      var k := Stop(coll, DataKey, s, e, 1);
      if k < |s| && KeyOrder(coll, DataKey(e), DataKey(s[k])) == 0 then Outcome(ListErrDupEntry, s)
      else Outcome(ListErrNone, Splice(s, k, e))
  }

  /**
   * The order list_add_ordered keeps: strictly increasing from the second
   * node on, and the head is never replaced.
   */
  lemma AddOrderedKeepsOrder(coll: Coll, s: seq<Data>, e: Data)
    requires StrictTotal(coll) && IncreasingFrom(coll, DataKey, s, 1)
    ensures IncreasingFrom(coll, DataKey, AddOrderedSpec(coll, s, e).nodes, 1)
    ensures s != [] ==> AddOrderedSpec(coll, s, e).nodes[0] == s[0]
  {
    if s != [] {
      var k := Stop(coll, DataKey, s, e, 1);
      if !(k < |s| && KeyOrder(coll, DataKey(e), DataKey(s[k])) == 0) {
        if 1 < k {
          KeyOrderFlip(coll, DataKey(e), DataKey(s[k - 1]));
        }
        SpliceIncreasing(coll, DataKey, s, k, e, 1);
      }
    }
  }

  /** A success adds exactly the new node; a duplicate leaves the list as it was. */
  lemma AddOrderedContents(coll: Coll, s: seq<Data>, e: Data)
    ensures var r := AddOrderedSpec(coll, s, e);
            (r.err == ListErrNone ==> multiset(r.nodes) == multiset(s) + multiset{e}) &&
            (r.err != ListErrNone ==> r.nodes == s) &&
            r.err != ListErrMalloc
  {
    if s != [] {
      SpliceContents(s, Stop(coll, DataKey, s, e, 1), e);
    }
  }

  /** A duplicate is reported exactly when a node after the head has the new key. */
  lemma AddOrderedDupIff(coll: Coll, s: seq<Data>, e: Data)
    requires StrictTotal(coll) && IncreasingFrom(coll, DataKey, s, 1)
    ensures AddOrderedSpec(coll, s, e).err == ListErrDupEntry <==>
              exists j :: 1 <= j < |s| && DataKey(s[j]) == DataKey(e)
  {
    if s != [] {
      IncreasingIsNonDecreasing(coll, DataKey, s, 1);
      var k := Stop(coll, DataKey, s, e, 1);
      StopFindsEqual(coll, DataKey, s, e, 1);
      if k < |s| {
        KeyOrderZeroIff(coll, DataKey(e), DataKey(s[k]));
      }
    }
  }

  /**
   * A path that orders before the head (or equals it) is still linked in
   * after the head, so the whole list is no longer in increasing order.
   */
  lemma AddOrderedNeverBeforeHead(coll: Coll, s: seq<Data>, e: Data)
    requires StrictTotal(coll) && IncreasingFrom(coll, DataKey, s, 0)
    requires s != [] && KeyOrder(coll, DataKey(e), DataKey(s[0])) <= 0
    ensures AddOrderedSpec(coll, s, e) == Outcome(ListErrNone, Splice(s, 1, e))
    ensures !IncreasingFrom(coll, DataKey, Splice(s, 1, e), 0)
  {
    var k := Stop(coll, DataKey, s, e, 1);
    if 1 < |s| {
      KeyLeTransitive(coll, DataKey(e), DataKey(s[0]), DataKey(s[1]));
      KeyOrderZeroIff(coll, DataKey(e), DataKey(s[1]));
      assert k == 1;
    }
    var r := Splice(s, 1, e);
    assert r[0] == s[0] && r[1] == e;
    KeyOrderFlip(coll, DataKey(e), DataKey(s[0]));
  }

  /**
   * list_add_ordered with the head compared too: a node before the head
   * becomes the head and one equal to it is a duplicate.
   */
  function AddOrderedHeadSpec(coll: Coll, s: seq<Data>, e: Data): Outcome {
    if s != [] && NodeOrder(coll, Some(e), Some(s[0])) < 0 then Outcome(ListErrNone, [e] + s)
    else if s != [] && NodeOrder(coll, Some(e), Some(s[0])) == 0 then Outcome(ListErrDupEntry, s)
    else AddOrderedSpec(coll, s, e)
  }

  /**
   * With the head compared, the whole list stays strictly increasing, a
   * duplicate is reported exactly when some node has the new key, and a
   * success adds exactly the new node.
   */
  lemma AddOrderedHeadKeepsIncreasing(coll: Coll, s: seq<Data>, e: Data)
    requires StrictTotal(coll) && IncreasingFrom(coll, DataKey, s, 0)
    ensures IncreasingFrom(coll, DataKey, AddOrderedHeadSpec(coll, s, e).nodes, 0)
    ensures AddOrderedHeadSpec(coll, s, e).err == ListErrDupEntry <==>
              exists j :: 0 <= j < |s| && DataKey(s[j]) == DataKey(e)
    ensures AddOrderedHeadSpec(coll, s, e).err == ListErrNone ==>
              multiset(AddOrderedHeadSpec(coll, s, e).nodes) == multiset(s) + multiset{e}
  {
    AddOrderedContents(coll, s, e);
    if s != [] {
      KeyOrderZeroIff(coll, DataKey(e), DataKey(s[0]));
      if NodeOrder(coll, Some(e), Some(s[0])) < 0 {
        NewHeadKeepsIncreasing(coll, s, e);
      } else if NodeOrder(coll, Some(e), Some(s[0])) > 0 {
        AfterHeadKeepsIncreasing(coll, s, e);
      }
    }
  }

  /** A node before the head has a key no node has, and the list with it in front is increasing. */
  lemma NewHeadKeepsIncreasing(coll: Coll, s: seq<Data>, e: Data)
    requires StrictTotal(coll) && IncreasingFrom(coll, DataKey, s, 0)
    requires s != [] && NodeOrder(coll, Some(e), Some(s[0])) < 0
    ensures forall j :: 0 <= j < |s| ==> DataKey(s[j]) != DataKey(e)
    ensures IncreasingFrom(coll, DataKey, [e] + s, 0)
  {
    forall j | 0 <= j < |s| ensures DataKey(s[j]) != DataKey(e) {
      if 0 < j {
        KeyLessTransitive(coll, DataKey(e), DataKey(s[0]), DataKey(s[j]));
      }
      KeyOrderZeroIff(coll, DataKey(e), DataKey(s[j]));
    }
    assert [e] + s == Splice(s, 0, e);
    SpliceIncreasing(coll, DataKey, s, 0, e, 0);
  }

  /** A node after the head goes where list_add_ordered puts it, which keeps the list increasing. */
  lemma AfterHeadKeepsIncreasing(coll: Coll, s: seq<Data>, e: Data)
    requires StrictTotal(coll) && IncreasingFrom(coll, DataKey, s, 0)
    requires s != [] && NodeOrder(coll, Some(e), Some(s[0])) > 0
    ensures IncreasingFrom(coll, DataKey, AddOrderedSpec(coll, s, e).nodes, 0)
    ensures AddOrderedSpec(coll, s, e).err == ListErrDupEntry <==>
              exists j :: 1 <= j < |s| && DataKey(s[j]) == DataKey(e)
  {
    AddOrderedDupIff(coll, s, e);
    AddOrderedContents(coll, s, e);
    var k := Stop(coll, DataKey, s, e, 1);
    if !(k < |s| && KeyOrder(coll, DataKey(e), DataKey(s[k])) == 0) {
      KeyOrderFlip(coll, DataKey(e), DataKey(s[k - 1]));
      if k < |s| {
        KeyOrderZeroIff(coll, DataKey(e), DataKey(s[k]));
      }
      SpliceIncreasing(coll, DataKey, s, k, e, 0);
    }
  }

  /** The successor of node c: the node at c + 1, or NULL at the end. */
  function Next(s: seq<Data>, c: int): Option<Data>
    requires 0 <= c < |s|
  {
    if c + 1 < |s| then Some(s[c + 1]) else None
  }

  /** The list: *l, the chain of nodes from the head. */
  class FindList {
    /** The collation strcoll uses. */
    const coll: Coll
    var nodes: seq<Data>

    /** Strictly increasing from the second node on. */
    ghost predicate Valid()
      reads this
    {
      StrictTotal(coll) && IncreasingFrom(coll, DataKey, nodes, 1)
    }

    /** list_init(NULL) after a successful malloc: a new, empty list. */
    constructor (coll: Coll)
      requires StrictTotal(coll)
      ensures Valid() && this.coll == coll && nodes == []
    {
      this.coll := coll;
      nodes := [];
    }

    /** list_init(l) for an existing l: *l = NULL. */
    method Init()
      requires StrictTotal(coll)
      modifies this
      ensures Valid() && nodes == []
    {
      nodes := [];
    }

    /**
     * list_add_ordered.  `nodeOk` is malloc's verdict on the node, `pathOk`
     * and `lowerOk` those on node_fill_data's two copies.
     */
    method AddOrdered(path: string, nodeOk: bool, pathOk: bool, lowerOk: bool) returns (ret: ListErr)
      requires Valid()
      modifies this
      ensures Valid()
      ensures !(nodeOk && pathOk && lowerOk) ==> ret == ListErrMalloc && nodes == old(nodes)
      ensures nodeOk && pathOk && lowerOk ==>
                Outcome(ret, nodes) == AddOrderedSpec(coll, old(nodes), Data(path, LowerString(path)))
    {
      if !nodeOk {
        return ListErrMalloc;
      }
      var d;
      ret, d := NodeFillData(path, pathOk, lowerOk);
      if ret == ListErrMalloc {
        return;
      }
      var n := d.value;
      AddOrderedKeepsOrder(coll, nodes, n);
      if nodes == [] {
        nodes := [n];
        return ListErrNone;
      }
      var c := 0;
      var ord := NodeOrder(coll, Some(n), Next(nodes, c));
      while ord > 0
        invariant 0 <= c < |nodes|
        invariant Stop(coll, DataKey, nodes, n, c + 1) == Stop(coll, DataKey, nodes, n, 1)
        invariant ord == NodeOrder(coll, Some(n), Next(nodes, c))
        decreases |nodes| - c
      {
        c := c + 1;
        ord := NodeOrder(coll, Some(n), Next(nodes, c));
      }
      if ord == 0 {
        ret := ListErrDupEntry;
      } else {
        nodes := nodes[..c + 1] + [n] + nodes[c + 1..];
        ret := ListErrNone;
      }
    }

    /** list_delete: every node is freed in turn and *l becomes NULL. */
    method Delete()
      requires StrictTotal(coll)
      modifies this
      ensures Valid() && nodes == []
    {
      while nodes != []
        decreases |nodes|
      {
        nodes := nodes[1..];
      }
    }
  }

  /**
   * list_init: for a NULL l a new list is malloc'd (`allocOk` is malloc's
   * verdict; NULL on failure); otherwise l itself is emptied.
   */
  method ListInit(coll: Coll, l: FindList?, allocOk: bool) returns (r: FindList?)
    requires StrictTotal(coll)
    requires l != null ==> StrictTotal(l.coll)
    modifies l
    ensures l != null ==> r == l && l.Valid() && l.nodes == []
    ensures l == null ==> (r != null <==> allocOk)
    ensures l == null && r != null ==> fresh(r) && r.Valid() && r.coll == coll && r.nodes == []
  {
    if l != null {
      l.Init();
      return l;
    }
    if !allocOk {
      return null;
    }
    r := new FindList(coll);
  }
}
