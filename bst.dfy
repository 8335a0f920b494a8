/**
 * The sort tree of autotools/bst.c: a red-black binary search tree over the
 * two-level string keys, used only to insert strings and write them out in
 * order.  The tree behind the `tree *` handle is the field `root`; the
 * descent and the insert fix-up move a cursor through it, which the model
 * keeps as a zipper (see RbTree).
 */
module Bst {
  import opened Base
  import opened Collation
  import opened RbTree

  /** The allocator's verdicts on the three allocations make_key performs, in order. */
  datatype KeyAllocs = KeyAllocs(keyStruct: bool, cmpChar: bool, cmpCase: bool)

  predicate AllOk(a: KeyAllocs) {
    a.keyStruct && a.cmpChar && a.cmpCase
  }

  /**
   * make_key: allocate the key and its two buffers, then copy s including its
   * terminator, lower-cased into cmp_char and unchanged into cmp_case.  Any
   * failed allocation gives NULL.
   */
  method MakeKey(s: string, allocs: KeyAllocs) returns (r: Option<Key>)
    ensures r.Some? <==> AllOk(allocs)
    ensures r.Some? ==> r.value == KeyOf(s)
  {
    if !allocs.keyStruct {
      return None;
    }
    if !allocs.cmpChar {
      return None;
    }
    if !allocs.cmpCase {
      return None;
    }
    var cs := s + ['\0'];
    var len := |cs|;
    var cmpChar := new char[len];
    var cmpCase := new char[len];
    var i := 0;
    while i < len
      invariant 0 <= i <= len
      invariant forall j :: 0 <= j < i ==> cmpChar[j] == ToLower(cs[j]) && cmpCase[j] == cs[j]
    {
      cmpChar[i] := ToLower(cs[i]);
      cmpCase[i] := cs[i];
      i := i + 1;
    }
    // Both copies end with the terminator; the strings are what precedes it.
    assert cmpChar[len - 1] == '\0' && cmpCase[len - 1] == '\0';
    r := Some(Key(cmpChar[..len - 1], cmpCase[..len - 1]));
  }

  /** Some stored entry holds the string s. */
  ghost predicate HasData(t: Tree, s: string) {
    exists e :: e in Inorder(t) && e.data == s
  }

  /** In a well-keyed tree, holding a string is holding its key. */
  lemma HasDataIffKey(t: Tree, s: string)
    requires WellKeyed(Inorder(t))
    ensures HasData(t, s) <==> exists e :: e in Inorder(t) && e.key == KeyOf(s)
  {
    if exists e :: e in Inorder(t) && e.key == KeyOf(s) {
      var e :| e in Inorder(t) && e.key == KeyOf(s);
      KeyOfInjective(e.data, s);
    }
  }

  /** Putting x between a smaller and a greater part of a sorted sequence keeps it sorted. */
  lemma InsertKeepsSorted(coll: Coll, a: seq<Entry>, x: Entry, b: seq<Entry>)
    requires Sorted(coll, a + b)
    requires forall e | e in a :: KeyLess(coll, e.key, x.key)
    requires forall e | e in b :: KeyLess(coll, x.key, e.key)
    ensures Sorted(coll, a + [x] + b)
  {
    var s, t := a + [x] + b, a + b;
    forall i, j | 0 <= i < j < |s| ensures KeyLess(coll, s[i].key, s[j].key) {
      if j < |a| {
        assert s[i] == t[i] && s[j] == t[j];
      } else if j == |a| {
        assert s[i] in a;
      } else if i < |a| {
        assert s[i] == t[i] && s[j] == t[j - 1];
      } else if i == |a| {
        assert s[j] in b;
      } else {
        assert s[i] == t[i - 1] && s[j] == t[j - 1];
      }
    }
  }

  /**
   * Where a key k that the tree does not hold belongs: the zipper's focus is
   * the NULL child the descent stopped at, everything before it is smaller
   * than k and everything after it greater, its parent is the last node the
   * descent visited, and the side it hangs on is the one the last comparison
   * chose.  The frames keep the red-black properties a NULL leaf sees.
   */
  ghost predicate InsertionPoint(coll: Coll, t: Tree, k: Key, z: Zipper) {
    && z.focus == Nil && Whole(z) == t
    && Inorder(t) == Before(z.path) + After(z.path)
    && (forall e | e in Before(z.path) :: KeyLess(coll, e.key, k))
    && (forall e | e in After(z.path) :: KeyLess(coll, k, e.key))
    && (z.path != [] ==> (z.path[0].side == Left <==> KeyLess(coll, k, z.path[0].entry.key)))
    && PathRedRedFree(z.path, Black, false) && PathBalanced(z.path, 1) && RootBlack(z.path)
  }

  /** One step of the descent: the cursor moves to its child on `side`, and the node it leaves becomes the bottom frame. */
  function Down(z: Zipper, side: Side): Zipper
    requires z.focus.Node?
  {
    var p := z.focus;
    match side
    case Left => Zipper([Frame(Left, p.color, p.entry, p.right)] + z.path, p.left)
    case Right => Zipper([Frame(Right, p.color, p.entry, p.left)] + z.path, p.right)
  }

  /**
   * The shape half of what the descent of bst_add_node keeps: the zipper is
   * the tree, the cursor's subtree is red-black apart from its root colour,
   * and the frames keep the red-black properties.
   */
  ghost predicate DescentShape(t: Tree, z: Zipper) {
    && Whole(z) == t
    && RedRedFree(z.focus) && BlackBalanced(z.focus)
    && PathRedRedFree(z.path, ColorOf(z.focus), false)
    && PathBalanced(z.path, BlackHeight(z.focus)) && RootBlack(z.path)
    && (z.path == [] ==> ColorOf(z.focus) == Black)
  }

  /**
   * The order half: everything before the cursor's subtree is smaller than k,
   * everything after it greater, and the bottom frame lies on the side the
   * last comparison chose.
   */
  ghost predicate DescentOrder(coll: Coll, t: Tree, k: Key, z: Zipper) {
    && Inorder(t) == Before(z.path) + Inorder(z.focus) + After(z.path)
    && (forall e | e in Before(z.path) :: KeyLess(coll, e.key, k))
    && (forall e | e in After(z.path) :: KeyLess(coll, k, e.key))
    && (z.path != [] ==> (z.path[0].side == Left <==> KeyLess(coll, k, z.path[0].entry.key)))
  }

  ghost predicate DescentInv(coll: Coll, t: Tree, k: Key, z: Zipper) {
    DescentShape(t, z) && DescentOrder(coll, t, k, z)
  }

  lemma DescentStart(coll: Coll, t: Tree, k: Key)
    requires IsRedBlack(t)
    ensures DescentInv(coll, t, k, Zipper([], t))
  {
  }

  /** An equal key at the cursor is a stored entry with key k. */
  lemma DescentFound(coll: Coll, t: Tree, k: Key, z: Zipper)
    requires StrictTotal(coll) && DescentInv(coll, t, k, z)
    requires z.focus.Node? && KeyOrder(coll, k, z.focus.entry.key) == 0
    ensures exists e :: e in Inorder(t) && e.key == k
  {
    KeyOrderZeroIff(coll, k, z.focus.entry.key);
    assert z.focus.entry in Inorder(t);
  }

  /** Moving the cursor down keeps the zipper equal to the tree and the red-black properties of the frames. */
  lemma DescentShapeStep(t: Tree, z: Zipper, side: Side)
    requires DescentShape(t, z) && z.focus.Node?
    ensures DescentShape(t, Down(z, side))
  {
    var z' := Down(z, side);
    assert z'.path[1..] == z.path;
    assert PlugFrame(z'.path[0], z'.focus) == z.focus;
  }

  /** In a sorted sequence laid out as a, x, b, c, everything in b is greater than x. */
  lemma SortedGreaterAfter(coll: Coll, s: seq<Entry>, a: seq<Entry>, x: Entry, b: seq<Entry>, c: seq<Entry>)
    requires Sorted(coll, s) && s == a + (([x] + b) + c)
    ensures forall e | e in b :: KeyLess(coll, x.key, e.key)
  {
    assert s[|a|] == x;
    forall e | e in b ensures KeyLess(coll, x.key, e.key) {
      var i :| 0 <= i < |b| && b[i] == e;
      assert s[|a| + 1 + i] == e;
    }
  }

  /** In a sorted sequence laid out as a, b, x, c, d, everything in b is smaller than x. */
  lemma SortedSmallerBefore(coll: Coll, s: seq<Entry>, a: seq<Entry>, b: seq<Entry>, x: Entry, c: seq<Entry>, d: seq<Entry>)
    requires Sorted(coll, s) && s == ((a + (b + [x])) + c) + d
    ensures forall e | e in b :: KeyLess(coll, e.key, x.key)
  {
    assert s[|a| + |b|] == x;
    forall e | e in b ensures KeyLess(coll, e.key, x.key) {
      var i :| 0 <= i < |b| && b[i] == e;
      assert s[|a| + i] == e;
    }
  }

  /** Going left when k orders before the cursor's key keeps the order half. */
  lemma DescentLeft(coll: Coll, t: Tree, k: Key, z: Zipper)
    requires StrictTotal(coll) && Sorted(coll, Inorder(t)) && DescentInv(coll, t, k, z)
    requires z.focus.Node? && KeyOrder(coll, k, z.focus.entry.key) < 0
    ensures DescentInv(coll, t, k, Down(z, Left))
  {
    DescentShapeStep(t, z, Left);
    var p, path, z' := z.focus, z.path, Down(z, Left);
    assert z'.path[1..] == path;
    assert Inorder(t) == Before(z'.path) + Inorder(z'.focus) + After(z'.path) by {
      InorderPlug(z'.path, z'.focus);
    }
    assert Before(z'.path) == Before(path);
    assert After(z'.path) == ([p.entry] + Inorder(p.right)) + After(path);
    assert forall e | e in Inorder(p.right) :: KeyLess(coll, k, e.key) by {
      SortedGreaterAfter(coll, Inorder(t), Before(path) + Inorder(p.left), p.entry, Inorder(p.right), After(path));
      forall e | e in Inorder(p.right) ensures KeyLess(coll, k, e.key) {
        KeyLessTransitive(coll, k, p.entry.key, e.key);
      }
    }
  }

  /** Going right when k orders after the cursor's key keeps the order half. */
  lemma DescentRight(coll: Coll, t: Tree, k: Key, z: Zipper)
    requires StrictTotal(coll) && Sorted(coll, Inorder(t)) && DescentInv(coll, t, k, z)
    requires z.focus.Node? && KeyOrder(coll, k, z.focus.entry.key) > 0
    ensures DescentInv(coll, t, k, Down(z, Right))
  {
    DescentShapeStep(t, z, Right);
    var p, path, z' := z.focus, z.path, Down(z, Right);
    assert z'.path[1..] == path;
    assert Inorder(t) == Before(z'.path) + Inorder(z'.focus) + After(z'.path) by {
      InorderPlug(z'.path, z'.focus);
    }
    assert After(z'.path) == After(path);
    assert Before(z'.path) == Before(path) + (Inorder(p.left) + [p.entry]);
    assert KeyLess(coll, p.entry.key, k) && !KeyLess(coll, k, p.entry.key) by {
      KeyOrderAntisymmetric(coll, p.entry.key, k);
    }
    assert forall e | e in Inorder(p.left) :: KeyLess(coll, e.key, k) by {
      SortedSmallerBefore(coll, Inorder(t), Before(path), Inorder(p.left), p.entry, Inorder(p.right), After(path));
      forall e | e in Inorder(p.left) ensures KeyLess(coll, e.key, k) {
        KeyLessTransitive(coll, e.key, p.entry.key, k);
      }
    }
  }

  /** Reaching a NULL child means no entry has key k, and the cursor is where k belongs. */
  lemma DescentMissed(coll: Coll, t: Tree, k: Key, z: Zipper)
    requires StrictTotal(coll) && DescentInv(coll, t, k, z) && z.focus == Nil
    ensures !exists e :: e in Inorder(t) && e.key == k
    ensures InsertionPoint(coll, t, k, z)
  {
    assert Before(z.path) + Inorder(z.focus) == Before(z.path);
    forall e | e in Inorder(t) ensures e.key != k {
      assert e in Before(z.path) || e in After(z.path);
    }
  }

  /**
   * Hanging a RED leaf with a new entry at the point where its key belongs
   * sets up the fix-up's loop state, and the in-order sequence becomes the
   * old one with the entry inserted at that point, still sorted and keyed.
   */
  lemma InsertionSound(coll: Coll, t: Tree, z: Zipper, e: Entry)
    requires StrictTotal(coll) && Sorted(coll, Inorder(t)) && WellKeyed(Inorder(t))
    requires InsertionPoint(coll, t, e.key, z) && e.key == KeyOf(e.data)
    ensures var z' := Zipper(z.path, Node(Red, Nil, e, Nil));
      var i := |Before(z.path)|;
      && FixInv(z')
      && i <= |Inorder(t)|
      && Inorder(Whole(z')) == Inorder(t)[..i] + [e] + Inorder(t)[i..]
      && Sorted(coll, Inorder(Whole(z')))
      && WellKeyed(Inorder(Whole(z')))
      && (z.path == [] ==> t == Nil)
  {
    var z' := Zipper(z.path, Node(Red, Nil, e, Nil));
    var before, after := Before(z.path), After(z.path);
    PathRedRedFreeExempt(z.path, Black, Red);
    InorderPlug(z.path, z'.focus);
    assert Inorder(z'.focus) == [e];
    assert Inorder(t)[..|before|] == before && Inorder(t)[|before|..] == after;
    InsertKeepsSorted(coll, before, e, after);
  }

  /** The outcome of a write of one string (fprintf of "%s\n") and whether it succeeded. */
  datatype Write = Write(data: string, ok: bool)

  /**
   * _bst_inorder_out_r: write the left subtree, the node's string, then the
   * right subtree.  `ok(i)` is the sink's verdict on the i-th write and
   * `issued` the number of writes made before this subtree; a failed write is
   * reported and the walk goes on.
   */
  function InorderOut(t: Tree, issued: nat, ok: nat -> bool): seq<Write> {
    match t
    case Nil => []
    case Node(_, l, e, r) =>
      InorderOut(l, issued, ok) + [Write(e.data, ok(issued + Size(l)))] + InorderOut(r, issued + Size(l) + 1, ok)
  }

  lemma {:induction false} InorderLength(t: Tree)
    ensures |Inorder(t)| == Size(t)
  {
    match t
    case Nil =>
    case Node(_, l, _, r) =>
      InorderLength(l);
      InorderLength(r);
  }

  /** The walk writes the strings of the in-order sequence, one write each, whatever the writes return. */
  lemma {:induction false} InorderOutLists(t: Tree, issued: nat, ok: nat -> bool)
    ensures |InorderOut(t, issued, ok)| == |Inorder(t)|
    ensures forall i :: 0 <= i < |Inorder(t)| ==>
      InorderOut(t, issued, ok)[i] == Write(Inorder(t)[i].data, ok(issued + i))
  {
    match t
    case Nil =>
    case Node(_, l, e, r) =>
      InorderLength(l);
      InorderOutLists(l, issued, ok);
      InorderOutLists(r, issued + Size(l) + 1, ok);
      var out := InorderOut(t, issued, ok);
      var lo := InorderOut(l, issued, ok);
      forall i | 0 <= i < |Inorder(t)|
        ensures out[i] == Write(Inorder(t)[i].data, ok(issued + i))
      {
        if i < |lo| {
        } else if i == |lo| {
        } else {
          assert out[i] == InorderOut(r, issued + Size(l) + 1, ok)[i - |lo| - 1];
          assert Inorder(t)[i] == Inorder(r)[i - |lo| - 1];
        }
      }
  }

  /**
   * Written out from a sorted, well-keyed tree, the strings come in strictly
   * ascending key_order, each stored string exactly once.
   */
  lemma InorderOutAscending(coll: Coll, t: Tree, ok: nat -> bool)
    requires StrictTotal(coll)
    requires Sorted(coll, Inorder(t)) && WellKeyed(Inorder(t))
    ensures var out := InorderOut(t, 0, ok);
      && |out| == Size(t)
      && (forall i, j :: 0 <= i < j < |out| ==> KeyLess(coll, KeyOf(out[i].data), KeyOf(out[j].data)))
      && (forall i, j :: 0 <= i < j < |out| ==> out[i].data != out[j].data)
      && (forall s :: HasData(t, s) <==> exists i :: 0 <= i < |out| && out[i].data == s)
  {
    var out, s := InorderOut(t, 0, ok), Inorder(t);
    InorderLength(t);
    InorderOutLists(t, 0, ok);
    assert forall i :: 0 <= i < |out| ==> out[i].data == s[i].data && s[i] in s;
    forall i, j | 0 <= i < j < |out| ensures out[i].data != out[j].data {
      KeyOrderZeroIff(coll, s[i].key, s[j].key);
    }
    forall str | HasData(t, str) ensures exists i :: 0 <= i < |out| && out[i].data == str {
      var e :| e in s && e.data == str;
      var i :| 0 <= i < |s| && s[i] == e;
      assert out[i].data == str;
    }
  }

  /** The tree handle: the root of the sort tree, ordered by strcoll through `coll`. */
  class SortTree {
    const coll: Coll
    var root: Tree

    /** A red-black tree, sorted strictly by key_order, each entry keyed by its own string. */
    ghost predicate Valid()
      reads this
    {
      && StrictTotal(coll)
      && IsRedBlack(root)
      && Sorted(coll, Inorder(root))
      && WellKeyed(Inorder(root))
    }

    /** bst_init: an empty tree. */
    constructor (coll: Coll)
      requires StrictTotal(coll)
      ensures Valid() && this.coll == coll && root == Nil
    {
      this.coll := coll;
      root := Nil;
    }

    /**
     * The descent of bst_add_node: from the root, go left while the new key
     * orders before the node's and right while after, until a NULL child or
     * an equal key.
     */
    method Descend(k: Key) returns (found: bool, z: Zipper)
      requires Valid()
      ensures found <==> exists e :: e in Inorder(root) && e.key == k
      ensures !found ==> InsertionPoint(coll, root, k, z)
    {
      z := Zipper([], root);
      DescentStart(coll, root, k);
      while z.focus.Node?
        invariant DescentInv(coll, root, k, z)
        decreases z.focus
      {
        var ret := KeyOrder(coll, k, z.focus.entry.key);
        if ret == 0 {
          DescentFound(coll, root, k, z);
          return true, z;
        }
        if ret < 0 {
          DescentLeft(coll, root, k, z);
          z := Down(z, Left);
        } else {
          DescentRight(coll, root, k, z);
          z := Down(z, Right);
        }
      }
      found := false;
      DescentMissed(coll, root, k, z);
    }

    /**
     * bst_add_node: insert the string s.  `allocs` are the verdicts on
     * make_key's allocations and `nodeAllocOk` the verdict on the new node.
     * Returns 0 on success, 1 when s is already stored and -1 when an
     * allocation failed; the tree changes only on success.
     */
    method AddNode(s: string, allocs: KeyAllocs, nodeAllocOk: bool) returns (r: int)
      requires Valid()
      modifies this
      ensures Valid()
      ensures r == 1 <==> AllOk(allocs) && HasData(old(root), s)
      ensures r == -1 <==> !AllOk(allocs) || (!HasData(old(root), s) && !nodeAllocOk)
      ensures r == 0 <==> AllOk(allocs) && !HasData(old(root), s) && nodeAllocOk
      ensures r != 0 ==> root == old(root)
      ensures r == 0 ==> exists i :: 0 <= i <= |old(Inorder(root))| &&
                           Inorder(root) == old(Inorder(root))[..i] + [Entry(s, KeyOf(s))] + old(Inorder(root))[i..]
      ensures r == 0 && old(root) == Nil ==> root == Node(Black, Nil, Entry(s, KeyOf(s)), Nil)
    {
      HasDataIffKey(root, s);
      var key := MakeKey(s, allocs);
      if key.None? {
        return -1;
      }
      var k := key.value;
      var found, z := Descend(k);
      if found {
        return 1;
      }
      var e := Entry(s, k);
      InsertionSound(coll, root, z, e);
      if z.path == [] {
        // q == NULL: the tree is empty and the new node becomes its BLACK root.
        if !nodeAllocOk {
          return -1;
        }
        root := Node(Black, Nil, e, Nil);
        assert Inorder(root) == old(Inorder(root))[..0] + [e] + old(Inorder(root))[0..];
        return 0;
      }
      if !nodeAllocOk {
        return -1;
      }
      // A RED leaf under the last node visited, on the side of the last comparison.
      var z' := Zipper(z.path, Node(Red, Nil, e, Nil));
      root := Whole(z');
      FixOrder(z');
      r := 0;
    }

    /**
     * _bst_fix_order: restore the red-black properties after the RED node at
     * the zipper's focus was linked in, by recolouring and rotating on the way
     * up, then colour a RED root BLACK.
     */
    method FixOrder(z0: Zipper)
      requires root == Whole(z0) && FixInv(z0)
      modifies this
      ensures IsRedBlack(root) && Inorder(root) == Inorder(Whole(z0))
    {
      var z := z0;
      while z.path != [] && z.path[0].color == Red
        invariant root == Whole(z)
        invariant FixInv(z) && Inorder(Whole(z)) == Inorder(Whole(z0))
        decreases |z.path|
      {
        RedParentHasBlackGrandparent(z);
        if z.path[1].side == Left {
          // The parent is a left child; the uncle is the grandparent's right child.
          var q := z.path[1].sibling;
          if q.Node? && q.color == Red {
            RecolorUncleSound(z);
            z := RecolorUncle(z);
          } else {
            if z.path[0].side == Right {
              RotateAtParentSound(z);
              z := RotateAtParent(z);
            }
            RotateAtGrandparentSound(z);
            z := RotateAtGrandparent(z);
          }
        } else {
          // The parent is a right child; the uncle is the grandparent's left child.
          var q := z.path[1].sibling;
          if q.Node? && q.color == Red {
            RecolorUncleSound(z);
            z := RecolorUncle(z);
          } else {
            if z.path[0].side == Left {
              RotateAtParentSound(z);
              z := RotateAtParent(z);
            }
            RotateAtGrandparentSound(z);
            z := RotateAtGrandparent(z);
          }
        }
        root := Whole(z);
      }
      FixOrderDone(z);
      if z.path == [] && z.focus.color == Red {
        z := z.(focus := z.focus.(color := Black));
        root := Whole(z);
      }
    }

    /** bst_inorder_out: the writes the in-order walk makes. */
    function Output(ok: nat -> bool): seq<Write>
      reads this
    {
      InorderOut(root, 0, ok)
    }

    /** bst_delete_tree_ddata and bst_delete_tree_sdata: release every node; the tree is empty. */
    method DeleteTree()
      requires Valid()
      modifies this
      ensures Valid() && root == Nil
    {
      root := Nil;
    }
  }

  /** bst_init with the allocator's verdict on the handle: NULL on failure, otherwise an empty tree. */
  method BstInit(coll: Coll, allocOk: bool) returns (t: SortTree?)
    requires StrictTotal(coll)
    ensures allocOk <==> t != null
    ensures t != null ==> fresh(t) && t.Valid() && t.coll == coll && t.root == Nil
  {
    if !allocOk {
      return null;
    }
    t := new SortTree(coll);
  }
}
