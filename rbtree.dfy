/**
 * The shape of the sort tree of autotools/bst.c as values: nodes with a colour,
 * two children and an entry (the stored string and its key), the red-black
 * properties, the two rotations, and a zipper that stands for the parent
 * links the C nodes keep.  A zipper is a focus subtree together with the path
 * of frames from its parent up to the root; plugging the focus back into the
 * path gives the whole tree.  The cursor `n` of the insert fix-up is the focus.
 */
module RbTree {
  import opened Collation

  /** BLACK is 0 and RED is 1 in the source. */
  datatype Color = Black | Red

  /** A node's payload: the stored string (data) and the key built from it. */
  datatype Entry = Entry(data: string, key: Key)

  datatype Tree = Nil | Node(color: Color, left: Tree, entry: Entry, right: Tree)

  /** NULL counts as a black node. */
  function ColorOf(t: Tree): Color {
    if t.Nil? then Black else t.color
  }

  function Inorder(t: Tree): seq<Entry> {
    match t
    case Nil => []
    case Node(_, l, e, r) => Inorder(l) + [e] + Inorder(r)
  }

  function Size(t: Tree): nat {
    match t
    case Nil => 0
    case Node(_, l, _, r) => Size(l) + 1 + Size(r)
  }

  // ---------------------------------------------------------------------------
  // Orders and the red-black properties
  // ---------------------------------------------------------------------------

  /** The entries are in strictly ascending key_order. */
  predicate Sorted(coll: Coll, s: seq<Entry>) {
    forall i, j :: 0 <= i < j < |s| ==> KeyLess(coll, s[i].key, s[j].key)
  }

  /** Every entry carries the key its string produces. */
  predicate WellKeyed(s: seq<Entry>) {
    forall e | e in s :: e.key == KeyOf(e.data)
  }

  /** No RED node has a RED child. */
  predicate RedRedFree(t: Tree) {
    match t
    case Nil => true
    case Node(c, l, _, r) =>
      && RedRedFree(l) && RedRedFree(r)
      && (c == Red ==> ColorOf(l) == Black && ColorOf(r) == Black)
  }

  /** The number of BLACK nodes on the leftmost root-to-NULL path, NULL included. */
  function BlackHeight(t: Tree): nat {
    match t
    case Nil => 1
    case Node(c, l, _, _) => BlackHeight(l) + (if c == Black then 1 else 0)
  }

  /** At every node both subtrees have the same black height. */
  predicate BlackBalanced(t: Tree) {
    match t
    case Nil => true
    case Node(_, l, _, r) => BlackBalanced(l) && BlackBalanced(r) && BlackHeight(l) == BlackHeight(r)
  }

  /** The three properties the insert fix-up restores. */
  predicate IsRedBlack(t: Tree) {
    RedRedFree(t) && BlackBalanced(t) && ColorOf(t) == Black
  }

  // A root-to-NULL path, given as the sequence of turns taken.

  datatype Side = Left | Right

  function Child(t: Tree, side: Side): Tree
    requires t.Node?
  {
    if side == Left then t.left else t.right
  }

  /** Following `turns` from the root of t ends exactly at a NULL child. */
  predicate EndsAtNil(t: Tree, turns: seq<Side>)
    decreases |turns|
  {
    if t.Nil? then turns == [] else turns != [] && EndsAtNil(Child(t, turns[0]), turns[1..])
  }

  /** The BLACK nodes met along `turns`, the final NULL included. */
  function BlacksAlong(t: Tree, turns: seq<Side>): nat
    decreases |turns|
  {
    if t.Nil? || turns == [] then 1
    else (if t.color == Black then 1 else 0) + BlacksAlong(Child(t, turns[0]), turns[1..])
  }

  /** In a black-balanced tree every root-to-NULL path meets the same number of BLACK nodes. */
  lemma {:induction false} BalancedPathsAgree(t: Tree, turns: seq<Side>)
    requires BlackBalanced(t) && EndsAtNil(t, turns)
    ensures BlacksAlong(t, turns) == BlackHeight(t)
    decreases |turns|
  {
    if t.Node? {
      BalancedPathsAgree(Child(t, turns[0]), turns[1..]);
    }
  }

  // ---------------------------------------------------------------------------
  // Rotations
  // ---------------------------------------------------------------------------

  /**
   * _bst_left_rotate at the root of t: the right child q takes t's place, t
   * becomes q's left child and q's old left subtree becomes t's right one.
   * Every node keeps its colour.  The source asserts that q exists.
   */
  function RotateLeft(t: Tree): (r: Tree)
    requires t.Node? && t.right.Node?
    ensures r.Node? && r.left.Node?
    ensures Inorder(r) == Inorder(t)
  {
    var q := t.right;
    Node(q.color, Node(t.color, t.left, t.entry, q.left), q.entry, q.right)
  }

  /** _bst_right_rotate, the mirror image of RotateLeft. */
  function RotateRight(t: Tree): (r: Tree)
    requires t.Node? && t.left.Node?
    ensures r.Node? && r.right.Node?
    ensures Inorder(r) == Inorder(t)
  {
    var q := t.left;
    Node(q.color, q.left, q.entry, Node(t.color, q.right, t.entry, t.right))
  }

  /** A right rotation undoes a left rotation and vice versa. */
  lemma RotationsInverse(t: Tree)
    ensures t.Node? && t.right.Node? ==> RotateRight(RotateLeft(t)) == t
    ensures t.Node? && t.left.Node? ==> RotateLeft(RotateRight(t)) == t
  {
  }

  // ---------------------------------------------------------------------------
  // The zipper: parent links as a path of frames
  // ---------------------------------------------------------------------------

  /** A parent node seen from one child: the side the child hangs on, the parent's colour and entry, and the other child. */
  datatype Frame = Frame(side: Side, color: Color, entry: Entry, sibling: Tree)

  /** The subtree rooted at a focus node: its path[0] is the parent, the last frame the root. */
  datatype Zipper = Zipper(path: seq<Frame>, focus: Tree)

  /** Hang t under the parent described by f. */
  function PlugFrame(f: Frame, t: Tree): Tree {
    match f.side
    case Left => Node(f.color, t, f.entry, f.sibling)
    case Right => Node(f.color, f.sibling, f.entry, t)
  }

  /** The whole tree: the focus plugged back into every frame of the path. */
  function Plug(path: seq<Frame>, t: Tree): Tree
    decreases |path|
  {
    if path == [] then t else Plug(path[1..], PlugFrame(path[0], t))
  }

  function Whole(z: Zipper): Tree {
    Plug(z.path, z.focus)
  }

  /** The entries of the whole tree that come before the focus in order. */
  function Before(path: seq<Frame>): seq<Entry>
    decreases |path|
  {
    if path == [] then []
    else Before(path[1..]) + (if path[0].side == Right then Inorder(path[0].sibling) + [path[0].entry] else [])
  }

  /** The entries of the whole tree that come after the focus in order. */
  function After(path: seq<Frame>): seq<Entry>
    decreases |path|
  {
    if path == [] then []
    else (if path[0].side == Left then [path[0].entry] + Inorder(path[0].sibling) else []) + After(path[1..])
  }

  /** The in-order sequence of the whole tree is what lies before the focus, the focus, and what lies after. */
  lemma {:induction false} InorderPlug(path: seq<Frame>, t: Tree)
    ensures Inorder(Plug(path, t)) == Before(path) + Inorder(t) + After(path)
    decreases |path|
  {
    if path != [] {
      InorderPlug(path[1..], PlugFrame(path[0], t));
    }
  }

  /** Replacing the focus by a subtree with the same in-order sequence keeps the whole tree's. */
  lemma PlugKeepsInorder(path: seq<Frame>, a: Tree, b: Tree)
    requires Inorder(a) == Inorder(b)
    ensures Inorder(Plug(path, a)) == Inorder(Plug(path, b))
  {
    InorderPlug(path, a);
    InorderPlug(path, b);
  }

  /**
   * A rotation done in place, below the parent and in the position of the
   * rotated node (or as the new root when it had no parent), leaves the
   * in-order sequence of the whole tree as it was.
   */
  lemma RotationInPlaceKeepsInorder(path: seq<Frame>, t: Tree)
    ensures t.Node? && t.right.Node? ==> Inorder(Plug(path, RotateLeft(t))) == Inorder(Plug(path, t))
    ensures t.Node? && t.left.Node? ==> Inorder(Plug(path, RotateRight(t))) == Inorder(Plug(path, t))
  {
    if t.Node? && t.right.Node? {
      PlugKeepsInorder(path, RotateLeft(t), t);
    }
    if t.Node? && t.left.Node? {
      PlugKeepsInorder(path, RotateRight(t), t);
    }
  }

  /** Two frames at once: the focus's parent and grandparent. */
  lemma PlugTwo(path: seq<Frame>, t: Tree)
    requires |path| >= 2
    ensures Plug(path, t) == Plug(path[2..], PlugFrame(path[1], PlugFrame(path[0], t)))
  {
    assert path[1..][1..] == path[2..];
  }

  // ---------------------------------------------------------------------------
  // The red-black properties along a path
  // ---------------------------------------------------------------------------

  /**
   * The frames keep the no-red-red rule for a plugged child of colour
   * `childColor`, except that the bottom frame may be RED above a RED child
   * when `exempt` holds (the one violation the fix-up allows).
   */
  predicate PathRedRedFree(path: seq<Frame>, childColor: Color, exempt: bool)
    decreases |path|
  {
    path == [] ||
    (&& RedRedFree(path[0].sibling)
     && (path[0].color == Red ==> ColorOf(path[0].sibling) == Black && (exempt || childColor == Black))
     && PathRedRedFree(path[1..], path[0].color, false))
  }

  /** Every sibling on the path is balanced with the black height of the subtree it stands beside, which is h at the bottom. */
  predicate PathBalanced(path: seq<Frame>, h: nat)
    decreases |path|
  {
    path == [] ||
    (&& BlackBalanced(path[0].sibling) && BlackHeight(path[0].sibling) == h
     && PathBalanced(path[1..], h + (if path[0].color == Black then 1 else 0)))
  }

  /** The root frame, when there is one, is BLACK. */
  predicate RootBlack(path: seq<Frame>) {
    path != [] ==> path[|path| - 1].color == Black
  }

  /** Without the exemption any child colour may be allowed at the bottom once the exemption is granted. */
  lemma PathRedRedFreeExempt(path: seq<Frame>, c: Color, c': Color)
    requires PathRedRedFree(path, c, false)
    ensures PathRedRedFree(path, c', true)
  {
  }

  lemma {:induction false} PlugRedRedFree(path: seq<Frame>, t: Tree)
    requires RedRedFree(t) && PathRedRedFree(path, ColorOf(t), false)
    ensures RedRedFree(Plug(path, t))
    decreases |path|
  {
    if path != [] {
      PlugRedRedFree(path[1..], PlugFrame(path[0], t));
    }
  }

  lemma {:induction false} PlugBalanced(path: seq<Frame>, t: Tree)
    requires BlackBalanced(t) && PathBalanced(path, BlackHeight(t))
    ensures BlackBalanced(Plug(path, t))
    decreases |path|
  {
    if path != [] {
      PlugBalanced(path[1..], PlugFrame(path[0], t));
    }
  }

  lemma {:induction false} PlugColor(path: seq<Frame>, t: Tree)
    requires path != []
    ensures ColorOf(Plug(path, t)) == path[|path| - 1].color
    decreases |path|
  {
    if |path| > 1 {
      PlugColor(path[1..], PlugFrame(path[0], t));
    }
  }

  // ---------------------------------------------------------------------------
  // The steps of the insert fix-up (_bst_fix_order) on the zipper
  // ---------------------------------------------------------------------------

  /**
   * The state the fix-up loop keeps: the cursor n is a RED node, its subtree
   * is red-black apart from the colour of its root, the only RED node allowed
   * a RED child is n's parent, black heights agree along the path, and the
   * root is BLACK unless n is the root.
   */
  predicate FixInv(z: Zipper) {
    && z.focus.Node? && z.focus.color == Red
    && RedRedFree(z.focus) && BlackBalanced(z.focus)
    && PathRedRedFree(z.path, Red, true)
    && PathBalanced(z.path, BlackHeight(z.focus))
    && RootBlack(z.path)
  }

  /** The uncle of the cursor is RED. */
  predicate UncleRed(z: Zipper)
    requires |z.path| >= 2
  {
    ColorOf(z.path[1].sibling) == Red
  }

  /** Case 1: parent and uncle turn BLACK, the grandparent RED, and the cursor moves up to it. */
  function RecolorUncle(z: Zipper): Zipper
    requires |z.path| >= 2 && z.path[1].sibling.Node?
  {
    var parent := z.path[0].(color := Black);
    var grand := z.path[1].(color := Red, sibling := z.path[1].sibling.(color := Black));
    Zipper(z.path[2..], PlugFrame(grand, PlugFrame(parent, z.focus)))
  }

  /**
   * Case 2: the cursor is the inner grandchild; rotate at the parent (left when
   * the cursor is a right child, right otherwise) and move the cursor to the
   * old parent, which the rotation made its child on the outer side.
   */
  function RotateAtParent(z: Zipper): Zipper
    requires z.path != [] && z.focus.Node?
  {
    var t := PlugFrame(z.path[0], z.focus);
    if z.path[0].side == Right then
      var r := RotateLeft(t);
      Zipper([Frame(Left, r.color, r.entry, r.right)] + z.path[1..], r.left)
    else
      var r := RotateRight(t);
      Zipper([Frame(Right, r.color, r.entry, r.left)] + z.path[1..], r.right)
  }

  /**
   * Case 3: the cursor is the outer grandchild; the parent turns BLACK, the
   * grandparent RED, and the grandparent is rotated away from the cursor's
   * side, so the parent takes its place while the cursor stays put.
   */
  function RotateAtGrandparent(z: Zipper): Zipper
    requires |z.path| >= 2 && z.focus.Node? && z.path[0].side == z.path[1].side
  {
    var parent := z.path[0].(color := Black);
    var grand := z.path[1].(color := Red);
    var t := PlugFrame(grand, PlugFrame(parent, z.focus));
    if grand.side == Left then
      var r := RotateRight(t);
      Zipper([Frame(Left, r.color, r.entry, r.right)] + z.path[2..], r.left)
    else
      var r := RotateLeft(t);
      Zipper([Frame(Right, r.color, r.entry, r.left)] + z.path[2..], r.right)
  }

  /** A RED parent is not the root, so the cursor has a grandparent, and that grandparent is BLACK. */
  lemma RedParentHasBlackGrandparent(z: Zipper)
    requires FixInv(z) && z.path != [] && z.path[0].color == Red
    ensures |z.path| >= 2 && z.path[1].color == Black
  {
    assert PathRedRedFree(z.path[1..], Red, false);
    assert z.path[1..][0] == z.path[1];
  }

  /** Case 1 keeps the loop state, keeps the in-order sequence, and moves two levels up. */
  lemma {:induction false} RecolorUncleSound(z: Zipper)
    requires FixInv(z) && |z.path| >= 2 && z.path[0].color == Red && UncleRed(z)
    ensures FixInv(RecolorUncle(z))
    ensures Inorder(Whole(RecolorUncle(z))) == Inorder(Whole(z))
    ensures |RecolorUncle(z).path| == |z.path| - 2
  {
    RedParentHasBlackGrandparent(z);
    var path, n := z.path, z.focus;
    var z' := RecolorUncle(z);
    assert path[1..][1..] == path[2..];
    assert PathRedRedFree(path[1..], Red, false);
    assert PathRedRedFree(path[2..], Black, false);
    PathRedRedFreeExempt(path[2..], Black, Red);
    var h := BlackHeight(n);
    assert PathBalanced(path[1..], h);
    assert BlackHeight(z'.focus) == h + 1;
    PlugTwo(path, n);
    PlugKeepsInorder(path[2..], z'.focus, PlugFrame(path[1], PlugFrame(path[0], n)));
  }

  /** Case 2 keeps the loop state and the in-order sequence and turns the cursor into the outer grandchild. */
  lemma {:induction false} RotateAtParentSound(z: Zipper)
    requires FixInv(z) && |z.path| >= 2 && z.path[0].color == Red && !UncleRed(z)
    requires z.path[0].side != z.path[1].side
    ensures FixInv(RotateAtParent(z))
    ensures Inorder(Whole(RotateAtParent(z))) == Inorder(Whole(z))
    ensures var z' := RotateAtParent(z);
      && |z'.path| == |z.path| && z'.path[1..] == z.path[1..]
      && z'.path[0].color == Red && z'.path[0].side == z.path[1].side
  {
    RedParentHasBlackGrandparent(z);
    var path, n := z.path, z.focus;
    var z' := RotateAtParent(z);
    assert z'.path[1..] == path[1..];
    assert PathRedRedFree(path[1..], Red, false);
    var t := PlugFrame(path[0], n);
    if path[0].side == Right {
      RotationInPlaceKeepsInorder(path[1..], t);
      assert Plug(z'.path, z'.focus) == Plug(path[1..], RotateLeft(t));
    } else {
      RotationInPlaceKeepsInorder(path[1..], t);
      assert Plug(z'.path, z'.focus) == Plug(path[1..], RotateRight(t));
    }
  }

  /** Case 3 keeps the loop state and the in-order sequence, moves one level up and leaves the cursor under a BLACK parent. */
  lemma {:induction false} RotateAtGrandparentSound(z: Zipper)
    requires FixInv(z) && |z.path| >= 2 && z.path[0].color == Red && !UncleRed(z)
    requires z.path[0].side == z.path[1].side
    ensures FixInv(RotateAtGrandparent(z))
    ensures Inorder(Whole(RotateAtGrandparent(z))) == Inorder(Whole(z))
    ensures var z' := RotateAtGrandparent(z);
      |z'.path| == |z.path| - 1 && z'.path[0].color == Black
  {
    RedParentHasBlackGrandparent(z);
    var path, n := z.path, z.focus;
    var z' := RotateAtGrandparent(z);
    assert path[1..][1..] == path[2..];
    assert z'.path[1..] == path[2..];
    assert PathRedRedFree(path[1..], Red, false);
    assert PathRedRedFree(path[2..], Black, false);
    var h := BlackHeight(n);
    assert PathBalanced(path[1..], h);
    assert PathBalanced(path[2..], h + 1);
    assert z'.focus == n;
    if path[2..] == [] {
      assert RootBlack(z'.path);
    } else {
      assert z'.path[|z'.path| - 1] == path[|path| - 1];
    }
    var parent := path[0].(color := Black);
    var grand := path[1].(color := Red);
    var t := PlugFrame(grand, PlugFrame(parent, n));
    PlugTwo(path, n);
    PlugKeepsInorder(path[2..], t, PlugFrame(path[1], PlugFrame(path[0], n)));
    RotationInPlaceKeepsInorder(path[2..], t);
    if grand.side == Left {
      assert Plug(z'.path, z'.focus) == Plug(path[2..], RotateRight(t));
    } else {
      assert Plug(z'.path, z'.focus) == Plug(path[2..], RotateLeft(t));
    }
  }

  /**
   * When the loop stops (no parent, or a BLACK parent) and a RED cursor at the
   * root is recoloured BLACK, the whole tree is red-black.
   */
  lemma FixOrderDone(z: Zipper)
    requires FixInv(z) && (z.path == [] || z.path[0].color == Black)
    ensures z.path == [] ==> IsRedBlack(z.focus.(color := Black))
    ensures z.path != [] ==> IsRedBlack(Whole(z))
  {
    if z.path != [] {
      assert PathRedRedFree(z.path, Red, false);
      PlugRedRedFree(z.path, z.focus);
      PlugBalanced(z.path, z.focus);
      PlugColor(z.path, z.focus);
    }
  }
}
