/**
 * find_src/expression.c: an expression is the program state plus a linked
 * list of primary nodes, all joined by an implicit "and".  The list is the
 * sequence of its nodes' (primary, argument) pairs in list order; every
 * append walks to the tail, and deletion leaves the expression without
 * nodes.
 *
 * The outcomes of the outside world are parameters: nodeAllocOk(p) and
 * argAllocOk(p) are malloc's verdicts for the node, and for the argument
 * storage, of the primary whose name is at position p of the vector;
 * statOf is stat's answer for a path; clock is clock_gettime's seconds.
 */
module FindExpression {
  import opened Base
  import opened CString
  import opened FindCommon
  import opened FindPrimParse
  import opened FindPrimEval

  /** expr_err. */
  datatype ExprErr = ErrNone | ErrMalloc | ErrState | ErrPrimary | ErrNoArg | ErrArg

  /** A primary_node without its link: the primary and its parsed argument. */
  datatype PrimaryNode = PrimaryNode(primary: int, arg: PrimaryArg)

  /** A node primary_evaluate can evaluate without aborting. */
  predicate NodeValid(n: PrimaryNode) {
    0 <= n.primary < PRIMARY_NUM && ArgFits(PRIMARY_ARG_TYPE_MAP[n.primary], n.arg)
    && (n.arg.ArgvArg? ==> IsArgv(n.arg.argv))
  }

  /** The vector entries a node's name and argument occupy. */
  function NodeWidth(n: PrimaryNode): nat {
    1 + ArgWidth(n.arg)
  }

  function TotalWidth(nodes: seq<PrimaryNode>): nat {
    if nodes == [] then 0 else NodeWidth(nodes[0]) + TotalWidth(nodes[1..])
  }

  // ---------------------------------------------------------------------------
  // expression_create_primary.
  // ---------------------------------------------------------------------------

  /** What expression_create_primary returns: the error, the node on success, and the cursor afterwards. */
  datatype Created = Created(ret: ExprErr, node: Option<PrimaryNode>, cursor: nat)

  /**
   * expression_create_primary for the name primaryStr with its arguments
   * from cursor on: the node allocation, then the name, then an argument
   * must be present, then it must parse.  On success the node holds a valid
   * primary and the cursor has moved past exactly its argument; on failure
   * the error names the first step that failed and the cursor is unmoved.
   */
  function CreatePrimaryResult(primaryStr: string, args: seq<string>, cursor: nat, nodeAllocOk: bool, argAllocOk: bool,
                               statOf: string -> Option<Stat>): (r: Created)
    requires IsArgv(args) && cursor <= |args| && '\0' !in primaryStr
    ensures r.ret == ErrNone <==> r.node.Some?
    ensures r.ret != ErrState
    ensures r.node.Some? ==> NodeValid(r.node.value) && r.cursor == cursor + ArgWidth(r.node.value.arg) <= |args|
    ensures r.node.Some? ==> PrimaryOf(primaryStr, 0) == Some(r.node.value.primary)
    ensures r.ret != ErrNone ==> r.cursor == cursor
    ensures r.ret == ErrMalloc <==> !nodeAllocOk
    ensures r.ret == ErrPrimary <==> nodeAllocOk && PrimaryOf(primaryStr, 0).None?
    ensures r.ret == ErrNoArg <==> nodeAllocOk && PrimaryOf(primaryStr, 0).Some? && cursor == |args|
    ensures r.ret == ErrArg <==> nodeAllocOk && PrimaryOf(primaryStr, 0).Some? && cursor < |args|
                                 && ArgParseResult(PrimaryOf(primaryStr, 0).value, Unset, args, cursor, argAllocOk, statOf).ret < 0
    ensures r.node.Some? ==> cursor < |args|
                             && var a := ArgParseResult(r.node.value.primary, Unset, args, cursor, argAllocOk, statOf);
                                a.ret == 0 && r.node.value.arg == a.arg && r.cursor == a.cursor
  {
    if !nodeAllocOk then Created(ErrMalloc, None, cursor)
    else match PrimaryOf(primaryStr, 0)
      case None => Created(ErrPrimary, None, cursor)
      case Some(p) =>
        if cursor == |args| then Created(ErrNoArg, None, cursor)
        else
          ParsedArgvIsArgv(p, args, cursor, argAllocOk, statOf);
          var a := ArgParseResult(p, Unset, args, cursor, argAllocOk, statOf);
          if a.ret < 0 then Created(ErrArg, None, cursor)
          else Created(ErrNone, Some(PrimaryNode(p, a.arg)), a.cursor)
  }

  /** The -exec vectors a parse stores are C strings, being taken from the vector. */
  lemma ParsedArgvIsArgv(p: int, args: seq<string>, cursor: nat, argAllocOk: bool, statOf: string -> Option<Stat>)
    requires IsArgv(args) && 0 <= p < PRIMARY_NUM && cursor < |args|
    ensures var a := ArgParseResult(p, Unset, args, cursor, argAllocOk, statOf);
            a.ret == 0 && a.arg.ArgvArg? ==> IsArgv(a.arg.argv)
  {
    var a := ArgParseResult(p, Unset, args, cursor, argAllocOk, statOf);
    if a.ret == 0 && a.arg.ArgvArg? {
      GetArgArgvCopies(Unset, args, cursor, argAllocOk);
    }
  }

  /** expression_create_primary. */
  method CreatePrimary(primaryStr: string, args: seq<string>, cursor: nat, nodeAllocOk: bool, argAllocOk: bool,
                       statOf: string -> Option<Stat>) returns (r: Created)
    requires IsArgv(args) && cursor <= |args| && '\0' !in primaryStr
    ensures r == CreatePrimaryResult(primaryStr, args, cursor, nodeAllocOk, argAllocOk, statOf)
  {
    if !nodeAllocOk {
      return Created(ErrMalloc, None, cursor);
    }
    var parsed, primary := PrimaryParse(PRIMARY_NUM, primaryStr);
    if parsed < 0 {
      r := Created(ErrPrimary, None, cursor);
    } else if cursor == |args| {
      r := Created(ErrNoArg, None, cursor);
    } else {
      var a := PrimaryArgParse(primary, Unset, args, cursor, argAllocOk, statOf);
      if a.ret < 0 {
        r := Created(ErrArg, None, cursor);
      } else {
        r := Created(ErrNone, Some(PrimaryNode(primary, a.arg)), a.cursor);
      }
    }
  }

  // ---------------------------------------------------------------------------
  // The loop of expression_create.
  // ---------------------------------------------------------------------------

  /**
   * The nodes expression_create builds from the names and arguments of
   * args from position pos on, or the first error with no nodes left.
   * Success builds only valid nodes, and they account for every remaining
   * entry of the vector.
   */
  function CreateFrom(args: seq<string>, pos: nat, nodeAllocOk: nat -> bool, argAllocOk: nat -> bool,
                      statOf: string -> Option<Stat>): (r: (ExprErr, seq<PrimaryNode>))
    requires IsArgv(args) && pos <= |args|
    ensures r.0 != ErrState
    ensures r.0 != ErrNone ==> r.1 == []
    ensures r.0 == ErrNone ==> forall k :: 0 <= k < |r.1| ==> NodeValid(r.1[k])
    decreases |args| - pos
  {
    if pos == |args| then (ErrNone, [])
    else
      var c := CreatePrimaryResult(args[pos], args, pos + 1, nodeAllocOk(pos), argAllocOk(pos), statOf);
      if c.ret != ErrNone then (c.ret, [])
      else
        var rest := CreateFrom(args, c.cursor, nodeAllocOk, argAllocOk, statOf);
        if rest.0 == ErrNone then (ErrNone, [c.node.value] + rest.1) else (rest.0, [])
  }

  /**
   * A successful creation consumes the whole vector: each node's name and
   * argument entries, in order, add up to the entries from pos on; and the
   * first node is the primary named at pos.
   */
  lemma {:induction false} CreateFromConsumesAll(args: seq<string>, pos: nat, nodeAllocOk: nat -> bool, argAllocOk: nat -> bool,
                                                 statOf: string -> Option<Stat>)
    requires IsArgv(args) && pos <= |args|
    ensures var r := CreateFrom(args, pos, nodeAllocOk, argAllocOk, statOf);
            r.0 == ErrNone ==> TotalWidth(r.1) == |args| - pos
    ensures var r := CreateFrom(args, pos, nodeAllocOk, argAllocOk, statOf);
            r.0 == ErrNone && pos < |args| ==> |r.1| > 0 && PrimaryOf(args[pos], 0) == Some(r.1[0].primary)
    decreases |args| - pos
  {
    if pos < |args| {
      var c := CreatePrimaryResult(args[pos], args, pos + 1, nodeAllocOk(pos), argAllocOk(pos), statOf);
      if c.ret == ErrNone {
        CreateFromConsumesAll(args, c.cursor, nodeAllocOk, argAllocOk, statOf);
        var r := CreateFrom(args, pos, nodeAllocOk, argAllocOk, statOf);
        if r.0 == ErrNone {
          assert r.1[1..] == CreateFrom(args, c.cursor, nodeAllocOk, argAllocOk, statOf).1;
        }
      }
    }
  }

  // ---------------------------------------------------------------------------
  // The loop of expression_create as a chain of expression_create_primary calls.
  // ---------------------------------------------------------------------------

  /** The call expression_create makes for the name at position q of the vector, as a function of q. */
  function StepAt(args: seq<string>, nodeAllocOk: nat -> bool, argAllocOk: nat -> bool, statOf: string -> Option<Stat>): nat -> Created {
    (q: nat) => if IsArgv(args) && q < |args| then CreatePrimaryResult(args[q], args, q + 1, nodeAllocOk(q), argAllocOk(q), statOf)
         else Created(ErrNoArg, None, q)
  }

  /** Every successful call below n yields a node and moves the cursor forward, at most to n. */
  predicate Advances(step: nat -> Created, n: nat) {
    forall q: nat :: q < n && step(q).ret == ErrNone ==> step(q).node.Some? && q < step(q).cursor <= n
  }

  /** The calls' verdicts satisfy that. */
  lemma StepAtAdvances(args: seq<string>, nodeAllocOk: nat -> bool, argAllocOk: nat -> bool, statOf: string -> Option<Stat>)
    requires IsArgv(args)
    ensures Advances(StepAt(args, nodeAllocOk, argAllocOk, statOf), |args|)
  {
    var step := StepAt(args, nodeAllocOk, argAllocOk, statOf);
    forall q: nat | q < |args| && step(q).ret == ErrNone
      ensures step(q).node.Some? && q < step(q).cursor <= |args|
    {
      assert step(q) == CreatePrimaryResult(args[q], args, q + 1, nodeAllocOk(q), argAllocOk(q), statOf);
    }
  }

  /** The loop over any such sequence of calls: the nodes, or the first error with no nodes kept. */
  function Loop(step: nat -> Created, n: nat, pos: nat): (r: (ExprErr, seq<PrimaryNode>))
    requires Advances(step, n) && pos <= n
    ensures r.0 != ErrNone ==> r.1 == []
    decreases n - pos
  {
    if pos == n then (ErrNone, [])
    else if step(pos).ret != ErrNone then (step(pos).ret, [])
    else
      var rest := Loop(step, n, step(pos).cursor);
      if rest.0 == ErrNone then (ErrNone, [step(pos).node.value] + rest.1) else (rest.0, [])
  }

  /** The creation loop is that loop over the calls of expression_create_primary. */
  lemma {:induction false} CreateFromIsLoop(args: seq<string>, pos: nat, nodeAllocOk: nat -> bool, argAllocOk: nat -> bool,
                                            statOf: string -> Option<Stat>)
    requires IsArgv(args) && pos <= |args|
    ensures Advances(StepAt(args, nodeAllocOk, argAllocOk, statOf), |args|)
    ensures CreateFrom(args, pos, nodeAllocOk, argAllocOk, statOf) == Loop(StepAt(args, nodeAllocOk, argAllocOk, statOf), |args|, pos)
    decreases |args| - pos
  {
    var step := StepAt(args, nodeAllocOk, argAllocOk, statOf);
    StepAtAdvances(args, nodeAllocOk, argAllocOk, statOf);
    if pos < |args| {
      var c := CreatePrimaryResult(args[pos], args, pos + 1, nodeAllocOk(pos), argAllocOk(pos), statOf);
      assert step(pos) == c;
      if c.ret == ErrNone {
        CreateFromIsLoop(args, c.cursor, nodeAllocOk, argAllocOk, statOf);
      }
    }
  }

  /**
   * ns are nodes that successive successful calls build from position pos
   * on, each call starting where the previous one left the cursor.
   */
  predicate Chain(step: nat -> Created, n: nat, pos: nat, ns: seq<PrimaryNode>)
    decreases |ns|
  {
    ns == [] || (pos < n && step(pos).ret == ErrNone && step(pos).node == Some(ns[0]) && Chain(step, n, step(pos).cursor, ns[1..]))
  }

  /** Where the cursor stands after the calls that build ns. */
  function ChainEnd(step: nat -> Created, pos: nat, ns: seq<PrimaryNode>): nat
    decreases |ns|
  {
    if ns == [] then pos else ChainEnd(step, step(pos).cursor, ns[1..])
  }

  /**
   * The loop succeeds with a chain of calls that ends exactly at the end
   * of the vector, and fails with the error of the first call that fails
   * after a chain of successful ones.
   */
  lemma {:induction false} LoopIsChain(step: nat -> Created, n: nat, pos: nat)
    requires Advances(step, n) && pos <= n
    ensures var r := Loop(step, n, pos);
            r.0 == ErrNone ==> Chain(step, n, pos, r.1) && ChainEnd(step, pos, r.1) == n
    ensures var r := Loop(step, n, pos);
            r.0 != ErrNone ==> exists ns :: Chain(step, n, pos, ns) && ChainEnd(step, pos, ns) < n && step(ChainEnd(step, pos, ns)).ret == r.0
    decreases n - pos
  {
    var r := Loop(step, n, pos);
    if pos < n {
      if step(pos).ret != ErrNone {
        assert Chain(step, n, pos, []) && ChainEnd(step, pos, []) == pos;
      } else {
        var next := step(pos).cursor;
        var node := step(pos).node.value;
        LoopIsChain(step, n, next);
        var rest := Loop(step, n, next);
        if rest.0 == ErrNone {
          assert r.1 == [node] + rest.1 && r.1[1..] == rest.1;
        } else {
          var ns' :| Chain(step, n, next, ns') && ChainEnd(step, next, ns') < n && step(ChainEnd(step, next, ns')).ret == rest.0;
          var ns := [node] + ns';
          assert ns[1..] == ns';
          assert Chain(step, n, pos, ns) && ChainEnd(step, pos, ns) == ChainEnd(step, next, ns');
        }
      }
    }
  }

  /**
   * Conversely, a chain of successful calls decides the loop: one that ends
   * at the end of the vector is its result, and one followed by a failing
   * call gives that call's error.
   */
  lemma {:induction false} ChainDecidesLoop(step: nat -> Created, n: nat, pos: nat, ns: seq<PrimaryNode>)
    requires Advances(step, n) && pos <= n && Chain(step, n, pos, ns)
    ensures ChainEnd(step, pos, ns) == n ==> Loop(step, n, pos) == (ErrNone, ns)
    ensures ChainEnd(step, pos, ns) < n && step(ChainEnd(step, pos, ns)).ret != ErrNone ==>
              Loop(step, n, pos) == (step(ChainEnd(step, pos, ns)).ret, [])
    decreases |ns|
  {
    if ns != [] {
      ChainDecidesLoop(step, n, step(pos).cursor, ns[1..]);
      assert ns == [ns[0]] + ns[1..];
    }
  }

  /**
   * So the loop of expression_create succeeds exactly when the vector is a
   * chain of successful expression_create_primary calls that ends at its
   * end, and returns that chain's nodes; otherwise it returns the error of
   * the call that follows the longest successful chain.
   */
  lemma CreateFromChain(args: seq<string>, nodeAllocOk: nat -> bool, argAllocOk: nat -> bool, statOf: string -> Option<Stat>,
                        ns: seq<PrimaryNode>)
    requires IsArgv(args)
    ensures var step := StepAt(args, nodeAllocOk, argAllocOk, statOf);
            var r := CreateFrom(args, 0, nodeAllocOk, argAllocOk, statOf);
            && (r.0 == ErrNone ==> Chain(step, |args|, 0, r.1) && ChainEnd(step, 0, r.1) == |args|)
            && (Chain(step, |args|, 0, ns) && ChainEnd(step, 0, ns) == |args| ==> r == (ErrNone, ns))
            && (Chain(step, |args|, 0, ns) && ChainEnd(step, 0, ns) < |args| && step(ChainEnd(step, 0, ns)).ret != ErrNone ==>
                  r == (step(ChainEnd(step, 0, ns)).ret, []))
  {
    var step := StepAt(args, nodeAllocOk, argAllocOk, statOf);
    CreateFromIsLoop(args, 0, nodeAllocOk, argAllocOk, statOf);
    LoopIsChain(step, |args|, 0);
    if Chain(step, |args|, 0, ns) {
      ChainDecidesLoop(step, |args|, 0, ns);
    }
  }

  /** The outcome of a creation that has built prefix when the rest of the vector gives rest. */
  function Prepend(prefix: seq<PrimaryNode>, rest: (ExprErr, seq<PrimaryNode>)): (ExprErr, seq<PrimaryNode>) {
    (rest.0, if rest.0 == ErrNone then prefix + rest.1 else [])
  }

  lemma PrependStep(prefix: seq<PrimaryNode>, node: PrimaryNode, rest: (ExprErr, seq<PrimaryNode>))
    requires rest.0 != ErrNone ==> rest.1 == []
    ensures Prepend(prefix + [node], rest) == Prepend(prefix, Prepend([node], rest))
  {
    if rest.0 == ErrNone {
      assert prefix + [node] + rest.1 == prefix + ([node] + rest.1);
    }
  }

  // ---------------------------------------------------------------------------
  // expression_t.
  // ---------------------------------------------------------------------------

  class Expression {
    /** state_args. */
    var state: ProgState
    /** The list from head on, in list order. */
    var nodes: seq<PrimaryNode>

    /** An expression_t whose head is NULL. */
    constructor ()
      ensures nodes == []
    {
      state := ProgState(0, 0);
      nodes := [];
    }

    /** Every node can be evaluated without aborting. */
    predicate Valid()
      reads this
    {
      forall k :: 0 <= k < |nodes| ==> NodeValid(nodes[k])
    }

    /** Node k's truth value for the entry. */
    function Holds(k: int, entry: Entry, run: seq<string> -> bool): bool
      requires Valid() && 0 <= k < |nodes|
      reads this
    {
      PrimaryEvaluate(nodes[k].primary, nodes[k].arg, state, entry, run).value
    }

    /** expression_add_primary: walk to the last node and link the new one after it. */
    method AddPrimary(node: PrimaryNode)
      modifies this
      ensures nodes == old(nodes) + [node]
      ensures state == old(state)
    {
      if |nodes| == 0 {
        nodes := [node];
      } else {
        var curr := 0;
        // curr is the node the walk is on; it stops on the last one, the tail.
        while curr + 1 < |nodes|
          invariant 0 <= curr < |nodes|
        {
          curr := curr + 1;
        }
        assert curr == |nodes| - 1 && nodes[..curr + 1] == nodes;
        nodes := nodes[..curr + 1] + [node];
      }
    }

    /**
     * expression_evaluate: evaluate the nodes in order and stop at the first
     * false one.  The result is true exactly when every node holds; evaluated
     * counts the primary_evaluate calls: all nodes when the result is true,
     * and up to and including the first false node otherwise.
     */
    method Evaluate(entry: Entry, run: seq<string> -> bool) returns (r: bool, evaluated: nat)
      requires Valid()
      ensures r <==> forall k :: 0 <= k < |nodes| ==> Holds(k, entry, run)
      ensures evaluated <= |nodes|
      ensures r ==> evaluated == |nodes|
      ensures !r ==> evaluated >= 1 && !Holds(evaluated - 1, entry, run)
      ensures forall k :: 0 <= k < evaluated && (r || k < evaluated - 1) ==> Holds(k, entry, run)
    {
      var curr := 0;
      r := true;
      evaluated := 0;
      while r && curr < |nodes|
        invariant 0 <= curr <= |nodes|
        invariant forall k :: 0 <= k < curr ==> Holds(k, entry, run)
        invariant r ==> evaluated == curr
        invariant !r ==> curr < |nodes| && evaluated == curr + 1 && !Holds(curr, entry, run)
        decreases |nodes| - curr, r
      {
        var v := PrimaryEvaluate(nodes[curr].primary, nodes[curr].arg, state, entry, run);
        evaluated := evaluated + 1;
        if !v.value {
          r := false;
        } else {
          curr := curr + 1;
        }
      }
    }

    /** expression_delete: every node (and its argument storage) is released. */
    method Delete()
      modifies this
      ensures nodes == []
      ensures state == old(state)
    {
      nodes := [];
    }

    /**
     * expression_create: set the program state, then parse primary after
     * primary, appending each; on the first error delete what was built.
     * When the clock fails nothing but the result changes.
     */
    method Create(args: seq<string>, clock: Option<int>, nodeAllocOk: nat -> bool, argAllocOk: nat -> bool,
                  statOf: string -> Option<Stat>) returns (ret: ExprErr)
      requires IsArgv(args)
      modifies this
      ensures clock.None? <==> ret == ErrState
      ensures clock.None? ==> nodes == old(nodes) && state == old(state)
      ensures clock.Some? ==> state == GetProgState(clock, old(state)).1
      ensures clock.Some? ==> (ret, nodes) == CreateFrom(args, 0, nodeAllocOk, argAllocOk, statOf)
      ensures ret == ErrNone ==> Valid()
    {
      var st := GetProgState(clock, state);
      if st.0 < 0 {
        return ErrState;
      }
      state := st.1;
      nodes := [];
      ret := ErrNone;
      var pos := 0;
      ghost var full := CreateFrom(args, 0, nodeAllocOk, argAllocOk, statOf);
      assert [] + full.1 == full.1;
      assert Prepend([], full) == full;
      while pos < |args| && ret == ErrNone
        invariant pos <= |args| && state == st.1
        invariant ret == ErrNone ==> Prepend(nodes, CreateFrom(args, pos, nodeAllocOk, argAllocOk, statOf)) == full
        invariant ret != ErrNone ==> (ret, nodes) == full
        decreases |args| - pos, if ret == ErrNone then 1 else 0
      {
        var c := CreatePrimary(args[pos], args, pos + 1, nodeAllocOk(pos), argAllocOk(pos), statOf);
        if c.ret != ErrNone {
          ret := c.ret;
          Delete();
        } else {
          PrependStep(nodes, c.node.value, CreateFrom(args, c.cursor, nodeAllocOk, argAllocOk, statOf));
          AddPrimary(c.node.value);
          pos := c.cursor;
        }
      }
      if ret == ErrNone {
        assert CreateFrom(args, pos, nodeAllocOk, argAllocOk, statOf) == (ErrNone, []);
        assert nodes + [] == nodes;
      }
    }
  }
}
