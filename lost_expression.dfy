/**
 * find_src/lost_fucking_souls/expression.c, the first draft of the find
 * expression: a primary and exactly one argument word per pair of entries,
 * names matched exactly, arguments checked strictly, and on an error the
 * offending words moved to the front of the argument array.
 *
 * The draft calls primary_node_fill, which no shown file defines; it is
 * modelled as the steps its neighbours provide: the node's argument type
 * from primary_arg_type_arr, its evaluator from set_primary_eval_func, and
 * its argument from get_primary_arg.
 */
module LostExpression {
  import opened Base
  import opened CString
  import opened FindCommon
  import opened LostExpressionDefs
  import FindPrimParse

  /** The argument halves of the node's union; a stat argument is the buffer get_stat_arg filled. */
  datatype NodeArg = LongArg(long: int) | StatArg(stat: Stat) | FileTypeArg(ch: char)

  /**
   * A primary_node without its link: its type, its argument, and the
   * primary whose evaluator the union's eval pointer holds.
   */
  datatype LostNode = LostNode(argType: ArgType, arg: NodeArg, evalOf: int)

  /** The node's type matches its evaluator's primary and the union member that holds its argument. */
  predicate NodeOk(n: LostNode) {
    && 0 <= n.evalOf < PRIMARIES_TOTAL
    && n.argType == PRIMARY_ARG_TYPE_ARR[n.evalOf]
    && match n.argType
       case ArgLong => n.arg.LongArg?
       case ArgStat => n.arg.StatArg?
       case ArgFileType => n.arg.FileTypeArg?
  }

  /** Every word of the first size entries is a C string. */
  predicate CStrings(args: seq<string>, size: int) {
    0 <= size <= |args| && forall k :: 0 <= k < size ==> '\0' !in args[k]
  }

  // ---------------------------------------------------------------------------
  // Argument checks.
  // ---------------------------------------------------------------------------

  /** is_number: every character is a decimal digit (so the empty word is a number). */
  method IsNumber(arg: string) returns (r: bool)
    ensures r <==> AllDigits(arg)
  {
    var len := |arg|;
    var i := 0;
    while i < len && '0' <= arg[i] <= '9'
      invariant 0 <= i <= len
      invariant forall k :: 0 <= k < i ==> IsDigit(arg[k])
    {
      i := i + 1;
    }
    r := !(i < len);
  }

  /**
   * What get_long_arg yields, with *dest's old value: a word of digits whose
   * value fits in a long is stored; any other word is EXPR_ERR_INVALID_ARG
   * with *dest kept.
   */
  function LongArgResult(dest: int, s: string): (ExprErr, int) {
    if AllDigits(s) && DecimalValue(s) <= LONG_MAX then (ErrNone, DecimalValue(s)) else (ErrInvalidArg, dest)
  }

  /** The empty word passes is_number and is read as 0. */
  lemma EmptyLongArgAccepted(dest: int)
    ensures LongArgResult(dest, "") == (ErrNone, 0)
  {
  }

  /** get_long_arg: is_number, then strtol with its ERANGE test. */
  method GetLongArg(dest: int, longArg: string) returns (err: ExprErr, newDest: int)
    ensures (err, newDest) == LongArgResult(dest, longArg)
  {
    if longArg != [] && AllDigits(longArg) {
      StrtolDigits(longArg);
    }
    var number := IsNumber(longArg);
    if !number {
      return ErrInvalidArg, dest;
    }
    var conv := Strtol(longArg);
    if conv.outOfRange {
      return ErrInvalidArg, dest;
    }
    return ErrNone, conv.value;
  }

  /** What get_file_type_arg yields: one character of "bcdflps" is stored; anything else is rejected with *dest kept. */
  function FileTypeArgResult(dest: char, s: string): (r: (ExprErr, char))
    ensures r.0 == ErrNone || r.0 == ErrInvalidArg
    ensures r.0 == ErrNone <==> |s| == 1 && s[0] in VALID_FILE_TYPES
    ensures r.0 == ErrNone ==> r.1 == s[0]
    ensures r.0 != ErrNone ==> r.1 == dest
  {
    if |s| == 1 && s[0] in VALID_FILE_TYPES then (ErrNone, s[0]) else (ErrInvalidArg, dest)
  }

  /** get_file_type_arg: the length test, then a search of valid_file_types. */
  method GetFileTypeArg(dest: char, fileTypeArg: string) returns (err: ExprErr, newDest: char)
    ensures (err, newDest) == FileTypeArgResult(dest, fileTypeArg)
  {
    if |fileTypeArg| != 1 {
      return ErrInvalidArg, dest;
    }
    var i := 0;
    while i < |VALID_FILE_TYPES| && fileTypeArg[0] != VALID_FILE_TYPES[i]
      invariant 0 <= i <= |VALID_FILE_TYPES|
      invariant forall k :: 0 <= k < i ==> VALID_FILE_TYPES[k] != fileTypeArg[0]
    {
      i := i + 1;
    }
    if i == |VALID_FILE_TYPES| {
      return ErrInvalidArg, dest;
    }
    return ErrNone, fileTypeArg[0];
  }

  /** What get_stat_arg yields: the file's stat, EXPR_ERR_MALLOC, or EXPR_ERR_INVALID_ARG when stat fails. */
  function StatArgResult(path: string, allocOk: bool, statOf: string -> Option<Stat>): (r: (ExprErr, Option<Stat>))
    ensures r.0 == ErrNone <==> r.1.Some?
    ensures r.0 == ErrMalloc <==> !allocOk
    ensures r.0 == ErrNone ==> r.1 == statOf(path)
    ensures r.0 == ErrInvalidArg <==> allocOk && statOf(path).None?
  {
    if !allocOk then (ErrMalloc, None)
    else match statOf(path)
      case None => (ErrInvalidArg, None)
      case Some(st) => (ErrNone, Some(st))
  }

  // ---------------------------------------------------------------------------
  // get_primary.
  // ---------------------------------------------------------------------------

  /** The index of the table entry equal to e: an exact match, not a prefix match. */
  function PrimaryIndex(e: string, from: nat): (r: Option<int>)
    requires from <= PRIMARIES_TOTAL
    ensures r.Some? ==> from <= r.value < PRIMARIES_TOTAL && PRIMARY_STR_ARR[r.value] == e
    ensures r.None? <==> forall k :: from <= k < PRIMARIES_TOTAL ==> PRIMARY_STR_ARR[k] != e
    decreases PRIMARIES_TOTAL - from
  {
    if from == PRIMARIES_TOTAL then None
    else if PRIMARY_STR_ARR[from] == e then Some(from)
    else PrimaryIndex(e, from + 1)
  }

  /** The table's names, which are the later parser's first six. */
  lemma TableIsLaterTable()
    ensures PRIMARY_STR_ARR == FindPrimParse.PRIMARY_STR_MAP[..PRIMARIES_TOTAL]
  {
  }

  /** The names are distinct and no name is a prefix of another, so a name with anything appended is no primary. */
  lemma ExtendedNameRejected(k: int, extra: string)
    requires 0 <= k < PRIMARIES_TOTAL && extra != []
    ensures PrimaryIndex(PRIMARY_STR_ARR[k] + extra, 0).None?
    ensures PrimaryIndex(PRIMARY_STR_ARR[k], 0) == Some(k)
  {
    TableIsLaterTable();
    var name := PRIMARY_STR_ARR[k];
    assert (name + extra)[..|name|] == name;
    forall j | 0 <= j < PRIMARIES_TOTAL
      ensures PRIMARY_STR_ARR[j] != name + extra
      ensures j != k ==> PRIMARY_STR_ARR[j] != name
    {
      if j != k {
        FindPrimParse.PrimaryNamesPrefixFree(k, j);
        FindPrimParse.PrimaryNamesPrefixFree(j, k);
        assert PRIMARY_STR_ARR[k][..|PRIMARY_STR_ARR[k]|] == PRIMARY_STR_ARR[k];
      }
    }
    PrimaryIndexFrom(name, 0, k);
  }

  /** strncmp(name, e, strlen(e)) == 0 for a name as long as e: name is e. */
  lemma SameLengthCompare(name: string, e: string)
    requires '\0' !in name && '\0' !in e && |name| == |e|
    ensures StrNEq(name, e, |e|, 0) <==> name == e
  {
    StrNCmpPrefix(name, e);
    assert name[..|e|] == name;
  }

  /** The names of the table are C strings. */
  lemma NamesAreCStrings(k: int)
    requires 0 <= k < PRIMARIES_TOTAL
    ensures '\0' !in PRIMARY_STR_ARR[k]
  {
    var n := PRIMARY_STR_ARR[k];
    assert forall i :: 0 <= i < |n| ==> n[i] != '\0';
  }

  /**
   * get_primary: compare e with each name of its length, keeping the last
   * comparison's result for the names of other lengths.  The found index,
   * or EXPR_ERR_INVALID_PRIMARY with *primary kept.
   */
  method GetPrimary(primaryIn: int, exprElement: string) returns (err: ExprErr, primary: int)
    requires '\0' !in exprElement
    ensures err == ErrNone || err == ErrInvalidPrimary
    ensures err == ErrNone <==> PrimaryIndex(exprElement, 0).Some?
    ensures err == ErrNone ==> PrimaryIndex(exprElement, 0) == Some(primary)
    ensures err != ErrNone ==> primary == primaryIn
  {
    var cmp := 1;
    var primaryId := 0;
    NamesAreCStrings(0);
    if |PRIMARY_STR_ARR[primaryId]| == |exprElement| {
      SameLengthCompare(PRIMARY_STR_ARR[primaryId], exprElement);
      cmp := if StrNEq(PRIMARY_STR_ARR[primaryId], exprElement, |exprElement|, 0) then 0 else 1;
    }
    while cmp != 0 && primaryId < PRIMARIES_TOTAL
      invariant 0 <= primaryId <= PRIMARIES_TOTAL
      invariant forall k :: 0 <= k < primaryId ==> PRIMARY_STR_ARR[k] != exprElement
      invariant cmp == 0 ==> primaryId < PRIMARIES_TOTAL && PRIMARY_STR_ARR[primaryId] == exprElement
      decreases PRIMARIES_TOTAL - primaryId, if cmp != 0 then 1 else 0
    {
      if |PRIMARY_STR_ARR[primaryId]| == |exprElement| {
        NamesAreCStrings(primaryId);
        SameLengthCompare(PRIMARY_STR_ARR[primaryId], exprElement);
        cmp := if StrNEq(PRIMARY_STR_ARR[primaryId], exprElement, |exprElement|, 0) then 0 else 1;
      }
      if cmp != 0 {
        primaryId := primaryId + 1;
      }
    }
    if primaryId == PRIMARIES_TOTAL {
      return ErrInvalidPrimary, primaryIn;
    }
    PrimaryIndexFrom(exprElement, 0, primaryId);
    return ErrNone, primaryId;
  }

  /** The first equal entry from `from` on is the one PrimaryIndex finds. */
  lemma PrimaryIndexFrom(e: string, from: nat, k: int)
    requires from <= k < PRIMARIES_TOTAL && PRIMARY_STR_ARR[k] == e
    requires forall j :: from <= j < k ==> PRIMARY_STR_ARR[j] != e
    ensures PrimaryIndex(e, from) == Some(k)
    decreases k - from
  {
    if from < k {
      PrimaryIndexFrom(e, from + 1, k);
    }
  }

  // ---------------------------------------------------------------------------
  // Node parsing.
  // ---------------------------------------------------------------------------

  /**
   * primary_node_fill for a known primary: the type from the table, the
   * evaluator set for the primary (which set_primary_eval_func never
   * refuses for a primary of the table), then the argument parsed by its
   * type's parser.
   */
  function NodeFillResult(primary: int, argStr: string, allocOk: bool, statOf: string -> Option<Stat>): (r: (ExprErr, Option<LostNode>))
    requires 0 <= primary < PRIMARIES_TOTAL
    ensures r.0 == ErrNone <==> r.1.Some?
    ensures r.0 == ErrNone || r.0 == ErrMalloc || r.0 == ErrInvalidArg
    ensures r.1.Some? ==> NodeOk(r.1.value) && r.1.value.evalOf == primary
    ensures r.0 == ErrMalloc <==> PRIMARY_ARG_TYPE_ARR[primary] == ArgStat && !allocOk
    ensures PRIMARY_ARG_TYPE_ARR[primary] == ArgLong ==>
              (r.0 == ErrNone <==> AllDigits(argStr) && DecimalValue(argStr) <= LONG_MAX)
              && (r.1.Some? ==> r.1.value.arg == LongArg(DecimalValue(argStr)))
    ensures PRIMARY_ARG_TYPE_ARR[primary] == ArgFileType ==>
              (r.0 == ErrNone <==> |argStr| == 1 && argStr[0] in VALID_FILE_TYPES)
              && (r.1.Some? ==> r.1.value.arg == FileTypeArg(argStr[0]))
    ensures PRIMARY_ARG_TYPE_ARR[primary] == ArgStat ==>
              (r.0 == ErrNone <==> allocOk && statOf(argStr).Some?)
              && (r.1.Some? ==> r.1.value.arg == StatArg(statOf(argStr).value))
  {
    var t := PRIMARY_ARG_TYPE_ARR[primary];
    match t
    case ArgLong =>
      var (e, v) := LongArgResult(0, argStr);
      if e != ErrNone then (e, None) else (ErrNone, Some(LostNode(t, LongArg(v), primary)))
    case ArgFileType =>
      var (e, c) := FileTypeArgResult('\0', argStr);
      if e != ErrNone then (e, None) else (ErrNone, Some(LostNode(t, FileTypeArg(c), primary)))
    case ArgStat =>
      var (e, st) := StatArgResult(argStr, allocOk, statOf);
      if e != ErrNone then (e, None) else (ErrNone, Some(LostNode(t, StatArg(st.value), primary)))
  }

  /** primary_node_fill, calling the argument parsers. */
  method PrimaryNodeFill(primary: int, argStr: string, allocOk: bool, statOf: string -> Option<Stat>)
    returns (err: ExprErr, node: Option<LostNode>)
    requires 0 <= primary < PRIMARIES_TOTAL
    ensures (err, node) == NodeFillResult(primary, argStr, allocOk, statOf)
  {
    var t := PRIMARY_ARG_TYPE_ARR[primary];
    match t
    case ArgLong =>
      var v;
      err, v := GetLongArg(0, argStr);
      node := if err != ErrNone then None else Some(LostNode(t, LongArg(v), primary));
    case ArgFileType =>
      var c;
      err, c := GetFileTypeArg('\0', argStr);
      node := if err != ErrNone then None else Some(LostNode(t, FileTypeArg(c), primary));
    case ArgStat =>
      var (e, st) := StatArgResult(argStr, allocOk, statOf);
      err := e;
      node := if e != ErrNone then None else Some(LostNode(t, StatArg(st.value), primary));
  }

  /**
   * expression_parse_primary_node at position i: the name first, then the
   * node allocation, then an argument word must follow, then the fill.
   */
  function ParseNodeResult(args: seq<string>, size: int, i: int, nodeAllocOk: bool, argAllocOk: bool,
                           statOf: string -> Option<Stat>): (r: (ExprErr, Option<LostNode>))
    requires CStrings(args, size) && 0 <= i < size
    ensures r.0 == ErrNone <==> r.1.Some?
    ensures r.1.Some? ==> NodeOk(r.1.value)
    ensures r.0 == ErrInvalidPrimary <==> PrimaryIndex(args[i], 0).None?
    ensures r.0 == ErrNoArg <==> PrimaryIndex(args[i], 0).Some? && nodeAllocOk && i == size - 1
    ensures r.0 == ErrInvalidArg ==> i + 1 < size
    ensures r.1.Some? ==> i + 1 < size && PrimaryIndex(args[i], 0) == Some(r.1.value.evalOf)
    ensures r.1.Some? ==> r == NodeFillResult(r.1.value.evalOf, args[i + 1], argAllocOk, statOf)
  {
    match PrimaryIndex(args[i], 0)
    case None => (ErrInvalidPrimary, None)
    case Some(p) =>
      if !nodeAllocOk then (ErrMalloc, None)
      else if i == size - 1 then (ErrNoArg, None)
      else NodeFillResult(p, args[i + 1], argAllocOk, statOf)
  }

  /** expression_parse_primary_node. */
  method ParsePrimaryNode(args: seq<string>, size: int, i: int, nodeAllocOk: bool, argAllocOk: bool,
                          statOf: string -> Option<Stat>) returns (err: ExprErr, node: Option<LostNode>)
    requires CStrings(args, size) && 0 <= i < size
    ensures (err, node) == ParseNodeResult(args, size, i, nodeAllocOk, argAllocOk, statOf)
  {
    node := None;
    var primary;
    err, primary := GetPrimary(CNEWER, args[i]);
    if err == ErrInvalidPrimary {
      return;
    }
    if !nodeAllocOk {
      return ErrMalloc, None;
    }
    if i == size - 1 {
      return ErrNoArg, None;
    }
    err, node := PrimaryNodeFill(primary, args[i + 1], argAllocOk, statOf);
  }

  // ---------------------------------------------------------------------------
  // Argument permutation.
  // ---------------------------------------------------------------------------

  /** The sequence with entries i and j exchanged. */
  function Swapped(s: seq<string>, i: int, j: int): (r: seq<string>)
    requires 0 <= i < |s| && 0 <= j < |s|
    ensures |r| == |s| && r[i] == s[j] && r[j] == s[i]
    ensures forall k :: 0 <= k < |s| && k != i && k != j ==> r[k] == s[k]
  {
    s[i := s[j]][j := s[i]]
  }

  /** Exchanging two entries keeps the words. */
  lemma SwappedSameWords(s: seq<string>, i: int, j: int)
    requires 0 <= i < |s| && 0 <= j < |s|
    ensures multiset(Swapped(s, i, j)) == multiset(s)
  {
    var t := s[i := s[j]];
    assert multiset(t) == multiset(s) - multiset{s[i]} + multiset{s[j]};
  }

  /** swap: exchange arr[i] and arr[j], and nothing else. */
  method Swap(arr: array<string>, i: int, j: int)
    requires 0 <= i < arr.Length && 0 <= j < arr.Length
    modifies arr
    ensures arr[..] == Swapped(old(arr[..]), i, j)
  {
    var temp := arr[i];
    arr[i] := arr[j];
    arr[j] := temp;
  }

  /**
   * What permutate_args leaves in the array: an unknown primary or a
   * missing argument swaps the primary to slot 0, an invalid argument also
   * swaps it to slot 1, and other errors leave the array as it is.
   */
  function Permutated(err: ExprErr, s: seq<string>, i: int): seq<string>
    requires 0 <= i < |s| && (err == ErrInvalidArg ==> i + 1 < |s|)
  {
    if err == ErrInvalidPrimary || err == ErrNoArg then Swapped(s, 0, i)
    else if err == ErrInvalidArg then Swapped(Swapped(s, 0, i), 1, i + 1)
    else s
  }

  /** The permuted array holds the same words, with the culprits first. */
  lemma PermutatedShowsCulprit(err: ExprErr, s: seq<string>, i: int)
    requires 0 <= i < |s| && (err == ErrInvalidArg ==> i + 1 < |s|)
    ensures var r := Permutated(err, s, i);
            && |r| == |s| && multiset(r) == multiset(s)
            && (err == ErrInvalidPrimary || err == ErrNoArg ==> r[0] == s[i])
            && (err == ErrInvalidArg ==> r[0] == s[i] && r[1] == s[i + 1])
            && (err == ErrNone || err == ErrMalloc ==> r == s)
  {
    SwappedSameWords(s, 0, i);
    if err == ErrInvalidArg {
      SwappedSameWords(Swapped(s, 0, i), 1, i + 1);
    }
  }

  /** permutate_args with permutate_args_invalid_primary and permutate_args_invalid_primary_arg. */
  method PermutateArgs(err: ExprErr, exprArgs: array<string>, i: int)
    requires 0 <= i < exprArgs.Length && (err == ErrInvalidArg ==> i + 1 < exprArgs.Length)
    modifies exprArgs
    ensures exprArgs[..] == Permutated(err, old(exprArgs[..]), i)
  {
    if err == ErrInvalidPrimary {
      Swap(exprArgs, 0, i);
    } else if err == ErrInvalidArg {
      Swap(exprArgs, 0, i);
      Swap(exprArgs, 1, i + 1);
    } else if err == ErrNoArg {
      Swap(exprArgs, 0, i);
    }
  }

  // ---------------------------------------------------------------------------
  // The loop of expression_create.
  // ---------------------------------------------------------------------------

  /** The outcome of creation from position i on: the error, the nodes, and the position the error was found at. */
  datatype Built = Built(err: ExprErr, nodes: seq<LostNode>, errPos: int)

  /**
   * expression_create from position i on: parse the pair at i, then go on
   * at i + 2.  On success every node is well-formed; on an error there are
   * no nodes and errPos is where it was found, a pair boundary counted
   * from i whose parse gives that error.
   */
  function CreateFrom(args: seq<string>, size: int, i: nat, nodeAllocOk: nat -> bool, argAllocOk: nat -> bool,
                      statOf: string -> Option<Stat>): (r: Built)
    requires CStrings(args, size)
    ensures r.err != ErrNone ==> r.nodes == [] && i <= r.errPos < size
    ensures r.err != ErrNone ==> (r.errPos - i) % 2 == 0
                                 && ParseNodeResult(args, size, r.errPos, nodeAllocOk(r.errPos), argAllocOk(r.errPos), statOf).0 == r.err
    ensures r.err == ErrInvalidArg ==> r.errPos + 1 < size
    ensures r.err == ErrNone ==> forall k :: 0 <= k < |r.nodes| ==> NodeOk(r.nodes[k])
    decreases size - i
  {
    if i >= size then Built(ErrNone, [], 0)
    else
      var p := ParseNodeResult(args, size, i, nodeAllocOk(i), argAllocOk(i), statOf);
      if p.0 != ErrNone then Built(p.0, [], i)
      else
        var rest := CreateFrom(args, size, i + 2, nodeAllocOk, argAllocOk, statOf);
        if rest.err == ErrNone then Built(ErrNone, [p.1.value] + rest.nodes, 0) else rest
  }

  /** A failed creation whose error lies beyond i has parsed the pair at i and failed from i + 2 on. */
  lemma CreateFromPastFirst(args: seq<string>, size: int, i: nat, nodeAllocOk: nat -> bool, argAllocOk: nat -> bool,
                            statOf: string -> Option<Stat>)
    requires CStrings(args, size)
    requires CreateFrom(args, size, i, nodeAllocOk, argAllocOk, statOf).err != ErrNone
    requires i < CreateFrom(args, size, i, nodeAllocOk, argAllocOk, statOf).errPos
    ensures i + 2 < size && ParseNodeResult(args, size, i, nodeAllocOk(i), argAllocOk(i), statOf).0 == ErrNone
    ensures CreateFrom(args, size, i + 2, nodeAllocOk, argAllocOk, statOf) == CreateFrom(args, size, i, nodeAllocOk, argAllocOk, statOf)
  {
  }

  /** The pair at errPos is the first that fails: every pair j = i + 2k before it parses. */
  lemma {:induction false} CreateFromFirstError(args: seq<string>, size: int, i: nat, nodeAllocOk: nat -> bool, argAllocOk: nat -> bool,
                                                statOf: string -> Option<Stat>, k: nat, j: int)
    requires CStrings(args, size) && j == i + 2 * k
    requires CreateFrom(args, size, i, nodeAllocOk, argAllocOk, statOf).err != ErrNone
    requires j < CreateFrom(args, size, i, nodeAllocOk, argAllocOk, statOf).errPos
    ensures ParseNodeResult(args, size, j, nodeAllocOk(j), argAllocOk(j), statOf).0 == ErrNone
    decreases k
  {
    CreateFromPastFirst(args, size, i, nodeAllocOk, argAllocOk, statOf);
    if k > 0 {
      CreateFromFirstError(args, size, i + 2, nodeAllocOk, argAllocOk, statOf, k - 1, j);
    }
  }

  /**
   * After a failed creation the words permutate_args moves to the front are
   * the culprits: an invalid primary at slot 0, and for an invalid argument
   * the primary at slot 0 with the argument its fill rejected at slot 1.
   */
  lemma CreateFromCulprits(args: seq<string>, size: int, nodeAllocOk: nat -> bool, argAllocOk: nat -> bool,
                           statOf: string -> Option<Stat>)
    requires CStrings(args, size)
    ensures var b := CreateFrom(args, size, 0, nodeAllocOk, argAllocOk, statOf);
            b.err == ErrInvalidPrimary ==> PrimaryIndex(Permutated(b.err, args, b.errPos)[0], 0).None?
    ensures var b := CreateFrom(args, size, 0, nodeAllocOk, argAllocOk, statOf);
            b.err == ErrInvalidArg ==>
              var r := Permutated(b.err, args, b.errPos);
              && r[0] == args[b.errPos] && r[1] == args[b.errPos + 1]
              && PrimaryIndex(r[0], 0).Some?
              && NodeFillResult(PrimaryIndex(r[0], 0).value, r[1], argAllocOk(b.errPos), statOf).0 == ErrInvalidArg
  {
    var b := CreateFrom(args, size, 0, nodeAllocOk, argAllocOk, statOf);
    if b.err == ErrInvalidPrimary || b.err == ErrInvalidArg {
      PermutatedShowsCulprit(b.err, args, b.errPos);
    }
  }

  /** node is what expression_parse_primary_node builds from the pair of words at j and j + 1. */
  predicate PairNode(args: seq<string>, size: int, j: int, nodeAllocOk: nat -> bool, argAllocOk: nat -> bool,
                     statOf: string -> Option<Stat>, node: LostNode)
    requires CStrings(args, size)
  {
    && 0 <= j && j + 1 < size
    && PrimaryIndex(args[j], 0) == Some(node.evalOf)
    && 0 <= node.evalOf < PRIMARIES_TOTAL
    && NodeFillResult(node.evalOf, args[j + 1], argAllocOk(j), statOf).1 == Some(node)
  }

  /** A successful creation from position i reads the rest of the words in pairs, one node per pair. */
  lemma {:induction false} CreateFromLength(args: seq<string>, size: int, i: nat, nodeAllocOk: nat -> bool, argAllocOk: nat -> bool,
                                            statOf: string -> Option<Stat>)
    requires CStrings(args, size) && i <= size
    ensures var r := CreateFrom(args, size, i, nodeAllocOk, argAllocOk, statOf);
            r.err == ErrNone ==> 2 * |r.nodes| == size - i
    decreases size - i
  {
    if i < size {
      var p := ParseNodeResult(args, size, i, nodeAllocOk(i), argAllocOk(i), statOf);
      if p.0 == ErrNone {
        assert i + 2 <= size;
        CreateFromLength(args, size, i + 2, nodeAllocOk, argAllocOk, statOf);
        var rest := CreateFrom(args, size, i + 2, nodeAllocOk, argAllocOk, statOf);
        if rest.err == ErrNone {
          assert CreateFrom(args, size, i, nodeAllocOk, argAllocOk, statOf).nodes == [p.1.value] + rest.nodes;
        }
      }
    }
  }

  /** The first node of a successful creation from position i is the one parsed from words i and i + 1. */
  lemma CreateFromHead(args: seq<string>, size: int, i: nat, nodeAllocOk: nat -> bool, argAllocOk: nat -> bool,
                       statOf: string -> Option<Stat>)
    requires CStrings(args, size)
    requires CreateFrom(args, size, i, nodeAllocOk, argAllocOk, statOf).err == ErrNone
    requires 0 < |CreateFrom(args, size, i, nodeAllocOk, argAllocOk, statOf).nodes|
    ensures PairNode(args, size, i, nodeAllocOk, argAllocOk, statOf, CreateFrom(args, size, i, nodeAllocOk, argAllocOk, statOf).nodes[0])
  {
    var p := ParseNodeResult(args, size, i, nodeAllocOk(i), argAllocOk(i), statOf);
    var nodes := CreateFrom(args, size, i, nodeAllocOk, argAllocOk, statOf).nodes;
    assert p.1 == Some(nodes[0]);
  }

  /** After its first node, a successful creation from position i goes on as the creation from i + 2. */
  lemma CreateFromTail(args: seq<string>, size: int, i: nat, nodeAllocOk: nat -> bool, argAllocOk: nat -> bool,
                       statOf: string -> Option<Stat>)
    requires CStrings(args, size)
    requires CreateFrom(args, size, i, nodeAllocOk, argAllocOk, statOf).err == ErrNone
    requires 0 < |CreateFrom(args, size, i, nodeAllocOk, argAllocOk, statOf).nodes|
    ensures CreateFrom(args, size, i + 2, nodeAllocOk, argAllocOk, statOf).err == ErrNone
    ensures CreateFrom(args, size, i, nodeAllocOk, argAllocOk, statOf).nodes[1..] == CreateFrom(args, size, i + 2, nodeAllocOk, argAllocOk, statOf).nodes
  {
    var p := ParseNodeResult(args, size, i, nodeAllocOk(i), argAllocOk(i), statOf);
    var rest := CreateFrom(args, size, i + 2, nodeAllocOk, argAllocOk, statOf);
    assert CreateFrom(args, size, i, nodeAllocOk, argAllocOk, statOf).nodes == [p.1.value] + rest.nodes;
  }

  /** Node k of a successful creation from position i is the one parsed from words j = i + 2k and j + 1. */
  lemma {:induction false} CreateFromPair(args: seq<string>, size: int, i: nat, nodeAllocOk: nat -> bool, argAllocOk: nat -> bool,
                                          statOf: string -> Option<Stat>, k: nat, j: int)
    requires CStrings(args, size) && j == i + 2 * k
    requires CreateFrom(args, size, i, nodeAllocOk, argAllocOk, statOf).err == ErrNone
    requires k < |CreateFrom(args, size, i, nodeAllocOk, argAllocOk, statOf).nodes|
    ensures PairNode(args, size, j, nodeAllocOk, argAllocOk, statOf, CreateFrom(args, size, i, nodeAllocOk, argAllocOk, statOf).nodes[k])
    decreases k
  {
    var nodes := CreateFrom(args, size, i, nodeAllocOk, argAllocOk, statOf).nodes;
    if k == 0 {
      CreateFromHead(args, size, i, nodeAllocOk, argAllocOk, statOf);
    } else {
      CreateFromTail(args, size, i, nodeAllocOk, argAllocOk, statOf);
      var rest := CreateFrom(args, size, i + 2, nodeAllocOk, argAllocOk, statOf).nodes;
      CreateFromPair(args, size, i + 2, nodeAllocOk, argAllocOk, statOf, k - 1, j);
      assert nodes[k] == rest[k - 1];
      assert PairNode(args, size, j, nodeAllocOk, argAllocOk, statOf, nodes[k]);
    }
  }

  /** The outcome of a creation that has built prefix when the rest of the words give rest. */
  function Prepend(prefix: seq<LostNode>, rest: Built): Built {
    if rest.err == ErrNone then Built(ErrNone, prefix + rest.nodes, rest.errPos) else rest
  }

  // ---------------------------------------------------------------------------
  // expression_t.
  // ---------------------------------------------------------------------------

  /** The evaluator the node's eval pointer holds, applied to its argument. */
  function NodeHolds(g: StartTime, n: LostNode, fStat: Stat): bool
    requires NodeOk(n)
    reads g
  {
    match n.argType
    case ArgLong =>
      if n.evalOf == CMIN then EvalCmin(g, fStat, n.arg.long)
      else if n.evalOf == CTIME then EvalCtime(g, fStat, n.arg.long)
      else if n.evalOf == MMIN then EvalMmin(g, fStat, n.arg.long)
      else EvalMtime(g, fStat, n.arg.long)
    case ArgStat => LostExpressionDefs.EvalCnewer(fStat, n.arg.stat)
    case ArgFileType => LostExpressionDefs.EvalType(fStat, n.arg.ch)
  }

  /** expression_t: the list from *expression on, in list order. */
  class Expression {
    var nodes: seq<LostNode>

    /** An expression_t that is NULL. */
    constructor ()
      ensures nodes == []
    {
      nodes := [];
    }

    predicate Valid()
      reads this
    {
      forall k :: 0 <= k < |nodes| ==> NodeOk(nodes[k])
    }

    /** expression_append: walk to the last node and link the new one after it. */
    method Append(node: LostNode)
      modifies this
      ensures nodes == old(nodes) + [node]
    {
      if |nodes| == 0 {
        nodes := [node];
        return;
      }
      var curr := 0;
      // curr is the node the walk is on; it stops on the last one, the tail.
      while curr + 1 < |nodes|
        invariant 0 <= curr < |nodes|
      {
        curr := curr + 1;
      }
      assert curr == |nodes| - 1 && nodes[..curr + 1] == nodes;
      nodes := nodes[..curr + 1] + [node];
    }

    /**
     * expression_evaluate: evaluate the nodes in order while they hold.  The
     * result is true exactly when every node holds (so for no nodes);
     * evaluated counts the nodes evaluated: all of them when the result is
     * true, and up to and including the first false one otherwise.
     */
    method Evaluate(g: StartTime, fStat: Stat) returns (r: bool, evaluated: nat)
      requires Valid()
      ensures r <==> forall k :: 0 <= k < |nodes| ==> NodeHolds(g, nodes[k], fStat)
      ensures evaluated <= |nodes|
      ensures r ==> evaluated == |nodes|
      ensures !r ==> evaluated >= 1 && !NodeHolds(g, nodes[evaluated - 1], fStat)
      ensures forall k :: 0 <= k < evaluated && (r || k < evaluated - 1) ==> NodeHolds(g, nodes[k], fStat)
    {
      var curr := 0;
      r := true;
      while curr < |nodes| && r
        invariant 0 <= curr <= |nodes|
        invariant r ==> forall k :: 0 <= k < curr ==> NodeHolds(g, nodes[k], fStat)
        invariant !r ==> curr >= 1 && !NodeHolds(g, nodes[curr - 1], fStat)
                         && forall k :: 0 <= k < curr - 1 ==> NodeHolds(g, nodes[k], fStat)
      {
        r := NodeHolds(g, nodes[curr], fStat);
        curr := curr + 1;
      }
      evaluated := curr;
    }

    /** expression_delete: free every node (and a stat argument's buffer), then *expression = NULL. */
    method Delete()
      modifies this
      ensures nodes == []
    {
      nodes := [];
    }

    /**
     * expression_create over the first size words of exprArgs: start from
     * no nodes, parse pair after pair and append; on the first error permute
     * the culprits to the front of the array and delete the list.
     */
    method Create(exprArgs: array<string>, size: int, nodeAllocOk: nat -> bool, argAllocOk: nat -> bool,
                  statOf: string -> Option<Stat>) returns (ret: ExprErr)
      requires CStrings(exprArgs[..], size)
      modifies this, exprArgs
      ensures var b := CreateFrom(old(exprArgs[..]), size, 0, nodeAllocOk, argAllocOk, statOf);
              && ret == b.err
              && (ret == ErrNone ==> nodes == b.nodes && Valid() && exprArgs[..] == old(exprArgs[..]))
              && (ret != ErrNone ==> nodes == [] && exprArgs[..] == Permutated(ret, old(exprArgs[..]), b.errPos))
    {
      ghost var args := exprArgs[..];
      ghost var full := CreateFrom(args, size, 0, nodeAllocOk, argAllocOk, statOf);
      nodes := [];
      ret := ErrNone;
      var i := 0;
      assert [] + full.nodes == full.nodes;
      while i < size
        invariant 0 <= i
        invariant exprArgs[..] == args
        invariant Prepend(nodes, CreateFrom(args, size, i, nodeAllocOk, argAllocOk, statOf)) == full
      {
        var err, node := ParsePrimaryNode(exprArgs[..], size, i, nodeAllocOk(i), argAllocOk(i), statOf);
        if err != ErrNone {
          PermutateArgs(err, exprArgs, i);
          Delete();
          return err;
        }
        ghost var rest := CreateFrom(args, size, i + 2, nodeAllocOk, argAllocOk, statOf);
        assert rest.err == ErrNone ==> nodes + [node.value] + rest.nodes == nodes + ([node.value] + rest.nodes);
        Append(node.value);
        i := i + 2;
      }
      assert nodes + [] == nodes;
    }
  }
}
