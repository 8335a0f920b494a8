/**
 * find_src/expression_prim_parse.c with the types of expression_prim_defs.h:
 * turning a primary's name into its enumerator, parsing its argument from an
 * argument vector through a moving cursor, and the start times the time
 * primaries compare against.
 *
 * An argument vector is the strings before its NULL; a cursor into it is an
 * index from 0 to |args|, and the cursor |args| points at the NULL.
 * (*argv_i)[k] is args[cursor + k].
 */
module FindPrimParse {
  import opened Base
  import opened CString
  import opened FindCommon

  /** enum primary. */
  const CNEWER: int := 0
  const CMIN: int := 1
  const CTIME: int := 2
  const MMIN: int := 3
  const MTIME: int := 4
  const TYPE: int := 5
  const EXEC: int := 6
  const PRIMARY_NUM: int := 7

  /** enum arg_type. */
  datatype ArgType = LongArgT | CharArgT | CtimArgT | ArgvArgT

  /** primary_str_map and primary_arg_type_map. */
  const PRIMARY_STR_MAP: seq<string> := ["-cnewer", "-cmin", "-ctime", "-mmin", "-mtime", "-type", "-exec"]
  const PRIMARY_ARG_TYPE_MAP: seq<ArgType> := [CtimArgT, LongArgT, LongArgT, LongArgT, LongArgT, CharArgT, ArgvArgT]

  /**
   * union primary_arg: a long, a char, the ctime of a reference file, or the
   * argv of -exec (its argc is |argv|; its terminating NULL is implicit);
   * Unset for a union nothing has written.
   */
  datatype PrimaryArg = Unset | LongArg(long: int) | CharArg(ch: char) | CtimArg(ctim: Timespec) | ArgvArg(argv: seq<string>)

  /** The argument holds the member its type reads. */
  predicate ArgFits(t: ArgType, a: PrimaryArg) {
    match t
    case LongArgT => a.LongArg?
    case CharArgT => a.CharArg?
    case CtimArgT => a.CtimArg?
    case ArgvArgT => a.ArgvArg? && |a.argv| > 0
  }

  /** The vector entries a parsed argument occupies: one word, or the -exec words and their ";". */
  function ArgWidth(a: PrimaryArg): nat {
    if a.ArgvArg? then |a.argv| + 1 else 1
  }

  /** Every string of the vector is a C string. */
  predicate IsArgv(args: seq<string>) {
    forall k :: 0 <= k < |args| ==> '\0' !in args[k]
  }

  // ---------------------------------------------------------------------------
  // primary_parse.
  // ---------------------------------------------------------------------------

  /** The table's names are C strings. */
  lemma PrimaryNamesAreCStrings(k: int)
    requires 0 <= k < PRIMARY_NUM
    ensures '\0' !in PRIMARY_STR_MAP[k]
  {
    var n := PRIMARY_STR_MAP[k];
    assert forall i :: 0 <= i < |n| ==> n[i] != '\0';
  }

  /** The first table index from `from` on whose name is a prefix of s. */
  function PrimaryOf(s: string, from: nat): (r: Option<int>)
    requires from <= PRIMARY_NUM
    ensures r.Some? ==> from <= r.value < PRIMARY_NUM && HasPrefix(s, PRIMARY_STR_MAP[r.value])
    ensures r.Some? ==> forall k :: from <= k < r.value ==> !HasPrefix(s, PRIMARY_STR_MAP[k])
    ensures r.None? ==> forall k :: from <= k < PRIMARY_NUM ==> !HasPrefix(s, PRIMARY_STR_MAP[k])
    decreases PRIMARY_NUM - from
  {
    if from == PRIMARY_NUM then None
    else if HasPrefix(s, PRIMARY_STR_MAP[from]) then Some(from)
    else PrimaryOf(s, from + 1)
  }

  /**
   * primary_parse: the index of the first name in the table that is a
   * prefix of primaryStr (strncmp over the name's length), or -1 with
   * *primary left as it was.
   */
  method PrimaryParse(primaryIn: int, primaryStr: string) returns (ret: int, primary: int)
    requires '\0' !in primaryStr
    ensures ret == 0 || ret == -1
    ensures ret == -1 <==> forall k :: 0 <= k < PRIMARY_NUM ==> !HasPrefix(primaryStr, PRIMARY_STR_MAP[k])
    ensures ret == -1 ==> primary == primaryIn
    ensures ret == 0 ==> 0 <= primary < PRIMARY_NUM && HasPrefix(primaryStr, PRIMARY_STR_MAP[primary])
    ensures ret == 0 ==> forall k :: 0 <= k < primary ==> !HasPrefix(primaryStr, PRIMARY_STR_MAP[k])
    ensures ret == 0 <==> PrimaryOf(primaryStr, 0) == Some(primary)
  {
    var prim := 0;
    ret := 0;
    primary := primaryIn;
    while prim < PRIMARY_NUM && !StrNEq(primaryStr, PRIMARY_STR_MAP[prim], |PRIMARY_STR_MAP[prim]|, 0)
      invariant 0 <= prim <= PRIMARY_NUM
      invariant forall k :: 0 <= k < prim ==> !HasPrefix(primaryStr, PRIMARY_STR_MAP[k])
    {
      PrimaryNamesAreCStrings(prim);
      StrNCmpPrefix(primaryStr, PRIMARY_STR_MAP[prim]);
      prim := prim + 1;
    }
    if prim == PRIMARY_NUM {
      ret := -1;
    } else {
      PrimaryNamesAreCStrings(prim);
      StrNCmpPrefix(primaryStr, PRIMARY_STR_MAP[prim]);
      primary := prim;
    }
    PrimaryOfFirst(primaryStr, 0);
  }

  /** PrimaryOf finds the least matching index. */
  lemma {:induction false} PrimaryOfFirst(s: string, from: nat)
    requires from <= PRIMARY_NUM
    ensures forall k :: from <= k < PRIMARY_NUM && HasPrefix(s, PRIMARY_STR_MAP[k]) && (forall j :: from <= j < k ==> !HasPrefix(s, PRIMARY_STR_MAP[j])) ==> PrimaryOf(s, from) == Some(k)
    decreases PRIMARY_NUM - from
  {
    if from < PRIMARY_NUM {
      PrimaryOfFirst(s, from + 1);
    }
  }

  /** No name in the table is a prefix of another name. */
  lemma PrimaryNamesPrefixFree(j: int, k: int)
    requires 0 <= j < PRIMARY_NUM && 0 <= k < PRIMARY_NUM && j != k
    ensures !HasPrefix(PRIMARY_STR_MAP[k], PRIMARY_STR_MAP[j])
  {
    var a, b := PRIMARY_STR_MAP[j], PRIMARY_STR_MAP[k];
    if |a| <= |b| {
      assert a[1] != b[1] || a[2] != b[2] || a[3] != b[3];
    }
  }

  /** So a string matches at most one entry: the first match is the only one. */
  lemma PrimaryMatchUnique(s: string, j: int, k: int)
    requires 0 <= j < PRIMARY_NUM && 0 <= k < PRIMARY_NUM
    requires HasPrefix(s, PRIMARY_STR_MAP[j]) && HasPrefix(s, PRIMARY_STR_MAP[k])
    ensures j == k
  {
    forall j', k' | 0 <= j' < PRIMARY_NUM && 0 <= k' < PRIMARY_NUM && j' != k'
      ensures !HasPrefix(PRIMARY_STR_MAP[k'], PRIMARY_STR_MAP[j'])
    {
      PrimaryNamesPrefixFree(j', k');
    }
    var a, b := PRIMARY_STR_MAP[j], PRIMARY_STR_MAP[k];
    if |a| <= |b| {
      assert b[..|a|] == a;
    }
  }

  /** Any string that merely starts with a name is accepted as that primary ("-typex" as -type). */
  lemma ExtendedNameAccepted(k: int, extra: string)
    requires 0 <= k < PRIMARY_NUM
    ensures PrimaryOf(PRIMARY_STR_MAP[k] + extra, 0) == Some(k)
  {
    var s := PRIMARY_STR_MAP[k] + extra;
    assert s[..|PRIMARY_STR_MAP[k]|] == PRIMARY_STR_MAP[k];
    PrimaryOfFirst(s, 0);
    var r := PrimaryOf(s, 0);
    if r.Some? {
      PrimaryMatchUnique(s, r.value, k);
    }
  }

  // ---------------------------------------------------------------------------
  // The get_arg_* parsers.  Each returns its int result, the union as it is
  // afterwards and the cursor as it is afterwards.
  // ---------------------------------------------------------------------------

  datatype ArgParsed = ArgParsed(ret: int, arg: PrimaryArg, cursor: int)

  /** incr_argv_i: *argv_i + i. */
  function IncrArgvI(cursor: int, i: int): int {
    cursor + i
  }

  /** The form get_arg_long's doc comment asks for: a number strtol converts entirely, in range. */
  predicate LongConverts(s: string) {
    s != [] && Strtol(s).end == |s| && !Strtol(s).outOfRange
  }

  /**
   * get_arg_long as written: strtol always sets end_ptr, so "end_ptr !=
   * NULL" always holds, ret becomes -1 and is then ignored by "return 0".
   * The result is 0, the union is never written and the cursor never moves.
   */
  function GetArgLongAsWritten(argIn: PrimaryArg, args: seq<string>, cursor: int): (r: ArgParsed)
    requires 0 <= cursor < |args|
    ensures r == ArgParsed(0, argIn, cursor)
  {
    var conv := Strtol(args[cursor]);
    var endPtr: Option<nat> := Some(conv.end);
    var ret := if endPtr != None then -1 else 0;
    var arg := if endPtr != None then argIn else LongArg(conv.value);
    var next := if endPtr != None then cursor else IncrArgvI(cursor, 1);
    ArgParsed(0, arg, next)
  }

  /**
   * get_arg_long as its comment describes it: 0 with the value stored and
   * the cursor advanced by one when the whole argument converts, and -1
   * with nothing changed otherwise.
   */
  function GetArgLong(argIn: PrimaryArg, args: seq<string>, cursor: int): (r: ArgParsed)
    requires 0 <= cursor < |args|
    ensures r.ret == 0 <==> LongConverts(args[cursor])
    ensures r.ret == 0 ==> r.arg == LongArg(Strtol(args[cursor]).value) && r.cursor == cursor + 1
    ensures r.ret != 0 ==> r.ret == -1 && r.arg == argIn && r.cursor == cursor
  {
    var conv := Strtol(args[cursor]);
    if args[cursor] != [] && conv.end == |args[cursor]| && !conv.outOfRange then
      ArgParsed(0, LongArg(conv.value), IncrArgvI(cursor, 1))
    else
      ArgParsed(-1, argIn, cursor)
  }

  /**
   * The decimal digits of any long value parse back to it; as written the
   * same argument is never consumed ("5" leaves the cursor on "5", which is
   * then read as the next primary's name).
   */
  lemma GetArgLongParsesDecimal(argIn: PrimaryArg, n: nat)
    requires n <= LONG_MAX
    ensures GetArgLong(argIn, [DecimalString(n)], 0) == ArgParsed(0, LongArg(n), 1)
    ensures GetArgLongAsWritten(argIn, [DecimalString(n)], 0) == ArgParsed(0, argIn, 0)
  {
    var s := DecimalString(n);
    DecimalRoundTrip(n);
    StrtolDigits(s);
  }

  /** get_arg_char: exactly one character is stored and consumed; anything else fails and changes nothing. */
  function GetArgChar(argIn: PrimaryArg, args: seq<string>, cursor: int): (r: ArgParsed)
    requires 0 <= cursor < |args|
    ensures r.ret == 0 <==> |args[cursor]| == 1
    ensures r.ret == 0 ==> r.arg == CharArg(args[cursor][0]) && r.cursor == cursor + 1
    ensures r.ret != 0 ==> r.ret == -1 && r.arg == argIn && r.cursor == cursor
  {
    if |args[cursor]| != 1 then ArgParsed(-1, argIn, cursor)
    else ArgParsed(0, CharArg(args[cursor][0]), IncrArgvI(cursor, 1))
  }

  /**
   * get_arg_ctim: the status-change time of the file the argument names.
   * `allocOk` is malloc's verdict and `statOf` the file system's answer to
   * stat (None for failure).
   */
  function GetArgCtim(argIn: PrimaryArg, args: seq<string>, cursor: int, allocOk: bool, statOf: string -> Option<Stat>): (r: ArgParsed)
    requires 0 <= cursor < |args|
    ensures r.ret == 0 <==> allocOk && statOf(args[cursor]).Some?
    ensures r.ret == 0 ==> r.arg == CtimArg(statOf(args[cursor]).value.ctim) && r.cursor == cursor + 1
    ensures r.ret != 0 ==> r.ret == -1 && r.arg == argIn && r.cursor == cursor
  {
    if !allocOk then ArgParsed(-1, argIn, cursor)
    else match statOf(args[cursor])
      case None => ArgParsed(-1, argIn, cursor)
      case Some(st) => ArgParsed(0, CtimArg(st.ctim), IncrArgvI(cursor, 1))
  }

  /** The position of the first ";" from cursor on, or |args| (the NULL) when there is none. */
  function ArgvEnd(args: seq<string>, cursor: nat): (e: nat)
    requires cursor <= |args|
    ensures cursor <= e <= |args|
    ensures e < |args| ==> args[e] == ";"
    ensures forall k :: cursor <= k < e ==> args[k] != ";"
    decreases |args| - cursor
  {
    if cursor == |args| || args[cursor] == ";" then cursor else ArgvEnd(args, cursor + 1)
  }

  /** strncmp(";", s, strlen(";") + 1) == 0 exactly when s is ";". */
  lemma IsArgvEndMark(s: string)
    requires '\0' !in s
    ensures StrNEq(";", s, 2, 0) <==> s == ";"
  {
    StrNCmpWithTerminator(s, ";");
    StrNEqSymmetric(";", s, 2, 0);
  }

  /**
   * The scan of get_arg_argv: count the arguments before the first ";" or
   * the NULL.
   */
  method ScanArgv(args: seq<string>, cursor: nat) returns (argc: nat)
    requires IsArgv(args) && cursor <= |args|
    ensures cursor + argc == ArgvEnd(args, cursor)
  {
    argc := 0;
    while cursor + argc < |args| && !StrNEq(";", args[cursor + argc], 2, 0)
      invariant cursor + argc <= |args|
      invariant forall k :: cursor <= k < cursor + argc ==> args[k] != ";"
      invariant ArgvEnd(args, cursor) == ArgvEnd(args, cursor + argc)
    {
      IsArgvEndMark(args[cursor + argc]);
      argc := argc + 1;
    }
    if cursor + argc < |args| {
      IsArgvEndMark(args[cursor + argc]);
    }
  }

  /**
   * get_arg_argv with every allocation failure reported as -1: the
   * arguments up to a ";" (at least one) are copied and the cursor moves past
   * the ";"; with no ";" before the NULL, with nothing before it, or with an
   * allocation failing, -1 and nothing changes.
   */
  function GetArgArgvResult(argIn: PrimaryArg, args: seq<string>, cursor: nat, allocOk: bool): (r: ArgParsed)
    requires cursor <= |args|
    ensures r.ret == 0 <==> allocOk && cursor < ArgvEnd(args, cursor) < |args|
    ensures r.ret == 0 ==> var e := ArgvEnd(args, cursor);
              r.arg == ArgvArg(args[cursor..e]) && r.cursor == e + 1 && args[e] == ";"
    ensures r.ret != 0 ==> r.ret == -1 && r.arg == argIn && r.cursor == cursor
  {
    var e := ArgvEnd(args, cursor);
    var argc := e - cursor;
    if argc == 0 || e == |args| then ArgParsed(-1, argIn, cursor)
    else if !allocOk then ArgParsed(-1, argIn, cursor)
    else ArgParsed(0, ArgvArg(args[cursor..e]), IncrArgvI(cursor, argc + 1))
  }

  /** What a successful get_arg_argv copies: a non-empty run of non-";" arguments, followed in the vector by ";". */
  lemma GetArgArgvCopies(argIn: PrimaryArg, args: seq<string>, cursor: nat, allocOk: bool)
    requires cursor <= |args|
    ensures var r := GetArgArgvResult(argIn, args, cursor, allocOk);
            r.ret == 0 ==> && r.arg.ArgvArg? && |r.arg.argv| > 0
                           && r.arg.argv == args[cursor..cursor + |r.arg.argv|]
                           && ";" !in r.arg.argv
                           && args[cursor + |r.arg.argv|] == ";"
                           && r.cursor == cursor + |r.arg.argv| + 1
    ensures (forall k :: cursor <= k < |args| ==> args[k] != ";") ==> GetArgArgvResult(argIn, args, cursor, allocOk).ret == -1
    ensures cursor < |args| && args[cursor] == ";" ==> GetArgArgvResult(argIn, args, cursor, allocOk).ret == -1
  {
    var r := GetArgArgvResult(argIn, args, cursor, allocOk);
    if r.ret == 0 {
      var e := ArgvEnd(args, cursor);
      assert forall i :: 0 <= i < |r.arg.argv| ==> r.arg.argv[i] == args[cursor + i];
    }
  }

  /** get_arg_argv: the scan loop, then the allocations (one verdict for all three). */
  method GetArgArgv(argIn: PrimaryArg, args: seq<string>, cursor: nat, allocOk: bool) returns (r: ArgParsed)
    requires IsArgv(args) && cursor <= |args|
    ensures r == GetArgArgvResult(argIn, args, cursor, allocOk)
  {
    var argc := ScanArgv(args, cursor);
    if argc == 0 || cursor + argc == |args| {
      r := ArgParsed(-1, argIn, cursor);
    } else if !allocOk {
      r := ArgParsed(-1, argIn, cursor);
    } else {
      r := ArgParsed(0, ArgvArg(args[cursor..cursor + argc]), IncrArgvI(cursor, argc + 1));
    }
  }

  /**
   * get_arg_argv as written, with the verdicts of its three allocations
   * (the struct, argv, argv_dest): when only the third fails, both earlier
   * blocks are freed but ret is never set, so 0 is returned with the union
   * unwritten and the cursor unmoved.
   */
  function GetArgArgvAsWritten(argIn: PrimaryArg, args: seq<string>, cursor: nat, alloc1: bool, alloc2: bool, alloc3: bool): (r: ArgParsed)
    requires cursor <= |args|
    ensures alloc1 && alloc2 && !alloc3 && cursor < ArgvEnd(args, cursor) < |args| ==> r == ArgParsed(0, argIn, cursor)
    ensures !(alloc1 && alloc2 && !alloc3) ==> r == GetArgArgvResult(argIn, args, cursor, alloc1 && alloc2 && alloc3)
  {
    var e := ArgvEnd(args, cursor);
    var argc := e - cursor;
    if argc == 0 || e == |args| then ArgParsed(-1, argIn, cursor)
    else if !alloc1 then ArgParsed(-1, argIn, cursor)
    else if !alloc2 then ArgParsed(-1, argIn, cursor)
    else if !alloc3 then ArgParsed(0, argIn, cursor)
    else ArgParsed(0, ArgvArg(args[cursor..e]), IncrArgvI(cursor, argc + 1))
  }

  /**
   * The third allocation's failure is reported as success: for "ls ;" the
   * result is 0 although no argv was recorded, where the corrected parse
   * reports -1.
   */
  lemma ArgvDestFailureReportsSuccess(argIn: PrimaryArg)
    ensures GetArgArgvAsWritten(argIn, ["ls", ";"], 0, true, true, false) == ArgParsed(0, argIn, 0)
    ensures GetArgArgvResult(argIn, ["ls", ";"], 0, false).ret == -1
  {
    assert ArgvEnd(["ls", ";"], 0) == 1 by {
      assert ["ls", ";"][0] != ";";
    }
  }

  // ---------------------------------------------------------------------------
  // primary_arg_parse.
  // ---------------------------------------------------------------------------

  /**
   * What primary_arg_parse yields, with get_arg_long and get_arg_argv
   * corrected: the parser of the primary's argument type.  A long is a word
   * strtol converts entirely and in range, a char a one-character word, a
   * ctime the ctime of a file stat finds, an argv the non-empty run of words
   * before a ";".  A success stores the member that type reads and consumes
   * its words; a failure changes nothing.
   */
  function ArgParseResult(primary: int, argIn: PrimaryArg, args: seq<string>, cursor: int, allocOk: bool, statOf: string -> Option<Stat>): (r: ArgParsed)
    requires 0 <= primary < PRIMARY_NUM && 0 <= cursor < |args|
    ensures r.ret == 0 || r.ret == -1
    ensures r.ret == 0 ==> ArgFits(PRIMARY_ARG_TYPE_MAP[primary], r.arg) && cursor < r.cursor <= |args|
    ensures r.ret == 0 ==> r.cursor == cursor + ArgWidth(r.arg)
    ensures r.ret == -1 ==> r.arg == argIn && r.cursor == cursor
    ensures PRIMARY_ARG_TYPE_MAP[primary] == LongArgT ==>
              (r.ret == 0 <==> LongConverts(args[cursor])) && (r.ret == 0 ==> r.arg == LongArg(Strtol(args[cursor]).value))
    ensures PRIMARY_ARG_TYPE_MAP[primary] == CharArgT ==>
              (r.ret == 0 <==> |args[cursor]| == 1) && (r.ret == 0 ==> r.arg == CharArg(args[cursor][0]))
    ensures PRIMARY_ARG_TYPE_MAP[primary] == CtimArgT ==>
              (r.ret == 0 <==> allocOk && statOf(args[cursor]).Some?)
              && (r.ret == 0 ==> r.arg == CtimArg(statOf(args[cursor]).value.ctim))
    ensures PRIMARY_ARG_TYPE_MAP[primary] == ArgvArgT ==>
              (r.ret == 0 <==> allocOk && cursor < ArgvEnd(args, cursor) < |args|)
              && (r.ret == 0 ==> r.arg == ArgvArg(args[cursor..ArgvEnd(args, cursor)]))
  {
    match PRIMARY_ARG_TYPE_MAP[primary]
    case LongArgT => GetArgLong(argIn, args, cursor)
    case CharArgT => GetArgChar(argIn, args, cursor)
    case CtimArgT => GetArgCtim(argIn, args, cursor, allocOk, statOf)
    case ArgvArgT => GetArgArgvResult(argIn, args, cursor, allocOk)
  }

  /** primary_arg_parse, with get_arg_long and get_arg_argv corrected: dispatch on primary_arg_type_map[primary]. */
  method PrimaryArgParse(primary: int, argIn: PrimaryArg, args: seq<string>, cursor: nat, allocOk: bool, statOf: string -> Option<Stat>)
    returns (r: ArgParsed)
    requires 0 <= primary < PRIMARY_NUM && cursor < |args| && IsArgv(args)
    ensures r == ArgParseResult(primary, argIn, args, cursor, allocOk, statOf)
  {
    match PRIMARY_ARG_TYPE_MAP[primary]
    case LongArgT =>
      r := GetArgLong(argIn, args, cursor);
    case CharArgT =>
      r := GetArgChar(argIn, args, cursor);
    case CtimArgT =>
      r := GetArgCtim(argIn, args, cursor, allocOk, statOf);
    case ArgvArgT =>
      r := GetArgArgv(argIn, args, cursor, allocOk);
  }

  // ---------------------------------------------------------------------------
  // get_prog_state.
  // ---------------------------------------------------------------------------

  /** struct prog_state. */
  datatype ProgState = ProgState(startTimeDay: int, startTimeMin: int)

  /**
   * get_prog_state, given clock_gettime's seconds (None when it fails):
   * -1 with the state untouched on failure; otherwise the seconds rounded
   * up to whole days and whole minutes.
   */
  function GetProgState(clock: Option<int>, stateIn: ProgState): (r: (int, ProgState))
    ensures r.0 == 0 || r.0 == -1
    ensures r.0 == -1 <==> clock.None?
    ensures clock.None? ==> r.1 == stateIn
    ensures clock.Some? ==> && (r.1.startTimeDay - 1) * SEC_PER_DAY < clock.value <= r.1.startTimeDay * SEC_PER_DAY
                            && (r.1.startTimeMin - 1) * SEC_PER_MIN < clock.value <= r.1.startTimeMin * SEC_PER_MIN
  {
    match clock
    case None => (-1, stateIn)
    case Some(tvSec) =>
      var s := StartTimesOf(tvSec);
      (0, ProgState(s.day, s.min))
  }
}
