/**
 * find_src/expression_prim_eval.c: a primary's truth value for one file tree
 * entry.  primary_evaluate dispatches on the primary and hands each
 * evaluator the union member its argument type stores; an unknown primary
 * aborts (None here).  The evaluators of -cnewer, -cmin, -ctime, -mmin,
 * -mtime and -type are those of FindCommon; -exec substitutes the entry's
 * path for every "{}" word and runs the words, which `run` stands for:
 * run(words) is whether the program the first word names, run with these
 * words, exits with status 0.
 */
module FindPrimEval {
  import opened Base
  import opened Mode
  import opened CString
  import opened FindCommon
  import opened FindPrimParse

  /** The parts of an FTSENT the primaries read: fts_path and *fts_statp. */
  datatype Entry = Entry(path: string, stat: Stat)

  /** The union holds what the primary's evaluator reads. */
  predicate EvalArgOk(primary: int, arg: PrimaryArg) {
    && (0 <= primary < PRIMARY_NUM ==> ArgFits(PRIMARY_ARG_TYPE_MAP[primary], arg))
    && (primary == EXEC && arg.ArgvArg? ==> IsArgv(arg.argv))
  }

  // ---------------------------------------------------------------------------
  // eval_exec.
  // ---------------------------------------------------------------------------

  /** PRIM_EXEC_PATH_EXPAND. */
  const PATH_EXPAND: string := "{}"

  /** Comparing with strlen("{}") + 1 characters tests each word for being "{}" itself. */
  lemma ExpandMarkTests(argv: seq<string>)
    requires IsArgv(argv)
    ensures forall i :: 0 <= i < |argv| ==> (StrNEq(argv[i], PATH_EXPAND, 3, 0) <==> argv[i] == PATH_EXPAND)
  {
    forall i | 0 <= i < |argv|
      ensures StrNEq(argv[i], PATH_EXPAND, 3, 0) <==> argv[i] == PATH_EXPAND
    {
      StrNCmpWithTerminator(argv[i], PATH_EXPAND);
    }
  }

  /**
   * The words eval_exec runs: argv with each word that compares equal to
   * "{}" (strncmp over three characters) replaced by the path.  Exactly the
   * words that are "{}" are replaced; "{}x" or "x{}" are kept.
   */
  function Substituted(path: string, argv: seq<string>): (w: seq<string>)
    requires IsArgv(argv)
    ensures |w| == |argv|
    ensures forall i :: 0 <= i < |argv| ==> w[i] == (if argv[i] == PATH_EXPAND then path else argv[i])
  {
    ExpandMarkTests(argv);
    seq(|argv|, i requires 0 <= i < |argv| => if StrNEq(argv[i], PATH_EXPAND, 3, 0) then path else argv[i])
  }

  /**
   * The substitution loop of eval_exec over argv_dest (argc + 1 pointers,
   * None for NULL): entry i is word i of the substituted vector, entry argc
   * is NULL, and the entries after it are untouched.
   */
  method SubstituteArgv(path: string, argv: seq<string>, argvDest: array<Option<string>>)
    requires IsArgv(argv) && argvDest.Length > |argv|
    modifies argvDest
    ensures forall i :: 0 <= i < |argv| ==> argvDest[i] == Some(Substituted(path, argv)[i])
    ensures argvDest[|argv|] == None
    ensures forall i :: |argv| < i < argvDest.Length ==> argvDest[i] == old(argvDest[i])
  {
    ExpandMarkTests(argv);
    var argc := |argv|;
    for i := 0 to argc
      invariant forall k :: 0 <= k < i ==> argvDest[k] == Some(Substituted(path, argv)[k])
      invariant forall k :: argc <= k < argvDest.Length ==> argvDest[k] == old(argvDest[k])
    {
      if StrNEq(argv[i], PATH_EXPAND, 3, 0) {
        argvDest[i] := Some(path);
      } else {
        argvDest[i] := Some(argv[i]);
      }
    }
    argvDest[argc] := None;
  }

  /** eval_exec: substitute into argv_dest, then run it; true exactly when the run exits with 0. */
  method EvalExec(path: string, argv: seq<string>, argvDest: array<Option<string>>, run: seq<string> -> bool) returns (r: bool)
    requires IsArgv(argv) && argvDest.Length > |argv|
    modifies argvDest
    ensures r == run(Substituted(path, argv))
    ensures forall i :: 0 <= i < |argv| ==> argvDest[i] == Some(Substituted(path, argv)[i])
    ensures argvDest[|argv|] == None
    ensures forall i :: |argv| < i < argvDest.Length ==> argvDest[i] == old(argvDest[i])
  {
    SubstituteArgv(path, argv, argvDest);
    r := run(Substituted(path, argv));
  }

  // ---------------------------------------------------------------------------
  // primary_evaluate.
  // ---------------------------------------------------------------------------

  /**
   * primary_evaluate with -mtime compared against the start day, as its
   * evaluator's contract and -ctime ask for; None where the source aborts.
   */
  function PrimaryEvaluate(primary: int, arg: PrimaryArg, state: ProgState, entry: Entry, run: seq<string> -> bool): (r: Option<bool>)
    requires EvalArgOk(primary, arg)
    ensures r.None? <==> !(0 <= primary < PRIMARY_NUM)
  {
    if primary == CNEWER then Some(EvalCnewer(entry.stat.ctim, arg.ctim))
    else if primary == CMIN then Some(EvalMinutes(entry.stat.ctim, arg.long, state.startTimeMin))
    else if primary == CTIME then Some(EvalDays(entry.stat.ctim, arg.long, state.startTimeDay))
    else if primary == MMIN then Some(EvalMinutes(entry.stat.mtim, arg.long, state.startTimeMin))
    else if primary == MTIME then Some(EvalDays(entry.stat.mtim, arg.long, state.startTimeDay))
    else if primary == TYPE then Some(EvalType(entry.stat.mode, arg.ch))
    else if primary == EXEC then Some(run(Substituted(entry.path, arg.argv)))
    else None
  }

  /** A normalised timespec: 0 <= tv_nsec < 10^9. */
  predicate Normalised(t: Timespec) {
    0 <= t.nsec < 1000000000
  }

  /**
   * What each primary selects: -cnewer the files changed after the reference
   * file, -cmin/-mmin n the files changed/modified in the minute n minutes
   * before the start minute, -ctime/-mtime n likewise in days, "-type c" the
   * files of c's type ft, -exec the files for which the substituted command
   * succeeds.
   */
  lemma PrimaryEvaluateMeaning(primary: int, arg: PrimaryArg, state: ProgState, entry: Entry, run: seq<string> -> bool, ft: FileType)
    requires 0 <= primary < PRIMARY_NUM && EvalArgOk(primary, arg)
    ensures var r := PrimaryEvaluate(primary, arg, state, entry, run).value;
            && (primary == CNEWER && Normalised(entry.stat.ctim) && Normalised(arg.ctim) ==>
                  (r <==> Nanos(entry.stat.ctim) > Nanos(arg.ctim)))
            && (primary == CMIN ==> (r <==> InWindow(entry.stat.ctim.sec, state.startTimeMin - arg.long, SEC_PER_MIN)))
            && (primary == CTIME ==> (r <==> InWindow(entry.stat.ctim.sec, state.startTimeDay - arg.long, SEC_PER_DAY)))
            && (primary == MMIN ==> (r <==> InWindow(entry.stat.mtim.sec, state.startTimeMin - arg.long, SEC_PER_MIN)))
            && (primary == MTIME ==> (r <==> InWindow(entry.stat.mtim.sec, state.startTimeDay - arg.long, SEC_PER_DAY)))
            && (primary == TYPE && arg.ch == FindTypeChar(Some(ft)) ==> (r <==> FileTypeOf(entry.stat.mode) == Some(ft)))
            && (primary == TYPE && arg.ch !in "bcdflps?" ==> !r)
            && (primary == EXEC ==> (r <==> run(Substituted(entry.path, arg.argv))))
  {
    if primary == CNEWER && Normalised(entry.stat.ctim) && Normalised(arg.ctim) {
      CnewerComparesInstants(entry.stat.ctim, arg.ctim);
    } else if primary == CMIN {
      EvalMinutesWindow(entry.stat.ctim, arg.long, state.startTimeMin);
    } else if primary == CTIME {
      EvalDaysWindow(entry.stat.ctim, arg.long, state.startTimeDay);
    } else if primary == MMIN {
      EvalMinutesWindow(entry.stat.mtim, arg.long, state.startTimeMin);
    } else if primary == MTIME {
      EvalDaysWindow(entry.stat.mtim, arg.long, state.startTimeDay);
    } else if primary == TYPE {
      EvalTypeSelects(entry.stat.mode, ft, arg.ch);
    }
  }

  /**
   * primary_evaluate as written: the same except that eval_mtime is passed
   * start_time_min where it expects the start day.
   */
  function PrimaryEvaluateAsWritten(primary: int, arg: PrimaryArg, state: ProgState, entry: Entry, run: seq<string> -> bool): (r: Option<bool>)
    requires EvalArgOk(primary, arg)
    ensures primary != MTIME ==> r == PrimaryEvaluate(primary, arg, state, entry, run)
    ensures primary == MTIME ==> r == Some(EvalDays(entry.stat.mtim, arg.long, state.startTimeMin))
  {
    if primary == CNEWER then Some(EvalCnewer(entry.stat.ctim, arg.ctim))
    else if primary == CMIN then Some(EvalMinutes(entry.stat.ctim, arg.long, state.startTimeMin))
    else if primary == CTIME then Some(EvalDays(entry.stat.ctim, arg.long, state.startTimeDay))
    else if primary == MMIN then Some(EvalMinutes(entry.stat.mtim, arg.long, state.startTimeMin))
    else if primary == MTIME then Some(EvalDays(entry.stat.mtim, arg.long, state.startTimeMin))
    else if primary == TYPE then Some(EvalType(entry.stat.mode, arg.ch))
    else if primary == EXEC then Some(run(Substituted(entry.path, arg.argv)))
    else None
  }

  /**
   * Started one day after the epoch (start day 1, start minute 1440), a file
   * modified at that instant is 0 days old, yet "-mtime 0" rejects it as
   * written; the corrected evaluation accepts it.
   */
  lemma MtimeComparesMinutesWithDays(run: seq<string> -> bool)
    ensures var state := GetProgState(Some(86400), ProgState(0, 0)).1;
            var entry := Entry("f", Stat(Timespec(0, 0), Timespec(86400, 0), S_IFREG));
            && state == ProgState(1, 1440)
            && PrimaryEvaluateAsWritten(MTIME, LongArg(0), state, entry, run) == Some(false)
            && PrimaryEvaluate(MTIME, LongArg(0), state, entry, run) == Some(true)
  {
    var st := StartTimesOf(86400);
    assert st.day == 1 && st.min == 1440;
    CDivNonNegative(86400, SEC_PER_DAY);
  }
}
