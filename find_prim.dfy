/**
 * find_src/expression_prim.c, the middle primary layer: the seven
 * primaries and union of expression_prim_defs.h, the start times in the
 * primary_args_g of expression_primaries.h, and -exec running its words
 * as they are, without substituting the path.
 */
module FindPrim {
  import opened Base
  import opened FindCommon
  import opened FindPrimParse
  import FindPrimEval
  import FindPrimaries

  /**
   * primary_evaluate: each primary's evaluator, with -cmin/-mmin against
   * time_min and -ctime/-mtime against time_day; -exec runs argv itself.
   * None where the source aborts.
   */
  function PrimaryEvaluate(primary: int, arg: PrimaryArg, globals: FindPrimaries.PrimaryArgsG, entry: FindPrimEval.Entry,
                           run: seq<string> -> bool): (r: Option<bool>)
    requires FindPrimEval.EvalArgOk(primary, arg)
    reads globals
    ensures r.None? <==> !(0 <= primary < PRIMARY_NUM)
  {
    if primary == CNEWER then Some(EvalCnewer(entry.stat.ctim, arg.ctim))
    else if primary == CMIN then Some(EvalMinutes(entry.stat.ctim, arg.long, globals.timeMin))
    else if primary == CTIME then Some(EvalDays(entry.stat.ctim, arg.long, globals.timeDay))
    else if primary == MMIN then Some(EvalMinutes(entry.stat.mtim, arg.long, globals.timeMin))
    else if primary == MTIME then Some(EvalDays(entry.stat.mtim, arg.long, globals.timeDay))
    else if primary == TYPE then Some(EvalType(entry.stat.mode, arg.ch))
    else if primary == EXEC then Some(run(arg.argv))
    else None
  }

  /**
   * With the globals equal to the program state, this layer decides every
   * primary as the corrected later layer does (so -mtime against days);
   * -exec agrees exactly when no word is "{}", and otherwise still runs
   * the literal "{}".
   */
  lemma AgreesWithCorrectedEval(primary: int, arg: PrimaryArg, globals: FindPrimaries.PrimaryArgsG, entry: FindPrimEval.Entry,
                                run: seq<string> -> bool)
    requires FindPrimEval.EvalArgOk(primary, arg)
    ensures var state := ProgState(globals.timeDay, globals.timeMin);
            primary != EXEC ==> PrimaryEvaluate(primary, arg, globals, entry, run) == FindPrimEval.PrimaryEvaluate(primary, arg, state, entry, run)
    ensures primary == EXEC ==> PrimaryEvaluate(primary, arg, globals, entry, run) == Some(run(arg.argv))
    ensures var state := ProgState(globals.timeDay, globals.timeMin);
            primary == EXEC && FindPrimEval.PATH_EXPAND !in arg.argv ==>
              PrimaryEvaluate(primary, arg, globals, entry, run) == FindPrimEval.PrimaryEvaluate(primary, arg, state, entry, run)
  {
    if primary == EXEC && FindPrimEval.PATH_EXPAND !in arg.argv {
      var w := FindPrimEval.Substituted(entry.path, arg.argv);
      assert forall i :: 0 <= i < |arg.argv| ==> arg.argv[i] != FindPrimEval.PATH_EXPAND;
      assert w == arg.argv;
    }
  }

  /**
   * The earliest layer decides its six primaries as the later layers do,
   * with the reference file's ctime in place of its whole stat; where the
   * later layers abort on an unknown primary it answers false.
   */
  lemma PrimariesAgreeWithLaterLayers(primary: int, arg: FindPrimaries.PrimaryArg, globals: FindPrimaries.PrimaryArgsG,
                                      entry: FindPrimEval.Entry, run: seq<string> -> bool)
    requires 0 <= primary < FindPrimaries.PRIMARY_NUM && FindPrimaries.ArgOk(primary, arg)
    ensures FindPrimEval.EvalArgOk(primary, FindPrimaries.LaterArg(arg))
    ensures Some(FindPrimaries.PrimaryEvaluate(primary, arg, globals, entry.stat))
            == PrimaryEvaluate(primary, FindPrimaries.LaterArg(arg), globals, entry, run)
            == FindPrimEval.PrimaryEvaluate(primary, FindPrimaries.LaterArg(arg), ProgState(globals.timeDay, globals.timeMin), entry, run)
    ensures !FindPrimaries.PrimaryEvaluate(FindPrimaries.PRIMARY_NUM, arg, globals, entry.stat)
  {
  }
}
