/**
 * find_src/expression_primaries.c with expression_primaries.h, the earlier
 * primary layer: six primaries without -exec, one argument word per
 * primary, the reference file of -cnewer kept as its whole stat, and the
 * start times in a primary_args_g.  Every argument word is parsed on its
 * own (there is no cursor), and an unknown primary evaluates to false.
 */
module FindPrimaries {
  import opened Base
  import opened CString
  import opened Mode
  import opened FindCommon
  import FindPrimParse

  /** enum primary. */
  const CNEWER: int := 0
  const CMIN: int := 1
  const CTIME: int := 2
  const MMIN: int := 3
  const MTIME: int := 4
  const TYPE: int := 5
  const PRIMARY_NUM: int := 6

  /** enum arg_type. */
  datatype ArgType = ArgLong | ArgChar | ArgStat

  /** primary_str and primary_arg_type. */
  const PRIMARY_STR: seq<string> := ["-cnewer", "-cmin", "-ctime", "-mmin", "-mtime", "-type"]
  const PRIMARY_ARG_TYPE: seq<ArgType> := [ArgStat, ArgLong, ArgLong, ArgLong, ArgLong, ArgChar]

  /** union primary_arg; StatArg(None) is a NULL stat_arg, Unset a union nothing has written. */
  datatype PrimaryArg = Unset | LongArg(long: int) | CharArg(ch: char) | StatArg(stat: Option<Stat>)

  /** The table is the later table without -exec, in the same order. */
  lemma TableIsPrefixOfLater()
    ensures PRIMARY_STR == FindPrimParse.PRIMARY_STR_MAP[..PRIMARY_NUM]
    ensures FindPrimParse.PRIMARY_STR_MAP[PRIMARY_NUM] == "-exec"
  {
  }

  // ---------------------------------------------------------------------------
  // primary_parse.
  // ---------------------------------------------------------------------------

  /**
   * primary_parse: the first entry of the table that is a prefix of argS,
   * or -1 with *primary set to PRIMARY_NUM.  It finds what the later parser
   * finds, except that a name starting with "-exec" is unknown here.
   */
  method PrimaryParse(argS: string) returns (ret: int, primary: int)
    requires '\0' !in argS
    ensures ret == 0 || ret == -1
    ensures ret == -1 <==> forall k :: 0 <= k < PRIMARY_NUM ==> !HasPrefix(argS, PRIMARY_STR[k])
    ensures ret == -1 ==> primary == PRIMARY_NUM
    ensures ret == 0 ==> 0 <= primary < PRIMARY_NUM && HasPrefix(argS, PRIMARY_STR[primary])
    ensures ret == 0 ==> forall k :: 0 <= k < primary ==> !HasPrefix(argS, PRIMARY_STR[k])
    ensures ret == 0 ==> FindPrimParse.PrimaryOf(argS, 0) == Some(primary)
    ensures ret == -1 ==> FindPrimParse.PrimaryOf(argS, 0) in {None, Some(FindPrimParse.EXEC)}
  {
    var prim := 0;
    while prim < PRIMARY_NUM && !StrNEq(argS, PRIMARY_STR[prim], |PRIMARY_STR[prim]|, 0)
      invariant 0 <= prim <= PRIMARY_NUM
      invariant forall k :: 0 <= k < prim ==> !HasPrefix(argS, PRIMARY_STR[k])
    {
      FindPrimParse.PrimaryNamesAreCStrings(prim);
      StrNCmpPrefix(argS, PRIMARY_STR[prim]);
      prim := prim + 1;
    }
    if prim < PRIMARY_NUM {
      FindPrimParse.PrimaryNamesAreCStrings(prim);
      StrNCmpPrefix(argS, PRIMARY_STR[prim]);
    }
    primary := prim;
    ret := if prim == PRIMARY_NUM then -1 else 0;
    FindPrimParse.PrimaryOfFirst(argS, 0);
    var later := FindPrimParse.PrimaryOf(argS, 0);
    if ret == -1 && later.Some? {
      assert later.value >= PRIMARY_NUM;
    }
  }

  // ---------------------------------------------------------------------------
  // primary_arg_parse.
  // ---------------------------------------------------------------------------

  /** get_stat: a stat buffer from malloc filled by stat, or NULL when either fails. */
  function GetStat(path: string, allocOk: bool, statOf: string -> Option<Stat>): Option<Stat> {
    if !allocOk then None else statOf(path)
  }

  /**
   * primary_arg_parse of one argument word.  A long argument is whatever
   * strtol makes of the word, and always succeeds: in particular a word of
   * digits within range gives its value, a word without leading digits 0.  A char
   * argument stores the word's first character (its terminator for an empty
   * word) and fails unless the word is one character long.  A stat argument
   * fails exactly when get_stat returns NULL.
   */
  function PrimaryArgParse(primary: int, argS: string, allocOk: bool, statOf: string -> Option<Stat>): (r: (int, PrimaryArg))
    requires 0 <= primary < PRIMARY_NUM
    ensures r.0 == 0 || r.0 == -1
    ensures PRIMARY_ARG_TYPE[primary] == ArgLong ==> r.0 == 0 && r.1 == LongArg(Strtol(argS).value) && IsLong(r.1.long)
    ensures PRIMARY_ARG_TYPE[primary] == ArgLong && argS != [] && AllDigits(argS) && DecimalValue(argS) <= LONG_MAX ==>
              r.1 == LongArg(DecimalValue(argS))
    ensures PRIMARY_ARG_TYPE[primary] == ArgLong && (argS == [] || (!IsDigit(argS[0]) && !IsSpace(argS[0]) && argS[0] != '-' && argS[0] != '+')) ==>
              r.1 == LongArg(0)
    ensures PRIMARY_ARG_TYPE[primary] == ArgChar ==> (r.0 == 0 <==> |argS| == 1) && r.1 == CharArg(CharAt(argS, 0))
    ensures PRIMARY_ARG_TYPE[primary] == ArgStat ==> (r.0 == 0 <==> allocOk && statOf(argS).Some?)
    ensures PRIMARY_ARG_TYPE[primary] == ArgStat ==> r.1.StatArg? && (r.0 == 0 ==> r.1.stat == statOf(argS))
  {
    match PRIMARY_ARG_TYPE[primary]
    case ArgLong =>
      if argS != [] && AllDigits(argS) then StrtolDigits(argS); (0, LongArg(Strtol(argS).value))
      else (0, LongArg(Strtol(argS).value))
    case ArgChar =>
      (if |argS| != 1 then -1 else 0, CharArg(CharAt(argS, 0)))
    case ArgStat =>
      var st := GetStat(argS, allocOk, statOf);
      (if st.None? then -1 else 0, StatArg(st))
  }

  /** As the earlier layer parses longs, "-mmin abc" is read as "-mmin 0" and accepted. */
  lemma NonNumericLongAccepted()
    ensures PrimaryArgParse(MMIN, "abc", true, _ => None) == (0, LongArg(0))
  {
    assert !IsDigit("abc"[0]);
  }

  // ---------------------------------------------------------------------------
  // primary_args_g.
  // ---------------------------------------------------------------------------

  /** struct primary_args_g: the start time rounded up to days and to minutes. */
  class PrimaryArgsG {
    var timeDay: int
    var timeMin: int

    constructor (timeDay: int, timeMin: int)
      ensures this.timeDay == timeDay && this.timeMin == timeMin
    {
      this.timeDay := timeDay;
      this.timeMin := timeMin;
    }

    /**
     * get_primary_globals, given clock_gettime's seconds (None when it
     * fails): -1 with the fields untouched, or 0 with the seconds rounded up
     * to whole days and to whole minutes.
     */
    method GetPrimaryGlobals(clock: Option<int>) returns (ret: int)
      modifies this
      ensures ret == -1 <==> clock.None?
      ensures ret == 0 <==> clock.Some?
      ensures clock.None? ==> timeDay == old(timeDay) && timeMin == old(timeMin)
      ensures clock.Some? ==> timeDay == StartTimesOf(clock.value).day && timeMin == StartTimesOf(clock.value).min
      ensures clock.Some? ==> && (timeDay - 1) * SEC_PER_DAY < clock.value <= timeDay * SEC_PER_DAY
                              && (timeMin - 1) * SEC_PER_MIN < clock.value <= timeMin * SEC_PER_MIN
    {
      if clock.None? {
        return -1;
      }
      var tvSec := clock.value;
      timeDay := CDiv(tvSec, SEC_PER_DAY);
      if CMod(tvSec, SEC_PER_DAY) > 0 {
        timeDay := timeDay + 1;
      }
      timeMin := CDiv(tvSec, SEC_PER_MIN);
      if CMod(tvSec, SEC_PER_MIN) > 0 {
        timeMin := timeMin + 1;
      }
      ret := 0;
    }
  }

  // ---------------------------------------------------------------------------
  // primary_evaluate.
  // ---------------------------------------------------------------------------

  /** The union holds what each primary's evaluator reads (a non-NULL stat for -cnewer). */
  predicate ArgOk(primary: int, arg: PrimaryArg) {
    0 <= primary < PRIMARY_NUM ==>
      match PRIMARY_ARG_TYPE[primary]
      case ArgLong => arg.LongArg?
      case ArgChar => arg.CharArg?
      case ArgStat => arg.StatArg? && arg.stat.Some?
  }

  /** primary_evaluate: each primary's evaluator on f_stat; false for a primary outside the table. */
  function PrimaryEvaluate(primary: int, arg: PrimaryArg, globals: PrimaryArgsG, fStat: Stat): (r: bool)
    requires ArgOk(primary, arg)
    reads globals
    ensures !(0 <= primary < PRIMARY_NUM) ==> !r
  {
    if primary == CNEWER then EvalCnewer(fStat.ctim, arg.stat.value.ctim)
    else if primary == CMIN then EvalMinutes(fStat.ctim, arg.long, globals.timeMin)
    else if primary == CTIME then EvalDays(fStat.ctim, arg.long, globals.timeDay)
    else if primary == MMIN then EvalMinutes(fStat.mtim, arg.long, globals.timeMin)
    else if primary == MTIME then EvalDays(fStat.mtim, arg.long, globals.timeDay)
    else if primary == TYPE then EvalType(fStat.mode, arg.ch)
    else false
  }

  /** The later layer's argument for the same primary: -cnewer keeps only the reference file's ctime. */
  function LaterArg(arg: PrimaryArg): FindPrimParse.PrimaryArg {
    match arg
    case LongArg(n) => FindPrimParse.LongArg(n)
    case CharArg(c) => FindPrimParse.CharArg(c)
    case StatArg(Some(st)) => FindPrimParse.CtimArg(st.ctim)
    case _ => FindPrimParse.Unset
  }
}
