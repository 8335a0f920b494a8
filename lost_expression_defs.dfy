/**
 * find_src/lost_fucking_souls/expression_defs.c with expression_defs.h, the
 * first draft of the find expression: its tables, its error codes, the
 * start-time globals and the primary evaluators.  The evaluators read the
 * globals start_time_day and start_time_min, which are a StartTime object
 * here (the draft assigns them but no shown file declares them).
 */
module LostExpressionDefs {
  import opened Base
  import opened Mode
  import opened FindCommon

  /** enum arg_type. */
  datatype ArgType = ArgLong | ArgFileType | ArgStat

  /** enum primary. */
  const CNEWER: int := 0
  const CMIN: int := 1
  const CTIME: int := 2
  const MMIN: int := 3
  const MTIME: int := 4
  const TYPE: int := 5
  const PRIMARIES_TOTAL: int := 6

  /** valid_file_types, primary_str_arr and primary_arg_type_arr. */
  const VALID_FILE_TYPES: string := "bcdflps"
  const PRIMARY_STR_ARR: seq<string> := ["-cnewer", "-cmin", "-ctime", "-mmin", "-mtime", "-type"]
  const PRIMARY_ARG_TYPE_ARR: seq<ArgType> := [ArgStat, ArgLong, ArgLong, ArgLong, ArgLong, ArgFileType]

  /** enum expr_err (0 to 4). */
  datatype ExprErr = ErrNone | ErrMalloc | ErrInvalidPrimary | ErrInvalidArg | ErrNoArg

  /** The globals start_time_day and start_time_min (static storage, so 0 until set). */
  class StartTime {
    var startTimeDay: int
    var startTimeMin: int

    constructor ()
      ensures startTimeDay == 0 && startTimeMin == 0
    {
      startTimeDay := 0;
      startTimeMin := 0;
    }

    /**
     * set_start_time: prog_start / 86400 and prog_start / 60, each one more
     * when the remainder is positive, that is, the start rounded up to whole
     * days and whole minutes.
     */
    method SetStartTime(progStart: int)
      modifies this
      ensures startTimeDay == StartTimesOf(progStart).day && startTimeMin == StartTimesOf(progStart).min
      ensures (startTimeDay - 1) * SEC_PER_DAY < progStart <= startTimeDay * SEC_PER_DAY
      ensures (startTimeMin - 1) * SEC_PER_MIN < progStart <= startTimeMin * SEC_PER_MIN
    {
      startTimeDay := CDiv(progStart, SEC_PER_DAY);
      if CMod(progStart, SEC_PER_DAY) > 0 {
        startTimeDay := startTimeDay + 1;
      }
      startTimeMin := CDiv(progStart, SEC_PER_MIN);
      if CMod(progStart, SEC_PER_MIN) > 0 {
        startTimeMin := startTimeMin + 1;
      }
    }
  }

  /**
   * eval_cnewer, written with differences: f_stat's ctime is strictly later
   * than o_stat's, seconds first, then nanoseconds, which is the comparison
   * of the later drafts.
   */
  function EvalCnewer(fStat: Stat, oStat: Stat): (r: bool)
    ensures r == FindCommon.EvalCnewer(fStat.ctim, oStat.ctim)
  {
    if fStat.ctim.sec - oStat.ctim.sec > 0 then true
    else if fStat.ctim.sec - oStat.ctim.sec == 0 && fStat.ctim.nsec - oStat.ctim.nsec > 0 then true
    else false
  }

  /** eval_cmin: the file's status changed in the minute n minutes before the start minute. */
  function EvalCmin(g: StartTime, fStat: Stat, n: int): (r: bool)
    reads g
    ensures r <==> InWindow(fStat.ctim.sec, g.startTimeMin - n, SEC_PER_MIN)
  {
    EvalMinutesWindow(fStat.ctim, n, g.startTimeMin);
    if g.startTimeMin - CDiv(fStat.ctim.sec, SEC_PER_MIN) == n then true else false
  }

  /** eval_ctime: the file's status changed in the day n days before the start day. */
  function EvalCtime(g: StartTime, fStat: Stat, n: int): (r: bool)
    reads g
    ensures r <==> InWindow(fStat.ctim.sec, g.startTimeDay - n, SEC_PER_DAY)
  {
    EvalDaysWindow(fStat.ctim, n, g.startTimeDay);
    if g.startTimeDay - CDiv(fStat.ctim.sec, SEC_PER_DAY) == n then true else false
  }

  /** eval_mmin: the file was modified in the minute n minutes before the start minute. */
  function EvalMmin(g: StartTime, fStat: Stat, n: int): (r: bool)
    reads g
    ensures r <==> InWindow(fStat.mtim.sec, g.startTimeMin - n, SEC_PER_MIN)
  {
    EvalMinutesWindow(fStat.mtim, n, g.startTimeMin);
    if g.startTimeMin - CDiv(fStat.mtim.sec, SEC_PER_MIN) == n then true else false
  }

  /** eval_mtime: the file was modified in the day n days before the start day. */
  function EvalMtime(g: StartTime, fStat: Stat, n: int): (r: bool)
    reads g
    ensures r <==> InWindow(fStat.mtim.sec, g.startTimeDay - n, SEC_PER_DAY)
  {
    EvalDaysWindow(fStat.mtim, n, g.startTimeDay);
    if g.startTimeDay - CDiv(fStat.mtim.sec, SEC_PER_DAY) == n then true else false
  }

  /**
   * get_type_char, one S_IS* test after the other: the same character as
   * the table search of the later drafts, '?' for no known type.
   */
  function GetTypeChar(mode: ModeT): (c: char)
    ensures c == FindTypeChar(FileTypeOf(mode))
    ensures c in "bcdflps?"
  {
    var f := TypeField(mode);
    if f == S_IFBLK then 'b'
    else if f == S_IFCHR then 'c'
    else if f == S_IFDIR then 'd'
    else if f == S_IFREG then 'f'
    else if f == S_IFLNK then 'l'
    else if f == S_IFIFO then 'p'
    else if f == S_IFSOCK then 's'
    else '?'
  }

  /** eval_type: "-type t" holds of the files whose type character is t, so a valid t selects exactly its type. */
  function EvalType(fStat: Stat, t: char): (r: bool)
    ensures forall ft :: t == FindTypeChar(Some(ft)) ==> (r <==> FileTypeOf(fStat.mode) == Some(ft))
    ensures t !in "bcdflps?" ==> !r
  {
    TypeCharSelects(fStat.mode, t);
    if GetTypeChar(fStat.mode) == t then true else false
  }

  /** Each valid type character is the character of one type only. */
  lemma TypeCharSelects(mode: ModeT, t: char)
    ensures forall ft :: t == FindTypeChar(Some(ft)) ==> (FindCommon.EvalType(mode, t) <==> FileTypeOf(mode) == Some(ft))
    ensures t !in "bcdflps?" ==> !FindCommon.EvalType(mode, t)
  {
    forall ft | t == FindTypeChar(Some(ft))
      ensures FindCommon.EvalType(mode, t) <==> FileTypeOf(mode) == Some(ft)
    {
      EvalTypeSelects(mode, ft, t);
    }
    EvalTypeSelects(mode, Reg, t);
  }
}
