/**
 * What the find expression code shares across its versions
 * (find_src/expression_prim_*.c, expression_primaries.c, expression_prim.c
 * and lost_fucking_souls/expression_defs.c): file times as timespecs, the
 * start times rounded up to whole minutes and days, the time comparisons of
 * -cnewer, -cmin, -ctime, -mmin and -mtime, and the type characters of -type.
 * time_t and long are unbounded here: the differences the predicates take
 * cannot overflow for real clock values.
 */
module FindCommon {
  import opened Base
  import opened Mode
  import LongOut

  /** struct timespec. */
  datatype Timespec = Timespec(sec: int, nsec: int)

  /** The parts of struct stat the primaries read. */
  datatype Stat = Stat(ctim: Timespec, mtim: Timespec, mode: ModeT)

  const SEC_PER_DAY: int := 86400
  const SEC_PER_MIN: int := 60

  // ---------------------------------------------------------------------------
  // Start times.
  // ---------------------------------------------------------------------------

  /**
   * "t / d, then one more if t % d > 0" with C's division: the smallest
   * multiple count of d that reaches t, that is, t / d rounded up, for
   * negative t as well as positive.
   */
  function RoundUpDiv(t: int, d: int): (r: int)
    requires d > 0
    ensures (r - 1) * d < t <= r * d
  {
    CDivPositiveDivisor(t, d);
    var q := CDiv(t, d);
    assert (q + 1) * d == q * d + d && (q - 1) * d == q * d - d;
    q + (if CMod(t, d) > 0 then 1 else 0)
  }

  /** The two start times the programs compute from the clock's seconds. */
  datatype StartTimes = StartTimes(day: int, min: int)

  /** Both start times: the clock's seconds rounded up to whole days and to whole minutes. */
  function StartTimesOf(tvSec: int): (s: StartTimes)
    ensures (s.day - 1) * SEC_PER_DAY < tvSec <= s.day * SEC_PER_DAY
    ensures (s.min - 1) * SEC_PER_MIN < tvSec <= s.min * SEC_PER_MIN
  {
    StartTimes(RoundUpDiv(tvSec, SEC_PER_DAY), RoundUpDiv(tvSec, SEC_PER_MIN))
  }

  // ---------------------------------------------------------------------------
  // Time predicates.
  // ---------------------------------------------------------------------------

  /** eval_cnewer: ctim is strictly later than oCtim, seconds first, then nanoseconds. */
  predicate EvalCnewer(ctim: Timespec, oCtim: Timespec) {
    ctim.sec > oCtim.sec || (ctim.sec == oCtim.sec && ctim.nsec > oCtim.nsec)
  }

  /** The nanoseconds since the epoch of a timespec. */
  function Nanos(t: Timespec): int {
    t.sec * 1000000000 + t.nsec
  }

  /**
   * For normalised timespecs (0 <= tv_nsec < 10^9) -cnewer compares the
   * instants themselves, so it is a strict total order.
   */
  lemma CnewerComparesInstants(a: Timespec, b: Timespec)
    requires 0 <= a.nsec < 1000000000 && 0 <= b.nsec < 1000000000
    ensures EvalCnewer(a, b) <==> Nanos(a) > Nanos(b)
    ensures !EvalCnewer(a, a)
    ensures a != b ==> EvalCnewer(a, b) != EvalCnewer(b, a)
  {
    if a.sec > b.sec {
      assert a.sec * 1000000000 >= b.sec * 1000000000 + 1000000000;
    } else if a.sec < b.sec {
      assert b.sec * 1000000000 >= a.sec * 1000000000 + 1000000000;
    }
  }

  /** "start_time_min - tv_sec / 60 == n" (eval_cmin, eval_mmin), with C's truncating division. */
  predicate EvalMinutes(t: Timespec, n: int, startMin: int) {
    startMin - CDiv(t.sec, SEC_PER_MIN) == n
  }

  /** "start_time_day - tv_sec / 86400 == n" (eval_ctime, eval_mtime). */
  predicate EvalDays(t: Timespec, n: int, startDay: int) {
    startDay - CDiv(t.sec, SEC_PER_DAY) == n
  }

  /**
   * The seconds a C-truncated division by width maps to m: the width seconds
   * from m * width on for a time at or after the epoch; before the epoch
   * truncation moves the window to end on m * width, so m = 0 covers the
   * 2 * width - 1 seconds around the epoch.
   */
  predicate InWindow(t: int, m: int, width: int) {
    && (t >= 0 ==> m * width <= t < m * width + width)
    && (t < 0 ==> m * width - width < t <= m * width)
  }

  /** A minute test accepts exactly the file times in the minute n minutes before the start minute. */
  lemma EvalMinutesWindow(t: Timespec, n: int, startMin: int)
    ensures EvalMinutes(t, n, startMin) <==> InWindow(t.sec, startMin - n, SEC_PER_MIN)
  {
    CDivPositiveDivisor(t.sec, SEC_PER_MIN);
    var q, m := CDiv(t.sec, SEC_PER_MIN), startMin - n;
    if t.sec >= 0 && m * 60 <= t.sec < m * 60 + 60 {
      assert q == m;
    } else if t.sec < 0 && m * 60 - 60 < t.sec <= m * 60 {
      assert q == m;
    }
  }

  /** A day test accepts exactly the file times in the day n days before the start day. */
  lemma EvalDaysWindow(t: Timespec, n: int, startDay: int)
    ensures EvalDays(t, n, startDay) <==> InWindow(t.sec, startDay - n, SEC_PER_DAY)
  {
    CDivPositiveDivisor(t.sec, SEC_PER_DAY);
    var q, m := CDiv(t.sec, SEC_PER_DAY), startDay - n;
    if t.sec >= 0 && m * 86400 <= t.sec < m * 86400 + 86400 {
      assert q == m;
    } else if t.sec < 0 && m * 86400 - 86400 < t.sec <= m * 86400 {
      assert q == m;
    }
  }

  /**
   * Rounding the start up and the file time down makes a file changed at
   * the start instant 0 minutes old when the start is on a minute mark and 1
   * minute old otherwise.
   */
  lemma ChangedAtStart(tvSec: int)
    requires tvSec >= 0
    ensures EvalMinutes(Timespec(tvSec, 0), if tvSec % 60 == 0 then 0 else 1, StartTimesOf(tvSec).min)
    ensures EvalDays(Timespec(tvSec, 0), if tvSec % 86400 == 0 then 0 else 1, StartTimesOf(tvSec).day)
  {
    var s := StartTimesOf(tvSec);
    CDivNonNegative(tvSec, SEC_PER_MIN);
    CDivNonNegative(tvSec, SEC_PER_DAY);
    assert tvSec == tvSec / 60 * 60 + tvSec % 60;
    assert tvSec == tvSec / 86400 * 86400 + tvSec % 86400;
  }

  // ---------------------------------------------------------------------------
  // -type.
  // ---------------------------------------------------------------------------

  /** find's type characters: 'b', 'c', 'd', 'f', 'l', 'p', 's', and '?' for no known type. */
  function FindTypeChar(t: Option<FileType>): char {
    match t
    case None => '?'
    case Some(Blk) => 'b'
    case Some(Chr) => 'c'
    case Some(Dir) => 'd'
    case Some(Reg) => 'f'
    case Some(Lnk) => 'l'
    case Some(Fifo) => 'p'
    case Some(Sock) => 's'
  }

  /** The characters are distinct, so a character names at most one type. */
  lemma FindTypeCharInjective(t1: Option<FileType>, t2: Option<FileType>)
    ensures FindTypeChar(t1) == FindTypeChar(t2) <==> t1 == t2
    ensures FindTypeChar(t1) in "bcdflps?"
  {
  }

  /** find and ls agree on every type character except a regular file's: 'f' against '-'. */
  lemma FindAndLsTypeChars(t: Option<FileType>)
    ensures FindTypeChar(t) != LongOut.LsTypeChar(t) <==> t == Some(Reg)
    ensures FindTypeChar(Some(Reg)) == 'f' && LongOut.LsTypeChar(Some(Reg)) == '-'
  {
  }

  /** get_type_char's tables: the types in search order and their characters, '?' last. */
  const TYPE_ORDER: seq<FileType> := [Blk, Chr, Dir, Reg, Lnk, Fifo, Sock]
  const TYPE_CHAR: string := "bcdflps?"

  /**
   * get_type_char: search the S_IF* table for mode's type field and return
   * the character at the index where the search stops (the '?' after the
   * table when nothing matches).  The same loop is in
   * expression_prim_eval.c, expression_prim.c and expression_primaries.c.
   */
  method GetTypeChar(mode: ModeT) returns (c: char)
    ensures c == FindTypeChar(FileTypeOf(mode))
    ensures c == '?' <==> FileTypeOf(mode).None?
  {
    var typeC := 7;
    var m := TypeField(mode);
    var i := 0;
    while i < typeC && TypeBits(TYPE_ORDER[i]) != m
      invariant 0 <= i <= typeC
      invariant forall j :: 0 <= j < i ==> TypeBits(TYPE_ORDER[j]) != m
    {
      i := i + 1;
    }
    c := TYPE_CHAR[i];
    if i < typeC {
      assert FileTypeOf(mode) == Some(TYPE_ORDER[i]);
    } else {
      assert TypeBits(TYPE_ORDER[0]) != m && TypeBits(TYPE_ORDER[1]) != m && TypeBits(TYPE_ORDER[2]) != m;
      assert TypeBits(TYPE_ORDER[3]) != m && TypeBits(TYPE_ORDER[4]) != m && TypeBits(TYPE_ORDER[5]) != m;
      assert TypeBits(TYPE_ORDER[6]) != m;
    }
  }

  /** eval_type: the file's type character is t. */
  predicate EvalType(mode: ModeT, t: char) {
    FindTypeChar(FileTypeOf(mode)) == t
  }

  /**
   * "-type c" holds exactly of the files of c's type ("-type f" of the
   * regular files, and so on), and never for a character outside "bcdflps?".
   */
  lemma EvalTypeSelects(mode: ModeT, ft: FileType, t: char)
    ensures EvalType(mode, FindTypeChar(Some(ft))) <==> FileTypeOf(mode) == Some(ft)
    ensures t !in "bcdflps?" ==> !EvalType(mode, t)
  {
    FindTypeCharInjective(FileTypeOf(mode), Some(ft));
    FindTypeCharInjective(FileTypeOf(mode), None);
  }
}
