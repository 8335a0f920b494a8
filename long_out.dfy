/**
 * ls_src/long_out.c: the long-format ("-l") output table.  A directory
 * listing becomes an array of parsed entries (the strings that go into the
 * columns) plus five column widths, the longest string of each column.
 * long_out_parse, which asks getpwuid, getgrgid, localtime and sprintf for
 * the strings, is a parameter: what it would produce for each entry.
 */
module LongOut {
  import opened Base
  import opened Mode
  import LsList

  /** What the long-format functions return. */
  datatype LOutErr = LOutErrNone | LOutErrMalloc | LOutErrParse

  /** struct long_out_s: the already formatted strings of one entry. */
  datatype LongOutS = LongOutS(inoStr: string, modeStr: string, nlinkStr: string, usrStr: string,
                               grpStr: string, sizeStr: string, mtimStr: string, fName: string)

  /** A freshly allocated, not yet parsed entry. */
  const BLANK: LongOutS := LongOutS("", "", "", "", "", "", "", "")

  /** What long_out_parse does for one listed file: the parsed entry or its error (MALLOC or PARSE). */
  datatype Parsed = ParsedOk(entry: LongOutS) | ParseFailed(isMalloc: bool) {
    function Err(): LOutErr {
      match this
      case ParsedOk(_) => LOutErrNone
      case ParseFailed(m) => if m then LOutErrMalloc else LOutErrParse
    }
  }

  /** The five columns whose widths vary. */
  datatype Column = Ino | Nlink | Usr | Grp | Size

  function ColumnStr(e: LongOutS, c: Column): string {
    match c
    case Ino => e.inoStr
    case Nlink => e.nlinkStr
    case Usr => e.usrStr
    case Grp => e.grpStr
    case Size => e.sizeStr
  }

  /**
   * Column c's width after the entries s have been scanned from the width
   * m: the least number that is at least m and at least the strlen of c in
   * each entry.
   */
  function MaxStrLen(s: seq<LongOutS>, c: Column, m: nat): (r: nat)
    ensures r >= m
    ensures forall i :: 0 <= i < |s| ==> |ColumnStr(s[i], c)| <= r
    ensures r == m || exists i :: 0 <= i < |s| && r == |ColumnStr(s[i], c)|
  {
    if s == [] then m
    else
      var r := MaxStrLen(s[..|s| - 1], c, m);
      var n := |ColumnStr(s[|s| - 1], c)|;
      assert forall i :: 0 <= i < |s| - 1 ==> s[..|s| - 1][i] == s[i];
      if n > r then n else r
  }

  /** Scanning one more entry raises the width to that entry's string if it is longer. */
  lemma MaxStrLenSnoc(s: seq<LongOutS>, e: LongOutS, c: Column, m: nat)
    ensures MaxStrLen(s + [e], c, m) == if |ColumnStr(e, c)| > MaxStrLen(s, c, m) then |ColumnStr(e, c)| else MaxStrLen(s, c, m)
  {
    assert (s + [e])[..|s|] == s;
  }

  /** The type character of the long format: 'b', 'c', 'd', '-', 'l', 'p', 's', '?' for no known type. */
  function LsTypeChar(t: Option<FileType>): char {
    match t
    case None => '?'
    case Some(Blk) => 'b'
    case Some(Chr) => 'c'
    case Some(Dir) => 'd'
    case Some(Reg) => '-'
    case Some(Lnk) => 'l'
    case Some(Fifo) => 'p'
    case Some(Sock) => 's'
  }

  /** get_type_char's tables: the types in search order and their characters, '?' last. */
  const TYPE_ORDER: seq<FileType> := [Blk, Chr, Dir, Reg, Lnk, Fifo, Sock]
  const TYPE_CHAR: string := "bcd-lps?"

  /**
   * get_type_char: search the table of S_IF* values for mode's type field;
   * the character at the index where the search stops (the '?' after the
   * table when nothing matches).
   */
  method GetTypeChar(mode: ModeT) returns (c: char)
    ensures c == LsTypeChar(FileTypeOf(mode))
    ensures c == '?' <==> FileTypeOf(mode).None?
  {
    var typeC := 7;
    var m := TypeField(mode);
    var i := 0;
    while i < typeC && TypeBits(TYPE_ORDER[i]) != m
      invariant 0 <= i <= typeC
      invariant forall j :: 0 <= j < i ==> TypeBits(TYPE_ORDER[j]) != m
    {
      i := i + 1;
    }
    c := TYPE_CHAR[i];
    if i < typeC {
      assert FileTypeOf(mode) == Some(TYPE_ORDER[i]);
    } else {
      assert TypeBits(TYPE_ORDER[0]) != m && TypeBits(TYPE_ORDER[1]) != m && TypeBits(TYPE_ORDER[2]) != m;
      assert TypeBits(TYPE_ORDER[3]) != m && TypeBits(TYPE_ORDER[4]) != m && TypeBits(TYPE_ORDER[5]) != m;
      assert TypeBits(TYPE_ORDER[6]) != m;
    }
  }

  /**
   * parse_mode_str: write the ten mode characters and a NUL into mode_s
   * (MODE_STR_LEN cells); the rest of the buffer is untouched.
   */
  method ParseModeStr(modeS: array<char>, mode: ModeT)
    requires modeS.Length >= 11
    modifies modeS
    ensures modeS[0] == LsTypeChar(FileTypeOf(mode))
    ensures modeS[1] == PermChar(mode, 1) && modeS[2] == PermChar(mode, 2) && modeS[3] == PermChar(mode, 3)
    ensures modeS[4] == PermChar(mode, 4) && modeS[5] == PermChar(mode, 5) && modeS[6] == PermChar(mode, 6)
    ensures modeS[7] == PermChar(mode, 7) && modeS[8] == PermChar(mode, 8) && modeS[9] == PermChar(mode, 9)
    ensures modeS[10] == '\0'
    ensures forall i :: 11 <= i < modeS.Length ==> modeS[i] == old(modeS[i])
  {
    var t := GetTypeChar(mode);
    modeS[0] := t;
    WritePermChars(modeS, mode);
    modeS[10] := '\0';
  }

  /** The first error long_out_parse reports over the listing, in list order. */
  function FirstParseError(ds: seq<LsList.Data>, parse: LsList.Data -> Parsed): (r: Option<LOutErr>)
    ensures r.None? <==> forall i :: 0 <= i < |ds| ==> parse(ds[i]).ParsedOk?
    ensures r.Some? ==> exists i :: 0 <= i < |ds| && parse(ds[i]).Err() == r.value && r.value != LOutErrNone &&
                                    forall j :: 0 <= j < i ==> parse(ds[j]).ParsedOk?
  {
    if ds == [] then None
    else if parse(ds[0]).ParseFailed? then Some(parse(ds[0]).Err())
    else
      var r := FirstParseError(ds[1..], parse);
      assert forall i :: 1 <= i < |ds| ==> ds[1..][i - 1] == ds[i];
      r
  }

  /** Skipping a prefix that parses keeps the first error. */
  lemma {:induction false} FirstParseErrorSkip(ds: seq<LsList.Data>, parse: LsList.Data -> Parsed, i: int)
    requires 0 <= i <= |ds|
    requires forall j :: 0 <= j < i ==> parse(ds[j]).ParsedOk?
    ensures FirstParseError(ds, parse) == FirstParseError(ds[i..], parse)
    decreases i
  {
    if i > 0 {
      FirstParseErrorSkip(ds[1..], parse, i - 1);
      assert ds[1..][i - 1..] == ds[i..];
    }
  }

  /**
   * The allocation test of dir_long_out_create as written: "entries &&
   * errno".  errno is not cleared before that malloc, so `errnoBefore` is
   * whatever an earlier call left.
   */
  function CreateAllocFailsAsWritten(allocOk: bool, errnoBefore: int): bool {
    var entriesNonNull := allocOk;
    entriesNonNull && errnoBefore != 0
  }

  /**
   * The test never fires for a failed malloc (the parse loop then writes
   * through NULL entries), and it fires for a successful malloc whenever an
   * earlier call left errno set.
   */
  lemma CreateAllocTestInverted(errnoBefore: int)
    ensures !CreateAllocFailsAsWritten(false, errnoBefore)
    ensures CreateAllocFailsAsWritten(true, errnoBefore) <==> errnoBefore != 0
  {
  }

  /** struct dir_long_out_s: the column widths and the parsed entries. */
  class DirLongOut {
    var inoStrMax: nat
    var nlinkStrMax: nat
    var usrStrMax: nat
    var grpStrMax: nat
    var sizeStrMax: nat
    var entries: array?<LongOutS>
    var entriesC: int

    /** The state dir_long_out_init leaves: all widths 0, entries NULL, no entries. */
    predicate IsInit()
      reads this
    {
      && inoStrMax == 0 && nlinkStrMax == 0 && usrStrMax == 0 && grpStrMax == 0 && sizeStrMax == 0
      && entries == null && entriesC == 0
    }

    /** The width stored for column c. */
    function Width(c: Column): nat
      reads this
    {
      match c
      case Ino => inoStrMax
      case Nlink => nlinkStrMax
      case Usr => usrStrMax
      case Grp => grpStrMax
      case Size => sizeStrMax
    }

    /** A struct passed through dir_long_out_init. */
    constructor ()
      ensures IsInit()
    {
      inoStrMax, nlinkStrMax, usrStrMax, grpStrMax, sizeStrMax := 0, 0, 0, 0, 0;
      entries, entriesC := null, 0;
    }

    /** dir_long_out_init. */
    method Init()
      modifies this
      ensures IsInit()
    {
      inoStrMax, nlinkStrMax, usrStrMax, grpStrMax, sizeStrMax := 0, 0, 0, 0, 0;
      entries, entriesC := null, 0;
    }

    /**
     * dir_long_out_delete: every parsed entry and the array are freed (not
     * modelled) and the struct is initialized again.
     */
    method Delete()
      modifies this
      ensures IsInit()
    {
      Init();
    }

    /** The loop body of set_max_strs: raise each width to entry e's string if that is longer. */
    method RaiseWidths(e: LongOutS)
      modifies this
      ensures entries == old(entries) && entriesC == old(entriesC)
      ensures forall c :: Width(c) == if |ColumnStr(e, c)| > old(Width(c)) then |ColumnStr(e, c)| else old(Width(c))
    {
      if |e.inoStr| > inoStrMax {
        inoStrMax := |e.inoStr|;
      }
      if |e.nlinkStr| > nlinkStrMax {
        nlinkStrMax := |e.nlinkStr|;
      }
      if |e.usrStr| > usrStrMax {
        usrStrMax := |e.usrStr|;
      }
      if |e.grpStr| > grpStrMax {
        grpStrMax := |e.grpStr|;
      }
      if |e.sizeStr| > sizeStrMax {
        sizeStrMax := |e.sizeStr|;
      }
    }

    /**
     * set_max_strs: raise each width to the longest string of its column
     * over entries[0 .. entries_c).
     */
    method SetMaxStrs()
      requires entries != null && 0 <= entriesC <= entries.Length
      modifies this
      ensures entries == old(entries) && entriesC == old(entriesC)
      ensures forall c :: Width(c) == MaxStrLen(entries[..entriesC], c, old(Width(c)))
    {
      var a, n := entries, entriesC;
      var i := 0;
      while i < n
        invariant 0 <= i <= n
        invariant entries == a && entriesC == n
        invariant forall c :: Width(c) == MaxStrLen(a[..i], c, old(Width(c)))
      {
        var e := a[i];
        assert a[..i + 1] == a[..i] + [e];
        forall c {
          MaxStrLenSnoc(a[..i], e, c, old(Width(c)));
        }
        RaiseWidths(e);
        i := i + 1;
      }
      assert a[..n] == a[..i];
    }

    /**
     * dir_long_out_create over the listing `ds` (dir_entries, head to tail;
     * its size is |ds|), with the allocation test corrected to "entries ==
     * NULL" (`allocOk` is malloc's verdict).  Entries are parsed in list
     * order; the first failure deletes everything and is returned, leaving
     * the struct initialized; on success every entry is parsed and the
     * widths are the column maxima.
     */
    method Create(ds: seq<LsList.Data>, parse: LsList.Data -> Parsed, allocOk: bool) returns (ret: LOutErr)
      requires IsInit()
      modifies this
      ensures !allocOk ==> ret == LOutErrMalloc && IsInit()
      ensures allocOk ==> (ret == LOutErrNone <==> FirstParseError(ds, parse).None?)
      ensures allocOk && ret != LOutErrNone ==> Some(ret) == FirstParseError(ds, parse) && IsInit()
      ensures ret == LOutErrNone ==>
                && entries != null && fresh(entries) && entriesC == |ds| == entries.Length
                && (forall i :: 0 <= i < |ds| ==> parse(ds[i]) == ParsedOk(entries[i]))
                && (forall c :: Width(c) == MaxStrLen(entries[..], c, 0))
    {
      if !allocOk {
        return LOutErrMalloc;
      }
      entries := new LongOutS[|ds|](_ => BLANK);
      ret := LOutErrNone;
      var i := 0;
      while ret == LOutErrNone && i < |ds|
        invariant 0 <= i <= |ds|
        invariant ret == LOutErrNone ==>
                    && entries != null && fresh(entries) && entries.Length == |ds| && entriesC == i
                    && (forall j :: 0 <= j < i ==> parse(ds[j]) == ParsedOk(entries[j]))
                    && inoStrMax == 0 && nlinkStrMax == 0 && usrStrMax == 0 && grpStrMax == 0 && sizeStrMax == 0
        invariant ret != LOutErrNone ==> IsInit() && Some(ret) == FirstParseError(ds, parse)
        decreases |ds| - i, if ret == LOutErrNone then 1 else 0
      {
        var p := parse(ds[i]);
        ret := p.Err();
        if ret != LOutErrNone {
          FirstParseErrorSkip(ds, parse, i);
          Delete();
        } else {
          entries[i] := p.entry;
          entriesC := entriesC + 1;
          i := i + 1;
        }
      }
      if ret == LOutErrNone {
        assert forall j :: 0 <= j < |ds| ==> parse(ds[j]).ParsedOk?;
        assert forall c :: Width(c) == 0;
        SetMaxStrs();
        assert entries[..entriesC] == entries[..];
      }
    }
  }
}
