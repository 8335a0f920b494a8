/**
 * ls_src/ls.c: the two buffer-filling helpers of ls.  get_full_path joins a
 * directory path and an entry name into the caller's buffer (used to stat
 * each entry); get_mode_str fills the ten-character mode string of the long
 * format.  C strings are their characters before the terminator and hold no
 * '\0'.
 */
module Ls {
  import opened Base
  import opened Mode
  import LongOut

  /** ls_err (ls.h). */
  datatype LsErr =
    | LsErrNone | LsErrMalloc | LsErrDirStreamOpen | LsErrDirStreamRead | LsErrStat
    | LsErrDupEntry | LsErrPathOverflow | LsErrDateOverflow | LsErrUsrNotFound | LsErrGrpNotFound
  {
    /** The enumerator's value. */
    function Code(): (c: int)
      ensures 0 <= c <= 9
      ensures c == 0 <==> this == LsErrNone
    {
      match this
      case LsErrNone => 0
      case LsErrMalloc => 1
      case LsErrDirStreamOpen => 2
      case LsErrDirStreamRead => 3
      case LsErrStat => 4
      case LsErrDupEntry => 5
      case LsErrPathOverflow => 6
      case LsErrDateOverflow => 7
      case LsErrUsrNotFound => 8
      case LsErrGrpNotFound => 9
    }
  }

  /** A C string: no terminator among its characters. */
  predicate IsCString(s: string) {
    '\0' !in s
  }

  /** The directory part of a full path: path, with a '/' appended unless it already ends in one. */
  function DirPart(path: string): (d: string)
    requires |path| > 0
    ensures |d| == |path| + (if path[|path| - 1] == '/' then 0 else 1)
  {
    if path[|path| - 1] == '/' then path else path + "/"
  }

  /** The full path of fName under path. */
  function JoinedPath(path: string, fName: string): string
    requires |path| > 0
  {
    DirPart(path) + fName
  }

  /**
   * The joined path starts with path, ends with fName, and has exactly one
   * '/' between them when path has no trailing '/' (none is added when it has).
   */
  lemma JoinedPathParts(path: string, fName: string)
    requires |path| > 0
    ensures var r := JoinedPath(path, fName);
            && |r| == |path| + |fName| + (if path[|path| - 1] == '/' then 0 else 1)
            && r[..|path|] == path && r[|r| - |fName|..] == fName
            && r[|r| - |fName| - 1] == '/'
    ensures path[|path| - 1] != '/' ==> JoinedPath(path, fName) == path + ['/'] + fName
    ensures path[|path| - 1] == '/' ==> JoinedPath(path, fName) == path + fName
  {
    var r := JoinedPath(path, fName);
    assert r[..|path|] == path;
    assert r[|r| - |fName|..] == fName;
  }

  // ---------------------------------------------------------------------------
  // The bound check as written.
  // ---------------------------------------------------------------------------

  /** get_full_path's admission test as written: strlen(path) + strlen(f_name) + 1 <= path_buf_len. */
  predicate PathFitsAsWritten(path: string, fName: string, pathBufLen: int) {
    |path| + |fName| + 1 <= pathBufLen
  }

  /** The bytes get_full_path writes on success: the joined path and its terminator. */
  function BytesWritten(path: string, fName: string): (n: nat)
    requires |path| > 0
    ensures n == |JoinedPath(path, fName)| + 1
  {
    JoinedPathParts(path, fName);
    |path| + |fName| + (if path[|path| - 1] == '/' then 0 else 1) + 1
  }

  /**
   * The test as written does not count the '/' it inserts: when path has
   * no trailing '/' and the lengths exactly fill the buffer, one byte is
   * written past its end ("a", "b" into a buffer of 3 takes 4 bytes).
   */
  lemma PathCheckMissesSeparator(path: string, fName: string, pathBufLen: int)
    requires |path| > 0 && path[|path| - 1] != '/'
    requires |path| + |fName| + 1 == pathBufLen
    ensures PathFitsAsWritten(path, fName, pathBufLen)
    ensures BytesWritten(path, fName) == pathBufLen + 1
    ensures PathFitsAsWritten("a", "b", 3) && BytesWritten("a", "b") == 4
  {
  }

  /** The corrected test: the joined path and its terminator fit in the buffer. */
  predicate PathFits(path: string, fName: string, pathBufLen: int)
    requires |path| > 0
  {
    BytesWritten(path, fName) <= pathBufLen
  }

  /** The corrected test admits a subset of what the written one admits, and never an overflow. */
  lemma PathFitsSound(path: string, fName: string, pathBufLen: int)
    requires |path| > 0
    ensures PathFits(path, fName, pathBufLen) ==> PathFitsAsWritten(path, fName, pathBufLen)
    ensures PathFitsAsWritten(path, fName, pathBufLen) && path[|path| - 1] == '/' ==> PathFits(path, fName, pathBufLen)
  {
  }

  // ---------------------------------------------------------------------------
  // Writing into the buffer.
  // ---------------------------------------------------------------------------

  /** memcpy(buf + at, s, |s|). */
  method MemCpy(buf: array<char>, at: int, s: seq<char>)
    requires 0 <= at && at + |s| <= buf.Length
    modifies buf
    ensures buf[..] == old(buf[..at]) + s + old(buf[at + |s|..])
  {
    ghost var before := buf[..];
    var i := 0;
    while i < |s|
      invariant 0 <= i <= |s|
      invariant buf[..] == before[..at] + s[..i] + before[at + i..]
    {
      buf[at + i] := s[i];
      assert s[..i + 1] == s[..i] + [s[i]];
      i := i + 1;
    }
    assert s[..i] == s;
  }

  /**
   * The first half of get_full_path: copy path with its terminator, then
   * overwrite the terminator with '/' and terminate again unless path ends
   * in '/'.  The buffer then holds the directory part of the joined path,
   * and strlen(path_buf) is its length.
   */
  method CopyDirPart(pathBuf: array<char>, path: string) returns (bufLen: int)
    requires |path| > 0
    requires |DirPart(path)| + 1 <= pathBuf.Length
    modifies pathBuf
    ensures bufLen == |DirPart(path)|
    ensures pathBuf[..] == DirPart(path) + ['\0'] + old(pathBuf[..])[bufLen + 1..]
  {
    ghost var before := pathBuf[..];
    var pathLen := |path|;
    MemCpy(pathBuf, 0, path + ['\0']);
    bufLen := pathLen;
    if pathBuf[pathLen - 1] != '/' {
      ghost var copied := pathBuf[..];
      pathBuf[pathLen + 1] := '\0';
      pathBuf[pathLen] := '/';
      bufLen := pathLen + 1;
      assert pathBuf[..] == copied[pathLen + 1 := '\0'][pathLen := '/'];
    }
  }

  /**
   * get_full_path with the bound check corrected to count the '/' it
   * inserts (`pathBufLen` is the size the caller passes, at most the
   * buffer's length).  On overflow nothing is written; otherwise the buffer
   * starts with the joined path and its terminator and the rest is as it was.
   */
  method GetFullPath(pathBuf: array<char>, pathBufLen: int, fName: string, path: string) returns (ret: LsErr)
    requires 0 <= pathBufLen <= pathBuf.Length
    requires IsCString(path) && IsCString(fName) && |path| > 0
    modifies pathBuf
    ensures ret == LsErrPathOverflow <==> !PathFits(path, fName, pathBufLen)
    ensures ret == LsErrNone || ret == LsErrPathOverflow
    ensures ret == LsErrPathOverflow ==> pathBuf[..] == old(pathBuf[..])
    ensures ret == LsErrNone ==>
              var n := BytesWritten(path, fName);
              pathBuf[..n] == JoinedPath(path, fName) + ['\0'] && pathBuf[n..] == old(pathBuf[n..])
  {
    var pathLen := |path|;
    if pathLen + |fName| + (if path[pathLen - 1] != '/' then 1 else 0) + 1 > pathBufLen {
      return LsErrPathOverflow;
    }
    ghost var before := pathBuf[..];
    ghost var dir := DirPart(path);
    var bufLen := CopyDirPart(pathBuf, path);
    ghost var mid := pathBuf[..];
    ghost var n := bufLen + |fName| + 1;
    assert mid[..bufLen] == dir && mid[n..] == before[n..];
    MemCpy(pathBuf, bufLen, fName + ['\0']);
    assert pathBuf[..n] == dir + fName + ['\0'];
    ret := LsErrNone;
  }

  // ---------------------------------------------------------------------------
  // get_mode_str.
  // ---------------------------------------------------------------------------

  /**
   * get_mode_str over the MODE_STR_LEN cells of mode_s: the type character
   * when S_ISREG … S_ISBLK recognises the type (mode_s[0] is left as it was
   * otherwise), the nine permission characters and the terminator.
   */
  method GetModeStr(modeS: array<char>, mode: ModeT)
    requires modeS.Length >= 11
    modifies modeS
    ensures modeS[0] == match FileTypeOf(mode) case None => old(modeS[0]) case Some(t) => LongOut.LsTypeChar(Some(t))
    ensures modeS[1] == PermChar(mode, 1) && modeS[2] == PermChar(mode, 2) && modeS[3] == PermChar(mode, 3)
    ensures modeS[4] == PermChar(mode, 4) && modeS[5] == PermChar(mode, 5) && modeS[6] == PermChar(mode, 6)
    ensures modeS[7] == PermChar(mode, 7) && modeS[8] == PermChar(mode, 8) && modeS[9] == PermChar(mode, 9)
    ensures modeS[10] == '\0'
    ensures forall i :: 11 <= i < modeS.Length ==> modeS[i] == old(modeS[i])
  {
    // mode_s[0] keeps its old character when no S_IS* test matches.
    var typeC := modeS[0];
    var f := TypeField(mode);
    if f == S_IFREG {
      typeC := '-';
    } else if f == S_IFDIR {
      typeC := 'd';
    } else if f == S_IFLNK {
      typeC := 'l';
    } else if f == S_IFIFO {
      typeC := 'p';
    } else if f == S_IFSOCK {
      typeC := 's';
    } else if f == S_IFCHR {
      typeC := 'c';
    } else if f == S_IFBLK {
      typeC := 'b';
    }
    modeS[0] := typeC;
    WritePermChars(modeS, mode);
    modeS[10] := '\0';
  }
}
