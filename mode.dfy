/**
 * The st_mode bits ls and find decode: the file-type field (S_IFMT, bits 12
 * to 15) and the nine permission bits, with their POSIX/glibc values.
 * mode_t is a 32-bit unsigned integer; the two operations the programs
 * apply to it, "mode & S_IFMT" and "bit & mode" for a single permission bit,
 * are written out arithmetically.
 */
module Mode {
  import opened Base

  type ModeT = x: int | 0 <= x <= UINT_MAX

  /** File-type field and types (octal 0170000, 0060000, 0020000, 0040000, 0100000, 0120000, 0010000, 0140000). */
  const S_IFMT: ModeT := 0xF000
  const S_IFBLK: ModeT := 0x6000
  const S_IFCHR: ModeT := 0x2000
  const S_IFDIR: ModeT := 0x4000
  const S_IFREG: ModeT := 0x8000
  const S_IFLNK: ModeT := 0xA000
  const S_IFIFO: ModeT := 0x1000
  const S_IFSOCK: ModeT := 0xC000

  /** Permission bits (octal 0400, 0200, 0100, 040, 020, 010, 04, 02, 01). */
  const S_IRUSR: ModeT := 0x100
  const S_IWUSR: ModeT := 0x80
  const S_IXUSR: ModeT := 0x40
  const S_IRGRP: ModeT := 0x20
  const S_IWGRP: ModeT := 0x10
  const S_IXGRP: ModeT := 0x8
  const S_IROTH: ModeT := 0x4
  const S_IWOTH: ModeT := 0x2
  const S_IXOTH: ModeT := 0x1

  /** "mode & S_IFMT": bits 12 to 15 of mode, in place. */
  function TypeField(mode: ModeT): (f: ModeT)
    ensures f % 0x1000 == 0 && f <= S_IFMT
  {
    (mode / 0x1000) % 0x10 * 0x1000
  }

  /** "b & mode != 0" for a single-bit mask b: the bit b stands for is set in mode. */
  predicate HasBit(mode: ModeT, b: int)
    requires b > 0
  {
    (mode / b) % 2 == 1
  }

  /** The seven file types the S_IS* macros test for. */
  datatype FileType = Blk | Chr | Dir | Reg | Lnk | Fifo | Sock

  /** The S_IFMT field value of each type. */
  function TypeBits(t: FileType): ModeT {
    match t
    case Blk => S_IFBLK
    case Chr => S_IFCHR
    case Dir => S_IFDIR
    case Reg => S_IFREG
    case Lnk => S_IFLNK
    case Fifo => S_IFIFO
    case Sock => S_IFSOCK
  }

  /** Distinct types have distinct field values, and each value is its own type field. */
  lemma TypeBitsInjective(t1: FileType, t2: FileType)
    ensures TypeBits(t1) == TypeBits(t2) <==> t1 == t2
    ensures TypeField(TypeBits(t1)) == TypeBits(t1)
  {
  }

  /** S_ISBLK … S_ISSOCK: the type whose field value mode carries, if any. */
  function FileTypeOf(mode: ModeT): (r: Option<FileType>)
    ensures forall t :: r == Some(t) <==> TypeField(mode) == TypeBits(t)
  {
    var f := TypeField(mode);
    if f == S_IFBLK then Some(Blk)
    else if f == S_IFCHR then Some(Chr)
    else if f == S_IFDIR then Some(Dir)
    else if f == S_IFREG then Some(Reg)
    else if f == S_IFLNK then Some(Lnk)
    else if f == S_IFIFO then Some(Fifo)
    else if f == S_IFSOCK then Some(Sock)
    else None
  }

  /** The permission bit shown at position k (1..9) of a mode string: owner, group, other, each r, w, x. */
  function PermBit(k: int): (b: ModeT)
    requires 1 <= k <= 9
    ensures b > 0
  {
    if k == 1 then S_IRUSR else if k == 2 then S_IWUSR else if k == 3 then S_IXUSR
    else if k == 4 then S_IRGRP else if k == 5 then S_IWGRP else if k == 6 then S_IXGRP
    else if k == 7 then S_IROTH else if k == 8 then S_IWOTH else S_IXOTH
  }

  /** The letter shown at position k when its bit is set. */
  function PermLetter(k: int): char
    requires 1 <= k <= 9
  {
    "rwx"[(k - 1) % 3]
  }

  /** "bit & mode ? letter : '-'", the form of each permission character. */
  function Shown(bitSet: bool, letter: char): char {
    if bitSet then letter else '-'
  }

  /** Character k (1..9) of a mode string, as parse_mode_str and get_mode_str write it. */
  function PermChar(mode: ModeT, k: int): char
    requires 1 <= k <= 9
  {
    if k == 1 then Shown(HasBit(mode, S_IRUSR), 'r')
    else if k == 2 then Shown(HasBit(mode, S_IWUSR), 'w')
    else if k == 3 then Shown(HasBit(mode, S_IXUSR), 'x')
    else if k == 4 then Shown(HasBit(mode, S_IRGRP), 'r')
    else if k == 5 then Shown(HasBit(mode, S_IWGRP), 'w')
    else if k == 6 then Shown(HasBit(mode, S_IXGRP), 'x')
    else if k == 7 then Shown(HasBit(mode, S_IROTH), 'r')
    else if k == 8 then Shown(HasBit(mode, S_IWOTH), 'w')
    else Shown(HasBit(mode, S_IXOTH), 'x')
  }

  /**
   * Each permission position shows its letter (r, w, x cycling with the
   * owner, group, other triples) exactly when its bit is set, and '-'
   * exactly when it is clear.
   */
  lemma PermCharIff(mode: ModeT, k: int)
    requires 1 <= k <= 9
    ensures PermChar(mode, k) == PermLetter(k) <==> HasBit(mode, PermBit(k))
    ensures PermChar(mode, k) == '-' <==> !HasBit(mode, PermBit(k))
    ensures PermLetter(k) == (if k % 3 == 1 then 'r' else if k % 3 == 2 then 'w' else 'x')
  {
    if k == 1 {} else if k == 2 {} else if k == 3 {} else if k == 4 {} else if k == 5 {}
    else if k == 6 {} else if k == 7 {} else if k == 8 {} else {}
  }

  /** The nine permission bits are distinct single bits, so no two positions read the same bit. */
  lemma PermBitsDistinct(k1: int, k2: int)
    requires 1 <= k1 <= 9 && 1 <= k2 <= 9
    ensures PermBit(k1) == PermBit(k2) <==> k1 == k2
    ensures PermBit(k1) < 0x1000
  {
  }

  /**
   * The nine permission writes parse_mode_str and get_mode_str share:
   * "mode_s[k] = BIT & mode ? letter : '-'" for k = 1..9; no other cell changes.
   */
  method WritePermChars(modeS: array<char>, mode: ModeT)
    requires modeS.Length >= 10
    modifies modeS
    ensures modeS[1] == PermChar(mode, 1) && modeS[2] == PermChar(mode, 2) && modeS[3] == PermChar(mode, 3)
    ensures modeS[4] == PermChar(mode, 4) && modeS[5] == PermChar(mode, 5) && modeS[6] == PermChar(mode, 6)
    ensures modeS[7] == PermChar(mode, 7) && modeS[8] == PermChar(mode, 8) && modeS[9] == PermChar(mode, 9)
    ensures modeS[0] == old(modeS[0])
    ensures forall i :: 10 <= i < modeS.Length ==> modeS[i] == old(modeS[i])
  {
    modeS[1] := Shown(HasBit(mode, S_IRUSR), 'r');
    modeS[2] := Shown(HasBit(mode, S_IWUSR), 'w');
    modeS[3] := Shown(HasBit(mode, S_IXUSR), 'x');
    modeS[4] := Shown(HasBit(mode, S_IRGRP), 'r');
    modeS[5] := Shown(HasBit(mode, S_IWGRP), 'w');
    modeS[6] := Shown(HasBit(mode, S_IXGRP), 'x');
    modeS[7] := Shown(HasBit(mode, S_IROTH), 'r');
    modeS[8] := Shown(HasBit(mode, S_IWOTH), 'w');
    modeS[9] := Shown(HasBit(mode, S_IXOTH), 'x');
  }
}
