/** The root directory of the FAT16 volume: names and lookup (kernel/file.c; section "FAT Directory
    Structure" of Microsoft's FAT specification). */
module FatDirectory {
  import opened CStrings
  import opened Errors

  const SECTOR_SIZE := 512
  const ENTRY_SIZE := 32
  const SPACE: Byte := 32
  const DOT: Byte := 46
  const ENTRY_EMPTY: Byte := 0
  const ENTRY_DELETED: Byte := 0xE5
  const LONG_NAME: Byte := 0xF

  type Sector = s: seq<Byte> | |s| == SECTOR_SIZE witness seq(SECTOR_SIZE, _ => 0)

  /** The fields of the BIOS parameter block that the kernel uses, and the disk. */
  datatype Volume = Volume(sectorsPerCluster: nat, reservedSectors: nat, fatCopies: nat, rootEntries: nat,
      sectorsPerFat: nat, disk: seq<Sector>)

  function RootStart(v: Volume): nat { v.fatCopies * v.sectorsPerFat + v.reservedSectors }

  function RootSectors(v: Volume): nat { v.rootEntries * ENTRY_SIZE / SECTOR_SIZE }

  function DataStart(v: Volume): nat { RootStart(v) + RootSectors(v) }

  /** The field widths of the parameter block, a cluster that is not empty, and a disk that holds
      the boot sector and the root directory. */
  predicate VolumeOk(v: Volume) {
    1 <= v.sectorsPerCluster < 0x100 && v.rootEntries < 0x1_0000 && v.disk != [] && DataStart(v) <= |v.disk|
  }

  /** The end of the boot sector, and the byte behind the parameter block that announces its extended fields. */
  predicate SignaturesOk(v: Volume)
    requires VolumeOk(v)
  {
    var boot := v.disk[0];
    boot[510] == 0x55 && boot[511] == 0xAA && boot[38] == 0x29
  }

  type Word16 = n: nat | n < 0x1_0000
  type Word32 = n: nat | n < 0x1_0000_0000

  datatype DirEntry = DirEntry(name: seq<Byte>, ext: seq<Byte>, attributes: Byte, cluster: Word16, size: Word32)

  function LittleEndian(b: seq<Byte>): (n: nat)
    ensures |b| == 2 ==> n < 0x1_0000
    ensures |b| == 4 ==> n < 0x1_0000_0000
  {
    if |b| == 2 then (b[0] as int) + 0x100 * (b[1] as int)
    else if |b| == 4 then LittleEndian(b[..2]) + 0x1_0000 * LittleEndian(b[2..])
    else 0
  }

  /** The entry at slot `j` of a directory sector. */
  function EntryAt(sector: Sector, j: nat): (e: DirEntry)
    requires j < SECTOR_SIZE / ENTRY_SIZE
    ensures |e.name| == 8 && |e.ext| == 3
  {
    var b := sector[j * ENTRY_SIZE..(j + 1) * ENTRY_SIZE];
    DirEntry(b[0..8], b[8..11], b[11], LittleEndian(b[26..28]), LittleEndian(b[28..32]))
  }

  /** How many entries a lookup looks at. */
  function EntryCount(v: Volume): (n: nat)
    ensures n <= v.rootEntries
  {
    RootSectors(v) * (SECTOR_SIZE / ENTRY_SIZE)
  }

  function EntryOf(v: Volume, k: nat): (e: DirEntry)
    requires VolumeOk(v) && k < EntryCount(v)
    ensures |e.name| == 8 && |e.ext| == 3
  {
    EntryAt(v.disk[RootStart(v) + k / 16], k % 16)
  }

  // ----- Names -----

  /** The characters before the first NUL or space. */
  function Trimmed(part: seq<Byte>): (t: seq<Byte>)
    ensures |t| <= |part| && t == part[..|t|] && NUL !in t && SPACE !in t
    ensures |t| < |part| ==> part[|t|] == NUL || part[|t|] == SPACE
  {
    if part == [] || part[0] == NUL || part[0] == SPACE then [] else [part[0]] + Trimmed(part[1..])
  }

  /** The 8.3 name with a dot, always. */
  function Rendered(name: seq<Byte>, ext: seq<Byte>): (t: seq<Byte>)
    ensures |t| <= |name| + 1 + |ext| && NUL !in t
  {
    Trimmed(name) + [DOT] + Trimmed(ext)
  }

  /** Copy one part of a name, at most all of it. */
  method CopyPart(part: seq<Byte>, buf: array<Byte>, pos: nat) returns (end: nat)
    requires |part| > 0 && pos + |part| < buf.Length
    modifies buf
    ensures pos <= end <= pos + |part| && buf[..end] == old(buf[..pos]) + Trimmed(part)
  {
    var i := 0;
    end := pos;
    while part[i] != NUL && part[i] != SPACE
      invariant i < |part| && end == pos + i
      invariant buf[..end] == old(buf[..pos]) + part[..i]
      invariant forall k :: 0 <= k < i ==> part[k] != NUL && part[k] != SPACE
      decreases |part| - i
    {
      buf[end] := part[i];
      end := end + 1;
      if i >= |part| - 1 {
        AllTrimmed(part, |part|);
        return;
      }
      i := i + 1;
    }
    AllTrimmed(part, i);
  }

  lemma {:induction false} AllTrimmed(part: seq<Byte>, n: nat)
    requires n <= |part| && forall k :: 0 <= k < n ==> part[k] != NUL && part[k] != SPACE
    requires n < |part| ==> part[n] == NUL || part[n] == SPACE
    ensures Trimmed(part) == part[..n]
  {
    if n > 0 { AllTrimmed(part[1..], n - 1); }
  }

  /** Render the name into a buffer of 13 characters. */
  method GetRelativeFileName(entry: DirEntry, buf: array<Byte>)
    requires |entry.name| == 8 && |entry.ext| == 3 && buf.Length == 13
    modifies buf
    ensures NUL in buf[..] && CText(buf[..]) == Rendered(entry.name, entry.ext)
  {
    var end := CopyPart(entry.name, buf, 0);
    buf[end] := DOT;
    assert buf[..end + 1] == Trimmed(entry.name) + [DOT];
    end := CopyPart(entry.ext, buf, end + 1);
    assert buf[..end] == Rendered(entry.name, entry.ext);
    buf[end] := NUL;
    assert buf[..][end] == NUL && buf[..][..end] == Rendered(entry.name, entry.ext);
    TextEnds(buf[..], end);
  }

  // ----- Lookup -----

  /** A live entry with a short name. */
  predicate LiveEntry(e: DirEntry)
    requires |e.name| == 8
  {
    e.name[0] != ENTRY_EMPTY && e.name[0] != ENTRY_DELETED && e.attributes != LONG_NAME
  }

  /** Entry `k` is a live one of this name. */
  predicate IsFile(v: Volume, filename: seq<Byte>, k: nat)
    requires VolumeOk(v) && k < EntryCount(v)
  {
    var e := EntryOf(v, k);
    LiveEntry(e) && SameIgnoringCase(CText(filename), Rendered(e.name, e.ext))
  }

  /** No entry before the flat index `n` has this name. */
  ghost predicate NoFileBelow(v: Volume, filename: seq<Byte>, n: nat) {
    VolumeOk(v) && forall k: nat :: k < n && k < EntryCount(v) ==> !IsFile(v, filename, k)
  }

  /** The least flat index of an entry of this name, and -ENOENT exactly if there is none. */
  method FindFileInRootDir(v: Volume, filename: seq<Byte>) returns (status: int, entry: DirEntry)
    requires VolumeOk(v) && NUL in filename
    ensures status == -ENOENT <==> NoFileBelow(v, filename, EntryCount(v))
    ensures status != -ENOENT ==>
      0 <= status < EntryCount(v) && entry == EntryOf(v, status) && IsFile(v, filename, status)
    ensures status != -ENOENT ==> NoFileBelow(v, filename, status)
  {
    var sectors := RootSectors(v);
    for i := 0 to sectors
      invariant NoFileBelow(v, filename, 16 * i)
    {
      status, entry := ScanSector(v, i, filename);
      if status != -ENOENT {
        return;
      }
    }
    status, entry := -ENOENT, DirEntry(seq(8, _ => 0), seq(3, _ => 0), 0, 0, 0);
    assert EntryCount(v) == 16 * sectors;
  }

  /** The inner loop, over the entries of one sector. */
  method ScanSector(v: Volume, i: nat, filename: seq<Byte>) returns (status: int, entry: DirEntry)
    requires VolumeOk(v) && NUL in filename && i < RootSectors(v) && NoFileBelow(v, filename, 16 * i)
    ensures status == -ENOENT ==> NoFileBelow(v, filename, 16 * (i + 1))
    ensures status != -ENOENT ==>
      0 <= status < EntryCount(v) && entry == EntryOf(v, status) && IsFile(v, filename, status)
    ensures status != -ENOENT ==> NoFileBelow(v, filename, status)
  {
    var sector := v.disk[RootStart(v) + i];
    ghost var k := 16 * i;
    for j := 0 to SECTOR_SIZE / ENTRY_SIZE
      invariant k == 16 * i + j && NoFileBelow(v, filename, k)
    {
      entry := EntryAt(sector, j);
      FlatIndex(v, i, j, k, entry, filename);
      k := k + 1;
      var found := IsNamed(entry, filename);
      if found {
        return i * (SECTOR_SIZE / ENTRY_SIZE) + j, entry;
      }
    }
    return -ENOENT, DirEntry(seq(8, _ => 0), seq(3, _ => 0), 0, 0, 0);
  }

  lemma FlatIndex(v: Volume, i: nat, j: nat, k: nat, e: DirEntry, filename: seq<Byte>)
    requires VolumeOk(v) && i < RootSectors(v) && j < 16 && k == 16 * i + j && e == EntryAt(v.disk[RootStart(v) + i], j)
    ensures k < EntryCount(v) && EntryOf(v, k) == e && |e.name| == 8
    ensures IsFile(v, filename, k) <==> LiveEntry(e) && SameIgnoringCase(CText(filename), Rendered(e.name, e.ext))
    ensures NoFileBelow(v, filename, k) && !IsFile(v, filename, k) ==> NoFileBelow(v, filename, k + 1)
  {
    assert k / 16 == i && k % 16 == j;
  }

  /** The checks on one entry: live, short, and of this name. */
  method IsNamed(e: DirEntry, filename: seq<Byte>) returns (same: bool)
    requires |e.name| == 8 && |e.ext| == 3 && NUL in filename
    ensures same <==> LiveEntry(e) && SameIgnoringCase(CText(filename), Rendered(e.name, e.ext))
  {
    if e.name[0] == ENTRY_EMPTY || e.name[0] == ENTRY_DELETED || e.attributes == LONG_NAME {
      return false;
    }
    var name := new Byte[13](_ => 0);
    GetRelativeFileName(e, name);
    var order := StrCaseCmp(filename, name[..]);
    return order == 0;
  }

  // ----- The directory, byte by byte -----

  /** Byte `j` of the 32-byte entry `k` of the root directory, which lies behind the reserved sectors and the FATs. */
  function RootByte(v: Volume, k: nat, j: nat): Byte
    requires VolumeOk(v) && k < v.rootEntries * 32 / 512 * 16 && j < 32
  {
    v.disk[v.reservedSectors + v.fatCopies * v.sectorsPerFat + k / 16][k % 16 * 32 + j]
  }

  /** A 16-bit and a 32-bit field of an entry, least significant byte first. */
  lemma LowByteFirst(b: seq<Byte>)
    ensures |b| == 2 ==> LittleEndian(b) == (b[0] as int) + 0x100 * (b[1] as int)
    ensures |b| == 4 ==>
      LittleEndian(b) == (b[0] as int) + 0x100 * (b[1] as int) + 0x1_0000 * (b[2] as int) + 0x100_0000 * (b[3] as int)
  {
    if |b| == 4 {
      var low, high := b[..2], b[2..];
      assert LittleEndian(low) == (b[0] as int) + 0x100 * (b[1] as int);
      assert LittleEndian(high) == (b[2] as int) + 0x100 * (b[3] as int);
    }
  }

  /** Where the fields of an entry are: name at 0, extension at 8, attributes at 11, first cluster at 26, size at 28. */
  lemma EntryByBytes(v: Volume, k: nat)
    requires VolumeOk(v) && k < EntryCount(v)
    ensures EntryCount(v) == v.rootEntries * 32 / 512 * 16
    ensures var e := EntryOf(v, k);
      && (forall i :: 0 <= i < 8 ==> e.name[i] == RootByte(v, k, i))
      && (forall i :: 0 <= i < 3 ==> e.ext[i] == RootByte(v, k, 8 + i))
      && e.attributes == RootByte(v, k, 11)
      && e.cluster == (RootByte(v, k, 26) as int) + 0x100 * (RootByte(v, k, 27) as int)
      && e.size == (RootByte(v, k, 28) as int) + 0x100 * (RootByte(v, k, 29) as int)
         + 0x1_0000 * (RootByte(v, k, 30) as int) + 0x100_0000 * (RootByte(v, k, 31) as int)
  {
    var b := v.disk[RootStart(v) + k / 16][k % 16 * ENTRY_SIZE..(k % 16 + 1) * ENTRY_SIZE];
    forall j | 0 <= j < 32 ensures b[j] == RootByte(v, k, j) { }
    LowByteFirst(b[26..28]);
    LowByteFirst(b[28..32]);
  }

  /** The part of a name that is shown: up to the first NUL or space, or all of it. */
  predicate ShownLength(part: seq<Byte>, n: nat) {
    && n <= |part| && (forall i :: 0 <= i < n ==> part[i] != 0 && part[i] != 32)
    && (n < |part| ==> part[n] == 0 || part[n] == 32)
  }

  /** The name of a file is the shown part of its name, a dot, and the shown part of its extension. */
  lemma NameThenExtension(name: seq<Byte>, ext: seq<Byte>, n: nat, m: nat)
    requires ShownLength(name, n) && ShownLength(ext, m)
    ensures Rendered(name, ext) == name[..n] + ['.' as int] + ext[..m]
  {
    AllTrimmed(name, n);
    AllTrimmed(ext, m);
  }

  /** Entry `k` is found under a name exactly if it is neither free (0) nor deleted (0xE5), not part of a long name
      (attributes 15), and the name is its own up to case. */
  lemma FileByBytes(v: Volume, filename: seq<Byte>, k: nat, n: nat, m: nat)
    requires VolumeOk(v) && k < EntryCount(v) && ShownLength(EntryOf(v, k).name, n) && ShownLength(EntryOf(v, k).ext, m)
    ensures EntryCount(v) == v.rootEntries * 32 / 512 * 16
    ensures IsFile(v, filename, k) <==>
      && RootByte(v, k, 0) != 0 && RootByte(v, k, 0) != 0xE5 && RootByte(v, k, 11) != 15
      && SameIgnoringCase(CText(filename), EntryOf(v, k).name[..n] + ['.' as int] + EntryOf(v, k).ext[..m])
  {
    EntryByBytes(v, k);
    NameThenExtension(EntryOf(v, k).name, EntryOf(v, k).ext, n, m);
  }

  // ----- Names identify files -----

  /** A part as the format wants it: characters other than NUL, space and dot, padded with spaces. */
  predicate Padded(part: seq<Byte>) {
    && (forall i :: 0 <= i < |Trimmed(part)| ==> part[i] != DOT)
    && (forall i :: |Trimmed(part)| <= i < |part| ==> part[i] == SPACE)
  }

  /** Entries with the same rendered name, up to case, have the same name and extension, up to case. */
  lemma RenderedIsInjective(a: DirEntry, b: DirEntry)
    requires |a.name| == |b.name| == 8 && |a.ext| == |b.ext| == 3
    requires Padded(a.name) && Padded(a.ext) && Padded(b.name) && Padded(b.ext)
    ensures SameIgnoringCase(Rendered(a.name, a.ext), Rendered(b.name, b.ext)) <==>
      SameIgnoringCase(a.name, b.name) && SameIgnoringCase(a.ext, b.ext)
  {
    var x, y, n, m := Rendered(a.name, a.ext), Rendered(b.name, b.ext), |Trimmed(a.name)|, |Trimmed(b.name)|;
    assert x[n] == DOT && y[m] == DOT;
    if SameIgnoringCase(x, y) {
      DotStaysDot(x, y, n, m);
      PartsAgree(a.name, b.name);
      forall i | 0 <= i < |Trimmed(a.name)| ensures SameLetter(Trimmed(a.name)[i], Trimmed(b.name)[i]) {
        assert SameLetter(x[i], y[i]);
      }
      forall i | 0 <= i < |Trimmed(a.ext)| ensures SameLetter(Trimmed(a.ext)[i], Trimmed(b.ext)[i]) {
        assert SameLetter(x[n + 1 + i], y[n + 1 + i]);
      }
      PartsAgree(a.ext, b.ext);
    } else if SameIgnoringCase(a.name, b.name) && SameIgnoringCase(a.ext, b.ext) {
      PartsAgree(a.name, b.name);
      PartsAgree(a.ext, b.ext);
    }
  }

  /** The dots of two equal names are at the same place. */
  lemma DotStaysDot(x: seq<Byte>, y: seq<Byte>, n: nat, m: nat)
    requires SameIgnoringCase(x, y) && n < |x| && m < |y| && x[n] == DOT && y[m] == DOT
    requires (forall i :: 0 <= i < n ==> x[i] != DOT) && (forall i :: 0 <= i < m ==> y[i] != DOT)
    ensures n == m
  {
    assert SameLetter(x[n], y[n]) && SameLetter(x[m], y[m]);
  }

  lemma PartsAgree(a: seq<Byte>, b: seq<Byte>)
    requires |a| == |b| && Padded(a) && Padded(b)
    ensures SameIgnoringCase(a, b) <==> SameIgnoringCase(Trimmed(a), Trimmed(b))
  {
    var n, m := |Trimmed(a)|, |Trimmed(b)|;
    if SameIgnoringCase(a, b) {
      assert n < |a| ==> SameLetter(a[n], b[n]);
      assert m < |a| ==> SameLetter(a[m], b[m]);
    }
    if SameIgnoringCase(Trimmed(a), Trimmed(b)) {
      forall i | 0 <= i < |a| ensures SameLetter(a[i], b[i]) {
        if i < n { assert SameLetter(Trimmed(a)[i], Trimmed(b)[i]); }
      }
    }
  }

  /** In a directory in order, two entries found under one name have the same 8.3 name up to case. */
  lemma LookupIsUnique(v: Volume, filename: seq<Byte>, j: nat, k: nat)
    requires VolumeOk(v) && j < EntryCount(v) && k < EntryCount(v) && IsFile(v, filename, j) && IsFile(v, filename, k)
    requires Padded(EntryOf(v, j).name) && Padded(EntryOf(v, j).ext) && Padded(EntryOf(v, k).name)
      && Padded(EntryOf(v, k).ext)
    ensures SameIgnoringCase(EntryOf(v, j).name, EntryOf(v, k).name)
      && SameIgnoringCase(EntryOf(v, j).ext, EntryOf(v, k).ext)
  {
    var a, b := EntryOf(v, j), EntryOf(v, k);
    var x, y := Rendered(a.name, a.ext), Rendered(b.name, b.ext);
    forall i | 0 <= i < |x| ensures SameLetter(x[i], y[i]) {
      assert SameLetter(CText(filename)[i], x[i]) && SameLetter(CText(filename)[i], y[i]);
    }
    RenderedIsInjective(a, b);
  }
}
