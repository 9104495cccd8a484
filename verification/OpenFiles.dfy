/** kernel/file.c: the file control block table and the file descriptor table, shared by all processes.
    The loops are proved against FileSpec. */
module OpenFiles {
  import opened ProcessLists
  import opened Errors
  import opened FileSpec
  import opened CStrings
  import opened FatDirectory
  import FatData
  import opened Wrappers

  /** The file slots of all processes. */
  function GridOf(slots: seq<Process>): (g: seq<Row>)
    ensures |g| == |slots| && forall p :: 0 <= p < |g| ==> g[p] == slots[p].file
  {
    seq(|slots|, p requires 0 <= p < |slots| => slots[p].file)
  }

  function FoundAt(index: nat, e: DirEntry): Found { Found(index, e.name, e.ext, e.cluster, e.size) }

  /** The first flat directory index from `k` on with a file of this name, or the number of entries. */
  function FirstFile(v: Volume, filename: seq<Byte>, k: nat): (n: nat)
    requires VolumeOk(v) && k <= EntryCount(v)
    ensures k <= n <= EntryCount(v)
    ensures n < EntryCount(v) ==> IsFile(v, filename, n)
    ensures forall i: nat :: k <= i < n ==> !IsFile(v, filename, i)
    decreases EntryCount(v) - k
  {
    if k == EntryCount(v) || IsFile(v, filename, k) then k else FirstFile(v, filename, k + 1)
  }

  /** What a lookup of this name finds. */
  function Lookup(v: Volume, filename: seq<Byte>): (r: Option<Found>)
    requires VolumeOk(v)
    ensures r.Some? ==> r.value.index < EntryCount(v) <= FCBS
  {
    var n := FirstFile(v, filename, 0);
    if n == EntryCount(v) then None else Some(FoundAt(n, EntryOf(v, n)))
  }

  lemma LookupFinds(v: Volume, filename: seq<Byte>, n: nat)
    requires NoFileBelow(v, filename, n) && n <= EntryCount(v) && (n < EntryCount(v) ==> IsFile(v, filename, n))
    ensures FirstFile(v, filename, 0) == n
  {
  }

  /** Slot `r` of process `p` was opened on the first directory entry of this name. If the file was not open yet,
      what is recorded of it is what the entry says. */
  predicate OpenedEntry(s: Files, t: Files, p: nat, r: nat, v: Volume, filename: seq<Byte>)
    requires VolumeOk(v)
  {
    && p < |t.grid| && r < |t.grid[p]| && t.grid[p][r].Some? && t.grid[p][r].value < |t.fds|
    && var d := t.fds[t.grid[p][r].value];
       && d.fcb.Some? && d.fcb.value < |t.fcbs| && d.fcb.value < |s.fcbs| && d.position == 0
       && var k, block := d.fcb.value, t.fcbs[d.fcb.value];
          && k < EntryCount(v) && IsFile(v, filename, k) && (forall i: nat :: i < k ==> !IsFile(v, filename, i))
          && (s.fcbs[k].openCount == 0 ==>
                && block.startCluster == EntryOf(v, k).cluster && block.fileSize == EntryOf(v, k).size
                && block.name == EntryOf(v, k).name && block.ext == EntryOf(v, k).ext && block.dirEntry == k)
  }

  lemma OpenFindsEntry(s: Files, p: nat, v: Volume, filename: seq<Byte>)
    requires CountsExact(s) && p < PROCESSES && VolumeOk(v) && FileSpec.Open(s, p, Lookup(v, filename)).1 >= 0
    ensures var (t, r) := FileSpec.Open(s, p, Lookup(v, filename)); OpenedEntry(s, t, p, r, v, filename)
  {
    OpenResult(s, p, Lookup(v, filename));
    OpenRecords(s, p, Lookup(v, filename));
  }

  class FileTables {
    const fds: array<Fd>
    const fcbs: array<Fcb>

    constructor ()
      ensures fresh(fds) && fresh(fcbs) && fds.Length == FDS && fcbs.Length == FCBS
      ensures forall f :: 0 <= f < FDS ==> fds[f] == ZeroFd()
      ensures forall c :: 0 <= c < FCBS ==> fcbs[c] == ZeroFcb()
    {
      fds := new Fd[FDS](_ => ZeroFd());
      fcbs := new Fcb[FCBS](_ => ZeroFcb());
    }

    /** The abstract state, together with the process slots. */
    function View(table: ProcessTable): Files
      reads fds, fcbs, table, table.slots
    {
      Files(GridOf(table.slots[..]), fds[..], fcbs[..])
    }

    ghost predicate Valid(table: ProcessTable)
      reads fds, fcbs, table, table.slots, table.heads
    {
      table.Valid() && CountsExact(View(table)) && PositionsOk(View(table))
    }

    method FindCell(file: Row) returns (i: nat)
      requires |file| == MAX_FILES
      ensures i == FreeCell(file, USER_START_FD)
    {
      i := USER_START_FD;
      while i < MAX_FILES && file[i] != None
        invariant USER_START_FD <= i <= MAX_FILES && FreeCell(file, i) == FreeCell(file, USER_START_FD)
      {
        i := i + 1;
      }
    }

    method FindFd() returns (f: nat)
      ensures f == FreeFd(fds[..], 0)
    {
      f := 0;
      while f < fds.Length && fds[f].fcb != None
        invariant f <= fds.Length && FreeFd(fds[..], f) == FreeFd(fds[..], 0)
      {
        f := f + 1;
      }
    }

    method Open(table: ProcessTable, p: nat, v: Volume, filename: seq<Byte>) returns (r: int)
      requires Valid(table) && p < PROCESSES && VolumeOk(v) && NUL in filename
      modifies table.slots, fds, fcbs
      ensures Valid(table) && (View(table), r) == FileSpec.Open(old(View(table)), p, Lookup(v, filename))
      ensures r >= 0 ==> OpenedEntry(old(View(table)), View(table), p, r, v, filename)
      ensures OnlyFile(old(table.slots[..]), table.slots[..], p)
    {
      ghost var lookup := Lookup(v, filename);
      OpenKeeps(View(table), p, lookup);
      OpenKeepsPositions(View(table), p, lookup);
      if FileSpec.Open(View(table), p, lookup).1 >= 0 { OpenFindsEntry(View(table), p, v, filename); }
      var i := FindCell(table.slots[p].file);
      if i == MAX_FILES {
        return -EMFILE;
      }
      var f := FindFd();
      if f == fds.Length {
        return -ENOMEM;
      }
      var index, entry := FindFileInRootDir(v, filename);
      LookupFinds(v, filename, if index < 0 then EntryCount(v) else index);
      if index < 0 {
        return -ENOENT;
      }
      if entry.cluster < FatData.START_CLUSTER {
        return -EAGAIN;
      }
      Link(table, p, i, f, FoundAt(index, entry));
      return i;
    }

    /** Steps 4 to 6 of Open. */
    method Link(table: ProcessTable, p: nat, i: nat, f: nat, e: Found)
      requires table.Valid() && p < PROCESSES && i < |table.slots[p].file| && f < fds.Length && e.index < fcbs.Length
      modifies table.slots, fds, fcbs
      ensures table.Valid()
      ensures table.slots[..] ==
        old(table.slots[..])[p := old(table.slots[..])[p].(file := old(table.slots[p].file)[i := Some(f)])]
      ensures GridOf(table.slots[..]) == SetCell(GridOf(old(table.slots[..])), p, i, Some(f))
      ensures fds[..] == old(fds[..])[f := Fd(Some(e.index), 0, 1)]
      ensures fcbs[..] == old(fcbs[..])[e.index := OpenedFcb(old(fcbs[..])[e.index], e)]
    {
      if fcbs[e.index].openCount == 0 {
        fcbs[e.index] := Fcb(e.name, e.ext, e.cluster, e.index, e.size, 0);
      }
      fcbs[e.index] := fcbs[e.index].(openCount := fcbs[e.index].openCount + 1);
      fds[f] := ZeroFd();
      fds[f] := fds[f].(fcb := Some(e.index), openCount := 1);
      SetFile(table, p, table.slots[p].file[i := Some(f)]);
    }

    method SetFile(table: ProcessTable, p: nat, file: Row)
      requires table.Valid() && p < PROCESSES
      modifies table.slots
      ensures table.Valid() && table.slots[..] == old(table.slots[..])[p := old(table.slots[..])[p].(file := file)]
      ensures GridOf(table.slots[..]) == GridOf(old(table.slots[..]))[p := file]
    {
      table.Update(p, table.slots[p].(file := file));
    }

    /** The two decrements that Close and Wait share. */
    method Drop(f: nat)
      requires f < fds.Length && fds[f].fcb.Some? && fds[f].fcb.value < fcbs.Length
      modifies fds, fcbs
      ensures fds[..] == old(fds[..])[f := DroppedFd(old(fds[f]))]
      ensures var c := old(fds[f]).fcb.value;
        fcbs[..] == old(fcbs[..])[c := old(fcbs[c]).(openCount := old(fcbs[c]).openCount - 1)]
    {
      var c := fds[f].fcb.value;
      fcbs[c] := fcbs[c].(openCount := fcbs[c].openCount - 1);
      fds[f] := fds[f].(openCount := fds[f].openCount - 1);
      if fds[f].openCount == 0 {
        fds[f] := fds[f].(fcb := None);
      }
    }

    /** Read from the file behind slot `i` into `out`. */
    method Read(table: ProcessTable, p: nat, i: nat, out: array<Byte>, size: nat, v: Volume, scratch: array<Byte>)
        returns (r: int)
      requires Valid(table) && p < PROCESSES && i < MAX_FILES
      requires out != scratch && scratch.Length == FatData.SCRATCH_SIZE && size <= out.Length
      requires ReadPossible(View(table), p, i, size, v)
      modifies fds, out, scratch
      ensures Valid(table) && CellLinked(old(View(table)), p, i)
      ensures old(View(table)).grid[p][i].Some? ==> PositionOk(old(View(table)), old(View(table)).grid[p][i].value)
      ensures (View(table), r) == FileSpec.Read(old(View(table)), p, i, size)
      ensures r >= 0 ==>
        fds[table.slots[p].file[i].value].position == old(fds[table.slots[p].file[i].value].position) + r
      ensures r < 0 ==> out[..] == old(out[..])
      ensures r >= 0 ==>
        r <= size && out[r..] == old(out[r..]) && BytesRead(old(View(table)), p, i, r, v, old(scratch[..]), out[..r])
    {
      ghost var s := View(table);
      ReadKeeps(s, p, i, size);
      if table.slots[p].file[i] == None {
        return -EBADF;
      }
      var f := table.slots[p].file[i].value;
      var c := fds[f].fcb.value;
      var position, fileSize := fds[f].position, fcbs[c].fileSize;
      assert PositionOk(s, f);
      var length := size;
      if (position + size) % FatData.POSITION_LIMIT > fileSize {
        length := fileSize - position;
      }
      var read := FatData.ReadRawData(v, fcbs[c].startCluster, out, position, length, scratch);
      fds[f] := fds[f].(position := position + read);
      r := read;
      assert View(table).grid == s.grid;
    }

    method Close(table: ProcessTable, p: nat, i: nat)
      requires Valid(table) && p < PROCESSES && i < MAX_FILES
      modifies table.slots, fds, fcbs
      ensures Valid(table) && CellLinked(old(View(table)), p, i)
        && View(table) == FileSpec.Close(old(View(table)), p, i)
      ensures OnlyFile(old(table.slots[..]), table.slots[..], p)
    {
      ghost var s := View(table);
      CloseKeeps(s, p, i);
      CountsKeepPositions(s, FileSpec.Close(s, p, i));
      if table.slots[p].file[i] == None {
        return;
      }
      var f := table.slots[p].file[i].value;
      assert fcbs[fds[f].fcb.value].openCount > 0;
      Drop(f);
      SetFile(table, p, table.slots[p].file[i := None]);
    }

    /** The loop of Wait over the files of a killed process, which is cleared afterwards. */
    method CloseAll(table: ProcessTable, p: nat)
      requires Valid(table) && p < PROCESSES
      modifies table.slots, fds, fcbs
      ensures Valid(table) && View(table) == FileSpec.CloseAll(old(View(table)), p)
      ensures table.slots[..] == old(table.slots[..])[p := old(table.slots[..])[p].(file := NoFiles())]
    {
      ghost var s := View(table);
      for i := USER_START_FD to MAX_FILES
        invariant table.Valid() && table.slots[..] == old(table.slots[..])
        invariant fds[..] == CloseUpTo(s, p, i).fds && fcbs[..] == CloseUpTo(s, p, i).fcbs
      {
        DropCell(CloseUpTo(s, p, i), p, i, table.slots[p].file[i]);
      }
      ghost var t := FileSpec.CloseAll(s, p);
      CountsKeepPositions(s, t);
      SetFile(table, p, NoFiles());
      assert View(table).grid == t.grid && View(table).fds == t.fds && View(table).fcbs == t.fcbs;
    }

    /** One round: drop the reference of slot `i`, if any. */
    method DropCell(ghost t: Files, ghost p: nat, ghost i: nat, cell: Option<nat>)
      requires CountsExact(t) && fds[..] == t.fds && fcbs[..] == t.fcbs && p < PROCESSES && i < MAX_FILES
        && t.grid[p][i] == cell
      modifies fds, fcbs
      ensures CellLinked(t, p, i)
      ensures fds[..] == FileSpec.Close(t, p, i).fds && fcbs[..] == FileSpec.Close(t, p, i).fcbs
    {
      CloseKeeps(t, p, i);
      if cell != None {
        assert fds[cell.value] == t.fds[cell.value];
        Drop(cell.value);
      }
    }

    /** The part of Fork about files: the child's slots become a copy of the parent's. */
    method ShareAll(table: ProcessTable, p: nat, q: nat)
      requires Valid(table) && p < PROCESSES && q < PROCESSES && p != q && table.slots[q].file == NoFiles()
      modifies table.slots, fds, fcbs
      ensures Valid(table) && View(table) == FileSpec.ShareAll(old(View(table)), p, q)
      ensures table.slots[..] == old(table.slots[..])[q := old(table.slots[..])[q].(file := old(table.slots[p].file))]
    {
      ghost var s := View(table);
      SetFile(table, q, table.slots[p].file);
      ghost var after := table.slots[..];
      for i := USER_START_FD to MAX_FILES
        invariant table.Valid() && table.slots[..] == after
        invariant fds[..] == ShareUpTo(s, p, q, i).fds && fcbs[..] == ShareUpTo(s, p, q, i).fcbs
      {
        ShareCell(ShareUpTo(s, p, q, i), p, q, i, table.slots[q].file[i]);
      }
      ghost var t := FileSpec.ShareAll(s, p, q);
      CountsKeepPositions(s, t);
      assert View(table).grid == t.grid && View(table).fds == t.fds && View(table).fcbs == t.fcbs;
    }

    /** One round: count the reference of slot `i`, if any. */
    method ShareCell(ghost t: Files, ghost p: nat, ghost q: nat, ghost i: nat, cell: Option<nat>)
      requires CountsExact(t) && fds[..] == t.fds && fcbs[..] == t.fcbs && p < PROCESSES && q < PROCESSES
        && i < MAX_FILES
      requires t.grid[p][i] == cell && t.grid[q][i] == None
      modifies fds, fcbs
      ensures CellLinked(t, p, i)
      ensures fds[..] == Share(t, p, q, i).fds && fcbs[..] == Share(t, p, q, i).fcbs
    {
      ShareKeeps(t, p, q, i);
      if cell != None {
        var f := cell.value;
        assert fds[f] == t.fds[f];
        var c := fds[f].fcb.value;
        fcbs[c] := fcbs[c].(openCount := fcbs[c].openCount + 1);
        fds[f] := fds[f].(openCount := fds[f].openCount + 1);
      }
    }
  }

  /** A read of this size meets what ReadRawData relies on, and its end position fits 32 bits. */
  predicate ReadPossible(s: Files, p: nat, i: nat, size: nat, v: Volume) {
    && CountsExact(s) && p < PROCESSES && i < MAX_FILES && CellLinked(s, p, i)
    && (s.grid[p][i].Some? ==>
          var d := s.fds[s.grid[p][i].value];
          var b := s.fcbs[d.fcb.value];
          d.position <= b.fileSize && d.position + size < FatData.POSITION_LIMIT
          && FatData.ReadFits(v, b.startCluster, d.position, FatData.ReadSize(d.position, b.fileSize, size)))
  }

  /** `data` is what reading `n` bytes through slot `i` of process `p` delivers. */
  ghost predicate BytesRead(s: Files, p: nat, i: nat, n: nat, v: Volume, stale: seq<Byte>, data: seq<Byte>) {
    && CountsExact(s) && p < PROCESSES && i < MAX_FILES && CellLinked(s, p, i) && s.grid[p][i].Some?
    && var d := s.fds[s.grid[p][i].value];
       var b := s.fcbs[d.fcb.value];
       FatData.ReadFits(v, b.startCluster, d.position, n) && |stale| == FatData.SCRATCH_SIZE
       && data == FatData.Delivered(v.disk, FatData.RequestFor(v, b.startCluster, d.position, n), stale)
  }

  /** Only the file slots of process `p` differ. */
  ghost predicate OnlyFile(a: seq<Process>, b: seq<Process>, p: nat) {
    |a| == |b| && p < |a| && b == a[p := a[p].(file := b[p].file)]
  }
}
