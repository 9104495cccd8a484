/** The open-file tables of kernel/file.c as values: process slots point to file descriptors, which
    point to file control blocks, with reference counts on both levels. */
module FileSpec {
  import opened CStrings
  import opened ProcessLists
  import opened Errors
  import opened FatDirectory
  import FatData
  import opened Wrappers

  const USER_START_FD := 3
  const FDS := 0x2_0000          // PAGE_SIZE / sizeof(FD)
  const FCBS := 74898            // PAGE_SIZE / sizeof(FCB)

  /** A file descriptor entry, and a file control block. */
  datatype Fd = Fd(fcb: Option<nat>, position: nat, openCount: int)
  datatype Fcb = Fcb(name: seq<Byte>, ext: seq<Byte>, startCluster: nat, dirEntry: nat, fileSize: Word32,
      openCount: int)

  function ZeroFd(): Fd { Fd(None, 0, 0) }
  function ZeroFcb(): Fcb { Fcb(seq(8, _ => 0), seq(3, _ => 0), 0, 0, 0, 0) }

  type Row = seq<Option<nat>>

  /** The file slots of all processes and the two tables. */
  datatype Files = Files(grid: seq<Row>, fds: seq<Fd>, fcbs: seq<Fcb>)

  /** What a directory lookup returns: the flat index of the entry, and the entry. */
  datatype Found = Found(index: nat, name: seq<Byte>, ext: seq<Byte>, cluster: Word16, size: Word32)

  predicate Shaped(s: Files) {
    |s.grid| == PROCESSES && |s.fds| == FDS && |s.fcbs| == FCBS
      && forall p :: 0 <= p < |s.grid| ==> |s.grid[p]| == MAX_FILES
  }

  // ----- What the calls do -----

  function SetCell(grid: seq<Row>, p: nat, i: nat, v: Option<nat>): (g: seq<Row>)
    requires p < |grid| && i < |grid[p]|
    ensures |g| == |grid| && |g[p]| == |grid[p]| && forall q :: 0 <= q < |grid| && q != p ==> g[q] == grid[q]
  {
    grid[p := grid[p][i := v]]
  }

  /** Position of the first empty slot from `i` on. */
  function FreeCell(row: Row, i: nat): (k: nat)
    requires i <= |row|
    ensures i <= k <= |row|
    ensures k < |row| ==> row[k] == None
    ensures forall j :: i <= j < k ==> row[j] != None
    decreases |row| - i
  {
    if i == |row| || row[i] == None then i else FreeCell(row, i + 1)
  }

  /** Position of the first unused descriptor from `i` on. */
  function FreeFd(fds: seq<Fd>, i: nat): (k: nat)
    requires i <= |fds|
    ensures i <= k <= |fds|
    ensures k < |fds| ==> fds[k].fcb == None
    ensures forall j :: i <= j < k ==> fds[j].fcb != None
    decreases |fds| - i
  {
    if i == |fds| || fds[i].fcb == None then i else FreeFd(fds, i + 1)
  }

  function CountUp(b: Fcb): Fcb { b.(openCount := b.openCount + 1) }

  /** The control block of a file being opened: filled in only if it is not open yet. */
  function OpenedFcb(b: Fcb, e: Found): Fcb {
    CountUp(if b.openCount == 0 then Fcb(e.name, e.ext, e.cluster, e.index, e.size, 0) else b)
  }

  /** Open: the new state and the descriptor number or negative error. */
  function Open(s: Files, p: nat, lookup: Option<Found>): (r: (Files, int))
    requires Shaped(s) && p < PROCESSES && (lookup.Some? ==> lookup.value.index < FCBS)
    ensures Shaped(r.0)
  {
    var i, f := FreeCell(s.grid[p], USER_START_FD), FreeFd(s.fds, 0);
    if i == MAX_FILES then (s, -EMFILE)
    else if f == FDS then (s, -ENOMEM)
    else match lookup
      case None => (s, -ENOENT)
      case Some(e) =>
        if e.cluster < FatData.START_CLUSTER then (s, -EAGAIN)
        else (Files(SetCell(s.grid, p, i, Some(f)), s.fds[f := Fd(Some(e.index), 0, 1)],
                    s.fcbs[e.index := OpenedFcb(s.fcbs[e.index], e)]), i)
  }

  /** The descriptor after one reference to it is dropped. */
  function DroppedFd(d: Fd): Fd { Fd(if d.openCount == 1 then None else d.fcb, d.position, d.openCount - 1) }

  function Close(s: Files, p: nat, i: nat): (t: Files)
    requires Shaped(s) && p < PROCESSES && i < MAX_FILES && CellLinked(s, p, i)
    ensures Shaped(t)
  {
    match s.grid[p][i]
    case None => s
    case Some(f) =>
      var c := s.fds[f].fcb.value;
      Files(SetCell(s.grid, p, i, None), s.fds[f := DroppedFd(s.fds[f])],
            s.fcbs[c := s.fcbs[c].(openCount := s.fcbs[c].openCount - 1)])
  }

  /** Slot `i` of process `q` gets to share the descriptor of slot `i` of process `p`. */
  function Share(s: Files, p: nat, q: nat, i: nat): (t: Files)
    requires Shaped(s) && p < PROCESSES && q < PROCESSES && i < MAX_FILES && CellLinked(s, p, i)
    ensures Shaped(t)
  {
    match s.grid[p][i]
    case None => s
    case Some(f) =>
      var c := s.fds[f].fcb.value;
      Files(SetCell(s.grid, q, i, Some(f)), s.fds[f := s.fds[f].(openCount := s.fds[f].openCount + 1)],
            s.fcbs[c := CountUp(s.fcbs[c])])
  }

  /** The descriptor behind slot `i` of process `p` is in use at a position within its file. */
  predicate PositionOk(s: Files, f: nat)
    requires f < |s.fds|
  {
    s.fds[f].fcb.Some? && s.fds[f].fcb.value < |s.fcbs| ==> s.fds[f].position <= s.fcbs[s.fds[f].fcb.value].fileSize
  }

  /** Read: only the position of the descriptor moves, by the number of bytes read. */
  function Read(s: Files, p: nat, i: nat, size: nat): (r: (Files, int))
    requires Shaped(s) && p < PROCESSES && i < MAX_FILES && CellLinked(s, p, i)
    requires s.grid[p][i].Some? ==> PositionOk(s, s.grid[p][i].value)
    ensures Shaped(r.0)
  {
    match s.grid[p][i]
    case None => (s, -EBADF)
    case Some(f) =>
      var n := FatData.ReadSize(s.fds[f].position, s.fcbs[s.fds[f].fcb.value].fileSize, size);
      (s.(fds := s.fds[f := s.fds[f].(position := s.fds[f].position + n)]), n)
  }

  // ----- Counting references -----

  /** How often the row holds `x`. */
  function Count(row: Row, x: nat): nat {
    if row == [] then 0 else (if row[0] == Some(x) then 1 else 0) + Count(row[1..], x)
  }

  /** How often the grid holds `x`. */
  function CountGrid(grid: seq<Row>, x: nat): nat {
    if grid == [] then 0 else Count(grid[0], x) + CountGrid(grid[1..], x)
  }

  /** The control block a slot reaches through its descriptor. */
  function Reach(fds: seq<Fd>, cell: Option<nat>): Option<nat> {
    if cell.Some? && cell.value < |fds| then fds[cell.value].fcb else None
  }

  function ReachRow(fds: seq<Fd>, row: Row): Row { seq(|row|, i requires 0 <= i < |row| => Reach(fds, row[i])) }

  function ReachGrid(fds: seq<Fd>, grid: seq<Row>): seq<Row> {
    seq(|grid|, p requires 0 <= p < |grid| => ReachRow(fds, grid[p]))
  }

  /** A slot in use leads to a descriptor in use, and it to a control block. */
  predicate CellLinked(s: Files, p: nat, i: nat)
    requires p < |s.grid| && i < |s.grid[p]|
  {
    s.grid[p][i].Some? ==>
      s.grid[p][i].value < |s.fds| && s.fds[s.grid[p][i].value].fcb.Some?
        && s.fds[s.grid[p][i].value].fcb.value < |s.fcbs|
  }

  predicate Linked(s: Files) {
    forall p: nat, i: nat :: p < |s.grid| && i < |s.grid[p]| ==> CellLinked(s, p, i)
  }

  /** The count of a descriptor is the number of slots that point at it, and it is unused exactly if none does. */
  predicate FdExact(s: Files, f: nat)
    requires f < |s.fds|
  {
    s.fds[f].openCount == CountGrid(s.grid, f) && (s.fds[f].fcb == None <==> CountGrid(s.grid, f) == 0)
  }

  /** The count of a control block is the number of slots that reach it through any descriptor. */
  predicate FcbExact(s: Files, c: nat)
    requires c < |s.fcbs|
  {
    s.fcbs[c].openCount == CountGrid(ReachGrid(s.fds, s.grid), c)
  }

  /** Slots below USER_START_FD are never used. */
  predicate LowFree(s: Files, p: nat)
    requires p < |s.grid|
  {
    forall i :: 0 <= i < USER_START_FD && i < |s.grid[p]| ==> s.grid[p][i] == None
  }

  predicate CountsExact(s: Files) {
    && Shaped(s) && Linked(s)
    && (forall p: nat :: p < |s.grid| ==> LowFree(s, p))
    && (forall f: nat :: f < |s.fds| ==> FdExact(s, f))
    && (forall c: nat :: c < |s.fcbs| ==> FcbExact(s, c))
  }

  function One(v: Option<nat>, x: nat): nat { if v == Some(x) then 1 else 0 }

  lemma {:induction false} CountUpdate(row: Row, i: nat, v: Option<nat>, x: nat)
    requires i < |row|
    ensures Count(row[i := v], x) == Count(row, x) - One(row[i], x) + One(v, x)
  {
    if i == 0 {
      assert row[i := v][1..] == row[1..];
    } else {
      assert row[i := v][1..] == row[1..][i - 1 := v];
      CountUpdate(row[1..], i - 1, v, x);
    }
  }

  lemma {:induction false} CountGridUpdate(grid: seq<Row>, p: nat, row: Row, x: nat)
    requires p < |grid|
    ensures CountGrid(grid[p := row], x) == CountGrid(grid, x) - Count(grid[p], x) + Count(row, x)
  {
    if p == 0 {
      assert grid[p := row][1..] == grid[1..];
    } else {
      assert grid[p := row][1..] == grid[1..][p - 1 := row];
      CountGridUpdate(grid[1..], p - 1, row, x);
    }
  }

  lemma CountCell(grid: seq<Row>, p: nat, i: nat, v: Option<nat>, x: nat)
    requires p < |grid| && i < |grid[p]|
    ensures CountGrid(SetCell(grid, p, i, v), x) == CountGrid(grid, x) - One(grid[p][i], x) + One(v, x)
  {
    CountUpdate(grid[p], i, v, x);
    CountGridUpdate(grid, p, grid[p][i := v], x);
  }

  lemma {:induction false} CountPositive(row: Row, i: nat, x: nat)
    requires i < |row| && row[i] == Some(x)
    ensures Count(row, x) >= 1
  {
    if i > 0 { CountPositive(row[1..], i - 1, x); }
  }

  /** A slot that holds `x` is counted. */
  lemma {:induction false} CountGridPositive(grid: seq<Row>, p: nat, i: nat, x: nat)
    requires p < |grid| && i < |grid[p]| && grid[p][i] == Some(x)
    ensures CountGrid(grid, x) >= 1
  {
    if p == 0 { CountPositive(grid[0], i, x); } else { CountGridPositive(grid[1..], p - 1, i, x); }
  }

  // ----- Every call keeps the counts exact -----

  /** Changing descriptors that no slot but (p, i) points at changes what the others reach in no way. */
  lemma ReachAfter(fds: seq<Fd>, grid: seq<Row>, fds': seq<Fd>, p: nat, i: nat, v: Option<nat>)
    requires p < |grid| && i < |grid[p]| && |fds'| == |fds|
    requires forall q: nat, j: nat ::
      q < |grid| && j < |grid[q]| && (q != p || j != i) ==> Reach(fds', grid[q][j]) == Reach(fds, grid[q][j])
    ensures ReachGrid(fds', SetCell(grid, p, i, v)) == SetCell(ReachGrid(fds, grid), p, i, Reach(fds', v))
  {
    var a, b := ReachGrid(fds', SetCell(grid, p, i, v)), SetCell(ReachGrid(fds, grid), p, i, Reach(fds', v));
    forall q: nat | q < |grid| ensures a[q] == b[q] {
      forall j: nat | j < |grid[q]| ensures a[q][j] == b[q][j] { }
    }
  }

  lemma OpenKeeps(s: Files, p: nat, lookup: Option<Found>)
    requires CountsExact(s) && p < PROCESSES && (lookup.Some? ==> lookup.value.index < FCBS)
    ensures CountsExact(Open(s, p, lookup).0)
  {
    var t, i, f := Open(s, p, lookup).0, FreeCell(s.grid[p], USER_START_FD), FreeFd(s.fds, 0);
    if t != s {
      var e := lookup.value;
      assert FdExact(s, f);
      forall q: nat, j: nat | q < |s.grid| && j < |s.grid[q]| ensures s.grid[q][j] != Some(f) {
        if s.grid[q][j] == Some(f) { CountGridPositive(s.grid, q, j, f); }
      }
      ReachAfter(s.fds, s.grid, t.fds, p, i, Some(f));
      CellKeeps(s, t, p, i, f, e.index);
    }
  }

  /** One slot got to point, or ceased to point, at descriptor `f` of block `c`. */
  lemma CellKeeps(s: Files, t: Files, p: nat, i: nat, f: nat, c: nat)
    requires CountsExact(s) && Shaped(t) && p < PROCESSES && i < MAX_FILES && f < FDS && c < FCBS
    requires var v := t.grid[p][i];
      && t.grid == SetCell(s.grid, p, i, v) && ((s.grid[p][i] == None && v == Some(f))
         || (s.grid[p][i] == Some(f) && v == None))
      && ReachGrid(t.fds, t.grid) == SetCell(ReachGrid(s.fds, s.grid), p, i, Reach(t.fds, v))
      && (s.grid[p][i] == Some(f) ==> s.fds[f].fcb == Some(c))
      && t.fds[f].openCount == CountGrid(s.grid, f) - One(s.grid[p][i], f) + One(v, f)
      && t.fds[f].fcb == (if t.fds[f].openCount == 0 then None else Some(c))
      && t.fcbs[c].openCount == s.fcbs[c].openCount - One(s.grid[p][i], f) + One(v, f)
    requires forall g: nat :: g < FDS && g != f ==> t.fds[g] == s.fds[g]
    requires forall d: nat :: d < FCBS && d != c ==> t.fcbs[d] == s.fcbs[d]
    requires i >= USER_START_FD
    ensures CountsExact(t)
  {
    forall q: nat | q < |t.grid| ensures LowFree(t, q) { assert LowFree(s, q); }
    var v := t.grid[p][i];
    forall g: nat | g < |t.fds| ensures FdExact(t, g) {
      assert FdExact(s, g);
      CountCell(s.grid, p, i, v, g);
    }
    forall d: nat | d < |t.fcbs| ensures FcbExact(t, d) {
      assert FcbExact(s, d);
      CountCell(ReachGrid(s.fds, s.grid), p, i, Reach(t.fds, v), d);
    }
    forall q: nat, j: nat | q < |t.grid| && j < |t.grid[q]| ensures CellLinked(t, q, j) {
      assert CellLinked(s, q, j);
      if t.grid[q][j] == Some(f) { CountGridPositive(t.grid, q, j, f); assert FdExact(t, f); }
    }
  }

  lemma CloseKeeps(s: Files, p: nat, i: nat)
    requires CountsExact(s) && p < PROCESSES && i < MAX_FILES
    ensures CellLinked(s, p, i) && CountsExact(Close(s, p, i))
    ensures s.grid[p][i].Some? ==> s.fcbs[s.fds[s.grid[p][i].value].fcb.value].openCount > 0
  {
    assert CellLinked(s, p, i);
    if s.grid[p][i].Some? {
      var t, f := Close(s, p, i), s.grid[p][i].value;
      var c := s.fds[f].fcb.value;
      assert FdExact(s, f) && FcbExact(s, c) && LowFree(s, p);
      CountGridPositive(ReachGrid(s.fds, s.grid), p, i, c);
      CountCell(s.grid, p, i, None, f);
      forall q: nat, j: nat | q < |s.grid| && j < |s.grid[q]| && (q != p || j != i)
        ensures Reach(t.fds, s.grid[q][j]) == Reach(s.fds, s.grid[q][j])
      {
        if s.grid[q][j] == Some(f) { CountGridPositive(t.grid, q, j, f); }
      }
      ReachAfter(s.fds, s.grid, t.fds, p, i, None);
      CellKeeps(s, t, p, i, f, c);
    }
  }

  lemma ShareKeeps(s: Files, p: nat, q: nat, i: nat)
    requires CountsExact(s) && p < PROCESSES && q < PROCESSES && i < MAX_FILES && s.grid[q][i] == None
    ensures CellLinked(s, p, i) && CountsExact(Share(s, p, q, i))
  {
    assert CellLinked(s, p, i);
    if s.grid[p][i].Some? {
      var t, f := Share(s, p, q, i), s.grid[p][i].value;
      var c := s.fds[f].fcb.value;
      assert FdExact(s, f) && LowFree(s, p);
      CountGridPositive(s.grid, p, i, f);
      ReachAfter(s.fds, s.grid, t.fds, q, i, Some(f));
      CellKeeps(s, t, q, i, f, c);
    }
  }

  // ----- Whole-process operations -----

  /** Only reference counts differ. */
  ghost predicate OnlyCounted(s: Files, t: Files) {
    && |t.fds| == |s.fds| && |t.fcbs| == |s.fcbs|
    && (forall f: nat :: f < |s.fds| ==> t.fds[f] == s.fds[f].(openCount := t.fds[f].openCount))
    && (forall c: nat :: c < |s.fcbs| ==> t.fcbs[c] == s.fcbs[c].(openCount := t.fcbs[c].openCount))
  }

  /** Only reference counts differ, and descriptors may have been given up. */
  ghost predicate OnlyDropped(s: Files, t: Files) {
    && |t.fds| == |s.fds| && |t.fcbs| == |s.fcbs|
    && (forall f: nat ::
       f < |s.fds| ==> t.fds[f].position == s.fds[f].position && (t.fds[f].fcb == s.fds[f].fcb || t.fds[f].fcb == None))
    && (forall c: nat :: c < |s.fcbs| ==> t.fcbs[c] == s.fcbs[c].(openCount := t.fcbs[c].openCount))
  }

  /** Closing the slots of a process from USER_START_FD up to `k`, as Wait does. */
  ghost function CloseUpTo(s: Files, p: nat, k: nat): (t: Files)
    requires CountsExact(s) && p < PROCESSES && USER_START_FD <= k <= MAX_FILES
    ensures CountsExact(t) && OnlyDropped(s, t)
    ensures forall j: nat :: j < MAX_FILES ==> t.grid[p][j] == if j < k then None else s.grid[p][j]
    ensures forall q: nat :: q < PROCESSES && q != p ==> t.grid[q] == s.grid[q]
  {
    if k == USER_START_FD then
      assert LowFree(s, p);
      s
    else
      var t := CloseUpTo(s, p, k - 1);
      CloseKeeps(t, p, k - 1);
      Close(t, p, k - 1)
  }

  /** Closing all files of a process. */
  ghost function CloseAll(s: Files, p: nat): (t: Files)
    requires CountsExact(s) && p < PROCESSES
    ensures CountsExact(t) && OnlyDropped(s, t) && t.grid == s.grid[p := NoFiles()]
  {
    var t := CloseUpTo(s, p, MAX_FILES);
    assert t.grid[p] == NoFiles();
    t
  }

  /** Sharing the slots of process `p` from USER_START_FD up to `k` with the empty process `q`, as Fork does. */
  ghost function ShareUpTo(s: Files, p: nat, q: nat, k: nat): (t: Files)
    requires CountsExact(s) && p < PROCESSES && q < PROCESSES && p != q && USER_START_FD <= k <= MAX_FILES
    requires s.grid[q] == NoFiles()
    ensures CountsExact(t) && OnlyCounted(s, t)
    ensures forall j: nat :: j < MAX_FILES ==> t.grid[q][j] == if j < k then s.grid[p][j] else None
    ensures forall r: nat :: r < PROCESSES && r != q ==> t.grid[r] == s.grid[r]
  {
    if k == USER_START_FD then
      assert LowFree(s, p);
      s
    else
      var t := ShareUpTo(s, p, q, k - 1);
      ShareKeeps(t, p, q, k - 1);
      Share(t, p, q, k - 1)
  }

  /** Sharing all files of a process. */
  ghost function ShareAll(s: Files, p: nat, q: nat): (t: Files)
    requires CountsExact(s) && p < PROCESSES && q < PROCESSES && p != q && s.grid[q] == NoFiles()
    ensures CountsExact(t) && OnlyCounted(s, t) && t.grid == s.grid[q := s.grid[p]]
  {
    var t := ShareUpTo(s, p, q, MAX_FILES);
    assert t.grid[q] == s.grid[p];
    t
  }

  /** The file slots of `q` became a copy of those of `p`, and every reference is counted. */
  ghost predicate Shared(g: Files, h: Files, p: nat, q: nat) {
    && CountsExact(g) && p < PROCESSES && q < PROCESSES && p != q && g.grid[q] == NoFiles()
    && h == ShareAll(g, p, q)
  }

  // ----- Consequences -----

  function Values(row: Row): set<nat> { set i | 0 <= i < |row| && row[i].Some? :: row[i].value }

  function ValuesOf(grid: seq<Row>): set<nat> {
    if grid == [] then {} else Values(grid[0]) + ValuesOf(grid[1..])
  }

  lemma {:induction false} FewValues(row: Row)
    ensures |Values(row)| <= |row|
  {
    if row != [] {
      FewValues(row[1..]);
      var first := if row[0].Some? then {row[0].value} else {};
      assert Values(row) <= first + Values(row[1..]) by {
        forall x | x in Values(row) ensures x in first + Values(row[1..]) {
          var i :| 0 <= i < |row| && row[i] == Some(x);
          if i > 0 { assert row[1..][i - 1] == Some(x); }
        }
      }
      SubsetSize(Values(row), first + Values(row[1..]));
    }
  }

  lemma {:induction false} SubsetSize(a: set<nat>, b: set<nat>)
    requires a <= b
    ensures |a| <= |b|
    decreases |a|
  {
    if a != {} {
      var x :| x in a;
      SubsetSize(a - {x}, b - {x});
    }
  }

  lemma {:induction false} FewValuesOf(grid: seq<Row>)
    requires forall p :: 0 <= p < |grid| ==> |grid[p]| == MAX_FILES
    ensures |ValuesOf(grid)| <= MAX_FILES * |grid|
  {
    if grid != [] {
      FewValues(grid[0]);
      FewValuesOf(grid[1..]);
    }
  }

  lemma {:induction false} CountedIsValue(row: Row, x: nat)
    ensures Count(row, x) > 0 ==> x in Values(row)
  {
    if row != [] {
      CountedIsValue(row[1..], x);
      if x in Values(row[1..]) {
        var i :| 0 <= i < |row[1..]| && row[1..][i] == Some(x);
        assert row[i + 1] == Some(x);
      }
    }
  }

  lemma {:induction false} CountedIsValueOf(grid: seq<Row>, x: nat)
    ensures CountGrid(grid, x) > 0 ==> x in ValuesOf(grid)
  {
    if grid != [] {
      CountedIsValue(grid[0], x);
      CountedIsValueOf(grid[1..], x);
    }
  }

  /** A counted value is held by some slot. */
  lemma {:induction false} CountedSomewhere(grid: seq<Row>, x: nat) returns (p: nat, i: nat)
    requires CountGrid(grid, x) > 0
    ensures p < |grid| && i < |grid[p]| && grid[p][i] == Some(x)
  {
    if Count(grid[0], x) > 0 {
      CountedIsValue(grid[0], x);
      p := 0;
      i := FindValue(grid[0], x);
    } else {
      p, i := CountedSomewhere(grid[1..], x);
      p := p + 1;
    }
  }

  lemma FindValue(row: Row, x: nat) returns (i: nat)
    requires x in Values(row)
    ensures i < |row| && row[i] == Some(x)
  {
    i :| i < |row| && row[i].Some? && row[i].value == x;
  }

  function FirstNats(n: nat): (r: set<nat>)
    ensures |r| == n && forall x: nat :: x in r <==> x < n
  {
    if n == 0 then {}
    else
      var s := FirstNats(n - 1);
      assert n - 1 !in s;
      s + {n - 1}
  }

  /** The descriptor table never runs out: there are fewer slots than descriptors. */
  lemma DescriptorAvailable(s: Files)
    requires CountsExact(s)
    ensures FreeFd(s.fds, 0) < FDS
  {
    if FreeFd(s.fds, 0) == FDS {
      var all := FirstNats(FDS);
      forall f | f in all ensures f in ValuesOf(s.grid) {
        assert s.fds[f].fcb != None && FdExact(s, f);
        CountedIsValueOf(s.grid, f);
      }
      SubsetSize(all, ValuesOf(s.grid));
      FewValuesOf(s.grid);
    }
  }

  /** The result of Open, in the order of its checks: no empty slot, no such file, a file without clusters, or the
      first empty slot. It never runs out of descriptors. */
  lemma OpenResult(s: Files, p: nat, lookup: Option<Found>)
    requires CountsExact(s) && p < PROCESSES && (lookup.Some? ==> lookup.value.index < FCBS)
    ensures var r, full := Open(s, p, lookup).1, forall i :: USER_START_FD <= i < MAX_FILES ==> s.grid[p][i] != None;
      && (r == -EMFILE <==> full)
      && r != -ENOMEM
      && (r == -ENOENT <==> !full && lookup == None)
      && (r == -EAGAIN <==> !full && lookup.Some? && lookup.value.cluster < FatData.START_CLUSTER)
      && (r >= 0 <==> !full && lookup.Some? && lookup.value.cluster >= FatData.START_CLUSTER)
      && (r >= 0 ==> USER_START_FD <= r < MAX_FILES && s.grid[p][r] == None
                     && forall i :: USER_START_FD <= i < r ==> s.grid[p][i] != None)
  {
    DescriptorAvailable(s);
  }

  /** What Open records. A file that is not open yet is described by its directory entry, with nothing left of what
      its block said before; one that is open already gets one more reference. The new descriptor stands at the
      beginning of the file. */
  lemma OpenRecords(s: Files, p: nat, lookup: Option<Found>)
    requires CountsExact(s) && p < PROCESSES && (lookup.Some? ==> lookup.value.index < FCBS)
    requires Open(s, p, lookup).1 >= 0
    ensures var (t, r) := Open(s, p, lookup);
      var e := lookup.value;
      && t.grid[p][r].Some? && t.grid[p][r].value < FDS
      && var d, was, now := t.fds[t.grid[p][r].value], s.fcbs[e.index], t.fcbs[e.index];
         && d.fcb == Some(e.index) && d.position == 0 && d.openCount == 1
         && now.openCount == was.openCount + 1
         && (was.openCount == 0 ==>
               && now.startCluster == e.cluster && now.fileSize == e.size && now.dirEntry == e.index
               && now.name == e.name && now.ext == e.ext)
         && (was.openCount != 0 ==>
               && now.startCluster == was.startCluster && now.fileSize == was.fileSize && now.dirEntry == was.dirEntry
               && now.name == was.name && now.ext == was.ext)
  {
    OpenResult(s, p, lookup);
    DescriptorAvailable(s);
  }

  /** Read moves the position of this descriptor by what it returns, which is what was asked for or the rest of
      the file, and changes nothing else. */
  lemma ReadMoves(s: Files, p: nat, i: nat, size: nat)
    requires CountsExact(s) && p < PROCESSES && i < MAX_FILES && CellLinked(s, p, i) && s.grid[p][i].Some?
    requires PositionOk(s, s.grid[p][i].value)
    requires s.fds[s.grid[p][i].value].position + size < FatData.POSITION_LIMIT
    ensures var (t, r) := Read(s, p, i, size);
      var f := s.grid[p][i].value;
      var rest := s.fcbs[s.fds[f].fcb.value].fileSize - s.fds[f].position;
      && r == (if size <= rest then size else rest)
      && t.fds[f].position == s.fds[f].position + r
      && t.fds[f].fcb == s.fds[f].fcb && t.fds[f].openCount == s.fds[f].openCount
      && (forall g: nat :: g < FDS && g != f ==> t.fds[g] == s.fds[g])
      && t.grid == s.grid && t.fcbs == s.fcbs
  {
  }

  /** What is recorded about an open file does not change while it is open. */
  predicate FileKept(s: Files, t: Files, c: nat)
    requires c < |s.fcbs| && c < |t.fcbs|
  {
    s.fcbs[c].openCount > 0 ==>
      t.fcbs[c].startCluster == s.fcbs[c].startCluster && t.fcbs[c].fileSize == s.fcbs[c].fileSize
      && t.fcbs[c].name == s.fcbs[c].name && t.fcbs[c].ext == s.fcbs[c].ext && t.fcbs[c].dirEntry == s.fcbs[c].dirEntry
  }

  /** Opening shares the block of a file that is open already, takes a descriptor nobody points at,
      and leaves every other slot and descriptor alone. */
  lemma OpenSharesNothingElse(s: Files, p: nat, lookup: Option<Found>)
    requires CountsExact(s) && p < PROCESSES && (lookup.Some? ==> lookup.value.index < FCBS)
    ensures var (t, r) := Open(s, p, lookup);
      && (forall c: nat :: c < FCBS ==> FileKept(s, t, c))
      && (r >= 0 ==>
         t.grid[p][r].Some? && CountGrid(s.grid, t.grid[p][r].value) == 0 && CountGrid(t.grid, t.grid[p][r].value) == 1)
      && (r >= 0 ==> Reach(t.fds, t.grid[p][r]) == Some(lookup.value.index) && t.fds[t.grid[p][r].value].position == 0)
      && (forall q: nat, j: nat ::
         q < PROCESSES && j < MAX_FILES && (q != p || j != r) ==> t.grid[q][j] == s.grid[q][j])
  {
    var f := FreeFd(s.fds, 0);
    DescriptorAvailable(s);
    assert FdExact(s, f);
    var i := FreeCell(s.grid[p], USER_START_FD);
    if i < MAX_FILES { CountCell(s.grid, p, i, Some(f), f); }
  }

  lemma CloseKeepsFiles(s: Files, p: nat, i: nat)
    requires CountsExact(s) && p < PROCESSES && i < MAX_FILES
    ensures CellLinked(s, p, i) && forall c: nat :: c < FCBS ==> FileKept(s, Close(s, p, i), c)
  {
    assert CellLinked(s, p, i);
  }

  ghost predicate FilesKept(s: Files, t: Files) {
    |s.fcbs| == |t.fcbs| && forall c: nat :: c < |s.fcbs| ==> FileKept(s, t, c)
  }

  /** Changing reference counts, or nothing but descriptors, keeps what is recorded about all files. */
  lemma CountsKeepFiles(s: Files, t: Files)
    requires OnlyDropped(s, t) || OnlyCounted(s, t) || t.fcbs == s.fcbs
    ensures FilesKept(s, t)
  {
    if OnlyDropped(s, t) || OnlyCounted(s, t) {
      forall c: nat | c < |s.fcbs| ensures FileKept(s, t, c) {
        assert t.fcbs[c] == s.fcbs[c].(openCount := t.fcbs[c].openCount);
      }
    }
  }

  lemma OpenKeepsFiles(s: Files, p: nat, lookup: Option<Found>)
    requires CountsExact(s) && p < PROCESSES && (lookup.Some? ==> lookup.value.index < FCBS)
    ensures FilesKept(s, Open(s, p, lookup).0)
  {
    OpenSharesNothingElse(s, p, lookup);
  }

  /** As long as a file stays open, in every state from `i` to `j` of a run, its first cluster, its size and
      its name are the same. */
  lemma {:induction false} OpenFileStays(run: seq<Files>, i: nat, j: nat, c: nat)
    requires i <= j < |run| && (forall k: nat :: k < |run| ==> c < |run[k].fcbs|)
    requires forall k: nat :: k + 1 < |run| ==> FilesKept(run[k], run[k + 1])
    requires forall k: nat :: i <= k < j ==> run[k].fcbs[c].openCount > 0
    ensures run[j].fcbs[c] == run[i].fcbs[c].(openCount := run[j].fcbs[c].openCount)
    decreases j - i
  {
    if i < j {
      OpenFileStays(run, i, j - 1, c);
      assert FilesKept(run[j - 1], run[j - 1 + 1]) && FileKept(run[j - 1], run[j], c);
    }
  }

  /** Forking and then cleaning up the child leaves all descriptors and counts as they were. */
  lemma ShareThenClose(s: Files, p: nat, q: nat)
    requires CountsExact(s) && p < PROCESSES && q < PROCESSES && p != q
    requires s.grid[q] == NoFiles()
    ensures CloseAll(ShareAll(s, p, q), q) == s
  {
    var m := ShareAll(s, p, q);
    var t := CloseAll(m, q);
    assert t.grid == s.grid;
    forall f: nat | f < FDS ensures t.fds[f] == s.fds[f] {
      assert FdExact(s, f) && FdExact(t, f);
    }
    assert t.fds == s.fds;
    forall c: nat | c < FCBS ensures t.fcbs[c] == s.fcbs[c] {
      assert FcbExact(s, c) && FcbExact(t, c);
    }
  }

  // ----- Positions -----

  ghost predicate PositionsOk(s: Files) { forall f: nat :: f < |s.fds| ==> PositionOk(s, f) }

  lemma ReadKeepsCounts(s: Files, p: nat, i: nat, size: nat)
    requires CountsExact(s) && p < PROCESSES && i < MAX_FILES && CellLinked(s, p, i)
    requires s.grid[p][i].Some? ==> PositionOk(s, s.grid[p][i].value)
    ensures CountsExact(Read(s, p, i, size).0)
  {
    if s.grid[p][i].Some? {
      var t := Read(s, p, i, size).0;
      forall q: nat | q < |s.grid| ensures ReachRow(t.fds, s.grid[q]) == ReachRow(s.fds, s.grid[q]) { }
      assert ReachGrid(t.fds, t.grid) == ReachGrid(s.fds, s.grid);
      forall g: nat | g < |t.fds| ensures FdExact(t, g) { assert FdExact(s, g); }
      forall c: nat | c < |t.fcbs| ensures FcbExact(t, c) { assert FcbExact(s, c); }
      forall q: nat, j: nat | q < |t.grid| && j < |t.grid[q]| ensures CellLinked(t, q, j) {
        assert CellLinked(s, q, j);
      }
      forall q: nat | q < |t.grid| ensures LowFree(t, q) { assert LowFree(s, q); }
    }
  }

  lemma ReadKeeps(s: Files, p: nat, i: nat, size: nat)
    requires CountsExact(s) && PositionsOk(s) && p < PROCESSES && i < MAX_FILES
    ensures CellLinked(s, p, i) && (s.grid[p][i].Some? ==> PositionOk(s, s.grid[p][i].value))
    ensures CountsExact(Read(s, p, i, size).0)
    ensures s.grid[p][i].Some? ==>
      var d := s.fds[s.grid[p][i].value];
      d.position + size < FatData.POSITION_LIMIT ==> PositionsOk(Read(s, p, i, size).0)
  {
    assert CellLinked(s, p, i);
    if s.grid[p][i].Some? {
      var t, f := Read(s, p, i, size).0, s.grid[p][i].value;
      assert PositionOk(s, f);
      ReadKeepsCounts(s, p, i, size);
      var d := s.fds[f];
      if d.position + size < FatData.POSITION_LIMIT {
        forall g: nat | g < |t.fds| ensures PositionOk(t, g) { assert PositionOk(s, g); }
      }
    }
  }

  /** Opening starts at position 0 and resizes no open file. */
  lemma OpenKeepsPositions(s: Files, p: nat, lookup: Option<Found>)
    requires CountsExact(s) && PositionsOk(s) && p < PROCESSES && (lookup.Some? ==> lookup.value.index < FCBS)
    ensures PositionsOk(Open(s, p, lookup).0)
  {
    var t := Open(s, p, lookup).0;
    forall f: nat | f < |t.fds| ensures PositionOk(t, f) {
      assert PositionOk(s, f) && FdExact(s, f);
      if s.fds[f].fcb.Some? && lookup.Some? && s.fds[f].fcb.value == lookup.value.index { UsedIsCounted(s, f); }
    }
  }

  /** The control block of a descriptor in use is counted. */
  lemma UsedIsCounted(s: Files, f: nat)
    requires CountsExact(s) && f < FDS && s.fds[f].fcb.Some?
    ensures s.fds[f].fcb.value < FCBS && s.fcbs[s.fds[f].fcb.value].openCount > 0
  {
    assert FdExact(s, f);
    var p, i := CountedSomewhere(s.grid, f);
    assert CellLinked(s, p, i) && FcbExact(s, s.fds[f].fcb.value);
    CountGridPositive(ReachGrid(s.fds, s.grid), p, i, s.fds[f].fcb.value);
  }

  /** Closing and sharing keep positions. */
  lemma CountsKeepPositions(s: Files, t: Files)
    requires PositionsOk(s) && (OnlyDropped(s, t) || OnlyCounted(s, t))
    ensures PositionsOk(t)
  {
    forall f: nat | f < |t.fds| ensures PositionOk(t, f) { assert PositionOk(s, f); }
  }

  // ----- The tables at boot -----

  lemma {:induction false} EmptyRowCount(row: Row, x: nat)
    requires forall i :: 0 <= i < |row| ==> row[i] == None
    ensures Count(row, x) == 0
  {
    if row != [] { EmptyRowCount(row[1..], x); }
  }

  lemma {:induction false} EmptyGridCount(grid: seq<Row>, x: nat)
    requires forall p, i :: 0 <= p < |grid| && 0 <= i < |grid[p]| ==> grid[p][i] == None
    ensures CountGrid(grid, x) == 0
  {
    if grid != [] {
      EmptyRowCount(grid[0], x);
      EmptyGridCount(grid[1..], x);
    }
  }

  lemma EmptyTablesExact(s: Files)
    requires Shaped(s) && forall p, i :: 0 <= p < |s.grid| && 0 <= i < |s.grid[p]| ==> s.grid[p][i] == None
    requires (forall f :: 0 <= f < FDS ==> s.fds[f] == ZeroFd())
      && (forall c :: 0 <= c < FCBS ==> s.fcbs[c] == ZeroFcb())
    ensures CountsExact(s) && PositionsOk(s)
  {
    forall f: nat | f < |s.fds| ensures FdExact(s, f) { EmptyGridCount(s.grid, f); }
    forall c: nat | c < |s.fcbs| ensures FcbExact(s, c) { EmptyGridCount(ReachGrid(s.fds, s.grid), c); }
  }
}
