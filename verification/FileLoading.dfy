/** Reading whole files, and what the bytes delivered are in terms of the file (kernel/process.c,
    kernel/file.c). */
module FileLoading {
  import opened MemoryLayout
  import opened ProcessLists
  import opened CStrings
  import opened FatDirectory
  import FatData
  import FileSpec
  import opened OpenFiles
  import opened Wrappers

  /** The file behind descriptor `fd` of process `p` can be read whole, into one page. */
  predicate Loadable(g: FileSpec.Files, p: nat, fd: nat, v: Volume) {
    && FileSpec.CountsExact(g) && p < PROCESSES && fd < MAX_FILES && g.grid[p][fd].Some?
       && FileSpec.CellLinked(g, p, fd)
    && SizeOf(g, p, fd) <= PAGE_SIZE && g.fds[g.grid[p][fd].value].position == 0
    && ReadPossible(g, p, fd, SizeOf(g, p, fd), v)
  }

  function SizeOf(g: FileSpec.Files, p: nat, fd: nat): nat
    requires p < |g.grid| && fd < |g.grid[p]| && g.grid[p][fd].Some? && FileSpec.CellLinked(g, p, fd)
  {
    g.fcbs[g.fds[g.grid[p][fd].value].fcb.value].fileSize
  }

  /** The whole file behind descriptor `fd`, and zeros behind it. */
  ghost predicate IsImage(image: seq<Byte>, g: FileSpec.Files, p: nat, fd: nat, v: Volume, stale: seq<Byte>)
    requires Loadable(g, p, fd, v)
  {
    var n := SizeOf(g, p, fd);
    && |image| == PAGE_SIZE && (forall i :: n <= i < PAGE_SIZE ==> image[i] == 0)
    && BytesRead(g, p, fd, n, v, stale, image[..n])
  }

  /** The file was read to its end and closed. */
  ghost predicate ReadAndClosed(g: FileSpec.Files, h: FileSpec.Files, p: nat, fd: nat) {
    && FileSpec.CountsExact(g) && p < PROCESSES && fd < MAX_FILES && FileSpec.CellLinked(g, p, fd)
    && g.grid[p][fd].Some? && FileSpec.PositionOk(g, g.grid[p][fd].value)
    && var t := FileSpec.Read(g, p, fd, SizeOf(g, p, fd)).0;
       FileSpec.CellLinked(t, p, fd) && h == FileSpec.Close(t, p, fd)
  }

  lemma ClosedAfterRead(g: FileSpec.Files, t: FileSpec.Files, h: FileSpec.Files, p: nat, fd: nat, v: Volume)
    requires Loadable(g, p, fd, v) && FileSpec.PositionOk(g, g.grid[p][fd].value)
    requires t == FileSpec.Read(g, p, fd, SizeOf(g, p, fd)).0 && FileSpec.CellLinked(t, p, fd)
      && h == FileSpec.Close(t, p, fd)
    ensures ReadAndClosed(g, h, p, fd)
  {
  }

  /** Opening changes nothing but one slot, or nothing at all, and closing brings the slots back. */
  lemma OpenedAndClosed(g: FileSpec.Files, p: nat, lookup: Option<FileSpec.Found>, h: FileSpec.Files)
    requires FileSpec.Shaped(g) && p < PROCESSES && (lookup.Some? ==> lookup.value.index < FileSpec.FCBS)
    requires var (t, fd) := FileSpec.Open(g, p, lookup); fd >= 0 ==> ReadAndClosed(t, h, p, fd)
    ensures FileSpec.Open(g, p, lookup).1 < 0 ==> FileSpec.Open(g, p, lookup).0 == g
    ensures FileSpec.Open(g, p, lookup).1 >= 0 ==> h.grid == g.grid
  {
    var (t, fd) := FileSpec.Open(g, p, lookup);
    if fd >= 0 { assert h.grid[p] == g.grid[p]; }
  }

  lemma ExecKeepsFiles(g: FileSpec.Files, p: nat, lookup: Option<FileSpec.Found>, h: FileSpec.Files)
    requires FileSpec.CountsExact(g) && p < PROCESSES && (lookup.Some? ==> lookup.value.index < FileSpec.FCBS)
    requires var (t, fd) := FileSpec.Open(g, p, lookup); fd >= 0 && ReadAndClosed(t, h, p, fd)
    ensures FileSpec.FilesKept(g, h)
  {
    FileSpec.OpenKeepsFiles(g, p, lookup);
    var (t, fd) := FileSpec.Open(g, p, lookup);
    forall c: nat | c < |g.fcbs| ensures FileSpec.FileKept(g, h, c) { assert FileSpec.FileKept(g, t, c); }
  }

  // ----- The bytes of the file -----

  /** The file behind descriptor `fd` lies in these clusters, one after the other. */
  predicate LiesIn(g: FileSpec.Files, p: nat, fd: nat, v: Volume, chain: seq<nat>) {
    && p < |g.grid| && fd < |g.grid[p]| && g.grid[p][fd].Some? && FileSpec.CellLinked(g, p, fd)
    && chain != [] && FatData.Consecutive(chain) && FatData.HoldsChain(v, chain)
    && chain[0] == g.fcbs[g.fds[g.grid[p][fd].value].fcb.value].startCluster
    && SizeOf(g, p, fd) <= |chain| * FatData.ClusterSize(v) == |FatData.ChainBytes(v, chain)|
  }

  /** A read delivers the bytes of the file at the position of the descriptor, if the copied range ends
      within the fetched clusters. */
  lemma ReadIsFile(g: FileSpec.Files, p: nat, fd: nat, n: nat, v: Volume, stale: seq<Byte>, data: seq<Byte>,
      chain: seq<nat>)
    requires BytesRead(g, p, fd, n, v, stale, data) && LiesIn(g, p, fd, v, chain)
    requires var pos := g.fds[g.grid[p][fd].value].position;
      pos + n <= SizeOf(g, p, fd)
      && (n == 0 || FatData.PlaceInCluster(v, pos) + n <= FatData.ClustersFor(v, n) * FatData.ClusterSize(v))
    ensures var pos := g.fds[g.grid[p][fd].value].position;
      data == FatData.ChainBytes(v, chain)[pos..pos + n]
  {
    var pos := g.fds[g.grid[p][fd].value].position;
    FatData.RequestBytes(v, chain[0], pos, n);
    FatData.FetchedIsFile(v, chain, pos, n, stale);
  }

  /** What Exec puts into the user page is exactly the file, whatever the scratch page held. */
  lemma ImageIsFile(image: seq<Byte>, g: FileSpec.Files, p: nat, fd: nat, v: Volume, stale: seq<Byte>, chain: seq<nat>)
    requires Loadable(g, p, fd, v) && IsImage(image, g, p, fd, v, stale) && LiesIn(g, p, fd, v, chain)
    ensures image == FatData.ChainBytes(v, chain)[..SizeOf(g, p, fd)] + seq(PAGE_SIZE - SizeOf(g, p, fd), _ => 0)
  {
    var n := SizeOf(g, p, fd);
    if n > 0 { FatData.AlignedRequest(v, chain[0], 0, n); }
    FatData.RequestBytes(v, chain[0], 0, n);
    FatData.FetchedIsFile(v, chain, 0, n, stale);
    assert image == image[..n] + image[n..];
  }

  // ----- One read after the other -----

  /** These reads through slot `i` of process `p`, one after the other, are all possible. */
  predicate ReadsPossible(g: FileSpec.Files, p: nat, i: nat, sizes: seq<nat>, v: Volume)
    decreases |sizes|
  {
    sizes == [] ||
    (ReadPossible(g, p, i, sizes[0], v) && g.grid[p][i].Some? &&
     ReadsPossible(FileSpec.Read(g, p, i, sizes[0]).0, p, i, sizes[1..], v))
  }

  /** The tables after them. */
  function AfterReads(g: FileSpec.Files, p: nat, i: nat, sizes: seq<nat>, v: Volume): FileSpec.Files
    requires ReadsPossible(g, p, i, sizes, v)
    decreases |sizes|
  {
    if sizes == [] then g else AfterReads(FileSpec.Read(g, p, i, sizes[0]).0, p, i, sizes[1..], v)
  }

  predicate Pages(stale: seq<seq<Byte>>) { forall k :: 0 <= k < |stale| ==> |stale[k]| == FatData.SCRATCH_SIZE }

  /** All that they deliver, put together, when the scratch page held `stale[k]` before read `k`. Where a read
      starts is what the tables say when it is its turn. */
  function BytesOver(g: FileSpec.Files, p: nat, i: nat, sizes: seq<nat>, v: Volume, stale: seq<seq<Byte>>): seq<Byte>
    requires ReadsPossible(g, p, i, sizes, v) && |stale| == |sizes| && Pages(stale)
    decreases |sizes|
  {
    if sizes == [] then []
    else
      var (h, r) := FileSpec.Read(g, p, i, sizes[0]);
      var d := g.fds[g.grid[p][i].value];
      FatData.Delivered(v.disk, FatData.RequestFor(v, g.fcbs[d.fcb.value].startCluster, d.position, r), stale[0])
        + BytesOver(h, p, i, sizes[1..], v, stale[1..])
  }

  function PositionOf(g: FileSpec.Files, p: nat, i: nat): nat
    requires p < |g.grid| && i < |g.grid[p]| && g.grid[p][i].Some? && FileSpec.CellLinked(g, p, i)
  {
    g.fds[g.grid[p][i].value].position
  }

  /** After one read the descriptor is that of the same file, further on. */
  lemma ReadGoesOn(g: FileSpec.Files, p: nat, i: nat, size: nat, v: Volume, chain: seq<nat>)
    requires p < PROCESSES && i < MAX_FILES && FileSpec.CountsExact(g) && LiesIn(g, p, i, v, chain)
    requires ReadPossible(g, p, i, size, v)
    ensures var pos, n := PositionOf(g, p, i), FatData.ReadSize(PositionOf(g, p, i), SizeOf(g, p, i), size);
      var (h, r) := FileSpec.Read(g, p, i, size);
      && r == n == (if size <= SizeOf(g, p, i) - pos then size else SizeOf(g, p, i) - pos)
      && FileSpec.CountsExact(h) && LiesIn(h, p, i, v, chain) && SizeOf(h, p, i) == SizeOf(g, p, i)
      && PositionOf(h, p, i) == pos + n
    ensures FatData.ReadAllowed(v, chain, SizeOf(g, p, i), PositionOf(g, p, i), size)
  {
    FileSpec.ReadMoves(g, p, i, size);
    FileSpec.ReadKeepsCounts(g, p, i, size);
  }

  /** The position that Read leaves is where the next read goes on. */
  lemma {:induction false} ReadsFollow(g: FileSpec.Files, p: nat, i: nat, sizes: seq<nat>, v: Volume,
      stale: seq<seq<Byte>>, chain: seq<nat>)
    requires p < PROCESSES && i < MAX_FILES && ReadsPossible(g, p, i, sizes, v) && |stale| == |sizes| && Pages(stale)
    requires FileSpec.CountsExact(g) && LiesIn(g, p, i, v, chain) && PositionOf(g, p, i) <= SizeOf(g, p, i)
    ensures FatData.ReadsAllowed(v, chain, SizeOf(g, p, i), PositionOf(g, p, i), sizes)
    ensures BytesOver(g, p, i, sizes, v, stale)
      == FatData.ReadAll(v, chain, SizeOf(g, p, i), PositionOf(g, p, i), sizes, stale)
    ensures var h := AfterReads(g, p, i, sizes, v);
      && p < |h.grid| && i < |h.grid[p]| && h.grid[p][i].Some? && FileSpec.CellLinked(h, p, i)
      && PositionOf(h, p, i) == if PositionOf(g, p, i) + FatData.Sum(sizes) <= SizeOf(g, p, i)
         then PositionOf(g, p, i) + FatData.Sum(sizes) else SizeOf(g, p, i)
    decreases |sizes|
  {
    if sizes != [] {
      ReadGoesOn(g, p, i, sizes[0], v, chain);
      ReadsFollow(FileSpec.Read(g, p, i, sizes[0]).0, p, i, sizes[1..], v, stale[1..], chain);
    }
  }

  /** Reads in multiples of the cluster size through one descriptor deliver, put together, the bytes of the file from
      the position of the descriptor on, each once, up to the sum of the sizes or the end of the file. */
  lemma SuccessiveFileReads(g: FileSpec.Files, p: nat, i: nat, sizes: seq<nat>, v: Volume, stale: seq<seq<Byte>>,
      chain: seq<nat>)
    requires p < PROCESSES && i < MAX_FILES && ReadsPossible(g, p, i, sizes, v) && |stale| == |sizes| && Pages(stale)
    requires VolumeOk(v) && FileSpec.CountsExact(g) && LiesIn(g, p, i, v, chain)
    requires PositionOf(g, p, i) <= SizeOf(g, p, i)
    requires FatData.WholeClusters(v, PositionOf(g, p, i)) || PositionOf(g, p, i) == SizeOf(g, p, i)
    requires forall k :: 0 <= k < |sizes| ==> FatData.WholeClusters(v, sizes[k])
    ensures var pos, size := PositionOf(g, p, i), SizeOf(g, p, i);
      var end := if pos + FatData.Sum(sizes) <= size then pos + FatData.Sum(sizes) else size;
      BytesOver(g, p, i, sizes, v, stale) == FatData.ChainBytes(v, chain)[pos..end]
  {
    ReadsFollow(g, p, i, sizes, v, stale, chain);
    FatData.SuccessiveReads(v, chain, SizeOf(g, p, i), PositionOf(g, p, i), sizes, stale);
  }
}
