/** Reading file data from the FAT16 volume (kernel/file.c; section "FAT Data Structure" of
    Microsoft's FAT specification). The kernel follows no cluster chain: it reads consecutive sectors
    into a scratch page and copies from there. */
module FatData {
  import opened Bits
  import opened CStrings
  import opened FatDirectory

  const START_CLUSTER := 2
  const SCRATCH_SIZE := 0x20_0000

  function ClusterSize(v: Volume): nat { v.sectorsPerCluster * SECTOR_SIZE }

  /** The first sector of a cluster. */
  function ClusterSector(v: Volume, c: nat): nat
    requires c >= START_CLUSTER
  {
    (c - START_CLUSTER) * v.sectorsPerCluster + DataStart(v)
  }

  /** The bytes of `n` consecutive sectors. */
  function SectorBytes(disk: seq<Sector>, lba: nat, n: nat): (b: seq<Byte>)
    requires lba + n <= |disk|
    ensures |b| == n * SECTOR_SIZE
  {
    if n == 0 then [] else SectorBytes(disk, lba, n - 1) + disk[lba + n - 1]
  }

  lemma {:induction false} SectorsConcatenate(disk: seq<Sector>, lba: nat, n: nat, m: nat)
    requires lba + n + m <= |disk|
    ensures SectorBytes(disk, lba, n + m) == SectorBytes(disk, lba, n) + SectorBytes(disk, lba + n, m)
  {
    if m == 0 {
      assert SectorBytes(disk, lba + n, 0) == [];
    } else {
      SectorsConcatenate(disk, lba, n, m - 1);
    }
  }

  // ----- Files -----

  predicate HoldsCluster(v: Volume, c: nat) {
    c >= START_CLUSTER && ClusterSector(v, c) + v.sectorsPerCluster <= |v.disk|
  }

  function ClusterBytes(v: Volume, c: nat): seq<Byte>
    requires HoldsCluster(v, c)
  {
    SectorBytes(v.disk, ClusterSector(v, c), v.sectorsPerCluster)
  }

  predicate HoldsChain(v: Volume, chain: seq<nat>) { forall i :: 0 <= i < |chain| ==> HoldsCluster(v, chain[i]) }

  /** What a file with this chain of clusters holds. */
  function ChainBytes(v: Volume, chain: seq<nat>): (b: seq<Byte>)
    requires HoldsChain(v, chain)
  {
    if chain == [] then []
    else
      var last := |chain| - 1;
      assert HoldsCluster(v, chain[last]);
      ChainBytes(v, chain[..last]) + ClusterBytes(v, chain[last])
  }

  predicate Consecutive(chain: seq<nat>) { forall i :: 0 <= i < |chain| ==> chain[i] == chain[0] + i }

  /** A file in consecutive clusters lies in consecutive sectors, `total` of them. */
  lemma {:induction false} ConsecutiveFile(v: Volume, chain: seq<nat>, total: nat)
    requires chain != [] && Consecutive(chain) && HoldsChain(v, chain) && total == |chain| * v.sectorsPerCluster
    ensures HoldsCluster(v, chain[0]) && ClusterSector(v, chain[0]) + total <= |v.disk|
    ensures ChainBytes(v, chain) == SectorBytes(v.disk, ClusterSector(v, chain[0]), total)
  {
    var n, spc, first := |chain| - 1, v.sectorsPerCluster, ClusterSector(v, chain[0]);
    var rest := n * spc;
    OneLess(|chain|, spc);
    assert HoldsCluster(v, chain[n]);
    ClusterDistance(v, chain[0], n);
    if n == 0 {
      assert ChainBytes(v, chain[..0]) == [];
      assert ChainBytes(v, chain) == [] + ClusterBytes(v, chain[0]);
    } else {
      ConsecutiveFile(v, chain[..n], rest);
      assert ChainBytes(v, chain) == ChainBytes(v, chain[..n]) + ClusterBytes(v, chain[n]);
      SectorsConcatenate(v.disk, first, rest, spc);
    }
  }

  lemma OneLess(a: nat, b: nat)
    requires a > 0
    ensures (a - 1) * b == a * b - b && (a - 1) * b >= 0
  {
  }

  lemma ClusterDistance(v: Volume, c: nat, n: nat)
    requires c >= START_CLUSTER
    ensures ClusterSector(v, c + n) == ClusterSector(v, c) + n * v.sectorsPerCluster
  {
  }

  // ----- The layout of the volume -----

  predicate InReserved(v: Volume, s: nat) { s < v.reservedSectors }

  /** Sector `s` lies in copy `k` of the FAT. */
  predicate InFat(v: Volume, k: nat, s: nat) {
    k < v.fatCopies && v.reservedSectors + k * v.sectorsPerFat <= s < v.reservedSectors + (k + 1) * v.sectorsPerFat
  }

  predicate InRoot(v: Volume, s: nat) {
    var start := v.reservedSectors + v.fatCopies * v.sectorsPerFat;
    start <= s < start + v.rootEntries * 32 / 512
  }

  predicate InCluster(v: Volume, c: nat, s: nat) {
    c >= START_CLUSTER && ClusterSector(v, c) <= s < ClusterSector(v, c) + v.sectorsPerCluster
  }

  /** The first data cluster, number 2, starts behind the reserved sectors, the FATs and the root directory. */
  lemma ClusterPlace(v: Volume, c: nat)
    requires c >= 2
    ensures ClusterSector(v, c) == (c - 2) * v.sectorsPerCluster + v.reservedSectors + v.fatCopies * v.sectorsPerFat
      + v.rootEntries * 32 / 512
  {
  }

  /** Every sector is reserved, in a copy of the FAT, in the root directory, or in a cluster: `k` tells in which. */
  lemma RegionsCover(v: Volume, s: nat) returns (k: nat)
    requires v.sectorsPerCluster > 0
    ensures InReserved(v, s) || InFat(v, k, s) || InRoot(v, s) || InCluster(v, k, s)
  {
    var reserved, spf, spc := v.reservedSectors, v.sectorsPerFat, v.sectorsPerCluster;
    k := 0;
    if reserved <= s < reserved + v.fatCopies * spf {
      k := (s - reserved) / spf;
      QuotientBound(s - reserved, spf, v.fatCopies);
    } else if s >= DataStart(v) {
      var q := (s - DataStart(v)) / spc;
      k := q + 2;
      Neighbours(q, spc);
      assert s - DataStart(v) == q * spc + (s - DataStart(v)) % spc;
    }
  }

  lemma QuotientBound(a: nat, d: nat, n: nat)
    requires a < n * d
    ensures d > 0 && a / d < n && a / d * d <= a < (a / d + 1) * d
  {
    if d > 0 {
      var q := a / d;
      assert a == q * d + a % d;
      Neighbours(q, d);
      if q >= n { NoLess(n, q, d); }
    }
  }

  lemma Neighbours(q: int, d: int)
    ensures (q + 1) * d == q * d + d
  {
  }

  lemma NoLess(a: nat, b: nat, d: nat)
    requires a <= b
    ensures a * d <= b * d
  {
  }

  /** And in only one of these: regions and clusters do not overlap. */
  lemma RegionsApart(v: Volume, s: nat, k: nat, c: nat)
    requires InCluster(v, c, s)
    ensures !InReserved(v, s) && !InFat(v, k, s) && !InRoot(v, s)
    ensures InCluster(v, k, s) ==> k == c
  {
    NoLess(2, c, v.sectorsPerCluster);
    assert (c - 2) * v.sectorsPerCluster >= 0;
    if InFat(v, k, s) { NoLess(k + 1, v.fatCopies, v.sectorsPerFat); }
    if InCluster(v, k, s) { SameMultiple(c - 2, k - 2, v.sectorsPerCluster, s - DataStart(v)); }
  }

  lemma SameMultiple(a: nat, b: nat, d: nat, x: int)
    requires a * d <= x < a * d + d && b * d <= x < b * d + d
    ensures a == b
  {
    if a < b {
      NoLess(a + 1, b, d);
      Neighbours(a, d);
    } else if b < a {
      NoLess(b + 1, a, d);
      Neighbours(b, d);
    }
  }

  lemma FatsApart(v: Volume, s: nat, k: nat, l: nat)
    requires InFat(v, k, s)
    ensures !InReserved(v, s) && !InRoot(v, s) && (InFat(v, l, s) ==> l == k)
  {
    NoLess(k + 1, v.fatCopies, v.sectorsPerFat);
    assert k * v.sectorsPerFat >= 0;
    if InFat(v, l, s) {
      Neighbours(k, v.sectorsPerFat);
      Neighbours(l, v.sectorsPerFat);
      SameMultiple(k, l, v.sectorsPerFat, s - v.reservedSectors);
    }
  }

  // ----- Single bytes -----

  function DiskByte(disk: seq<Sector>, k: nat): Byte
    requires k < |disk| * SECTOR_SIZE
  {
    disk[k / SECTOR_SIZE][k % SECTOR_SIZE]
  }

  lemma {:induction false} SectorByteAt(disk: seq<Sector>, lba: nat, n: nat, k: nat)
    requires lba + n <= |disk| && k < n * SECTOR_SIZE
    ensures SectorBytes(disk, lba, n)[k] == DiskByte(disk, lba * SECTOR_SIZE + k)
  {
    if k < (n - 1) * SECTOR_SIZE {
      SectorByteAt(disk, lba, n - 1, k);
    } else {
      var j := k - (n - 1) * SECTOR_SIZE;
      assert (lba * SECTOR_SIZE + k) / SECTOR_SIZE == lba + n - 1 && (lba * SECTOR_SIZE + k) % SECTOR_SIZE == j;
    }
  }

  // ----- Reading -----

  /** Read sectors from the disk, two bytes at a time. The sector count goes to the device as one byte. */
  method DiskReadSectors(disk: seq<Sector>, lba: nat, sectors: nat, buf: array<Byte>)
    requires lba + sectors <= |disk| && sectors < 0x100 && sectors * SECTOR_SIZE <= buf.Length
    modifies buf
    ensures buf[..] == SectorBytes(disk, lba, sectors) + old(buf[sectors * SECTOR_SIZE..])
    ensures forall k: nat :: k < sectors * 512 ==> buf[k] == disk[lba + k / 512][k % 512]
  {
    for s := 0 to sectors
      invariant buf[..] == SectorBytes(disk, lba, s) + old(buf[s * SECTOR_SIZE..])
    {
      ReadSector(disk[lba + s], s, buf);
    }
    BytesOfSectors(disk, lba, sectors, buf[..]);
  }

  lemma BytesOfSectors(disk: seq<Sector>, lba: nat, n: nat, b: seq<Byte>)
    requires lba + n <= |disk| && n * SECTOR_SIZE <= |b| && b[..n * SECTOR_SIZE] == SectorBytes(disk, lba, n)
    ensures forall k: nat :: k < n * 512 ==> b[k] == disk[lba + k / 512][k % 512]
  {
    forall k: nat | k < n * 512 ensures b[k] == disk[lba + k / 512][k % 512] {
      SectorByteAt(disk, lba, n, k);
      assert b[k] == b[..n * 512][k] && (lba * 512 + k) / 512 == lba + k / 512 && (lba * 512 + k) % 512 == k % 512;
    }
  }

  method ReadSector(sector: Sector, s: nat, buf: array<Byte>)
    requires (s + 1) * SECTOR_SIZE <= buf.Length
    modifies buf
    ensures buf[..] == old(buf[..s * SECTOR_SIZE]) + sector + old(buf[(s + 1) * SECTOR_SIZE..])
  {
    var ptr := s * SECTOR_SIZE;
    for i := 0 to 256
      invariant ptr == s * SECTOR_SIZE + 2 * i
      invariant buf[..ptr] == old(buf[..s * SECTOR_SIZE]) + sector[..2 * i]
      invariant buf[ptr..] == old(buf[s * SECTOR_SIZE + 2 * i..])
    {
      buf[ptr], buf[ptr + 1] := sector[2 * i], sector[2 * i + 1];
      ptr := ptr + 2;
    }
  }

  /** How many clusters are fetched for a read of this size. */
  function ClustersFor(v: Volume, size: nat): (n: nat)
    requires v.sectorsPerCluster > 0
    ensures (n - 1) * ClusterSize(v) < size <= n * ClusterSize(v) || (size == 0 && n == 0)
  {
    var n := size / ClusterSize(v);
    assert size == n * ClusterSize(v) + size % ClusterSize(v);
    if size % ClusterSize(v) != 0 then n + 1 else n
  }

  /** What a read asks of the disk: `sectors` sectors from `lba` on go to the scratch page, and `size`
      bytes from position `start` of the page to the caller. */
  datatype Request = Request(lba: nat, sectors: nat, start: nat, size: nat)

  /** The cluster of a file position, for a file in consecutive clusters from `cluster` on. */
  function ClusterOf(v: Volume, cluster: nat, pos: nat): (c: nat)
    requires v.sectorsPerCluster > 0
    ensures c >= cluster
  {
    cluster + pos / ClusterSize(v)
  }

  function PlaceInCluster(v: Volume, pos: nat): nat
    requires v.sectorsPerCluster > 0
  {
    pos % ClusterSize(v)
  }

  function RequestFor(v: Volume, cluster: nat, pos: nat, size: nat): Request
    requires v.sectorsPerCluster > 0 && cluster >= START_CLUSTER
  {
    Request(ClusterSector(v, ClusterOf(v, cluster, pos)), ClustersFor(v, size) * v.sectorsPerCluster,
      PlaceInCluster(v, pos), size)
  }

  /** The sectors exist, the disk takes the request, and what is copied fits the scratch page. */
  predicate RequestOk(disk: seq<Sector>, r: Request) {
    r.lba + r.sectors <= |disk| && r.sectors < 0x100 && r.start + r.size <= SCRATCH_SIZE
  }

  /** The scratch page after the sectors were fetched, when it held `stale` before. */
  function PageAfter(disk: seq<Sector>, r: Request, stale: seq<Byte>): (b: seq<Byte>)
    requires RequestOk(disk, r) && |stale| == SCRATCH_SIZE
    ensures |b| == SCRATCH_SIZE
  {
    SectorBytes(disk, r.lba, r.sectors) + stale[r.sectors * SECTOR_SIZE..]
  }

  /** The bytes delivered, when the scratch page held `stale` before. */
  function Delivered(disk: seq<Sector>, r: Request, stale: seq<Byte>): (b: seq<Byte>)
    requires RequestOk(disk, r) && |stale| == SCRATCH_SIZE
    ensures |b| == r.size
  {
    PageAfter(disk, r, stale)[r.start..r.start + r.size]
  }

  predicate ReadFits(v: Volume, cluster: nat, pos: nat, size: nat) {
    && VolumeOk(v) && cluster >= START_CLUSTER && ClusterOf(v, cluster, pos) < 0x1_0000
    && RequestOk(v.disk, RequestFor(v, cluster, pos, size))
  }

  method ReadFileData(v: Volume, startCluster: nat, length: nat, buf: array<Byte>, ghost r: Request)
    requires startCluster >= START_CLUSTER && buf.Length == SCRATCH_SIZE && RequestOk(v.disk, r)
    requires r.sectors == length * v.sectorsPerCluster && r.sectors * SECTOR_SIZE <= SCRATCH_SIZE
      && r.lba == ClusterSector(v, startCluster)
    modifies buf
    ensures buf[..] == PageAfter(v.disk, r, old(buf[..]))
  {
    DiskReadSectors(v.disk, ClusterSector(v, startCluster), length * v.sectorsPerCluster, buf);
  }

  /** memcpy of `size` bytes from position `start` of one buffer to the start of another. */
  method CopyBytes(out: array<Byte>, from: array<Byte>, start: nat, size: nat)
    requires out != from && size <= out.Length && start + size <= from.Length
    modifies out
    ensures out[..] == from[start..start + size] + old(out[size..])
  {
    for i := 0 to size
      invariant forall k :: 0 <= k < i ==> out[k] == from[start + k]
      invariant forall k :: i <= k < out.Length ==> out[k] == old(out[k])
    {
      out[i] := from[start + i];
    }
  }

  /** Fetch clusters into the scratch page and copy from there: the request `r`. */
  method FetchAndCopy(v: Volume, first: nat, clusters: nat, start: nat, size: nat, out: array<Byte>,
      scratch: array<Byte>, ghost r: Request)
    requires RequestOk(v.disk, r) && scratch.Length == SCRATCH_SIZE && size <= out.Length && out != scratch
    requires first >= START_CLUSTER && r.lba == ClusterSector(v, first) && r.sectors == clusters * v.sectorsPerCluster
    requires r.start == start && r.size == size
    modifies out, scratch
    ensures out[..] == Delivered(v.disk, r, old(scratch[..])) + old(out[size..])
  {
    ReadFileData(v, first, clusters, scratch, r);
    CopyBytes(out, scratch, start, size);
  }

  /** Copy `size` bytes from `pos` of a file into `out`, through the scratch page. */
  method ReadRawData(v: Volume, cluster: nat, out: array<Byte>, pos: nat, size: nat, scratch: array<Byte>)
      returns (read: nat)
    requires ReadFits(v, cluster, pos, size) && scratch.Length == SCRATCH_SIZE && size <= out.Length && out != scratch
    modifies out, scratch
    ensures read == size
    ensures out[..] == Delivered(v.disk, RequestFor(v, cluster, pos, size), old(scratch[..])) + old(out[size..])
    ensures forall i: nat :: i < size && PlaceInCluster(v, pos) + i < ClustersFor(v, size) * ClusterSize(v) ==>
      IsDataByte(v, cluster, pos + i, out[i])
  {
    ghost var stale := scratch[..];
    FetchAndCopy(v, ClusterOf(v, cluster, pos), ClustersFor(v, size), PlaceInCluster(v, pos), size, out, scratch,
                 RequestFor(v, cluster, pos, size));
    forall i: nat | i < size && PlaceInCluster(v, pos) + i < ClustersFor(v, size) * ClusterSize(v)
      ensures IsDataByte(v, cluster, pos + i, out[i])
    {
      DeliversDataBytes(v, cluster, pos, size, stale, i);
      assert out[i] == out[..][i];
    }
    return size;
  }

  // ----- When the bytes are right -----

  /** The byte of the disk at position `pos` of a file in consecutive clusters from `cluster` on. */
  predicate IsDataByte(v: Volume, cluster: nat, pos: nat, b: Byte)
    requires cluster >= 2
  {
    var first := (cluster - 2) * v.sectorsPerCluster + v.reservedSectors + v.fatCopies * v.sectorsPerFat
      + v.rootEntries * 32 / 512;
    first + pos / 512 < |v.disk| && b == v.disk[first + pos / 512][pos % 512]
  }

  /** What is delivered comes from there, as long as the fetched clusters last. */
  lemma DeliversDataBytes(v: Volume, cluster: nat, pos: nat, size: nat, stale: seq<Byte>, i: nat)
    requires ReadFits(v, cluster, pos, size) && |stale| == SCRATCH_SIZE && i < size
    requires PlaceInCluster(v, pos) + i < ClustersFor(v, size) * ClusterSize(v)
    ensures IsDataByte(v, cluster, pos + i, Delivered(v.disk, RequestFor(v, cluster, pos, size), stale)[i])
  {
    var first, k := ClusterSector(v, cluster), pos + i;
    ClusterPlace(v, cluster);
    RequestBytes(v, cluster, pos, size);
    DeliveredByteAt(v.disk, RequestFor(v, cluster, pos, size), stale, i);
    assert (first * 512 + k) / 512 == first + k / 512 && (first * 512 + k) % 512 == k % 512;
  }

  /** The request in terms of bytes: its clusters, and its place on the disk. */
  lemma RequestBytes(v: Volume, cluster: nat, pos: nat, size: nat)
    requires v.sectorsPerCluster > 0 && cluster >= START_CLUSTER
    ensures var r := RequestFor(v, cluster, pos, size);
      && r.sectors * SECTOR_SIZE == ClustersFor(v, size) * ClusterSize(v)
      && r.lba * SECTOR_SIZE + r.start == ClusterSector(v, cluster) * SECTOR_SIZE + pos
  {
    var q, f, n, spc := pos / ClusterSize(v), pos % ClusterSize(v), ClustersFor(v, size), v.sectorsPerCluster;
    assert pos == q * ClusterSize(v) + f;
    ClusterDistance(v, cluster, q);
    Regroup(n, spc);
    Regroup(q, spc);
  }

  lemma Regroup(a: nat, b: nat)
    ensures a * b * SECTOR_SIZE == a * (b * SECTOR_SIZE)
  {
  }

  /** Byte `k` of a file in consecutive clusters. */
  lemma FileByteAt(v: Volume, chain: seq<nat>, k: nat)
    requires chain != [] && Consecutive(chain) && HoldsChain(v, chain) && k < |chain| * ClusterSize(v)
    ensures |ChainBytes(v, chain)| == |chain| * ClusterSize(v) && HoldsCluster(v, chain[0])
    ensures ClusterSector(v, chain[0]) * SECTOR_SIZE + k < |v.disk| * SECTOR_SIZE
    ensures ChainBytes(v, chain)[k] == DiskByte(v.disk, ClusterSector(v, chain[0]) * SECTOR_SIZE + k)
  {
    var n := |chain| * v.sectorsPerCluster;
    Regroup(|chain|, v.sectorsPerCluster);
    ConsecutiveFile(v, chain, n);
    SectorByteAt(v.disk, ClusterSector(v, chain[0]), n, k);
  }

  /** Byte `i` delivered: from the disk while the fetched sectors last, then whatever was there before. */
  lemma DeliveredByteAt(disk: seq<Sector>, r: Request, stale: seq<Byte>, i: nat)
    requires RequestOk(disk, r) && |stale| == SCRATCH_SIZE && i < r.size
    ensures r.start + i < r.sectors * SECTOR_SIZE ==> r.lba * SECTOR_SIZE + r.start + i < |disk| * SECTOR_SIZE
    ensures Delivered(disk, r, stale)[i] ==
      if r.start + i < r.sectors * SECTOR_SIZE then DiskByte(disk, r.lba * SECTOR_SIZE + r.start + i)
        else stale[r.start + i]
  {
    if r.start + i < r.sectors * SECTOR_SIZE { SectorByteAt(disk, r.lba, r.sectors, r.start + i); }
  }

  predicate DeliversFile(v: Volume, chain: seq<nat>, pos: nat, size: nat, stale: seq<Byte>)
    requires chain != [] && HoldsChain(v, chain) && ReadFits(v, chain[0], pos, size)
      && pos + size <= |ChainBytes(v, chain)|
    requires |stale| == SCRATCH_SIZE
  {
    Delivered(v.disk, RequestFor(v, chain[0], pos, size), stale) == ChainBytes(v, chain)[pos..pos + size]
  }

  /** Byte `i` of a read is byte `pos + i` of the file as long as it was fetched. */
  lemma DeliveredFromFile(v: Volume, chain: seq<nat>, pos: nat, size: nat, stale: seq<Byte>, i: nat)
    requires chain != [] && Consecutive(chain) && HoldsChain(v, chain) && ReadFits(v, chain[0], pos, size)
    requires pos + size <= |chain| * ClusterSize(v) && |stale| == SCRATCH_SIZE && i < size
    ensures |ChainBytes(v, chain)| == |chain| * ClusterSize(v)
    ensures var r := RequestFor(v, chain[0], pos, size);
      Delivered(v.disk, r, stale)[i] == if r.start + i < r.sectors * SECTOR_SIZE then ChainBytes(v, chain)[pos + i]
        else stale[r.start + i]
  {
    RequestBytes(v, chain[0], pos, size);
    DeliveredByteAt(v.disk, RequestFor(v, chain[0], pos, size), stale, i);
    FileByteAt(v, chain, pos + i);
  }

  /** A read of a file in consecutive clusters delivers the bytes of the file, whatever the scratch
      page held, exactly if the copied range ends within the fetched clusters. */
  lemma ReadIsExact(v: Volume, chain: seq<nat>, pos: nat, size: nat)
    requires chain != [] && Consecutive(chain) && HoldsChain(v, chain) && ReadFits(v, chain[0], pos, size)
    requires pos + size <= |chain| * ClusterSize(v) == |ChainBytes(v, chain)|
    ensures size == 0 || PlaceInCluster(v, pos) + size <= ClustersFor(v, size) * ClusterSize(v) <==>
      forall stale | |stale| == SCRATCH_SIZE :: DeliversFile(v, chain, pos, size, stale)
  {
    RequestBytes(v, chain[0], pos, size);
    var r := RequestFor(v, chain[0], pos, size);
    if size == 0 || r.start + size <= r.sectors * SECTOR_SIZE {
      forall stale | |stale| == SCRATCH_SIZE ensures DeliversFile(v, chain, pos, size, stale) {
        FetchedIsFile(v, chain, pos, size, stale);
      }
    } else {
      var stale := StaleByte(v, chain, pos, size);
    }
  }

  lemma FetchedIsFile(v: Volume, chain: seq<nat>, pos: nat, size: nat, stale: seq<Byte>)
    requires chain != [] && Consecutive(chain) && HoldsChain(v, chain) && ReadFits(v, chain[0], pos, size)
    requires pos + size <= |chain| * ClusterSize(v) == |ChainBytes(v, chain)| && |stale| == SCRATCH_SIZE
    requires var r := RequestFor(v, chain[0], pos, size); size == 0 || r.start + size <= r.sectors * SECTOR_SIZE
    ensures DeliversFile(v, chain, pos, size, stale)
  {
    var b := Delivered(v.disk, RequestFor(v, chain[0], pos, size), stale);
    forall i | 0 <= i < size ensures b[i] == ChainBytes(v, chain)[pos + i] {
      DeliveredFromFile(v, chain, pos, size, stale, i);
    }
  }

  /** Scratch contents that show through when the copied range is longer. */
  lemma StaleByte(v: Volume, chain: seq<nat>, pos: nat, size: nat) returns (stale: seq<Byte>)
    requires chain != [] && Consecutive(chain) && HoldsChain(v, chain) && ReadFits(v, chain[0], pos, size)
    requires pos + size <= |chain| * ClusterSize(v) == |ChainBytes(v, chain)|
    requires var r := RequestFor(v, chain[0], pos, size); r.start + size > r.sectors * SECTOR_SIZE && size > 0
    ensures |stale| == SCRATCH_SIZE && !DeliversFile(v, chain, pos, size, stale)
  {
    var last := ChainBytes(v, chain)[pos + size - 1];
    stale := seq(SCRATCH_SIZE, _ => if last == 0 then 1 else 0);
    DeliveredFromFile(v, chain, pos, size, stale, size - 1);
    assert ChainBytes(v, chain)[pos..pos + size][size - 1] == last;
  }

  /** This happens: on a volume with clusters of one sector, a read of 512 bytes from byte 1 of a file of two
      clusters fetches one cluster, and ends with whatever the scratch page held behind it. */
  lemma StaleReadExists() returns (v: Volume, chain: seq<nat>, stale: seq<Byte>)
    ensures VolumeOk(v) && chain == [2, 3] && Consecutive(chain) && HoldsChain(v, chain)
    ensures ReadFits(v, 2, 1, 512) && |ChainBytes(v, chain)| == 1024 && |stale| == SCRATCH_SIZE
    ensures !DeliversFile(v, chain, 1, 512, stale)
  {
    v, chain := Volume(1, 1, 1, 16, 1, seq(5, _ => seq(SECTOR_SIZE, _ => 0))), [2, 3];
    assert RootStart(v) == 2 && RootSectors(v) == 1 && ClusterSize(v) == 512;
    assert ClustersFor(v, 512) == 1 && PlaceInCluster(v, 1) == 1 && ClusterOf(v, 2, 1) == 2;
    FileByteAt(v, chain, 0);
    stale := StaleByte(v, chain, 1, 512);
  }

  // ----- Positions -----

  const POSITION_LIMIT := 0x1_0000_0000

  /** How many bytes a read of `size` bytes yields: it is cut off at the end of the file, where the
      sum of position and size is taken in 32 bits. */
  function ReadSize(position: nat, fileSize: nat, size: nat): (n: nat)
    requires position <= fileSize
  {
    if (position + size) % POSITION_LIMIT > fileSize then fileSize - position else size
  }

  /** A read stays within the file exactly if that sum does not wrap around. */
  lemma ReadStaysInFile(position: nat, fileSize: nat, size: nat)
    requires position <= fileSize < POSITION_LIMIT && size < POSITION_LIMIT / 2
    ensures ReadSize(position, fileSize, size) == (if size <= fileSize - position then size else fileSize - position)
      <==> position + size < POSITION_LIMIT
  {
  }

  /** The read of a file in consecutive clusters at `pos`: its bytes up to the end of the file. */
  predicate ReadAllowed(v: Volume, chain: seq<nat>, fileSize: nat, pos: nat, size: nat) {
    && chain != [] && HoldsChain(v, chain) && pos <= fileSize <= |ChainBytes(v, chain)| && pos + size < POSITION_LIMIT
    && ReadFits(v, chain[0], pos, ReadSize(pos, fileSize, size))
  }

  /** Reads of these sizes one after the other: all that they deliver, put together. */
  function ReadAll(v: Volume, chain: seq<nat>, fileSize: nat, pos: nat, sizes: seq<nat>,
      stale: seq<seq<Byte>>): seq<Byte>
    requires |sizes| == |stale| && ReadsAllowed(v, chain, fileSize, pos, sizes)
      && forall i :: 0 <= i < |stale| ==> |stale[i]| == SCRATCH_SIZE
    decreases |sizes|
  {
    if sizes == [] then []
    else
      var n := ReadSize(pos, fileSize, sizes[0]);
      Delivered(v.disk, RequestFor(v, chain[0], pos, n), stale[0]) + ReadAll(v, chain, fileSize, pos + n, sizes[1..],
        stale[1..])
  }

  predicate ReadsAllowed(v: Volume, chain: seq<nat>, fileSize: nat, pos: nat, sizes: seq<nat>)
    decreases |sizes|
  {
    sizes == [] ||
    (ReadAllowed(v, chain, fileSize, pos, sizes[0]) &&
     ReadsAllowed(v, chain, fileSize, pos + ReadSize(pos, fileSize, sizes[0]), sizes[1..]))
  }

  predicate WholeClusters(v: Volume, n: nat) { v.sectorsPerCluster > 0 && n % ClusterSize(v) == 0 }

  function Sum(sizes: seq<nat>): nat { if sizes == [] then 0 else sizes[0] + Sum(sizes[1..]) }

  /** Reads in multiples of the cluster size deliver, put together, the bytes of the file from `pos` to
      the sum of the sizes or the end of the file, whatever the scratch pages held. */
  lemma {:induction false} SuccessiveReads(v: Volume, chain: seq<nat>, fileSize: nat, pos: nat, sizes: seq<nat>,
      stale: seq<seq<Byte>>)
    requires VolumeOk(v) && chain != [] && Consecutive(chain) && HoldsChain(v, chain)
    requires |sizes| == |stale| && ReadsAllowed(v, chain, fileSize, pos, sizes)
      && forall i :: 0 <= i < |stale| ==> |stale[i]| == SCRATCH_SIZE
    requires pos <= fileSize <= |chain| * ClusterSize(v) == |ChainBytes(v, chain)|
    requires WholeClusters(v, pos) || pos == fileSize
    requires forall i :: 0 <= i < |sizes| ==> WholeClusters(v, sizes[i])
    ensures var end := if pos + Sum(sizes) <= fileSize then pos + Sum(sizes) else fileSize;
      ReadAll(v, chain, fileSize, pos, sizes, stale) == ChainBytes(v, chain)[pos..end]
    decreases |sizes|
  {
    if sizes != [] {
      var n := ReadSize(pos, fileSize, sizes[0]);
      OneAlignedRead(v, chain, fileSize, pos, sizes[0], stale[0]);
      SuccessiveReads(v, chain, fileSize, pos + n, sizes[1..], stale[1..]);
      Adjoin(ChainBytes(v, chain), pos, n, sizes, fileSize);
    } else {
      assert ChainBytes(v, chain)[pos..pos] == [];
    }
  }

  lemma Adjoin(b: seq<Byte>, pos: nat, n: nat, sizes: seq<nat>, fileSize: nat)
    requires sizes != [] && pos <= fileSize <= |b| && n == if sizes[0] <= fileSize - pos then sizes[0]
      else fileSize - pos
    ensures var end := if pos + Sum(sizes) <= fileSize then pos + Sum(sizes) else fileSize;
      var end' := if pos + n + Sum(sizes[1..]) <= fileSize then pos + n + Sum(sizes[1..]) else fileSize;
      end' == end && b[pos..end] == b[pos..pos + n] + b[pos + n..end]
  {
  }

  /** One read in a multiple of the cluster size. */
  lemma OneAlignedRead(v: Volume, chain: seq<nat>, fileSize: nat, pos: nat, size: nat, stale: seq<Byte>)
    requires VolumeOk(v) && Consecutive(chain) && ReadAllowed(v, chain, fileSize, pos, size) && |stale| == SCRATCH_SIZE
    requires |chain| * ClusterSize(v) == |ChainBytes(v, chain)|
    requires (WholeClusters(v, pos) || pos == fileSize) && WholeClusters(v, size)
    ensures var n := ReadSize(pos, fileSize, size);
      && n == (if size <= fileSize - pos then size else fileSize - pos)
      && Delivered(v.disk, RequestFor(v, chain[0], pos, n), stale) == ChainBytes(v, chain)[pos..pos + n]
      && (WholeClusters(v, pos + n) || pos + n == fileSize)
  {
    var n := ReadSize(pos, fileSize, size);
    assert n == (if size <= fileSize - pos then size else fileSize - pos);
    if n > 0 { AlignedRequest(v, chain[0], pos, n); }
    FetchedIsFile(v, chain, pos, n, stale);
    if n == size && pos != fileSize { NextAligned(v, pos, size); }
  }

  lemma AlignedRequest(v: Volume, cluster: nat, pos: nat, n: nat)
    requires cluster >= START_CLUSTER && WholeClusters(v, pos)
    ensures var r := RequestFor(v, cluster, pos, n); r.start + n <= r.sectors * SECTOR_SIZE
  {
    RequestBytes(v, cluster, pos, n);
  }

  lemma NextAligned(v: Volume, pos: nat, size: nat)
    requires WholeClusters(v, pos) && WholeClusters(v, size)
    ensures WholeClusters(v, pos + size)
  {
    AlignedSum(pos, size, ClusterSize(v));
  }

  lemma AlignedSum(a: nat, b: nat, d: nat)
    requires d > 0 && b % d == 0
    ensures a % d == 0 ==> (a + b) % d == 0
  {
    var x, y := a / d, b / d;
    assert a == x * d + a % d && b == y * d;
    assert a + b == (x + y) * d + a % d;
    QuotientUnique(a + b, d, x + y, a % d);
  }
}
