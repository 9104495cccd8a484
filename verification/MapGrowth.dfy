/** How mapping changes a map: tables are taken from the free list and hung into the one
    tree, nothing else moves. */
module MapGrowth {
  import opened Bits
  import opened MemoryLayout
  import opened PageTables
  import opened Wrappers

  /** A snapshot of physical memory, the record of page use and the free list. */
  datatype Snapshot = Snapshot(ram: Ram, own: Owners, free: seq<PageNo>)

  /** The entry at distance `k` from the end, so that a list and its suffixes agree. */
  function FromEnd(s: seq<PageNo>, k: nat): PageNo
    requires k < |s|
  {
    s[|s| - 1 - k]
  }

  ghost predicate IsSuffix(s: seq<PageNo>, t: seq<PageNo>) {
    |s| <= |t| && forall k: nat {:trigger FromEnd(s, k)} :: k < |s| ==> FromEnd(s, k) == FromEnd(t, k)
  }

  lemma SuffixTransitive(s: seq<PageNo>, t: seq<PageNo>, u: seq<PageNo>)
    requires IsSuffix(s, t) && IsSuffix(t, u)
    ensures IsSuffix(s, u)
  {
  }

  /** A page keeps its use, unless it was free and became a table of the map in `r`. */
  ghost predicate KeptOrTaken(a: Owners, b: Owners, r: PageNo, p: PageNo) {
    b[p] == a[p] || (a[p] == Free && b[p].Table? && InTree(b, r, p))
  }

  /** A page is unchanged unless it is a table of the map in `r`. */
  ghost predicate KeptOrWritten(a: Ram, b: Ram, own: Owners, r: PageNo, p: PageNo) {
    InTree(own, r, p) || b[p] == a[p]
  }

  /** An upper-level entry stays, or was absent and now points to a table with attributes `attr`;
      new entries of PML4 tables are confined to `slots`. */
  ghost predicate KeptOrNew(a: Snapshot, b: Snapshot, attr: nat, slots: set<Index>, p: PageNo, i: Index) {
    Level(b.own[p]) >= 3 ==>
      (a.own[p] == b.own[p] && b.ram[p][i] == a.ram[p][i]) ||
      ((a.own[p] == b.own[p] ==> a.ram[p][i] % 2 == 0) && b.ram[p][i] % PAGE_SIZE == attr
        && (b.own[p].Root? ==> i in slots)) ||
      (a.own[p] != b.own[p] && b.ram[p][i] == 0)
  }

  ghost predicate Grown(a: Snapshot, b: Snapshot, r: PageNo, attr: nat, slots: set<Index>) {
    && IsSuffix(b.free, a.free)
    && (forall p: PageNo :: KeptOrTaken(a.own, b.own, r, p))
    && (forall p: PageNo :: KeptOrWritten(a.ram, b.ram, b.own, r, p))
    && (forall p: PageNo, i: Index :: KeptOrNew(a, b, attr, slots, p, i))
  }

  ghost predicate SameWalks(a: Ram, b: Ram, r: PageNo) {
    forall i: Index, j: Index, k: Index :: WalkAt(b, r, i, j, k) == WalkAt(a, r, i, j, k)
  }

  /** The map in `r` got new empty tables at most; it translates as before. */
  ghost predicate Extended(a: Snapshot, b: Snapshot, r: PageNo, attr: nat, slots: set<Index>) {
    Grown(a, b, r, attr, slots) && SameWalks(a.ram, b.ram, r)
  }

  lemma ExtendedReflexive(a: Snapshot, r: PageNo, attr: nat, slots: set<Index>)
    ensures Extended(a, a, r, attr, slots)
  {
  }

  lemma ExtendedTransitive(a: Snapshot, b: Snapshot, c: Snapshot, r: PageNo, attr: nat, slots: set<Index>)
    requires a.own[r].Root? && Extended(a, b, r, attr, slots) && Extended(b, c, r, attr, slots) && attr % 2 == 1
    ensures Extended(a, c, r, attr, slots)
  {
    assert Grown(a, c, r, attr, slots) by { GrownTransitive(a, b, c, r, attr, slots); }
  }

  lemma GrownKeepsTree(a: Snapshot, b: Snapshot, r: PageNo, attr: nat, slots: set<Index>, s: PageNo, p: PageNo)
    requires Grown(a, b, r, attr, slots) && InTree(a.own, s, p) && a.own[s].Root?
    ensures InTree(b.own, s, p) && b.own[p] == a.own[p] && b.own[s] == a.own[s]
  {
    assert KeptOrTaken(a.own, b.own, r, p) && KeptOrTaken(a.own, b.own, r, s);
    if a.own[p].Table? { assert KeptOrTaken(a.own, b.own, r, a.own[p].parent); }
  }

  lemma GrownTransitive(a: Snapshot, b: Snapshot, c: Snapshot, r: PageNo, attr: nat, slots: set<Index>)
    requires a.own[r].Root? && Grown(a, b, r, attr, slots) && Grown(b, c, r, attr, slots) && attr % 2 == 1
    ensures Grown(a, c, r, attr, slots)
  {
    SuffixTransitive(c.free, b.free, a.free);
    forall p: PageNo ensures KeptOrTaken(a.own, c.own, r, p) && KeptOrWritten(a.ram, c.ram, c.own, r, p) {
      assert KeptOrTaken(a.own, b.own, r, p) && KeptOrTaken(b.own, c.own, r, p) && KeptOrTaken(a.own, b.own, r, r);
      assert KeptOrWritten(a.ram, b.ram, b.own, r, p) && KeptOrWritten(b.ram, c.ram, c.own, r, p);
      if InTree(b.own, r, p) { GrownKeepsTree(b, c, r, attr, slots, r, p); }
    }
    forall p: PageNo, i: Index ensures KeptOrNew(a, c, attr, slots, p, i) {
      assert KeptOrNew(a, b, attr, slots, p, i) && KeptOrNew(b, c, attr, slots, p, i);
      assert KeptOrTaken(a.own, b.own, r, p) && KeptOrTaken(b.own, c.own, r, p);
      OddAttribute(b.ram[p][i], attr);
    }
  }

  lemma OddAttribute(e: Word, attr: nat)
    requires attr % 2 == 1
    ensures e % PAGE_SIZE == attr ==> e % 2 == 1
  {
    var q := e / PAGE_SIZE;
    assert e == 2 * (0x10_0000 * q) + e % PAGE_SIZE;
  }

  /** Growing one map changes no translation of any other. */
  lemma GrownKeepsOthers(a: Snapshot, b: Snapshot, r: PageNo, attr: nat, slots: set<Index>, s: PageNo)
    requires Shape(a.ram, a.own) && Grown(a, b, r, attr, slots)
    requires a.own[r].Root? && a.own[s].Root? && s != r
    ensures SameWalks(a.ram, b.ram, s)
  {
    assert InTree(a.own, r, r);
    GrownKeepsTree(a, b, r, attr, slots, r, r);
    forall p: PageNo | InTree(a.own, s, p) ensures b.ram[p] == a.ram[p] {
      GrownKeepsTree(a, b, r, attr, slots, s, p);
      assert KeptOrWritten(a.ram, b.ram, b.own, r, p);
      if InTree(b.own, r, p) { TreesDisjoint(b.own, r, s, p); }
    }
    WalkFrame(a.ram, a.own, b.ram, s);
  }

  lemma GrownKeepsAllOthers(a: Snapshot, b: Snapshot, r: PageNo, attr: nat, slots: set<Index>)
    requires Shape(a.ram, a.own) && Grown(a, b, r, attr, slots) && a.own[r].Root?
    ensures forall s: PageNo :: a.own[s].Root? && s != r ==> SameWalks(a.ram, b.ram, s)
  {
    forall s: PageNo | a.own[s].Root? && s != r ensures SameWalks(a.ram, b.ram, s) {
      GrownKeepsOthers(a, b, r, attr, slots, s);
    }
  }

  /** The state after linking the first free page under entry `i` of table `p`. */
  ghost function LinkFirst(a: Snapshot, p: PageNo, i: Index, attr: nat): Snapshot
    requires a.free != [] && attr < LARGE && Level(a.own[p]) >= 1
  {
    var c := a.free[0];
    Snapshot(Linked(a.ram, p, i, c, attr), Assign(a.own, c, Table(Level(a.own[p]) - 1, p, i)), a.free[1..])
  }

  /** Linking a page just taken from the free list grows the map. */
  lemma LinkGrows(a: Snapshot, r: PageNo, p: PageNo, i: Index, attr: nat, slots: set<Index>)
    requires a.own[r].Root? && InTree(a.own, r, p) && Level(a.own[p]) >= 3 && a.ram[p][i] % 2 == 0
    requires Shape(a.ram, a.own) && attr % 2 == 1 && attr < LARGE
    requires a.free != [] && a.own[a.free[0]] == Free && (a.own[p].Root? ==> i in slots)
    ensures Level(a.own[p]) <= 4
    ensures Grown(a, LinkFirst(a, p, i, attr), r, attr, slots)
  {
    var c, b := a.free[0], LinkFirst(a, p, i, attr);
    assert HangsUp(a.ram, a.own, p);
    assert IsSuffix(b.free, a.free);
    assert Level(a.own[p]) == 4 ==> p == r;
    assert InTree(b.own, r, c) && InTree(b.own, r, p);
    forall q: PageNo, x: Index ensures KeptOrNew(a, b, attr, slots, q, x) {
      LinkedWords(a.ram, p, i, c, attr, q, x);
      EntryParts(c, attr);
    }
  }

  // ----- Mapping a range of pages -----

  /** Page `k` of a range that starts at virtual page `n0`. */
  function PageOfRange(n0: nat, k: int): (m: nat)
    ensures m < VPN_LIMIT
  {
    (n0 + k) % VPN_LIMIT
  }

  /** The position of virtual page `m` in such a range. */
  function PositionInRange(n0: nat, m: nat): (k: nat)
    ensures k < VPN_LIMIT
  {
    (m - n0) % VPN_LIMIT
  }

  lemma PositionRoundTrip(n0: nat, m: nat, k: nat)
    requires n0 < VPN_LIMIT && m < VPN_LIMIT && k < VPN_LIMIT
    ensures PositionInRange(n0, m) == k <==> m == PageOfRange(n0, k)
  {
  }

  /** Going from `a` to `b`, exactly the first `n` pages from `n0` on were mapped, to `phys` on. */
  ghost predicate MapsRange(a: Ram, b: Ram, r: PageNo, n0: nat, n: nat, phys: Word, attr: nat)
    requires Aligned(phys) && phys + n * PAGE_SIZE <= WORD_LIMIT && attr < LARGE
  {
    forall m: nat | m < VPN_LIMIT :: PageMapped(a, b, r, m, PositionInRange(n0, m), n, phys, attr)
  }

  ghost predicate PageMapped(a: Ram, b: Ram, r: PageNo, m: nat, k: nat, n: nat, phys: Word, attr: nat)
    requires m < VPN_LIMIT && Aligned(phys) && phys + n * PAGE_SIZE <= WORD_LIMIT && attr < LARGE
  {
    if k < n
    then WalkVpn(b, r, m).Some? && WalkVpn(b, r, m).value.e2 == LeafEntry(phys + k * PAGE_SIZE, attr)
    else WalkVpn(b, r, m) == WalkVpn(a, r, m)
  }

  /** One more page, through the directory `d`, after new tables were hung in. */
  lemma MapNextPage(a: Ram, b: Snapshot, c: Snapshot, r: PageNo, n0: nat, n: nat, m: nat, phys: Word, attr: nat,
      q: PageNo, d: PageNo)
    requires Aligned(phys) && phys + (n + 1) * PAGE_SIZE <= WORD_LIMIT && attr < LARGE && attr % 2 == 1
    requires n0 < VPN_LIMIT && n < VPN_LIMIT && m < VPN_LIMIT && PositionInRange(n0, m) == n
    requires MapsRange(a, b.ram, r, n0, n, phys, attr) && SameWalks(b.ram, c.ram, r)
    requires Shape(c.ram, c.own) && c.own[r].Root?
    requires c.own[q] == Table(3, r, m / 0x4_0000) && c.own[d] == Table(2, q, m / 512 % 512)
    ensures
      var ram' := Store(c.ram, d, m % 512, LeafEntry(phys + n * PAGE_SIZE, attr));
      Shape(ram', c.own) && MapsRange(a, ram', r, n0, n + 1, phys, attr)
  {
    var e := LeafEntry(phys + n * PAGE_SIZE, attr);
    var ram' := Store(c.ram, d, m % 512, e);
    LeafRemainder(phys + n * PAGE_SIZE, attr);
    LeafWalks(c.ram, c.own, r, m / 0x4_0000, m / 512 % 512, m % 512, q, d, e);
    forall x: nat | x < VPN_LIMIT ensures PageMapped(a, ram', r, x, PositionInRange(n0, x), n + 1, phys, attr) {
      PositionRoundTrip(n0, x, n);
      PositionRoundTrip(n0, m, n);
      assert PageMapped(a, b.ram, r, x, PositionInRange(n0, x), n, phys, attr);
      SameIndices(x, m);
      assert WalkVpn(c.ram, r, x) == WalkVpn(b.ram, r, x);
    }
  }

  lemma LeafRemainder(p: Word, attr: nat)
    requires Aligned(p) && attr < LARGE && attr % 2 == 1
    ensures LeafEntry(p, attr) % 2 == 1 && LARGE <= LeafEntry(p, attr) % PAGE_SIZE < 2 * LARGE
    ensures LeafEntry(p, attr) / PAGE_SIZE == p / PAGE_SIZE
  {
    QuotientUnique(LeafEntry(p, attr), PAGE_SIZE, p / PAGE_SIZE, attr + LARGE);
  }

  /** The three table indices determine the virtual page. */
  lemma SameIndices(x: nat, y: nat)
    requires x < VPN_LIMIT && y < VPN_LIMIT
    ensures x == y <==> x / 0x4_0000 == y / 0x4_0000 && x / 512 % 512 == y / 512 % 512 && x % 512 == y % 512
  {
    assert x / 0x4_0000 == x / 512 / 512 && y / 0x4_0000 == y / 512 / 512;
  }

  /** Writing a directory of the map keeps it grown. */
  lemma LeafGrown(a: Snapshot, b: Snapshot, r: PageNo, attr: nat, slots: set<Index>, d: PageNo, k: Index, e: Word)
    requires Grown(a, b, r, attr, slots) && InTree(b.own, r, d) && Level(b.own[d]) == 2
    ensures Grown(a, Snapshot(Store(b.ram, d, k, e), b.own, b.free), r, attr, slots)
  {
    var c := Snapshot(Store(b.ram, d, k, e), b.own, b.free);
    forall p: PageNo ensures KeptOrWritten(a.ram, c.ram, c.own, r, p) {
      assert KeptOrWritten(a.ram, b.ram, b.own, r, p);
    }
    forall p: PageNo, i: Index ensures KeptOrNew(a, c, attr, slots, p, i) { assert KeptOrNew(a, b, attr, slots, p, i); }
  }

  /** How many pages cover [v, end). */
  function PagesCovering(v: Word, end: Word): (n: nat)
    requires v < end && end + PAGE_SIZE <= WORD_LIMIT
    ensures n >= 1 && AlignDown(v) + n * PAGE_SIZE == AlignUp(end)
  {
    (end + PAGE_SIZE - 1) / PAGE_SIZE - v / PAGE_SIZE
  }

  /** The PML4 entries that a range of pages goes through. */
  ghost function SlotsOf(n0: nat, n: nat): set<Index> {
    set k: nat | k < n :: PageOfRange(n0, k) / 0x4_0000
  }

  lemma RangeIndices(v: Word, start: Word, n: nat)
    requires start == AlignDown(v) + n * PAGE_SIZE
    ensures Vpn(v) < VPN_LIMIT && Vpn(start) == PageOfRange(Vpn(v), n)
    ensures n < VPN_LIMIT ==> PositionInRange(Vpn(v), Vpn(start)) == n
    ensures var m := Vpn(start);
      Pml4Index(start) == m / 0x4_0000 && PdptIndex(start) == m / 512 % 512 && PdIndex(start) == m % 512
  {
    var h := v / PAGE_SIZE;
    QuotientUnique(start, PAGE_SIZE, h + n, 0);
    RangeVpn(h, n);
    if n < VPN_LIMIT { PositionRoundTrip(Vpn(v), Vpn(start), n); }
    VpnIndices(start);
  }

  lemma RangeVpn(h: nat, n: nat)
    ensures (h + n) % VPN_LIMIT == PageOfRange(h % VPN_LIMIT, n)
  {
    var b := h / VPN_LIMIT;
    assert h == VPN_LIMIT * b + h % VPN_LIMIT;
    ModuloShift(h % VPN_LIMIT + n, b);
  }

  lemma ModuloShift(x: nat, b: nat)
    ensures (VPN_LIMIT * b + x) % VPN_LIMIT == x % VPN_LIMIT
  {
    QuotientUnique(VPN_LIMIT * b + x, VPN_LIMIT, b + x / VPN_LIMIT, x % VPN_LIMIT);
  }

  /** The entry about to be written is still absent, as MapPages asserts. */
  lemma NotYetMapped(a: Ram, b: Ram, c: Snapshot, r: PageNo, n0: nat, n: nat, m: nat, phys: Word, attr: nat, q: PageNo,
      d: PageNo)
    requires Aligned(phys) && phys + n * PAGE_SIZE <= WORD_LIMIT && attr < LARGE
    requires n0 < VPN_LIMIT && m < VPN_LIMIT && PositionInRange(n0, m) == n
    requires MapsRange(a, b, r, n0, n, phys, attr) && SameWalks(b, c.ram, r) && WalkVpn(a, r, m) == None
    requires Shape(c.ram, c.own) && c.own[r].Root?
    requires c.own[q] == Table(3, r, m / 0x4_0000) && c.own[d] == Table(2, q, m / 512 % 512)
    ensures c.ram[d][m % 512] % 2 == 0
  {
    assert PageMapped(a, b, r, m, PositionInRange(n0, m), n, phys, attr);
    DirectoryWalk(c.ram, c.own, r, m / 0x4_0000, m / 512 % 512, m % 512, q, d);
  }

  lemma MapsNothing(a: Ram, r: PageNo, n0: nat, phys: Word, attr: nat)
    requires Aligned(phys) && attr < LARGE
    ensures MapsRange(a, a, r, n0, 0, phys, attr)
  {
  }

  lemma MapsRangeFrame(a: Ram, b: Ram, c: Ram, r: PageNo, n0: nat, n: nat, phys: Word, attr: nat)
    requires Aligned(phys) && phys + n * PAGE_SIZE <= WORD_LIMIT && attr < LARGE
    requires MapsRange(a, b, r, n0, n, phys, attr) && SameWalks(b, c, r)
    ensures MapsRange(a, c, r, n0, n, phys, attr)
  {
    forall m: nat | m < VPN_LIMIT ensures PageMapped(a, c, r, m, PositionInRange(n0, m), n, phys, attr) {
      assert PageMapped(a, b, r, m, PositionInRange(n0, m), n, phys, attr);
      assert WalkVpn(c, r, m) == WalkVpn(b, r, m);
    }
  }

  /** One round of the mapping loop: with the directory `d` for virtual page `m` found, its entry is
      absent, and writing it maps one more page. */
  lemma MapRound(a: Snapshot, b: Snapshot, c: Snapshot, r: PageNo, n0: nat, n: nat, m: nat, phys: Word, attr: nat,
      slots: set<Index>, d: PageNo)
    requires Aligned(phys) && phys + (n + 1) * PAGE_SIZE <= WORD_LIMIT && attr < LARGE && attr % 2 == 1
    requires n < VPN_LIMIT && n0 < VPN_LIMIT && m < VPN_LIMIT && PositionInRange(n0, m) == n
    requires a.own[r].Root? && Grown(a, b, r, attr, slots) && Extended(b, c, r, attr, slots)
    requires MapsRange(a.ram, b.ram, r, n0, n, phys, attr) && WalkVpn(a.ram, r, m) == None
    requires Shape(c.ram, c.own) && IsDirectoryAt(c.own, r, m / 0x4_0000, m / 512 % 512, d)
    ensures c.ram[d][m % 512] % 2 == 0 && Aligned(phys + n * PAGE_SIZE)
    ensures
      var after := Snapshot(Store(c.ram, d, m % 512, LeafEntry(phys + n * PAGE_SIZE, attr)), c.own, c.free);
      Shape(after.ram, after.own) && Grown(a, after, r, attr, slots)
        && MapsRange(a.ram, after.ram, r, n0, n + 1, phys, attr)
  {
    var q, k, e := c.own[d].parent, m % 512, LeafEntry(phys + n * PAGE_SIZE, attr);
    GrownTransitive(a, b, c, r, attr, slots);
    assert KeptOrTaken(a.own, c.own, r, r);
    NotYetMapped(a.ram, b.ram, c, r, n0, n, m, phys, attr, q, d);
    LeafGrown(a, c, r, attr, slots, d, k, e);
    MapNextPage(a.ram, b, c, r, n0, n, m, phys, attr, q, d);
  }

  /** `d` is the page directory under entries `i` and `j` of the map rooted in `r`. */
  ghost predicate IsDirectoryAt(own: Owners, r: PageNo, i: Index, j: Index, d: PageNo) {
    own[d].Table? && own[d] == Table(2, own[d].parent, j) && own[own[d].parent] == Table(3, r, i)
  }

  // ----- How many tables a mapping needs -----

  /** How many tables are missing on the way to the page directory under entries `i` and `j`. */
  function Missing(ram: Ram, r: PageNo, i: Index, j: Index): nat {
    if ram[r][i] % 2 == 0 then 2
    else if ram[r][i] / PAGE_SIZE < PAGES && ram[ram[r][i] / PAGE_SIZE][j] % 2 == 1 then 0
    else 1
  }

  lemma NoneMissing(ram: Ram, own: Owners, r: PageNo, i: Index, j: Index, d: PageNo)
    requires Shape(ram, own) && IsDirectoryAt(own, r, i, j, d)
    ensures Missing(ram, r, i, j) == 0
  {
    assert HangsUp(ram, own, d) && HangsUp(ram, own, own[d].parent);
  }

  /** Table `c` under entry `i` of table `p` was found, or was missing and cost one page. */
  ghost predicate Entered(a: Snapshot, b: Snapshot, p: PageNo, i: Index, c: PageNo) {
    if a.ram[p][i] % 2 == 1 then b == a && c == a.ram[p][i] / PAGE_SIZE
    else b.ram[c] == ZeroPage() && |b.free| == |a.free| - 1
  }

  /** The directory was found exactly if there were pages for all tables on the way to it, and they were taken. */
  ghost predicate Counted(a: Snapshot, b: Snapshot, r: PageNo, i: Index, j: Index, found: bool) {
    && (found <==> |a.free| >= Missing(a.ram, r, i, j))
    && (found ==> |b.free| == |a.free| - Missing(a.ram, r, i, j))
  }

  /** Counting the second table after the first. */
  lemma TablesCounted(a: Snapshot, b: Snapshot, c: Snapshot, r: PageNo, q: PageNo, i: Index, j: Index, found: bool)
    requires Entered(a, b, r, i, q)
    requires found <==> b.ram[q][j] % 2 == 1 || b.free != []
    requires found ==> |c.free| == |b.free| - (if b.ram[q][j] % 2 == 0 then 1 else 0)
    ensures Counted(a, c, r, i, j, found)
  {
  }

  /** All pages of the range go through the same page directory. */
  predicate OneDirectory(v: Word, n: nat) {
    Vpn(v) % 512 + n <= 512
  }

  lemma SameDirectory(v: Word, start: Word, k: nat, n: nat)
    requires OneDirectory(v, n) && k < n && start == AlignDown(v) + k * PAGE_SIZE
    ensures Pml4Index(start) == Pml4Index(v) && PdptIndex(start) == PdptIndex(v)
  {
    RangeIndices(v, start, k);
    VpnIndices(v);
    NoCarry(Vpn(v), k);
    assert Vpn(start) == Vpn(v) + k;
  }

  lemma NoCarry(m: nat, k: nat)
    requires m < VPN_LIMIT && m % 512 + k < 512
    ensures m + k < VPN_LIMIT && (m + k) / 512 == m / 512 && (m + k) / 0x4_0000 == m / 0x4_0000
  {
    QuotientUnique(m + k, 512, m / 512, m % 512 + k);
    assert m / 0x4_0000 == m / 512 / 512 && (m + k) / 0x4_0000 == (m + k) / 512 / 512;
  }
}
