/** Four-level page tables with 2 MB leaves, as values: the contents of physical memory,
    the ghost record of what every page is used for, and the address translation that
    the processor performs (Intel SDM Vol. 3A, section 4.5). */
module PageTables {
  import opened Bits
  import opened MemoryLayout
  import opened Wrappers

  const PAGES := 512
  const PAGE_WORDS := 0x4_0000
  const VPN_LIMIT := 0x800_0000

  type PageNo = p: nat | p < PAGES
  type PageData = d: seq<Word> | |d| == PAGE_WORDS witness seq(PAGE_WORDS, _ => 0)
  type Ram = r: seq<PageData> | |r| == PAGES witness seq<PageData>(PAGES, _ => ZeroPage())

  /** What a physical page is used for. A table names the one entry that points to it. */
  datatype Owner =
    | Reserved                     // never collected by the allocator
    | Free
    | Kernel                       // kept by the kernel, or just taken from the free list
    | Stack(proc: nat)             // kernel stack of a process slot
    | UserPage(root: PageNo, vpn: nat)  // mapped at this virtual page, and owned, by this map
    | Root(proc: nat)              // PML4 table of a process slot
    | Table(level: nat, parent: PageNo, slot: nat)

  type Owners = o: seq<Owner> | |o| == PAGES witness seq(PAGES, _ => Reserved)

  function PageVirtual(p: PageNo): (a: Word)
    ensures KERNEL_BASE <= a && a + PAGE_SIZE <= VIRTUAL_END && Aligned(a)
  {
    KERNEL_BASE + p * PAGE_SIZE
  }

  function PagePhysical(p: PageNo): (a: Word)
    ensures Aligned(a) && a / PAGE_SIZE == p && a + PAGE_SIZE <= PHYSICAL_MEMORY_SIZE
    ensures VirToPhy(PageVirtual(p)) == a && PhyToVir(a) == PageVirtual(p)
  {
    p * PAGE_SIZE
  }

  /** An aligned address inside the direct map of physical memory. */
  predicate InDirectMap(a: Word) { Aligned(a) && KERNEL_BASE <= a && a + PAGE_SIZE <= VIRTUAL_END }

  /** The page a kernel pointer refers to. */
  function PageAt(a: Word): (p: PageNo)
    requires InDirectMap(a)
    ensures PageVirtual(p) == a
  {
    (a - KERNEL_BASE) / PAGE_SIZE
  }

  lemma PageAtVirtual(p: PageNo)
    ensures InDirectMap(PageVirtual(p)) && PageAt(PageVirtual(p)) == p
  {
  }

  function ZeroPage(): PageData { seq(PAGE_WORDS, _ => 0) }

  /** The record with one page put to a new use. */
  function Assign(own: Owners, p: PageNo, o: Owner): Owners { own[p := o] }

  /** Memory after storing one word. */
  function Store(ram: Ram, p: PageNo, i: nat, w: Word): Ram
    requires i < PAGE_WORDS
  {
    ram[p := ram[p][i := w]]
  }

  /** Memory after clearing one page. */
  function Clear(ram: Ram, p: PageNo): Ram { ram[p := ZeroPage()] }

  function Level(o: Owner): nat { if o.Root? then 4 else if o.Table? then o.level else 0 }

  predicate IsTable(o: Owner) { o.Root? || o.Table? }

  /** `e` points to the table in page `c`, as built by TableEntry. */
  predicate PointsTo(e: Word, c: PageNo) {
    e % 2 == 1 && e / PAGE_SIZE == c && e % PAGE_SIZE < LARGE
  }

  /** A present upper-level entry leads to a table that names this entry as its parent. */
  ghost predicate LeadsDown(ram: Ram, own: Owners, p: PageNo, i: Index) {
    Level(own[p]) >= 3 && ram[p][i] % 2 == 1 ==>
      ram[p][i] / PAGE_SIZE < PAGES && PointsTo(ram[p][i], ram[p][i] / PAGE_SIZE) &&
      own[ram[p][i] / PAGE_SIZE] == Table(Level(own[p]) - 1, p, i)
  }

  /** A table hangs from the entry it names. */
  ghost predicate HangsUp(ram: Ram, own: Owners, c: PageNo) {
    own[c].Table? ==>
      var Table(level, p, i) := own[c];
      2 <= level <= 3 && i < ENTRIES && Level(own[p]) == level + 1 &&
      ram[p][i] % 2 == 1 && ram[p][i] / PAGE_SIZE == c
  }

  /** A present page-directory entry maps a 2 MB page. */
  ghost predicate IsLeaf(ram: Ram, own: Owners, d: PageNo, k: Index) {
    Level(own[d]) == 2 && ram[d][k] % 2 == 1 ==> LARGE <= ram[d][k] % PAGE_SIZE < 2 * LARGE
  }

  /** All page tables of all maps form disjoint trees. */
  ghost predicate Shape(ram: Ram, own: Owners) {
    && (forall p: PageNo, i: Index :: LeadsDown(ram, own, p, i))
    && (forall c: PageNo :: HangsUp(ram, own, c))
    && (forall d: PageNo, k: Index :: IsLeaf(ram, own, d, k))
  }

  /** What Shape says along one walk. */
  lemma WalkShape(ram: Ram, own: Owners, r: PageNo, i: Index, j: Index, k: Index)
    requires Shape(ram, own) && own[r].Root?
    ensures ram[r][i] % 2 == 1 ==>
      var q := ram[r][i] / PAGE_SIZE;
      q < PAGES && PointsTo(ram[r][i], q) && own[q] == Table(3, r, i) && InTree(own, r, q) &&
      (ram[q][j] % 2 == 1 ==>
        var d := ram[q][j] / PAGE_SIZE;
        d < PAGES && PointsTo(ram[q][j], d) && own[d] == Table(2, q, j) && InTree(own, r, d) &&
        (ram[d][k] % 2 == 1 ==> LARGE <= ram[d][k] % PAGE_SIZE < 2 * LARGE))
  {
    assert LeadsDown(ram, own, r, i);
    if ram[r][i] % 2 == 1 {
      var q := ram[r][i] / PAGE_SIZE;
      assert LeadsDown(ram, own, q, j);
      if ram[q][j] % 2 == 1 {
        assert IsLeaf(ram, own, ram[q][j] / PAGE_SIZE, k);
      }
    }
  }

  /** The tables of the map rooted in `r`. */
  predicate InTree(own: Owners, r: PageNo, p: PageNo) {
    p == r ||
    (own[p].Table? && own[p].level == 3 && own[p].parent == r) ||
    (own[p].Table? && own[p].level == 2 && own[own[p].parent].Table?
     && own[own[p].parent].level == 3 && own[own[p].parent].parent == r)
  }

  /** Every table hangs below a root. */
  lemma TreeAbove(ram: Ram, own: Owners, p: PageNo)
    requires Shape(ram, own)
    ensures own[p].Table? && own[p].level == 3 ==> own[own[p].parent].Root?
    ensures own[p].Table? && own[p].level == 2 ==> own[own[p].parent].Table? && own[own[own[p].parent].parent].Root?
  {
    assert HangsUp(ram, own, p);
    if own[p].Table? {
      assert HangsUp(ram, own, own[p].parent);
      if own[p].level == 2 { assert HangsUp(ram, own, own[own[p].parent].parent); }
    }
  }

  // ----- Address translation -----

  datatype Path = Path(e4: Word, e3: Word, e2: Word)

  /** Is the bit of this weight set? */
  predicate Bit(e: Word, weight: nat)
    requires weight > 0
  {
    e / weight % 2 == 1
  }

  /** A physical load; addresses without memory behind them read as zero. */
  function LoadPhysical(ram: Ram, a: nat): Word {
    if a / PAGE_SIZE < PAGES then ram[a / PAGE_SIZE][a % PAGE_SIZE / 8] else 0
  }

  /** The entries the processor reads to translate `v`; None is a page fault. */
  function Walk(ram: Ram, cr3: Word, v: Word): Option<Path> {
    WalkTables(ram, cr3, Pml4Index(v), PdptIndex(v), PdIndex(v))
  }

  function WalkTables(ram: Ram, cr3: Word, i: nat, j: nat, k: nat): Option<Path> {
    var e4 := LoadPhysical(ram, TableAddress(cr3) + 8 * i);
    if !Bit(e4, PRESENT) then None else
    var e3 := LoadPhysical(ram, TableAddress(e4) + 8 * j);
    if !Bit(e3, PRESENT) || Bit(e3, LARGE) then None else
    var e2 := LoadPhysical(ram, TableAddress(e3) + 8 * k);
    if !Bit(e2, PRESENT) || !Bit(e2, LARGE) then None else Some(Path(e4, e3, e2))
  }

  /** The physical address `v` translates to along a path. */
  function Target(path: Path, v: Word): nat { PageAddress(path.e2) + v % PAGE_SIZE }

  predicate UserAccess(path: Path) { Bit(path.e4, USER) && Bit(path.e3, USER) && Bit(path.e2, USER) }

  predicate WriteAccess(path: Path) { Bit(path.e4, WRITABLE) && Bit(path.e3, WRITABLE) && Bit(path.e2, WRITABLE) }

  /** The 27-bit virtual page number. */
  function Vpn(v: Word): nat { v / PAGE_SIZE % VPN_LIMIT }

  /** The walk from the table in page `r`, by table indices. */
  function WalkAt(ram: Ram, r: PageNo, i: Index, j: Index, k: Index): Option<Path> {
    var e4 := ram[r][i];
    if e4 % 2 == 0 || e4 / PAGE_SIZE >= PAGES then None else
    var e3 := ram[e4 / PAGE_SIZE][j];
    if e3 % 2 == 0 || e3 / PAGE_SIZE >= PAGES then None else
    var e2 := ram[e3 / PAGE_SIZE][k];
    if e2 % 2 == 0 then None else Some(Path(e4, e3, e2))
  }

  /** The walk from the table in page `r`, by virtual page number. */
  function WalkVpn(ram: Ram, r: PageNo, m: nat): Option<Path>
    requires m < VPN_LIMIT
  {
    WalkAt(ram, r, m / 0x4_0000, m / 512 % 512, m % 512)
  }

  lemma VpnIndices(v: Word)
    ensures Vpn(v) < VPN_LIMIT
    ensures Pml4Index(v) == Vpn(v) / 0x4_0000 && PdptIndex(v) == Vpn(v) / 512 % 512 && PdIndex(v) == Vpn(v) % 512
  {
    var n := v / PAGE_SIZE;
    QuotientOfQuotient(v, 0x4_0000);
    QuotientOfQuotient(v, 512);
    VpnParts(n);
  }

  lemma QuotientOfQuotient(v: nat, d: nat)
    requires d == 0x4_0000 || d == 512
    ensures v / (PAGE_SIZE * d) == v / PAGE_SIZE / d
  {
    var n, f := v / PAGE_SIZE, v % PAGE_SIZE;
    var a, b := n / d, n % d;
    assert v == PAGE_SIZE * n + f && n == d * a + b;
    QuotientUnique(v, PAGE_SIZE * d, a, PAGE_SIZE * b + f);
  }

  lemma VpnParts(n: nat)
    ensures n / 0x4_0000 % 512 == n % VPN_LIMIT / 0x4_0000
    ensures n / 512 % 512 == n % VPN_LIMIT / 512 % 512
    ensures n % 512 == n % VPN_LIMIT % 512
  {
    var h, m := n / VPN_LIMIT, n % VPN_LIMIT;
    assert n == VPN_LIMIT * h + m;
    var a, b := m / 0x4_0000, m / 512;
    QuotientUnique(n, 0x4_0000, 512 * h + a, m % 0x4_0000);
    QuotientUnique(512 * h + a, 512, h, a);
    QuotientUnique(n, 512, 0x4_0000 * h + b, m % 512);
    QuotientUnique(0x4_0000 * h + b, 512, 512 * h + b / 512, b % 512);
  }

  lemma EntryAddress(e: Word, i: Index)
    requires e / PAGE_SIZE < PAGES && e % PAGE_SIZE < 4096
    ensures (TableAddress(e) + 8 * i) / PAGE_SIZE == e / PAGE_SIZE
    ensures (TableAddress(e) + 8 * i) % PAGE_SIZE / 8 == i
  {
    var q, f := e / PAGE_SIZE, e % PAGE_SIZE;
    assert e == q * PAGE_SIZE + f;
    assert e % 4096 == f;
    assert TableAddress(e) + 8 * i == q * PAGE_SIZE + 8 * i;
  }

  lemma LargeBit(e: Word)
    ensures e % PAGE_SIZE < LARGE ==> e / 128 % 2 == 0
    ensures LARGE <= e % PAGE_SIZE < 2 * LARGE ==> e / 128 % 2 == 1
  {
    var q, f := e / PAGE_SIZE, e % PAGE_SIZE;
    QuotientUnique(e, 128, 16384 * q + f / 128, f % 128);
  }

  /** For the kernel's own tables the processor's walk over physical addresses is the walk over pages. */
  lemma WalkByPages(ram: Ram, own: Owners, r: PageNo, v: Word)
    requires Shape(ram, own) && own[r].Root?
    ensures Vpn(v) < VPN_LIMIT && Walk(ram, PagePhysical(r), v) == WalkVpn(ram, r, Vpn(v))
  {
    VpnIndices(v);
    WalkTablesByPages(ram, own, r, Pml4Index(v), PdptIndex(v), PdIndex(v));
  }

  lemma WalkTablesByPages(ram: Ram, own: Owners, r: PageNo, i: Index, j: Index, k: Index)
    requires Shape(ram, own) && own[r].Root?
    ensures WalkTables(ram, PagePhysical(r), i, j, k) == WalkAt(ram, r, i, j, k)
  {
    WalkShape(ram, own, r, i, j, k);
    LoadEntry(ram, PagePhysical(r), i);
    var e4 := ram[r][i];
    if e4 % 2 == 1 {
      LoadEntry(ram, e4, j);
      var e3 := ram[e4 / PAGE_SIZE][j];
      if e3 % 2 == 1 {
        LoadEntry(ram, e3, k);
      }
    }
  }

  lemma LoadEntry(ram: Ram, e: Word, i: Index)
    requires e / PAGE_SIZE < PAGES && e % PAGE_SIZE < 4096
    ensures LoadPhysical(ram, TableAddress(e) + 8 * i) == ram[e / PAGE_SIZE][i]
    ensures var x := ram[e / PAGE_SIZE][i];
      && (Bit(x, PRESENT) <==> x % 2 == 1)
      && (x % PAGE_SIZE < LARGE ==> !Bit(x, LARGE))
      && (LARGE <= x % PAGE_SIZE < 2 * LARGE ==> Bit(x, LARGE))
  {
    EntryAddress(e, i);
    LargeBit(ram[e / PAGE_SIZE][i]);
  }

  lemma TablePointer(e: Word, c: PageNo)
    requires PointsTo(e, c)
    ensures PhyToVir(TableAddress(e)) == PageVirtual(c)
  {
    EntryAddress(e, 0);
    assert e == c * PAGE_SIZE + e % PAGE_SIZE;
    assert e % 4096 == e % PAGE_SIZE;
  }

  // ----- Frames -----

  /** Changing pages that are no tables, before or after, keeps every tree. */
  lemma ShapeFrame(ram: Ram, own: Owners, ram': Ram, own': Owners)
    requires Shape(ram, own)
    requires forall p: PageNo :: IsTable(own[p]) || IsTable(own'[p]) ==> own'[p] == own[p] && ram'[p] == ram[p]
    ensures Shape(ram', own')
  {
    forall p: PageNo, i: Index ensures LeadsDown(ram', own', p, i) {
      assert LeadsDown(ram, own, p, i);
    }
    forall c: PageNo ensures HangsUp(ram', own', c) {
      assert HangsUp(ram, own, c);
    }
    forall d: PageNo, k: Index ensures IsLeaf(ram', own', d, k) {
      assert HangsUp(ram, own, d) && IsLeaf(ram, own, d, k);
    }
  }

  /** A map translates the same as long as its own tables do not change. */
  lemma WalkFrame(ram: Ram, own: Owners, ram': Ram, r: PageNo)
    requires Shape(ram, own) && own[r].Root?
    requires forall p: PageNo :: InTree(own, r, p) ==> ram'[p] == ram[p]
    ensures forall i: Index, j: Index, k: Index :: WalkAt(ram', r, i, j, k) == WalkAt(ram, r, i, j, k)
  {
    forall i: Index, j: Index, k: Index ensures WalkAt(ram', r, i, j, k) == WalkAt(ram, r, i, j, k) {
      assert InTree(own, r, r);
      WalkShape(ram, own, r, i, j, k);
    }
  }

  /** No table belongs to two maps. */
  lemma TreesDisjoint(own: Owners, r: PageNo, s: PageNo, p: PageNo)
    requires own[r].Root? && own[s].Root? && InTree(own, r, p) && InTree(own, s, p)
    ensures r == s
  {
  }

  // ----- Updates -----

  /** Hang the zeroed page `c` under entry `i` of table `p`. */
  function Linked(ram: Ram, p: PageNo, i: Index, c: PageNo, attr: nat): Ram
    requires attr < LARGE
  {
    Store(Clear(ram, c), p, i, TableEntry(PagePhysical(c), attr))
  }

  lemma LinkedWords(ram: Ram, p: PageNo, i: Index, c: PageNo, attr: nat, q: PageNo, x: Index)
    requires attr < LARGE && attr % 2 == 1
    ensures Linked(ram, p, i, c, attr)[q][x] ==
      if q == p && x == i then TableEntry(PagePhysical(c), attr) else if q == c then 0 else ram[q][x]
    ensures PointsTo(TableEntry(PagePhysical(c), attr), c)
  {
    EntryParts(c, attr);
  }

  lemma LinkKeepsShape(ram: Ram, own: Owners, p: PageNo, i: Index, c: PageNo, attr: nat)
    requires Shape(ram, own) && !IsTable(own[c]) && Level(own[p]) >= 3 && ram[p][i] % 2 == 0
    requires attr < LARGE && attr % 2 == 1
    ensures Level(own[p]) <= 4
    ensures Shape(Linked(ram, p, i, c, attr), Assign(own, c, Table(Level(own[p]) - 1, p, i)))
  {
    var ram' := Linked(ram, p, i, c, attr);
    var own' := Assign(own, c, Table(Level(own[p]) - 1, p, i));
    assert HangsUp(ram, own, p);
    forall q: PageNo, x: Index ensures LeadsDown(ram', own', q, x) {
      LinkedWords(ram, p, i, c, attr, q, x);
      assert LeadsDown(ram, own, q, x);
    }
    forall q: PageNo ensures HangsUp(ram', own', q) {
      assert HangsUp(ram, own, q);
      if own'[q].Table? { LinkedWords(ram, p, i, c, attr, own'[q].parent, own'[q].slot); }
    }
    forall q: PageNo, x: Index ensures IsLeaf(ram', own', q, x) {
      LinkedWords(ram, p, i, c, attr, q, x);
      assert IsLeaf(ram, own, q, x);
    }
  }

  lemma EntryParts(c: PageNo, attr: nat)
    requires attr < LARGE && attr % 2 == 1
    ensures PointsTo(TableEntry(PagePhysical(c), attr), c)
    ensures TableEntry(PagePhysical(c), attr) % PAGE_SIZE == attr
  {
    assert c * PAGE_SIZE + attr == PAGE_SIZE * c + attr;
  }

  /** An empty table translates nothing, so linking one changes no translation of any map. */
  lemma LinkKeepsWalks(ram: Ram, own: Owners, p: PageNo, i: Index, c: PageNo, attr: nat, r: PageNo)
    requires Shape(ram, own) && !IsTable(own[c]) && Level(own[p]) >= 3 && ram[p][i] % 2 == 0
    requires attr < LARGE && attr % 2 == 1 && own[r].Root?
    ensures forall a: Index, b: Index, k: Index ::
      WalkAt(Linked(ram, p, i, c, attr), r, a, b, k) == WalkAt(ram, r, a, b, k)
  {
    forall a: Index, b: Index, k: Index ensures WalkAt(Linked(ram, p, i, c, attr), r, a, b, k) == WalkAt(ram, r, a, b,
      k) {
      WalkShape(ram, own, r, a, b, k);
      LinkedWords(ram, p, i, c, attr, r, a);
      LinkedWords(ram, p, i, c, attr, c, b);
      LinkedWords(ram, p, i, c, attr, c, k);
      var e4 := ram[r][a];
      if e4 % 2 == 1 {
        var q := e4 / PAGE_SIZE;
        LinkedWords(ram, p, i, c, attr, q, b);
        var e3 := ram[q][b];
        if e3 % 2 == 1 { LinkedWords(ram, p, i, c, attr, e3 / PAGE_SIZE, k); }
      }
    }
  }

  /** What the walk finds once the directory of the page is known. */
  lemma DirectoryWalk(ram: Ram, own: Owners, r: PageNo, i: Index, j: Index, k: Index, q: PageNo, d: PageNo)
    requires Shape(ram, own) && own[r].Root? && own[q] == Table(3, r, i) && own[d] == Table(2, q, j)
    ensures WalkAt(ram, r, i, j, k) == if ram[d][k] % 2 == 0 then None else Some(Path(ram[r][i], ram[q][j], ram[d][k]))
  {
    assert HangsUp(ram, own, q) && HangsUp(ram, own, d);
  }

  /** Writing a leaf changes the translation of one page of one map and nothing else. */
  lemma LeafWalks(ram: Ram, own: Owners, r: PageNo, i: Index, j: Index, k: Index, q: PageNo, d: PageNo, e: Word)
    requires Shape(ram, own) && own[r].Root? && own[q] == Table(3, r, i) && own[d] == Table(2, q, j)
    requires e % 2 == 1 ==> LARGE <= e % PAGE_SIZE < 2 * LARGE
    ensures Shape(Store(ram, d, k, e), own)
    ensures forall a: Index, b: Index, c: Index ::
      WalkAt(Store(ram, d, k, e), r, a, b, c) ==
        if a == i && b == j && c == k
        then (if e % 2 == 1 then Some(Path(ram[r][i], ram[q][j], e)) else None)
        else WalkAt(ram, r, a, b, c)
  {
    var ram' := Store(ram, d, k, e);
    LeafKeepsShape(ram, own, d, k, e);
    forall a: Index, b: Index, c: Index ensures WalkAt(ram', r, a, b, c) ==
        if a == i && b == j && c == k
        then (if e % 2 == 1 then Some(Path(ram[r][i], ram[q][j], e)) else None)
        else WalkAt(ram, r, a, b, c)
    {
      if a == i && b == j {
        DirectoryWalk(ram, own, r, i, j, c, q, d);
        DirectoryWalk(ram', own, r, i, j, c, q, d);
      } else {
        WalkShape(ram, own, r, a, b, c);
      }
    }
  }

  lemma LeafKeepsShape(ram: Ram, own: Owners, d: PageNo, k: Index, e: Word)
    requires Shape(ram, own) && Level(own[d]) == 2 && (e % 2 == 1 ==> LARGE <= e % PAGE_SIZE < 2 * LARGE)
    ensures Shape(Store(ram, d, k, e), own)
  {
    var ram' := Store(ram, d, k, e);
    forall p: PageNo, x: Index ensures LeadsDown(ram', own, p, x) { assert LeadsDown(ram, own, p, x); }
    forall c: PageNo ensures HangsUp(ram', own, c) { assert HangsUp(ram, own, c); }
    forall p: PageNo, x: Index ensures IsLeaf(ram', own, p, x) { assert IsLeaf(ram, own, p, x); }
  }

  /** Free table `c`, whose first word becomes the free-list link, and clear its parent entry. */
  lemma UnlinkKeepsShape(ram: Ram, own: Owners, c: PageNo, link: Word)
    requires Shape(ram, own) && own[c].Table?
    requires forall q: PageNo :: own[q].Table? ==> own[q].parent != c
    ensures own[c].slot < ENTRIES && own[c].parent != c
    ensures
      var p, i := own[c].parent, own[c].slot;
      Shape(Store(Store(ram, c, 0, link), p, i, 0), Assign(own, c, Free))
  {
    assert HangsUp(ram, own, c);
    var p, i := own[c].parent, own[c].slot;
    var ram' := Store(Store(ram, c, 0, link), p, i, 0);
    var own' := Assign(own, c, Free);
    forall q: PageNo, x: Index ensures LeadsDown(ram', own', q, x) {
      assert LeadsDown(ram, own, q, x);
    }
    forall q: PageNo ensures HangsUp(ram', own', q) {
      assert HangsUp(ram, own, q);
    }
    forall q: PageNo, x: Index ensures IsLeaf(ram', own', q, x) {
      assert IsLeaf(ram, own, q, x) && HangsUp(ram, own, q);
    }
  }
}
