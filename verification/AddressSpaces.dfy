/** What every map translates: the direct map of physical memory in the upper half, and at most one
    page, its own, in the lower half. */
module AddressSpaces {
  import opened Bits
  import opened MemoryLayout
  import opened PageTables
  import opened MapGrowth
  import opened MapRelease
  import opened Wrappers

  const KERNEL_VPN := 0x400_0000
  const USER_VPN := 2
  const KERNEL_ATTR := 3
  const USER_ATTR := 7

  /** The path of a page mapped at virtual page `m` to the physical page `p`, with the same attributes on all levels. */
  ghost predicate PathTo(w: Option<Path>, p: nat, attr: nat) {
    && w.Some? && p < PAGES && attr < LARGE
    && w.value.e2 == LeafEntry(PagePhysical(p), attr)
    && w.value.e4 % PAGE_SIZE == attr && w.value.e3 % PAGE_SIZE == attr
  }

  /** The translation of virtual page `m` in the map rooted in `r`, when `pages` pages are direct-mapped. */
  ghost predicate SpaceAt(ram: Ram, own: Owners, r: PageNo, pages: nat, m: nat)
    requires m < VPN_LIMIT
  {
    if m >= KERNEL_VPN then
      if m - KERNEL_VPN < pages then PathTo(WalkVpn(ram, r, m), m - KERNEL_VPN, KERNEL_ATTR)
        else WalkVpn(ram, r, m) == None
    else if m == USER_VPN then
      PageRecorded(ram, own, r, m) &&
      if WalkVpn(ram, r, m).Some?
      then PathTo(WalkVpn(ram, r, m), WalkVpn(ram, r, m).value.e2 / PAGE_SIZE, USER_ATTR)
      else ram[r][0] % 2 == 0
    else
      WalkVpn(ram, r, m) == None
  }

  ghost predicate Space(ram: Ram, own: Owners, r: PageNo, pages: nat) {
    forall m: nat | m < VPN_LIMIT :: SpaceAt(ram, own, r, pages, m)
  }

  ghost predicate UserPageOk(own: Owners, c: PageNo) {
    own[c].UserPage? ==> own[c].vpn == USER_VPN && own[own[c].root].Root?
  }

  /** All maps are address spaces, and every user page belongs to one of them. */
  ghost predicate SpacesOk(ram: Ram, own: Owners, pages: nat) {
    && (forall r: PageNo :: own[r].Root? ==> Space(ram, own, r, pages))
    && (forall c: PageNo :: UserPageOk(own, c))
  }

  predicate UserMapped(ram: Ram, r: PageNo) { WalkVpn(ram, r, USER_VPN).Some? }

  /** The page mapped at USER_BASE. */
  function UserPageOf(ram: Ram, r: PageNo): nat
    requires UserMapped(ram, r)
  {
    WalkVpn(ram, r, USER_VPN).value.e2 / PAGE_SIZE
  }

  predicate HasUserPage(ram: Ram, r: PageNo) { UserMapped(ram, r) && UserPageOf(ram, r) < PAGES }

  // ----- Meaning for virtual addresses -----

  /** Kernel addresses translate to themselves minus KERNEL_BASE, writable and out of reach of user mode. */
  lemma KernelHalf(ram: Ram, own: Owners, r: PageNo, pages: nat, v: Word)
    requires Shape(ram, own) && own[r].Root? && Space(ram, own, r, pages)
    requires KERNEL_BASE <= v < KERNEL_BASE + pages * PAGE_SIZE && pages <= PAGES
    ensures
      var w := Walk(ram, PagePhysical(r), v);
      w.Some? && Target(w.value, v) == VirToPhy(v) && WriteAccess(w.value) && !UserAccess(w.value)
  {
    WalkByPages(ram, own, r, v);
    var k := (v - KERNEL_BASE) / PAGE_SIZE;
    KernelVpn(v);
    assert SpaceAt(ram, own, r, pages, Vpn(v));
    var path := WalkVpn(ram, r, Vpn(v)).value;
    LeafTarget(k, KERNEL_ATTR, v);
    AttributeBits(path.e2, KERNEL_ATTR + LARGE);
    AttributeBits(path.e3, KERNEL_ATTR);
    AttributeBits(path.e4, KERNEL_ATTR);
  }

  lemma KernelVpn(v: Word)
    requires v >= KERNEL_BASE
    ensures Vpn(v) == KERNEL_VPN + (v - KERNEL_BASE) / PAGE_SIZE
    ensures VirToPhy(v) == (v - KERNEL_BASE) / PAGE_SIZE * PAGE_SIZE + v % PAGE_SIZE
  {
    var k, f := (v - KERNEL_BASE) / PAGE_SIZE, (v - KERNEL_BASE) % PAGE_SIZE;
    QuotientUnique(v, PAGE_SIZE, 0x7FF_FC00_0000 + k, f);
    QuotientUnique(0x7FF_FC00_0000 + k, VPN_LIMIT, 0xFFFF, KERNEL_VPN + k);
  }

  lemma LeafTarget(p: PageNo, attr: nat, v: Word)
    requires attr < LARGE
    ensures PageAddress(LeafEntry(PagePhysical(p), attr)) == p * PAGE_SIZE
    ensures LeafEntry(PagePhysical(p), attr) % PAGE_SIZE == attr + LARGE
      && LeafEntry(PagePhysical(p), attr) / PAGE_SIZE == p
  {
    QuotientUnique(p * PAGE_SIZE + attr + LARGE, PAGE_SIZE, p, attr + LARGE);
  }

  lemma AttributeBits(e: Word, attr: nat)
    requires e % PAGE_SIZE == attr && attr < 2 * LARGE
    ensures Bit(e, WRITABLE) <==> attr / 2 % 2 == 1
    ensures Bit(e, USER) <==> attr / 4 % 2 == 1
  {
    var q := e / PAGE_SIZE;
    assert e == q * PAGE_SIZE + attr;
    var h, k := 0x10_0000 * q + attr / 2, 0x8_0000 * q + attr / 4;
    QuotientUnique(e, 2, h, attr % 2);
    QuotientUnique(h, 2, 0x8_0000 * q + attr / 2 / 2, attr / 2 % 2);
    QuotientUnique(e, 4, k, attr % 4);
    QuotientUnique(k, 2, 0x4_0000 * q + attr / 4 / 2, attr / 4 % 2);
  }

  /** What is mapped at USER_BASE is recorded as the user page of the map. */
  lemma SpaceRecords(ram: Ram, own: Owners, r: PageNo, pages: nat)
    requires Space(ram, own, r, pages)
    ensures PageRecorded(ram, own, r, USER_VPN)
  {
    assert SpaceAt(ram, own, r, pages, USER_VPN);
  }

  /** User mode reaches exactly the addresses of the user page, through no other path. */
  lemma UserHalf(ram: Ram, own: Owners, r: PageNo, pages: nat, v: Word)
    requires Shape(ram, own) && own[r].Root? && Space(ram, own, r, pages) && pages <= PAGES
    ensures
      var w := Walk(ram, PagePhysical(r), v);
      (w.Some? && UserAccess(w.value) <==> UserMapped(ram, r) && Vpn(v) == USER_VPN) &&
      (w.Some? && UserAccess(w.value) ==>
        UserPageOf(ram, r) < PAGES && own[UserPageOf(ram, r)] == UserPage(r, USER_VPN) && WriteAccess(w.value)
        && Target(w.value, v) == UserPageOf(ram, r) * PAGE_SIZE + v % PAGE_SIZE)
  {
    WalkByPages(ram, own, r, v);
    var m := Vpn(v);
    assert SpaceAt(ram, own, r, pages, m);
    var w := WalkVpn(ram, r, m);
    if w.Some? {
      var path := w.value;
      if m == USER_VPN {
        LeafTarget(path.e2 / PAGE_SIZE, USER_ATTR, v);
        AttributeBits(path.e2, USER_ATTR + LARGE);
        AttributeBits(path.e3, USER_ATTR);
        AttributeBits(path.e4, USER_ATTR);
      } else {
        AttributeBits(path.e4, KERNEL_ATTR);
      }
    }
  }

  /** Isolation: what user mode can reach in two different maps never meets in physical memory, and
      it is never a page table, a free page or a kernel stack. */
  lemma Isolation(ram: Ram, own: Owners, pages: nat, r: PageNo, s: PageNo, v: Word, w: Word)
    requires Shape(ram, own) && SpacesOk(ram, own, pages) && pages <= PAGES && own[r].Root? && own[s].Root? && r != s
    requires Walk(ram, PagePhysical(r), v).Some? && UserAccess(Walk(ram, PagePhysical(r), v).value)
    requires Walk(ram, PagePhysical(s), w).Some? && UserAccess(Walk(ram, PagePhysical(s), w).value)
    ensures Target(Walk(ram, PagePhysical(r), v).value, v) / PAGE_SIZE != Target(Walk(ram, PagePhysical(s), w).value,
      w) / PAGE_SIZE
    ensures Target(Walk(ram, PagePhysical(r), v).value, v) / PAGE_SIZE < PAGES
    ensures own[Target(Walk(ram, PagePhysical(r), v).value, v) / PAGE_SIZE].UserPage?
  {
    UserHalf(ram, own, r, pages, v);
    UserHalf(ram, own, s, pages, w);
    var p, q := UserPageOf(ram, r), UserPageOf(ram, s);
    QuotientUnique(p * PAGE_SIZE + v % PAGE_SIZE, PAGE_SIZE, p, v % PAGE_SIZE);
    QuotientUnique(q * PAGE_SIZE + w % PAGE_SIZE, PAGE_SIZE, q, w % PAGE_SIZE);
  }

  // ----- Frames -----

  /** A space is kept while its tables and the record of its user page are. */
  lemma SpaceFrame(a: Snapshot, b: Snapshot, r: PageNo, pages: nat)
    requires Shape(a.ram, a.own) && a.own[r].Root? && Space(a.ram, a.own, r, pages)
    requires forall p: PageNo :: InTree(a.own, r, p) ==> b.ram[p] == a.ram[p]
    requires forall p: PageNo :: b.own[p] == UserPage(r, USER_VPN) <==> a.own[p] == UserPage(r, USER_VPN)
    ensures Space(b.ram, b.own, r, pages)
  {
    WalkFrame(a.ram, a.own, b.ram, r);
    assert InTree(a.own, r, r);
    forall m: nat | m < VPN_LIMIT ensures SpaceAt(b.ram, b.own, r, pages, m) {
      assert SpaceAt(a.ram, a.own, r, pages, m);
      assert WalkVpn(b.ram, r, m) == WalkVpn(a.ram, r, m);
    }
  }

  /** Pages taken for one map: its tables and its user page, all free before. */
  ghost predicate TookPage(a: Owners, b: Owners, r: PageNo, p: PageNo) {
    b[p] == a[p] || (a[p] == Free && (InTree(b, r, p) || b[p] == UserPage(r, USER_VPN)))
  }

  ghost predicate KeptContent(a: Snapshot, b: Snapshot, r: PageNo, p: PageNo) {
    a.own[p] == Free || InTree(a.own, r, p) || b.ram[p] == a.ram[p]
  }

  ghost predicate Took(a: Snapshot, b: Snapshot, r: PageNo) {
    && IsSuffix(b.free, a.free)
    && (forall p: PageNo :: TookPage(a.own, b.own, r, p))
    && (forall p: PageNo :: KeptContent(a, b, r, p))
  }

  /** Every page of the map went back to the free list; nothing else changed. */
  ghost predicate DroppedPage(a: Snapshot, b: Snapshot, r: PageNo, p: PageNo) {
    && b.own[p] == (if InTree(a.own, r, p) || a.own[p] == UserPage(r, USER_VPN) then Free else a.own[p])
    && (b.own[p] != Free ==> b.ram[p] == a.ram[p])
  }

  ghost predicate Dropped(a: Snapshot, b: Snapshot, r: PageNo) {
    forall p: PageNo :: DroppedPage(a, b, r, p)
  }

  ghost predicate SamePage(a: Snapshot, b: Snapshot, p: PageNo) {
    b.own[p] == a.own[p] && (a.own[p] != Free ==> b.ram[p] == a.ram[p])
  }

  /** The same pages are in use for the same purpose and hold the same; only free pages may differ. */
  ghost predicate SameUse(a: Snapshot, b: Snapshot) {
    forall p: PageNo :: SamePage(a, b, p)
  }

  lemma TookKeepsSpace(a: Snapshot, b: Snapshot, r: PageNo, s: PageNo, pages: nat)
    requires Shape(a.ram, a.own) && SpacesOk(a.ram, a.own, pages) && Took(a, b, r)
    requires a.own[s].Root? && s != r && (a.own[r].Root? || a.own[r] == Free) && b.own[r].Root?
    ensures b.own[s] == a.own[s] && Space(b.ram, b.own, s, pages)
  {
    assert TookPage(a.own, b.own, r, s);
    assert Space(a.ram, a.own, s, pages);
    forall p: PageNo | InTree(a.own, s, p) ensures b.ram[p] == a.ram[p] {
      assert KeptContent(a, b, r, p);
      if InTree(a.own, r, p) {
        if a.own[r].Root? { TreesDisjoint(a.own, r, s, p); }
      }
    }
    forall p: PageNo ensures b.own[p] == UserPage(s, USER_VPN) <==> a.own[p] == UserPage(s, USER_VPN) {
      assert TookPage(a.own, b.own, r, p);
    }
    SpaceFrame(a, b, s, pages);
  }

  /** Building one map leaves all others alone. */
  lemma TookKeepsSpaces(a: Snapshot, b: Snapshot, r: PageNo, pages: nat)
    requires Shape(a.ram, a.own) && SpacesOk(a.ram, a.own, pages) && Took(a, b, r)
    requires (a.own[r].Root? || a.own[r] == Free) && b.own[r].Root? && Space(b.ram, b.own, r, pages)
    ensures SpacesOk(b.ram, b.own, pages)
  {
    forall s: PageNo | b.own[s].Root? ensures Space(b.ram, b.own, s, pages) {
      assert TookPage(a.own, b.own, r, s);
      if s != r { TookKeepsSpace(a, b, r, s, pages); }
    }
    forall c: PageNo ensures UserPageOk(b.own, c) {
      assert UserPageOk(a.own, c) && TookPage(a.own, b.own, r, c);
      if b.own[c].UserPage? { assert TookPage(a.own, b.own, r, b.own[c].root); }
    }
  }

  /** Dropping one map leaves all others alone. */
  lemma DroppedKeepsSpaces(a: Snapshot, b: Snapshot, r: PageNo, pages: nat)
    requires Shape(a.ram, a.own) && SpacesOk(a.ram, a.own, pages) && Dropped(a, b, r) && a.own[r].Root?
    ensures SpacesOk(b.ram, b.own, pages)
  {
    forall s: PageNo | b.own[s].Root? ensures Space(b.ram, b.own, s, pages) {
      assert DroppedPage(a, b, r, s) && DroppedPage(a, b, r, r);
      assert Space(a.ram, a.own, s, pages);
      forall p: PageNo | InTree(a.own, s, p) ensures b.ram[p] == a.ram[p] {
        assert DroppedPage(a, b, r, p);
        if InTree(a.own, r, p) { TreesDisjoint(a.own, r, s, p); }
      }
      forall p: PageNo ensures b.own[p] == UserPage(s, USER_VPN) <==> a.own[p] == UserPage(s, USER_VPN) {
        assert DroppedPage(a, b, r, p);
      }
      SpaceFrame(a, b, s, pages);
    }
    forall c: PageNo ensures UserPageOk(b.own, c) {
      assert UserPageOk(a.own, c) && DroppedPage(a, b, r, c);
      if b.own[c].UserPage? { assert DroppedPage(a, b, r, b.own[c].root); }
    }
  }

  lemma SameUseKeepsAll(a: Snapshot, b: Snapshot, pages: nat)
    requires Shape(a.ram, a.own) && SameUse(a, b)
    ensures b.own == a.own
    ensures Shape(b.ram, b.own)
    ensures SpacesOk(a.ram, a.own, pages) ==> SpacesOk(b.ram, b.own, pages)
  {
    forall p: PageNo ensures b.own[p] == a.own[p] && (a.own[p] != Free ==> b.ram[p] == a.ram[p]) {
      assert SamePage(a, b, p);
    }
    ShapeFrame(a.ram, a.own, b.ram, b.own);
    if SpacesOk(a.ram, a.own, pages) {
      forall s: PageNo | b.own[s].Root? ensures Space(b.ram, b.own, s, pages) {
        assert Space(a.ram, a.own, s, pages);
        SpaceFrame(a, b, s, pages);
      }
      forall c: PageNo ensures UserPageOk(b.own, c) { assert UserPageOk(a.own, c); }
    }
  }
}
