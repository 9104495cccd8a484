/** What SetupKVM, SetupUVM, CopyUVM and FreeVM achieve, put together from the steps they take. */
module MapConstruction {
  import opened Bits
  import opened MemoryLayout
  import opened PageTables
  import opened MapGrowth
  import opened MapRelease
  import opened AddressSpaces
  import opened Wrappers

  /** FreeVM gives back exactly the tables of the map and its user page. */
  lemma ReturnedIsDropped(a: Snapshot, b: Snapshot, r: PageNo)
    requires Returned(a, b, TablesOf(a.own, r) + MappedAt(a.own, r, USER_VPN), r)
    ensures Dropped(a, b, r)
  {
    var gone := TablesOf(a.own, r) + MappedAt(a.own, r, USER_VPN);
    forall p: PageNo ensures DroppedPage(a, b, r, p) {
      assert UseAfter(a.own, b.own, gone, p) && ContentAfter(a, b, gone, r, p);
    }
  }

  lemma UserRange(own: Owners, r: PageNo)
    ensures Vpn(USER_BASE) == USER_VPN
    ensures forall m: nat | m < VPN_LIMIT :: PositionInRange(USER_VPN, m) < 1 <==> m == USER_VPN
    ensures (forall c: PageNo :: own[c] == UserPage(r, USER_VPN) ==> c in UserPagesBelow(own, r, USER_VPN, 1))
    ensures UserPagesBelow(own, r, USER_VPN, 1) == MappedAt(own, r, USER_VPN)
  {
    forall m: nat | m < VPN_LIMIT ensures PositionInRange(USER_VPN, m) < 1 <==> m == USER_VPN {
      PositionRoundTrip(USER_VPN, m, 0);
    }
    PositionRoundTrip(USER_VPN, USER_VPN, 0);
  }

  /** The last step of FreeVM: the root page itself, once no table hangs from it. */
  lemma RootReturned(d: Snapshot, r: PageNo, link: Word)
    requires Shape(d.ram, d.own) && d.own[r].Root? && forall c: PageNo :: d.own[c].Table? ==> d.own[c].parent != r
    ensures
      var e := Snapshot(Store(d.ram, r, 0, link), Assign(d.own, r, Free), [r] + d.free);
      Shape(e.ram, e.own) && Returned(d, e, {r}, r)
  {
    var e := Snapshot(Store(d.ram, r, 0, link), Assign(d.own, r, Free), [r] + d.free);
    assert e.free[1..] == d.free;
    forall p: PageNo, i: Index ensures LeadsDown(e.ram, e.own, p, i) && IsLeaf(e.ram, e.own, p, i) {
      assert LeadsDown(d.ram, d.own, p, i) && IsLeaf(d.ram, d.own, p, i);
    }
    forall c: PageNo ensures HangsUp(e.ram, e.own, c) { assert HangsUp(d.ram, d.own, c); }
    forall p: PageNo ensures UseAfter(d.own, e.own, {r}, p) && ContentAfter(d, e, {r}, r, p) { }
  }

  /** The four steps of FreeVM together give back the user page and all tables. */
  lemma AllPagesOfMap(a: Snapshot, b: Snapshot, c: Snapshot, d: Snapshot, e: Snapshot, r: PageNo)
    requires Shape(a.ram, a.own) && Shape(b.ram, b.own) && a.own[r].Root?
    requires Returned(a, b, MappedAt(a.own, r, USER_VPN), r)
    requires Returned(b, c, DirectoriesBelow(b.own, r, ENTRIES), r)
    requires Returned(c, d, ChildrenBelow(c.own, r, ENTRIES), r)
    requires Returned(d, e, {r}, r)
    ensures Returned(a, e, TablesOf(a.own, r) + MappedAt(a.own, r, USER_VPN), r)
  {
    var u, g, h := MappedAt(a.own, r, USER_VPN), DirectoriesBelow(b.own, r, ENTRIES), ChildrenBelow(c.own, r, ENTRIES);
    assert UseAfter(a.own, b.own, u, r);
    ReturnedTransitive(a, b, c, u, g, r);
    ReturnedTransitive(a, c, d, u + g, h, r);
    ReturnedTransitive(a, d, e, u + g + h, {r}, r);
    AllTables(b, c, r);
    forall p: PageNo ensures p in TablesOf(b.own, r) <==> p in TablesOf(a.own, r) {
      assert UseAfter(a.own, b.own, u, p);
      if a.own[p].Table? { assert UseAfter(a.own, b.own, u, a.own[p].parent); }
    }
    assert u + g + h + {r} == TablesOf(a.own, r) + u;
  }

  /** The state after the first free page was cleared and made the root of a map. */
  ghost function RootFirst(a: Snapshot, who: nat): Snapshot
    requires a.free != []
  {
    Snapshot(Clear(a.ram, a.free[0]), Assign(a.own, a.free[0], Root(who)), a.free[1..])
  }

  lemma NewRoot(a: Snapshot, who: nat, pages: nat)
    requires Shape(a.ram, a.own) && SpacesOk(a.ram, a.own, pages) && a.free != [] && a.own[a.free[0]] == Free
    ensures
      var b, r := RootFirst(a, who), a.free[0];
      && Shape(b.ram, b.own)
      && (forall p: PageNo :: InTree(b.own, r, p) ==> p == r)
      && (forall i: Index, j: Index, k: Index :: WalkAt(b.ram, r, i, j, k) == None)
      && (forall c: PageNo, m: nat :: a.own[c] != UserPage(r, m))
  {
    var b, r := RootFirst(a, who), a.free[0];
    forall p: PageNo, i: Index ensures LeadsDown(b.ram, b.own, p, i) && IsLeaf(b.ram, b.own, p, i) {
      assert LeadsDown(a.ram, a.own, p, i) && IsLeaf(a.ram, a.own, p, i);
    }
    forall c: PageNo ensures HangsUp(b.ram, b.own, c) && (InTree(b.own, r, c) ==> c == r) {
      assert HangsUp(a.ram, a.own, c);
      if a.own[c].Table? { assert HangsUp(a.ram, a.own, a.own[c].parent); }
    }
    forall c: PageNo, m: nat ensures a.own[c] != UserPage(r, m) {
      assert UserPageOk(a.own, c);
    }
  }

  /** Upper-level entries of paths that did not exist before carry the attributes asked for. */
  lemma NewPathAttributes(a: Snapshot, b: Snapshot, r: PageNo, attr: nat, slots: set<Index>, i: Index, j: Index,
      k: Index)
    requires Shape(a.ram, a.own) && Shape(b.ram, b.own) && a.own[r].Root? && Grown(a, b, r, attr, slots)
    requires a.ram[r][i] % 2 == 0 && WalkAt(b.ram, r, i, j, k).Some?
    ensures WalkAt(b.ram, r, i, j, k).value.e4 % PAGE_SIZE == attr
      && WalkAt(b.ram, r, i, j, k).value.e3 % PAGE_SIZE == attr
  {
    assert KeptOrTaken(a.own, b.own, r, r);
    WalkShape(b.ram, b.own, r, i, j, k);
    assert KeptOrNew(a, b, attr, slots, r, i);
    var q := b.ram[r][i] / PAGE_SIZE;
    assert KeptOrTaken(a.own, b.own, r, q) && KeptOrNew(a, b, attr, slots, q, j) && HangsUp(a.ram, a.own, q);
  }

  /** Growing a map takes pages for it. */
  lemma GrownTakes(a: Snapshot, a1: Snapshot, b: Snapshot, r: PageNo, attr: nat, slots: set<Index>)
    requires Took(a, a1, r) && Grown(a1, b, r, attr, slots) && a1.own[r].Root? && a.own[r] == Free
    requires forall p: PageNo :: InTree(a1.own, r, p) ==> p == r
    requires forall p: PageNo :: a1.own[p] == a.own[p] || p == r
    requires Shape(a1.ram, a1.own)
    ensures Took(a, b, r) && b.own[r] == a1.own[r]
  {
    assert KeptOrTaken(a1.own, b.own, r, r);
    SuffixTransitive(b.free, a1.free, a.free);
    forall p: PageNo ensures TookPage(a.own, b.own, r, p) && KeptContent(a, b, r, p) {
      assert KeptOrTaken(a1.own, b.own, r, p) && KeptOrWritten(a1.ram, b.ram, b.own, r, p);
      assert TookPage(a.own, a1.own, r, p) && KeptContent(a, a1, r, p);
      if InTree(b.own, r, p) && a.own[p] != Free {
        assert b.own[p] == a1.own[p] == a.own[p] && p != r;
        assert KeptOrTaken(a1.own, b.own, r, a1.own[p].parent);
        TablesOfNewRoot(a1, b, r, attr, slots, p);
      }
    }
  }

  /** A table that was in use before does not belong to a new root. */
  lemma TablesOfNewRoot(a1: Snapshot, b: Snapshot, r: PageNo, attr: nat, slots: set<Index>, p: PageNo)
    requires Grown(a1, b, r, attr, slots) && a1.own[r].Root? && Shape(a1.ram, a1.own)
    requires b.own[p].Table? && b.own[p] == a1.own[p] && InTree(b.own, r, p)
    ensures InTree(a1.own, r, p)
  {
    assert HangsUp(a1.ram, a1.own, p);
    assert KeptOrTaken(a1.own, b.own, r, b.own[p].parent);
  }

  /** The finished kernel map. */
  lemma KernelMapBuilt(a: Snapshot, b: Snapshot, who: nat, pages: nat)
    requires Shape(a.ram, a.own) && SpacesOk(a.ram, a.own, pages) && pages <= PAGES
    requires a.free != [] && a.own[a.free[0]] == Free
    requires var r := a.free[0];
      Grown(RootFirst(a, who), b, r, KERNEL_ATTR, SlotsOf(KERNEL_VPN, pages)) && Shape(b.ram, b.own) &&
      MapsRange(RootFirst(a, who).ram, b.ram, r, KERNEL_VPN, pages, 0, KERNEL_ATTR)
    ensures b.own[a.free[0]] == Root(who) && Took(a, b, a.free[0])
    ensures Space(b.ram, b.own, a.free[0], pages) && !UserMapped(b.ram, a.free[0])
    ensures SpacesOk(b.ram, b.own, pages)
  {
    var r, a1 := a.free[0], RootFirst(a, who);
    NewRoot(a, who, pages);
    RootTaken(a, who);
    GrownTakes(a, a1, b, r, KERNEL_ATTR, SlotsOf(KERNEL_VPN, pages));
    forall m: nat | m < VPN_LIMIT ensures SpaceAt(b.ram, b.own, r, pages, m) {
      KernelSpaceAt(a, b, who, pages, m);
    }
    TookKeepsSpaces(a, b, r, pages);
    assert SpaceAt(b.ram, b.own, r, pages, USER_VPN);
    KernelSpaceAt(a, b, who, pages, USER_VPN);
  }

  lemma SameAsBefore(a: Snapshot, b: Snapshot)
    requires b.ram == a.ram && b.own == a.own
    ensures SameUse(a, b)
  {
    forall p: PageNo ensures SamePage(a, b, p) { }
  }

  lemma RootTaken(a: Snapshot, who: nat)
    requires a.free != [] && a.own[a.free[0]] == Free
    ensures Took(a, RootFirst(a, who), a.free[0])
  {
    var b, r := RootFirst(a, who), a.free[0];
    forall p: PageNo ensures TookPage(a.own, b.own, r, p) && KeptContent(a, b, r, p) { }
  }

  lemma KernelSpaceAt(a: Snapshot, b: Snapshot, who: nat, pages: nat, m: nat)
    requires Shape(a.ram, a.own) && SpacesOk(a.ram, a.own, pages) && pages <= PAGES && m < VPN_LIMIT
    requires a.free != [] && a.own[a.free[0]] == Free
    requires var r := a.free[0];
      Grown(RootFirst(a, who), b, r, KERNEL_ATTR, SlotsOf(KERNEL_VPN, pages)) && Shape(b.ram, b.own) &&
      MapsRange(RootFirst(a, who).ram, b.ram, r, KERNEL_VPN, pages, 0, KERNEL_ATTR)
    ensures SpaceAt(b.ram, b.own, a.free[0], pages, m)
    ensures m == USER_VPN ==> WalkVpn(b.ram, a.free[0], m) == None
  {
    var r, a1, k := a.free[0], RootFirst(a, who), PositionInRange(KERNEL_VPN, m);
    NewRoot(a, who, pages);
    assert PageMapped(a1.ram, b.ram, r, m, k, pages, 0, KERNEL_ATTR);
    if k < pages {
      assert m == KERNEL_VPN + k;
      NewPathAttributes(a1, b, r, KERNEL_ATTR, SlotsOf(KERNEL_VPN, pages), m / 0x4_0000, m / 512 % 512, m % 512);
    } else if m == USER_VPN {
      forall c: PageNo ensures b.own[c] != UserPage(r, m) {
        assert KeptOrTaken(a1.own, b.own, r, c);
      }
      assert KeptOrTaken(a1.own, b.own, r, r) && KeptOrNew(a1, b, KERNEL_ATTR, SlotsOf(KERNEL_VPN, pages), r, 0);
      KernelSlots(pages);
    }
  }

  lemma KernelSlots(pages: nat)
    requires pages <= PAGES
    ensures forall i :: i in SlotsOf(KERNEL_VPN, pages) ==> i == 256
  {
    forall k: nat | k < pages ensures PageOfRange(KERNEL_VPN, k) / 0x4_0000 == 256 { }
  }

  /** However far the mapping got, the unfinished kernel map has no user page. */
  lemma KernelMapPartial(a: Snapshot, b: Snapshot, who: nat, pages: nat, mapped: nat)
    requires Shape(a.ram, a.own) && SpacesOk(a.ram, a.own, pages) && mapped <= pages <= PAGES
    requires a.free != [] && a.own[a.free[0]] == Free
    requires var r := a.free[0];
      Grown(RootFirst(a, who), b, r, KERNEL_ATTR, SlotsOf(KERNEL_VPN, pages)) &&
      MapsRange(RootFirst(a, who).ram, b.ram, r, KERNEL_VPN, mapped, 0, KERNEL_ATTR)
    ensures b.own[a.free[0]] == Root(who) && PageRecorded(b.ram, b.own, a.free[0], USER_VPN)
  {
    var r, a1 := a.free[0], RootFirst(a, who);
    NewRoot(a, who, pages);
    assert KeptOrTaken(a1.own, b.own, r, r);
    assert PageMapped(a1.ram, b.ram, r, USER_VPN, PositionInRange(KERNEL_VPN, USER_VPN), mapped, 0, KERNEL_ATTR);
    forall c: PageNo ensures b.own[c] != UserPage(r, USER_VPN) {
      assert KeptOrTaken(a1.own, b.own, r, c);
    }
  }

  /** The range that SetupKVM maps. */
  lemma KernelRange(end: Word, pages: nat)
    requires Aligned(end) && KERNEL_BASE < end <= VIRTUAL_END && pages == (end - KERNEL_BASE) / PAGE_SIZE
    ensures 1 <= pages <= PAGES && PagesCovering(KERNEL_BASE, end) == pages && Vpn(KERNEL_BASE) == KERNEL_VPN
    ensures AlignDown(KERNEL_BASE) == KERNEL_BASE && AlignUp(end) == end && VirToPhy(KERNEL_BASE) == 0
  {
  }

  /** A kernel map that could not be finished and was freed again leaves no trace. */
  lemma KernelMapUndone(a: Snapshot, b: Snapshot, c: Snapshot, who: nat, pages: nat)
    requires Shape(a.ram, a.own) && SpacesOk(a.ram, a.own, pages)
    requires a.free != [] && a.own[a.free[0]] == Free
    requires var r := a.free[0];
      Grown(RootFirst(a, who), b, r, KERNEL_ATTR, SlotsOf(KERNEL_VPN, pages)) && Dropped(b, c, r)
    ensures SameUse(a, c)
  {
    var r, a1 := a.free[0], RootFirst(a, who);
    NewRoot(a, who, pages);
    RootTaken(a, who);
    GrownTakes(a, a1, b, r, KERNEL_ATTR, SlotsOf(KERNEL_VPN, pages));
    forall p: PageNo ensures SamePage(a, c, p) {
      assert DroppedPage(b, c, r, p) && TookPage(a.own, b.own, r, p) && KeptContent(a, b, r, p);
      assert KeptOrTaken(a1.own, b.own, r, p);
      if a.own[p] != Free {
        if InTree(b.own, r, p) { TablesOfNewRoot(a1, b, r, KERNEL_ATTR, SlotsOf(KERNEL_VPN, pages), p); }
        if InTree(a.own, r, p) { NewRootHasNoTables(a, who, p); }
      }
    }
  }

  lemma NewRootHasNoTables(a: Snapshot, who: nat, p: PageNo)
    requires Shape(a.ram, a.own) && a.free != [] && a.own[a.free[0]] == Free && InTree(a.own, a.free[0], p)
    ensures p == a.free[0]
  {
    TreeAbove(a.ram, a.own, p);
  }

  // ----- The user page -----

  /** The state after the first free page was taken and cleared. */
  ghost function PageFirst(a: Snapshot): Snapshot
    requires a.free != []
  {
    Snapshot(Clear(a.ram, a.free[0]), Assign(a.own, a.free[0], Kernel), a.free[1..])
  }

  lemma PageTaken(a: Snapshot, r: PageNo)
    requires Shape(a.ram, a.own) && a.own[r].Root? && a.free != [] && a.own[a.free[0]] == Free
    ensures var b := PageFirst(a);
      Shape(b.ram, b.own) && SameWalks(a.ram, b.ram, r) && b.own[r] == a.own[r] && b.ram[r] == a.ram[r]
      && forall p: PageNo :: InTree(b.own, r, p) <==> InTree(a.own, r, p)
  {
    var b := PageFirst(a);
    ShapeFrame(a.ram, a.own, b.ram, b.own);
    WalkFrame(a.ram, a.own, b.ram, r);
    forall p: PageNo ensures InTree(b.own, r, p) <==> InTree(a.own, r, p) {
      assert HangsUp(a.ram, a.own, p);
    }
  }

  /** The record after the page became the user page of the map. */
  ghost function UserAdded(b: Snapshot, u: PageNo, r: PageNo): Snapshot {
    Snapshot(b.ram, Assign(b.own, u, UserPage(r, USER_VPN)), b.free)
  }

  lemma UserPageTaken(a: Snapshot, b: Snapshot, r: PageNo)
    requires Shape(a.ram, a.own) && a.own[r].Root? && a.free != [] && a.own[a.free[0]] == Free
    requires Grown(PageFirst(a), b, r, USER_ATTR, SlotsOf(USER_VPN, 1))
    ensures b.own[a.free[0]] == Kernel && b.ram[a.free[0]] == ZeroPage() && b.own[r] == a.own[r]
    ensures Took(a, UserAdded(b, a.free[0], r), r)
  {
    var u, a1, c := a.free[0], PageFirst(a), UserAdded(b, a.free[0], r);
    PageTaken(a, r);
    assert KeptOrTaken(a1.own, b.own, r, u) && KeptOrTaken(a1.own, b.own, r, r)
      && KeptOrWritten(a1.ram, b.ram, b.own, r, u);
    SuffixTransitive(b.free, a1.free, a.free);
    forall p: PageNo ensures TookPage(a.own, c.own, r, p) && KeptContent(a, c, r, p) {
      assert KeptOrTaken(a1.own, b.own, r, p) && KeptOrWritten(a1.ram, b.ram, b.own, r, p);
      if InTree(b.own, r, p) {
        if a.own[p] != Free && p != r { TablesOfNewRoot(a1, b, r, USER_ATTR, SlotsOf(USER_VPN, 1), p); }
        InTreeFrame(b.own, c.own, r, p, u);
      }
    }
  }

  lemma InTreeFrame(a: Owners, b: Owners, r: PageNo, p: PageNo, u: PageNo)
    requires InTree(a, r, p) && !IsTable(a[u]) && b == Assign(a, u, b[u]) && r != u
    ensures InTree(b, r, p)
  {
  }

  /** The finished user half. */
  lemma UserMapBuilt(a: Snapshot, b: Snapshot, r: PageNo, pages: nat)
    requires Shape(a.ram, a.own) && SpacesOk(a.ram, a.own, pages) && a.own[r].Root? && !UserMapped(a.ram, r)
    requires a.free != [] && a.own[a.free[0]] == Free
    requires Grown(PageFirst(a), b, r, USER_ATTR, SlotsOf(USER_VPN, 1)) && Shape(b.ram, b.own)
    requires MapsRange(PageFirst(a).ram, b.ram, r, USER_VPN, 1, PagePhysical(a.free[0]), USER_ATTR)
    ensures
      var u, c := a.free[0], UserAdded(b, a.free[0], r);
      && Shape(c.ram, c.own) && Took(a, c, r) && SpacesOk(c.ram, c.own, pages)
      && UserMapped(c.ram, r) && UserPageOf(c.ram, r) == u && c.ram[u] == ZeroPage()
  {
    var u, a1, c := a.free[0], PageFirst(a), UserAdded(b, a.free[0], r);
    PageTaken(a, r);
    UserPageTaken(a, b, r);
    ShapeFrame(b.ram, b.own, c.ram, c.own);
    forall m: nat | m < VPN_LIMIT ensures SpaceAt(c.ram, c.own, r, pages, m) {
      UserSpaceAt(a, b, r, pages, m);
    }
    UserSpaceAt(a, b, r, pages, USER_VPN);
    TookKeepsSpaces(a, c, r, pages);
  }

  lemma UserSpaceAt(a: Snapshot, b: Snapshot, r: PageNo, pages: nat, m: nat)
    requires Shape(a.ram, a.own) && SpacesOk(a.ram, a.own, pages) && a.own[r].Root? && !UserMapped(a.ram, r)
    requires a.free != [] && a.own[a.free[0]] == Free && m < VPN_LIMIT
    requires Grown(PageFirst(a), b, r, USER_ATTR, SlotsOf(USER_VPN, 1)) && Shape(b.ram, b.own)
    requires MapsRange(PageFirst(a).ram, b.ram, r, USER_VPN, 1, PagePhysical(a.free[0]), USER_ATTR)
    ensures SpaceAt(b.ram, UserAdded(b, a.free[0], r).own, r, pages, m)
    ensures m == USER_VPN ==> UserMapped(b.ram, r) && UserPageOf(b.ram, r) == a.free[0]
  {
    var u, a1, c := a.free[0], PageFirst(a), UserAdded(b, a.free[0], r);
    PageTaken(a, r);
    assert Space(a.ram, a.own, r, pages) && SpaceAt(a.ram, a.own, r, pages, m)
      && SpaceAt(a.ram, a.own, r, pages, USER_VPN);
    assert PageMapped(a1.ram, b.ram, r, m, PositionInRange(USER_VPN, m), 1, PagePhysical(u), USER_ATTR);
    assert WalkVpn(a1.ram, r, m) == WalkVpn(a.ram, r, m);
    if m == USER_VPN {
      NewPathAttributes(a1, b, r, USER_ATTR, SlotsOf(USER_VPN, 1), 0, 0, 2);
      LeafTarget(u, USER_ATTR, 0);
      forall p: PageNo ensures c.own[p] == UserPage(r, m) <==> p == u {
        assert KeptOrTaken(a1.own, b.own, r, p);
      }
    } else {
      PositionRoundTrip(USER_VPN, m, 0);
    }
  }

  /** A user page that could not be mapped: it and all tables of the map go back. */
  lemma UserMapUndone(a: Snapshot, b: Snapshot, c: Snapshot, d: Snapshot, r: PageNo, pages: nat)
    requires Shape(a.ram, a.own) && SpacesOk(a.ram, a.own, pages) && a.own[r].Root? && !UserMapped(a.ram, r)
    requires a.free != [] && a.own[a.free[0]] == Free
    requires Grown(PageFirst(a), b, r, USER_ATTR, SlotsOf(USER_VPN, 1))
    requires c.own == Assign(b.own, a.free[0], Free) && (forall p: PageNo :: p == a.free[0] || c.ram[p] == b.ram[p])
    requires Dropped(c, d, r)
    ensures Dropped(a, d, r)
  {
    var u, a1 := a.free[0], PageFirst(a);
    PageTaken(a, r);
    UserPageTaken(a, b, r);
    assert Space(a.ram, a.own, r, pages) && SpaceAt(a.ram, a.own, r, pages, USER_VPN);
    forall p: PageNo ensures DroppedPage(a, d, r, p) {
      assert DroppedPage(c, d, r, p) && KeptOrTaken(a1.own, b.own, r, p) && KeptOrWritten(a1.ram, b.ram, b.own, r, p);
      if InTree(a.own, r, p) {
        GrownKeepsTree(a1, b, r, USER_ATTR, SlotsOf(USER_VPN, 1), r, p);
        InTreeFrame(b.own, c.own, r, p, u);
      } else if InTree(b.own, r, p) {
        if a.own[p] != Free && p != r { TablesOfNewRoot(a1, b, r, USER_ATTR, SlotsOf(USER_VPN, 1), p); }
        InTreeFrame(b.own, c.own, r, p, u);
      }
    }
  }

  /** And then all other maps are as they were. */
  lemma UserMapGivenUp(a: Snapshot, b: Snapshot, c: Snapshot, d: Snapshot, r: PageNo, pages: nat)
    requires Shape(a.ram, a.own) && SpacesOk(a.ram, a.own, pages) && a.own[r].Root? && !UserMapped(a.ram, r)
    requires a.free != [] && a.own[a.free[0]] == Free
    requires Grown(PageFirst(a), b, r, USER_ATTR, SlotsOf(USER_VPN, 1))
    requires c.own == Assign(b.own, a.free[0], Free) && (forall p: PageNo :: p == a.free[0] || c.ram[p] == b.ram[p])
    requires Dropped(c, d, r)
    ensures Dropped(a, d, r) && SpacesOk(d.ram, d.own, pages)
  {
    UserMapUndone(a, b, c, d, r, pages);
    DroppedKeepsSpaces(a, d, r, pages);
  }

  /** Before FreeVM is called on a map without a user page, none is recorded. */
  lemma NoUserRecorded(a: Snapshot, b: Snapshot, ram': Ram, r: PageNo, pages: nat)
    requires Shape(a.ram, a.own) && SpacesOk(a.ram, a.own, pages) && a.own[r].Root? && !UserMapped(a.ram, r)
    requires a.free != [] && a.own[a.free[0]] == Free
    requires Grown(PageFirst(a), b, r, USER_ATTR, SlotsOf(USER_VPN, 1)) && Shape(b.ram, b.own)
    requires MapsRange(PageFirst(a).ram, b.ram, r, USER_VPN, 0, PagePhysical(a.free[0]), USER_ATTR)
    requires forall p: PageNo :: p == a.free[0] || ram'[p] == b.ram[p]
    ensures Shape(ram', Assign(b.own, a.free[0], Free))
      && PageRecorded(ram', Assign(b.own, a.free[0], Free), r, USER_VPN)
  {
    var u, a1, own' := a.free[0], PageFirst(a), Assign(b.own, a.free[0], Free);
    PageTaken(a, r);
    UserPageTaken(a, b, r);
    assert Space(a.ram, a.own, r, pages) && SpaceAt(a.ram, a.own, r, pages, USER_VPN);
    ShapeFrame(b.ram, b.own, ram', own');
    WalkFrame(b.ram, b.own, ram', r);
    assert PageMapped(a1.ram, b.ram, r, USER_VPN, PositionInRange(USER_VPN, USER_VPN), 0, PagePhysical(u), USER_ATTR);
    forall p: PageNo ensures own'[p] != UserPage(r, USER_VPN) {
      assert KeptOrTaken(a1.own, b.own, r, p);
    }
  }

  /** Writing into a page that is no table changes no map. */
  lemma ContentChange(a: Snapshot, b: Snapshot, u: PageNo, pages: nat)
    requires Shape(a.ram, a.own) && SpacesOk(a.ram, a.own, pages) && !IsTable(a.own[u]) && b.own == a.own
    requires forall p: PageNo :: p == u || b.ram[p] == a.ram[p]
    ensures Shape(b.ram, b.own) && SpacesOk(b.ram, b.own, pages)
    ensures forall r: PageNo :: a.own[r].Root? ==> SameWalks(a.ram, b.ram, r)
  {
    ShapeFrame(a.ram, a.own, b.ram, b.own);
    forall s: PageNo | a.own[s].Root? ensures Space(b.ram, b.own, s, pages) && SameWalks(a.ram, b.ram, s) {
      assert Space(a.ram, a.own, s, pages);
      WalkFrame(a.ram, a.own, b.ram, s);
      SpaceFrame(a, b, s, pages);
    }
    forall c: PageNo ensures UserPageOk(b.own, c) { assert UserPageOk(a.own, c); }
  }

  /** Putting a page that is neither a table nor a user page to another such use changes no map. */
  lemma OtherUse(a: Snapshot, b: Snapshot, u: PageNo, pages: nat)
    requires Shape(a.ram, a.own) && SpacesOk(a.ram, a.own, pages)
    requires !IsTable(a.own[u]) && !a.own[u].UserPage? && !IsTable(b.own[u]) && !b.own[u].UserPage?
    requires forall p: PageNo :: p == u || (b.own[p] == a.own[p] && b.ram[p] == a.ram[p])
    ensures Shape(b.ram, b.own) && SpacesOk(b.ram, b.own, pages)
  {
    ShapeFrame(a.ram, a.own, b.ram, b.own);
    forall s: PageNo | b.own[s].Root? ensures Space(b.ram, b.own, s, pages) {
      assert Space(a.ram, a.own, s, pages);
      SpaceFrame(a, b, s, pages);
    }
    forall c: PageNo ensures UserPageOk(b.own, c) { assert UserPageOk(a.own, c); }
  }

  /** The range that SetupUVM and CopyUVM map is one page, not yet mapped. */
  lemma UserRangeUnmapped(a: Snapshot, r: PageNo)
    requires Shape(a.ram, a.own) && a.own[r].Root? && a.free != [] && a.own[a.free[0]] == Free && !UserMapped(a.ram, r)
    ensures PagesCovering(USER_BASE, USER_BASE + PAGE_SIZE) == 1 && Vpn(USER_BASE) == USER_VPN
    ensures AlignDown(USER_BASE) == USER_BASE && AlignUp(USER_BASE + PAGE_SIZE) == USER_BASE + PAGE_SIZE
    ensures PageFirst(a).own[r] == a.own[r] && PageOfRange(USER_VPN, 0) == USER_VPN
    ensures WalkVpn(PageFirst(a).ram, r, USER_VPN) == None
  {
    PageTaken(a, r);
    assert WalkVpn(PageFirst(a).ram, r, USER_VPN) == WalkVpn(a.ram, r, USER_VPN);
  }

  /** Both tables of the user half are still missing in a map without user page. */
  lemma UserTablesMissing(a: Snapshot, r: PageNo, pages: nat)
    requires Shape(a.ram, a.own) && a.own[r].Root? && a.free != [] && a.own[a.free[0]] == Free && !UserMapped(a.ram, r)
    requires Space(a.ram, a.own, r, pages)
    ensures OneDirectory(USER_BASE, 1) && Missing(PageFirst(a).ram, r, Pml4Index(USER_BASE), PdptIndex(USER_BASE)) == 2
  {
    PageTaken(a, r);
    assert SpaceAt(a.ram, a.own, r, pages, USER_VPN);
  }

  /** So are those of the kernel half in an empty map. */
  lemma KernelTablesMissing(a: Snapshot, who: nat, pages: nat)
    requires a.free != [] && pages <= PAGES
    ensures OneDirectory(KERNEL_BASE, pages)
      && Missing(RootFirst(a, who).ram, a.free[0], Pml4Index(KERNEL_BASE), PdptIndex(KERNEL_BASE)) == 2
  {
    KernelVpn(KERNEL_BASE);
  }

  /** Filling the new user page is part of what was taken for the map. */
  lemma CopyTakes(a: Snapshot, b: Snapshot, c: Snapshot, r: PageNo, u: PageNo)
    requires Took(a, b, r) && a.own[u] == Free && c.own == b.own && c.free == b.free
    requires forall p: PageNo :: p == u || c.ram[p] == b.ram[p]
    ensures Took(a, c, r)
  {
    forall p: PageNo ensures TookPage(a.own, c.own, r, p) && KeptContent(a, c, r, p) {
      assert TookPage(a.own, b.own, r, p) && KeptContent(a, b, r, p);
    }
  }

  /** Building one map keeps the user page of another, and what it holds. */
  lemma OtherUserPage(a: Snapshot, b: Snapshot, r: PageNo, s: PageNo, pages: nat)
    requires Shape(a.ram, a.own) && Shape(b.ram, b.own) && SpacesOk(a.ram, a.own, pages) && Took(a, b, r)
      && b.own[r].Root?
    requires a.own[r].Root? && a.own[s].Root? && r != s && UserMapped(a.ram, s)
    ensures b.own[s] == a.own[s] && UserMapped(b.ram, s)
    ensures UserPageOf(a.ram, s) < PAGES && UserPageOf(b.ram, s) == UserPageOf(a.ram, s)
    ensures b.own[UserPageOf(a.ram, s)] == UserPage(s, USER_VPN)
      && b.ram[UserPageOf(a.ram, s)] == a.ram[UserPageOf(a.ram, s)]
  {
    assert Space(a.ram, a.own, s, pages) && SpaceAt(a.ram, a.own, s, pages, USER_VPN) && TookPage(a.own, b.own, r, s);
    var u := UserPageOf(a.ram, s);
    assert KeptContent(a, b, r, u) && TookPage(a.own, b.own, r, u);
    forall p: PageNo | InTree(a.own, s, p) ensures b.ram[p] == a.ram[p] {
      assert KeptContent(a, b, r, p);
      if InTree(a.own, r, p) { TreesDisjoint(a.own, r, s, p); }
    }
    WalkFrame(a.ram, a.own, b.ram, s);
  }
}
