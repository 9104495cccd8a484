/** kernel/memory.c: the page allocator, whose free list is threaded through the first word of
    every free page, and the construction and release of page maps. */
module PhysicalMemory {
  import opened Bits
  import opened MemoryLayout
  import opened MemoryMacros
  import opened PageTables
  import opened MapGrowth
  import opened MapRelease
  import opened AddressSpaces
  import opened MapConstruction
  import opened Wrappers

  /** The link stored in the page before position `i` of the free list. */
  function Link(free: seq<PageNo>, i: nat): Word {
    if i < |free| then PageVirtual(free[i]) else 0
  }

  /** The page at position `i` links to the next one. */
  ghost predicate LinksOn(ram: Ram, free: seq<PageNo>, i: nat) {
    i < |free| ==> ram[free[i]][0] == Link(free, i + 1)
  }

  ghost predicate ListedIfFree(own: Owners, free: seq<PageNo>, p: PageNo) { own[p] == Free <==> p in free }

  ghost predicate AboveKernel(own: Owners, kernelEnd: Word, p: PageNo) {
    own[p] != Reserved ==> PageVirtual(p) >= kernelEnd
  }

  predicate Differ(free: seq<PageNo>, i: nat, j: nat)
    requires i < j < |free|
  {
    free[i] != free[j]
  }

  ghost predicate NoRepeats(free: seq<PageNo>) { forall i: nat, j: nat :: i < j < |free| ==> Differ(free, i, j) }

  lemma TailNoRepeats(free: seq<PageNo>)
    requires NoRepeats(free) && free != []
    ensures NoRepeats(free[1..]) && forall p: PageNo :: p in free[1..] <==> p in free && p != free[0]
  {
    var tail := free[1..];
    forall i: nat, j: nat | i < j < |tail| ensures Differ(tail, i, j) { assert Differ(free, i + 1, j + 1); }
    forall k: nat | k < |tail| ensures tail[k] != free[0] { assert Differ(free, 0, k + 1); }
  }

  lemma PushNoRepeats(free: seq<PageNo>, p: PageNo)
    requires NoRepeats(free) && p !in free
    ensures NoRepeats([p] + free)
  {
    forall i: nat, j: nat | i < j < |[p] + free| ensures Differ([p] + free, i, j) {
      if i > 0 { assert Differ(free, i - 1, j - 1); }
    }
  }

  /** The list that starts at `head` runs through exactly the free pages, each once. */
  ghost predicate IsFreeList(ram: Ram, head: Word, free: seq<PageNo>, own: Owners, kernelEnd: Word) {
    && head == Link(free, 0)
    && NoRepeats(free)
    && (forall i: nat :: LinksOn(ram, free, i))
    && (forall p: PageNo :: ListedIfFree(own, free, p))
    && (forall p: PageNo :: AboveKernel(own, kernelEnd, p))
  }

  /** Writes to pages that are not free leave the list alone. */
  lemma FreeListFrame(ram: Ram, ram': Ram, head: Word, free: seq<PageNo>, own: Owners, own': Owners, kernelEnd: Word)
    requires IsFreeList(ram, head, free, own, kernelEnd)
    requires forall p: PageNo :: own[p] == Free ==> ram'[p][0] == ram[p][0]
    requires forall p: PageNo :: (own'[p] == Free <==> own[p] == Free) && (own'[p] == Reserved <==> own[p] == Reserved)
    ensures IsFreeList(ram', head, free, own', kernelEnd)
  {
    forall i: nat ensures LinksOn(ram', free, i) {
      assert LinksOn(ram, free, i);
      if i < |free| { assert ListedIfFree(own, free, free[i]); }
    }
    forall p: PageNo ensures ListedIfFree(own', free, p) && AboveKernel(own', kernelEnd, p) {
      assert ListedIfFree(own, free, p) && AboveKernel(own, kernelEnd, p);
    }
  }

  /** Popping the head leaves the list of the remaining pages. */
  lemma TakeKeepsList(ram: Ram, head: Word, free: seq<PageNo>, own: Owners, kernelEnd: Word)
    requires IsFreeList(ram, head, free, own, kernelEnd) && free != []
    ensures head == PageVirtual(free[0]) && head >= kernelEnd && own[free[0]] == Free
    ensures IsFreeList(ram, ram[free[0]][0], free[1..], Assign(own, free[0], Kernel), kernelEnd)
    ensures Shape(ram, own) ==> Shape(ram, Assign(own, free[0], Kernel))
  {
    var own', free' := Assign(own, free[0], Kernel), free[1..];
    assert LinksOn(ram, free, 0) && ListedIfFree(own, free, free[0]) && AboveKernel(own, kernelEnd, free[0]);
    TailNoRepeats(free);
    forall i: nat ensures LinksOn(ram, free', i) {
      assert LinksOn(ram, free, i + 1);
    }
    forall p: PageNo ensures ListedIfFree(own', free', p) && AboveKernel(own', kernelEnd, p) {
      assert ListedIfFree(own, free, p) && AboveKernel(own, kernelEnd, p);
      assert p in free' <==> p in free && p != free[0];
    }
    if Shape(ram, own) { ShapeFrame(ram, own, ram, own'); }
  }

  /** Pushing a page that is not free prepends it. */
  lemma GiveKeepsList(ram: Ram, head: Word, free: seq<PageNo>, own: Owners, kernelEnd: Word, p: PageNo)
    requires IsFreeList(ram, head, free, own, kernelEnd) && own[p] != Free && PageVirtual(p) >= kernelEnd
    ensures IsFreeList(Store(ram, p, 0, head), PageVirtual(p), [p] + free, Assign(own, p, Free), kernelEnd)
  {
    var ram', free' := Store(ram, p, 0, head), [p] + free;
    assert ListedIfFree(own, free, p);
    PushNoRepeats(free, p);
    forall i: nat ensures LinksOn(ram', free', i) {
      if 0 < i < |free'| {
        assert LinksOn(ram, free, i - 1);
        assert free'[i] == free[i - 1] && free[i - 1] in free;
      }
    }
    forall q: PageNo ensures ListedIfFree(Assign(own, p, Free), free', q)
      && AboveKernel(Assign(own, p, Free), kernelEnd, q) {
      assert ListedIfFree(own, free, q) && AboveKernel(own, kernelEnd, q);
    }
  }

  lemma LinkKeepsList(a: Snapshot, head: Word, kernelEnd: Word, p: PageNo, i: Index, attr: nat)
    requires IsFreeList(a.ram, head, a.free, a.own, kernelEnd) && Shape(a.ram, a.own) && a.free != []
    requires Level(a.own[p]) >= 3 && attr < LARGE
    ensures var b := LinkFirst(a, p, i, attr); IsFreeList(b.ram, Link(b.free, 0), b.free, b.own, kernelEnd)
  {
    var b, c := LinkFirst(a, p, i, attr), a.free[0];
    TakeKeepsList(a.ram, head, a.free, a.own, kernelEnd);
    var own1: Owners := Assign(a.own, c, Kernel);
    FreeListFrame(a.ram, b.ram, a.ram[c][0], b.free, own1, b.own, kernelEnd);
  }

  /** Everything that holds once a freshly taken page is linked. */
  lemma LinkedState(a: Snapshot, head: Word, kernelEnd: Word, root: PageNo, p: PageNo, i: Index, attr: nat,
      slots: set<Index>)
    requires IsFreeList(a.ram, head, a.free, a.own, kernelEnd) && Shape(a.ram, a.own) && a.free != []
    requires a.own[root].Root? && InTree(a.own, root, p) && Level(a.own[p]) >= 3 && a.ram[p][i] % 2 == 0
    requires attr % 2 == 1 && attr < LARGE && (a.own[p].Root? ==> i in slots)
    ensures 3 <= Level(a.own[p]) <= 4 && p != a.free[0]
    ensures
      var b := LinkFirst(a, p, i, attr);
      Shape(b.ram, b.own) && IsFreeList(b.ram, Link(b.free, 0), b.free, b.own, kernelEnd)
      && Extended(a, b, root, attr, slots)
  {
    assert ListedIfFree(a.own, a.free, a.free[0]) && HangsUp(a.ram, a.own, p);
    assert IsFreeList(LinkFirst(a, p, i, attr).ram, Link(a.free[1..], 0), a.free[1..], LinkFirst(a, p, i, attr).own,
      kernelEnd) by {
      LinkKeepsList(a, head, kernelEnd, p, i, attr);
    }
    assert Grown(a, LinkFirst(a, p, i, attr), root, attr, slots) by { LinkGrows(a, root, p, i, attr, slots); }
    assert Shape(LinkFirst(a, p, i, attr).ram, LinkFirst(a, p, i, attr).own) by {
      LinkKeepsShape(a.ram, a.own, p, i, a.free[0], attr);
    }
    assert SameWalks(a.ram, LinkFirst(a, p, i, attr).ram, root) by {
      LinkKeepsWalks(a.ram, a.own, p, i, a.free[0], attr, root);
    }
  }

  lemma WholePages(v: Word, end: Word, total: nat)
    requires Aligned(v) && Aligned(end) && v < end && total == (end - v) / PAGE_SIZE
    ensures end == v + total * PAGE_SIZE && total >= 1
  {
    var a, b := v / PAGE_SIZE, end / PAGE_SIZE;
    QuotientUnique(end - v, PAGE_SIZE, b - a, 0);
  }

  /** The walk from `r` ends before it reaches a page directory. */
  ghost predicate NoDirectory(ram: Ram, r: PageNo, i: Index, j: Index) {
    forall k: Index :: WalkAt(ram, r, i, j, k) == None
  }

  /** The free list still stands when the page just taken became a cleared root. */
  lemma MakeRootValid(a: Snapshot, kernelEnd: Word, who: nat, head: Word)
    requires a.free != [] && IsFreeList(a.ram, head, a.free[1..], Assign(a.own, a.free[0], Kernel), kernelEnd)
    ensures IsFreeList(RootFirst(a, who).ram, head, a.free[1..], RootFirst(a, who).own, kernelEnd)
  {
    FreeListFrame(a.ram, RootFirst(a, who).ram, head, a.free[1..], Assign(a.own, a.free[0], Kernel),
      RootFirst(a, who).own, kernelEnd);
  }

  class Memory {
    const kernelEnd: Word                  // address of l_kernel_end
    var ram: Ram
    var freeHead: Word                     // s_free_memory_page_head.next
    var freeEnd: Word                      // s_free_memory_end_address
    ghost var free: seq<PageNo>
    ghost var own: Owners

    ghost predicate FreeListOk()
      reads this
    {
      IsFreeList(ram, freeHead, free, own, kernelEnd)
    }

    ghost predicate Valid()
      reads this
    {
      FreeListOk() && Shape(ram, own)
    }

    ghost function Now(): Snapshot
      reads this
    {
      Snapshot(ram, own, free)
    }

    ghost predicate IsRoot(pml4: Word)
      reads this
    {
      InDirectMap(pml4) && own[PageAt(pml4)].Root?
    }

    // ----- kalloc and kfree -----

    method Kalloc() returns (page: Word)
      requires FreeListOk()
      modifies this`freeHead, this`free, this`own
      ensures FreeListOk() && freeHead == Link(free, 0)
      ensures Shape(ram, old(own)) ==> Shape(ram, own)
      ensures page == 0 <==> old(free) == []
      ensures page == 0 ==> free == old(free) && own == old(own)
      ensures page != 0 ==> InDirectMap(page) && PageAt(page) == old(free)[0]
      ensures page != 0 ==> free == old(free)[1..] && own == Assign(old(own), PageAt(page), Kernel)
    {
      page := freeHead;
      if page != 0 {
        TakeKeepsList(ram, freeHead, free, own, kernelEnd);
        PageAtVirtual(free[0]);
        assert Aligned(page) && page >= kernelEnd && page + PAGE_SIZE <= VIRTUAL_END;
        freeHead := ram[PageAt(page)][0];
        own := Assign(own, free[0], Kernel);
        free := free[1..];
      }
    }

    method Kfree(addr: Word)
      requires FreeListOk()
      requires Aligned(addr) && addr >= kernelEnd && KERNEL_BASE <= addr && addr + PAGE_SIZE <= VIRTUAL_END
      requires own[PageAt(addr)] != Free
      modifies this`ram, this`freeHead, this`free, this`own
      ensures FreeListOk()
      ensures free == [PageAt(addr)] + old(free) && own == Assign(old(own), PageAt(addr), Free)
      ensures ram == Store(old(ram), PageAt(addr), 0, old(freeHead))
    {
      GiveKeepsList(ram, freeHead, free, own, kernelEnd, PageAt(addr));
      var p := PageAt(addr);
      ram := Store(ram, p, 0, freeHead);
      freeHead := addr;
      free := [p] + free;
      own := Assign(own, p, Free);
    }

    // ----- Finding and creating tables -----

    /** memset of one page to zero. */
    method ZeroFill(page: Word)
      requires InDirectMap(page)
      modifies this`ram
      ensures ram == Clear(old(ram), PageAt(page))
    {
      var p := PageAt(page);
      for n := 0 to PAGE_WORDS
        invariant forall i :: 0 <= i < n ==> ram[p][i] == 0
        invariant forall q: PageNo :: q != p ==> ram[q] == old(ram)[q]
      {
        ram := Store(ram, p, n, 0);
      }
      assert ram[p] == ZeroPage();
    }

    method HangZeroed(table: Word, index: Index, attr: nat, child: Word)
      requires InDirectMap(table) && InDirectMap(child) && attr < LARGE
      modifies this`ram
      ensures ram == Linked(old(ram), PageAt(table), index, PageAt(child), attr)
    {
      ZeroFill(child);
      assert PagePhysical(PageAt(child)) == VirToPhy(child);
      ram := Store(ram, PageAt(table), index, MakeTableEntry(VirToPhy(child), attr));
    }

    /** Take a page, clear it and hang it under entry `index` of `table`. */
    method HangNewTable(table: Word, index: Index, attr: nat) returns (child: Word)
      requires FreeListOk() && InDirectMap(table) && Level(own[PageAt(table)]) >= 3 && attr < LARGE
      modifies this`ram, this`freeHead, this`free, this`own
      ensures child == 0 <==> old(free) == []
      ensures child == 0 ==> Now() == old(Now()) && freeHead == old(freeHead)
      ensures child != 0 ==> InDirectMap(child) && PageAt(child) == old(free)[0]
      ensures child != 0 ==> Now() == LinkFirst(old(Now()), PageAt(table), index, attr) && freeHead == Link(free, 0)
    {
      ghost var before := Now();
      child := Kalloc();
      if child == 0 {
        return;
      }
      HangZeroed(table, index, attr, child);
      own := LinkFirst(before, PageAt(table), index, attr).own;
    }

    /** The same, for a table of the map in `root` whose entry is absent. */
    method LinkNewTable(table: Word, index: Index, attr: nat, ghost slots: set<Index>, ghost root: PageNo)
        returns (child: Word)
      requires Valid() && InDirectMap(table)
      requires own[root].Root? && InTree(own, root, PageAt(table))
      requires Level(own[PageAt(table)]) >= 3 && ram[PageAt(table)][index] % 2 == 0
      requires attr % 2 == 1 && attr < LARGE && (own[PageAt(table)].Root? ==> index in slots)
      modifies this`ram, this`freeHead, this`free, this`own
      ensures Valid() && Extended(old(Now()), Now(), root, attr, slots)
      ensures child == 0 <==> old(free) == []
      ensures child == 0 ==> Now() == old(Now())
      ensures child != 0 ==>
        InDirectMap(child) && own[PageAt(child)] == Table(Level(old(own)[PageAt(table)]) - 1, PageAt(table), index)
      ensures child != 0 ==> ram[PageAt(child)] == ZeroPage() && |free| == |old(free)| - 1
    {
      ExtendedReflexive(Now(), root, attr, slots);
      if free != [] { LinkedState(Now(), freeHead, kernelEnd, root, PageAt(table), index, attr, slots); }
      child := HangNewTable(table, index, attr);
    }

    /** The table under entry `index` of `table`, created on demand; 0 if absent. */
    method FindEntry(table: Word, index: Index, alloc: bool, attr: nat, ghost slots: set<Index>, ghost root: PageNo)
        returns (child: Word)
      requires Valid() && InDirectMap(table) && own[root].Root? && InTree(own, root, PageAt(table))
      requires Level(own[PageAt(table)]) >= 3 && (alloc ==> attr % 2 == 1 && attr < LARGE)
      requires alloc && own[PageAt(table)].Root? ==> index in slots
      modifies this`ram, this`freeHead, this`free, this`own
      ensures Valid() && Extended(old(Now()), Now(), root, attr, slots)
      ensures !alloc || child == 0 ==> Now() == old(Now())
      ensures child == 0 <==> old(ram)[PageAt(table)][index] % 2 == 0 && (alloc ==> old(free) == [])
      ensures child != 0 ==>
        InDirectMap(child) && own[PageAt(child)] == Table(Level(old(own)[PageAt(table)]) - 1, PageAt(table), index)
      ensures child != 0 ==> Entered(old(Now()), Now(), PageAt(table), index, PageAt(child))
    {
      ExtendedReflexive(Now(), root, attr, slots);
      var entry := ram[PageAt(table)][index];
      child := 0;
      if IsPresent(entry) {
        assert LeadsDown(ram, own, PageAt(table), index);
        TablePointer(entry, entry / PAGE_SIZE);
        child := PhyToVir(PageDirectoryTableAddress(entry));
        PageAtVirtual(entry / PAGE_SIZE);
      } else if alloc {
        child := LinkNewTable(table, index, attr, slots, root);
      }
    }

    method FindDirectory(pml4: Word, i: Index, j: Index, alloc: bool, attr: nat, ghost slots: set<Index>)
        returns (pd: Word)
      requires Valid() && IsRoot(pml4) && (alloc ==> attr % 2 == 1 && attr < LARGE && i in slots)
      modifies this`ram, this`freeHead, this`free, this`own
      ensures Valid() && Extended(old(Now()), Now(), PageAt(pml4), attr, slots)
      ensures !alloc ==> Now() == old(Now())
      ensures pd == 0 && alloc ==> free == []
      ensures pd == 0 && !alloc ==> NoDirectory(ram, PageAt(pml4), i, j)
      ensures pd != 0 ==> InDirectMap(pd) && IsDirectoryAt(own, PageAt(pml4), i, j, PageAt(pd))
      ensures alloc ==> Counted(old(Now()), Now(), PageAt(pml4), i, j, pd != 0)
    {
      ghost var before := Now();
      var pdpt := FindEntry(pml4, i, alloc, attr, slots, PageAt(pml4));
      if pdpt == 0 {
        return 0;
      }
      assert KeptOrTaken(before.own, own, PageAt(pml4), PageAt(pml4)) && HangsUp(ram, own, PageAt(pdpt));
      pd := FindUnder(pdpt, j, alloc, attr, slots, before, PageAt(pml4), i);
    }

    /** The second step, from the page-directory-pointer table just found under entry `i` of the root. */
    method FindUnder(pdpt: Word, j: Index, alloc: bool, attr: nat, ghost slots: set<Index>, ghost a: Snapshot,
        ghost root: PageNo, ghost i: Index)
      returns (pd: Word)
      requires Valid() && InDirectMap(pdpt) && a.own[root].Root? && own[root].Root?
        && own[PageAt(pdpt)] == Table(3, root, i)
      requires ram[root][i] % 2 == 1 && ram[root][i] / PAGE_SIZE == PageAt(pdpt)
      requires alloc ==> attr % 2 == 1 && attr < LARGE
      requires Extended(a, Now(), root, attr, slots) && Entered(a, Now(), root, i, PageAt(pdpt))
        && (!alloc ==> Now() == a)
      modifies this`ram, this`freeHead, this`free, this`own
      ensures Valid() && Extended(a, Now(), root, attr, slots)
      ensures !alloc ==> Now() == a
      ensures pd == 0 && alloc ==> free == []
      ensures pd == 0 && !alloc ==> NoDirectory(ram, root, i, j)
      ensures pd != 0 ==> InDirectMap(pd) && IsDirectoryAt(own, root, i, j, PageAt(pd))
      ensures alloc ==> Counted(a, Now(), root, i, j, pd != 0)
    {
      ghost var b := Now();
      pd := FindEntry(pdpt, j, alloc, attr, slots, root);
      assert own[PageAt(pdpt)] == Table(3, root, i) by { assert KeptOrTaken(b.own, own, root, PageAt(pdpt)); }
      if alloc {
        TablesCounted(a, b, Now(), root, PageAt(pdpt), i, j, pd != 0);
        ExtendedTransitive(a, b, Now(), root, attr, slots);
      }
    }

    method FindPageDirPointerTableEntry(pml4: Word, v: Word, alloc: bool, attr: nat, ghost slots: set<Index>)
        returns (pd: Word)
      requires Valid() && IsRoot(pml4) && (alloc ==> attr % 2 == 1 && attr < LARGE && Pml4Index(v) in slots)
      modifies this`ram, this`freeHead, this`free, this`own
      ensures Valid() && Extended(old(Now()), Now(), PageAt(pml4), attr, slots)
      ensures !alloc ==> Now() == old(Now())
      ensures pd == 0 && alloc ==> free == []
      ensures pd == 0 && !alloc ==> NoDirectory(ram, PageAt(pml4), Pml4Index(v), PdptIndex(v))
      ensures pd != 0 ==> InDirectMap(pd) && IsDirectoryAt(own, PageAt(pml4), Pml4Index(v), PdptIndex(v), PageAt(pd))
      ensures alloc ==> Counted(old(Now()), Now(), PageAt(pml4), Pml4Index(v), PdptIndex(v), pd != 0)
    {
      pd := FindDirectory(pml4, Pml4IndexOf(v), PdptIndexOf(v), alloc, attr, slots);
    }

    // ----- MapPages -----

    method SetLeaf(pd: Word, index: Index, p: Word, attr: nat)
      requires FreeListOk() && InDirectMap(pd) && own[PageAt(pd)] != Free && Aligned(p) && attr < LARGE
      modifies this`ram
      ensures FreeListOk() && ram == Store(old(ram), PageAt(pd), index, LeafEntry(p, attr))
    {
      ram := Store(ram, PageAt(pd), index, MakeLeafEntry(p, attr));
      FreeListFrame(old(ram), ram, freeHead, free, own, own, kernelEnd);
    }

    /** One round of the loop of MapPages: page `n` of the range from `n0` on, at address `v`, to `p`. */
    method MapOnePage(pml4: Word, v: Word, p: Word, attr: nat, ghost slots: set<Index>, ghost a: Snapshot,
        ghost n0: nat, ghost n: nat, ghost phys: Word)
      returns (ok: bool)
      requires Valid() && IsRoot(pml4) && attr % 2 == 1 && attr < LARGE && Pml4Index(v) in slots
      requires Aligned(phys) && phys + (n + 1) * PAGE_SIZE <= WORD_LIMIT && p == phys + n * PAGE_SIZE
      requires n < VPN_LIMIT && n0 < VPN_LIMIT && Vpn(v) < VPN_LIMIT && PositionInRange(n0, Vpn(v)) == n
      requires a.own[PageAt(pml4)].Root? && Grown(a, Now(), PageAt(pml4), attr, slots)
      requires MapsRange(a.ram, ram, PageAt(pml4), n0, n, phys, attr) && WalkVpn(a.ram, PageAt(pml4), Vpn(v)) == None
      modifies this`ram, this`freeHead, this`free, this`own
      ensures Valid() && IsRoot(pml4) && Grown(a, Now(), PageAt(pml4), attr, slots)
      ensures !ok ==> free == []
      ensures MapsRange(a.ram, ram, PageAt(pml4), n0, if ok then n + 1 else n, phys, attr)
      ensures Counted(old(Now()), Now(), PageAt(pml4), Pml4Index(v), PdptIndex(v), ok)
      ensures ok ==> Missing(ram, PageAt(pml4), Pml4Index(v), PdptIndex(v)) == 0
    {
      ghost var b, root := Now(), PageAt(pml4);
      var pd := FindPageDirPointerTableEntry(pml4, v, true, attr, slots);
      GrownTransitive(a, b, Now(), root, attr, slots);
      assert KeptOrTaken(a.own, own, root, root);
      if pd == 0 {
        MapsRangeFrame(a.ram, b.ram, ram, root, n0, n, phys, attr);
        return false;
      }
      VpnIndices(v);
      WriteLeaf(pd, PdIndexOf(v), p, attr, slots, root, a, b, n0, n, Vpn(v), phys);
      NoneMissing(ram, own, root, Pml4Index(v), PdptIndex(v), PageAt(pd));
      return true;
    }

    /** The leaf of page `n` of the range, which is virtual page `m`, in the directory just found; it was absent. */
    method WriteLeaf(pd: Word, index: Index, p: Word, attr: nat, ghost slots: set<Index>, ghost root: PageNo,
        ghost a: Snapshot, ghost b: Snapshot,
                     ghost n0: nat, ghost n: nat, ghost m: nat, ghost phys: Word)
      requires Valid() && attr % 2 == 1 && attr < LARGE && InDirectMap(pd)
      requires m < VPN_LIMIT && IsDirectoryAt(own, root, m / 0x4_0000, m / 512 % 512, PageAt(pd)) && index == m % 512
      requires Aligned(phys) && phys + (n + 1) * PAGE_SIZE <= WORD_LIMIT && p == phys + n * PAGE_SIZE
      requires n < VPN_LIMIT && n0 < VPN_LIMIT && PositionInRange(n0, m) == n
      requires a.own[root].Root? && Grown(a, b, root, attr, slots) && Extended(b, Now(), root, attr, slots)
      requires MapsRange(a.ram, b.ram, root, n0, n, phys, attr) && WalkVpn(a.ram, root, m) == None
      modifies this`ram
      ensures Valid() && Grown(a, Now(), root, attr, slots) && MapsRange(a.ram, ram, root, n0, n + 1, phys, attr)
    {
      MapRound(a, b, Now(), root, n0, n, m, phys, attr, slots, PageAt(pd));
      assert !IsPresent(ram[PageAt(pd)][index]);
      SetLeaf(pd, index, p, attr);
    }

    /** The first of `mapped` pages took the tables that were missing, and the others none. */
    static ghost predicate Needs(a: Snapshot, b: Snapshot, root: PageNo, i: Index, j: Index, mapped: nat) {
      if mapped == 0 then b == a
      else Missing(b.ram, root, i, j) == 0 && |b.free| == |a.free| - Missing(a.ram, root, i, j)
    }

    /** Map the pages that cover [v, end) to physical memory from `phys` on. `mapped` pages were
        mapped when the method returns: all of them unless a page for a table was missing. */
    method MapPages(pml4: Word, v: Word, end: Word, phys: Word, attr: nat) returns (ok: bool, ghost mapped: nat)
      requires Valid() && IsRoot(pml4) && attr % 2 == 1 && attr < LARGE
      requires v < end && end + 2 * PAGE_SIZE <= WORD_LIMIT && Aligned(phys)
      requires phys + AlignUp(end) - AlignDown(v) <= VIRTUAL_END
      requires Vpn(v) < VPN_LIMIT && PagesCovering(v, end) <= VPN_LIMIT
      requires forall k: nat | k < PagesCovering(v, end) :: WalkVpn(ram, PageAt(pml4), PageOfRange(Vpn(v), k)) == None
      modifies this`ram, this`freeHead, this`free, this`own
      ensures Valid() && Grown(old(Now()), Now(), PageAt(pml4), attr, SlotsOf(Vpn(v), PagesCovering(v, end)))
      ensures mapped <= PagesCovering(v, end) && (ok <==> mapped == PagesCovering(v, end))
      ensures !ok ==> free == []
      ensures MapsRange(old(ram), ram, PageAt(pml4), Vpn(v), mapped, phys, attr)
      ensures forall s: PageNo :: old(own)[s].Root? && s != PageAt(pml4) ==> SameWalks(old(ram), ram, s)
      ensures OneDirectory(v, PagesCovering(v, end)) ==>
        Counted(old(Now()), Now(), PageAt(pml4), Pml4Index(v), PdptIndex(v), ok)
    {
      ghost var before, root, total := Now(), PageAt(pml4), PagesCovering(v, end);
      ghost var slots := SlotsOf(Vpn(v), total);
      var vStart, vEnd, p := PageAlignDown(v), PageAlignUp(end), phys;
      ExtendedReflexive(before, root, attr, slots);
      MapsNothing(before.ram, root, Vpn(v), phys, attr);
      mapped := 0;
      while true
        invariant mapped < total && vStart == AlignDown(v) + mapped * PAGE_SIZE && p == phys + mapped * PAGE_SIZE
        invariant Valid() && IsRoot(pml4) && Grown(before, Now(), root, attr, slots)
        invariant MapsRange(before.ram, ram, root, Vpn(v), mapped, phys, attr)
        invariant OneDirectory(v, total) ==> Needs(before, Now(), root, Pml4Index(v), PdptIndex(v), mapped)
        decreases total - mapped
      {
        if OneDirectory(v, total) { SameDirectory(v, vStart, mapped, total); }
        RangeIndices(v, vStart, mapped);
        assert Pml4Index(vStart) in slots;
        var found := MapOnePage(pml4, vStart, p, attr, slots, before, Vpn(v), mapped, phys);
        if !found {
          GrownKeepsAllOthers(before, Now(), root, attr, slots);
          return false, mapped;
        }
        vStart := vStart + PAGE_SIZE;
        p := p + PAGE_SIZE;
        mapped := mapped + 1;
        if vStart + PAGE_SIZE > vEnd {
          GrownKeepsAllOthers(before, Now(), root, attr, slots);
          return true, mapped;
        }
      }
    }

    // ----- FreeVM -----

    /** Give back the page mapped at `v`, if any, and clear its leaf. */
    method FreeOnePage(pml4: Word, v: Word)
      requires Valid() && IsRoot(pml4) && Vpn(v) < VPN_LIMIT && PageRecorded(ram, own, PageAt(pml4), Vpn(v))
      modifies this`ram, this`freeHead, this`free, this`own
      ensures Valid() && IsRoot(pml4)
      ensures Returned(old(Now()), Now(), MappedAt(old(own), PageAt(pml4), Vpn(v)), PageAt(pml4))
      ensures forall x: nat | x < VPN_LIMIT ::
        WalkVpn(ram, PageAt(pml4), x) == if x == Vpn(v) then None else WalkVpn(old(ram), PageAt(pml4), x)
    {
      ghost var a, root, m := Now(), PageAt(pml4), Vpn(v);
      ghost var mapped := MappedAt(own, root, m);
      ReturnedNothing(a, root);
      VpnIndices(v);
      var pd := FindPageDirPointerTableEntry(pml4, v, false, 0, {});
      if pd == 0 {
        assert WalkVpn(ram, root, m) == None;
        assert mapped == {};
        return;
      }
      var index := PdIndexOf(v);
      var leaf := ram[PageAt(pd)][index];
      DirectoryWalk(ram, own, root, m / 0x4_0000, m / 512 % 512, m % 512, own[PageAt(pd)].parent, PageAt(pd));
      if IsPresent(leaf) {
        ghost var c := leaf / PAGE_SIZE;
        LeafReturned(a, root, m, own[PageAt(pd)].parent, PageAt(pd), c, freeHead);
        assert mapped == {c};
        LeafPointer(leaf, c);
        assert AboveKernel(own, kernelEnd, c);
        Kfree(PhyToVir(PageAddressOf(leaf)));
        ClearEntry(pd, index);
      } else {
        assert mapped == {};
      }
    }

    method ClearEntry(table: Word, index: Index)
      requires FreeListOk() && InDirectMap(table) && own[PageAt(table)] != Free
      modifies this`ram
      ensures FreeListOk() && ram == Store(old(ram), PageAt(table), index, 0)
    {
      ram := Store(ram, PageAt(table), index, 0);
      FreeListFrame(old(ram), ram, freeHead, free, own, own, kernelEnd);
    }

    method FreePages(pml4: Word, v: Word, end: Word)
      requires Valid() && IsRoot(pml4) && Aligned(v) && Aligned(end) && v < end && end + PAGE_SIZE < WORD_LIMIT
      requires (end - v) / PAGE_SIZE <= VPN_LIMIT && Vpn(v) < VPN_LIMIT
      requires forall m: nat | m < VPN_LIMIT && PositionInRange(Vpn(v), m) < (end - v) / PAGE_SIZE ::
        PageRecorded(ram, own, PageAt(pml4), m)
      modifies this`ram, this`freeHead, this`free, this`own
      ensures Valid() && IsRoot(pml4)
      ensures Returned(old(Now()), Now(), UserPagesBelow(old(own), PageAt(pml4), Vpn(v), (end - v) / PAGE_SIZE),
        PageAt(pml4))
      ensures UnmapsRange(old(ram), ram, PageAt(pml4), Vpn(v), (end - v) / PAGE_SIZE)
    {
      ghost var a, root, n0, total := Now(), PageAt(pml4), Vpn(v), (end - v) / PAGE_SIZE;
      WholePages(v, end, total);
      ReturnedNothing(a, root);
      assert UserPagesBelow(own, root, n0, 0) == {};
      var at := v;
      ghost var n := 0;
      while true
        invariant n < total && at == v + n * PAGE_SIZE && end == v + total * PAGE_SIZE
        invariant Valid() && IsRoot(pml4)
        invariant Returned(a, Now(), UserPagesBelow(a.own, root, n0, n), root) && UnmapsRange(a.ram, ram, root, n0, n)
        decreases total - n
      {
        ghost var b := Now();
        RangeIndices(v, at, n);
        RecordKept(a, b, UserPagesBelow(a.own, root, n0, n), root, n0, n, Vpn(at));
        FreeOnePage(pml4, at);
        ReleaseRound(a, b, Now(), root, n0, n, Vpn(at));
        at := at + PAGE_SIZE;
        n := n + 1;
        if at + PAGE_SIZE > end {
          assert n == total;
          break;
        }
      }
    }

    /** Free the table under entry `i` of `table`, if any, and clear the entry. */
    method FreeChild(table: Word, i: Index, ghost root: PageNo)
      requires Valid() && InDirectMap(table) && InTree(own, root, PageAt(table)) && Level(own[PageAt(table)]) >= 3
      requires forall c: PageNo, x: PageNo ::
        own[c].Table? && own[c].parent == PageAt(table) && own[x].Table? ==> own[x].parent != c
      modifies this`ram, this`freeHead, this`free, this`own
      ensures Valid()
      ensures Returned(old(Now()), Now(), ChildrenBelow(old(own), PageAt(table), i + 1) - ChildrenBelow(old(own),
        PageAt(table), i), root)
    {
      ghost var a, t := Now(), PageAt(table);
      ReturnedNothing(a, root);
      var entry := ram[PageAt(table)][i];
      if IsPresent(entry) {
        ghost var c := entry / PAGE_SIZE;
        assert LeadsDown(ram, own, t, i) && AboveKernel(own, kernelEnd, c);
        TablePointer(entry, c);
        PageAtVirtual(c);
        ChildReturned(a, root, t, i, c, freeHead);
        Kfree(PhyToVir(PageDirectoryTableAddress(entry)));
        ClearEntry(table, i);
      } else {
        NoChild(ram, own, t, i);
      }
    }

    /** The loop over the 512 entries of one table that FreePDTable and FreePDPTable share. */
    method FreeChildren(table: Word, ghost root: PageNo)
      requires Valid() && InDirectMap(table) && InTree(own, root, PageAt(table)) && Level(own[PageAt(table)]) >= 3
      requires forall c: PageNo, x: PageNo ::
        own[c].Table? && own[c].parent == PageAt(table) && own[x].Table? ==> own[x].parent != c
      modifies this`ram, this`freeHead, this`free, this`own
      ensures Valid() && Returned(old(Now()), Now(), ChildrenBelow(old(own), PageAt(table), ENTRIES), root)
    {
      ghost var a, t := Now(), PageAt(table);
      ReturnedNothing(a, root);
      assert ChildrenBelow(own, t, 0) == {};
      for i := 0 to ENTRIES
        invariant Valid() && Returned(a, Now(), ChildrenBelow(a.own, t, i), root)
      {
        ghost var b := Now();
        ChildrenRound(a, b, root, t, i);
        FreeChild(table, i, root);
        ReturnedTransitive(a, b, Now(), ChildrenBelow(a.own, t, i),
          ChildrenBelow(b.own, t, i + 1) - ChildrenBelow(b.own, t, i), root);
      }
    }

    method FreePDTable(pml4: Word)
      requires Valid() && IsRoot(pml4)
      modifies this`ram, this`freeHead, this`free, this`own
      ensures Valid() && Returned(old(Now()), Now(), DirectoriesBelow(old(own), PageAt(pml4), ENTRIES), PageAt(pml4))
    {
      ghost var a, root := Now(), PageAt(pml4);
      ReturnedNothing(a, root);
      assert DirectoriesBelow(own, root, 0) == {};
      for i := 0 to ENTRIES
        invariant Valid() && Returned(a, Now(), DirectoriesBelow(a.own, root, i), root)
      {
        ghost var b := Now();
        assert UseAfter(a.own, own, DirectoriesBelow(a.own, root, i), root);
        var entry := ram[PageAt(pml4)][i];
        if IsPresent(entry) {
          ghost var q := entry / PAGE_SIZE;
          assert LeadsDown(ram, own, root, i);
          TablePointer(entry, q);
          PageAtVirtual(q);
          NoGrandchildren(ram, own, q);
          FreeChildren(PhyToVir(PageDirectoryTableAddress(entry)), root);
          DirectoriesRound(a, b, Now(), root, i, q);
        } else {
          NoDirectories(a, b, root, i);
        }
      }
    }

    method FreePDPTable(pml4: Word)
      requires Valid() && IsRoot(pml4)
      requires forall c: PageNo, x: PageNo ::
        own[c].Table? && own[c].parent == PageAt(pml4) && own[x].Table? ==> own[x].parent != c
      modifies this`ram, this`freeHead, this`free, this`own
      ensures Valid() && Returned(old(Now()), Now(), ChildrenBelow(old(own), PageAt(pml4), ENTRIES), PageAt(pml4))
    {
      FreeChildren(pml4, PageAt(pml4));
    }

    method FreePML4Table(pml4: Word)
      requires Valid() && IsRoot(pml4) && forall x: PageNo :: own[x].Table? ==> own[x].parent != PageAt(pml4)
      modifies this`ram, this`freeHead, this`free, this`own
      ensures Valid() && Returned(old(Now()), Now(), {PageAt(pml4)}, PageAt(pml4))
    {
      assert AboveKernel(own, kernelEnd, PageAt(pml4));
      RootReturned(Now(), PageAt(pml4), freeHead);
      Kfree(pml4);
    }

    /** Release a map from the bottom up: user page, page directories, pointer tables, root. */
    method FreeVM(pml4: Word)
      requires Valid() && IsRoot(pml4) && PageRecorded(ram, own, PageAt(pml4), USER_VPN)
      modifies this`ram, this`freeHead, this`free, this`own
      ensures Valid() && Dropped(old(Now()), Now(), PageAt(pml4))
      ensures Returned(old(Now()), Now(), TablesOf(old(own), PageAt(pml4)) + MappedAt(old(own), PageAt(pml4),
        USER_VPN), PageAt(pml4))
    {
      ghost var a, root := Now(), PageAt(pml4);
      UserRange(own, root);
      FreePages(pml4, USER_BASE, USER_BASE + PAGE_SIZE);
      ghost var b := Now();
      assert Returned(a, b, MappedAt(a.own, root, USER_VPN), root);
      FreePDTable(pml4);
      ghost var c := Now();
      NoGrandchildrenLeft(b, c, root);
      FreePDPTable(pml4);
      ghost var d := Now();
      ChildrenGone(c, d, root);
      FreePML4Table(pml4);
      assert Returned(c, d, ChildrenBelow(c.own, root, ENTRIES), root) && Returned(d, Now(), {root}, root);
      AllPagesOfMap(a, b, c, d, Now(), root);
      ReturnedIsDropped(a, Now(), root);
    }

    // ----- SetupKVM, SetupUVM, CopyUVM -----

    /** Number of physical pages that every map shows in its kernel half. */
    function DirectMapped(): int
      reads this
    {
      (freeEnd - KERNEL_BASE) / PAGE_SIZE
    }

    /** The allocator is set up and every map is an address space. */
    ghost predicate Ready()
      reads this
    {
      && Valid()
      && Aligned(freeEnd) && KERNEL_BASE < freeEnd <= VIRTUAL_END
      && SpacesOk(ram, own, DirectMapped())
    }

    /** Take a page and clear it, to become the root of a map. */
    method NewPml4(ghost who: nat) returns (pml4: Word)
      requires Ready()
      modifies this`ram, this`freeHead, this`free, this`own
      ensures Valid()
      ensures pml4 == 0 <==> old(free) == []
      ensures pml4 == 0 ==> Now() == old(Now())
      ensures pml4 != 0 ==> InDirectMap(pml4) && PageAt(pml4) == old(free)[0] && old(own)[PageAt(pml4)] == Free
      ensures pml4 != 0 ==> Now() == RootFirst(old(Now()), who)
    {
      ghost var a := Now();
      pml4 := Kalloc();
      if pml4 != 0 {
        assert ListedIfFree(a.own, a.free, PageAt(pml4));
        NewRoot(a, who, DirectMapped());
        MakeRootValid(a, kernelEnd, who, freeHead);
        ZeroFill(pml4);
        own := RootFirst(a, who).own;
      }
    }

    /** A fresh map of the kernel half, for which it takes three pages, or 0 and nothing changed. */
    method SetupKVM(ghost who: nat) returns (pml4: Word)
      requires Ready()
      modifies this`ram, this`freeHead, this`free, this`own
      ensures Ready()
      ensures pml4 == 0 ==> SameUse(old(Now()), Now())
      ensures pml4 != 0 ==> InDirectMap(pml4) && own[PageAt(pml4)] == Root(who) && old(own)[PageAt(pml4)] == Free
      ensures pml4 != 0 ==> Took(old(Now()), Now(), PageAt(pml4)) && !UserMapped(ram, PageAt(pml4))
      ensures pml4 != 0 <==> |old(free)| >= 3
      ensures pml4 != 0 ==> |free| == |old(free)| - 3
    {
      ghost var a, pages := Now(), DirectMapped();
      pml4 := NewPml4(who);
      if pml4 == 0 {
        SameAsBefore(a, Now());
        return;
      }
      KernelRange(freeEnd, pages);
      NewRoot(a, who, pages);
      KernelTablesMissing(a, who, pages);
      ghost var mapped;
      var ok;
      ok, mapped := MapPages(pml4, KERNEL_BASE, freeEnd, VirToPhy(KERNEL_BASE), KernelAttributes());
      ghost var b := Now();
      assert DirectMapped() == pages;
      if ok {
        KernelMapBuilt(a, b, who, pages);
      } else {
        KernelMapPartial(a, b, who, pages, mapped);
        FreeVM(pml4);
        KernelMapUndone(a, b, Now(), who, pages);
        SameUseKeepsAll(a, Now(), pages);
        pml4 := 0;
      }
    }

    /** Take a page and clear it. */
    method TakeClearPage() returns (page: Word)
      requires Valid()
      modifies this`ram, this`freeHead, this`free, this`own
      ensures Valid()
      ensures page == 0 <==> old(free) == []
      ensures page == 0 ==> Now() == old(Now())
      ensures page != 0 ==> InDirectMap(page) && PageAt(page) == old(free)[0] && old(own)[PageAt(page)] == Free
      ensures page != 0 ==> Now() == PageFirst(old(Now()))
    {
      ghost var a := Now();
      page := Kalloc();
      if page != 0 {
        assert ListedIfFree(a.own, a.free, PageAt(page));
        ShapeFrame(ram, own, Clear(ram, PageAt(page)), own);
        FreeListFrame(ram, Clear(ram, PageAt(page)), freeHead, free, own, own, kernelEnd);
        ZeroFill(page);
      }
    }

    /** What SetupUVM and CopyUVM share: a cleared page mapped at USER_BASE. Without a free page
        nothing happens; without pages for the tables, the whole map is given up. */
    method MapNewUserPage(pml4: Word) returns (page: Word, ok: bool)
      requires Ready() && IsRoot(pml4) && !UserMapped(ram, PageAt(pml4))
      modifies this`ram, this`freeHead, this`free, this`own
      ensures Ready() && (ok ==> page != 0)
      ensures page == 0 <==> old(free) == []
      ensures page == 0 ==> Now() == old(Now())
      ensures page != 0 && !ok ==> Dropped(old(Now()), Now(), PageAt(pml4))
      ensures ok ==> Took(old(Now()), Now(), PageAt(pml4)) && IsRoot(pml4) && UserMapped(ram, PageAt(pml4))
      ensures ok ==>
        InDirectMap(page) && PageAt(page) == UserPageOf(ram, PageAt(pml4)) && ram[PageAt(page)] == ZeroPage()
      ensures ok ==> own[PageAt(page)] == UserPage(PageAt(pml4), USER_VPN) && old(own)[PageAt(page)] == Free
      ensures ok <==> |old(free)| >= 3
      ensures ok ==> |free| == |old(free)| - 3
    {
      ghost var a, root, pages := Now(), PageAt(pml4), DirectMapped();
      ok := false;
      page := TakeClearPage();
      if page == 0 {
        return;
      }
      UserRangeUnmapped(a, root);
      UserTablesMissing(a, root, pages);
      ghost var mapped;
      ok, mapped := MapPages(pml4, USER_BASE, USER_BASE + PAGE_SIZE, VirToPhy(page), UserAttributes());
      UserPageTaken(a, Now(), root);
      assert DirectMapped() == pages;
      if ok {
        UserMapBuilt(a, Now(), root, pages);
        UserListed(Now(), freeHead, kernelEnd, PageAt(page), root);
        own := UserAdded(Now(), PageAt(page), root).own;
        assert DirectMapped() == pages;
      } else {
        GiveUpMap(pml4, page, a);
      }
    }

    /** The error path of SetupUVM and CopyUVM: `kfree(page); FreeVM(map)`. */
    method GiveUpMap(pml4: Word, page: Word, ghost a: Snapshot)
      requires Valid() && IsRoot(pml4) && InDirectMap(page)
      requires Aligned(freeEnd) && KERNEL_BASE < freeEnd <= VIRTUAL_END
      requires Shape(a.ram, a.own) && SpacesOk(a.ram, a.own, DirectMapped()) && a.own[PageAt(pml4)].Root?
        && !UserMapped(a.ram, PageAt(pml4))
      requires a.free != [] && a.free[0] == PageAt(page) && a.own[PageAt(page)] == Free
      requires Grown(PageFirst(a), Now(), PageAt(pml4), USER_ATTR, SlotsOf(USER_VPN, 1))
      requires MapsRange(PageFirst(a).ram, ram, PageAt(pml4), USER_VPN, 0, PagePhysical(PageAt(page)), USER_ATTR)
      modifies this`ram, this`freeHead, this`free, this`own
      ensures Ready() && Dropped(a, Now(), PageAt(pml4))
    {
      ghost var b, root, pages := Now(), PageAt(pml4), DirectMapped();
      UserPageTaken(a, b, root);
      assert AboveKernel(own, kernelEnd, PageAt(page));
      NoUserRecorded(a, b, Store(b.ram, PageAt(page), 0, freeHead), root, pages);
      Kfree(page);
      ghost var c := Now();
      FreeVM(pml4);
      assert DirectMapped() == pages;
      UserMapGivenUp(a, b, c, Now(), root, pages);
    }

    /** memcpy between two pages, in words: `n` words from position `first` of `src` to the start of `dst`. */
    method CopyWords(dst: Word, src: Word, first: nat, n: nat)
      requires InDirectMap(dst) && InDirectMap(src) && PageAt(dst) != PageAt(src) && first + n <= PAGE_WORDS
      modifies this`ram
      ensures forall p: PageNo :: p != PageAt(dst) ==> ram[p] == old(ram)[p]
      ensures forall i :: 0 <= i < PAGE_WORDS ==>
        ram[PageAt(dst)][i] == if i < n then old(ram)[PageAt(src)][first + i] else old(ram)[PageAt(dst)][i]
    {
      for k := 0 to n
        invariant forall p: PageNo :: p != PageAt(dst) ==> ram[p] == old(ram)[p]
        invariant forall i :: 0 <= i < PAGE_WORDS ==>
          ram[PageAt(dst)][i] == if i < k then old(ram)[PageAt(src)][first + i] else old(ram)[PageAt(dst)][i]
      {
        ram := Store(ram, PageAt(dst), k, ram[PageAt(src)][first + k]);
      }
    }

    /** The same into the user page of a map: no translation changes. */
    method FillUserPage(page: Word, src: Word, first: nat, n: nat)
      requires Ready() && InDirectMap(page) && InDirectMap(src) && PageAt(page) != PageAt(src)
        && first + n <= PAGE_WORDS
      requires own[PageAt(page)].UserPage? && ram[PageAt(page)] == ZeroPage()
      modifies this`ram
      ensures Ready() && (forall p: PageNo :: p != PageAt(page) ==> ram[p] == old(ram)[p])
      ensures forall r: PageNo :: own[r].Root? ==> SameWalks(old(ram), ram, r)
      ensures HoldsCopy(ram[PageAt(page)], old(ram)[PageAt(src)], first, n)
    {
      ghost var a := Now();
      CopyWords(page, src, first, n);
      FreeListFrame(a.ram, ram, freeHead, free, own, own, kernelEnd);
      ContentChange(a, Now(), PageAt(page), DirectMapped());
    }

    /** Give the map a user page that starts with `size` bytes from `start`, which takes three pages. The first missing
        page
        leaves everything as it was; a later one costs the whole map. */
    method SetupUVM(pml4: Word, start: Word, size: nat) returns (ok: bool)
      requires Ready() && IsRoot(pml4) && !UserMapped(ram, PageAt(pml4))
      requires start % 8 == 0 && size % 8 == 0 && start % PAGE_SIZE + size <= PAGE_SIZE
      requires InDirectMap(AlignDown(start)) && own[PageAt(AlignDown(start))] != Free
      modifies this`ram, this`freeHead, this`free, this`own
      ensures Ready()
      ensures (ok <==> |old(free)| >= 3) && (ok ==> |free| == |old(free)| - 3)
      ensures !ok ==> if old(free) == [] then Now() == old(Now()) else Dropped(old(Now()), Now(), PageAt(pml4))
      ensures ok ==> Took(old(Now()), Now(), PageAt(pml4)) && HasUserPage(ram, PageAt(pml4))
      ensures ok && !InTree(old(own), PageAt(pml4), PageAt(AlignDown(start))) ==>
        HoldsCopy(ram[UserPageOf(ram, PageAt(pml4))], old(ram)[PageAt(AlignDown(start))], start % PAGE_SIZE / 8,
          size / 8)
    {
      ghost var a, root := Now(), PageAt(pml4);
      var page;
      page, ok := MapNewUserPage(pml4);
      if ok {
        ghost var b := Now();
        assert TookPage(a.own, own, root, PageAt(AlignDown(start)))
          && KeptContent(a, b, root, PageAt(AlignDown(start)));
        FillUserPage(page, AlignDown(start), start % PAGE_SIZE / 8, size / 8);
        CopyTakes(a, b, Now(), root, PageAt(page));
      }
    }

    /** Give the new map a user page with the first `size` bytes of the current map's. For a live
        current map its directory is always found, so the branch for a missing one is never taken. */
    method CopyUVM(newMap: Word, currentMap: Word, size: nat) returns (ok: bool)
      requires Ready() && IsRoot(newMap) && IsRoot(currentMap) && newMap != currentMap
      requires !UserMapped(ram, PageAt(newMap)) && UserMapped(ram, PageAt(currentMap))
      requires size % 8 == 0 && size <= PAGE_SIZE
      modifies this`ram, this`freeHead, this`free, this`own
      ensures Ready()
      ensures (ok <==> |old(free)| >= 3) && (ok ==> |free| == |old(free)| - 3)
      ensures !ok ==> if old(free) == [] then Now() == old(Now()) else Dropped(old(Now()), Now(), PageAt(newMap))
      ensures ok ==> Took(old(Now()), Now(), PageAt(newMap)) && HasUserPage(ram, PageAt(newMap))
      ensures ok ==> HasUserPage(old(ram), PageAt(currentMap))
      ensures ok ==>
        HoldsCopy(ram[UserPageOf(ram, PageAt(newMap))], old(ram)[UserPageOf(old(ram), PageAt(currentMap))], 0, size / 8)
    {
      ghost var a, root, pages := Now(), PageAt(newMap), DirectMapped();
      var page;
      page, ok := MapNewUserPage(newMap);
      if ok {
        ghost var b := Now();
        OtherUserPage(a, b, root, PageAt(currentMap), pages);
        var start := CurrentUserPage(currentMap);
        assert Now() == b && DirectMapped() == pages;
        FillUserPage(page, start, 0, size / 8);
        CopyTakes(a, b, Now(), root, PageAt(page));
      }
    }

    /** The page that the current map shows at USER_BASE. */
    method CurrentUserPage(currentMap: Word) returns (start: Word)
      requires Valid() && IsRoot(currentMap) && HasUserPage(ram, PageAt(currentMap))
      modifies this`ram, this`freeHead, this`free, this`own
      ensures Valid() && Now() == old(Now())
      ensures start == PageVirtual(UserPageOf(ram, PageAt(currentMap)))
    {
      var pd := FindPageDirPointerTableEntry(currentMap, USER_BASE, false, 0, {});
      VpnIndices(USER_BASE);
      assert Pml4Index(USER_BASE) == 0 && PdptIndex(USER_BASE) == 0 && PdIndex(USER_BASE) == 2;
      if pd != 0 {
        var index := PdIndexOf(USER_BASE);
        DirectoryWalk(ram, own, PageAt(currentMap), 0, 0, 2, own[PageAt(pd)].parent, PageAt(pd));
        assert IsPresent(ram[PageAt(pd)][index]);
        LeafPointer(ram[PageAt(pd)][index], UserPageOf(ram, PageAt(currentMap)));
        start := PhyToVir(PageAddressOf(ram[PageAt(pd)][index]));
      } else {
        assert false;
      }
    }

    // ----- Pages for other uses -----

    /** Take and clear a page for a use that no map knows of. */
    method TakePage(ghost use: Owner) returns (page: Word)
      requires Ready() && (use.Stack? || use == Kernel)
      modifies this`ram, this`freeHead, this`free, this`own
      ensures Ready()
      ensures page == 0 <==> old(free) == []
      ensures page == 0 ==> Now() == old(Now())
      ensures page != 0 ==> InDirectMap(page) && PageAt(page) == old(free)[0] && old(own)[PageAt(page)] == Free
      ensures page != 0 ==> own == Assign(old(own), PageAt(page), use) && free == old(free)[1..]
      ensures page != 0 ==> ram == Clear(old(ram), PageAt(page))
    {
      ghost var a := Now();
      page := TakeClearPage();
      if page != 0 {
        ghost var own' := Assign(a.own, PageAt(page), use);
        OtherUse(a, Snapshot(ram, own', free), PageAt(page), DirectMapped());
        FreeListFrame(ram, ram, freeHead, free, own, own', kernelEnd);
        own := own';
      }
    }

    method GivePage(page: Word)
      requires Ready() && InDirectMap(page) && (own[PageAt(page)].Stack? || own[PageAt(page)] == Kernel)
      modifies this`ram, this`freeHead, this`free, this`own
      ensures Ready() && free == [PageAt(page)] + old(free) && own == Assign(old(own), PageAt(page), Free)
      ensures forall p: PageNo :: p != PageAt(page) ==> ram[p] == old(ram)[p]
    {
      ghost var a := Now();
      assert AboveKernel(own, kernelEnd, PageAt(page));
      Kfree(page);
      OtherUse(a, Now(), PageAt(page), DirectMapped());
    }

    /** Take a page, use it as a buffer, and give it back: the free list is the same again. */
    method BorrowPage(data: PageData)
      requires Ready() && free != []
      modifies this`ram, this`freeHead, this`free, this`own
      ensures Ready() && free == old(free) && own == old(own) && SameUse(old(Now()), Now())
    {
      ghost var a := Now();
      var page := TakePage(Kernel);
      ram := ram[PageAt(page) := data];
      FreeListFrame(Clear(a.ram, PageAt(page)), ram, freeHead, free, own, own, kernelEnd);
      ContentChange(Snapshot(Clear(a.ram, PageAt(page)), own, free), Now(), PageAt(page), DirectMapped());
      GivePage(page);
      forall p: PageNo ensures SamePage(a, Now(), p) { }
    }

    /** FreeVM on a finished map. */
    method ReleaseMap(pml4: Word)
      requires Ready() && IsRoot(pml4)
      modifies this`ram, this`freeHead, this`free, this`own
      ensures Ready() && Dropped(old(Now()), Now(), PageAt(pml4))
    {
      ghost var a, root, pages := Now(), PageAt(pml4), DirectMapped();
      SpaceRecords(ram, own, root, pages);
      FreeVM(pml4);
      assert DirectMapped() == pages;
      DroppedKeepsSpaces(a, Now(), root, pages);
    }

    /** Overwrite the user page of the map. */
    method WriteUserPage(pml4: Word, data: PageData)
      requires Ready() && IsRoot(pml4) && HasUserPage(ram, PageAt(pml4))
      modifies this`ram
      ensures Ready() && ram == old(ram)[UserPageOf(old(ram), PageAt(pml4)) := data]
      ensures own[UserPageOf(old(ram), PageAt(pml4))] == UserPage(PageAt(pml4), USER_VPN)
      ensures forall r: PageNo :: own[r].Root? ==> SameWalks(old(ram), ram, r)
    {
      ghost var a, root, pages := Now(), PageAt(pml4), DirectMapped();
      SpaceRecords(ram, own, root, pages);
      var u := UserPageOf(ram, PageAt(pml4));
      ram := ram[u := data];
      FreeListFrame(a.ram, ram, freeHead, free, own, own, kernelEnd);
      ContentChange(a, Now(), u, pages);
    }

    // ----- Collecting the memory at boot -----

    constructor (end: Word, contents: Ram)
      requires end > KERNEL_BASE
      ensures kernelEnd == end && ram == contents && free == [] && Valid()
      ensures forall p: PageNo :: own[p] == Reserved
    {
      kernelEnd := end;
      ram := contents;
      freeHead := 0;
      freeEnd := 0;
      free := [];
      own := seq(PAGES, _ => Reserved);
    }

    /** Hand every whole page of [vStart, vEnd) that the kernel can address to the allocator. */
    method FreeRegion(vStart: Word, vEnd: Word)
      requires FreeListOk() && vStart >= kernelEnd && vStart >= KERNEL_BASE && vEnd + 2 * PAGE_SIZE <= WORD_LIMIT
        && vStart <= vEnd
      requires forall p: PageNo :: PageWithin(p, vStart, vEnd) ==> own[p] == Reserved
      modifies this`ram, this`freeHead, this`free, this`own
      ensures FreeListOk()
      ensures forall p: PageNo :: Collected(old(own), own, p, vStart, vEnd)
      ensures PushedDescending(old(free), free, vStart, vEnd)
    {
      var start := FirstPage(vStart);
      CollectedNothing(own, free, vStart, start);
      while start + PAGE_SIZE <= vEnd
        invariant vStart <= start && (start <= vEnd || start < vStart + PAGE_SIZE)
        invariant Aligned(start)
        invariant FreeListOk()
        invariant forall p: PageNo :: Collected(old(own), own, p, vStart, start)
        invariant PushedDescending(old(free), free, vStart, start)
        decreases vEnd + PAGE_SIZE - start
      {
        start := CollectPage(start, vStart, vEnd, old(own), old(free));
      }
      CollectedAll(old(own), own, old(free), free, vStart, start, vEnd);
    }

    method FirstPage(v: Word) returns (start: Word)
      requires v + PAGE_SIZE - 1 < WORD_LIMIT
      ensures Aligned(start) && v <= start < v + PAGE_SIZE
    {
      start := PageAlignUp(v);
      AlignUpFacts(v);
    }

    /** One round of the loop of FreeRegion. */
    method CollectPage(start: Word, ghost vStart: Word, ghost vEnd: Word, ghost own0: Owners, ghost free0: seq<PageNo>)
      returns (next: Word)
      requires FreeListOk() && vStart >= kernelEnd && vStart >= KERNEL_BASE && Aligned(start) && vStart <= start
      requires start + PAGE_SIZE <= vEnd && start + 2 * PAGE_SIZE <= WORD_LIMIT
      requires forall p: PageNo :: PageWithin(p, vStart, vEnd) ==> own0[p] == Reserved
      requires forall p: PageNo :: Collected(own0, own, p, vStart, start)
      requires PushedDescending(free0, free, vStart, start)
      modifies this`ram, this`freeHead, this`free, this`own
      ensures FreeListOk() && next == start + PAGE_SIZE && Aligned(next)
      ensures forall p: PageNo :: Collected(own0, own, p, vStart, next)
      ensures PushedDescending(free0, free, vStart, next)
    {
      ghost var was, list := own, free;
      AlignedNext(start);
      next := start + PAGE_SIZE;
      if start + PAGE_SIZE <= VIRTUAL_END {
        ghost var q := PageAt(start);
        assert PageWithin(q, vStart, vEnd) && !PageWithin(q, vStart, start);
        assert Collected(own0, own, q, vStart, start);
        Kfree(start);
        PushedNext(free0, list, q, vStart, start);
      } else {
        PushedSame(free0, list, vStart, start);
      }
      forall p: PageNo ensures Collected(own0, own, p, vStart, next) {
        assert Collected(own0, was, p, vStart, start);
        WithinNext(p, vStart, start);
      }
    }

    /** Collect the RAM of the BIOS memory map. */
    method RetrieveMemoryInfo(bios: seq<E820>)
      requires Valid() && free == [] && kernelEnd >= KERNEL_BASE && forall p: PageNo :: own[p] == Reserved
      requires |bios| < MAX_REGIONS
      requires forall e :: e in bios ==> e.address + e.length + 2 * PAGE_SIZE <= WORD_LIMIT - KERNEL_BASE
      requires PagesOnce(bios, kernelEnd)
      modifies this
      ensures Valid()
      ensures forall p: PageNo :: own[p] == if InMap(bios, kernelEnd, p) then Free else Reserved
      ensures freeEnd == if free == [] then PAGE_SIZE else PageVirtual(free[0]) + PAGE_SIZE
      ensures InOrder(bios) ==> forall p: PageNo :: own[p] == Free ==> PageVirtual(p) + PAGE_SIZE <= freeEnd
      ensures |free| == |MapPool(bios, kernelEnd)|
    {
      var regions := CollectUsable(bios);
      UsableIsMap(bios, kernelEnd);
      UsableBounds(bios);
      CollectRegions(regions);
      freeEnd := if freeHead == 0 then PAGE_SIZE else freeHead + PAGE_SIZE;
      forall p: PageNo ensures own[p] == if InMap(bios, kernelEnd, p) then Free else Reserved {
        assert CollectedUpTo(own, regions, |regions|, kernelEnd, p);
      }
      forall p: PageNo | own[p] == Free ensures free != [] && (HighestFirst(free) ==> p <= free[0]) {
        assert ListedIfFree(own, free, p);
      }
      NoTablesShape(ram, own);
      PoolSize(own, free, bios, kernelEnd);
    }

    /** The first loop of RetrieveMemoryInfo. */
    static method CollectUsable(bios: seq<E820>) returns (regions: seq<FreeMemoryRegion>)
      ensures regions == Usable(bios)
    {
      regions := [];
      for i := 0 to |bios|
        invariant regions == Usable(bios[..i])
      {
        assert bios[..i + 1][..i] == bios[..i];
        if bios[i].kind == USABLE_RAM {
          regions := regions + [FreeMemoryRegion(bios[i].address, bios[i].length)];
        }
      }
      assert bios[..|bios|] == bios;
    }

    /** The second loop. */
    method CollectRegions(regions: seq<FreeMemoryRegion>)
      requires FreeListOk() && kernelEnd >= KERNEL_BASE && free == [] && forall p: PageNo :: own[p] == Reserved
      requires forall r :: r in regions ==> r.address + r.length + 2 * PAGE_SIZE <= WORD_LIMIT - KERNEL_BASE
      requires PagesApart(regions, kernelEnd)
      modifies this`ram, this`freeHead, this`free, this`own
      ensures FreeListOk()
      ensures forall p: PageNo :: CollectedUpTo(own, regions, |regions|, kernelEnd, p)
      ensures Ascending(regions) ==> HighestFirst(free)
    {
      for i := 0 to |regions|
        invariant FreeListOk()
        invariant forall p: PageNo :: CollectedUpTo(own, regions, i, kernelEnd, p)
        invariant Ascending(regions) ==>
          HighestFirst(free) && forall k :: 0 <= k < |free| ==> BelowRegions(free[k], regions, i)
      {
        CollectRegion(regions, i, i + 1);
      }
    }

    /** One round of the second loop of RetrieveMemoryInfo. */
    method CollectRegion(regions: seq<FreeMemoryRegion>, i: nat, ghost next: nat)
      requires FreeListOk() && kernelEnd >= KERNEL_BASE && next == i + 1 <= |regions|
      requires regions[i].address + regions[i].length + 2 * PAGE_SIZE <= WORD_LIMIT - KERNEL_BASE
      requires PagesApart(regions, kernelEnd)
      requires forall p: PageNo :: CollectedUpTo(own, regions, i, kernelEnd, p)
      requires Ascending(regions) ==>
        HighestFirst(free) && forall k :: 0 <= k < |free| ==> BelowRegions(free[k], regions, i)
      modifies this`ram, this`freeHead, this`free, this`own
      ensures FreeListOk()
      ensures forall p: PageNo :: CollectedUpTo(own, regions, next, kernelEnd, p)
      ensures Ascending(regions) ==>
        HighestFirst(free) && forall k :: 0 <= k < |free| ==> BelowRegions(free[k], regions, i + 1)
    {
      var vStart := PhyToVir(regions[i].address);
      var vEnd := vStart + regions[i].length;
      ghost var from := RegionStart(regions[i], kernelEnd);
      ghost var was, list := own, free;
      forall p: PageNo | PageWithin(p, from, vEnd) ensures own[p] == Reserved {
        assert CollectedUpTo(own, regions, i, kernelEnd, p);
        assert RegionHolds(regions[i], kernelEnd, p);
      }
      if vStart > kernelEnd {
        FreeRegion(vStart, vEnd);
      } else if vEnd > kernelEnd {
        FreeRegion(kernelEnd, vEnd);
      }
      forall p: PageNo ensures Collected(was, own, p, from, vEnd) { }
      forall p: PageNo ensures CollectedUpTo(own, regions, next, kernelEnd, p) {
        assert CollectedUpTo(was, regions, i, kernelEnd, p) && Collected(was, own, p, from, vEnd);
        InSomeNext(regions, i, kernelEnd, p);
      }
      if Ascending(regions) { HighestNext(list, free, regions, i, kernelEnd); }
    }
  }

  // ----- The BIOS memory map -----

  const MAX_REGIONS := 50
  const USABLE_RAM := 1

  datatype E820 = E820(address: Word, length: Word, kind: nat)
  datatype FreeMemoryRegion = FreeMemoryRegion(address: Word, length: Word)

  /** The usable entries, in order. */
  function Usable(bios: seq<E820>): seq<FreeMemoryRegion> {
    if bios == [] then []
    else
      var last := bios[|bios| - 1];
      Usable(bios[..|bios| - 1]) + if last.kind == USABLE_RAM then [FreeMemoryRegion(last.address, last.length)] else []
  }

  /** The entry is RAM (type 1) and holds the whole page, at or above the end of the kernel. */
  predicate HoldsPage(e: E820, kernelEnd: Word, p: PageNo) {
    && e.kind == 1 && kernelEnd <= KERNEL_BASE + p * PAGE_SIZE
    && e.address <= p * PAGE_SIZE && (p + 1) * PAGE_SIZE <= e.address + e.length
  }

  ghost predicate InMap(bios: seq<E820>, kernelEnd: Word, p: PageNo) {
    exists i: nat :: i < |bios| && HoldsPage(bios[i], kernelEnd, p)
  }

  /** The pages of RAM that the kernel may use. */
  ghost function MapPool(bios: seq<E820>, kernelEnd: Word): set<PageNo> {
    set p: PageNo | InMap(bios, kernelEnd, p)
  }

  /** No page is listed as RAM twice. */
  ghost predicate PagesOnce(bios: seq<E820>, kernelEnd: Word) {
    forall i: nat, k: nat, p: PageNo ::
      i < k < |bios| && HoldsPage(bios[i], kernelEnd, p) ==> !HoldsPage(bios[k], kernelEnd, p)
  }

  /** The RAM is listed by ascending addresses. */
  predicate InOrder(bios: seq<E820>) {
    forall i: nat, k: nat ::
      i < k < |bios| && bios[i].kind == bios[k].kind == 1 ==> bios[i].address + bios[i].length <= bios[k].address
  }

  /** The `k`-th region is that of entry `i`, which is of type 1. */
  predicate ComesFrom(bios: seq<E820>, regions: seq<FreeMemoryRegion>, k: nat, i: nat)
    requires k < |regions|
  {
    i < |bios| && bios[i].kind == 1 && regions[k] == FreeMemoryRegion(bios[i].address, bios[i].length)
  }

  /** The regions are those of the entries of type 1, each once, in the order of the map: `from` tells which. */
  lemma {:induction false} UsableOrder(bios: seq<E820>) returns (from: seq<nat>)
    ensures |from| == |Usable(bios)|
    ensures forall k: nat :: k < |from| ==> ComesFrom(bios, Usable(bios), k, from[k])
    ensures forall j, k :: 0 <= j < k < |from| ==> from[j] < from[k]
    ensures forall i: nat :: i < |bios| && bios[i].kind == 1 ==> i in from
  {
    from := [];
    if bios != [] {
      var n := |bios| - 1;
      var rest := UsableOrder(bios[..n]);
      from := rest + if bios[n].kind == USABLE_RAM then [n] else [];
      forall k: nat | k < |from| ensures ComesFrom(bios, Usable(bios), k, from[k]) && (k < |rest| ==> from[k] < n) {
        if k < |rest| { assert ComesFrom(bios[..n], Usable(bios[..n]), k, rest[k]); }
      }
      forall i: nat | i < |bios| && bios[i].kind == 1 ensures i in from {
        if i < n {
          assert bios[..n][i] == bios[i];
          assert i in rest;
        } else {
          assert from[|rest|] == i;
        }
      }
    }
  }

  /** What is said of the map holds of the regions. */
  lemma UsableIsMap(bios: seq<E820>, kernelEnd: Word)
    requires kernelEnd >= KERNEL_BASE
    ensures var regions := Usable(bios);
      && (forall p: PageNo :: InSome(regions, |regions|, kernelEnd, p) <==> InMap(bios, kernelEnd, p))
      && (PagesOnce(bios, kernelEnd) ==> PagesApart(regions, kernelEnd))
      && (InOrder(bios) ==> Ascending(regions))
  {
    var regions := Usable(bios);
    var from := UsableOrder(bios);
    forall k, p: PageNo | 0 <= k < |from|
      ensures from[k] < |bios| && (RegionHolds(regions[k], kernelEnd, p) <==> HoldsPage(bios[from[k]], kernelEnd, p))
    {
      assert ComesFrom(bios, regions, k, from[k]);
      assert PageVirtual(p) == KERNEL_BASE + p * PAGE_SIZE;
    }
    forall i, k | 0 <= i < k < |regions| && InOrder(bios)
      ensures regions[i].address + regions[i].length <= regions[k].address
    {
      assert ComesFrom(bios, regions, i, from[i]) && ComesFrom(bios, regions, k, from[k]);
    }
    forall p: PageNo ensures InSome(regions, |regions|, kernelEnd, p) <==> InMap(bios, kernelEnd, p) {
      if InSome(regions, |regions|, kernelEnd, p) {
        var k :| 0 <= k < |regions| && RegionHolds(regions[k], kernelEnd, p);
        assert HoldsPage(bios[from[k]], kernelEnd, p);
      }
      if InMap(bios, kernelEnd, p) {
        var i: nat :| i < |bios| && HoldsPage(bios[i], kernelEnd, p);
        var k :| 0 <= k < |from| && from[k] == i;
        assert RegionHolds(regions[k], kernelEnd, p);
      }
    }
  }

  lemma {:induction false} UsableBounds(bios: seq<E820>)
    requires forall e :: e in bios ==> e.address + e.length + 2 * PAGE_SIZE <= WORD_LIMIT - KERNEL_BASE
    ensures forall r :: r in Usable(bios) ==> r.address + r.length + 2 * PAGE_SIZE <= WORD_LIMIT - KERNEL_BASE
  {
    if bios != [] { UsableBounds(bios[..|bios| - 1]); }
  }

  /** Where the usable part of a region starts, as a kernel address. */
  function RegionStart(r: FreeMemoryRegion, kernelEnd: Word): int {
    if KERNEL_BASE + r.address > kernelEnd then KERNEL_BASE + r.address else kernelEnd
  }

  predicate RegionHolds(r: FreeMemoryRegion, kernelEnd: Word, p: PageNo) {
    PageWithin(p, RegionStart(r, kernelEnd), KERNEL_BASE + r.address + r.length)
  }

  /** The page lies in one of the first `n` regions. */
  ghost predicate InSome(regions: seq<FreeMemoryRegion>, n: nat, kernelEnd: Word, p: PageNo) {
    exists i :: 0 <= i < n <= |regions| && RegionHolds(regions[i], kernelEnd, p)
  }

  /** The free list has one entry for each page of RAM. */
  lemma PoolSize(own: Owners, free: seq<PageNo>, bios: seq<E820>, kernelEnd: Word)
    requires NoRepeats(free) && forall p: PageNo :: ListedIfFree(own, free, p)
    requires forall p: PageNo :: own[p] == Free <==> InMap(bios, kernelEnd, p)
    ensures |free| == |MapPool(bios, kernelEnd)|
  {
    forall p: PageNo ensures p in free <==> p in MapPool(bios, kernelEnd) { assert ListedIfFree(own, free, p); }
    assert MapPool(bios, kernelEnd) == Members(free);
    CountDistinct(free);
  }

  ghost function Members(q: seq<PageNo>): set<PageNo> { set p: PageNo | p in q }

  lemma {:induction false} CountDistinct(q: seq<PageNo>)
    requires NoRepeats(q)
    ensures |Members(q)| == |q|
  {
    if q == [] {
      assert Members(q) == {};
    } else {
      TailNoRepeats(q);
      CountDistinct(q[1..]);
      assert Members(q) == {q[0]} + Members(q[1..]);
    }
  }

  ghost predicate CollectedUpTo(own: Owners, regions: seq<FreeMemoryRegion>, n: nat, kernelEnd: Word, p: PageNo) {
    own[p] == if InSome(regions, n, kernelEnd, p) then Free else Reserved
  }

  /** `n` pages from `first` on. */
  ghost function Interval(first: nat, n: nat): (r: set<PageNo>)
    requires first + n <= PAGES
    ensures |r| == n && forall p: PageNo :: p in r <==> first <= p < first + n
  {
    if n == 0 then {}
    else
      var less, last: PageNo := Interval(first, n - 1), first + n - 1;
      assert last !in less;
      less + {last}
  }

  /** There is a memory map with any number of usable pages, for a kernel that ends below 32 MB. */
  lemma MapWithPages(n: nat, kernelEnd: Word) returns (bios: seq<E820>)
    requires n <= PAGES - 16 && KERNEL_BASE < kernelEnd <= KERNEL_BASE + 16 * PAGE_SIZE
    ensures |bios| < MAX_REGIONS && PagesOnce(bios, kernelEnd) && InOrder(bios)
    ensures forall e :: e in bios ==> e.address + e.length + 2 * PAGE_SIZE <= WORD_LIMIT - KERNEL_BASE
    ensures |MapPool(bios, kernelEnd)| == n
  {
    bios := [E820(16 * PAGE_SIZE, n * PAGE_SIZE, 1)];
    forall p: PageNo ensures InMap(bios, kernelEnd, p) <==> 16 <= p < 16 + n {
      assert InMap(bios, kernelEnd, p) <==> HoldsPage(bios[0], kernelEnd, p);
    }
    assert MapPool(bios, kernelEnd) == Interval(16, n);
  }

  /** No page lies in two regions. */
  ghost predicate PagesApart(regions: seq<FreeMemoryRegion>, kernelEnd: Word) {
    forall i, k, p: PageNo ::
      0 <= i < k < |regions| && RegionHolds(regions[i], kernelEnd, p) ==> !RegionHolds(regions[k], kernelEnd, p)
  }

  predicate Ascending(regions: seq<FreeMemoryRegion>) {
    forall i, k :: 0 <= i < k < |regions| ==> regions[i].address + regions[i].length <= regions[k].address
  }

  predicate HighestFirst(free: seq<PageNo>) { forall k :: 0 <= k < |free| ==> free[k] <= free[0] }

  /** The page ends below all regions from `n` on. */
  predicate BelowRegions(p: PageNo, regions: seq<FreeMemoryRegion>, n: nat) {
    forall k :: n <= k < |regions| ==> PageVirtual(p) + PAGE_SIZE <= KERNEL_BASE + regions[k].address
  }

  lemma InSomeNext(regions: seq<FreeMemoryRegion>, i: nat, kernelEnd: Word, p: PageNo)
    requires i < |regions|
    ensures InSome(regions, i + 1, kernelEnd, p)
      <==> InSome(regions, i, kernelEnd, p) || RegionHolds(regions[i], kernelEnd, p)
  {
  }

  lemma HighestNext(list: seq<PageNo>, free: seq<PageNo>, regions: seq<FreeMemoryRegion>, i: nat, kernelEnd: Word)
    requires i < |regions| && Ascending(regions) && HighestFirst(list)
    requires forall k :: 0 <= k < |list| ==> BelowRegions(list[k], regions, i)
    requires PushedDescending(list, free, RegionStart(regions[i], kernelEnd),
      KERNEL_BASE + regions[i].address + regions[i].length)
      || free == list
    ensures HighestFirst(free) && forall k :: 0 <= k < |free| ==> BelowRegions(free[k], regions, i + 1)
  {
    var n := |free| - |list|;
    if free != list {
      forall k | 0 <= k < |free| ensures free[k] <= free[0] && BelowRegions(free[k], regions, i + 1) {
        if k >= n {
          assert FromEnd(list, |free| - 1 - k) == FromEnd(free, |free| - 1 - k);
          assert list != [] && FromEnd(list, |list| - 1) == FromEnd(free, |list| - 1);
          assert BelowRegions(list[k - n], regions, i);
          if n > 0 {
            assert PageWithin(free[0], RegionStart(regions[i], kernelEnd),
              KERNEL_BASE + regions[i].address + regions[i].length);
          }
        } else {
          assert PageWithin(free[k], RegionStart(regions[i], kernelEnd),
            KERNEL_BASE + regions[i].address + regions[i].length);
        }
      }
    }
  }

  lemma NoTablesShape(ram: Ram, own: Owners)
    requires forall p: PageNo :: !IsTable(own[p])
    ensures Shape(ram, own)
  {
    forall p: PageNo, i: Index ensures LeadsDown(ram, own, p, i) && IsLeaf(ram, own, p, i) { }
    forall c: PageNo ensures HangsUp(ram, own, c) { }
  }

  /** The page lies wholly inside the region. */
  predicate PageWithin(p: PageNo, vStart: int, vEnd: int) {
    vStart <= PageVirtual(p) && PageVirtual(p) + PAGE_SIZE <= vEnd
  }

  /** The page became free if it lies in the region, and kept its use otherwise. */
  ghost predicate Collected(a: Owners, b: Owners, p: PageNo, vStart: int, vEnd: int) {
    b[p] == if PageWithin(p, vStart, vEnd) then Free else a[p]
  }

  lemma WithinNext(p: PageNo, vStart: Word, start: Word)
    requires Aligned(start) && vStart <= start
    ensures PageWithin(p, vStart, start + PAGE_SIZE) <==> PageWithin(p, vStart, start) || PageVirtual(p) == start
  {
  }

  lemma WithinEnd(p: PageNo, vStart: Word, start: Word, vEnd: Word)
    requires Aligned(start) && start + PAGE_SIZE > vEnd && vStart <= start < vEnd + PAGE_SIZE
    requires start > vEnd ==> start < vStart + PAGE_SIZE
    ensures PageWithin(p, vStart, start) <==> PageWithin(p, vStart, vEnd)
  {
  }

  lemma AlignUpFacts(v: Word)
    requires v + PAGE_SIZE - 1 < WORD_LIMIT
    ensures Aligned(AlignUp(v)) && v <= AlignUp(v) < v + PAGE_SIZE
  {
  }

  lemma AlignedNext(a: Word)
    requires Aligned(a) && a + PAGE_SIZE < WORD_LIMIT
    ensures Aligned(a + PAGE_SIZE)
  {
    QuotientUnique(a + PAGE_SIZE, PAGE_SIZE, a / PAGE_SIZE + 1, 0);
  }

  lemma CollectedNothing(own: Owners, free: seq<PageNo>, vStart: Word, start: Word)
    requires start < vStart + PAGE_SIZE
    ensures (forall p: PageNo :: Collected(own, own, p, vStart, start)) && PushedDescending(free, free, vStart, start)
  {
  }

  /** At the end of the loop the whole region is collected. */
  lemma CollectedAll(a: Owners, b: Owners, before: seq<PageNo>, after: seq<PageNo>, vStart: Word, start: Word,
      vEnd: Word)
    requires Aligned(start) && vStart <= start && (start <= vEnd || start < vStart + PAGE_SIZE)
      && start + PAGE_SIZE > vEnd && vStart <= vEnd
    requires forall p: PageNo :: Collected(a, b, p, vStart, start)
    requires PushedDescending(before, after, vStart, start)
    ensures forall p: PageNo :: Collected(a, b, p, vStart, vEnd)
    ensures PushedDescending(before, after, vStart, vEnd)
  {
    forall p: PageNo ensures PageWithin(p, vStart, start) <==> PageWithin(p, vStart, vEnd) {
      WithinEnd(p, vStart, start, vEnd);
    }
    forall p: PageNo ensures Collected(a, b, p, vStart, vEnd) { assert Collected(a, b, p, vStart, start); }
  }

  /** Pages of the region were pushed one by one, from low to high addresses. */
  ghost predicate PushedDescending(before: seq<PageNo>, after: seq<PageNo>, vStart: int, vEnd: int) {
    && IsSuffix(before, after)
    && (forall i :: 0 <= i < |after| - |before| ==> PageWithin(after[i], vStart, vEnd))
    && (forall i, k :: 0 <= i < k < |after| - |before| ==> after[i] > after[k])
  }

  lemma PushedNext(before: seq<PageNo>, list: seq<PageNo>, q: PageNo, vStart: int, start: int)
    requires PushedDescending(before, list, vStart, start) && PageVirtual(q) == start && vStart <= start
    ensures PushedDescending(before, [q] + list, vStart, start + PAGE_SIZE)
  {
    var after := [q] + list;
    assert IsSuffix(list, after);
    SuffixTransitive(before, list, after);
    forall i | 0 <= i < |after| - |before|
      ensures PageWithin(after[i], vStart, start + PAGE_SIZE) && (i > 0 ==> q > after[i])
    {
      if i > 0 { assert PageWithin(list[i - 1], vStart, start); }
    }
  }

  lemma PushedSame(before: seq<PageNo>, list: seq<PageNo>, vStart: int, start: int)
    requires PushedDescending(before, list, vStart, start)
    ensures PushedDescending(before, list, vStart, start + PAGE_SIZE)
  {
  }

  /** `page` starts with `n` words of `from`, taken at position `first`, and is zero behind them. */
  predicate HoldsCopy(page: PageData, from: PageData, first: nat, n: nat)
    requires first + n <= PAGE_WORDS
  {
    forall i :: 0 <= i < PAGE_WORDS ==> page[i] == if i < n then from[first + i] else 0
  }

  lemma UserListed(b: Snapshot, head: Word, kernelEnd: Word, u: PageNo, r: PageNo)
    requires IsFreeList(b.ram, head, b.free, b.own, kernelEnd) && b.own[u] == Kernel
    ensures IsFreeList(b.ram, head, b.free, UserAdded(b, u, r).own, kernelEnd)
  {
    FreeListFrame(b.ram, b.ram, head, b.free, b.own, UserAdded(b, u, r).own, kernelEnd);
  }

  lemma LeafPointer(e: Word, c: PageNo)
    requires e / PAGE_SIZE == c
    ensures PhyToVir(PageAddress(e)) == PageVirtual(c) && PageAt(PageVirtual(c)) == c
  {
    PageAtVirtual(c);
  }
}
