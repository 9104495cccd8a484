/** How releasing a map changes memory: exactly the named pages go back to the free list. */
module MapRelease {
  import opened Bits
  import opened MemoryLayout
  import opened PageTables
  import opened MapGrowth
  import opened Wrappers

  ghost predicate UseAfter(a: Owners, b: Owners, gone: set<PageNo>, p: PageNo) {
    b[p] == if p in gone then Free else a[p]
  }

  ghost predicate ContentAfter(a: Snapshot, b: Snapshot, gone: set<PageNo>, r: PageNo, p: PageNo) {
    p in gone || InTree(a.own, r, p) || b.ram[p] == a.ram[p]
  }

  /** From `a` to `b` the pages of `gone`, none of them free before, were put on the free list;
      besides them only tables of the map in `r` were written. */
  ghost predicate Returned(a: Snapshot, b: Snapshot, gone: set<PageNo>, r: PageNo) {
    && IsSuffix(a.free, b.free)
    && (forall p :: p in gone ==> a.own[p] != Free)
    && (forall p: PageNo :: UseAfter(a.own, b.own, gone, p))
    && (forall p: PageNo :: ContentAfter(a, b, gone, r, p))
  }

  lemma ReturnedNothing(a: Snapshot, r: PageNo)
    ensures Returned(a, a, {}, r)
  {
  }

  lemma ReturnedTransitive(a: Snapshot, b: Snapshot, c: Snapshot, g: set<PageNo>, h: set<PageNo>, r: PageNo)
    requires Returned(a, b, g, r) && Returned(b, c, h, r)
    ensures Returned(a, c, g + h, r)
  {
    SuffixTransitive(a.free, b.free, c.free);
    forall p: PageNo ensures UseAfter(a.own, c.own, g + h, p) && ContentAfter(a, c, g + h, r, p) {
      assert UseAfter(a.own, b.own, g, p) && UseAfter(b.own, c.own, h, p);
      assert ContentAfter(a, b, g, r, p) && ContentAfter(b, c, h, r, p);
      if InTree(b.own, r, p) && p != r {
        assert UseAfter(a.own, b.own, g, b.own[p].parent);
      }
    }
    forall p | p in g + h ensures a.own[p] != Free {
      assert UseAfter(a.own, b.own, g, p);
    }
  }

  /** The child tables of `t` in entries below `n`. */
  ghost function ChildrenBelow(own: Owners, t: PageNo, n: nat): set<PageNo> {
    set c: PageNo | own[c].Table? && own[c].parent == t && own[c].slot < n
  }

  /** A page directory of the map in `r`, under a PML4 entry below `n`. */
  ghost predicate IsDirectoryBelow(own: Owners, r: PageNo, n: nat, d: PageNo) {
    own[d].Table? && own[d].level == 2 && own[own[d].parent].Table?
    && own[own[d].parent].level == 3 && own[own[d].parent].parent == r && own[own[d].parent].slot < n
  }

  ghost function DirectoriesBelow(own: Owners, r: PageNo, n: nat): set<PageNo> {
    set d: PageNo | IsDirectoryBelow(own, r, n, d)
  }

  /** All tables of the map in `r`. */
  ghost function TablesOf(own: Owners, r: PageNo): set<PageNo> {
    set p: PageNo | InTree(own, r, p)
  }

  /** Only page directories hang below a page-directory-pointer table, and nothing below them. */
  lemma NoGrandchildren(ram: Ram, own: Owners, t: PageNo)
    requires Shape(ram, own) && Level(own[t]) == 3
    ensures forall c: PageNo, x: PageNo :: own[c].Table? && own[c].parent == t && own[x].Table? ==> own[x].parent != c
  {
    forall c: PageNo, x: PageNo | own[c].Table? && own[c].parent == t && own[x].Table? ensures own[x].parent != c {
      assert HangsUp(ram, own, c) && HangsUp(ram, own, x);
    }
  }

  /** Freeing the table below entry `i` of `t` and clearing the entry. */
  lemma ChildReturned(a: Snapshot, r: PageNo, t: PageNo, i: Index, c: PageNo, link: Word)
    requires Shape(a.ram, a.own) && InTree(a.own, r, t) && a.own[c].Table? && a.own[c].parent == t && a.own[c].slot == i
    requires forall x: PageNo :: a.own[x].Table? ==> a.own[x].parent != c
    ensures
      var b := Snapshot(Store(Store(a.ram, c, 0, link), t, i, 0), Assign(a.own, c, Free), [c] + a.free);
      Shape(b.ram, b.own) && Returned(a, b, ChildrenBelow(a.own, t, i + 1) - ChildrenBelow(a.own, t, i), r)
  {
    var b := Snapshot(Store(Store(a.ram, c, 0, link), t, i, 0), Assign(a.own, c, Free), [c] + a.free);
    UnlinkKeepsShape(a.ram, a.own, c, link);
    OnlyChild(a.ram, a.own, t, i, c);
    assert b.free[1..] == a.free;
    forall p: PageNo ensures UseAfter(a.own, b.own, {c}, p) && ContentAfter(a, b, {c}, r, p) {
    }
  }

  lemma OnlyChild(ram: Ram, own: Owners, t: PageNo, i: Index, c: PageNo)
    requires Shape(ram, own) && own[c].Table? && own[c].parent == t && own[c].slot == i
    ensures ChildrenBelow(own, t, i + 1) - ChildrenBelow(own, t, i) == {c}
  {
    assert HangsUp(ram, own, c);
    var more := ChildrenBelow(own, t, i + 1) - ChildrenBelow(own, t, i);
    forall x | x in more ensures x == c {
      assert HangsUp(ram, own, x);
    }
    assert more == {c};
  }

  lemma NoChild(ram: Ram, own: Owners, t: PageNo, i: Index)
    requires Shape(ram, own) && ram[t][i] % 2 == 0
    ensures ChildrenBelow(own, t, i + 1) == ChildrenBelow(own, t, i)
  {
    forall x | x in ChildrenBelow(own, t, i + 1) ensures x in ChildrenBelow(own, t, i) {
      assert HangsUp(ram, own, x);
    }
  }

  /** A page mapped at `m` is the page recorded as mapped there. */
  ghost predicate PageRecorded(ram: Ram, own: Owners, r: PageNo, m: nat)
    requires m < VPN_LIMIT
  {
    && (WalkVpn(ram, r, m).Some? ==>
        WalkVpn(ram, r, m).value.e2 / PAGE_SIZE < PAGES
          && own[WalkVpn(ram, r, m).value.e2 / PAGE_SIZE] == UserPage(r, m))
    && (forall c: PageNo :: own[c] == UserPage(r, m) ==>
        WalkVpn(ram, r, m).Some? && WalkVpn(ram, r, m).value.e2 / PAGE_SIZE == c)
  }

  /** The pages recorded as mapped at the first `n` virtual pages from `n0` on. */
  ghost function UserPagesBelow(own: Owners, r: PageNo, n0: nat, n: nat): set<PageNo> {
    set c: PageNo | own[c].UserPage? && own[c].root == r && own[c].vpn < VPN_LIMIT
      && PositionInRange(n0, own[c].vpn) < n
  }

  ghost function MappedAt(own: Owners, r: PageNo, m: nat): set<PageNo> { set c: PageNo | own[c] == UserPage(r, m) }

  /** From `a` to `b` the first `n` virtual pages from `n0` on lost their mapping. */
  ghost predicate UnmapsRange(a: Ram, b: Ram, r: PageNo, n0: nat, n: nat) {
    forall m: nat | m < VPN_LIMIT :: PageUnmapped(a, b, r, m, PositionInRange(n0, m), n)
  }

  ghost predicate PageUnmapped(a: Ram, b: Ram, r: PageNo, m: nat, k: nat, n: nat)
    requires m < VPN_LIMIT
  {
    WalkVpn(b, r, m) == if k < n then None else WalkVpn(a, r, m)
  }

  /** Freeing the page mapped at `m` and clearing its leaf. */
  lemma LeafReturned(a: Snapshot, r: PageNo, m: nat, q: PageNo, d: PageNo, c: PageNo, link: Word)
    requires Shape(a.ram, a.own) && a.own[r].Root? && m < VPN_LIMIT && PageRecorded(a.ram, a.own, r, m)
    requires a.own[q] == Table(3, r, m / 0x4_0000) && a.own[d] == Table(2, q, m / 512 % 512)
    requires a.ram[d][m % 512] % 2 == 1 && c == a.ram[d][m % 512] / PAGE_SIZE
    ensures a.own[c] == UserPage(r, m)
    ensures
      var b := Snapshot(Store(Store(a.ram, c, 0, link), d, m % 512, 0), Assign(a.own, c, Free), [c] + a.free);
      Shape(b.ram, b.own) && Returned(a, b, {c}, r)
      && forall x: nat | x < VPN_LIMIT :: WalkVpn(b.ram, r, x) == if x == m then None else WalkVpn(a.ram, r, x)
  {
    DirectoryWalk(a.ram, a.own, r, m / 0x4_0000, m / 512 % 512, m % 512, q, d);
    var ram1, own1 := Store(a.ram, c, 0, link), Assign(a.own, c, Free);
    ShapeFrame(a.ram, a.own, ram1, own1);
    WalkFrame(a.ram, a.own, ram1, r);
    LeafWalks(ram1, own1, r, m / 0x4_0000, m / 512 % 512, m % 512, q, d, 0);
    var b := Snapshot(Store(ram1, d, m % 512, 0), own1, [c] + a.free);
    assert b.free[1..] == a.free;
    forall x: nat | x < VPN_LIMIT ensures WalkVpn(b.ram, r, x) == if x == m then None else WalkVpn(a.ram, r, x) {
      SameIndices(x, m);
    }
  }

  /** The record of mapped pages stays exact for the virtual pages not yet released. */
  lemma RecordKept(a: Snapshot, b: Snapshot, gone: set<PageNo>, r: PageNo, n0: nat, n: nat, m: nat)
    requires m < VPN_LIMIT && PageRecorded(a.ram, a.own, r, m) && PositionInRange(n0, m) >= n
    requires Returned(a, b, gone, r) && gone == UserPagesBelow(a.own, r, n0, n) && UnmapsRange(a.ram, b.ram, r, n0, n)
    ensures PageRecorded(b.ram, b.own, r, m)
  {
    assert PageUnmapped(a.ram, b.ram, r, m, PositionInRange(n0, m), n);
    forall c: PageNo | b.own[c] == UserPage(r, m) || a.own[c] == UserPage(r, m) ensures a.own[c] == b.own[c] {
      assert UseAfter(a.own, b.own, gone, c);
    }
  }

  /** One more virtual page released. */
  lemma ReleaseRound(a: Snapshot, b: Snapshot, c: Snapshot, r: PageNo, n0: nat, n: nat, m: nat)
    requires n0 < VPN_LIMIT && m < VPN_LIMIT && n < VPN_LIMIT && PositionInRange(n0, m) == n
    requires Returned(a, b, UserPagesBelow(a.own, r, n0, n), r) && UnmapsRange(a.ram, b.ram, r, n0, n)
    requires Returned(b, c, MappedAt(b.own, r, m), r)
    requires forall x: nat | x < VPN_LIMIT :: WalkVpn(c.ram, r, x) == if x == m then None else WalkVpn(b.ram, r, x)
    ensures Returned(a, c, UserPagesBelow(a.own, r, n0, n + 1), r) && UnmapsRange(a.ram, c.ram, r, n0, n + 1)
  {
    var g := MappedAt(b.own, r, m);
    ReturnedTransitive(a, b, c, UserPagesBelow(a.own, r, n0, n), g, r);
    assert UserPagesBelow(a.own, r, n0, n + 1) == UserPagesBelow(a.own, r, n0, n) + g by {
      forall p: PageNo ensures p in UserPagesBelow(a.own, r, n0, n + 1) <==> p in UserPagesBelow(a.own, r, n0, n) + g {
        assert UseAfter(a.own, b.own, UserPagesBelow(a.own, r, n0, n), p);
        if a.own[p].UserPage? && a.own[p].vpn < VPN_LIMIT {
          PositionRoundTrip(n0, a.own[p].vpn, n);
          PositionRoundTrip(n0, m, n);
        }
      }
    }
    forall x: nat | x < VPN_LIMIT ensures PageUnmapped(a.ram, c.ram, r, x, PositionInRange(n0, x), n + 1) {
      assert PageUnmapped(a.ram, b.ram, r, x, PositionInRange(n0, x), n);
      PositionRoundTrip(n0, x, n);
      PositionRoundTrip(n0, m, n);
    }
  }

  /** Freeing the children of the table under entry `i` frees the directories under that entry. */
  lemma DirectoriesRound(a: Snapshot, b: Snapshot, c: Snapshot, r: PageNo, i: Index, q: PageNo)
    requires Shape(a.ram, a.own) && Returned(a, b, DirectoriesBelow(a.own, r, i), r)
    requires b.own[q] == Table(3, r, i) && Shape(b.ram, b.own)
    requires Returned(b, c, ChildrenBelow(b.own, q, ENTRIES), r)
    ensures Returned(a, c, DirectoriesBelow(a.own, r, i + 1), r)
  {
    ReturnedTransitive(a, b, c, DirectoriesBelow(a.own, r, i), ChildrenBelow(b.own, q, ENTRIES), r);
    forall d: PageNo ensures d in DirectoriesBelow(a.own, r, i + 1)
      <==> d in DirectoriesBelow(a.own, r, i) + ChildrenBelow(b.own, q, ENTRIES) {
      assert UseAfter(a.own, b.own, DirectoriesBelow(a.own, r, i), d)
        && UseAfter(a.own, b.own, DirectoriesBelow(a.own, r, i), q);
      assert HangsUp(a.ram, a.own, d) && HangsUp(b.ram, b.own, d) && HangsUp(b.ram, b.own, q)
        && HangsUp(a.ram, a.own, q);
      if IsDirectoryBelow(a.own, r, i + 1, d) {
        assert HangsUp(a.ram, a.own, a.own[d].parent);
        if a.own[a.own[d].parent].slot == i { assert a.own[d].parent == q; }
      }
    }
    assert DirectoriesBelow(a.own, r, i + 1) == DirectoriesBelow(a.own, r, i) + ChildrenBelow(b.own, q, ENTRIES);
  }

  lemma NoDirectories(a: Snapshot, b: Snapshot, r: PageNo, i: Index)
    requires Shape(a.ram, a.own) && Shape(b.ram, b.own) && Returned(a, b, DirectoriesBelow(a.own, r, i), r)
    requires b.ram[r][i] % 2 == 0
    ensures Returned(a, b, DirectoriesBelow(a.own, r, i + 1), r)
  {
    forall d | d in DirectoriesBelow(a.own, r, i + 1) ensures d in DirectoriesBelow(a.own, r, i) {
      var q := a.own[d].parent;
      assert UseAfter(a.own, b.own, DirectoriesBelow(a.own, r, i), q) && HangsUp(b.ram, b.own, q);
    }
    assert DirectoriesBelow(a.own, r, i + 1) == DirectoriesBelow(a.own, r, i);
  }

  /** Once the directories are gone, nothing hangs below the children of the root. */
  lemma NoGrandchildrenLeft(a: Snapshot, b: Snapshot, r: PageNo)
    requires Shape(a.ram, a.own) && a.own[r].Root? && Shape(b.ram, b.own)
    requires Returned(a, b, DirectoriesBelow(a.own, r, ENTRIES), r)
    ensures b.own[r] == a.own[r]
    ensures forall c: PageNo, x: PageNo ::
      b.own[c].Table? && b.own[c].parent == r && b.own[x].Table? ==> b.own[x].parent != c
  {
    assert UseAfter(a.own, b.own, DirectoriesBelow(a.own, r, ENTRIES), r);
    forall c: PageNo, x: PageNo | b.own[c].Table? && b.own[c].parent == r
      && b.own[x].Table? ensures b.own[x].parent != c {
      assert UseAfter(a.own, b.own, DirectoriesBelow(a.own, r, ENTRIES), c)
        && UseAfter(a.own, b.own, DirectoriesBelow(a.own, r, ENTRIES), x);
      assert HangsUp(a.ram, a.own, c) && HangsUp(a.ram, a.own, x);
    }
  }

  /** The directories and the other children of the root, and the root itself, are all its tables. */
  lemma AllTables(a: Snapshot, b: Snapshot, r: PageNo)
    requires Shape(a.ram, a.own) && a.own[r].Root? && Returned(a, b, DirectoriesBelow(a.own, r, ENTRIES), r)
    ensures DirectoriesBelow(a.own, r, ENTRIES) + ChildrenBelow(b.own, r, ENTRIES) + {r} == TablesOf(a.own, r)
  {
    forall p: PageNo ensures
      p in DirectoriesBelow(a.own, r, ENTRIES) + ChildrenBelow(b.own, r, ENTRIES) + {r} <==> p in TablesOf(a.own, r)
    {
      assert UseAfter(a.own, b.own, DirectoriesBelow(a.own, r, ENTRIES), p) && HangsUp(a.ram, a.own, p);
      if a.own[p].Table? { assert HangsUp(a.ram, a.own, a.own[p].parent); }
    }
  }

  /** After the children below `i` are gone the others are still the same, and still have no children. */
  lemma ChildrenRound(a: Snapshot, b: Snapshot, r: PageNo, t: PageNo, i: nat)
    requires Shape(a.ram, a.own) && InTree(a.own, r, t) && IsTable(a.own[t])
    requires forall c: PageNo, x: PageNo ::
      a.own[c].Table? && a.own[c].parent == t && a.own[x].Table? ==> a.own[x].parent != c
    requires Returned(a, b, ChildrenBelow(a.own, t, i), r)
    ensures b.own[t] == a.own[t] && InTree(b.own, r, t)
    ensures forall c: PageNo, x: PageNo ::
      b.own[c].Table? && b.own[c].parent == t && b.own[x].Table? ==> b.own[x].parent != c
    ensures ChildrenBelow(b.own, t, i) == {}
    ensures ChildrenBelow(a.own, t, i) + (ChildrenBelow(b.own, t, i + 1) - ChildrenBelow(b.own, t, i)) ==
      ChildrenBelow(a.own, t, i + 1)
  {
    forall p: PageNo ensures b.own[p] == if p in ChildrenBelow(a.own, t, i) then Free else a.own[p] {
      assert UseAfter(a.own, b.own, ChildrenBelow(a.own, t, i), p);
    }
    assert HangsUp(a.ram, a.own, t);
    if a.own[t].Table? { assert HangsUp(a.ram, a.own, a.own[t].parent); }
  }

  lemma ChildrenGone(c: Snapshot, d: Snapshot, r: PageNo)
    requires Shape(c.ram, c.own) && c.own[r].Root? && Returned(c, d, ChildrenBelow(c.own, r, ENTRIES), r)
    ensures d.own[r] == c.own[r] && forall x: PageNo :: d.own[x].Table? ==> d.own[x].parent != r
  {
    assert UseAfter(c.own, d.own, ChildrenBelow(c.own, r, ENTRIES), r);
    forall x: PageNo | d.own[x].Table? ensures d.own[x].parent != r {
      assert UseAfter(c.own, d.own, ChildrenBelow(c.own, r, ENTRIES), x) && HangsUp(c.ram, c.own, x);
    }
  }
}
