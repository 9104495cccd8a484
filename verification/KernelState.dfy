/** Which process every page of physical memory belongs to, and how kernel calls move pages. */
module KernelState {
  import opened Bits
  import opened MemoryLayout
  import opened PageTables
  import opened MapGrowth
  import opened AddressSpaces
  import opened ProcessLists
  import opened SchedulerSpec
  import opened CStrings
  import opened UserMemory
  import opened Wrappers

  /** The process slot a page belongs to. */
  function Holder(own: Owners, p: PageNo): Option<nat> {
    match own[p]
    case Stack(s) => Some(s)
    case Root(s) => Some(s)
    case UserPage(r, _) => RootHolder(own, r)
    case Table(level, q, _) =>
      if level == 3 then RootHolder(own, q)
      else if own[q].Table? then RootHolder(own, own[q].parent) else None
    case _ => None
  }

  function RootHolder(own: Owners, r: PageNo): Option<nat> {
    if own[r].Root? then Some(own[r].proc) else None
  }

  predicate Live(p: Pcb) { p.state == Ready || p.state == Running || p.state == Sleeping || p.state == Killed }

  /** A slot in use has its kernel stack, and, once it can be scheduled, a map with a user page. Slot 0
      is the idle process, which runs on the kernel's own map. */
  ghost predicate SlotOwns(ram: Ram, own: Owners, procs: seq<Pcb>, s: nat)
    requires s < |procs|
  {
    && (s != 0 && procs[s].state != Unused ==> InDirectMap(procs[s].stack) && own[PageAt(procs[s].stack)] == Stack(s))
    && (s == 0 || Live(procs[s]) ==> InDirectMap(procs[s].pageMap) && own[PageAt(procs[s].pageMap)] == Root(s))
    && (s != 0 && Live(procs[s]) ==> HasUserPage(ram, PageAt(procs[s].pageMap)))
  }

  /** A stack or a map is the one recorded in its slot, and the slot is in use. */
  ghost predicate PageOwned(own: Owners, procs: seq<Pcb>, p: PageNo) {
    && (own[p].Stack? ==>
       1 <= own[p].proc < |procs| && procs[own[p].proc].state != Unused && procs[own[p].proc].stack == PageVirtual(p))
    && (own[p].Root? ==> own[p].proc < |procs| && procs[own[p].proc].pageMap == PageVirtual(p)
                         && (own[p].proc != 0 ==> procs[own[p].proc].state != Unused))
  }

  ghost predicate PagesOwned(ram: Ram, own: Owners, procs: seq<Pcb>) {
    && (forall s: nat :: s < |procs| ==> SlotOwns(ram, own, procs, s))
    && (forall p: PageNo :: PageOwned(own, procs, p))
  }

  // ----- Conservation -----

  /** Every page collected at boot is free, kept by the kernel, or belongs to exactly one slot in use:
      a partition, since each page has one record. */
  lemma PoolPartition(ram: Ram, own: Owners, procs: seq<Pcb>, pages: nat, p: PageNo)
    requires Shape(ram, own) && SpacesOk(ram, own, pages) && PagesOwned(ram, own, procs) && |procs| == PROCESSES
      && own[p] != Reserved
    ensures own[p] == Free || own[p] == Kernel
      || (Holder(own, p).Some? && Holder(own, p).value < PROCESSES
          && (Holder(own, p).value == 0 || procs[Holder(own, p).value].state != Unused))
  {
    TreeAbove(ram, own, p);
    assert HangsUp(ram, own, p) && UserPageOk(own, p) && PageOwned(own, procs, p);
    match own[p]
    case UserPage(r, _) => assert PageOwned(own, procs, r);
    case Table(level, q, _) =>
      assert PageOwned(own, procs, q);
      if level == 2 { assert PageOwned(own, procs, own[q].parent); }
    case _ =>
  }

  /** What a slot's pages are: its stack, and its map's tables and user page. */
  lemma PagesOfSlot(ram: Ram, own: Owners, procs: seq<Pcb>, pages: nat, s: nat, p: PageNo)
    requires Shape(ram, own) && SpacesOk(ram, own, pages) && PagesOwned(ram, own, procs) && |procs| == PROCESSES
    requires 1 <= s < PROCESSES && Live(procs[s])
    ensures InDirectMap(procs[s].stack) && InDirectMap(procs[s].pageMap) && own[PageAt(procs[s].pageMap)].Root?
    ensures Holder(own, p) == Some(s) <==>
      (p == PageAt(procs[s].stack) || InTree(own, PageAt(procs[s].pageMap), p)
        || own[p] == UserPage(PageAt(procs[s].pageMap), USER_VPN))
  {
    assert SlotOwns(ram, own, procs, s) && PageOwned(own, procs, p) && UserPageOk(own, p);
    TreeAbove(ram, own, p);
    assert HangsUp(ram, own, p);
    match own[p]
    case Stack(_) => PageAtVirtual(p);
    case Root(_) => PageAtVirtual(p);
    case UserPage(r, _) => PageAtVirtual(r); assert PageOwned(own, procs, r);
    case Table(level, q, _) =>
      if level == 3 {
        PageAtVirtual(q); assert PageOwned(own, procs, q);
      } else {
        PageAtVirtual(own[q].parent); assert PageOwned(own, procs, own[q].parent);
      }
    case _ =>
  }

  /** Free pages were taken for slot `s`; nothing else changed use or content. */
  ghost predicate AcquiredPage(a: Snapshot, b: Snapshot, s: nat, p: PageNo) {
    (b.own[p] == a.own[p] && (a.own[p] != Free ==> b.ram[p] == a.ram[p]))
      || (a.own[p] == Free && Holder(b.own, p) == Some(s))
  }

  ghost predicate Acquired(a: Snapshot, b: Snapshot, s: nat) { forall p: PageNo :: AcquiredPage(a, b, s, p) }

  /** Exactly the pages of slot `s` became free; nothing else changed use or content. */
  ghost predicate ReleasedPage(a: Snapshot, b: Snapshot, s: nat, p: PageNo) {
    && b.own[p] == (if Holder(a.own, p) == Some(s) then Free else a.own[p])
    && (b.own[p] != Free ==> b.ram[p] == a.ram[p])
  }

  ghost predicate Released(a: Snapshot, b: Snapshot, s: nat) { forall p: PageNo :: ReleasedPage(a, b, s, p) }

  /** Fork, then the child's exit, which moves no page, then its cleanup by Wait: every page is back to
      its old use, so the set of free pages is exactly the old one, and pages in use hold what they held. */
  lemma ForkExitWaitRestores(a: Snapshot, b: Snapshot, c: Snapshot, s: nat, pages: nat)
    requires Shape(a.ram, a.own) && SpacesOk(a.ram, a.own, pages) && forall p: PageNo :: Holder(a.own, p) != Some(s)
    requires Acquired(a, b, s) && Released(b, c, s)
    ensures c.own == a.own && forall p: PageNo :: a.own[p] != Free ==> c.ram[p] == a.ram[p]
  {
    forall p: PageNo ensures c.own[p] == a.own[p] && (a.own[p] != Free ==> c.ram[p] == a.ram[p]) {
      assert AcquiredPage(a, b, s, p) && ReleasedPage(b, c, s, p);
      if a.own[p] != Free { SameHolder(a, b, s, p, pages); }
    }
  }

  lemma SameUseAcquired(a: Snapshot, b: Snapshot, s: nat)
    requires SameUse(a, b)
    ensures Acquired(a, b, s)
  {
    forall p: PageNo ensures AcquiredPage(a, b, s, p) { assert SamePage(a, b, p); }
  }

  /** A page that was in use keeps its holder when free pages are acquired for a slot. */
  lemma SameHolder(a: Snapshot, b: Snapshot, s: nat, p: PageNo, pages: nat)
    requires Shape(a.ram, a.own) && SpacesOk(a.ram, a.own, pages) && Acquired(a, b, s) && a.own[p] != Free
    requires Holder(a.own, p) != Some(s)
    ensures b.own[p] == a.own[p] && Holder(b.own, p) == Holder(a.own, p)
  {
    assert AcquiredPage(a, b, s, p) && UserPageOk(a.own, p);
    TreeAbove(a.ram, a.own, p);
    match a.own[p]
    case UserPage(r, _) => assert AcquiredPage(a, b, s, r);
    case Table(level, q, _) =>
      assert AcquiredPage(a, b, s, q) && HangsUp(a.ram, a.own, p);
      if level == 2 { assert AcquiredPage(a, b, s, a.own[q].parent); }
    case _ =>
  }

  /** The tables and the user page of a map belong to the slot of the map. */
  lemma MapHolder(own: Owners, r: PageNo, p: PageNo)
    requires own[r].Root? && (InTree(own, r, p) || own[p] == UserPage(r, USER_VPN))
    ensures Holder(own, p) == Some(own[r].proc)
  {
  }

  /** An unused slot owns no page. */
  lemma UnusedOwnsNothing(ram: Ram, own: Owners, procs: seq<Pcb>, pages: nat, s: nat, p: PageNo)
    requires Shape(ram, own) && SpacesOk(ram, own, pages) && PagesOwned(ram, own, procs) && |procs| == PROCESSES
    requires 1 <= s < PROCESSES && procs[s].state == Unused
    ensures Holder(own, p) != Some(s)
  {
    if own[p] != Reserved { PoolPartition(ram, own, procs, pages, p); }
  }

  // ----- Processes leave each other's pages alone -----

  /** A page of a process other than `current` keeps use and content, unless it becomes free. */
  ghost predicate PageUntouched(a: Snapshot, b: Snapshot, current: nat, p: PageNo) {
    Holder(a.own, p).Some? && Holder(a.own, p).value != current ==>
      b.own[p] == Free || (b.own[p] == a.own[p] && b.ram[p] == a.ram[p])
  }

  ghost predicate OthersUntouched(a: Snapshot, b: Snapshot, current: nat) {
    forall p: PageNo :: PageUntouched(a, b, current, p)
  }

  lemma SameUseUntouched(a: Snapshot, b: Snapshot, current: nat)
    requires SameUse(a, b)
    ensures OthersUntouched(a, b, current) && b.own == a.own
  {
    forall p: PageNo ensures PageUntouched(a, b, current, p) && b.own[p] == a.own[p] { assert SamePage(a, b, p); }
  }

  lemma NothingTouched(a: Snapshot, current: nat)
    ensures OthersUntouched(a, a, current)
  {
  }

  lemma AcquiredUntouched(a: Snapshot, b: Snapshot, s: nat, current: nat)
    requires Acquired(a, b, s)
    ensures OthersUntouched(a, b, current)
  {
    forall p: PageNo ensures PageUntouched(a, b, current, p) { assert AcquiredPage(a, b, s, p); }
  }

  lemma ReleasedUntouched(a: Snapshot, b: Snapshot, s: nat, current: nat)
    requires Released(a, b, s)
    ensures OthersUntouched(a, b, current)
  {
    forall p: PageNo ensures PageUntouched(a, b, current, p) { assert ReleasedPage(a, b, s, p); }
  }

  lemma StoredUntouched(a: Snapshot, b: Snapshot, pageMap: Word, address: Word, data: seq<Byte>, current: nat)
    requires Stored(a, b, pageMap, address, data) && a.own[PageAt(pageMap)] == Root(current)
    requires a.own[UserPageOf(a.ram, PageAt(pageMap))] == UserPage(PageAt(pageMap), USER_VPN)
    ensures OthersUntouched(a, b, current)
  {
    var u := UserPageOf(a.ram, PageAt(pageMap));
    forall p: PageNo ensures PageUntouched(a, b, current, p) {
      assert p == u || SamePage(a, b, p);
    }
  }

  /** The user page of a map stays where it is while only free pages change. */
  lemma FetchedPage(a: Snapshot, m: Snapshot, pages: nat, r: PageNo)
    requires Shape(a.ram, a.own) && SpacesOk(a.ram, a.own, pages) && SameUse(a, m) && a.own[r].Root?
      && HasUserPage(a.ram, r)
    ensures HasUserPage(m.ram, r) && UserPageOf(m.ram, r) == UserPageOf(a.ram, r)
      && a.own[UserPageOf(a.ram, r)] == UserPage(r, USER_VPN)
  {
    SameUseAcquired(a, m, 0);
    AcquiredKeepsMaps(a, m, 0, r, pages);
    assert Space(a.ram, a.own, r, pages) && SpaceAt(a.ram, a.own, r, pages, USER_VPN);
  }

  /** Storing to the user page after a step that only changed free pages. */
  lemma StoredSince(a: Snapshot, m: Snapshot, b: Snapshot, pages: nat, pageMap: Word, address: Word, data: seq<Byte>)
    requires Shape(a.ram, a.own) && SpacesOk(a.ram, a.own, pages) && SameUse(a, m)
    requires InDirectMap(pageMap) && a.own[PageAt(pageMap)].Root? && HasUserPage(a.ram, PageAt(pageMap))
    requires Stored(m, b, pageMap, address, data)
    ensures Stored(a, b, pageMap, address, data)
  {
    FetchedPage(a, m, pages, PageAt(pageMap));
    StoredAfter(a, m, b, pageMap, address, data);
  }

  // ----- Ownership is kept -----

  /** The pages of all slots but `x` keep use and content, and no page is newly recorded for them. */
  ghost predicate OthersPage(a: Snapshot, b: Snapshot, x: nat, p: PageNo) {
    && (Holder(a.own, p).Some? && Holder(a.own, p).value != x ==> b.own[p] == a.own[p] && b.ram[p] == a.ram[p])
    && ((b.own[p].Stack? || b.own[p].Root?) && b.own[p].proc != x ==> b.own[p] == a.own[p])
  }

  lemma OthersOwn(a: Snapshot, b: Snapshot, procs: seq<Pcb>, procs': seq<Pcb>, x: nat)
    requires Shape(a.ram, a.own) && PagesOwned(a.ram, a.own, procs) && |procs| == |procs'| == PROCESSES
    requires forall s: nat :: s < |procs| && s != x ==> procs'[s] == procs[s]
    requires forall p: PageNo :: OthersPage(a, b, x, p)
    ensures forall s: nat :: s < |procs| && s != x ==> SlotOwns(b.ram, b.own, procs', s)
    ensures forall p: PageNo ::
      ((b.own[p].Stack? || b.own[p].Root?) && b.own[p].proc == x) || PageOwned(b.own, procs', p)
  {
    forall s: nat | s < |procs| && s != x ensures SlotOwns(b.ram, b.own, procs', s) {
      assert SlotOwns(a.ram, a.own, procs, s);
      if s != 0 && procs[s].state != Unused { assert OthersPage(a, b, x, PageAt(procs[s].stack)); }
      if s == 0 || Live(procs[s]) {
        var r := PageAt(procs[s].pageMap);
        assert OthersPage(a, b, x, r);
        forall p: PageNo | InTree(a.own, r, p) ensures b.ram[p] == a.ram[p] {
          MapHolder(a.own, r, p);
          assert OthersPage(a, b, x, p);
        }
        WalkFrame(a.ram, a.own, b.ram, r);
      }
    }
    forall p: PageNo | !((b.own[p].Stack? || b.own[p].Root?)
      && b.own[p].proc == x) ensures PageOwned(b.own, procs', p) {
      assert OthersPage(a, b, x, p) && PageOwned(a.own, procs, p);
    }
  }

  lemma ReleasedOthers(a: Snapshot, b: Snapshot, x: nat)
    requires Released(a, b, x)
    ensures forall p: PageNo :: OthersPage(a, b, x, p)
  {
    forall p: PageNo ensures OthersPage(a, b, x, p) { assert ReleasedPage(a, b, x, p); }
  }

  /** Calls that only schedule: maps, stacks and files stay, and so does being in use and being live. */
  predicate SamePages(a: Pcb, b: Pcb) {
    b.pageMap == a.pageMap && b.stack == a.stack && b.file == a.file && b.pid == a.pid
    && (b.state == Unused <==> a.state == Unused) && (Live(b) <==> Live(a))
  }

  ghost predicate SchedulingOnly(a: seq<Pcb>, b: seq<Pcb>) {
    |a| == |b| && forall s: nat :: s < |a| ==> SamePages(a[s], b[s])
  }

  lemma SchedulingKeepsOwned(ram: Ram, own: Owners, a: seq<Pcb>, b: seq<Pcb>)
    requires PagesOwned(ram, own, a) && SchedulingOnly(a, b)
    ensures PagesOwned(ram, own, b)
  {
    forall s: nat | s < |b| ensures SlotOwns(ram, own, b, s) {
      assert SlotOwns(ram, own, a, s) && SamePages(a[s], b[s]);
    }
    forall p: PageNo ensures PageOwned(own, b, p) { assert PageOwned(own, a, p); }
  }

  /** What a slot owns does not depend on its files. */
  lemma FileKeepsOwned(ram: Ram, own: Owners, s: Sched, p: nat, file: seq<Option<nat>>)
    requires PagesOwned(ram, own, s.procs) && p < |s.procs|
    ensures PagesOwned(ram, own, WithFile(s, p, file).procs)
  {
    var t := WithFile(s, p, file);
    forall i: nat | i < |t.procs| ensures SlotOwns(ram, own, t.procs, i) { assert SlotOwns(ram, own, s.procs, i); }
    forall q: PageNo ensures PageOwned(own, t.procs, q) { assert PageOwned(own, s.procs, q); }
  }

  /** Nor on pages that changed neither use nor, if in use, content. */
  lemma SameUseKeepsOwned(a: Snapshot, b: Snapshot, procs: seq<Pcb>)
    requires Shape(a.ram, a.own) && PagesOwned(a.ram, a.own, procs) && |procs| == PROCESSES && SameUse(a, b)
    ensures PagesOwned(b.ram, b.own, procs)
  {
    SameUseOthers(a, b, PROCESSES);
    OthersOwn(a, b, procs, procs, PROCESSES);
    forall p: PageNo ensures PageOwned(b.own, procs, p) { assert PageOwned(a.own, procs, p); }
  }

  /** Nor on what the user page holds. */
  lemma ContentKeepsOwned(a: Snapshot, b: Snapshot, procs: seq<Pcb>)
    requires PagesOwned(a.ram, a.own, procs) && b.own == a.own
    requires forall r: PageNo :: a.own[r].Root? ==> SameWalks(a.ram, b.ram, r)
    ensures PagesOwned(b.ram, b.own, procs)
  {
    forall i: nat | i < |procs| ensures SlotOwns(b.ram, b.own, procs, i) {
      assert SlotOwns(a.ram, a.own, procs, i);
    }
    forall q: PageNo ensures PageOwned(b.own, procs, q) { assert PageOwned(a.own, procs, q); }
  }

  lemma ScheduleOnlySchedules(s: Sched)
    requires WellFormed(s) && Live(s.procs[0]) && (s.ready != [] ==> Live(s.procs[s.ready[0]]))
    ensures SchedulingOnly(s.procs, Schedule(s).procs)
  {
    var t := Schedule(s);
    forall i: nat | i < |s.procs| ensures SamePages(s.procs[i], t.procs[i]) { }
  }

  /** The idle process and everything in the ready queue can be run. */
  lemma CanRun(s: Sched)
    requires Inv(s)
    ensures Live(s.procs[0]) && Live(s.procs[s.current]) && forall x :: x in s.ready ==> Live(s.procs[x])
  {
    assert RunningOk(s, 0) && RunningOk(s, s.current);
    forall x | x in s.ready ensures Live(s.procs[x]) { assert Listed(s, x); }
  }

  lemma YieldOnlySchedules(s: Sched)
    requires Inv(s)
    ensures SchedulingOnly(s.procs, Yield(s).procs)
  {
    CanRun(s);
    if s.ready != [] {
      var r := SetState(s, s.current, Ready);
      var p := if s.procs[s.current].pid != 0 then r.(ready := s.ready + [s.current]) else r;
      ScheduleOnlySchedules(p);
      OnlySchedulesTransitive(s.procs, p.procs, Schedule(p).procs);
    }
  }

  lemma SleepOnlySchedules(s: Sched, id: int)
    requires Inv(s) && s.current != 0
    ensures SchedulingOnly(s.procs, Sleep(s, id).procs)
  {
    CanRun(s);
    var p := Slept(s, id);
    ScheduleOnlySchedules(p);
    OnlySchedulesTransitive(s.procs, p.procs, Schedule(p).procs);
  }

  lemma ExitOnlySchedules(s: Sched)
    requires Inv(s) && s.current != 0
    ensures SchedulingOnly(s.procs, Exit(s).procs)
  {
    CanRun(s);
    var p := SetState(s, s.current, Killed).(kill := s.kill + [s.current]);
    ParkKeeps(s, p);
    OnlySchedulesTransitive(s.procs, p.procs, p.procs);
    WakeupThenSchedule(p, INIT_WAIT);
    OnlySchedulesTransitive(s.procs, p.procs, Exit(s).procs);
  }

  lemma WakeupThenSchedule(p: Sched, id: int)
    requires Core(p) && Live(p.procs[0])
    ensures SchedulingOnly(p.procs, Schedule(Wakeup(p, id)).procs)
  {
    var w := Wakeup(p, id);
    WakeupCore(p, id);
    WakeupOnlySchedules(p, id);
    assert SamePages(p.procs[0], w.procs[0]);
    if w.ready != [] { assert w.ready[0] in w.ready && Listed(w, w.ready[0]); }
    ScheduleOnlySchedules(w);
    OnlySchedulesTransitive(p.procs, w.procs, Schedule(w).procs);
  }

  lemma WakeupOnlySchedules(s: Sched, id: int)
    requires Core(s)
    ensures SchedulingOnly(s.procs, Wakeup(s, id).procs)
  {
    WakeupCore(s, id);
    var t := Wakeup(s, id);
    forall i: nat | i < |s.procs| ensures SamePages(s.procs[i], t.procs[i]) {
      if i >= 1 { assert Listed(s, i); }
    }
  }

  lemma OnlySchedulesTransitive(a: seq<Pcb>, b: seq<Pcb>, c: seq<Pcb>)
    requires SchedulingOnly(a, b) && SchedulingOnly(b, c)
    ensures SchedulingOnly(a, c)
  {
    forall s: nat | s < |a| ensures SamePages(a[s], c[s]) { assert SamePages(a[s], b[s]) && SamePages(b[s], c[s]); }
  }

  lemma OwnedAfter(a: Snapshot, b: Snapshot, procs: seq<Pcb>, procs': seq<Pcb>, x: nat)
    requires Shape(a.ram, a.own) && PagesOwned(a.ram, a.own, procs) && |procs| == |procs'| == PROCESSES && x < PROCESSES
    requires forall s: nat :: s < |procs| && s != x ==> procs'[s] == procs[s]
    requires forall p: PageNo :: OthersPage(a, b, x, p)
    requires SlotOwns(b.ram, b.own, procs', x)
    requires forall p: PageNo ::
      (b.own[p].Stack? || b.own[p].Root?) && b.own[p].proc == x ==> PageOwned(b.own, procs', p)
    ensures PagesOwned(b.ram, b.own, procs')
  {
    OthersOwn(a, b, procs, procs', x);
  }

  /** Taking a stack for slot `x`, or giving it back. */
  lemma StackOthers(a: Snapshot, b: Snapshot, x: nat, u: PageNo)
    requires (a.own[u] == Free && b.own[u] == Stack(x)) || (a.own[u] == Stack(x) && b.own[u] == Free)
    requires forall p: PageNo :: p == u || (b.own[p] == a.own[p] && b.ram[p] == a.ram[p])
    ensures forall p: PageNo :: OthersPage(a, b, x, p)
  {
  }

  /** Building in the map of slot `x`, possibly from its root on. */
  lemma TookOthers(a: Snapshot, b: Snapshot, x: nat, r: PageNo)
    requires Shape(a.ram, a.own) && Took(a, b, r) && (a.own[r] == Root(x) || a.own[r] == Free) && b.own[r] == Root(x)
    ensures forall p: PageNo :: OthersPage(a, b, x, p)
    ensures forall p: PageNo :: b.own[p].Stack? || b.own[p].Root? ==> p == r || b.own[p] == a.own[p]
  {
    forall p: PageNo ensures OthersPage(a, b, x, p) && (b.own[p].Stack? || b.own[p].Root? ==>
      p == r || b.own[p] == a.own[p]) {
      assert TookPage(a.own, b.own, r, p) && KeptContent(a, b, r, p);
      if InTree(a.own, r, p) && a.own[r] == Free { TreeAbove(a.ram, a.own, p); }
    }
  }

  /** Giving up the map of slot `x`. */
  lemma DroppedOthers(a: Snapshot, b: Snapshot, x: nat, r: PageNo)
    requires Shape(a.ram, a.own) && Dropped(a, b, r) && a.own[r] == Root(x)
    ensures forall p: PageNo :: OthersPage(a, b, x, p)
    ensures forall p: PageNo :: b.own[p].Stack? || b.own[p].Root? ==> p != r && b.own[p] == a.own[p]
  {
    forall p: PageNo ensures OthersPage(a, b, x, p) && (b.own[p].Stack? || b.own[p].Root? ==>
      p != r && b.own[p] == a.own[p]) {
      assert DroppedPage(a, b, r, p);
      if InTree(a.own, r, p) || a.own[p] == UserPage(r, USER_VPN) { MapHolder(a.own, r, p); }
    }
  }

  lemma SameUseOthers(a: Snapshot, b: Snapshot, x: nat)
    requires SameUse(a, b)
    ensures b.own == a.own && forall p: PageNo :: OthersPage(a, b, x, p)
  {
    forall p: PageNo ensures b.own[p] == a.own[p] && OthersPage(a, b, x, p) { assert SamePage(a, b, p); }
  }

  /** Free pages that went into the map of a slot were acquired for the slot. */
  lemma TookAcquires(a: Snapshot, b: Snapshot, c: Snapshot, s: nat, r: PageNo, pages: nat)
    requires Shape(a.ram, a.own) && SpacesOk(a.ram, a.own, pages) && Shape(b.ram, b.own)
      && SpacesOk(b.ram, b.own, pages)
    requires forall p: PageNo :: Holder(a.own, p) != Some(s)
    requires Acquired(a, b, s) && Took(b, c, r) && (b.own[r] == Root(s) || b.own[r] == Free) && c.own[r] == Root(s)
    ensures Acquired(a, c, s)
  {
    forall p: PageNo ensures AcquiredPage(a, c, s, p) {
      assert AcquiredPage(a, b, s, p) && TookPage(b.own, c.own, r, p) && KeptContent(b, c, r, p);
      if c.own[p] != b.own[p] {
        MapHolder(c.own, r, p);
      } else if a.own[p] != Free {
        SameHolder(a, b, s, p, pages);
        if InTree(b.own, r, p) {
          if b.own[r] == Free { TreeAbove(b.ram, b.own, p); } else { MapHolder(b.own, r, p); }
        }
      } else if b.own[p] != Free {
        TookKeepsHolder(b, c, s, r, p, pages);
      }
    }
  }

  lemma TookKeepsHolder(b: Snapshot, c: Snapshot, s: nat, r: PageNo, p: PageNo, pages: nat)
    requires Shape(b.ram, b.own) && SpacesOk(b.ram, b.own, pages) && Took(b, c, r) && b.own[p] != Free
    ensures c.own[p] == b.own[p] && Holder(c.own, p) == Holder(b.own, p)
  {
    assert TookPage(b.own, c.own, r, p) && UserPageOk(b.own, p) && HangsUp(b.ram, b.own, p);
    TreeAbove(b.ram, b.own, p);
    match b.own[p]
    case UserPage(q, _) => assert TookPage(b.own, c.own, r, q);
    case Table(level, q, _) =>
      assert TookPage(b.own, c.own, r, q);
      if level == 2 { assert TookPage(b.own, c.own, r, b.own[q].parent); }
    case _ =>
  }

  /** Giving up the map again leaves at most the stack acquired. */
  lemma DroppedAcquires(a: Snapshot, b: Snapshot, c: Snapshot, s: nat, r: PageNo, pages: nat)
    requires Shape(a.ram, a.own) && SpacesOk(a.ram, a.own, pages) && Shape(b.ram, b.own)
      && SpacesOk(b.ram, b.own, pages)
    requires forall p: PageNo :: Holder(a.own, p) != Some(s)
    requires Acquired(a, b, s) && Dropped(b, c, r) && b.own[r] == Root(s)
      && forall q: PageNo :: b.own[q] == Root(s) ==> q == r
    ensures Acquired(a, c, s)
  {
    forall p: PageNo ensures AcquiredPage(a, c, s, p) {
      assert AcquiredPage(a, b, s, p) && DroppedPage(b, c, r, p) && UserPageOk(b.own, p) && HangsUp(b.ram, b.own, p);
      if InTree(b.own, r, p) || b.own[p] == UserPage(r, USER_VPN) {
        MapHolder(b.own, r, p);
        if a.own[p] != Free { SameHolder(a, b, s, p, pages); }
      } else {
        TreeAbove(b.ram, b.own, p);
      }
    }
  }

  /** Giving back the stack and the map of a slot releases exactly its pages. */
  lemma StackAndMapReleased(a: Snapshot, b: Snapshot, c: Snapshot, procs: seq<Pcb>, pages: nat, s: nat)
    requires Shape(a.ram, a.own) && SpacesOk(a.ram, a.own, pages) && PagesOwned(a.ram, a.own, procs)
      && |procs| == PROCESSES
    requires 1 <= s < PROCESSES && Live(procs[s])
    requires InDirectMap(procs[s].stack) && InDirectMap(procs[s].pageMap)
    requires b.own == Assign(a.own, PageAt(procs[s].stack), Free)
      && forall p: PageNo :: p == PageAt(procs[s].stack) || b.ram[p] == a.ram[p]
    requires Dropped(b, c, PageAt(procs[s].pageMap))
    ensures Released(a, c, s)
  {
    assert SlotOwns(a.ram, a.own, procs, s);
    var r := PageAt(procs[s].pageMap);
    forall p: PageNo ensures ReleasedPage(a, c, s, p) {
      PagesOfSlot(a.ram, a.own, procs, pages, s, p);
      assert DroppedPage(b, c, r, p) && HangsUp(a.ram, a.own, p);
      if a.own[p].Table? { assert HangsUp(a.ram, a.own, a.own[p].parent); }
    }
  }

  /** After its pages are released, an empty slot owns nothing, and the others what they owned. */
  lemma ReleasedOwned(a: Snapshot, c: Snapshot, procs: seq<Pcb>, procs': seq<Pcb>, s: nat)
    requires Shape(a.ram, a.own) && PagesOwned(a.ram, a.own, procs) && |procs| == |procs'| == PROCESSES
    requires 1 <= s < PROCESSES && procs'[s] == ZeroPcb() && Released(a, c, s)
    requires forall i: nat :: i < |procs| && i != s ==> procs'[i] == procs[i]
    ensures PagesOwned(c.ram, c.own, procs')
  {
    ReleasedOthers(a, c, s);
    forall p: PageNo ensures c.own[p] != Stack(s) && c.own[p] != Root(s) {
      assert ReleasedPage(a, c, s, p);
    }
    OwnedAfter(a, c, procs, procs', s);
  }

  // ----- The steps of creating a process -----

  /** A free slot is not the idle process, is in no queue and is empty. */
  lemma FreeSlotIsEmpty(s: Sched, f: nat)
    requires Inv(s) && f == FreeSlot(s.procs) < PROCESSES
    ensures f != 0 && f != s.current && f !in s.ready && f !in s.wait && f !in s.kill && s.procs[f] == ZeroPcb()
  {
    CreateKeeps(s, f, 0, 0);
    assert Listed(s, f) && SlotOk(s, f);
  }

  /** A free slot is not the idle process and owns nothing. */
  lemma FreeSlotFacts(ram: Ram, own: Owners, pages: nat, s: Sched, f: nat)
    requires Shape(ram, own) && SpacesOk(ram, own, pages) && PagesOwned(ram, own, s.procs) && Inv(s)
    requires f == FreeSlot(s.procs) < PROCESSES
    ensures f != 0 && f != s.current && f !in s.ready && f !in s.wait && f !in s.kill && s.procs[f] == ZeroPcb()
    ensures forall p: PageNo :: Holder(own, p) != Some(f)
  {
    FreeSlotIsEmpty(s, f);
    forall p: PageNo ensures Holder(own, p) != Some(f) { UnusedOwnsNothing(ram, own, s.procs, pages, f, p); }
  }

  /** The free slot `f` got a stack. */
  lemma StackOwned(a: Snapshot, b: Snapshot, pages: nat, s: Sched, f: nat, stack: Word)
    requires Shape(a.ram, a.own) && SpacesOk(a.ram, a.own, pages) && PagesOwned(a.ram, a.own, s.procs) && Inv(s)
    requires f == FreeSlot(s.procs) < PROCESSES && InDirectMap(stack) && a.own[PageAt(stack)] == Free
    requires b.own == Assign(a.own, PageAt(stack), Stack(f))
      && forall p: PageNo :: p == PageAt(stack) || b.ram[p] == a.ram[p]
    ensures Inv(Create(s, f, stack, 0)) && Acquired(a, b, f) && PagesOwned(b.ram, b.own, Create(s, f, stack, 0).procs)
  {
    CreateKeeps(s, f, stack, 0);
    FreeSlotFacts(a.ram, a.own, pages, s, f);
    StackOthers(a, b, f, PageAt(stack));
    assert SlotOwns(b.ram, b.own, Create(s, f, stack, 0).procs, f);
    forall p: PageNo ensures b.own[p] != Root(f) && (b.own[p] == Stack(f) ==> p == PageAt(stack)) {
      assert Holder(a.own, p) != Some(f);
    }
    OwnedAfter(a, b, s.procs, Create(s, f, stack, 0).procs, f);
  }

  /** Its map was built; no map was recorded for the slot before. */
  lemma MapOwned(b: Snapshot, c: Snapshot, s: Sched, f: nat, stack: Word, pageMap: Word)
    requires Shape(b.ram, b.own) && Inv(s) && f == FreeSlot(s.procs) < PROCESSES && InDirectMap(pageMap)
    requires PagesOwned(b.ram, b.own, Create(s, f, stack, 0).procs)
    requires Took(b, c, PageAt(pageMap)) && b.own[PageAt(pageMap)] == Free && c.own[PageAt(pageMap)] == Root(f)
    ensures Inv(Create(s, f, stack, pageMap)) && PagesOwned(c.ram, c.own, Create(s, f, stack, pageMap).procs)
  {
    var r, t, u := PageAt(pageMap), Create(s, f, stack, 0), Create(s, f, stack, pageMap);
    CreateKeeps(s, f, stack, pageMap);
    TookOthers(b, c, f, r);
    assert SlotOwns(b.ram, b.own, t.procs, f);
    assert TookPage(b.own, c.own, r, PageAt(stack));
    forall p: PageNo | (c.own[p].Stack? || c.own[p].Root?) && c.own[p].proc == f ensures PageOwned(c.own, u.procs, p) {
      if p != r { assert PageOwned(b.own, t.procs, p); assert c.own[p] == b.own[p]; }
    }
    OwnedAfter(b, c, t.procs, u.procs, f);
  }

  /** No map could be built: the stack went back, and the slot is as empty as before. */
  lemma StackTakenBack(b: Snapshot, c: Snapshot, s: Sched, f: nat, stack: Word)
    requires Shape(b.ram, b.own) && Inv(s) && f == FreeSlot(s.procs) < PROCESSES && InDirectMap(stack)
    requires PagesOwned(b.ram, b.own, Create(s, f, stack, 0).procs)
    requires c.own == Assign(b.own, PageAt(stack), Free) && forall p: PageNo :: p == PageAt(stack) || SamePage(b, c, p)
    ensures Inv(s.(nextPid := s.nextPid + 1)) && s.procs[f] == ZeroPcb() && PagesOwned(c.ram, c.own, s.procs)
  {
    var t := Create(s, f, stack, 0);
    NextPidKeeps(s);
    CreateKeeps(s, f, stack, 0);
    assert SlotOk(s, f) && SlotOwns(b.ram, b.own, t.procs, f);
    forall p: PageNo ensures OthersPage(b, c, f, p) {
      if p != PageAt(stack) { assert SamePage(b, c, p); }
    }
    forall p: PageNo ensures c.own[p] != Stack(f) && c.own[p] != Root(f) {
      assert PageOwned(b.own, t.procs, p);
    }
    OwnedAfter(b, c, t.procs, s.procs, f);
  }

  /** Both steps of creating a process. */
  lemma ProcessCreated(a: Snapshot, b: Snapshot, c: Snapshot, pages: nat, s: Sched, f: nat, stack: Word, pageMap: Word)
    requires Shape(a.ram, a.own) && SpacesOk(a.ram, a.own, pages) && PagesOwned(a.ram, a.own, s.procs) && Inv(s)
    requires Shape(b.ram, b.own) && SpacesOk(b.ram, b.own, pages)
    requires f == FreeSlot(s.procs) < PROCESSES && InDirectMap(stack) && a.own[PageAt(stack)] == Free
      && InDirectMap(pageMap)
    requires b.own == Assign(a.own, PageAt(stack), Stack(f)) && b.ram == Clear(a.ram, PageAt(stack))
    requires Took(b, c, PageAt(pageMap)) && b.own[PageAt(pageMap)] == Free && c.own[PageAt(pageMap)] == Root(f)
    ensures Inv(Create(s, f, stack, pageMap)) && PagesOwned(c.ram, c.own, Create(s, f, stack, pageMap).procs)
    ensures Acquired(a, c, f)
  {
    StackOwned(a, b, pages, s, f, stack);
    MapOwned(b, c, s, f, stack, pageMap);
    FreeSlotFacts(a.ram, a.own, pages, s, f);
    TookAcquires(a, b, c, f, PageAt(pageMap), pages);
  }

  /** The second step failed: nothing is left of the first but the used-up pid. */
  lemma ProcessUndone(a: Snapshot, b: Snapshot, c: Snapshot, pages: nat, s: Sched, f: nat, stack: Word)
    requires Shape(a.ram, a.own) && SpacesOk(a.ram, a.own, pages) && PagesOwned(a.ram, a.own, s.procs) && Inv(s)
    requires Shape(b.ram, b.own)
    requires f == FreeSlot(s.procs) < PROCESSES && InDirectMap(stack) && a.own[PageAt(stack)] == Free
    requires b.own == Assign(a.own, PageAt(stack), Stack(f)) && b.ram == Clear(a.ram, PageAt(stack))
    requires c.own == Assign(b.own, PageAt(stack), Free) && forall p: PageNo :: p == PageAt(stack) || SamePage(b, c, p)
    ensures Inv(s.(nextPid := s.nextPid + 1)) && s.procs[f] == ZeroPcb() && PagesOwned(c.ram, c.own, s.procs)
    ensures SameUse(a, c)
  {
    StackOwned(a, b, pages, s, f, stack);
    StackTakenBack(b, c, s, f, stack);
    forall p: PageNo ensures SamePage(a, c, p) {
      if p != PageAt(stack) { assert SamePage(b, c, p); }
    }
  }

  // ----- The steps of Fork -----

  /** The new map got its user page: the child can be made ready. */
  lemma ForkCopied(a: Snapshot, b: Snapshot, c: Snapshot, pages: nat, t: Sched, f: nat, file: seq<Option<nat>>)
    requires Shape(a.ram, a.own) && SpacesOk(a.ram, a.own, pages) && forall p: PageNo :: Holder(a.own, p) != Some(f)
    requires Shape(b.ram, b.own) && SpacesOk(b.ram, b.own, pages) && PagesOwned(b.ram, b.own, t.procs)
    requires WellFormed(t) && 1 <= f < PROCESSES && InDirectMap(t.procs[f].pageMap) && t.procs[f].state == Initialized
    requires Acquired(a, b, f) && b.own[PageAt(t.procs[f].pageMap)] == Root(f)
    requires Took(b, c, PageAt(t.procs[f].pageMap)) && HasUserPage(c.ram, PageAt(t.procs[f].pageMap))
    ensures PagesOwned(c.ram, c.own, Start(t, f, file).procs) && Acquired(a, c, f)
  {
    var r, u := PageAt(t.procs[f].pageMap), Start(t, f, file);
    assert TookPage(b.own, c.own, r, r) && SlotOwns(b.ram, b.own, t.procs, f);
    assert TookPage(b.own, c.own, r, PageAt(t.procs[f].stack));
    TookOthers(b, c, f, r);
    forall p: PageNo | (c.own[p].Stack? || c.own[p].Root?) && c.own[p].proc == f ensures PageOwned(c.own, u.procs, p) {
      assert PageOwned(b.own, t.procs, p);
    }
    OwnedAfter(b, c, t.procs, u.procs, f);
    TookAcquires(a, b, c, f, r, pages);
  }

  /** There was no memory for it: the slot keeps its stack, and either the whole map or nothing of it. */
  lemma ForkNotCopied(a: Snapshot, b: Snapshot, c: Snapshot, pages: nat, t: Sched, f: nat)
    requires Shape(a.ram, a.own) && SpacesOk(a.ram, a.own, pages) && forall p: PageNo :: Holder(a.own, p) != Some(f)
    requires Shape(b.ram, b.own) && SpacesOk(b.ram, b.own, pages) && PagesOwned(b.ram, b.own, t.procs)
    requires WellFormed(t) && 1 <= f < PROCESSES && InDirectMap(t.procs[f].pageMap) && t.procs[f].state == Initialized
    requires Acquired(a, b, f) && b.own[PageAt(t.procs[f].pageMap)] == Root(f)
      && Dropped(b, c, PageAt(t.procs[f].pageMap))
    ensures PagesOwned(c.ram, c.own, t.procs) && Acquired(a, c, f)
  {
    var r := PageAt(t.procs[f].pageMap);
    DroppedOthers(b, c, f, r);
    assert SlotOwns(b.ram, b.own, t.procs, f) && DroppedPage(b, c, r, PageAt(t.procs[f].stack));
    forall p: PageNo ensures (c.own[p].Stack? || c.own[p].Root?) && c.own[p].proc == f ==>
      PageOwned(c.own, t.procs, p) {
      assert PageOwned(b.own, t.procs, p);
    }
    OwnedAfter(b, c, t.procs, t.procs, f);
    forall q: PageNo ensures b.own[q] == Root(f) ==> q == r { assert PageOwned(b.own, t.procs, q); PageAtVirtual(q); }
    DroppedAcquires(a, b, c, f, r, pages);
  }

  /** Acquiring pages for a new process leaves the map and the user page of every other alone. */
  lemma AcquiredKeepsMaps(a: Snapshot, b: Snapshot, f: nat, r: PageNo, pages: nat)
    requires Shape(a.ram, a.own) && SpacesOk(a.ram, a.own, pages) && Acquired(a, b, f) && a.own[r].Root?
    ensures b.own[r] == a.own[r] && SameWalks(a.ram, b.ram, r)
    ensures HasUserPage(a.ram, r) ==> HasUserPage(b.ram, r) && UserPageOf(b.ram, r) == UserPageOf(a.ram, r)
    ensures HasUserPage(a.ram, r) ==> b.ram[UserPageOf(a.ram, r)] == a.ram[UserPageOf(a.ram, r)]
  {
    forall p: PageNo | InTree(a.own, r, p) ensures b.ram[p] == a.ram[p] { assert AcquiredPage(a, b, f, p); }
    WalkFrame(a.ram, a.own, b.ram, r);
    assert AcquiredPage(a, b, f, r);
    if HasUserPage(a.ram, r) {
      assert Space(a.ram, a.own, r, pages) && SpaceAt(a.ram, a.own, r, pages, USER_VPN);
      assert AcquiredPage(a, b, f, UserPageOf(a.ram, r));
    }
  }

  /** The parent's user page is still the same after the child's slot was filled. */
  lemma ParentKept(a: Snapshot, b: Snapshot, pages: nat, s: Sched, f: nat)
    requires Shape(a.ram, a.own) && SpacesOk(a.ram, a.own, pages) && PagesOwned(a.ram, a.own, s.procs) && Inv(s)
    requires s.current != 0 && Acquired(a, b, f)
    ensures InDirectMap(s.procs[s.current].pageMap)
    ensures var r := PageAt(s.procs[s.current].pageMap);
      && HasUserPage(a.ram, r) && HasUserPage(b.ram, r) && UserPageOf(b.ram, r) == UserPageOf(a.ram, r)
      && b.ram[UserPageOf(a.ram, r)] == a.ram[UserPageOf(a.ram, r)]
  {
    assert RunningOk(s, s.current) && SlotOwns(a.ram, a.own, s.procs, s.current);
    AcquiredKeepsMaps(a, b, f, PageAt(s.procs[s.current].pageMap), pages);
  }

  // ----- Boot -----

  /** Exactly these pages are out of the allocator's hands for good. */
  ghost predicate SameReserved(a: Owners, b: Owners) { forall p: PageNo :: a[p] == Reserved <==> b[p] == Reserved }

  /** The map in `r` is the kernel's, and no process owns anything yet. */
  ghost predicate OnlyKernelMap(own: Owners, r: PageNo) {
    own[r] == Root(0) && forall p: PageNo :: !own[p].Stack? && !own[p].UserPage? && (own[p].Root? ==> p == r)
  }

  /** All pages in the allocator's hands lie below this address. */
  ghost predicate PoolBelow(own: Owners, end: Word) {
    forall p: PageNo :: own[p] != Reserved ==> PageVirtual(p) + PAGE_SIZE <= end
  }

  lemma PoolStaysBelow(a: Owners, b: Owners, end: Word)
    requires SameReserved(a, b) && PoolBelow(a, end)
    ensures PoolBelow(b, end)
  {
    forall p: PageNo | b[p] != Reserved ensures PageVirtual(p) + PAGE_SIZE <= end { assert a[p] != Reserved; }
  }

  /** Nor did the pages change that the kernel keeps for itself. */
  ghost predicate SamePool(a: Owners, b: Owners) {
    SameReserved(a, b) && forall p: PageNo :: a[p] == Kernel <==> b[p] == Kernel
  }

  lemma PoolTransitive(a: Owners, b: Owners, c: Owners)
    requires SamePool(a, b) && SamePool(b, c)
    ensures SamePool(a, c)
  {
  }

  lemma NoMapsYet(ram: Ram, own: Owners, pages: nat)
    requires forall p: PageNo :: own[p] == Free || own[p] == Reserved
    ensures SpacesOk(ram, own, pages)
  {
    forall c: PageNo ensures UserPageOk(own, c) { }
  }

  /** The first map was built. */
  lemma FirstMap(a: Snapshot, b: Snapshot, r: PageNo, pages: nat)
    requires forall p: PageNo :: a.own[p] == Free || a.own[p] == Reserved
    requires Took(a, b, r) && b.own[r] == Root(0) && !UserMapped(b.ram, r) && Shape(b.ram, b.own)
    requires Space(b.ram, b.own, r, pages)
    ensures OnlyKernelMap(b.own, r) && SameReserved(a.own, b.own)
  {
    assert SpaceAt(b.ram, b.own, r, pages, USER_VPN);
    forall p: PageNo ensures !b.own[p].Stack? && !b.own[p].UserPage? && (b.own[p].Root? ==> p == r)
      && (a.own[p] == Reserved <==> b.own[p] == Reserved) {
      assert TookPage(a.own, b.own, r, p);
    }
  }

  /** The idle process on the kernel's map is all there is. */
  lemma IdleOwned(ram: Ram, own: Owners, procs: seq<Pcb>, r: PageNo)
    requires OnlyKernelMap(own, r) && |procs| == PROCESSES && procs[0].pageMap == PageVirtual(r)
    requires forall i :: 1 <= i < PROCESSES ==> procs[i] == ZeroPcb()
    ensures PagesOwned(ram, own, procs)
  {
    PageAtVirtual(r);
    forall s: nat | s < |procs| ensures SlotOwns(ram, own, procs, s) { }
    forall p: PageNo ensures PageOwned(own, procs, p) { }
  }

  lemma IdleRuns(s: Sched)
    requires WellFormed(s) && s.ready == [] && s.wait == [] && s.kill == [] && s.current == 0 && s.nextPid == 1
    requires s.procs[0].pid == 0 && s.procs[0].state == Running && s.cr3 == VirToPhy(s.procs[0].pageMap)
    requires forall i :: 1 <= i < PROCESSES ==> s.procs[i] == ZeroPcb()
    ensures Inv(s)
  {
    forall i: nat | 1 <= i < |s.procs| ensures Listed(s, i) { }
  }

  lemma ReleasedKeepsPool(a: Snapshot, b: Snapshot, s: nat)
    requires Released(a, b, s)
    ensures SamePool(a.own, b.own)
  {
    forall p: PageNo ensures (a.own[p] == Reserved <==> b.own[p] == Reserved) && (a.own[p] == Kernel <==>
      b.own[p] == Kernel) {
      assert ReleasedPage(a, b, s, p);
    }
  }

  lemma AcquiredKeepsPool(a: Snapshot, b: Snapshot, s: nat)
    requires Acquired(a, b, s)
    ensures SamePool(a.own, b.own)
  {
    forall p: PageNo ensures (a.own[p] == Reserved <==> b.own[p] == Reserved) && (a.own[p] == Kernel <==>
      b.own[p] == Kernel) {
      assert AcquiredPage(a, b, s, p);
    }
  }

  /** A page taken by the kernel for a table of its own. */
  lemma KernelTakes(a: Owners, b: Owners, u: PageNo, r: PageNo)
    requires OnlyKernelMap(a, r) && a[u] == Free && b == Assign(a, u, Kernel)
    ensures OnlyKernelMap(b, r) && SameReserved(a, b)
  {
  }
}
