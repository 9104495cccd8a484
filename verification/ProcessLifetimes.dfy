/** A process from its fork to its cleanup: its slot keeps its pid, stack and map, Wait with the pid that
    Fork returned cleans up the slot that Fork filled, and that gives back exactly what Fork took. */
module ProcessLifetimes {
  import opened PageTables
  import opened MapGrowth
  import opened AddressSpaces
  import opened ProcessLists
  import opened SchedulerSpec
  import opened SchedulerRuns
  import FileSpec
  import Systems = SystemRuns
  import opened FatDirectory
  import opened KernelState
  import opened KernelSteps
  import opened KernelHistories
  import opened Wrappers

  /** The same process, still there. */
  predicate SameProcess(p: Pcb, q: Pcb) {
    q.state != Unused && q.pid == p.pid && q.stack == p.stack && q.pageMap == p.pageMap
  }

  /** Wait finds a killed process with this pid and cleans it up. */
  predicate CleansUp(s: Sched, e: Event, pid: int) { e == Event.WaitCall(pid) && Reaps(s, pid) }

  lemma OnlySchedulesSame(a: seq<Pcb>, b: seq<Pcb>, i: nat)
    requires SchedulingOnly(a, b) && i < |a| && a[i].state != Unused
    ensures SameProcess(a[i], b[i])
  {
    assert SamePages(a[i], b[i]);
  }

  lemma WaitKeepsOthers(s: Sched, pid: int, i: nat)
    requires Inv(s) && s.current != 0 && i < PROCESSES && s.procs[i].state != Unused
      && !CleansUp(s, Event.WaitCall(pid), s.procs[i].pid)
    ensures SameProcess(s.procs[i], WaitRound(s, pid).procs[i])
  {
    if s.kill == [] {
      SleepOnlySchedules(s, INIT_WAIT);
      OnlySchedulesSame(s.procs, Sleep(s, INIT_WAIT).procs, i);
    }
  }

  /** No event changes pid, stack or map of a process, or ends it, but a Wait that cleans it up. */
  lemma KeepsIdentity(s: Sched, e: Event, i: nat)
    requires Inv(s) && Enabled(s, e) && i < PROCESSES && s.procs[i].state != Unused && !CleansUp(s, e, s.procs[i].pid)
    ensures SameProcess(s.procs[i], Step(s, e).procs[i])
  {
    if e.WaitCall? {
        WaitKeepsOthers(s, e.pid, i);
    } else if !e.ForkCall? && !e.FilesCall? {
      EventOnlySchedules(s, e);
      OnlySchedulesSame(s.procs, Step(s, e).procs, i);
    }
  }

  lemma EventOnlySchedules(s: Sched, e: Event)
    requires Inv(s) && Enabled(s, e) && (e.YieldCall? || e.SleepCall? || e.WakeupCall? || e.ExitCall? || e.Tick?)
    ensures SchedulingOnly(s.procs, Step(s, e).procs)
  {
    match e
    case YieldCall => YieldOnlySchedules(s);
    case SleepCall(id) => SleepOnlySchedules(s, id);
    case WakeupCall(id) => WakeupOnlySchedules(s, id);
    case ExitCall => ExitOnlySchedules(s);
    case Tick =>
      var w := Wakeup(s, NORMAL_WAIT);
      WakeupKeeps(s, NORMAL_WAIT);
      WakeupOnlySchedules(s, NORMAL_WAIT);
      YieldOnlySchedules(w);
      OnlySchedulesTransitive(s.procs, w.procs, Yield(w).procs);
  }

  predicate CleansUpAt(states: seq<Sched>, es: seq<Event>, j: nat, pid: int) {
    j < |states| && j < |es| && CleansUp(states[j], es[j], pid)
  }

  lemma SameNext(states: seq<Sched>, es: seq<Event>, i: nat, n: nat)
    requires IsRun(states, es) && n < |es| && Inv(states[n]) && i < PROCESSES && states[n].procs[i].state != Unused
    requires !CleansUpAt(states, es, n, states[n].procs[i].pid)
    ensures WellFormed(states[n + 1]) && SameProcess(states[n].procs[i], states[n + 1].procs[i])
  {
    assert Moves(states, es, n);
    KeepsIdentity(states[n], es[n], i);
  }

  lemma {:induction false} StaysTheSame(states: seq<Sched>, es: seq<Event>, i: nat, m: nat, n: nat)
    requires IsRun(states, es) && Inv(states[0]) && m <= n <= |es| && i < PROCESSES
    requires WellFormed(states[m]) && states[m].procs[i].state != Unused
    requires forall j: nat :: m <= j < n ==> !CleansUpAt(states, es, j, states[m].procs[i].pid)
    ensures WellFormed(states[n]) && SameProcess(states[m].procs[i], states[n].procs[i])
    decreases n - m
  {
    if m < n {
      StaysTheSame(states, es, i, m, n - 1);
      RunKeeps(states, es, n - 1);
      assert !CleansUpAt(states, es, n - 1, states[m].procs[i].pid);
      SameNext(states, es, i, n - 1);
    }
  }

  /** The slot that a Wait cleans up is the only one with that pid. */
  lemma OneSlotPerPid(s: Sched, pid: int, i: nat)
    requires Inv(s) && s.current != 0 && Reaps(s, pid) && i < PROCESSES && s.procs[i].state != Unused
      && s.procs[i].pid == pid
    ensures s.kill[PidPosition(s.procs, s.kill, pid)] == i
  {
    var x := s.kill[PidPosition(s.procs, s.kill, pid)];
    WaitRoundKeeps(s, pid);
    assert s.procs[x].pid == pid && s.procs[x].state == Killed;
    assert (x < i ==> PidsDiffer(s, x, i)) && (i < x ==> PidsDiffer(s, i, x));
  }

  /** In any run that starts with a successful fork, the first Wait that finds the child's pid cleans up
      the slot that the fork filled, which still has the stack and the map it got then. */
  lemma ForkedIsReaped(states: seq<Sched>, es: seq<Event>, o: ForkOutcome, n: nat)
    requires IsRun(states, es) && Inv(states[0]) && 1 <= n < |es|
    requires es[0] == Event.ForkCall(o) && o.Forked? && FreeSlot(states[0].procs) < PROCESSES
    requires forall j: nat :: 1 <= j < n ==> !CleansUpAt(states, es, j, states[0].nextPid)
    requires CleansUpAt(states, es, n, states[0].nextPid)
    ensures var f, s, pid := FreeSlot(states[0].procs), states[n], states[0].nextPid;
      WellFormed(s) && s.kill[PidPosition(s.procs, s.kill, pid)] == f && s.procs[f].stack == o.stack
        && s.procs[f].pageMap == o.pageMap
  {
    var f := FreeSlot(states[0].procs);
    assert Moves(states, es, 0) && Moves(states, es, n);
    ForkFills(states[0], o);
    StaysTheSame(states, es, f, 1, n);
    RunKeeps(states, es, n);
    OneSlotPerPid(states[n], states[0].nextPid, f);
  }

  lemma ForkFills(s: Sched, o: ForkOutcome)
    requires WellFormed(s) && o.Forked? && FreeSlot(s.procs) < PROCESSES
    ensures var f, t := FreeSlot(s.procs), Step(s, Event.ForkCall(o));
      WellFormed(t) && t.procs[f].state == Ready && t.procs[f].pid == s.nextPid && t.procs[f].stack == o.stack
        && t.procs[f].pageMap == o.pageMap
  {
  }

  // ----- In runs of the whole kernel -----

  /** The page belongs to the slot. */
  predicate Holds(own: Owners, i: nat, p: PageNo) { Holder(own, p) == Some(i) }

  ghost predicate SameHoldings(a: Owners, b: Owners, i: nat) { forall p: PageNo :: Holds(a, i, p) <==> Holds(b, i, p) }

  /** A fork leaves the pages of all other processes with them. */
  lemma ForkKeepsHoldings(a: Snapshot, b: Snapshot, s: Sched, pages: nat, i: nat)
    requires Shape(a.ram, a.own) && SpacesOk(a.ram, a.own, pages) && PagesOwned(a.ram, a.own, s.procs) && Inv(s)
    requires i < PROCESSES && s.procs[i].state != Unused && Acquired(a, b, FreeSlot(s.procs))
    requires FreeSlot(s.procs) == PROCESSES ==> SameUse(a, b)
    ensures SameHoldings(a.own, b.own, i)
  {
    var f := FreeSlot(s.procs);
    if f == PROCESSES {
      SameUseUntouched(a, b, 0);
    } else {
      FreeSlotFacts(a.ram, a.own, pages, s, f);
      forall p: PageNo ensures Holds(a.own, i, p) <==> Holds(b.own, i, p) {
        assert AcquiredPage(a, b, f, p);
        if a.own[p] != Free { SameHolder(a, b, f, p, pages); }
      }
    }
  }

  /** Cleaning up one process leaves the pages of all others with them. */
  lemma ReleaseKeepsHoldings(a: Snapshot, b: Snapshot, pages: nat, x: nat, i: nat)
    requires Shape(a.ram, a.own) && SpacesOk(a.ram, a.own, pages) && Released(a, b, x) && i != x
    ensures SameHoldings(a.own, b.own, i)
  {
    forall p: PageNo ensures Holds(a.own, i, p) <==> Holds(b.own, i, p) {
      assert ReleasedPage(a, b, x, p) && UserPageOk(a.own, p);
      TreeAbove(a.ram, a.own, p);
      match a.own[p]
      case UserPage(r, _) => assert ReleasedPage(a, b, x, r);
      case Table(level, q, _) =>
        assert ReleasedPage(a, b, x, q) && HangsUp(a.ram, a.own, p);
        if level == 2 { assert ReleasedPage(a, b, x, a.own[q].parent) && HangsUp(a.ram, a.own, q); }
      case _ =>
    }
  }

  /** What a wait does to the pages of a process that it does not clean up. */
  lemma WaitKeepsHoldings(m: Moment, n: Moment, pages: nat, pid: int, i: nat)
    requires Sound(m, pages) && DoesWait(m, n, pid) && Current(m) != 0
    requires i < PROCESSES && !CleansUp(m.system.sched, Event.WaitCall(pid), m.system.sched.procs[i].pid)
    ensures SameHoldings(m.mem.own, n.mem.own, i)
  {
    var s := m.system.sched;
    if Reaps(s, pid) {
      var x := s.kill[PidPosition(s.procs, s.kill, pid)];
      assert x != i;
      ReleaseKeepsHoldings(m.mem, n.mem, pages, x, i);
    }
  }

  /** No step takes a page from a process in use, or gives it one, but a Wait that cleans it up. */
  lemma StepKeepsHoldings(m: Moment, n: Moment, t: Trap, a: Systems.Act, v: Volume, pages: nat, i: nat)
    requires Sound(m, pages) && Stepped(m, n, t, a, v)
    requires var s := m.system.sched;
      i < PROCESSES && s.procs[i].state != Unused && !CleansUp(s, Systems.EventOf(m.system, a), s.procs[i].pid)
    ensures SameHoldings(m.mem.own, n.mem.own, i)
  {
    if t.ForkCall? {
      ForkKeepsHoldings(m.mem, n.mem, m.system.sched, pages, i);
    } else if t.WaitCall? {
      WaitKeepsHoldings(m, n, pages, t.pid, i);
    } else if t.Resume? && m.system.places[Current(m)].InWait? {
      WaitKeepsHoldings(m, n, pages, m.system.places[Current(m)].pid, i);
    } else {
      OwnStays(m, n, t, a, v, pages);
    }
  }

  /** Step `j` is a Wait that cleans up the process with this pid. */
  predicate CleansUpIn(h: History, j: nat, pid: int) {
    j < |h.moments| && j < |h.acts| && CleansUp(h.moments[j].system.sched, EventAt(h, j), pid)
  }

  ghost predicate SameProcessAt(h: History, i: nat, m: nat, n: nat)
    requires m < |h.moments| && n < |h.moments|
  {
    var s, t := h.moments[m].system.sched, h.moments[n].system.sched;
    && WellFormed(s) && WellFormed(t) && i < PROCESSES && SameProcess(s.procs[i], t.procs[i])
    && SameHoldings(h.moments[m].mem.own, h.moments[n].mem.own, i)
  }

  lemma ProcessNext(h: History, v: Volume, pages: nat, i: nat, n: nat)
    requires IsHistory(h, v, pages) && n < |h.traps| && i < PROCESSES
    requires var s := h.moments[n].system.sched;
      WellFormed(s) && s.procs[i].state != Unused && !CleansUpIn(h, n, s.procs[i].pid)
    ensures SameProcessAt(h, i, n, n + 1)
  {
    var b, c := h.moments[n], h.moments[n + 1];
    assert StepAt(h, v, n) && SoundAt(h, pages, n) && SoundAt(h, pages, n + 1);
    SchedulerMoves(h, v, pages, n);
    KeepsIdentity(b.system.sched, EventAt(h, n), i);
    StepKeepsHoldings(b, c, h.traps[n], h.acts[n], v, pages, i);
  }

  /** Until it is cleaned up a process keeps its slot, pid, stack, map, and exactly its pages, whatever it and all
      others do. */
  lemma {:induction false} ProcessStays(h: History, v: Volume, pages: nat, i: nat, m: nat, n: nat)
    requires IsHistory(h, v, pages) && m <= n <= |h.traps| && i < PROCESSES
    requires var s := h.moments[m].system.sched;
      WellFormed(s) && s.procs[i].state != Unused && forall j: nat :: m <= j < n ==> !CleansUpIn(h, j, s.procs[i].pid)
    ensures SameProcessAt(h, i, m, n)
    decreases n - m
  {
    if m < n {
      ProcessStays(h, v, pages, i, m, n - 1);
      assert !CleansUpIn(h, n - 1, h.moments[n - 1].system.sched.procs[i].pid);
      ProcessNext(h, v, pages, i, n - 1);
    }
  }

  /** The pages that a successful fork took are those of the child's slot. */
  lemma ForkTakes(m: Moment, n: Moment, o: ForkOutcome, pages: nat, p: PageNo)
    requires Sound(m, pages) && o.Forked? && ForkDone(m.system.sched, m.mem, n.mem, m.files, n.files, o)
    ensures Holds(n.mem.own, FreeSlot(m.system.sched.procs), p) <==> m.mem.own[p] == Free && n.mem.own[p] != Free
    ensures n.mem.own[p] == m.mem.own[p] || m.mem.own[p] == Free
  {
    var f := FreeSlot(m.system.sched.procs);
    FreeSlotFacts(m.mem.ram, m.mem.own, pages, m.system.sched, f);
    assert AcquiredPage(m.mem, n.mem, f, p);
    if m.mem.own[p] != Free { SameHolder(m.mem, n.mem, f, p, pages); }
  }

  /** A Wait that cleans up the process in slot `f` gives back exactly the pages of the slot. */
  lemma WaitGives(m: Moment, n: Moment, t: Trap, a: Systems.Act, v: Volume, pages: nat, pid: int, f: nat)
    requires Sound(m, pages) && Stepped(m, n, t, a, v) && CleansUp(m.system.sched, Systems.EventOf(m.system, a), pid)
    requires f < PROCESSES && m.system.sched.procs[f].state != Unused && m.system.sched.procs[f].pid == pid
    ensures Released(m.mem, n.mem, f) && FileSpec.CountsExact(m.files) && n.files == FileSpec.CloseAll(m.files, f)
  {
    OneSlotPerPid(m.system.sched, pid, f);
  }

  /** The step of the system in which the first process forks successfully, at the start of the run. */
  predicate ForksFirst(h: History) {
    |h.acts| > 0 && h.acts[0].CallFork? && h.acts[0].outcome.Forked?
  }

  /** In such a run, the Wait that finds the child cleans up the slot that the fork filled, with the same pages. */
  lemma ChildIsReaped(h: History, v: Volume, pages: nat, n: nat)
    requires IsHistory(h, v, pages) && ForksFirst(h) && 1 <= n < |h.traps|
    requires var pid := h.moments[0].system.sched.nextPid;
      CleansUpIn(h, n, pid) && forall j: nat :: 1 <= j < n ==> !CleansUpIn(h, j, pid)
    ensures Sound(h.moments[0], pages) && Stepped(h.moments[0], h.moments[1], h.traps[0], h.acts[0], v)
    ensures var f := FreeSlot(h.moments[0].system.sched.procs);
      && SameHoldings(h.moments[1].mem.own, h.moments[n].mem.own, f)
      && Released(h.moments[n].mem, h.moments[n + 1].mem, f) && f < PROCESSES
      && FileSpec.CountsExact(h.moments[n].files)
      && h.moments[n + 1].files == FileSpec.CloseAll(h.moments[n].files, f)
  {
    var s, o := h.moments[0].system.sched, h.acts[0].outcome;
    var f := FreeSlot(s.procs);
    assert StepAt(h, v, 0) && SoundAt(h, pages, 0);
    ForkFills(s, o);
    ProcessStays(h, v, pages, f, 1, n);
    assert StepAt(h, v, n) && SoundAt(h, pages, n);
    WaitGives(h.moments[n], h.moments[n + 1], h.traps[n], h.acts[n], v, pages, s.nextPid, f);
  }

  /** The pages taken are the pages given. */
  lemma PagesTakenAndGiven(m: Moment, n: Moment, o: ForkOutcome, pages: nat, c: Snapshot, d: Snapshot, p: PageNo)
    requires Sound(m, pages) && o.Forked? && ForkDone(m.system.sched, m.mem, n.mem, m.files, n.files, o)
    requires var f := FreeSlot(m.system.sched.procs); SameHoldings(n.mem.own, c.own, f) && Released(c, d, f)
    ensures (m.mem.own[p] == Free && n.mem.own[p] != Free) <==> (c.own[p] != Free && d.own[p] == Free)
    ensures c.own == n.mem.own ==> d.own[p] == m.mem.own[p]
  {
    var f := FreeSlot(m.system.sched.procs);
    ForkTakes(m, n, o, pages, p);
    assert Holds(n.mem.own, f, p) <==> Holds(c.own, f, p);
    assert ReleasedPage(c, d, f, p);
  }

  /** From fork to clean-up, whatever happens in between: other processes fork, exit and are cleaned up, all of
      them store to their memory, and read and execute files. The Wait gives back exactly the pages that the
      fork took. So if no other process gained or lost a page the set of free pages is the old one, and if
      there was nothing to do with files the file tables are the old ones. */
  lemma ForkExitWait(h: History, v: Volume, pages: nat, n: nat)
    requires IsHistory(h, v, pages) && ForksFirst(h) && 1 <= n < |h.traps|
    requires var pid := h.moments[0].system.sched.nextPid;
      CleansUpIn(h, n, pid) && forall j: nat :: 1 <= j < n ==> !CleansUpIn(h, j, pid)
    ensures var a, b, c, d := h.moments[0].mem.own, h.moments[1].mem.own, h.moments[n].mem.own,
      h.moments[n + 1].mem.own;
      && (forall p: PageNo :: (a[p] == Free && b[p] != Free) <==> (c[p] != Free && d[p] == Free))
      && (c == b ==> d == a)
    ensures h.moments[n].files == h.moments[1].files ==> h.moments[n + 1].files == h.moments[0].files
  {
    ChildIsReaped(h, v, pages, n);
    var a, b, c, d := h.moments[0].mem.own, h.moments[1].mem.own, h.moments[n].mem.own, h.moments[n + 1].mem.own;
    forall p: PageNo
      ensures (a[p] == Free && b[p] != Free) <==> (c[p] != Free && d[p] == Free)
      ensures c == b ==> d[p] == a[p]
    {
      PagesTakenAndGiven(h.moments[0], h.moments[1], h.acts[0].outcome, pages, h.moments[n].mem,
        h.moments[n + 1].mem, p);
    }
    var s := h.moments[0].system.sched;
    if h.moments[n].files == h.moments[1].files {
      FileSpec.ShareThenClose(h.moments[0].files, s.current, FreeSlot(s.procs));
    }
  }

  // ----- A slot that nobody ever uses -----

  /** No event changes a slot that was filled but never made ready. */
  lemma InitializedStays(s: Sched, e: Event, i: nat)
    requires Inv(s) && Enabled(s, e) && i < PROCESSES && s.procs[i].state == Initialized
    ensures Step(s, e).procs[i] == s.procs[i]
  {
    assert RunningOk(s, i) && RunningOk(s, 0) && (i > 0 ==> Listed(s, i));
    match e
    case YieldCall => YieldSlot(s, i);
    case SleepCall(id) => ScheduleSlot(Slept(s, id), i);
    case WakeupCall(id) => WakeupSlot(s, id, i);
    case ExitCall =>
      var p := SetState(s, s.current, Killed).(kill := s.kill + [s.current]);
      ParkKeeps(s, p);
      WakeupSlot(p, INIT_WAIT, i);
      ScheduleSlot(Wakeup(p, INIT_WAIT), i);
    case WaitCall(pid) =>
      if s.kill == [] { ScheduleSlot(Slept(s, INIT_WAIT), i); } else { WaitRoundKeeps(s, pid); }
    case ForkCall(o) =>
    case FilesCall(file) =>
    case Tick =>
      WakeupSlot(s, NORMAL_WAIT, i);
      WakeupKeeps(s, NORMAL_WAIT);
      YieldSlot(Wakeup(s, NORMAL_WAIT), i);
  }

  lemma LostNext(states: seq<Sched>, es: seq<Event>, i: nat, n: nat)
    requires IsRun(states, es) && n < |es| && Inv(states[n]) && i < PROCESSES && states[n].procs[i].state == Initialized
    ensures WellFormed(states[n + 1]) && states[n + 1].procs[i] == states[n].procs[i]
  {
    assert Moves(states, es, n);
    InitializedStays(states[n], es[n], i);
  }

  /** So the slot that a fork without memory for the child's page leaves behind is lost for good. */
  lemma {:induction false} SlotIsLost(states: seq<Sched>, es: seq<Event>, i: nat, m: nat, n: nat)
    requires IsRun(states, es) && Inv(states[0]) && m <= n <= |es| && i < PROCESSES
    requires WellFormed(states[m]) && states[m].procs[i].state == Initialized
    ensures WellFormed(states[n]) && states[n].procs[i] == states[m].procs[i]
    decreases n - m
  {
    if m < n {
      SlotIsLost(states, es, i, m, n - 1);
      RunKeeps(states, es, n - 1);
      LostNext(states, es, i, n - 1);
    }
  }
}
