/** Whole runs of the scheduler: the invariant over every run, bounded waiting, and what Wakeup
    does to the order of the queues. */
module SchedulerRuns {
  import MemoryLayout
  import opened ProcessLists
  import opened SchedulerSpec
  import opened Wrappers

  /** The calls that reach the scheduler. A timer tick wakes the normal sleepers and yields. */
  datatype Event =
    | YieldCall
    | SleepCall(id: int)
    | WakeupCall(id: int)
    | ExitCall
    | WaitCall(pid: int)
    | ForkCall(outcome: ForkOutcome)
    | FilesCall(file: seq<Option<nat>>)     // leaves the current process with these files
    | Tick

  /** The idle process never makes a system call; interrupts may hit it. */
  predicate Enabled(s: Sched, e: Event) {
    e.Tick? || e.WakeupCall? || e.YieldCall? || e.FilesCall? || s.current != 0
  }

  function Step(s: Sched, e: Event): (t: Sched)
    requires WellFormed(s)
    ensures WellFormed(t)
  {
    match e
    case YieldCall => Yield(s)
    case SleepCall(id) => Sleep(s, id)
    case WakeupCall(id) => Wakeup(s, id)
    case ExitCall => Exit(s)
    case WaitCall(pid) => WaitRound(s, pid)
    case ForkCall(o) => Fork(s, o)
    case FilesCall(file) => WithFile(s, s.current, file)
    case Tick => Yield(Wakeup(s, NORMAL_WAIT))
  }

  lemma FilesStep(s: Sched, file: seq<Option<nat>>)
    requires WellFormed(s)
    ensures Step(s, FilesCall(file)) == WithFile(s, s.current, file)
    ensures file == s.procs[s.current].file ==> Step(s, FilesCall(file)) == s
  {
    if file == s.procs[s.current].file { assert WithFile(s, s.current, file).procs == s.procs; }
  }

  predicate Moves(states: seq<Sched>, es: seq<Event>, i: nat)
    requires i < |es| < |states|
  {
    WellFormed(states[i]) && Enabled(states[i], es[i]) && states[i + 1] == Step(states[i], es[i])
  }

  /** A run: the states before and after each of the events. */
  predicate IsRun(states: seq<Sched>, es: seq<Event>) {
    |states| == |es| + 1 && forall i: nat :: i < |es| ==> Moves(states, es, i)
  }

  lemma StepKeeps(s: Sched, e: Event)
    requires Inv(s) && Enabled(s, e)
    ensures Inv(Step(s, e))
  {
    match e
    case YieldCall => YieldKeeps(s);
    case SleepCall(id) => SleepKeeps(s, id);
    case WakeupCall(id) => WakeupKeeps(s, id);
    case ExitCall => ExitKeeps(s);
    case WaitCall(pid) => WaitRoundKeeps(s, pid);
    case ForkCall(o) => ForkKeeps(s, o);
    case FilesCall(file) => FileKeeps(s, file);
    case Tick => WakeupKeeps(s, NORMAL_WAIT); YieldKeeps(Wakeup(s, NORMAL_WAIT));
  }

  /** The scheduler invariant holds in every state of every run. */
  lemma {:induction false} RunKeeps(states: seq<Sched>, es: seq<Event>, n: nat)
    requires IsRun(states, es) && Inv(states[0]) && n <= |es|
    ensures Inv(states[n])
  {
    if n > 0 {
      RunKeeps(states, es, n - 1);
      assert Moves(states, es, n - 1);
      StepKeeps(states[n - 1], es[n - 1]);
    }
  }

  /** A run goes on with one more event. */
  lemma RunExtends(states: seq<Sched>, es: seq<Event>, e: Event, t: Sched)
    requires IsRun(states, es) && WellFormed(states[|es|]) && Enabled(states[|es|], e) && t == Step(states[|es|], e)
    ensures IsRun(states + [t], es + [e])
  {
    var u, f := states + [t], es + [e];
    forall i: nat | i < |f| ensures Moves(u, f, i) {
      if i < |es| {
        assert Moves(states, es, i);
        SameMove(states, es, i, u, f);
      } else {
        assert u[i] == states[|es|] && u[i + 1] == t && f[i] == e;
      }
    }
  }

  lemma SameMove(states: seq<Sched>, es: seq<Event>, i: nat, u: seq<Sched>, f: seq<Event>)
    requires i < |es| < |states| && i < |f| < |u| && Moves(states, es, i)
    requires u[i] == states[i] && u[i + 1] == states[i + 1] && f[i] == es[i]
    ensures Moves(u, f, i)
  {
  }

  /** The state that InitProcess leaves: the idle process runs, the shell is ready. */
  ghost predicate Initial(s: Sched) {
    && WellFormed(s) && s.ready == [1] && s.wait == [] && s.kill == [] && s.current == 0 && s.nextPid == 2
    && s.procs[0].pid == 0 && s.procs[0].state == Running && s.cr3 == MemoryLayout.VirToPhy(s.procs[0].pageMap)
    && s.procs[1].pid == 1 && s.procs[1].state == Ready
    && forall i :: 2 <= i < PROCESSES ==> s.procs[i] == ZeroPcb()
  }

  lemma InitialKeeps(s: Sched)
    requires Initial(s)
    ensures Inv(s)
  {
    forall i: nat | 1 <= i < |s.procs| ensures Listed(s, i) { }
  }

  // ----- Bounded waiting -----

  /** Does the event call Schedule? */
  predicate Switches(s: Sched, e: Event)
    requires WellFormed(s)
  {
    match e
    case YieldCall => s.ready != []
    case SleepCall(_) => true
    case ExitCall => true
    case WaitCall(_) => s.kill == []
    case Tick => Wakeup(s, NORMAL_WAIT).ready != []
    case _ => false
  }

  /** The number of switches in the first `n` events. */
  function SwitchCount(states: seq<Sched>, es: seq<Event>, n: nat): (c: nat)
    requires IsRun(states, es) && n <= |es|
  {
    if n == 0 then 0
    else
      assert Moves(states, es, n - 1);
      SwitchCount(states, es, n - 1) + if Switches(states[n - 1], es[n - 1]) then 1 else 0
  }

  /** One event: a waiting process keeps its position, or moves one place up with each switch. */
  lemma Advance(s: Sched, e: Event, k: nat)
    requires Inv(s) && Enabled(s, e) && k < |s.ready|
    ensures !Switches(s, e) ==> k < |Step(s, e).ready| && Step(s, e).ready[k] == s.ready[k]
    ensures Switches(s, e) && k > 0 ==> k - 1 < |Step(s, e).ready| && Step(s, e).ready[k - 1] == s.ready[k]
    ensures Switches(s, e) && k == 0 ==> Step(s, e).current == s.ready[0]
  {
    match e
    case Tick => AdvanceYield(Wakeup(s, NORMAL_WAIT), k);
    case ExitCall => AdvanceSchedule(Wakeup(SetState(s, s.current, Killed).(kill := s.kill + [s.current]), INIT_WAIT),
      k);
    case SleepCall(id) => AdvanceSchedule(Slept(s, id), k);
    case WaitCall(pid) => if s.kill == [] { AdvanceSchedule(Slept(s, INIT_WAIT), k); }
    case YieldCall => AdvanceYield(s, k);
    case _ =>
  }

  lemma AdvanceSchedule(s: Sched, k: nat)
    requires WellFormed(s) && k < |s.ready|
    ensures k > 0 ==> k - 1 < |Schedule(s).ready| && Schedule(s).ready[k - 1] == s.ready[k]
    ensures k == 0 ==> Schedule(s).current == s.ready[0]
  {
  }

  lemma AdvanceYield(s: Sched, k: nat)
    requires WellFormed(s) && k < |s.ready|
    ensures k > 0 ==> k - 1 < |Yield(s).ready| && Yield(s).ready[k - 1] == s.ready[k]
    ensures k == 0 ==> Yield(s).current == s.ready[0]
  {
  }

  /** A process at position `k` of the ready queue is still waiting, one place further with each
      switch, as long as there were at most `k` of them, whatever the events are. */
  lemma {:induction false} StillWaiting(states: seq<Sched>, es: seq<Event>, n: nat, k: nat)
    requires IsRun(states, es) && Inv(states[0]) && n <= |es| && k < |states[0].ready|
      && SwitchCount(states, es, n) <= k
    ensures k - SwitchCount(states, es, n) < |states[n].ready|
    ensures states[n].ready[k - SwitchCount(states, es, n)] == states[0].ready[k]
  {
    if n > 0 {
      StillWaiting(states, es, n - 1, k);
      RunKeeps(states, es, n - 1);
      assert Moves(states, es, n - 1);
      KeepsWaiting(states[n - 1], es[n - 1], states[n], k - SwitchCount(states, es, n - 1));
    }
  }

  /** One event, with the new position. */
  lemma KeepsWaiting(s: Sched, e: Event, t: Sched, k: nat)
    requires Inv(s) && Enabled(s, e) && t == Step(s, e) && k < |s.ready| && (Switches(s, e) ==> k > 0)
    ensures var m := if Switches(s, e) then k - 1 else k; m < |t.ready| && t.ready[m] == s.ready[k]
  {
    Advance(s, e, k);
  }

  /** Bounded waiting: the process at position `k` of the ready queue runs right after switch
      number k + 1, and not before. */
  lemma BoundedWaiting(states: seq<Sched>, es: seq<Event>, n: nat, k: nat)
    requires IsRun(states, es) && Inv(states[0]) && n < |es| && k < |states[0].ready|
    requires SwitchCount(states, es, n) == k && SwitchCount(states, es, n + 1) == k + 1
    ensures states[n + 1].current == states[0].ready[k] && Inv(states[n + 1])
    ensures forall m: nat :: m <= n ==> states[m].current != states[0].ready[k]
  {
    StillWaiting(states, es, n, k);
    RunKeeps(states, es, n);
    RunKeeps(states, es, n + 1);
    assert Moves(states, es, n);
    Advance(states[n], es[n], 0);
    forall m: nat | m <= n ensures states[m].current != states[0].ready[k] {
      CountGrows(states, es, m, n);
      StillWaiting(states, es, m, k);
      RunKeeps(states, es, m);
      var x := states[0].ready[k];
      assert x in states[m].ready;
      assert x != 0 && Listed(states[m], x) && RunningOk(states[m], x);
    }
  }

  lemma {:induction false} CountGrows(states: seq<Sched>, es: seq<Event>, m: nat, n: nat)
    requires IsRun(states, es) && m <= n <= |es|
    ensures SwitchCount(states, es, m) <= SwitchCount(states, es, n)
    decreases n - m
  {
    if m < n { CountGrows(states, es, m, n - 1); }
  }

  /** A tick switches whenever somebody waits for the processor. */
  lemma TickSwitches(s: Sched)
    requires WellFormed(s) && s.ready != []
    ensures Switches(s, Tick)
  {
  }

  // ----- Wakeup is a stable partition -----

  /** `r` is `q` with some members left out. */
  predicate Subsequence(r: seq<nat>, q: seq<nat>) {
    if r == [] then true
    else q != [] && ((r[0] == q[0] && Subsequence(r[1..], q[1..])) || Subsequence(r, q[1..]))
  }

  /** The woken and the sleeping processes are complementary parts of the wait queue, both in their old order. */
  lemma PartitionIsStable(procs: seq<Pcb>, q: seq<nat>, id: int)
    ensures Subsequence(Waiting(procs, q, id), q) && Subsequence(NotWaiting(procs, q, id), q)
    ensures multiset(Waiting(procs, q, id)) + multiset(NotWaiting(procs, q, id)) == multiset(q)
  {
    WaitingInOrder(procs, q, id);
    PartitionIsComplete(procs, q, id);
  }

  lemma {:induction false} WaitingInOrder(procs: seq<Pcb>, q: seq<nat>, id: int)
    ensures Subsequence(Waiting(procs, q, id), q) && Subsequence(NotWaiting(procs, q, id), q)
  {
    if q != [] {
      WaitingInOrder(procs, q[1..], id);
      var w, n := Waiting(procs, q[1..], id), NotWaiting(procs, q[1..], id);
      if Waits(procs, q[0], id) {
        assert Waiting(procs, q, id) == [q[0]] + w && NotWaiting(procs, q, id) == n;
        TakeFirst(w, q);
        SkipFirst(n, q);
      } else {
        assert NotWaiting(procs, q, id) == [q[0]] + n && Waiting(procs, q, id) == w;
        TakeFirst(n, q);
        SkipFirst(w, q);
      }
    }
  }

  lemma {:induction false} PartitionIsComplete(procs: seq<Pcb>, q: seq<nat>, id: int)
    ensures multiset(Waiting(procs, q, id)) + multiset(NotWaiting(procs, q, id)) == multiset(q)
  {
    if q != [] {
      PartitionIsComplete(procs, q[1..], id);
      assert q == [q[0]] + q[1..];
    }
  }

  lemma TakeFirst(r: seq<nat>, q: seq<nat>)
    requires q != [] && Subsequence(r, q[1..])
    ensures Subsequence([q[0]] + r, q)
  {
    assert ([q[0]] + r)[1..] == r;
  }

  lemma SkipFirst(r: seq<nat>, q: seq<nat>)
    requires q != [] && Subsequence(r, q[1..])
    ensures Subsequence(r, q)
  {
  }

  /** One removal by WaitListRemoveReadyProcess followed by the push to the ready queue. */
  function WakeOne(s: Sched, k: nat): Sched
    requires WellFormed(s) && k < |s.wait|
  {
    SetState(s, s.wait[k], Ready).(ready := s.ready + [s.wait[k]], wait := Removed(s.wait, k))
  }

  /** Waking the first matching sleeper and then all others is waking all of them. */
  lemma WakeOneFirst(s: Sched, id: int, k: nat)
    requires WellFormed(s) && k < |s.wait| && Distinct(s.wait)
    requires Waits(s.procs, s.wait[k], id) && forall i :: 0 <= i < k ==> !Waits(s.procs, s.wait[i], id)
    ensures WellFormed(WakeOne(s, k)) && Wakeup(WakeOne(s, k), id) == Wakeup(s, id)
  {
    var t, x := WakeOne(s, k), s.wait[k];
    FirstWaiting(s.procs, s.wait, id, k);
    SameWaiting(s.procs, t.procs, t.wait, id);
    var up := Waiting(t.procs, t.wait, id);
    assert Waiting(s.procs, s.wait, id) == [x] + up;
    assert s.ready + ([x] + up) == t.ready + up;
    ReadyAgain(s.procs, x, up);
    assert t.procs == s.procs[x := s.procs[x].(state := Ready)];
  }

  lemma ReadyAgain(procs: seq<Pcb>, x: nat, up: seq<nat>)
    requires x < |procs|
    ensures MakeReady(procs[x := procs[x].(state := Ready)], up) == MakeReady(procs, [x] + up)
  {
    assert forall i :: i in [x] + up <==> i == x || i in up;
  }

  lemma {:induction false} SameWaiting(a: seq<Pcb>, b: seq<Pcb>, q: seq<nat>, id: int)
    requires |a| == |b| && forall i :: 0 <= i < |a| ==> b[i].waitId == a[i].waitId
    ensures Waiting(b, q, id) == Waiting(a, q, id) && NotWaiting(b, q, id) == NotWaiting(a, q, id)
  {
    if q != [] { SameWaiting(a, b, q[1..], id); }
  }

  lemma {:induction false} FirstWaiting(procs: seq<Pcb>, q: seq<nat>, id: int, k: nat)
    requires k < |q| && Waits(procs, q[k], id) && forall i :: 0 <= i < k ==> !Waits(procs, q[i], id)
    ensures Waiting(procs, q, id) == [q[k]] + Waiting(procs, Removed(q, k), id)
    ensures NotWaiting(procs, q, id) == NotWaiting(procs, Removed(q, k), id)
  {
    if k == 0 {
      assert Removed(q, 0) == q[1..];
    } else {
      FirstWaiting(procs, q[1..], id, k - 1);
      assert Removed(q, k)[1..] == Removed(q[1..], k - 1);
    }
  }

  lemma {:induction false} NoneWaiting(procs: seq<Pcb>, q: seq<nat>, id: int)
    requires forall i :: 0 <= i < |q| ==> !Waits(procs, q[i], id)
    ensures Waiting(procs, q, id) == [] && NotWaiting(procs, q, id) == q
  {
    if q != [] {
      assert !Waits(procs, q[0], id);
      NoneWaiting(procs, q[1..], id);
      assert q == [q[0]] + q[1..];
    }
  }

  lemma WakeNone(s: Sched, id: int)
    requires WellFormed(s) && forall i :: 0 <= i < |s.wait| ==> !Waits(s.procs, s.wait[i], id)
    ensures Wakeup(s, id) == s
  {
    NoneWaiting(s.procs, s.wait, id);
  }

  // ----- One slot -----

  predicate Wakes(e: Event, id: int) {
    (e.Tick? && id == NORMAL_WAIT) || (e.WakeupCall? && id == e.id) || (e.ExitCall? && id == INIT_WAIT)
  }

  predicate CanRun(p: Pcb) { p.state == Ready || p.state == Running }

  /** What an event does to a slot other than the current one: a ready process stays ready or runs, and
      a sleeping one sleeps on for the same reason, unless the event wakes exactly that reason. */
  predicate OtherMoves(p: Pcb, q: Pcb, e: Event) {
    && (p.state == Ready ==> CanRun(q))
    && (p.state == Sleeping ==> if Wakes(e, p.waitId) then CanRun(q) else q.state == Sleeping && q.waitId == p.waitId)
  }

  /** What it does to the current process, unless that is idle. */
  predicate CurrentMoves(s: Sched, q: Pcb, e: Event) {
    match e
    case SleepCall(id) => q.state == Sleeping && q.waitId == id
    case WaitCall(_) => if s.kill == [] then q.state == Sleeping && q.waitId == INIT_WAIT else q.state == Running
    case ExitCall => q.state == Killed
    case YieldCall => CanRun(q)
    case Tick => CanRun(q)
    case _ => q.state == Running
  }

  lemma ScheduleSlot(s: Sched, i: nat)
    requires WellFormed(s) && 1 <= i < PROCESSES && (i in s.ready ==> s.procs[i].state == Ready)
    ensures Schedule(s).procs[i] == s.procs[i] || (s.procs[i].state == Ready
      && Schedule(s).procs[i] == s.procs[i].(state := Running))
  {
    if s.ready != [] { assert s.ready[0] in s.ready; }
  }

  lemma WakeupSlot(s: Sched, id: int, i: nat)
    requires Core(s) && 1 <= i < PROCESSES
    ensures var q := Wakeup(s, id).procs[i];
      q == if s.procs[i].state == Sleeping && s.procs[i].waitId == id then s.procs[i].(state := Ready) else s.procs[i]
    ensures Core(Wakeup(s, id)) && (i in Wakeup(s, id).ready ==> Wakeup(s, id).procs[i].state == Ready)
  {
    WakeupCore(s, id);
    assert Woken(s, id, i) && Listed(s, i) && Listed(Wakeup(s, id), i);
  }

  lemma YieldSlot(s: Sched, i: nat)
    requires Core(s) && s.current < PROCESSES && 1 <= i < PROCESSES && (i == s.current <==> s.procs[i].state == Running)
    ensures var p, q := s.procs[i], Yield(s).procs[i];
      if p.state == Ready || p.state == Running then CanRun(q) else q == p
  {
    assert Listed(s, i) && SlotOk(s, i);
    if s.ready != [] {
      var r := SetState(s, s.current, Ready);
      ScheduleSlot(if s.procs[s.current].pid != 0 then r.(ready := s.ready + [s.current]) else r, i);
    }
  }

  lemma OtherSlot(s: Sched, e: Event, i: nat)
    requires Inv(s) && Enabled(s, e) && 1 <= i < PROCESSES && i != s.current
    ensures OtherMoves(s.procs[i], Step(s, e).procs[i], e)
  {
    assert RunningOk(s, i) && Listed(s, i);
    match e
    case YieldCall => YieldSlot(s, i);
    case SleepCall(id) => ScheduleSlot(Slept(s, id), i);
    case WakeupCall(id) => WakeupSlot(s, id, i);
    case ExitCall =>
      var p := SetState(s, s.current, Killed).(kill := s.kill + [s.current]);
      ParkKeeps(s, p);
      WakeupSlot(p, INIT_WAIT, i);
      ScheduleSlot(Wakeup(p, INIT_WAIT), i);
    case WaitCall(pid) =>
      if s.kill == [] { ScheduleSlot(Slept(s, INIT_WAIT), i); } else { WaitRoundKeeps(s, pid); }
    case ForkCall(o) =>
    case FilesCall(file) =>
    case Tick => TickSlot(s, i);
  }

  lemma TickSlot(s: Sched, i: nat)
    requires Inv(s) && 1 <= i < PROCESSES
    ensures i != s.current ==> OtherMoves(s.procs[i], Step(s, Tick).procs[i], Tick)
    ensures i == s.current ==> CanRun(Step(s, Tick).procs[i])
  {
    assert RunningOk(s, i);
    WakeupSlot(s, NORMAL_WAIT, i);
    YieldSlot(Wakeup(s, NORMAL_WAIT), i);
  }

  lemma CurrentSlot(s: Sched, e: Event)
    requires Inv(s) && Enabled(s, e) && s.current != 0
    ensures CurrentMoves(s, Step(s, e).procs[s.current], e)
  {
    var i := s.current;
    assert RunningOk(s, i) && Listed(s, i);
    match e
    case YieldCall => YieldSlot(s, i);
    case SleepCall(id) => ScheduleSlot(Slept(s, id), i);
    case WakeupCall(id) => WakeupSlot(s, id, i);
    case ExitCall =>
      var p := SetState(s, i, Killed).(kill := s.kill + [i]);
      ParkKeeps(s, p);
      WakeupSlot(p, INIT_WAIT, i);
      ScheduleSlot(Wakeup(p, INIT_WAIT), i);
    case WaitCall(pid) =>
      if s.kill == [] { ScheduleSlot(Slept(s, INIT_WAIT), i); } else { WaitRoundKeeps(s, pid); }
    case ForkCall(o) =>
    case FilesCall(file) =>
    case Tick => TickSlot(s, i);
  }
}
