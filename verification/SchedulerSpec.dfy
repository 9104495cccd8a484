/** The scheduler of kernel/process.c as a state machine over values: what each kernel call does to
    the process slots and the three queues, what every call keeps, and what holds over whole runs. */
module SchedulerSpec {
  import opened Bits
  import opened MemoryLayout
  import opened ProcessLists
  import opened Wrappers

  const NORMAL_WAIT := -1
  const INIT_WAIT := 1
  const KEYBOARD_WAIT := -2

  /** A process slot without its link. */
  datatype Pcb = Pcb(pid: int, waitId: int, state: ProcState, pageMap: Word, stack: Word, file: seq<Option<nat>>)

  function ZeroPcb(): Pcb { Pcb(0, 0, Unused, 0, 0, NoFiles()) }

  datatype Sched = Sched(procs: seq<Pcb>, ready: seq<nat>, wait: seq<nat>, kill: seq<nat>, current: nat, nextPid: int,
      cr3: Word)

  predicate AllSlots(q: seq<nat>) { forall i :: 0 <= i < |q| ==> q[i] < PROCESSES }

  predicate WellFormed(s: Sched) {
    |s.procs| == PROCESSES && s.current < PROCESSES && AllSlots(s.ready) && AllSlots(s.wait) && AllSlots(s.kill)
  }

  function SetState(s: Sched, i: nat, state: ProcState): Sched
    requires i < |s.procs|
  {
    s.(procs := s.procs[i := s.procs[i].(state := state)])
  }

  // ----- What the calls do -----

  /** Run the head of the ready queue, or the idle process. */
  function Schedule(s: Sched): (t: Sched)
    requires WellFormed(s)
    ensures WellFormed(t)
  {
    if s.ready == [] then SetState(s, 0, Running).(current := 0, cr3 := VirToPhy(s.procs[0].pageMap))
    else
      var next := s.ready[0];
      SetState(s, next, Running).(ready := s.ready[1..], current := next, cr3 := VirToPhy(s.procs[next].pageMap))
  }

  function Yield(s: Sched): (t: Sched)
    requires WellFormed(s)
    ensures WellFormed(t)
  {
    if s.ready == [] then s
    else
      var r := SetState(s, s.current, Ready);
      Schedule(if s.procs[s.current].pid != 0 then r.(ready := s.ready + [s.current]) else r)
  }

  function Sleep(s: Sched, id: int): (t: Sched)
    requires WellFormed(s)
    ensures WellFormed(t)
  {
    Schedule(Slept(s, id))
  }

  /** The members of `q` that wait for `id`, in order. */
  function Waiting(procs: seq<Pcb>, q: seq<nat>, id: int): (r: seq<nat>)
    ensures AllSlots(q) ==> AllSlots(r)
    ensures forall x :: x in r ==> x in q
  {
    if q == [] then []
    else (if Waits(procs, q[0], id) then [q[0]] else []) + Waiting(procs, q[1..], id)
  }

  /** The members of `q` that wait for something else, in order. */
  function NotWaiting(procs: seq<Pcb>, q: seq<nat>, id: int): (r: seq<nat>)
    ensures AllSlots(q) ==> AllSlots(r)
    ensures forall x :: x in r ==> x in q
  {
    if q == [] then []
    else (if Waits(procs, q[0], id) then [] else [q[0]]) + NotWaiting(procs, q[1..], id)
  }

  function MakeReady(procs: seq<Pcb>, q: seq<nat>): seq<Pcb> {
    seq(|procs|, i requires 0 <= i < |procs| => if i in q then procs[i].(state := Ready) else procs[i])
  }

  /** All sleepers on `id` move to the ready queue, in order; the others stay, in order. */
  function Wakeup(s: Sched, id: int): (t: Sched)
    requires WellFormed(s)
    ensures WellFormed(t)
  {
    var up := Waiting(s.procs, s.wait, id);
    s.(procs := MakeReady(s.procs, up), ready := s.ready + up, wait := NotWaiting(s.procs, s.wait, id))
  }

  function Exit(s: Sched): (t: Sched)
    requires WellFormed(s)
    ensures WellFormed(t)
  {
    Schedule(Wakeup(SetState(s, s.current, Killed).(kill := s.kill + [s.current]), INIT_WAIT))
  }

  /** The position of the first process of `q` with this pid. */
  function PidPosition(procs: seq<Pcb>, q: seq<nat>, pid: int): (k: nat)
    ensures k <= |q|
    ensures k < |q| ==> q[k] < |procs| ==> procs[q[k]].pid == pid
    ensures forall i :: 0 <= i < k && q[i] < |procs| ==> procs[q[i]].pid != pid
  {
    if q == [] || (q[0] < |procs| && procs[q[0]].pid == pid) then 0 else 1 + PidPosition(procs, q[1..], pid)
  }

  /** Wait finds a killed process with this pid. */
  predicate Reaps(s: Sched, pid: int) { s.kill != [] && PidPosition(s.procs, s.kill, pid) < |s.kill| }

  /** One round of the loop of Wait: sleep while nothing was killed, clean up the process if it was,
      and spin otherwise. */
  function WaitRound(s: Sched, pid: int): (t: Sched)
    requires WellFormed(s)
    ensures WellFormed(t)
  {
    if s.kill == [] then Sleep(s, INIT_WAIT)
    else
      var k := PidPosition(s.procs, s.kill, pid);
      if k == |s.kill| then s
      else s.(procs := s.procs[s.kill[k] := ZeroPcb()], kill := Removed(s.kill, k))
  }

  /** The first unused slot. */
  function FreeSlot(procs: seq<Pcb>): (f: nat)
    ensures f <= |procs|
    ensures f < |procs| ==> procs[f].state == Unused
    ensures forall i :: 0 <= i < f ==> procs[i].state != Unused
  {
    if procs == [] || procs[0].state == Unused then 0 else 1 + FreeSlot(procs[1..])
  }

  /** A slot filled by CreateNewProcess. */
  function Create(s: Sched, f: nat, stack: Word, pageMap: Word): (t: Sched)
    requires WellFormed(s) && f < PROCESSES
    ensures WellFormed(t)
  {
    s.(procs := s.procs[f := Pcb(s.nextPid, 0, Initialized, pageMap, stack, s.procs[f].file)], nextPid := s.nextPid + 1)
  }

  /** The slot inherits the open files and becomes ready. */
  function Start(s: Sched, f: nat, file: seq<Option<nat>>): (t: Sched)
    requires WellFormed(s) && f < PROCESSES
    ensures WellFormed(t)
  {
    s.(procs := s.procs[f := s.procs[f].(state := Ready, file := file)], ready := s.ready + [f])
  }

  /** How far a fork gets before memory runs out. */
  datatype ForkOutcome =
    | NoSlotOrStack                             // nothing happened
    | NoMap                                     // a pid was used up
    | NoCopy(stack: Word, pageMap: Word)        // the slot stays behind, initialized
    | Forked(stack: Word, pageMap: Word)

  function Fork(s: Sched, o: ForkOutcome): (t: Sched)
    requires WellFormed(s)
    ensures WellFormed(t)
  {
    var f := FreeSlot(s.procs);
    if o.NoSlotOrStack? || f == PROCESSES then s
    else match o
      case Forked(stack, pageMap) => Start(Create(s, f, stack, pageMap), f, s.procs[s.current].file)
      case NoCopy(stack, pageMap) => Create(s, f, stack, pageMap)
      case _ => s.(nextPid := s.nextPid + 1)
  }

  // ----- The invariant -----

  predicate Listed(s: Sched, i: nat)
    requires i < |s.procs|
  {
    && (i in s.ready <==> s.procs[i].state == Ready)
    && (i in s.wait <==> s.procs[i].state == Sleeping)
    && (i in s.kill <==> s.procs[i].state == Killed)
  }

  /** Every live process but the idle one is in exactly the queue its state says, once. */
  ghost predicate QueuesOk(s: Sched) {
    && Distinct(s.ready) && Distinct(s.wait) && Distinct(s.kill)
    && 0 !in s.ready && 0 !in s.wait && 0 !in s.kill
    && forall i: nat :: 1 <= i < |s.procs| ==> Listed(s, i)
  }

  predicate SlotOk(s: Sched, i: nat)
    requires i < |s.procs|
  {
    && (s.procs[i].state == Unused ==> s.procs[i] == ZeroPcb())
    && (s.procs[i].state != Unused && i != 0 ==> 1 <= s.procs[i].pid < s.nextPid)
  }

  predicate PidsDiffer(s: Sched, i: nat, j: nat)
    requires i < j < |s.procs|
  {
    s.procs[i].state != Unused && s.procs[j].state != Unused ==> s.procs[i].pid != s.procs[j].pid
  }

  ghost predicate Core(s: Sched) {
    && WellFormed(s) && QueuesOk(s) && s.nextPid >= 1 && s.procs[0].pid == 0
    && (forall i: nat :: i < |s.procs| ==> SlotOk(s, i))
    && (forall i: nat, j: nat :: i < j < |s.procs| ==> PidsDiffer(s, i, j))
  }

  predicate RunningOk(s: Sched, i: nat)
    requires i < |s.procs|
  {
    s.procs[i].state == Running <==> i == s.current
  }

  /** Exactly one process runs; every other live one is in exactly the queue its state says, once;
      the idle process is in none; pids are unique; the active map is the current process's. */
  ghost predicate Inv(s: Sched) {
    && Core(s)
    && (forall i: nat :: i < |s.procs| ==> RunningOk(s, i))
    && (s.current != 0 ==> s.procs[0].state == Ready)
    && s.cr3 == VirToPhy(s.procs[s.current].pageMap)
  }

  // ----- Every call keeps it -----

  predicate NotRunning(s: Sched, i: nat)
    requires i < |s.procs|
  {
    s.procs[i].state != Running
  }

  /** In the middle of a call that gives up the processor: the current process has been moved to a
      queue and nobody runs. */
  ghost predicate Parked(s: Sched) {
    Core(s) && s.procs[0].state == Ready && forall i: nat :: i < |s.procs| ==> NotRunning(s, i)
  }

  lemma ScheduleKeeps(s: Sched)
    requires Parked(s)
    ensures Inv(Schedule(s))
  {
    var t := Schedule(s);
    if s.ready != [] {
      assert s.ready[0] in s.ready;
      assert forall x :: x in s.ready <==> x == s.ready[0] || x in s.ready[1..];
      assert Listed(s, s.ready[0]);
    }
    StateChangeKeeps(s, t, t.current);
    forall i: nat | 1 <= i < |t.procs| ensures Listed(t, i) { assert Listed(s, i); }
    forall i: nat | i < |t.procs| ensures RunningOk(t, i) { assert NotRunning(s, i); }
  }

  /** Changing the state of one live slot, and its queue with it. */
  lemma StateChangeKeeps(s: Sched, t: Sched, x: nat)
    requires Core(s) && |t.procs| == |s.procs| && x < |s.procs| && t.nextPid == s.nextPid
    requires forall i: nat :: i < |s.procs| && i != x ==> t.procs[i] == s.procs[i]
    requires s.procs[x].state != Unused && t.procs[x].state != Unused && t.procs[x].pid == s.procs[x].pid
    ensures forall i: nat :: i < |t.procs| ==> SlotOk(t, i)
    ensures forall i: nat, j: nat :: i < j < |t.procs| ==> PidsDiffer(t, i, j)
  {
    forall i: nat | i < |t.procs| ensures SlotOk(t, i) { assert SlotOk(s, i); }
    forall i: nat, j: nat | i < j < |t.procs| ensures PidsDiffer(t, i, j) { assert PidsDiffer(s, i, j); }
  }

  /** Moving the current process out of the way. */
  lemma ParkKeeps(s: Sched, p: Sched)
    requires Inv(s) && s.current != 0 && |p.procs| == |s.procs| && p.nextPid == s.nextPid && p.current == s.current
    requires forall i: nat :: i < |s.procs| && i != s.current ==> p.procs[i] == s.procs[i]
    requires p.procs[s.current].pid == s.procs[s.current].pid
    requires match p.procs[s.current].state
      case Ready => p.ready == s.ready + [s.current] && p.wait == s.wait && p.kill == s.kill
      case Sleeping => p.ready == s.ready && p.wait == s.wait + [s.current] && p.kill == s.kill
      case Killed => p.ready == s.ready && p.wait == s.wait && p.kill == s.kill + [s.current]
      case _ => false
    ensures Parked(p)
  {
    assert RunningOk(s, s.current) && Listed(s, s.current);
    StateChangeKeeps(s, p, s.current);
    forall i: nat | 1 <= i < |p.procs| ensures Listed(p, i) { assert Listed(s, i); }
    forall i: nat | i < |p.procs| ensures NotRunning(p, i) { assert RunningOk(s, i); }
  }

  lemma YieldKeeps(s: Sched)
    requires Inv(s)
    ensures Inv(Yield(s))
  {
    if s.ready != [] {
      var r := SetState(s, s.current, Ready);
      assert RunningOk(s, s.current) && SlotOk(s, s.current);
      if s.current != 0 {
        ParkKeeps(s, r.(ready := s.ready + [s.current]));
        ScheduleKeeps(r.(ready := s.ready + [s.current]));
      } else {
        StateChangeKeeps(s, r, 0);
        forall i: nat | 1 <= i < |r.procs| ensures Listed(r, i) { assert Listed(s, i); }
        forall i: nat | i < |r.procs| ensures NotRunning(r, i) { assert RunningOk(s, i); }
        ScheduleKeeps(r);
      }
    }
  }

  function Slept(s: Sched, id: int): Sched
    requires WellFormed(s)
  {
    s.(procs := s.procs[s.current := s.procs[s.current].(state := Sleeping, waitId := id)],
      wait := s.wait + [s.current])
  }

  lemma SleepKeeps(s: Sched, id: int)
    requires Inv(s) && s.current != 0
    ensures Inv(Sleep(s, id))
  {
    ParkKeeps(s, Slept(s, id));
    ScheduleKeeps(Slept(s, id));
  }

  predicate Waits(procs: seq<Pcb>, x: nat, id: int) { x < |procs| && procs[x].waitId == id }

  /** The two halves of a queue partition it. */
  lemma WaitingPartition(procs: seq<Pcb>, q: seq<nat>, id: int)
    requires Distinct(q)
    ensures Distinct(Waiting(procs, q, id)) && Distinct(NotWaiting(procs, q, id))
    ensures forall x :: x in Waiting(procs, q, id) <==> x in q && Waits(procs, x, id)
    ensures forall x :: x in NotWaiting(procs, q, id) <==> x in q && !Waits(procs, x, id)
  {
    WaitingMembers(procs, q, id);
    NotWaitingMembers(procs, q, id);
  }

  lemma {:induction false} WaitingMembers(procs: seq<Pcb>, q: seq<nat>, id: int)
    requires Distinct(q)
    ensures Distinct(Waiting(procs, q, id))
    ensures forall x :: x in Waiting(procs, q, id) <==> x in q && Waits(procs, x, id)
  {
    if q != [] {
      var w, rest := Waiting(procs, q, id), Waiting(procs, q[1..], id);
      WaitingMembers(procs, q[1..], id);
      assert w == (if Waits(procs, q[0], id) then [q[0]] else []) + rest;
      assert forall x :: x in q <==> x == q[0] || x in q[1..];
      assert q[0] !in rest;
    }
  }

  lemma {:induction false} NotWaitingMembers(procs: seq<Pcb>, q: seq<nat>, id: int)
    requires Distinct(q)
    ensures Distinct(NotWaiting(procs, q, id))
    ensures forall x :: x in NotWaiting(procs, q, id) <==> x in q && !Waits(procs, x, id)
  {
    if q != [] {
      var w, rest := NotWaiting(procs, q, id), NotWaiting(procs, q[1..], id);
      NotWaitingMembers(procs, q[1..], id);
      assert w == (if Waits(procs, q[0], id) then [] else [q[0]]) + rest;
      assert forall x :: x in q <==> x == q[0] || x in q[1..];
      assert q[0] !in rest;
    }
  }

  lemma DistinctAppend(q: seq<nat>, r: seq<nat>)
    requires Distinct(q) && Distinct(r) && forall x :: x in r ==> x !in q
    ensures Distinct(q + r)
  {
    forall i, j | 0 <= i < j < |q + r| ensures (q + r)[i] != (q + r)[j] {
      if i < |q| <= j { assert r[j - |q|] in r && q[i] in q; }
    }
  }

  /** The state of every slot after Wakeup: the sleepers on `id` are ready. */
  lemma WakeupStates(s: Sched, id: int)
    requires WellFormed(s) && Distinct(s.wait)
    ensures forall i: nat :: i < |s.procs| ==> Woken(s, id, i)
    ensures forall x :: x in Waiting(s.procs, s.wait, id) <==> x in s.wait && Waits(s.procs, x, id)
  {
    WaitingPartition(s.procs, s.wait, id);
  }

  predicate Woken(s: Sched, id: int, i: nat)
    requires WellFormed(s) && i < |s.procs|
  {
    Wakeup(s, id).procs[i] == if i in s.wait && s.procs[i].waitId == id then s.procs[i].(state := Ready) else s.procs[i]
  }

  lemma WakeupCore(s: Sched, id: int)
    requires Core(s)
    ensures Core(Wakeup(s, id))
    ensures forall i: nat :: i < |s.procs| ==> Woken(s, id, i)
  {
    var t := Wakeup(s, id);
    WakeupStates(s, id);
    WakeupQueues(s, id);
    forall i: nat | i < |t.procs| ensures SlotOk(t, i) {
      assert SlotOk(s, i) && Woken(s, id, i);
      if i >= 1 { assert Listed(s, i); }
    }
    forall i: nat, j: nat | i < j < |t.procs| ensures PidsDiffer(t, i, j) {
      assert PidsDiffer(s, i, j) && Woken(s, id, i) && Woken(s, id, j);
      if i >= 1 { assert Listed(s, i); }
      assert Listed(s, j);
    }
  }

  lemma WakeupQueues(s: Sched, id: int)
    requires Core(s)
    ensures QueuesOk(Wakeup(s, id))
  {
    var t := Wakeup(s, id);
    WaitingPartition(s.procs, s.wait, id);
    WakeupStates(s, id);
    forall x | x in Waiting(s.procs, s.wait, id) ensures x !in s.ready { assert Listed(s, x); }
    DistinctAppend(s.ready, Waiting(s.procs, s.wait, id));
    forall i: nat | 1 <= i < |t.procs| ensures Listed(t, i) {
      assert Listed(s, i) && Woken(s, id, i);
    }
  }

  lemma WakeupKeeps(s: Sched, id: int)
    requires Inv(s)
    ensures Inv(Wakeup(s, id))
  {
    WakeupCore(s, id);
    var t := Wakeup(s, id);
    forall i: nat | i < |t.procs| ensures RunningOk(t, i) {
      assert RunningOk(s, i);
      if i >= 1 { assert Listed(s, i); }
    }
  }

  lemma ExitKeeps(s: Sched)
    requires Inv(s) && s.current != 0
    ensures Inv(Exit(s))
  {
    var p := SetState(s, s.current, Killed).(kill := s.kill + [s.current]);
    ParkKeeps(s, p);
    WakeupCore(p, INIT_WAIT);
    var w := Wakeup(p, INIT_WAIT);
    forall i: nat | i < |w.procs| ensures NotRunning(w, i) { assert NotRunning(p, i); }
    ScheduleKeeps(w);
  }

  lemma WaitRoundKeeps(s: Sched, pid: int)
    requires Inv(s) && s.current != 0
    ensures Inv(WaitRound(s, pid))
    ensures var k := PidPosition(s.procs, s.kill, pid);
      k < |s.kill| ==> s.kill[k] != 0 && s.kill[k] != s.current && s.procs[s.kill[k]].state == Killed
  {
    if s.kill == [] {
      SleepKeeps(s, INIT_WAIT);
    } else {
      var k := PidPosition(s.procs, s.kill, pid);
      if k < |s.kill| { ReapKeeps(s, k); }
    }
  }

  lemma ReapKeeps(s: Sched, k: nat)
    requires Inv(s) && k < |s.kill|
    ensures s.kill[k] != 0 && s.kill[k] != s.current && s.procs[s.kill[k]].state == Killed
    ensures Inv(s.(procs := s.procs[s.kill[k] := ZeroPcb()], kill := Removed(s.kill, k)))
  {
    var x, t := s.kill[k], s.(procs := s.procs[s.kill[k] := ZeroPcb()], kill := Removed(s.kill, k));
    assert x in s.kill && Listed(s, x) && RunningOk(s, x);
    RemovedMembers(s.kill, k);
    forall i: nat | i < |t.procs| ensures SlotOk(t, i) && RunningOk(t, i) && (i >= 1 ==> Listed(t, i)) {
      assert SlotOk(s, i) && RunningOk(s, i);
      if i >= 1 { assert Listed(s, i); }
    }
    forall i: nat, j: nat | i < j < |t.procs| ensures PidsDiffer(t, i, j) { assert PidsDiffer(s, i, j); }
  }

  lemma RemovedMembers(q: seq<nat>, k: nat)
    requires Distinct(q) && k < |q|
    ensures Distinct(Removed(q, k)) && forall x :: x in Removed(q, k) <==> x in q && x != q[k]
  {
    var r := Removed(q, k);
    forall x ensures x in r <==> x in q && x != q[k] {
      if x in r {
        var i :| 0 <= i < |r| && r[i] == x;
        assert x == q[if i < k then i else i + 1];
      }
      if x in q && x != q[k] {
        var j :| 0 <= j < |q| && q[j] == x;
        assert r[if j < k then j else j - 1] == x;
      }
    }
  }

  lemma CreateKeeps(s: Sched, f: nat, stack: Word, pageMap: Word)
    requires Inv(s) && f < PROCESSES && s.procs[f].state == Unused
    ensures f != 0 && f != s.current && Inv(Create(s, f, stack, pageMap))
  {
    var t := Create(s, f, stack, pageMap);
    assert RunningOk(s, f) && RunningOk(s, 0);
    assert Listed(s, f);
    forall i: nat | i < |t.procs| ensures SlotOk(t, i) && RunningOk(t, i) && (i >= 1 ==> Listed(t, i)) {
      assert SlotOk(s, i) && RunningOk(s, i);
      if i >= 1 { assert Listed(s, i); }
    }
    forall i: nat, j: nat | i < j < |t.procs| ensures PidsDiffer(t, i, j) {
      assert PidsDiffer(s, i, j) && SlotOk(s, i) && SlotOk(s, j);
    }
  }

  lemma StartKeeps(s: Sched, f: nat, file: seq<Option<nat>>)
    requires Inv(s) && f < PROCESSES && s.procs[f].state == Initialized && f != 0
    ensures Inv(Start(s, f, file))
  {
    var t := Start(s, f, file);
    assert RunningOk(s, f) && Listed(s, f);
    StateChangeKeeps(s, t, f);
    forall i: nat | i < |t.procs| ensures RunningOk(t, i) && (i >= 1 ==> Listed(t, i)) {
      assert RunningOk(s, i);
      if i >= 1 { assert Listed(s, i); }
    }
  }

  lemma ForkKeeps(s: Sched, o: ForkOutcome)
    requires Inv(s) && s.current != 0
    ensures Inv(Fork(s, o))
  {
    var f := FreeSlot(s.procs);
    if !o.NoSlotOrStack? && f < PROCESSES {
      match o
      case Forked(stack, pageMap) =>
        CreateKeeps(s, f, stack, pageMap);
        StartKeeps(Create(s, f, stack, pageMap), f, s.procs[s.current].file);
      case NoCopy(stack, pageMap) => CreateKeeps(s, f, stack, pageMap);
      case NoMap => NextPidKeeps(s);
    }
  }

  lemma NextPidKeeps(s: Sched)
    requires Inv(s)
    ensures Inv(s.(nextPid := s.nextPid + 1))
  {
    var t := s.(nextPid := s.nextPid + 1);
    forall i: nat | i < |t.procs| ensures SlotOk(t, i) && RunningOk(t, i) && (i >= 1 ==> Listed(t, i)) {
      assert SlotOk(s, i) && RunningOk(s, i);
      if i >= 1 { assert Listed(s, i); }
    }
    forall i: nat, j: nat | i < j < |t.procs| ensures PidsDiffer(t, i, j) { assert PidsDiffer(s, i, j); }
  }

  function WithFile(s: Sched, p: nat, file: seq<Option<nat>>): (t: Sched)
    requires p < |s.procs|
  {
    s.(procs := s.procs[p := s.procs[p].(file := file)])
  }

  /** Opening and closing files of the current process. */
  lemma FileKeeps(s: Sched, file: seq<Option<nat>>)
    requires Inv(s)
    ensures Inv(WithFile(s, s.current, file))
  {
    var t := WithFile(s, s.current, file);
    assert RunningOk(s, s.current);
    StateChangeKeeps(s, t, s.current);
    forall i: nat | i < |t.procs| ensures RunningOk(t, i) && (i >= 1 ==> Listed(t, i)) {
      assert RunningOk(s, i);
      if i >= 1 { assert Listed(s, i); }
    }
  }
}
