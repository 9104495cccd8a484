/** The scheduling calls of kernel/process.c on the process slots and their linked queues. Each is
    proved to do what SchedulerSpec says. */
module Scheduling {
  import opened Bits
  import opened MemoryLayout
  import opened ProcessLists
  import Spec = SchedulerSpec
  import SchedulerRuns

  function ToPcb(p: Process): Spec.Pcb { Spec.Pcb(p.pid, p.waitId, p.state, p.pageMap, p.stack, p.file) }

  function ToPcbs(slots: seq<Process>): (r: seq<Spec.Pcb>)
    ensures |r| == |slots| && forall i :: 0 <= i < |slots| ==> r[i] == ToPcb(slots[i])
  {
    seq(|slots|, i requires 0 <= i < |slots| => ToPcb(slots[i]))
  }

  lemma SamePcbs(a: seq<Process>, b: seq<Process>)
    requires OnlyNext(a, b)
    ensures ToPcbs(a) == ToPcbs(b)
  {
  }

  lemma UpdatePcb(a: seq<Process>, i: nat, p: Process)
    requires i < |a|
    ensures ToPcbs(a[i := p]) == ToPcbs(a)[i := ToPcb(p)]
  {
  }

  lemma {:induction false} MatchIsWaits(slots: seq<Process>, q: seq<nat>, id: int)
    requires forall i :: 0 <= i < |q| ==> q[i] < |slots|
    ensures forall i :: 0 <= i < |q| ==> (Matches(slots[q[i]], ByWaitId(id)) <==> Spec.Waits(ToPcbs(slots), q[i], id))
  {
  }

  lemma {:induction false} MatchIsPid(slots: seq<Process>, q: seq<nat>, pid: int)
    requires forall i :: 0 <= i < |q| ==> q[i] < |slots|
    ensures FirstMatch(slots, q, ByPid(pid)) == Spec.PidPosition(ToPcbs(slots), q, pid)
  {
    if q != [] { MatchIsPid(slots, q[1..], pid); }
  }

  /** All processes keep their files. */
  predicate GridKept(a: seq<Process>, b: seq<Process>) {
    |a| == |b| && forall i :: 0 <= i < |a| ==> b[i].file == a[i].file
  }

  class Scheduler {
    const table: ProcessTable
    var current: nat
    var nextPid: int
    var cr3: Word

    /** The zeroed tables at boot; pids start at 1. */
    constructor (pml4: Word)
      ensures fresh(table) && fresh(table.slots) && fresh(table.heads) && Linked()
      ensures View() == Spec.Sched(seq(PROCESSES, _ => Spec.ZeroPcb()), [], [], [], 0, 1, pml4)
    {
      table := new ProcessTable();
      current := 0;
      nextPid := 1;
      cr3 := pml4;
    }

    /** The abstract state. */
    ghost function View(): Spec.Sched
      requires |table.queues| == 3
      reads this, table, table.slots
    {
      Spec.Sched(ToPcbs(table.slots[..]), table.queues[READY], table.queues[WAIT], table.queues[KILL], current,
        nextPid, cr3)
    }

    /** The queues are linked properly. */
    ghost predicate Linked()
      reads this, table, table.slots, table.heads
    {
      table.Valid() && Spec.WellFormed(View())
    }

    ghost predicate Valid()
      reads this, table, table.slots, table.heads
    {
      table.Valid() && Spec.Inv(View())
    }

    lemma QueueBounds()
      requires table.Valid()
      ensures forall l: nat :: l < 3 ==> Spec.AllSlots(table.queues[l])
    {
      forall l: nat | l < 3 ensures Spec.AllSlots(table.queues[l]) {
        forall i | 0 <= i < |table.queues[l]| ensures table.queues[l][i] < PROCESSES {
          assert NextOk(table.slots[..], table.queues[l], i);
        }
      }
    }

    method SetState(i: nat, state: ProcState)
      requires Linked() && i < PROCESSES
      modifies table.slots
      ensures Linked() && View() == Spec.SetState(old(View()), i, state)
    {
      UpdatePcb(table.slots[..], i, table.slots[i].(state := state));
      table.Update(i, table.slots[i].(state := state));
    }

    method PushBack(l: nat, item: nat)
      requires Linked() && l < 3 && item < PROCESSES && InNoQueue(table.queues, item)
      modifies table.slots, table.heads, table`queues
      ensures Linked()
      ensures View() == match l
        case 0 => old(View()).(ready := old(View()).ready + [item])
        case 1 => old(View()).(wait := old(View()).wait + [item])
        case _ => old(View()).(kill := old(View()).kill + [item])
    {
      table.ListPushBack(l, item);
      SamePcbs(old(table.slots[..]), table.slots[..]);
      QueueBounds();
    }

    /** Run the head of the ready list, or the idle process; load its map. */
    method Schedule()
      requires Linked()
      modifies this, table.slots, table.heads, table`queues
      ensures Linked() && View() == Spec.Schedule(old(View()))
    {
      QueueBounds();
      var next := 0;
      if !table.ListIsEmpty(READY) {
        var item := table.ListPopFront(READY);
        next := item.slot;
        QueueBounds();
      }
      SetState(next, Running);
      current := next;
      cr3 := VirToPhy(table.slots[next].pageMap);
    }

    method Yield()
      requires Valid()
      modifies this, table.slots, table.heads, table`queues
      ensures Valid() && View() == Spec.Yield(old(View()))
    {
      Spec.YieldKeeps(View());
      if table.ListIsEmpty(READY) {
        return;
      }
      CurrentInNoQueue();
      SetState(current, Ready);
      if table.slots[current].pid != 0 {
        PushBack(READY, current);
      }
      Schedule();
    }

    method Sleep(id: int)
      requires Valid() && current != 0
      modifies this, table.slots, table.heads, table`queues
      ensures Valid() && View() == Spec.Sleep(old(View()), id)
    {
      Spec.SleepKeeps(View(), id);
      CurrentInNoQueue();
      UpdatePcb(table.slots[..], current, table.slots[current].(state := Sleeping, waitId := id));
      table.Update(current, table.slots[current].(state := Sleeping, waitId := id));
      PushBack(WAIT, current);
      Schedule();
    }

    lemma CurrentInNoQueue()
      requires Valid()
      ensures current < PROCESSES && InNoQueue(table.queues, current)
    {
      if current != 0 {
        assert Spec.Listed(View(), current) && Spec.RunningOk(View(), current);
      }
    }

    /** Move every sleeper on `id` to the ready list, restarting from the head each time. */
    method Wakeup(id: int)
      requires Linked()
      modifies this, table.slots, table.heads, table`queues
      ensures Linked() && View() == Spec.Wakeup(old(View()), id)
    {
      ghost var s := View();
      var item: Ptr;
      ghost var k: nat;
      item, k := TakeSleeper(id);
      while item != Null
        invariant Spec.WellFormed(s) && Distinct(s.wait) && Spec.Wakeup(s, id) == Spec.Wakeup(old(View()), id)
        invariant Linked()
        invariant item == Null ==> View() == s && NobodyWaits(s, id, |s.wait|)
        invariant item != Null ==> k < |s.wait| && item == Slot(s.wait[k]) && InNoQueue(table.queues, s.wait[k])
        invariant item != Null ==> Spec.Waits(s.procs, s.wait[k], id) && NobodyWaits(s, id, k)
        invariant item != Null ==> View() == s.(wait := Removed(s.wait, k))
        decreases |s.wait| + if item == Null then 0 else 1
      {
        SetState(item.slot, Ready);
        PushBack(READY, item.slot);
        SchedulerRuns.WakeOneFirst(s, id, k);
        s := View();
        item, k := TakeSleeper(id);
      }
      SchedulerRuns.WakeNone(s, id);
    }

    /** None of the first `n` sleepers waits for `id`. */
    static ghost predicate NobodyWaits(s: Spec.Sched, id: int, n: nat) {
      n <= |s.wait| && forall i :: 0 <= i < n ==> !Spec.Waits(s.procs, s.wait[i], id)
    }

    method TakeSleeper(id: int) returns (item: Ptr, ghost k: nat)
      requires Linked()
      modifies table.slots, table.heads, table`queues
      ensures Linked() && Distinct(old(View()).wait)
      ensures item == Null ==> View() == old(View()) && NobodyWaits(old(View()), id, |old(View()).wait|)
      ensures item != Null ==>
        k < |old(View()).wait| && item == Slot(old(View()).wait[k]) && InNoQueue(table.queues, old(View()).wait[k])
      ensures item != Null ==> Spec.Waits(old(View()).procs, old(View()).wait[k], id) && NobodyWaits(old(View()), id, k)
      ensures item != Null ==> View() == old(View()).(wait := Removed(old(View()).wait, k))
    {
      ghost var q := table.queues[WAIT];
      assert ListOk(table.slots[..], table.heads[WAIT], q);
      QueueBounds();
      MatchIsWaits(table.slots[..], q, id);
      FirstMatchIsFirst(table.slots[..], q, ByWaitId(id));
      item, k := table.RemoveFirst(WAIT, ByWaitId(id));
      SamePcbs(old(table.slots[..]), table.slots[..]);
      QueueBounds();
      if k < |q| { Spec.RemovedMembers(q, k); assert q[k] in q; }
    }

    /** Take the first killed process with this pid off the kill list. */
    method TakeKilled(pid: int) returns (item: Ptr)
      requires Linked()
      modifies table.slots, table.heads, table`queues
      ensures Linked() && GridKept(old(table.slots[..]), table.slots[..])
      ensures var k := Spec.PidPosition(old(View()).procs, old(View()).kill, pid);
        if k == |old(View()).kill| then item == Null && View() == old(View())
        else
          item == Slot(old(View()).kill[k]) && InNoQueue(table.queues, old(View()).kill[k])
          && View() == old(View()).(kill := Removed(old(View()).kill, k))
    {
      ghost var q := table.queues[KILL];
      ghost var k;
      assert ListOk(table.slots[..], table.heads[KILL], q);
      QueueBounds();
      MatchIsPid(table.slots[..], q, pid);
      item, k := table.RemoveFirst(KILL, ByPid(pid));
      SamePcbs(old(table.slots[..]), table.slots[..]);
      QueueBounds();
      if k < |q| { Spec.RemovedMembers(q, k); assert q[k] in q; }
    }

    method Exit()
      requires Valid() && current != 0
      modifies this, table.slots, table.heads, table`queues
      ensures Valid() && View() == Spec.Exit(old(View()))
    {
      Spec.ExitKeeps(View());
      CurrentInNoQueue();
      SetState(current, Killed);
      PushBack(KILL, current);
      Wakeup(Spec.INIT_WAIT);
      Schedule();
    }
  }
}
