/** What interrupts, faults, system calls and stores mean for the processes: what follows each in a state of the
    kernel, and in a whole run. */
module TrapMeanings {
  import opened Bits
  import opened MemoryLayout
  import opened AddressSpaces
  import opened ProcessLists
  import Spec = SchedulerSpec
  import Runs = SchedulerRuns
  import Systems = SystemRuns
  import opened CStrings
  import opened FatDirectory
  import FatData
  import FileSpec
  import opened OpenFiles
  import opened FileLoading
  import opened Keyboard
  import opened KernelState
  import opened UserMemory
  import opened KernelSteps
  import opened KernelHistories
  import opened Wrappers

  function Process(m: Moment, i: nat): Spec.Pcb
    requires Systems.Shaped(m.system) && i < PROCESSES
  {
    m.system.sched.procs[i]
  }

  // ----- The parts of a step -----

  lemma Acts(m: Moment, n: Moment, t: Trap, a: Systems.Act, v: Volume)
    requires Stepped(m, n, t, a, v)
    ensures Systems.StepsTo(m.system, a, n.system) && Fits(m.flags, t, a) && (ByProcess(t) ==> Current(m) != 0)
  {
  }

  lemma Done(m: Moment, n: Moment, t: Trap, a: Systems.Act, v: Volume)
    requires Stepped(m, n, t, a, v)
    ensures Systems.Shaped(m.system) && Does(m, n, t, a, v)
  {
  }

  /** Which step of the system a call is, and where it leads. */
  lemma CallLeads(s: Systems.System, f: Flags, t: Trap, a: Systems.Act, u: Systems.System)
    requires Systems.StepsTo(s, a, u) && Fits(f, t, a)
    ensures match t
      case SleepCall(n) => a == Systems.CallSleep(n) && u == Systems.SleepLoop(s, s.ticks, n, 0)
      case KeyCall(address) => a == Systems.CallRead(address) && u == Systems.ReadKey(s, address)
      case WaitCall(pid) => a == Systems.CallWait(pid) && u == Systems.WaitLoop(s, pid)
      case ExitCall => a == Systems.CallExit && u == Systems.Exited(s)
      case Fault => a == Systems.CallExit && u == Systems.Exited(s)
      case _ => true
  {
  }

  lemma FileCallLeads(s: Systems.System, f: Flags, t: Trap, a: Systems.Act, u: Systems.System)
    requires Systems.StepsTo(s, a, u) && Fits(f, t, a)
    ensures match t
      case ForkCall => a.CallFork? && u == Systems.Forked(s, a.outcome)
      case OpenCall(_) => a.CallFiles? && u == Systems.WithFiles(s, a.row)
      case CloseCall(_) => a.CallFiles? && u == Systems.WithFiles(s, a.row)
      case ReadCall(_, _, _) => a == Systems.Quiet && u == s
      case ExecCall(_) => (a == Systems.Quiet && u == s) || (a == Systems.CallExit && u == Systems.Exited(s))
      case UserStore(_, _) => a == Systems.Quiet && u == s
      case _ => true
  {
  }

  /** A ready process stays ready or runs. A sleeper that waits for one of these can run; any other sleeps on. */
  predicate MovesOn(p: Spec.Pcb, q: Spec.Pcb, woken: set<int>) {
    && (p.state == Ready ==> Runs.CanRun(q))
    && (p.state == Sleeping ==>
          if p.waitId in woken then Runs.CanRun(q) else q.state == Sleeping && q.waitId == p.waitId)
  }

  /** So do all processes but the current one. */
  ghost predicate OthersMoveOn(m: Moment, n: Moment, woken: set<int>)
    requires Systems.Shaped(m.system) && Systems.Shaped(n.system)
  {
    forall j: nat :: 1 <= j < PROCESSES && j != Current(m) ==> MovesOn(Process(m, j), Process(n, j), woken)
  }

  lemma OthersAfter(m: Moment, n: Moment, t: Trap, a: Systems.Act, v: Volume, pages: nat, woken: set<int>)
    requires Sound(m, pages) && Stepped(m, n, t, a, v)
    requires forall id :: id in woken <==> Runs.Wakes(Systems.EventOf(m.system, a), id)
    ensures Systems.Shaped(n.system) && OthersMoveOn(m, n, woken)
  {
    var e := Systems.EventOf(m.system, a);
    Systems.StepEvent(m.system, a);
    forall j: nat | 1 <= j < PROCESSES && j != Current(m) ensures MovesOn(Process(m, j), Process(n, j), woken) {
      Runs.OtherSlot(m.system.sched, e, j);
      assert Runs.OtherMoves(Process(m, j), Process(n, j), e);
    }
  }

  /** The timer: one tick more, those who wait for one can run, and the next in line runs. */
  lemma TimerMeans(m: Moment, n: Moment, a: Systems.Act, v: Volume, pages: nat)
    requires Sound(m, pages) && Stepped(m, n, Timer, a, v)
    ensures Systems.Shaped(n.system) && n.system.ticks == m.system.ticks + 1 && n.system.places == m.system.places
    ensures OthersMoveOn(m, n, {Spec.NORMAL_WAIT}) && (Current(m) != 0 ==> Runs.CanRun(Process(n, Current(m))))
    ensures m.system.sched.ready != [] ==> Current(n) == m.system.sched.ready[0]
    ensures n.mem == m.mem && n.files == m.files && n.system.ring == m.system.ring
  {
    var s := m.system.sched;
    OthersAfter(m, n, Timer, a, v, pages, {Spec.NORMAL_WAIT});
    Systems.StepEvent(m.system, a);
    if s.current != 0 { Runs.TickSlot(s, s.current); }
    if s.ready != [] {
      Runs.TickSwitches(s);
      Runs.Advance(s, Runs.Tick, 0);
    }
  }

  /** A key: a scan code with a character appends it to the waiting keys, unless 499 wait already, and whoever waits
      for a key can run. */
  lemma KeyMeans(m: Moment, n: Moment, code: Byte, a: Systems.Act, v: Volume, pages: nat)
    requires Sound(m, pages) && Stepped(m, n, Key(code), a, v)
    ensures Systems.Shaped(n.system) && n.flags == NextFlags(m.flags, code)
    ensures n.mem == m.mem && n.files == m.files && n.system.ticks == m.system.ticks && Current(n) == Current(m)
    ensures var c, keys := Decoded(m.flags, code), Keys(m.system.ring);
      if 0 < c < 128 then
        OthersMoveOn(m, n, {Spec.KEYBOARD_WAIT}) && Keys(n.system.ring) == if |keys| == 499 then keys else keys + [c]
      else n.system == m.system
  {
    var c := Decoded(m.flags, code);
    if 0 < c < 128 {
      OthersAfter(m, n, Key(code), a, v, pages, {Spec.KEYBOARD_WAIT});
      PushAppends(m.system.ring, c);
    }
  }

  /** Exit, or a fault of user mode: the process is killed and does not run any more, and whoever waits for an exit
      can run. */
  lemma ExitMeans(m: Moment, n: Moment, t: Trap, a: Systems.Act, v: Volume, pages: nat)
    requires Sound(m, pages) && Stepped(m, n, t, a, v) && (t.ExitCall? || t.Fault?)
    ensures Systems.Shaped(n.system) && Process(n, Current(m)).state == Killed && Current(n) != Current(m)
    ensures Current(m) in n.system.sched.kill && OthersMoveOn(m, n, {Spec.INIT_WAIT})
    ensures n.mem == m.mem && n.files == m.files && n.system.ticks == m.system.ticks
  {
    ExitSteps(m, n, t, a, v);
    ExitKills(m.system.sched);
    OthersAfter(m, n, t, a, v, pages, {Spec.INIT_WAIT});
  }

  lemma ExitSteps(m: Moment, n: Moment, t: Trap, a: Systems.Act, v: Volume)
    requires Stepped(m, n, t, a, v) && (t.ExitCall? || t.Fault?)
    ensures Systems.Shaped(m.system) && Current(m) != 0 && a == Systems.CallExit && n.mem == m.mem && n.files == m.files
    ensures n.system == m.system.(sched := Spec.Exit(m.system.sched))
  {
    Acts(m, n, t, a, v);
    Done(m, n, t, a, v);
    CallLeads(m.system, m.flags, t, a, n.system);
  }

  /** Exit of the current process, for the scheduler. */
  lemma ExitKills(s: Spec.Sched)
    requires Spec.Inv(s) && s.current != 0
    ensures var t := Spec.Exit(s);
      && t.current < PROCESSES && t.procs[s.current].state == Killed && t.current != s.current && s.current in t.kill
  {
    Runs.CurrentSlot(s, Runs.ExitCall);
    Runs.StepKeeps(s, Runs.ExitCall);
    assert Spec.RunningOk(Spec.Exit(s), s.current) && Spec.Listed(Spec.Exit(s), s.current);
  }

  /** SysSleep, as it is called: for any time at all the process sleeps, waiting for ticks; for none it goes on. */
  lemma SleepMeans(m: Moment, n: Moment, ticks: nat, a: Systems.Act, v: Volume, pages: nat)
    requires Sound(m, pages) && Stepped(m, n, SleepCall(ticks), a, v)
    ensures Systems.Shaped(n.system) && n.mem == m.mem && n.files == m.files && n.system.ticks == m.system.ticks
    ensures ticks == 0 ==> n.system == m.system
    ensures ticks > 0 ==>
      var p := Process(n, Current(m));
      p.state == Sleeping && p.waitId == Spec.NORMAL_WAIT && Current(n) != Current(m) && OthersMoveOn(m, n, {})
  {
    Acts(m, n, SleepCall(ticks), a, v);
    Done(m, n, SleepCall(ticks), a, v);
    CallLeads(m.system, m.flags, SleepCall(ticks), a, n.system);
    var s := m.system.sched;
    if ticks > 0 {
      OthersAfter(m, n, SleepCall(ticks), a, v, pages, {});
      Systems.StepEvent(m.system, a);
      Runs.CurrentSlot(s, Runs.SleepCall(Spec.NORMAL_WAIT));
      Runs.StepKeeps(s, Runs.SleepCall(Spec.NORMAL_WAIT));
      assert Spec.RunningOk(n.system.sched, s.current);
    } else {
      assert n.system.places == m.system.places;
    }
  }

  function PlaceIn(h: History, j: nat, i: nat): Systems.Place { Systems.PlaceAt(SystemsOf(h), j, i) }

  /** The process that is current at step `k` is back in user mode after step `m`, and not before. */
  ghost predicate Returns(h: History, k: nat, m: nat)
    requires k < |h.moments|
  {
    var i := Current(h.moments[k]);
    PlaceIn(h, m, i) == Systems.User && forall j: nat :: k < j < m ==> PlaceIn(h, j, i) != Systems.User
  }

  /** And as it returns: a process that calls SysSleep in step `k` and is back in user mode after step `m`, and not
      before, slept for at least so many ticks; and it did not go back to sleep at any step of its own at which
      they had passed. */
  lemma SleepsForTicks(h: History, v: Volume, pages: nat, k: nat, m: nat, ticks: nat)
    requires IsHistory(h, v, pages) && k < m <= |h.traps| && h.traps[k] == SleepCall(ticks) && Returns(h, k, m)
    ensures h.moments[m].system.ticks >= h.moments[k].system.ticks + ticks
    ensures forall j: nat :: k < j < m - 1 && Current(h.moments[j]) == Current(h.moments[k]) ==>
      h.moments[j].system.ticks < h.moments[k].system.ticks + ticks
  {
    var states, i := SystemsOf(h), Current(h.moments[k]);
    HistoryIsRun(h, v, pages);
    assert StepAt(h, v, k) && SoundAt(h, pages, k) && SoundAt(h, pages, m);
    assert h.acts[k] == Systems.CallSleep(ticks) && states[k] == h.moments[k].system;
    forall j: nat | k < j < m ensures Systems.PlaceAt(states, j, i) != Systems.User {
      assert PlaceIn(h, j, i) != Systems.User;
    }
    Systems.ReturnTicks(states, h.acts, k, m, i, ticks);
    forall j: nat | k < j < m - 1 && Current(h.moments[j]) == i
      ensures h.moments[j].system.ticks < h.moments[k].system.ticks + ticks
    {
      Systems.NoOversleep(states, h.acts, k, j, i, ticks);
    }
  }

  /** SysRead of a key: the oldest waiting key goes to the address; with none waiting the process sleeps. */
  lemma KeyCallMeans(m: Moment, n: Moment, address: Word, a: Systems.Act, v: Volume, pages: nat)
    requires Sound(m, pages) && Stepped(m, n, KeyCall(address), a, v)
    ensures Systems.Shaped(n.system) && n.files == m.files && n.system.ticks == m.system.ticks
    ensures Keys(m.system.ring) != [] ==>
      && Keys(m.system.ring)[0..1] + Keys(n.system.ring) == Keys(m.system.ring)
      && DoesStore(m, n, address, Keys(m.system.ring)[0..1])
      && n.system.sched == m.system.sched && n.system.places == m.system.places
    ensures Keys(m.system.ring) == [] ==>
      && n.mem == m.mem && n.system.ring == m.system.ring
      && n.system.places[Current(m)] == Systems.InRead(m.system.ring.front, address)
      && var p := Process(n, Current(m));
         p.state == Sleeping && p.waitId == Spec.KEYBOARD_WAIT && Current(n) != Current(m)
  {
    var s, ring := m.system.sched, m.system.ring;
    PopRemoves(ring);
    KeySteps(m, n, address, a, v);
    if Keys(ring) == [] {
      Systems.StepEvent(m.system, a);
      Runs.CurrentSlot(s, Runs.SleepCall(Spec.KEYBOARD_WAIT));
      Runs.StepKeeps(s, Runs.SleepCall(Spec.KEYBOARD_WAIT));
      assert Spec.RunningOk(n.system.sched, s.current);
    } else {
      assert Keys(ring)[0..1] == [ring.buffer[ring.front]];
      assert n.system.places == m.system.places;
    }
  }

  lemma KeySteps(m: Moment, n: Moment, address: Word, a: Systems.Act, v: Volume)
    requires Stepped(m, n, KeyCall(address), a, v)
    ensures Systems.Shaped(m.system) && Current(m) != 0 && DoesReadKey(m, n, address)
    ensures a == Systems.CallRead(address) && Systems.Enabled(m.system, a)
      && n.system == Systems.ReadKey(m.system, address)
  {
    Acts(m, n, KeyCall(address), a, v);
    Done(m, n, KeyCall(address), a, v);
    CallLeads(m.system, m.flags, KeyCall(address), a, n.system);
  }

  /** And as it returns: one key is delivered and goes to the address, the one at the place that was the front of
      the buffer at the call; nothing else is stored. */
  lemma KeyReturns(h: History, v: Volume, pages: nat, k: nat, m: nat, address: Word) returns (c: Byte)
    requires IsHistory(h, v, pages) && k < m <= |h.traps| && h.traps[k] == KeyCall(address) && Returns(h, k, m)
    ensures var before, behind := h.moments[m - 1], h.moments[m];
      && Systems.Shaped(h.moments[k].system) && Systems.Shaped(before.system)
      && Current(before) == Current(h.moments[k])
      && c == before.system.ring.buffer[h.moments[k].system.ring.front]
      && behind.system.delivered == before.system.delivered + [c] && DoesStore(before, behind, address, [c])
  {
    var before, behind, front := h.moments[m - 1], h.moments[m], h.moments[k].system.ring.front;
    CallReturns(h, v, pages, k, m);
    c := before.system.ring.buffer[front];
    assert StepAt(h, v, m - 1) && SoundAt(h, pages, m);
    if m == k + 1 {
      KeySteps(before, behind, address, h.acts[k], v);
      assert PlaceIn(h, m, Current(before)) == Systems.User;
    } else {
      ResumedKey(before, behind, front, address, h.acts[m - 1], v);
    }
  }

  /** A reader that goes on takes the key at that place. */
  lemma ResumedKey(m: Moment, n: Moment, at: Systems.RingIndex, address: Word, a: Systems.Act, v: Volume)
    requires Systems.Shaped(m.system) && Stepped(m, n, Resume, a, v)
    requires m.system.places[Current(m)] == Systems.InRead(at, address)
    ensures n.system == Systems.TakeKey(m.system, at) && DoesStore(m, n, address, [m.system.ring.buffer[at]])
  {
  }

  /** The current process calls Wait, or goes on in it. */
  predicate Asks(m: Moment, t: Trap, pid: int) {
    t == WaitCall(pid)
    || (t == Resume && Current(m) < |m.system.places| && m.system.places[Current(m)] == Systems.InWait(pid))
  }

  /** Wait for a killed process: it is gone, with its pages and files, and the caller goes on. */
  lemma WaitMeans(m: Moment, n: Moment, t: Trap, pid: int, a: Systems.Act, v: Volume, pages: nat, x: nat)
    requires Sound(m, pages) && Stepped(m, n, t, a, v) && Asks(m, t, pid)
    requires x < PROCESSES && Process(m, x).state == Killed && Process(m, x).pid == pid
    ensures Systems.Shaped(n.system) && Process(n, x) == Spec.ZeroPcb() && x !in n.system.sched.kill
    ensures Released(m.mem, n.mem, x) && FileSpec.CountsExact(m.files) && n.files == FileSpec.CloseAll(m.files, x)
    ensures Current(n) == Current(m) && n.system.places[Current(m)] == Systems.User
      && n.system.ticks == m.system.ticks
    ensures forall j: nat :: j < PROCESSES && j != x ==> Process(n, j) == Process(m, j)
  {
    KilledIsFound(m.system.sched, pid, x);
    WaitSteps(m, n, t, pid, a, v);
  }

  /** With nobody killed the caller sleeps until an exit. */
  lemma WaitSleeps(m: Moment, n: Moment, t: Trap, pid: int, a: Systems.Act, v: Volume, pages: nat)
    requires Sound(m, pages) && Stepped(m, n, t, a, v) && Asks(m, t, pid) && m.system.sched.kill == []
    ensures Systems.Shaped(n.system) && n.mem == m.mem && n.files == m.files
    ensures n.system.places[Current(m)] == Systems.InWait(pid) && n.system.ticks == m.system.ticks
    ensures Process(n, Current(m)).state == Sleeping && Process(n, Current(m)).waitId == Spec.INIT_WAIT
      && Current(n) != Current(m)
  {
    var s := m.system.sched;
    WaitSteps(m, n, t, pid, a, v);
    Runs.CurrentSlot(s, Runs.WaitCall(pid));
    Runs.StepKeeps(s, Runs.WaitCall(pid));
    assert Spec.RunningOk(n.system.sched, s.current);
  }

  /** With only others killed nothing happens at all, and it stays in Wait. */
  lemma WaitStays(m: Moment, n: Moment, t: Trap, pid: int, a: Systems.Act, v: Volume, pages: nat)
    requires Sound(m, pages) && Stepped(m, n, t, a, v) && Asks(m, t, pid) && m.system.sched.kill != []
    requires forall k :: 0 <= k < |m.system.sched.kill| ==> Process(m, m.system.sched.kill[k]).pid != pid
    ensures Systems.Shaped(n.system) && n.mem == m.mem && n.files == m.files && n.system.sched == m.system.sched
    ensures n.system.places[Current(m)] == Systems.InWait(pid) && n.system.ticks == m.system.ticks
  {
    var s := m.system.sched;
    WaitSteps(m, n, t, pid, a, v);
    NobodyFound(s, pid);
  }

  lemma NobodyFound(s: Spec.Sched, pid: int)
    requires Spec.WellFormed(s) && forall k :: 0 <= k < |s.kill| ==> s.procs[s.kill[k]].pid != pid
    ensures !Spec.Reaps(s, pid)
  {
  }

  lemma WaitSteps(m: Moment, n: Moment, t: Trap, pid: int, a: Systems.Act, v: Volume)
    requires Stepped(m, n, t, a, v) && Asks(m, t, pid)
    ensures Systems.Shaped(m.system) && Current(m) != 0 && n.system == Systems.WaitLoop(m.system, pid)
      && DoesWait(m, n, pid)
  {
    Acts(m, n, t, a, v);
    Done(m, n, t, a, v);
    CallLeads(m.system, m.flags, t, a, n.system);
  }

  /** Wait finds the killed process with the pid, and it is the only one. */
  lemma KilledIsFound(s: Spec.Sched, pid: int, x: nat)
    requires Spec.Inv(s) && s.current != 0 && x < PROCESSES && s.procs[x].state == Killed && s.procs[x].pid == pid
    ensures Spec.Reaps(s, pid) && s.kill[Spec.PidPosition(s.procs, s.kill, pid)] == x
    ensures x !in Spec.WaitRound(s, pid).kill
  {
    assert Spec.RunningOk(s, 0) && Spec.Listed(s, x);
    var k := Spec.PidPosition(s.procs, s.kill, pid);
    Spec.WaitRoundKeeps(s, pid);
    if k < |s.kill| {
      var y := s.kill[k];
      assert (x < y ==> Spec.PidsDiffer(s, x, y)) && (y < x ==> Spec.PidsDiffer(s, y, x));
      assert Spec.Listed(Spec.WaitRound(s, pid), x);
    }
  }

  /** What Wait cleans up was killed, and had the pid. */
  lemma WaitFinds(m: Moment, n: Moment, t: Trap, pid: int, a: Systems.Act, v: Volume, pages: nat) returns (x: nat)
    requires Sound(m, pages) && Stepped(m, n, t, a, v) && Asks(m, t, pid)
    requires Systems.Shaped(n.system) && n.system.places[Current(m)] == Systems.User
    ensures x < PROCESSES && Process(m, x).state == Killed && Process(m, x).pid == pid
  {
    var s := m.system.sched;
    WaitSteps(m, n, t, pid, a, v);
    Spec.WaitRoundKeeps(s, pid);
    x := s.kill[Spec.PidPosition(s.procs, s.kill, pid)];
  }

  /** Wait, as it returns: the process that calls it in step `k` and is back in user mode after step `m`, and not
      before, came back by a step of its own at which a killed process had the pid; that one is gone then, with
      exactly its pages and its files. */
  lemma WaitReturns(h: History, v: Volume, pages: nat, k: nat, m: nat, pid: int) returns (x: nat)
    requires IsHistory(h, v, pages) && k < m <= |h.traps| && h.traps[k] == WaitCall(pid) && Returns(h, k, m)
    ensures var before, behind := h.moments[m - 1], h.moments[m];
      && Systems.Shaped(before.system) && Systems.Shaped(behind.system) && Current(before) == Current(h.moments[k])
      && x < PROCESSES && Process(before, x).state == Killed && Process(before, x).pid == pid
      && Process(behind, x) == Spec.ZeroPcb() && Released(before.mem, behind.mem, x)
      && FileSpec.CountsExact(before.files) && behind.files == FileSpec.CloseAll(before.files, x)
  {
    var before, t, a := h.moments[m - 1], h.traps[m - 1], h.acts[m - 1];
    CallReturns(h, v, pages, k, m);
    assert StepAt(h, v, m - 1) && SoundAt(h, pages, m - 1) && SoundAt(h, pages, m);
    x := WaitFinds(before, h.moments[m], t, pid, a, v, pages);
    WaitMeans(before, h.moments[m], t, pid, a, v, pages, x);
  }

  /** Where such a call leaves the process if it does not come back at once. */
  function Parked(m: Moment, t: Trap): Systems.Place
    requires Systems.Shaped(m.system) && (t.WaitCall? || t.KeyCall?)
  {
    if t.WaitCall? then Systems.InWait(t.pid) else Systems.InRead(m.system.ring.front, t.address)
  }

  lemma CallParks(m: Moment, n: Moment, t: Trap, a: Systems.Act, v: Volume)
    requires Stepped(m, n, t, a, v) && (t.WaitCall? || t.KeyCall?)
    ensures Systems.Shaped(m.system) && Systems.Shaped(n.system)
    ensures n.system.places[Current(m)] == Systems.User || n.system.places[Current(m)] == Parked(m, t)
  {
    Acts(m, n, t, a, v);
    CallLeads(m.system, m.flags, t, a, n.system);
  }

  /** A call of Wait, or of a read of a key, comes back at once or when the process goes on in that same call. */
  lemma CallReturns(h: History, v: Volume, pages: nat, k: nat, m: nat)
    requires IsHistory(h, v, pages) && k < m <= |h.traps| && Returns(h, k, m)
    requires h.traps[k].WaitCall? || h.traps[k].KeyCall?
    ensures var before, i := h.moments[m - 1], Current(h.moments[k]);
      && Systems.Shaped(h.moments[k].system) && Systems.Shaped(before.system) && Current(before) == i
      && (m > k + 1 ==> h.traps[m - 1] == Resume && before.system.places[i] == Parked(h.moments[k], h.traps[k]))
  {
    var states, i := SystemsOf(h), Current(h.moments[k]);
    assert StepAt(h, v, k) && SoundAt(h, pages, k);
    CallParks(h.moments[k], h.moments[k + 1], h.traps[k], h.acts[k], v);
    if m > k + 1 {
      assert PlaceIn(h, k + 1, i) != Systems.User;
      forall j: nat | k + 1 < j < m ensures Systems.PlaceAt(states, j, i) != Systems.User {
        assert PlaceIn(h, j, i) != Systems.User;
      }
      ShapedAt(h, v, pages, m);
      HistoryIsRun(h, v, pages);
      Systems.BackFromCall(states, h.acts, k + 1, m, i);
      ResumeIsTrap(h, v, pages, m - 1);
    }
  }

  lemma ShapedAt(h: History, v: Volume, pages: nat, m: nat)
    requires IsHistory(h, v, pages) && 0 < m <= |h.traps|
    ensures Systems.Shaped(h.moments[m - 1].system) && Systems.Shaped(h.moments[m].system)
  {
    assert SoundAt(h, pages, m - 1) && SoundAt(h, pages, m);
  }

  lemma ResumeIsTrap(h: History, v: Volume, pages: nat, j: nat)
    requires IsHistory(h, v, pages) && j < |h.traps| && h.acts[j] == Systems.Resume
    ensures h.traps[j] == Resume
  {
    assert StepAt(h, v, j);
    Acts(h.moments[j], h.moments[j + 1], h.traps[j], h.acts[j], v);
  }

  /** Fork: the child is in a slot that was empty, with the next pid and the parent's files, and last in line; it
      sees the memory that the parent sees. The parent goes on. */
  lemma ForkMeans(m: Moment, n: Moment, a: Systems.Act, v: Volume, pages: nat, f: nat)
    requires Sound(m, pages) && Sound(n, pages) && Stepped(m, n, ForkCall, a, v)
    requires f == Spec.FreeSlot(m.system.sched.procs) < PROCESSES && |m.mem.free| >= 7
    ensures Process(m, f).state == Unused && Process(n, f).state == Ready
      && Process(n, f).pid == m.system.sched.nextPid && Process(n, f).file == Process(m, Current(m)).file
    ensures n.system.sched.ready == m.system.sched.ready + [f]
      && n.system.sched.nextPid == m.system.sched.nextPid + 1
    ensures Current(n) == Current(m) && forall j: nat :: j < PROCESSES && j != f ==> Process(n, j) == Process(m, j)
    ensures SameView(m.mem.ram, CurrentMap(m), n.mem.ram, Process(n, f).pageMap)
  {
    var o := ForkSteps(m, n, a, v);
    ForkFills(m.system.sched, o, f);
    CurrentPage(m, pages);
    assert SlotOwns(n.mem.ram, n.mem.own, n.system.sched.procs, f);
    ChildSees(m.mem, n.mem, pages, CurrentMap(m), Process(n, f).pageMap);
  }

  lemma ForkSteps(m: Moment, n: Moment, a: Systems.Act, v: Volume) returns (o: Spec.ForkOutcome)
    requires Stepped(m, n, ForkCall, a, v)
    ensures Systems.Shaped(m.system) && Current(m) != 0 && n.system == Systems.Forked(m.system, o)
      && ForkDone(m.system.sched, m.mem, n.mem, m.files, n.files, o)
  {
    o := a.outcome;
    Acts(m, n, ForkCall, a, v);
    Done(m, n, ForkCall, a, v);
    FileCallLeads(m.system, m.flags, ForkCall, a, n.system);
  }

  lemma ForkFills(s: Spec.Sched, o: Spec.ForkOutcome, f: nat)
    requires Spec.WellFormed(s) && o.Forked? && f == Spec.FreeSlot(s.procs) < PROCESSES
    ensures var t := Spec.Fork(s, o);
      && t.procs[f] == Spec.Pcb(s.nextPid, 0, Ready, o.pageMap, o.stack, s.procs[s.current].file)
      && s.procs[f].state == Unused && t.ready == s.ready + [f] && t.nextPid == s.nextPid + 1 && t.current == s.current
      && forall j: nat :: j < PROCESSES && j != f ==> t.procs[j] == s.procs[j]
  {
  }

  /** The scheduler goes on with the same processes; only the files of the current one are what the tables say. */
  ghost predicate OnlyFiles(m: Moment, n: Moment)
    requires Systems.Shaped(m.system)
  {
    && Current(m) < |n.files.grid|
    && n.system == m.system.(sched := Spec.WithFile(m.system.sched, Current(m), n.files.grid[Current(m)]))
  }

  /** Open: the first empty slot leads to the beginning of the file of this name. */
  lemma OpenMeans(m: Moment, n: Moment, name: seq<Byte>, a: Systems.Act, v: Volume, pages: nat) returns (r: int)
    requires Sound(m, pages) && Stepped(m, n, OpenCall(name), a, v)
    ensures VolumeOk(v) && OnlyFiles(m, n) && SameUse(m.mem, n.mem)
    ensures (n.files, r) == FileSpec.Open(m.files, Current(m), Lookup(v, name))
    ensures r >= 0 ==> OpenedEntry(m.files, n.files, Current(m), r, v, name)
  {
    OpenSteps(m, n, name, a, v);
    r := FileSpec.Open(m.files, Current(m), Lookup(v, name)).1;
    if r >= 0 { OpenFindsEntry(m.files, Current(m), v, name); }
  }

  lemma OpenSteps(m: Moment, n: Moment, name: seq<Byte>, a: Systems.Act, v: Volume)
    requires Stepped(m, n, OpenCall(name), a, v)
    ensures Systems.Shaped(m.system) && DoesOpen(m, n, name, v, a)
    ensures n.system == Systems.WithFiles(m.system, n.files.grid[Current(m)])
  {
    Acts(m, n, OpenCall(name), a, v);
    Done(m, n, OpenCall(name), a, v);
    FileCallLeads(m.system, m.flags, OpenCall(name), a, n.system);
  }

  /** Close: the slot is empty, and all others are as before. */
  lemma CloseMeans(m: Moment, n: Moment, fd: nat, a: Systems.Act, v: Volume, pages: nat)
    requires Sound(m, pages) && Stepped(m, n, CloseCall(fd), a, v)
    ensures OnlyFiles(m, n) && n.mem == m.mem && Current(m) < |m.files.grid| && fd < |m.files.grid[Current(m)]|
    ensures n.files.grid == m.files.grid[Current(m) := m.files.grid[Current(m)][fd := None]]
  {
    Acts(m, n, CloseCall(fd), a, v);
    Done(m, n, CloseCall(fd), a, v);
    FileCallLeads(m.system, m.flags, CloseCall(fd), a, n.system);
    var row := m.files.grid[Current(m)];
    if row[fd] == None {
      assert row[fd := None] == row;
      assert m.files.grid[Current(m) := row] == m.files.grid;
    }
  }

  /** Read: user mode sees the bytes of the file, from the position of the descriptor on, at the address, and the
      position is that much further on. */
  lemma ReadMeans(m: Moment, n: Moment, fd: nat, address: Word, size: nat, a: Systems.Act, v: Volume, pages: nat,
      chain: seq<nat>) returns (r: nat)
    requires Sound(m, pages) && Sound(n, pages) && Stepped(m, n, ReadCall(fd, address, size), a, v)
    requires LiesIn(m.files, Current(m), fd, v, chain) && PositionOf(m.files, Current(m), fd) + size < 0x1_0000_0000
    requires FatData.WholeClusters(v, PositionOf(m.files, Current(m), fd))
    ensures PositionOf(m.files, Current(m), fd) <= SizeOf(m.files, Current(m), fd)
    ensures var pos, rest := PositionOf(m.files, Current(m), fd), SizeOf(m.files, Current(m), fd)
        - PositionOf(m.files, Current(m), fd);
      && r == (if size <= rest then size else rest)
      && LiesIn(n.files, Current(m), fd, v, chain) && PositionOf(n.files, Current(m), fd) == pos + r
      && SeesBytes(n.mem.ram, CurrentMap(m), address, FatData.ChainBytes(v, chain)[pos..pos + r])
    ensures n.system == m.system
  {
    var i := Current(m);
    var r', stale, data := ReadSteps(m, n, fd, address, size, a, v);
    r := r';
    FileSpec.ReadMoves(m.files, i, fd, size);
    AlignedIsFile(m.files, i, fd, r, v, stale, data, chain);
    StoredByCurrent(m, n, pages, address, data);
  }

  lemma ReadSteps(m: Moment, n: Moment, fd: nat, address: Word, size: nat, a: Systems.Act, v: Volume)
      returns (r: int, stale: seq<Byte>, data: seq<Byte>)
    requires Stepped(m, n, ReadCall(fd, address, size), a, v)
    ensures Systems.Shaped(m.system) && Current(m) != 0 && n.system == m.system
      && ReadDone(m.system.sched, m.mem, n.mem, m.files, n.files, fd, address, size, v, r, stale, data)
  {
    Acts(m, n, ReadCall(fd, address, size), a, v);
    Done(m, n, ReadCall(fd, address, size), a, v);
    FileCallLeads(m.system, m.flags, ReadCall(fd, address, size), a, n.system);
    r, stale, data :| ReadDone(m.system.sched, m.mem, n.mem, m.files, n.files, fd, address, size, v, r, stale, data);
  }

  /** A read at the start of a cluster delivers the bytes of the file. */
  lemma AlignedIsFile(g: FileSpec.Files, p: nat, fd: nat, r: nat, v: Volume, stale: seq<Byte>, data: seq<Byte>,
      chain: seq<nat>)
    requires BytesRead(g, p, fd, r, v, stale, data) && LiesIn(g, p, fd, v, chain)
    requires PositionOf(g, p, fd) + r <= SizeOf(g, p, fd) && FatData.WholeClusters(v, PositionOf(g, p, fd))
    ensures data == FatData.ChainBytes(v, chain)[PositionOf(g, p, fd)..PositionOf(g, p, fd) + r]
  {
    var pos := PositionOf(g, p, fd);
    if r > 0 { FatData.AlignedRequest(v, chain[0], pos, r); }
    FatData.RequestBytes(v, chain[0], pos, r);
    ReadIsFile(g, p, fd, r, v, stale, data, chain);
  }

  /** Exec of a file that can be opened: user mode sees the file at USER_BASE, and zeros behind it. */
  lemma ExecMeans(m: Moment, n: Moment, name: seq<Byte>, a: Systems.Act, v: Volume, pages: nat, g: FileSpec.Files,
      fd: int, chain: seq<nat>)
    requires Sound(m, pages) && Sound(n, pages) && Stepped(m, n, ExecCall(name), a, v) && VolumeOk(v)
    requires FileSpec.Open(m.files, Current(m), Lookup(v, name)) == (g, fd) && fd >= 0
    requires LiesIn(g, Current(m), fd, v, chain)
    ensures n.system == m.system && n.files.grid == m.files.grid
    ensures var size := SizeOf(g, Current(m), fd);
      size <= PAGE_SIZE && SeesBytes(n.mem.ram, CurrentMap(m), USER_BASE,
        FatData.ChainBytes(v, chain)[..size] + seq(PAGE_SIZE - size, _ => 0))
  {
    var stale, image := ExecSteps(m, n, name, a, v);
    ExecLeaves(m, n, name, v, pages, g, fd, chain, stale, image);
  }

  lemma ExecLeaves(m: Moment, n: Moment, name: seq<Byte>, v: Volume, pages: nat, g: FileSpec.Files, fd: int,
      chain: seq<nat>, stale: seq<Byte>, image: seq<Byte>)
    requires Sound(m, pages) && Sound(n, pages) && Current(m) != 0
    requires ExecDone(m.system.sched, m.mem, n.mem, m.files, n.files, name, v, true, stale, image)
    requires FileSpec.Open(m.files, Current(m), Lookup(v, name)) == (g, fd) && LiesIn(g, Current(m), fd, v, chain)
    ensures n.files.grid == m.files.grid && SizeOf(g, Current(m), fd) <= PAGE_SIZE
    ensures SeesBytes(n.mem.ram, CurrentMap(m), USER_BASE, FatData.ChainBytes(v, chain)[..SizeOf(g, Current(m), fd)]
      + seq(PAGE_SIZE - SizeOf(g, Current(m), fd), _ => 0))
  {
    ImageIsFile(image, g, Current(m), fd, v, stale, chain);
    StoredByCurrent(m, n, pages, USER_BASE, image);
  }

  /** What is stored in the user page of the current process is what its user mode sees there. */
  lemma StoredByCurrent(m: Moment, n: Moment, pages: nat, address: Word, data: seq<Byte>)
    requires Sound(m, pages) && Sound(n, pages) && Current(m) != 0
    requires Stored(m.mem, n.mem, CurrentMap(m), address, data)
    ensures SeesBytes(n.mem.ram, CurrentMap(m), address, data)
  {
    CurrentPage(m, pages);
    SeesStored(m.mem, n.mem, pages, CurrentMap(m), address, data);
  }

  /** Exec of a file that cannot: it is an exit. */
  lemma FailedExecMeans(m: Moment, n: Moment, name: seq<Byte>, a: Systems.Act, v: Volume, pages: nat)
    requires Sound(m, pages) && Stepped(m, n, ExecCall(name), a, v) && VolumeOk(v)
    requires FileSpec.Open(m.files, Current(m), Lookup(v, name)).1 < 0
    ensures Systems.Shaped(n.system) && Process(n, Current(m)).state == Killed && Current(n) != Current(m)
    ensures SameUse(m.mem, n.mem) && n.files == m.files
  {
    var s := m.system.sched;
    var stale, image := ExecSteps(m, n, name, a, v);
    ExitKills(s);
  }

  lemma ExecSteps(m: Moment, n: Moment, name: seq<Byte>, a: Systems.Act, v: Volume)
      returns (stale: seq<Byte>, image: seq<Byte>)
    requires Stepped(m, n, ExecCall(name), a, v) && Systems.Shaped(m.system)
    ensures var ok := a == Systems.Quiet;
      && (ok || a == Systems.CallExit) && Systems.Enabled(m.system, a)
      && n.system == (if ok then m.system else Systems.Exited(m.system)) && Current(m) != 0
      && ExecDone(m.system.sched, m.mem, n.mem, m.files, n.files, name, v, ok, stale, image)
  {
    Acts(m, n, ExecCall(name), a, v);
    Done(m, n, ExecCall(name), a, v);
    FileCallLeads(m.system, m.flags, ExecCall(name), a, n.system);
    stale, image := [], [];
    if a == Systems.Quiet {
      stale, image :| ExecDone(m.system.sched, m.mem, n.mem, m.files, n.files, name, v, true, stale, image);
    }
  }

  /** A store of user mode: it sees what it stored, and everything else as before, and nothing else happens. */
  lemma StoreMeans(m: Moment, n: Moment, address: Word, data: seq<Byte>, a: Systems.Act, v: Volume, pages: nat, k: nat,
      c: Byte)
    requires Sound(m, pages) && Sound(n, pages) && Stepped(m, n, UserStore(address, data), a, v) && k < PAGE_SIZE
    ensures n.system == m.system && n.files == m.files
    ensures Sees(n.mem.ram, CurrentMap(m), USER_BASE + k, c) <==>
      if address <= USER_BASE + k < address + |data| then c == data[USER_BASE + k - address]
      else Sees(m.mem.ram, CurrentMap(m), USER_BASE + k, c)
  {
    StoreSteps(m, n, address, data, a, v);
    CurrentPage(m, pages);
    StoredIsSeen(m.mem, n.mem, pages, CurrentMap(m), address, data, k, c);
  }

  lemma StoreSteps(m: Moment, n: Moment, address: Word, data: seq<Byte>, a: Systems.Act, v: Volume)
    requires Stepped(m, n, UserStore(address, data), a, v)
    ensures Systems.Shaped(m.system) && Current(m) != 0 && n.system == m.system && DoesStore(m, n, address, data)
  {
    Acts(m, n, UserStore(address, data), a, v);
    Done(m, n, UserStore(address, data), a, v);
    FileCallLeads(m.system, m.flags, UserStore(address, data), a, n.system);
  }
}
