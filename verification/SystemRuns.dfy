/** Runs of the system with processes parked inside the kernel: the sleep loop of SysSleep, blocking
    reads from the key buffer, and Wait. A process that is switched to resumes in the kernel, with
    interrupts off, before anything else can happen. */
module SystemRuns {
  import opened Bits
  import opened CStrings
  import opened ProcessLists
  import opened SchedulerSpec
  import Runs = SchedulerRuns
  import opened Keyboard
  import opened Wrappers

  type RingIndex = i: nat | i < BUFFER_SIZE

  /** Where a process is: in user mode, or parked in one of the three calls that sleep. */
  datatype Place =
    | User
    | InSleep(start: nat, n: nat, rounds: nat)   // SysSleep(n) since `start`, in its `rounds`-th Sleep
    | InRead(at: RingIndex, address: Word)        // ReadKeyBuffer, with the front it looked at, and where the key goes
    | InWait(pid: int)

  /** `accepted` are all keys ever put into the buffer, `delivered` all keys ever read. */
  datatype System = System(sched: Sched, ticks: nat, places: seq<Place>, ring: Ring, accepted: seq<Byte>,
      delivered: seq<Byte>)

  /** Quiet is an interrupt or a call that none of this notices. */
  datatype Act =
    | TimerTick | KeyPress(ch: Byte) | Quiet
    | CallSleep(n: nat) | CallRead(address: Word) | CallWait(pid: int)
    | CallExit | CallFork(outcome: ForkOutcome) | CallFiles(row: seq<Option<nat>>)
    | Resume

  predicate Shaped(s: System) { WellFormed(s.sched) && |s.places| == PROCESSES && RingOk(s.ring) }

  /** A parked process resumes first; the idle process makes no calls. */
  predicate Enabled(s: System, a: Act)
    requires Shaped(s)
  {
    && (a.Resume? <==> s.places[s.sched.current] != User)
    && (a.TimerTick? || a.KeyPress? || a.Quiet? || s.sched.current != 0)
  }

  function At(s: System, p: Place): (t: System)
    requires Shaped(s)
    ensures Shaped(t)
  {
    s.(places := s.places[s.sched.current := p])
  }

  /** The loop of SysSleep, at its test. */
  function SleepLoop(s: System, start: nat, n: nat, rounds: nat): (t: System)
    requires Shaped(s)
    ensures Shaped(t)
  {
    if s.ticks - start < n then At(s, InSleep(start, n, rounds + 1)).(sched := Sleep(s.sched, NORMAL_WAIT))
      else At(s, User)
  }

  /** The end of ReadKeyBuffer: the key at the front it looked at before it may have slept. */
  function TakeKey(s: System, at: RingIndex): (t: System)
    requires Shaped(s)
    ensures Shaped(t)
  {
    At(s, User).(ring := Pop(s.ring), delivered := s.delivered + [s.ring.buffer[at]])
  }

  /** The loop of Wait. */
  function WaitLoop(s: System, pid: int): (t: System)
    requires Shaped(s)
    ensures Shaped(t)
  {
    At(s, if Reaps(s.sched, pid) then User else InWait(pid)).(sched := WaitRound(s.sched, pid))
  }

  function Pushed(s: System, ch: Byte): (t: System)
    requires Shaped(s)
    ensures Shaped(t)
  {
    s.(ring := Push(s.ring, ch),
       accepted := if |Keys(s.ring)| == BUFFER_SIZE - 1 then s.accepted else s.accepted + [ch],
       sched := Wakeup(s.sched, KEYBOARD_WAIT))
  }

  function Ticked(s: System): (t: System)
    requires Shaped(s)
    ensures Shaped(t)
  {
    s.(ticks := s.ticks + 1, sched := Yield(Wakeup(s.sched, NORMAL_WAIT)))
  }

  function Forked(s: System, o: ForkOutcome): (t: System)
    requires Shaped(s)
    ensures Shaped(t)
  {
    s.(sched := Fork(s.sched, o))
  }

  /** ReadKeyBuffer up to its end, or up to the sleep on an empty buffer. */
  function ReadKey(s: System, address: Word): (t: System)
    requires Shaped(s)
    ensures Shaped(t)
  {
    if s.ring.front == s.ring.end then At(s, InRead(s.ring.front, address)).(sched := Sleep(s.sched, KEYBOARD_WAIT))
    else TakeKey(s, s.ring.front)
  }

  function Exited(s: System): (t: System)
    requires Shaped(s)
    ensures Shaped(t)
  {
    s.(sched := Exit(s.sched))
  }

  function WithFiles(s: System, row: seq<Option<nat>>): (t: System)
    requires Shaped(s)
    ensures Shaped(t)
  {
    s.(sched := WithFile(s.sched, s.sched.current, row))
  }

  function Next(s: System, a: Act): (t: System)
    requires Shaped(s)
    ensures Shaped(t)
  {
    match a
    case TimerTick => Ticked(s)
    case KeyPress(ch) => Pushed(s, ch)
    case Quiet => s
    case CallSleep(n) => SleepLoop(s, s.ticks, n, 0)
    case CallRead(address) => ReadKey(s, address)
    case CallWait(pid) => WaitLoop(s, pid)
    case CallExit => Exited(s)
    case CallFork(o) => Forked(s, o)
    case CallFiles(row) => WithFiles(s, row)
    case Resume =>
      match s.places[s.sched.current]
      case InSleep(start, n, rounds) => SleepLoop(s, start, n, rounds)
      case InRead(at, _) => TakeKey(s, at)
      case InWait(pid) => WaitLoop(s, pid)
      case User => s
  }

  /** `t` follows on `s` by this step. */
  predicate StepsTo(s: System, a: Act, t: System) { Shaped(s) && Enabled(s, a) && t == Next(s, a) }

  // ----- Runs -----

  predicate Moves(states: seq<System>, acts: seq<Act>, i: nat)
    requires i < |acts| < |states|
  {
    Shaped(states[i]) && Enabled(states[i], acts[i]) && states[i + 1] == Next(states[i], acts[i])
  }

  predicate IsRun(states: seq<System>, acts: seq<Act>) {
    |states| == |acts| + 1 && forall i: nat :: i < |acts| ==> Moves(states, acts, i)
  }

  // ----- SysSleep -----

  /** A parked process is asleep or can run. One in SysSleep sleeps on the tick, or was woken since its last test of the
      clock; it has
      called Sleep at most once more than ticks went by, and never more often than it asked for ticks. */
  predicate SleeperOk(place: Place, p: Pcb, ticks: nat) {
    (place != User ==> p.state == Sleeping || Runs.CanRun(p)) &&
    (place.InSleep? ==>
      && place.start <= ticks && 1 <= place.rounds <= place.n
      && if p.state == Sleeping then p.waitId == NORMAL_WAIT && place.rounds <= ticks - place.start + 1
         else Runs.CanRun(p) && place.rounds <= ticks - place.start)
  }

  predicate SleepOk(s: System, i: nat)
    requires Shaped(s) && i < PROCESSES
  {
    SleeperOk(s.places[i], s.sched.procs[i], s.ticks)
  }

  ghost predicate SleepInv(s: System) {
    Shaped(s) && Inv(s.sched) && s.places[0] == User && forall i: nat :: i < PROCESSES ==> SleepOk(s, i)
  }

  /** The scheduler event of a step. */
  function EventOf(s: System, a: Act): Runs.Event
    requires Shaped(s)
  {
    var nothing := Runs.FilesCall(s.sched.procs[s.sched.current].file);
    match a
    case TimerTick => Runs.Tick
    case KeyPress(_) => Runs.WakeupCall(KEYBOARD_WAIT)
    case Quiet => nothing
    case CallSleep(n) => if n > 0 then Runs.SleepCall(NORMAL_WAIT) else nothing
    case CallRead(_) => if s.ring.front == s.ring.end then Runs.SleepCall(KEYBOARD_WAIT) else nothing
    case CallWait(pid) => Runs.WaitCall(pid)
    case CallExit => Runs.ExitCall
    case CallFork(o) => Runs.ForkCall(o)
    case CallFiles(row) => Runs.FilesCall(row)
    case Resume =>
      match s.places[s.sched.current]
      case InSleep(start, n, _) => if s.ticks - start < n then Runs.SleepCall(NORMAL_WAIT) else nothing
      case InWait(pid) => Runs.WaitCall(pid)
      case _ => nothing
  }

  lemma StepEvent(s: System, a: Act)
    requires Shaped(s) && Enabled(s, a)
    ensures var t := Next(s, a);
      && t.sched == Runs.Step(s.sched, EventOf(s, a))
      && t.ticks == s.ticks + (if a.TimerTick? then 1 else 0)
      && forall i: nat :: i < PROCESSES && i != s.sched.current ==> t.places[i] == s.places[i]
    ensures s.places[0] == User ==> Runs.Enabled(s.sched, EventOf(s, a))
    ensures Runs.Wakes(EventOf(s, a), NORMAL_WAIT) <==> a.TimerTick?
  {
    StepSched(s, a);
    StepPlaces(s, a);
  }

  lemma StepPlaces(s: System, a: Act)
    requires Shaped(s) && Enabled(s, a)
    ensures Next(s, a).ticks == s.ticks + (if a.TimerTick? then 1 else 0)
    ensures forall i: nat :: i < PROCESSES && i != s.sched.current ==> Next(s, a).places[i] == s.places[i]
  {
  }

  lemma StepSched(s: System, a: Act)
    requires Shaped(s) && Enabled(s, a)
    ensures Next(s, a).sched == Runs.Step(s.sched, EventOf(s, a))
  {
    if a.Resume? {
      ResumeSched(s);
    } else if a.CallSleep? {
      SleepSched(s, s.ticks, a.n, 0);
    } else if a.TimerTick? {
      TickSched(s);
    } else if a.KeyPress? {
      KeySched(s, a.ch);
    } else if a.CallExit? {
      ExitSched(s);
    } else {
      CallSched(s, a);
    }
  }

  lemma TickSched(s: System)
    requires Shaped(s) && Enabled(s, TimerTick)
    ensures Next(s, TimerTick).sched == Runs.Step(s.sched, Runs.Tick)
  {
    assert Next(s, TimerTick).sched == Yield(Wakeup(s.sched, NORMAL_WAIT));
  }

  lemma KeySched(s: System, ch: Byte)
    requires Shaped(s) && Enabled(s, KeyPress(ch))
    ensures Next(s, KeyPress(ch)).sched == Runs.Step(s.sched, Runs.WakeupCall(KEYBOARD_WAIT))
  {
    assert Next(s, KeyPress(ch)).sched == Wakeup(s.sched, KEYBOARD_WAIT);
  }

  lemma ExitSched(s: System)
    requires Shaped(s) && Enabled(s, CallExit)
    ensures Next(s, CallExit).sched == Runs.Step(s.sched, Runs.ExitCall)
  {
    assert Next(s, CallExit).sched == Exit(s.sched);
  }

  lemma CallSched(s: System, a: Act)
    requires Shaped(s) && Enabled(s, a) && (a.Quiet? || a.CallRead? || a.CallWait? || a.CallFork? || a.CallFiles?)
    ensures Next(s, a).sched == Runs.Step(s.sched, EventOf(s, a))
  {
    var c := s.sched;
    match a
    case CallRead(_) => Runs.FilesStep(c, c.procs[c.current].file);
    case Quiet => Runs.FilesStep(c, c.procs[c.current].file);
    case CallFiles(row) => Runs.FilesStep(c, row);
    case _ =>
  }

  lemma ResumeSched(s: System)
    requires Shaped(s) && Enabled(s, Resume)
    ensures Next(s, Resume).sched == Runs.Step(s.sched, EventOf(s, Resume))
  {
    var place := s.places[s.sched.current];
    if place.InSleep? {
      SleepSched(s, place.start, place.n, place.rounds);
    } else if !place.InWait? {
      Runs.FilesStep(s.sched, s.sched.procs[s.sched.current].file);
    }
  }

  lemma SleepSched(s: System, start: nat, n: nat, rounds: nat)
    requires Shaped(s)
    ensures SleepLoop(s, start, n, rounds).sched == Runs.Step(s.sched,
      if s.ticks - start < n then Runs.SleepCall(NORMAL_WAIT) else Runs.FilesCall(s.sched.procs[s.sched.current].file))
  {
    Runs.FilesStep(s.sched, s.sched.procs[s.sched.current].file);
  }

  lemma SchedKept(s: System, a: Act)
    requires SleepInv(s) && Enabled(s, a)
    ensures Inv(Next(s, a).sched) && Next(s, a).places[0] == User
  {
    StepEvent(s, a);
    Runs.StepKeeps(s.sched, EventOf(s, a));
  }

  lemma OtherSleeper(s: System, a: Act, i: nat)
    requires SleepInv(s) && Enabled(s, a) && 1 <= i < PROCESSES && i != s.sched.current
    ensures SleepOk(Next(s, a), i)
  {
    StepEvent(s, a);
    assert SleepOk(s, i) && RunningOk(s.sched, i);
    Runs.OtherSlot(s.sched, EventOf(s, a), i);
    SleeperMoves(s.places[i], s.sched.procs[i], Next(s, a).sched.procs[i], s.ticks, EventOf(s, a), a.TimerTick?);
  }

  lemma SleeperMoves(place: Place, p: Pcb, q: Pcb, ticks: nat, e: Runs.Event, tick: bool)
    requires SleeperOk(place, p, ticks) && p.state != Running && Runs.OtherMoves(p, q, e)
      && (tick <==> Runs.Wakes(e, NORMAL_WAIT))
    ensures SleeperOk(place, q, if tick then ticks + 1 else ticks)
  {
  }

  lemma CurrentSleeper(s: System, a: Act)
    requires SleepInv(s) && Enabled(s, a) && s.sched.current != 0
    ensures SleepOk(Next(s, a), s.sched.current)
  {
    var i := s.sched.current;
    StepEvent(s, a);
    assert SleepOk(s, i) && RunningOk(s.sched, i);
    Runs.CurrentSlot(s.sched, EventOf(s, a));
  }

  lemma SleepKeeps(s: System, a: Act)
    requires SleepInv(s) && Enabled(s, a)
    ensures SleepInv(Next(s, a))
  {
    var t := Next(s, a);
    SchedKept(s, a);
    forall i: nat | i < PROCESSES ensures SleepOk(t, i) {
      if i == 0 {
      } else if i == s.sched.current {
        CurrentSleeper(s, a);
      } else {
        OtherSleeper(s, a, i);
      }
    }
  }

  lemma {:induction false} SleepHolds(states: seq<System>, acts: seq<Act>, m: nat)
    requires IsRun(states, acts) && SleepInv(states[0]) && m <= |acts|
    ensures SleepInv(states[m])
  {
    if m > 0 {
      SleepHolds(states, acts, m - 1);
      assert Moves(states, acts, m - 1);
      SleepKeeps(states[m - 1], acts[m - 1]);
    }
  }

  /** Between its call of SysSleep(n) in step `k` and its return, a process is in that same call. */
  lemma {:induction false} StillAsleep(states: seq<System>, acts: seq<Act>, k: nat, m: nat, i: nat, n: nat)
    requires IsRun(states, acts) && k < m <= |acts| && i < PROCESSES
    requires acts[k] == CallSleep(n) && i == states[k].sched.current
    requires forall j: nat :: k < j <= m ==> PlaceAt(states, j, i) != User
    ensures Shaped(states[m]) && states[m].places[i].InSleep? && states[m].places[i].start == states[k].ticks
      && states[m].places[i].n == n
  {
    assert Moves(states, acts, m - 1) && PlaceAt(states, m, i) != User;
    if m > k + 1 {
      StillAsleep(states, acts, k, m - 1, i, n);
      SameSleep(states[m - 1], acts[m - 1], i);
    }
  }

  /** A step leaves a process in its call of SysSleep, or takes it back to user mode. */
  lemma SameSleep(s: System, a: Act, i: nat)
    requires Shaped(s) && Enabled(s, a) && i < PROCESSES && s.places[i].InSleep?
    ensures var p := Next(s, a).places[i];
      p == User || (p.InSleep? && p.start == s.places[i].start && p.n == s.places[i].n)
  {
    StepEvent(s, a);
  }

  /** It goes back to user mode only after its ticks. */
  lemma BackFromSleep(s: System, a: Act, i: nat)
    requires Shaped(s) && Enabled(s, a) && i < PROCESSES && s.places[i].InSleep? && Next(s, a).places[i] == User
    ensures Next(s, a).ticks == s.ticks >= s.places[i].start + s.places[i].n
  {
    StepEvent(s, a);
  }

  /** A call that does not sleep at all asked for no ticks. */
  lemma NoSleep(s: System, n: nat)
    requires Shaped(s) && Next(s, CallSleep(n)).places[s.sched.current] == User
    ensures n == 0 && Next(s, CallSleep(n)).ticks == s.ticks
  {
  }

  function PlaceAt(states: seq<System>, j: nat, i: nat): Place {
    if j < |states| && i < |states[j].places| then states[j].places[i] else User
  }

  lemma ReturnTicks(states: seq<System>, acts: seq<Act>, k: nat, m: nat, i: nat, n: nat)
    requires IsRun(states, acts) && k < m <= |acts| && i < PROCESSES
    requires acts[k] == CallSleep(n) && i == states[k].sched.current
    requires forall j: nat :: k < j < m ==> PlaceAt(states, j, i) != User
    requires PlaceAt(states, m, i) == User && Shaped(states[m])
    ensures states[m].ticks >= states[k].ticks + n
  {
    assert Moves(states, acts, m - 1);
    if m > k + 1 {
      StillAsleep(states, acts, k, m - 1, i, n);
      BackFromSleep(states[m - 1], acts[m - 1], i);
    } else {
      NoSleep(states[k], n);
    }
  }

  /** And at none of its own steps before the last had so many ticks passed. */
  lemma NoOversleep(states: seq<System>, acts: seq<Act>, k: nat, j: nat, i: nat, n: nat)
    requires IsRun(states, acts) && k < j < |acts| && i < PROCESSES
    requires acts[k] == CallSleep(n) && i == states[k].sched.current
    requires forall l: nat :: k < l <= j + 1 ==> PlaceAt(states, l, i) != User
    ensures Shaped(states[j]) && (states[j].sched.current == i ==> states[j].ticks < states[k].ticks + n)
  {
    StillAsleep(states, acts, k, j, i, n);
    assert Moves(states, acts, j) && PlaceAt(states, j + 1, i) != User;
  }

  /** A step leaves a process in its Wait or its read of a key, or is its own and takes it back to user mode. */
  lemma SameCall(s: System, a: Act, i: nat)
    requires Shaped(s) && Enabled(s, a) && i < PROCESSES && (s.places[i].InWait? || s.places[i].InRead?)
    ensures var p := Next(s, a).places[i];
      p == s.places[i] || (p == User && a == Resume && i == s.sched.current)
  {
    StepEvent(s, a);
  }

  /** A process in one of these calls after `k` steps is still in that same call later, if it was not in user
      mode in between. */
  lemma {:induction false} StillInCall(states: seq<System>, acts: seq<Act>, k: nat, m: nat, i: nat)
    requires IsRun(states, acts) && k <= m <= |acts| && i < PROCESSES
    requires PlaceAt(states, k, i).InWait? || PlaceAt(states, k, i).InRead?
    requires forall j: nat :: k < j <= m ==> PlaceAt(states, j, i) != User
    ensures PlaceAt(states, m, i) == PlaceAt(states, k, i)
  {
    if m > k {
      StillInCall(states, acts, k, m - 1, i);
      assert Moves(states, acts, m - 1) && PlaceAt(states, m, i) != User;
      SameCall(states[m - 1], acts[m - 1], i);
    }
  }

  /** It comes back to user mode by a step of its own, from that same call. */
  lemma BackFromCall(states: seq<System>, acts: seq<Act>, k: nat, m: nat, i: nat)
    requires IsRun(states, acts) && k < m <= |acts| && i < PROCESSES
    requires PlaceAt(states, k, i).InWait? || PlaceAt(states, k, i).InRead?
    requires (forall j: nat :: k < j < m ==> PlaceAt(states, j, i) != User) && PlaceAt(states, m, i) == User
    requires Shaped(states[m])
    ensures PlaceAt(states, m - 1, i) == PlaceAt(states, k, i)
    ensures acts[m - 1] == Resume && states[m - 1].sched.current == i
  {
    StillInCall(states, acts, k, m - 1, i);
    assert Moves(states, acts, m - 1);
    SameCall(states[m - 1], acts[m - 1], i);
  }

  lemma RoundsAt(states: seq<System>, acts: seq<Act>, k: nat, j: nat, i: nat, n: nat)
    requires IsRun(states, acts) && SleepInv(states[0]) && k < j <= |acts| && i < PROCESSES
    requires acts[k] == CallSleep(n) && i == states[k].sched.current
    requires forall l: nat :: k < l <= j ==> PlaceAt(states, l, i) != User
    ensures PlaceAt(states, j, i).InSleep? && 1 <= PlaceAt(states, j, i).rounds <= n
  {
    StillAsleep(states, acts, k, j, i, n);
    SleepHolds(states, acts, j);
    assert SleepOk(states[j], i);
  }

  /** SysSleep(n) returns after at least n ticks, having called Sleep at most n times: a process that
      called it in step `k` and is back in user mode after step `m`, and not before. */
  lemma SleepsLongEnough(states: seq<System>, acts: seq<Act>, k: nat, m: nat, i: nat, n: nat)
    requires IsRun(states, acts) && SleepInv(states[0]) && k < m <= |acts| && i < PROCESSES
    requires acts[k] == CallSleep(n) && i == states[k].sched.current
    requires forall j: nat :: k < j < m ==> PlaceAt(states, j, i) != User
    requires PlaceAt(states, m, i) == User && Shaped(states[m])
    ensures states[m].ticks >= states[k].ticks + n
    ensures forall j: nat :: k < j < m ==> PlaceAt(states, j, i).InSleep? && 1 <= PlaceAt(states, j, i).rounds <= n
  {
    ReturnTicks(states, acts, k, m, i, n);
    forall j: nat | k < j < m ensures PlaceAt(states, j, i).InSleep? && 1 <= PlaceAt(states, j, i).rounds <= n {
      RoundsAt(states, acts, k, j, i, n);
    }
  }

  // ----- Wait -----

  /** A process waiting for one that was not killed hangs the system as soon as another one was: it is in
      the kernel with interrupts off, and its next step changes nothing. In no other case does it. */
  lemma WaitSpins(s: System, pid: int)
    requires Shaped(s) && s.places[s.sched.current] == InWait(pid)
    ensures Next(s, Resume) == s
      <==> s.sched.kill != [] && PidPosition(s.sched.procs, s.sched.kill, pid) == |s.sched.kill|
    ensures forall a: Act :: Enabled(s, a) ==> a == Resume
  {
    var c, t := s.sched, Next(s, Resume);
    if c.kill == [] {
      assert t.sched.wait == c.wait + [c.current] && |t.sched.wait| == |c.wait| + 1;
    } else if PidPosition(c.procs, c.kill, pid) < |c.kill| {
      assert |t.sched.kill| == |c.kill| - 1;
    } else {
      assert t.places == s.places && t.sched == c;
    }
  }

  // ----- The scheduler part of a run -----

  function Scheds(states: seq<System>): seq<Sched> { seq(|states|, i requires 0 <= i < |states| => states[i].sched) }

  function EventAt(states: seq<System>, acts: seq<Act>, i: nat): Runs.Event
    requires i < |states| && i < |acts|
  {
    if Shaped(states[i]) then EventOf(states[i], acts[i]) else Runs.Tick
  }

  function Events(states: seq<System>, acts: seq<Act>): seq<Runs.Event>
    requires |acts| <= |states|
  {
    seq(|acts|, i requires 0 <= i < |acts| => EventAt(states, acts, i))
  }

  /** What the scheduler does in a run of the system is a run of the scheduler. */
  lemma SchedulerRun(states: seq<System>, acts: seq<Act>)
    requires IsRun(states, acts) && SleepInv(states[0])
    ensures Runs.IsRun(Scheds(states), Events(states, acts))
  {
    var ss, es := Scheds(states), Events(states, acts);
    forall i: nat | i < |es| ensures Runs.Moves(ss, es, i) {
      SleepHolds(states, acts, i);
      assert Moves(states, acts, i);
      StepEvent(states[i], acts[i]);
      assert ss[i] == states[i].sched && ss[i + 1] == states[i + 1].sched && es[i] == EventOf(states[i], acts[i]);
    }
  }

  // ----- The key buffer -----

  /** A process in ReadKeyBuffer sleeps on an empty buffer, or was woken and will find a key at the
      place it looked at. */
  predicate ReaderOk(place: Place, p: Pcb, front: nat, empty: bool) {
    place.InRead? ==>
      && place.at == front
      && if p.state == Sleeping then p.waitId == KEYBOARD_WAIT && empty else Runs.CanRun(p) && !empty
  }

  predicate ReadOk(s: System, i: nat)
    requires Shaped(s) && i < PROCESSES
  {
    ReaderOk(s.places[i], s.sched.procs[i], s.ring.front, Keys(s.ring) == [])
  }

  /** Every key accepted was delivered or is in the buffer, in order. */
  predicate Fifo(s: System)
    requires Shaped(s)
  {
    s.delivered + Keys(s.ring) == s.accepted
  }

  ghost predicate OneReader(s: System)
    requires Shaped(s)
  {
    forall i: nat, j: nat :: i < j < PROCESSES ==> !(s.places[i].InRead? && s.places[j].InRead?)
  }

  ghost predicate KeyInv(s: System) {
    && SleepInv(s) && OneReader(s) && Fifo(s)
    && forall i: nat :: i < PROCESSES ==> ReadOk(s, i)
  }

  /** Nobody starts to read while another process is in the middle of a read. */
  ghost predicate Exclusive(s: System, a: Act)
    requires Shaped(s)
  {
    a.CallRead? ==> forall i: nat :: i < PROCESSES ==> !s.places[i].InRead?
  }

  /** A key press appends to the buffer, or is dropped when 499 keys are in it. */
  predicate Pressed(s: System, t: System, ch: Byte)
    requires Shaped(s) && Shaped(t)
  {
    && t.ring.front == s.ring.front && t.delivered == s.delivered && Keys(t.ring) != []
    && if |Keys(s.ring)| == BUFFER_SIZE - 1 then Keys(t.ring) == Keys(s.ring) && t.accepted == s.accepted
       else Keys(t.ring) == Keys(s.ring) + [ch] && t.accepted == s.accepted + [ch]
  }

  /** The key at `at` was delivered and the front moved on. */
  predicate TookKey(s: System, t: System, at: RingIndex)
    requires Shaped(s) && Shaped(t)
  {
    && t.accepted == s.accepted && t.delivered == s.delivered + [s.ring.buffer[at]]
    && t.places[s.sched.current] == User
    && (Keys(s.ring) != [] ==> Keys(s.ring) == [s.ring.buffer[s.ring.front]] + Keys(t.ring))
    && (Keys(s.ring) == [] ==> |Keys(t.ring)| == BUFFER_SIZE - 1)
  }

  predicate SameKeys(s: System, t: System) {
    t.ring == s.ring && t.delivered == s.delivered && t.accepted == s.accepted
  }

  /** What a step does to the buffer. */
  lemma KeyEffect(s: System, a: Act)
    requires Shaped(s) && Enabled(s, a)
    ensures var t := Next(s, a);
      match a
      case KeyPress(ch) => Pressed(s, t, ch)
      case CallRead(address) =>
        if Keys(s.ring) != [] then TookKey(s, t, s.ring.front)
        else SameKeys(s, t) && t.places[s.sched.current] == InRead(s.ring.front, address)
      case Resume =>
        if s.places[s.sched.current].InRead? then TookKey(s, t, s.places[s.sched.current].at) else SameKeys(s, t)
      case _ => SameKeys(s, t)
  {
    PopRemoves(s.ring);
    if a.KeyPress? { PushAppends(s.ring, a.ch); }
  }

  /** A resumed reader gets the oldest key: the buffer is not empty, and what it finds at the place it
      looked at before it slept is the key at the front now. */
  predicate Clean(s: System, a: Act)
    requires Shaped(s)
  {
    var place := s.places[s.sched.current];
    a == Resume && place.InRead? ==> Keys(s.ring) != [] && s.ring.buffer[place.at] == s.ring.buffer[s.ring.front]
  }

  /** Exactly such steps keep the order of the keys, whatever the step and however many readers there are. */
  lemma ResumedRead(s: System, a: Act)
    requires Shaped(s) && Enabled(s, a) && Fifo(s)
    ensures Fifo(Next(s, a)) <==> Clean(s, a)
  {
    var place, t := s.places[s.sched.current], Next(s, a);
    KeyEffect(s, a);
    if a == Resume && place.InRead? {
      OldestTaken(s.delivered, Keys(s.ring), Keys(t.ring), s.ring.buffer[place.at], s.ring.buffer[s.ring.front]);
    }
  }

  lemma OldestTaken(delivered: seq<Byte>, keys: seq<Byte>, rest: seq<Byte>, taken: Byte, oldest: Byte)
    requires if keys != [] then keys == [oldest] + rest else rest != []
    ensures (delivered + [taken]) + rest == delivered + keys <==> keys != [] && taken == oldest
  {
    var a, b := (delivered + [taken]) + rest, delivered + keys;
    if keys != [] {
      assert a[|delivered|] == taken && b[|delivered|] == oldest;
      if taken == oldest { assert a == b; }
    } else {
      assert |a| > |b|;
    }
  }

  predicate FifoAt(states: seq<System>, i: nat) { i < |states| && Shaped(states[i]) && Fifo(states[i]) }

  predicate CleanAt(states: seq<System>, acts: seq<Act>, i: nat) {
    i < |states| && i < |acts| && Shaped(states[i]) && Clean(states[i], acts[i])
  }

  lemma FifoNext(states: seq<System>, acts: seq<Act>, i: nat)
    requires IsRun(states, acts) && i < |acts| && FifoAt(states, i)
    ensures FifoAt(states, i + 1) <==> CleanAt(states, acts, i)
  {
    assert Moves(states, acts, i);
    ResumedRead(states[i], acts[i]);
  }

  /** Over runs: the order is kept in all states exactly if all steps are clean. */
  lemma {:induction false} FifoExact(states: seq<System>, acts: seq<Act>, n: nat)
    requires IsRun(states, acts) && n <= |acts| && FifoAt(states, 0)
    ensures (forall i: nat :: i <= n ==> FifoAt(states, i)) <==> (forall i: nat :: i < n ==> CleanAt(states, acts, i))
  {
    if n > 0 {
      FifoExact(states, acts, n - 1);
      if FifoAt(states, n - 1) { FifoNext(states, acts, n - 1); }
    }
  }

  /** A parked reader keeps its promise through a step that is not its own. */
  lemma ReaderMoves(place: Place, p: Pcb, q: Pcb, front: nat, was: bool, empty: bool, e: Runs.Event)
    requires ReaderOk(place, p, front, was) && p.state != Running && Runs.OtherMoves(p, q, e)
    requires if Runs.Wakes(e, KEYBOARD_WAIT) then !empty else empty == was
    ensures ReaderOk(place, q, front, empty)
  {
  }

  lemma OtherReader(s: System, a: Act, i: nat)
    requires KeyInv(s) && Enabled(s, a) && Exclusive(s, a) && 1 <= i < PROCESSES && i != s.sched.current
    ensures ReadOk(Next(s, a), i)
  {
    var t, c := Next(s, a), s.sched.current;
    StepEvent(s, a);
    KeyEffect(s, a);
    assert ReadOk(s, i) && RunningOk(s.sched, i);
    if s.places[i].InRead? {
      assert !s.places[c].InRead?;
      Runs.OtherSlot(s.sched, EventOf(s, a), i);
      ReaderMoves(s.places[i], s.sched.procs[i], t.sched.procs[i], s.ring.front, Keys(s.ring) == [],
        Keys(t.ring) == [], EventOf(s, a));
    }
  }

  lemma CurrentReader(s: System, a: Act)
    requires KeyInv(s) && Enabled(s, a) && s.sched.current != 0
    ensures ReadOk(Next(s, a), s.sched.current)
  {
    var i := s.sched.current;
    StepEvent(s, a);
    KeyEffect(s, a);
    assert ReadOk(s, i) && RunningOk(s.sched, i);
    Runs.CurrentSlot(s.sched, EventOf(s, a));
  }

  lemma FifoKept(s: System, a: Act)
    requires KeyInv(s) && Enabled(s, a)
    ensures Fifo(Next(s, a))
  {
    assert ReadOk(s, s.sched.current) && RunningOk(s.sched, s.sched.current);
    ResumedRead(s, a);
  }

  lemma OneReaderKept(s: System, a: Act)
    requires KeyInv(s) && Enabled(s, a) && Exclusive(s, a)
    ensures OneReader(Next(s, a))
  {
    StepEvent(s, a);
    KeyEffect(s, a);
  }

  lemma KeyKeeps(s: System, a: Act)
    requires KeyInv(s) && Enabled(s, a) && Exclusive(s, a)
    ensures KeyInv(Next(s, a))
  {
    var t := Next(s, a);
    SleepKeeps(s, a);
    OneReaderKept(s, a);
    FifoKept(s, a);
    forall i: nat | i < PROCESSES ensures ReadOk(t, i) {
      if i == 0 {
      } else if i == s.sched.current {
        CurrentReader(s, a);
      } else {
        OtherReader(s, a, i);
      }
    }
  }

  /** The system after boot. */
  function Booted(sched: Sched, buffer: seq<Byte>): System {
    System(sched, 0, seq(PROCESSES, _ => User), Ring(buffer, 0, 0), [], [])
  }

  lemma InitialSystem(sched: Sched, buffer: seq<Byte>)
    requires Runs.Initial(sched) && |buffer| == BUFFER_SIZE
    ensures KeyInv(Booted(sched, buffer))
  {
    Runs.InitialKeeps(sched);
  }

  /** As long as no process starts to read while another is in the middle of a read, the buffer is a
      bounded first-in-first-out queue in every state of every run: what was delivered, followed by what
      is buffered, is what was accepted; and a reader that is about to resume finds a key. */
  lemma {:induction false} KeysAreFifo(states: seq<System>, acts: seq<Act>, m: nat)
    requires IsRun(states, acts) && KeyInv(states[0]) && m <= |acts|
    requires forall i: nat :: i < |acts| && Shaped(states[i]) ==> Exclusive(states[i], acts[i])
    ensures KeyInv(states[m]) && |Keys(states[m].ring)| < BUFFER_SIZE
    ensures var c := states[m].sched.current; states[m].places[c].InRead? ==> Keys(states[m].ring) != []
  {
    if m > 0 {
      KeysAreFifo(states, acts, m - 1);
      assert Moves(states, acts, m - 1);
      KeyKeeps(states[m - 1], acts[m - 1]);
    }
    var s := states[m];
    assert ReadOk(s, s.sched.current) && RunningOk(s.sched, s.sched.current);
  }

  // ----- Two readers -----

  /** Two readers asleep on an empty buffer. */
  predicate TwoReadersAsleep(s: System, a1: Word, a2: Word) {
    && Shaped(s) && s.ring.front == s.ring.end && s.places[0] == User
    && s.places[1] == InRead(s.ring.front, a1) && s.places[2] == InRead(s.ring.front, a2)
    && s.sched.current == 0 && s.sched.ready == [] && s.sched.wait == [1, 2] && s.sched.procs[0].pid == 0
    && s.sched.procs[1].pid == 1 && s.sched.procs[2].pid == 2
    && s.sched.procs[1].waitId == s.sched.procs[2].waitId == KEYBOARD_WAIT
  }

  /** A run goes on with one more step. */
  lemma RunExtends(states: seq<System>, acts: seq<Act>, a: Act, t: System)
    requires IsRun(states, acts) && Shaped(states[|acts|]) && Enabled(states[|acts|], a) && t == Next(states[|acts|], a)
    ensures IsRun(states + [t], acts + [a])
  {
    assert Moves([states[|acts|], t], [a], 0);
    RunsJoin(states, acts, [states[|acts|], t], [a]);
    assert [states[|acts|], t][1..] == [t];
  }

  /** Two runs one after the other. */
  lemma RunsJoin(states: seq<System>, acts: seq<Act>, states': seq<System>, acts': seq<Act>)
    requires IsRun(states, acts) && IsRun(states', acts') && states[|acts|] == states'[0]
    ensures IsRun(states + states'[1..], acts + acts') && (states + states'[1..])[|acts| + |acts'|] == states'[|acts'|]
  {
    var u, b, n := states + states'[1..], acts + acts', |acts|;
    forall i: nat | i < |b| ensures Moves(u, b, i) {
      if i < n {
        assert Moves(states, acts, i) && u[i] == states[i] && u[i + 1] == states[i + 1] && b[i] == acts[i];
      } else {
        assert Moves(states', acts', i - n) && u[i] == states'[i - n] && u[i + 1] == states'[i + 1 - n]
          && b[i] == acts'[i - n];
      }
    }
  }

  /** One step is a run. */
  lemma OneStep(s: System, a: Act)
    requires Shaped(s) && Enabled(s, a)
    ensures IsRun([s, Next(s, a)], [a])
  {
    assert Moves([s, Next(s, a)], [a], 0);
  }

  lemma TickStep(s: System)
    requires Shaped(s) && s.places[s.sched.current] == User
    ensures IsRun([s, Ticked(s)], [TimerTick])
  {
    OneStep(s, TimerTick);
  }

  /** A call of the current process, in user mode. */
  lemma CallStep(s: System, a: Act)
    requires Shaped(s) && s.places[s.sched.current] == User && s.sched.current != 0 && !a.Resume?
    ensures IsRun([s, Next(s, a)], [a])
    ensures match a
      case CallFork(o) => Next(s, a) == Forked(s, o)
      case CallRead(address) => Next(s, a) == ReadKey(s, address)
      case CallExit => Next(s, a) == Exited(s)
      case CallWait(pid) => Next(s, a) == WaitLoop(s, pid)
      case _ => true
  {
    OneStep(s, a);
  }

  lemma KeyStep(s: System, ch: Byte)
    requires Shaped(s) && s.places[s.sched.current] == User
    ensures IsRun([s, Pushed(s, ch)], [KeyPress(ch)])
  {
    OneStep(s, KeyPress(ch));
  }

  lemma ResumeStep(s: System)
    requires Shaped(s) && s.places[s.sched.current].InRead? && s.sched.current != 0
    ensures IsRun([s, TakeKey(s, s.places[s.sched.current].at)], [Resume])
  {
    OneStep(s, Resume);
  }

  lemma TwoSteps(s: System, a: Act, t: System, b: Act, u: System)
    requires IsRun([s, t], [a]) && IsRun([t, u], [b])
    ensures IsRun([s, t, u], [a, b])
  {
    RunsJoin([s, t], [a], [t, u], [b]);
    assert [s, t] + [t, u][1..] == [s, t, u] && [a] + [b] == [a, b];
  }

  /** The first tick switches from the idle process to the shell. */
  lemma ShellRuns(c: Sched)
    requires Runs.Initial(c)
    ensures var t := Yield(Wakeup(c, NORMAL_WAIT));
      && t.current == 1 && t.ready == [] && t.wait == [] && t.kill == [] && t.nextPid == 2 && t.procs[0].state == Ready
         && t.procs[1].state == Running
      && t.procs[0].pid == 0 && t.procs[1].pid == 1 && forall i :: 2 <= i < PROCESSES ==> t.procs[i] == ZeroPcb()
  {
    Runs.WakeNone(c, NORMAL_WAIT);
  }

  /** Its child gets the next slot and pid, and is the only one ready. */
  lemma ShellForked(t: Sched, o: ForkOutcome)
    requires WellFormed(t) && o.Forked? && t.current == 1 && t.ready == [] && t.wait == [] && t.kill == []
      && t.nextPid == 2
    requires t.procs[0].state == Ready && t.procs[1].state == Running && t.procs[2] == ZeroPcb()
    requires t.procs[0].pid == 0 && t.procs[1].pid == 1
    ensures var u := Fork(t, o);
      && u.current == 1 && u.ready == [2] && u.wait == [] && u.kill == [] && u.procs[0].pid == 0 && u.procs[1].pid == 1
         && u.procs[2].pid == 2
  {
    assert FreeSlot(t.procs) == 2;
  }

  /** Each reads in turn, and then only the idle process is left. */
  lemma BothRead(u: Sched)
    requires WellFormed(u) && u.current == 1 && u.ready == [2] && u.wait == [] && u.procs[0].pid == 0
      && u.procs[1].pid == 1 && u.procs[2].pid == 2
    ensures var v := Sleep(u, KEYBOARD_WAIT);
      var w := Sleep(v, KEYBOARD_WAIT);
      && v.current == 2 && w.current == 0 && w.ready == [] && w.wait == [1, 2]
      && w.procs[0].pid == 0 && w.procs[1].pid == 1 && w.procs[2].pid == 2
         && w.procs[1].waitId == w.procs[2].waitId == KEYBOARD_WAIT
  {
  }

  /** The next process in line runs. */
  lemma TickWithNobodyAsleep(s: Sched)
    requires WellFormed(s) && s.wait == [] && s.ready != []
    ensures var t := Yield(Wakeup(s, NORMAL_WAIT));
      && t.current == s.ready[0] && t.wait == [] && t.kill == s.kill
         && t.ready == s.ready[1..] + (if s.procs[s.current].pid != 0
         then [s.current] else [])
      && forall i :: 0 <= i < PROCESSES ==> t.procs[i].pid == s.procs[i].pid
  {
    Runs.WakeNone(s, NORMAL_WAIT);
    var r := SetState(s, s.current, Ready);
    var p := if s.procs[s.current].pid != 0 then r.(ready := s.ready + [s.current]) else r;
    assert p.ready[1..] == s.ready[1..] + (if s.procs[s.current].pid != 0 then [s.current] else []);
  }

  lemma WakeTwo(s: Sched)
    requires WellFormed(s) && s.ready == [] && s.wait == [1, 2]
      && s.procs[1].waitId == s.procs[2].waitId == KEYBOARD_WAIT
    ensures var t := Wakeup(s, KEYBOARD_WAIT);
      && t.ready == [1, 2] && t.wait == [] && t.current == s.current
         && forall i :: 0 <= i < PROCESSES ==> t.procs[i].pid == s.procs[i].pid
  {
    forall x | x in s.wait ensures Waits(s.procs, x, KEYBOARD_WAIT) { assert x == 1 || x == 2; }
    AllWaiting(s.procs, s.wait, KEYBOARD_WAIT);
    assert s.ready + Waiting(s.procs, s.wait, KEYBOARD_WAIT) == [1, 2];
  }

  lemma {:induction false} AllWaiting(procs: seq<Pcb>, q: seq<nat>, id: int)
    requires forall x :: x in q ==> Waits(procs, x, id)
    ensures Waiting(procs, q, id) == q && NotWaiting(procs, q, id) == []
  {
    if q != [] {
      AllWaiting(procs, q[1..], id);
      assert q == [q[0]] + q[1..];
    }
  }

  /** From boot: the shell runs and forks, and both processes read from the empty buffer. */
  lemma RunToTwoReaders(c: Sched, buffer: seq<Byte>, o: ForkOutcome, a1: Word, a2: Word)
      returns (states: seq<System>, acts: seq<Act>)
    requires Runs.Initial(c) && |buffer| == BUFFER_SIZE && o.Forked?
    ensures IsRun(states, acts) && states[0] == Booted(c, buffer)
      && acts == [TimerTick, CallFork(o), CallRead(a1), CallRead(a2)]
    ensures Shaped(states[3]) && !Exclusive(states[3], acts[3])
    ensures TwoReadersAsleep(states[4], a1, a2) && states[4].accepted == [] && states[4].delivered == []
  {
    var first := ShellAndChild(c, buffer, o);
    var second := BothAsleep(first[2], a1, a2);
    RunsJoin(first, [TimerTick, CallFork(o)], second, [CallRead(a1), CallRead(a2)]);
    states, acts := first + second[1..], [TimerTick, CallFork(o)] + [CallRead(a1), CallRead(a2)];
  }

  /** The shell and its child in user mode, no key yet. */
  predicate TwoInUserMode(s: System) {
    && Shaped(s) && s.ring.front == s.ring.end && s.accepted == [] && s.delivered == []
    && s.places[0] == s.places[1] == s.places[2] == User
    && s.sched.current == 1 && s.sched.ready == [2] && s.sched.wait == [] && s.sched.kill == []
    && s.sched.procs[0].pid == 0 && s.sched.procs[1].pid == 1 && s.sched.procs[2].pid == 2
  }

  lemma ShellAndChild(c: Sched, buffer: seq<Byte>, o: ForkOutcome) returns (states: seq<System>)
    requires Runs.Initial(c) && |buffer| == BUFFER_SIZE && o.Forked?
    ensures IsRun(states, [TimerTick, CallFork(o)]) && states[0] == Booted(c, buffer) && TwoInUserMode(states[2])
  {
    var s := Booted(c, buffer);
    var t := Ticked(s);
    ShellRuns(c);
    ShellForked(t.sched, o);
    TickStep(s);
    CallStep(t, CallFork(o));
    TwoSteps(s, TimerTick, t, CallFork(o), Forked(t, o));
    states := [s, t, Forked(t, o)];
  }

  lemma BothAsleep(s: System, a1: Word, a2: Word) returns (states: seq<System>)
    requires TwoInUserMode(s)
    ensures IsRun(states, [CallRead(a1), CallRead(a2)]) && states[0] == s
    ensures Shaped(states[1]) && !Exclusive(states[1], CallRead(a2))
    ensures TwoReadersAsleep(states[2], a1, a2) && states[2].accepted == [] && states[2].delivered == []
  {
    var t := ReadKey(s, a1);
    BothRead(s.sched);
    CallStep(s, CallRead(a1));
    CallStep(t, CallRead(a2));
    TwoSteps(s, CallRead(a1), t, CallRead(a2), ReadKey(t, a2));
    states := [s, t, ReadKey(t, a2)];
    assert t.places[1].InRead?;
  }

  /** The key wakes both, and the first is next to run. */
  lemma KeyReachesBoth(s: System, ch: Byte, a1: Word, a2: Word) returns (states: seq<System>)
    requires TwoReadersAsleep(s, a1, a2)
    ensures IsRun(states, [KeyPress(ch), TimerTick]) && states[0] == s && OneKeyTwoReaders(states[2], ch, a2)
    ensures states[2].accepted == s.accepted + [ch] && states[2].delivered == s.delivered
  {
    var a := Pushed(s, ch);
    WakeTwo(s.sched);
    PopRemoves(s.ring);
    PushAppends(s.ring, ch);
    TickWithNobodyAsleep(a.sched);
    KeyStep(s, ch);
    TickStep(a);
    TwoSteps(s, KeyPress(ch), a, TimerTick, Ticked(a));
    states := [s, a, Ticked(a)];
    PopRemoves(a.ring);
    assert Keys(a.ring) == [ch];
  }

  /** The first reader runs, the second is next, and one key is there. */
  predicate OneKeyTwoReaders(b: System, ch: Byte, a2: Word) {
    && Shaped(b) && b.sched.current == 1 && b.sched.ready == [2] && b.sched.wait == [] && b.places[0] == User
    && b.places[1].InRead? && b.places[1].at == b.ring.front && b.places[2] == InRead(b.ring.front, a2)
    && Keys(b.ring) == [ch] && b.ring.buffer[b.ring.front] == ch
  }

  /** The second runs, and no key is there, but the old one is still in the place it looked at. */
  predicate NoKeyOneReader(d: System, ch: Byte) {
    Shaped(d) && d.sched.current == 2 && d.places[2].InRead? && d.ring.buffer[d.places[2].at] == ch
      && Keys(d.ring) == []
  }

  lemma FirstReads(b: System, ch: Byte, a2: Word) returns (states: seq<System>)
    requires OneKeyTwoReaders(b, ch, a2)
    ensures IsRun(states, [Resume, TimerTick]) && states[0] == b && NoKeyOneReader(states[2], ch)
    ensures states[2].accepted == b.accepted && states[2].delivered == b.delivered + [ch]
  {
    var c := TakeKey(b, b.places[1].at);
    PopRemoves(b.ring);
    TickWithNobodyAsleep(c.sched);
    ResumeStep(b);
    TickStep(c);
    TwoSteps(b, Resume, c, TimerTick, Ticked(c));
    states := [b, c, Ticked(c)];
  }

  /** The second reader gets the same key again, and leaves a buffer that claims to hold 499 keys. */
  lemma SecondReads(d: System, ch: Byte) returns (e: System)
    requires NoKeyOneReader(d, ch)
    ensures IsRun([d, e], [Resume]) && !Clean(d, Resume)
    ensures Shaped(e) && e.accepted == d.accepted && e.delivered == d.delivered + [ch]
      && |Keys(e.ring)| == BUFFER_SIZE - 1
  {
    e := TakeKey(d, d.places[2].at);
    PopRemoves(d.ring);
    ResumeStep(d);
  }

  /** Both readers are woken by one key, and it is delivered twice. */
  lemma TwoReaders(s: System, ch: Byte, a1: Word, a2: Word) returns (states: seq<System>, acts: seq<Act>)
    requires TwoReadersAsleep(s, a1, a2)
    ensures IsRun(states, acts) && states[0] == s && acts == [KeyPress(ch), TimerTick, Resume, TimerTick, Resume]
    ensures |states| == 6 && var e := states[5];
      Shaped(e) && e.accepted == s.accepted + [ch] && e.delivered == s.delivered + [ch, ch]
        && |Keys(e.ring)| == BUFFER_SIZE - 1
  {
    var first := KeyReachesBoth(s, ch, a1, a2);
    var second := FirstReads(first[2], ch, a2);
    var e := SecondReads(second[2], ch);
    states, acts := first + second[1..], [KeyPress(ch), TimerTick] + [Resume, TimerTick];
    RunsJoin(first, [KeyPress(ch), TimerTick], second, [Resume, TimerTick]);
    RunsJoin(states, acts, [second[2], e], [Resume]);
    states, acts := states + [second[2], e][1..], acts + [Resume];
  }

  /** So from boot on a run exists that delivers one key twice: after the second read, its one step that
      is not exclusive. */
  lemma OrderCanBreak(c: Sched, buffer: seq<Byte>, o: ForkOutcome, a1: Word, a2: Word, ch: Byte)
      returns (states: seq<System>, acts: seq<Act>)
    requires Runs.Initial(c) && |buffer| == BUFFER_SIZE && o.Forked?
    ensures IsRun(states, acts) && states[0] == Booted(c, buffer) && KeyInv(states[0])
    ensures acts == [TimerTick, CallFork(o), CallRead(a1), CallRead(a2), KeyPress(ch), TimerTick, Resume, TimerTick,
      Resume]
    ensures Shaped(states[3]) && !Exclusive(states[3], acts[3])
    ensures |states| == 10 && var e := states[9]; Shaped(e) && e.accepted == [ch] && e.delivered == [ch, ch] && !Fifo(e)
  {
    InitialSystem(c, buffer);
    states, acts := RunToTwoReaders(c, buffer, o, a1, a2);
    var states', acts' := TwoReaders(states[4], ch, a1, a2);
    RunsJoin(states, acts, states', acts');
    states, acts := states + states'[1..], acts + acts';
  }

  // ----- A wait that hangs -----

  /** The child runs, and its parent is next. */
  predicate ChildRuns(t: System) {
    && Shaped(t) && t.sched.current == 2 && t.sched.ready == [1] && t.sched.wait == [] && t.sched.kill == []
    && t.sched.procs[2].pid == 2 && t.places[1] == t.places[2] == User
  }

  lemma TickToChild(s: System)
    requires TwoInUserMode(s)
    ensures ChildRuns(Ticked(s)) && IsRun([s, Ticked(s)], [TimerTick])
  {
    TickWithNobodyAsleep(s.sched);
    assert s.sched.ready[1..] + [1] == [1];
    TickStep(s);
  }

  /** The child was killed, and its parent runs. */
  predicate ParentRuns(u: System) {
    Shaped(u) && u.sched.current == 1 && u.sched.kill == [2] && u.sched.procs[2].pid == 2 && u.places[1] == User
  }

  lemma ChildExits(t: System)
    requires ChildRuns(t)
    ensures ParentRuns(Exited(t)) && IsRun([t, Exited(t)], [CallExit])
  {
    Runs.WakeNone(SetState(t.sched, 2, Killed).(kill := [2]), INIT_WAIT);
    CallStep(t, CallExit);
  }

  /** The current process waits for one that was not killed, but the process in slot 2 was. */
  predicate WaitsForAnother(e: System, pid: int) {
    Shaped(e) && e.places[e.sched.current] == InWait(pid) && e.sched.kill == [2] && e.sched.procs[2].pid != pid
  }

  lemma WaitsInVain(u: System, pid: int)
    requires ParentRuns(u) && pid != 2
    ensures WaitsForAnother(WaitLoop(u, pid), pid) && IsRun([u, WaitLoop(u, pid)], [CallWait(pid)])
  {
    CallStep(u, CallWait(pid));
  }

  /** The child runs and exits, and its parent waits for another process. */
  lemma ParentWaits(s: System, pid: int) returns (states: seq<System>)
    requires TwoInUserMode(s) && pid != 2
    ensures IsRun(states, [TimerTick, CallExit, CallWait(pid)]) && states[0] == s && WaitsForAnother(states[3], pid)
  {
    var t := Ticked(s);
    TickToChild(s);
    var u := Exited(t);
    ChildExits(t);
    TwoSteps(s, TimerTick, t, CallExit, u);
    WaitsInVain(u, pid);
    RunsJoin([s, t, u], [TimerTick, CallExit], [u, WaitLoop(u, pid)], [CallWait(pid)]);
    states := [s, t, u] + [u, WaitLoop(u, pid)][1..];
    assert [TimerTick, CallExit] + [CallWait(pid)] == [TimerTick, CallExit, CallWait(pid)];
  }

  /** From boot on a run exists that ends in a state whose only step changes nothing: the shell waits for any other
      process than its child, and that has exited. */
  lemma WaitCanSpin(c: Sched, buffer: seq<Byte>, o: ForkOutcome, pid: int) returns (states: seq<System>, acts: seq<Act>)
    requires Runs.Initial(c) && |buffer| == BUFFER_SIZE && o.Forked? && pid != 2
    ensures IsRun(states, acts) && states[0] == Booted(c, buffer)
    ensures acts == [TimerTick, CallFork(o), TimerTick, CallExit, CallWait(pid)]
    ensures |states| == 6 && var e := states[5];
      Shaped(e) && Next(e, Resume) == e && forall a: Act :: Enabled(e, a) ==> a == Resume
  {
    var first := ShellAndChild(c, buffer, o);
    var second := ParentWaits(first[2], pid);
    RunsJoin(first, [TimerTick, CallFork(o)], second, [TimerTick, CallExit, CallWait(pid)]);
    states, acts := first + second[1..], [TimerTick, CallFork(o)] + [TimerTick, CallExit, CallWait(pid)];
    WaitSpins(states[5], pid);
  }
}
