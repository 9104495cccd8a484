/** Runs of the whole kernel as values, and the runs of its parts in them. */
module KernelHistories {
  import opened MapGrowth
  import opened ProcessLists
  import Spec = SchedulerSpec
  import Runs = SchedulerRuns
  import Systems = SystemRuns
  import opened CStrings
  import opened FatDirectory
  import FileSpec
  import opened Keyboard
  import opened KernelState
  import opened KernelSteps

  /** What happened, the states before and after, and the steps of the system that this was. */
  datatype History = History(traps: seq<Trap>, moments: seq<Moment>, acts: seq<Systems.Act>)

  predicate Counted(h: History) { |h.moments| == |h.traps| + 1 == |h.acts| + 1 }

  ghost predicate StepAt(h: History, v: Volume, i: nat)
    requires Counted(h) && i < |h.traps|
  {
    Stepped(h.moments[i], h.moments[i + 1], h.traps[i], h.acts[i], v)
  }

  ghost predicate SoundAt(h: History, pages: nat, i: nat)
    requires i < |h.moments|
  {
    Sound(h.moments[i], pages)
  }

  ghost predicate IsHistory(h: History, v: Volume, pages: nat) {
    && Counted(h)
    && (forall i: nat :: i < |h.moments| ==> SoundAt(h, pages, i))
    && (forall i: nat :: i < |h.traps| ==> StepAt(h, v, i))
  }

  function Prolonged(h: History, t: Trap, m: Moment, a: Systems.Act): History {
    History(h.traps + [t], h.moments + [m], h.acts + [a])
  }

  lemma HistoryExtends(h: History, traps: seq<Trap>, v: Volume, pages: nat, m: Moment, a: Systems.Act)
    requires IsPart(h, traps, v, pages) && |h.traps| < |traps| && Sound(m, pages)
    requires Stepped(h.moments[|h.traps|], m, traps[|h.traps|], a, v)
    ensures IsPart(Prolonged(h, traps[|h.traps|], m, a), traps, v, pages)
  {
    var n := |h.traps|;
    var g := Prolonged(h, traps[n], m, a);
    assert traps[..n + 1] == traps[..n] + [traps[n]];
    forall i: nat | i < |g.moments| ensures SoundAt(g, pages, i) {
      if i <= n { SameMoment(h, g, pages, i); }
    }
    forall i: nat | i < |g.traps| ensures StepAt(g, v, i) {
      if i < n { SameStep(h, g, v, i); }
    }
  }

  lemma SameMoment(h: History, g: History, pages: nat, i: nat)
    requires i < |h.moments| && i < |g.moments| && g.moments[i] == h.moments[i] && SoundAt(h, pages, i)
    ensures SoundAt(g, pages, i)
  {
  }

  lemma SameStep(h: History, g: History, v: Volume, i: nat)
    requires Counted(h) && Counted(g) && i < |h.traps| && i < |g.traps| && StepAt(h, v, i)
    requires g.moments[i] == h.moments[i] && g.moments[i + 1] == h.moments[i + 1] && g.traps[i] == h.traps[i]
      && g.acts[i] == h.acts[i]
    ensures StepAt(g, v, i)
  {
  }

  /** A history of the first of these traps. */
  ghost predicate IsPart(h: History, traps: seq<Trap>, v: Volume, pages: nat) {
    IsHistory(h, v, pages) && |h.traps| <= |traps| && h.traps == traps[..|h.traps|]
  }

  predicate Ends(h: History, m: Moment) { Counted(h) && h.moments[|h.traps|] == m }

  // ----- What all states of a run have in common -----

  /** No page comes under or leaves the control of the kernel, and what the kernel keeps for itself stays. */
  lemma {:induction false} PoolStays(h: History, v: Volume, pages: nat, n: nat)
    requires IsHistory(h, v, pages) && n <= |h.traps|
    ensures SamePool(h.moments[0].mem.own, h.moments[n].mem.own)
  {
    if n > 0 {
      PoolStays(h, v, pages, n - 1);
      assert StepAt(h, v, n - 1) && SoundAt(h, pages, n - 1);
      StepKeepsPages(h.moments[n - 1], h.moments[n], h.traps[n - 1], h.acts[n - 1], v, pages);
      PoolTransitive(h.moments[0].mem.own, h.moments[n - 1].mem.own, h.moments[n].mem.own);
    }
  }

  function Tables(h: History): seq<FileSpec.Files> {
    seq(|h.moments|, i requires 0 <= i < |h.moments| => h.moments[i].files)
  }

  predicate OpenAt(h: History, k: nat, c: nat) {
    k < |h.moments| && c < |h.moments[k].files.fcbs| && h.moments[k].files.fcbs[c].openCount > 0
  }

  /** What is recorded of the file in control block `c`, but for the count. */
  predicate SameFile(g: FileSpec.Files, h: FileSpec.Files, c: nat) {
    c < |g.fcbs| && c < |h.fcbs| && h.fcbs[c] == g.fcbs[c].(openCount := h.fcbs[c].openCount)
  }

  /** As long as a file stays open, its first cluster, size and name stay the same, whatever happens. */
  lemma OpenFilesStay(h: History, v: Volume, pages: nat, i: nat, j: nat, c: nat)
    requires IsHistory(h, v, pages) && i <= j <= |h.traps| && c < FileSpec.FCBS
    requires forall k: nat :: i <= k < j ==> OpenAt(h, k, c)
    ensures SameFile(h.moments[i].files, h.moments[j].files, c)
  {
    var run := Tables(h);
    forall k: nat | k < |run| ensures c < |run[k].fcbs| { assert SoundAt(h, pages, k); }
    forall k: nat | k + 1 < |run| ensures FileSpec.FilesKept(run[k], run[k + 1]) {
      assert StepAt(h, v, k) && SoundAt(h, pages, k);
      StepKeepsFiles(h.moments[k], h.moments[k + 1], h.traps[k], h.acts[k], v, pages);
    }
    forall k: nat | i <= k < j ensures run[k].fcbs[c].openCount > 0 { assert OpenAt(h, k, c); }
    FileSpec.OpenFileStays(run, i, j, c);
  }

  // ----- The runs in it -----

  function SystemsOf(h: History): seq<Systems.System> {
    seq(|h.moments|, i requires 0 <= i < |h.moments| => h.moments[i].system)
  }

  /** Every history is a run in the sense of SystemRuns: all that is proved of these holds of the kernel. */
  lemma HistoryIsRun(h: History, v: Volume, pages: nat)
    requires IsHistory(h, v, pages)
    ensures Systems.IsRun(SystemsOf(h), h.acts)
  {
    forall i: nat | i < |h.acts| ensures Systems.Moves(SystemsOf(h), h.acts, i) { assert StepAt(h, v, i); }
  }

  /** The event of the scheduler in step `i`. */
  function EventAt(h: History, i: nat): Runs.Event
    requires i < |h.moments| && i < |h.acts|
  {
    Systems.EventAt(SystemsOf(h), h.acts, i)
  }

  lemma SchedulerMoves(h: History, v: Volume, pages: nat, i: nat)
    requires IsHistory(h, v, pages) && i < |h.traps|
    ensures var s, t := h.moments[i].system.sched, h.moments[i + 1].system.sched;
      Spec.Inv(s) && Runs.Enabled(s, EventAt(h, i)) && t == Runs.Step(s, EventAt(h, i))
  {
    assert StepAt(h, v, i) && SoundAt(h, pages, i);
    Systems.StepEvent(h.moments[i].system, h.acts[i]);
  }

  /** What the scheduler does in it is a run of the scheduler. */
  lemma HistorySchedules(h: History, v: Volume, pages: nat)
    requires IsHistory(h, v, pages)
    ensures Runs.IsRun(Systems.Scheds(SystemsOf(h)), Systems.Events(SystemsOf(h), h.acts))
  {
    var ss, es := Systems.Scheds(SystemsOf(h)), Systems.Events(SystemsOf(h), h.acts);
    forall i: nat | i < |es| ensures Runs.Moves(ss, es, i) {
      SchedulerMoves(h, v, pages, i);
      assert ss[i] == h.moments[i].system.sched && ss[i + 1] == h.moments[i + 1].system.sched
        && es[i] == EventAt(h, i);
    }
  }

  /** The run begins after boot, with so many free pages. */
  ghost predicate Begins(h: History, free: nat) {
    && |h.moments| > 0 && |h.moments[0].mem.free| == free
    && exists c, buffer :: StartsAs(h, c, buffer)
  }

  ghost predicate StartsAs(h: History, c: Spec.Sched, buffer: seq<Byte>) {
    |h.moments| > 0 && Runs.Initial(c) && |buffer| == BUFFER_SIZE && h.moments[0].system == Systems.Booted(c, buffer)
  }

  lemma SecondSlotFree(s: Spec.Sched)
    requires Spec.WellFormed(s) && s.procs[0].state == Ready && s.procs[1].state == Running
      && s.procs[2] == Spec.ZeroPcb()
    ensures Spec.FreeSlot(s.procs) == 2
  {
  }

  /** The first tick after boot switches to the shell, in user mode, and does nothing else. */
  lemma ShellFirst(h: History, v: Volume, pages: nat, c: Spec.Sched, buffer: seq<Byte>)
    requires IsHistory(h, v, pages) && h.traps != [] && h.traps[0] == Timer && StartsAs(h, c, buffer)
    ensures var m := h.moments[1];
      && Systems.Shaped(m.system) && Current(m) == 1 && m.system.places[1] == Systems.User
      && m.mem == h.moments[0].mem && Spec.FreeSlot(m.system.sched.procs) == 2
  {
    assert StepAt(h, v, 0);
    Systems.ShellRuns(c);
    SecondSlotFree(h.moments[1].system.sched);
  }

  /** With 4 to 6 free pages after boot: the first fork fills a slot for the child and then finds no memory for its
      page. The slot stays behind. */
  lemma ForkAtOnce(h: History, v: Volume, pages: nat, c: Spec.Sched, buffer: seq<Byte>)
    requires IsHistory(h, v, pages) && h.traps == [Timer, ForkCall] && StartsAs(h, c, buffer)
    requires 4 <= |h.moments[0].mem.free| < 7
    ensures h.acts[1].CallFork? && h.acts[1].outcome.NoCopy?
    ensures Systems.Shaped(h.moments[2].system) && h.moments[2].system.sched.procs[2].state == Initialized
  {
    ShellFirst(h, v, pages, c, buffer);
    assert StepAt(h, v, 1);
  }
}
