/** The whole kernel: physical memory, processes and open files together, and the system calls and
    interrupts that work on all of them. Every call keeps the one invariant of the system. */
module LarvaKernel {
  import opened Bits
  import opened MemoryLayout
  import opened PageTables
  import opened MapGrowth
  import opened AddressSpaces
  import opened MapConstruction
  import opened PhysicalMemory
  import opened ProcessLists
  import opened Scheduling
  import Spec = SchedulerSpec
  import Runs = SchedulerRuns
  import Systems = SystemRuns
  import opened KernelSteps
  import opened KernelHistories
  import opened Errors
  import FileSpec
  import opened CStrings
  import opened FatDirectory
  import FatData
  import opened OpenFiles
  import opened FileLoading
  import opened Keyboard
  import opened KernelState
  import opened UserMemory
  import opened Wrappers

  lemma GridFrame(a: seq<Process>, b: seq<Process>)
    requires |a| == |b| && forall i :: 0 <= i < |a| ==> b[i].file == a[i].file
    ensures GridOf(b) == GridOf(a)
  {
  }

  class Kernel {
    const mem: Memory
    const sched: Scheduler
    const files: FileTables
    const keyboard: KeyBuffer
    const volume: Volume
    var ticks: nat
    var places: seq<Systems.Place>       // where each process goes on: what its kernel stack says
    ghost var accepted: seq<Byte>        // all keys ever put into the buffer
    ghost var delivered: seq<Byte>       // all keys ever read

    ghost function Objects(): set<object> {
      {mem, sched, sched.table, sched.table.slots, sched.table.heads, files.fds, files.fcbs, keyboard, keyboard.buffer}
    }

    /** The system invariant: the allocator and all maps are in order, the scheduler and the reference
        counts are, and every page that a process uses is recorded in its slot. */
    ghost predicate Valid()
      reads Objects()
    {
      && mem.Ready() && sched.Valid() && files.Valid(sched.table) && keyboard.Valid() && VolumeOk(volume)
      && PagesOwned(mem.ram, mem.own, sched.View().procs)
    }

    function FilesView(): FileSpec.Files
      reads Objects()
    {
      files.View(sched.table)
    }

    /** The zeroed globals when KMain is entered, on the boot loader's map. */
    constructor (kernelEnd: Word, contents: Ram, cr3: Word, disk: Volume)
      requires kernelEnd > KERNEL_BASE
      ensures volume == disk && keyboard.Valid()
      ensures fresh(Objects()) && Zeroed() && mem.kernelEnd == kernelEnd
    {
      mem := new Memory(kernelEnd, contents);
      sched := new Scheduler(cr3);
      files := new FileTables();
      keyboard := new KeyBuffer();
      volume := disk;
      ticks := 0;
      places := seq(PROCESSES, _ => Systems.User);
      accepted, delivered := [], [];
    }

    // ----- Single slots -----

    /** Change a slot, but neither its link nor its files. */
    method SetSlot(i: nat, p: Process)
      requires sched.table.Valid() && i < PROCESSES && p.next == sched.table.slots[i].next
        && p.file == sched.table.slots[i].file
      modifies sched.table.slots
      ensures sched.table.Valid() && FilesView() == old(FilesView())
      ensures sched.View() == old(sched.View()).(procs := old(sched.View()).procs[i := ToPcb(p)])
    {
      ghost var a := sched.table.slots[..];
      UpdatePcb(a, i, p);
      sched.table.Update(i, p);
      GridFrame(a, sched.table.slots[..]);
    }

    /** memset of a slot that has no open files. */
    method ResetSlot(i: nat)
      requires sched.table.Valid() && i < PROCESSES && InNoQueue(sched.table.queues, i)
        && sched.table.slots[i].file == NoFiles()
      modifies sched.table.slots
      ensures sched.table.Valid() && FilesView() == old(FilesView())
      ensures sched.View() == old(sched.View()).(procs := old(sched.View()).procs[i := Spec.ZeroPcb()])
    {
      ghost var a := sched.table.slots[..];
      UpdatePcb(a, i, ZeroProcess());
      sched.table.ClearSlot(i);
      GridFrame(a, sched.table.slots[..]);
    }

    method FindFreeProcessSlot() returns (f: nat)
      requires sched.table.Valid()
      ensures f == Spec.FreeSlot(sched.View().procs)
    {
      ghost var procs := sched.View().procs;
      f := 0;
      while f < sched.table.slots.Length && sched.table.slots[f].state != Unused
        invariant f <= |procs| && Spec.FreeSlot(procs) == f + Spec.FreeSlot(procs[f..])
      {
        assert procs[f..][1..] == procs[f + 1..];
        f := f + 1;
      }
    }

    // ----- Creating a process -----

    /** The slot is in no queue, has no files and has a kernel stack. */
    ghost predicate Begun(f: nat)
      requires sched.table.Valid() && f < PROCESSES
      reads mem, sched.table, sched.table.slots, sched.table.heads
    {
      && InNoQueue(sched.table.queues, f) && sched.table.slots[f].file == NoFiles()
      && InDirectMap(sched.table.slots[f].stack) && mem.own[PageAt(sched.table.slots[f].stack)] == Stack(f)
    }

    /** The first half of CreateNewProcess: a stack and a pid for an empty slot. */
    method BeginProcess(f: nat) returns (ok: bool)
      requires mem.Ready() && sched.table.Valid() && f < PROCESSES
      requires InNoQueue(sched.table.queues, f) && sched.View().procs[f] == Spec.ZeroPcb()
      modifies mem`ram, mem`freeHead, mem`free, mem`own, sched`nextPid, sched.table.slots
      ensures mem.Ready() && sched.table.Valid() && FilesView() == old(FilesView())
      ensures ok <==> old(mem.free) != []
      ensures ok ==> |mem.free| == |old(mem.free)| - 1
      ensures !ok ==> mem.Now() == old(mem.Now()) && sched.View() == old(sched.View())
      ensures ok ==> Begun(f) && sched.View() == Began(old(sched.View()), f, sched.table.slots[f].stack)
      ensures ok ==> old(mem.own)[PageAt(sched.table.slots[f].stack)] == Free
      ensures ok ==> mem.own == Assign(old(mem.own), PageAt(sched.table.slots[f].stack), Stack(f))
      ensures ok ==> mem.ram == Clear(old(mem.ram), PageAt(sched.table.slots[f].stack))
    {
      var stack := mem.TakePage(Stack(f));
      ok := stack != 0;
      if ok {
        SetSlot(f, sched.table.slots[f].(stack := stack, state := Initialized, pid := sched.nextPid, waitId := 0));
        sched.nextPid := sched.nextPid + 1;
      }
    }

    static function Began(s: Spec.Sched, f: nat, stack: Word): Spec.Sched
      requires f < |s.procs|
    {
      s.(procs := s.procs[f := Spec.Pcb(s.nextPid, 0, Initialized, 0, stack, s.procs[f].file)],
        nextPid := s.nextPid + 1)
    }

    /** Give back the stack of a process that got no map, and empty its slot. */
    method AbandonSlot(f: nat)
      requires mem.Ready() && sched.table.Valid() && f < PROCESSES && Begun(f)
      modifies mem`ram, mem`freeHead, mem`free, mem`own, sched.table.slots
      ensures mem.Ready() && sched.table.Valid() && FilesView() == old(FilesView())
      ensures sched.View() == old(sched.View()).(procs := old(sched.View()).procs[f := Spec.ZeroPcb()])
      ensures mem.own == Assign(old(mem.own), PageAt(old(sched.table.slots[f].stack)), Free)
      ensures forall p: PageNo :: p == PageAt(old(sched.table.slots[f].stack)) || mem.ram[p] == old(mem.ram)[p]
    {
      mem.GivePage(sched.table.slots[f].stack);
      ResetSlot(f);
    }

    /** The second half of CreateNewProcess: a map of the kernel half. Without memory for it the slot
        is emptied again. */
    method BuildMap(f: nat) returns (ok: bool)
      requires mem.Ready() && sched.table.Valid() && f < PROCESSES && Begun(f)
      modifies mem`ram, mem`freeHead, mem`free, mem`own, sched.table.slots
      ensures mem.Ready() && sched.table.Valid() && FilesView() == old(FilesView())
      ensures !ok ==> sched.View() == old(sched.View()).(procs := old(sched.View()).procs[f := Spec.ZeroPcb()])
      ensures !ok ==> StackBack(old(mem.Now()), mem.Now(), PageAt(old(sched.table.slots[f].stack)))
      ensures ok ==>
        NewMap(old(mem.Now()), f) && sched.View() == Mapped(old(sched.View()), f, sched.table.slots[f].pageMap)
      ensures (ok <==> |old(mem.free)| >= 3) && (ok ==> |mem.free| == |old(mem.free)| - 3)
    {
      ghost var b := mem.Now();
      var pageMap := mem.SetupKVM(f);
      ok := pageMap != 0;
      if ok {
        SetSlot(f, sched.table.slots[f].(pageMap := pageMap));
      } else {
        ghost var stack := PageAt(sched.table.slots[f].stack);
        ghost var c := mem.Now();
        SameUseOthers(b, c, f);
        AbandonSlot(f);
        StackBackAfter(b, c, mem.Now(), stack);
      }
    }

    static function Mapped(s: Spec.Sched, f: nat, pageMap: Word): Spec.Sched
      requires f < |s.procs|
    {
      s.(procs := s.procs[f := s.procs[f].(pageMap := pageMap)])
    }

    static ghost predicate StackBack(b: Snapshot, c: Snapshot, u: PageNo) {
      c.own == Assign(b.own, u, Free) && forall p: PageNo :: p == u || SamePage(b, c, p)
    }

    static lemma StackBackAfter(b: Snapshot, c: Snapshot, d: Snapshot, u: PageNo)
      requires SameUse(b, c) && d.own == Assign(c.own, u, Free) && forall p: PageNo :: p == u || d.ram[p] == c.ram[p]
      ensures StackBack(b, d, u)
    {
      forall p: PageNo ensures p == u || SamePage(b, d, p) { assert SamePage(b, c, p); }
      SameUseOthers(b, c, 0);
    }

    /** Slot `f` has a new map of its own, which shows no user page yet. */
    ghost predicate NewMap(b: Snapshot, f: nat)
      requires f < sched.table.slots.Length
      reads mem, sched.table.slots
    {
      var pageMap := sched.table.slots[f].pageMap;
      && InDirectMap(pageMap) && b.own[PageAt(pageMap)] == Free && mem.own[PageAt(pageMap)] == Root(f)
      && Took(b, mem.Now(), PageAt(pageMap)) && !UserMapped(mem.ram, PageAt(pageMap))
    }

    /** Slot `f` was filled by CreateNewProcess: a stack, and a map without user page. */
    ghost predicate Created(a: Snapshot, s: Spec.Sched, f: nat)
      requires sched.table.Valid() && Spec.WellFormed(s) && f < PROCESSES
      reads mem, sched, sched.table, sched.table.slots, sched.table.heads
    {
      var stack, pageMap := sched.table.slots[f].stack, sched.table.slots[f].pageMap;
      && f == Spec.FreeSlot(s.procs) && sched.View() == Spec.Create(s, f, stack, pageMap)
      && InDirectMap(pageMap) && mem.own[PageAt(pageMap)] == Root(f) && !UserMapped(mem.ram, PageAt(pageMap))
      && Acquired(a, mem.Now(), f)
    }

    static lemma SlotSteps(s: Spec.Sched, f: nat, stack: Word, pageMap: Word)
      requires Spec.WellFormed(s) && f < PROCESSES && s.procs[f] == Spec.ZeroPcb()
      ensures Mapped(Began(s, f, stack), f, pageMap) == Spec.Create(s, f, stack, pageMap)
      ensures var t := Began(s, f, stack); t.(procs := t.procs[f := Spec.ZeroPcb()]) == s.(nextPid := s.nextPid + 1)
    {
      var t := Began(s, f, stack);
      assert t.procs[f := Spec.ZeroPcb()] == s.procs;
      assert Mapped(t, f, pageMap).procs == Spec.Create(s, f, stack, pageMap).procs;
    }

    /** The free slot `f` was begun in the state `a` and `s`. */
    ghost predicate BegunIn(f: nat, a: Snapshot, s: Spec.Sched)
      requires mem.Ready() && sched.table.Valid() && f < PROCESSES
      reads mem, sched, sched.table, sched.table.slots, sched.table.heads
    {
      && Begun(f) && Spec.Inv(s) && f == Spec.FreeSlot(s.procs)
      && s.procs[f] == Spec.ZeroPcb() && sched.View() == Began(s, f, sched.table.slots[f].stack)
      && Shape(a.ram, a.own) && SpacesOk(a.ram, a.own, mem.DirectMapped()) && PagesOwned(a.ram, a.own, s.procs)
      && var u := PageAt(sched.table.slots[f].stack);
         a.own[u] == Free && mem.own == Assign(a.own, u, Stack(f)) && mem.ram == Clear(a.ram, u)
    }

    /** The parts of the system invariant that do not speak of pages. */
    ghost predicate OthersValid()
      requires sched.table.Valid()
      reads sched.table, sched.table.slots, sched.table.heads, files.fds, files.fcbs, keyboard, keyboard.buffer
    {
      files.Valid(sched.table) && keyboard.Valid() && VolumeOk(volume)
    }

    /** The first half of CreateNewProcess, in the first free slot. */
    method BeginFreeSlot(f: nat) returns (ok: bool)
      requires Valid() && f == Spec.FreeSlot(sched.View().procs) < PROCESSES
      modifies mem`ram, mem`freeHead, mem`free, mem`own, sched`nextPid, sched.table.slots
      ensures mem.Ready() && sched.table.Valid() && FilesView() == old(FilesView())
      ensures (ok <==> old(mem.free) != []) && (ok ==> |mem.free| == |old(mem.free)| - 1)
      ensures !ok ==> Valid() && SameUse(old(mem.Now()), mem.Now()) && sched.View() == old(sched.View())
      ensures ok ==> BegunIn(f, old(mem.Now()), old(sched.View())) && OthersValid()
    {
      ghost var a, pages := mem.Now(), mem.DirectMapped();
      FreeSlotIsEmpty(sched.View(), f);
      ok := BeginProcess(f);
      assert mem.DirectMapped() == pages;
      if !ok {
        SameAsBefore(a, mem.Now());
      }
    }

    /** The second half, in a slot begun in the state `a` and `s`. */
    method CompleteSlot(f: nat, ghost a: Snapshot, ghost s: Spec.Sched) returns (ok: bool)
      requires mem.Ready() && sched.table.Valid() && f < PROCESSES && BegunIn(f, a, s) && OthersValid()
      modifies mem`ram, mem`freeHead, mem`free, mem`own, sched.table.slots
      ensures Valid() && FilesView() == old(FilesView())
      ensures !ok ==> SameUse(a, mem.Now()) && sched.View() == s.(nextPid := s.nextPid + 1)
      ensures ok ==> Created(a, s, f)
      ensures (ok <==> |old(mem.free)| >= 3) && (ok ==> |mem.free| == |old(mem.free)| - 3)
    {
      ghost var b, stack, pages := mem.Now(), sched.table.slots[f].stack, mem.DirectMapped();
      ok := BuildMap(f);
      SlotSteps(s, f, stack, sched.table.slots[f].pageMap);
      if ok {
        ProcessCreated(a, b, mem.Now(), pages, s, f, stack, sched.table.slots[f].pageMap);
      } else {
        ProcessUndone(a, b, mem.Now(), pages, s, f, stack);
      }
    }

    /** Both halves of CreateNewProcess, once a free slot is found. */
    method FillFreeSlot(f: nat) returns (ok: bool)
      requires Valid() && f == Spec.FreeSlot(sched.View().procs) < PROCESSES
      modifies mem`ram, mem`freeHead, mem`free, mem`own, sched`nextPid, sched.table.slots
      ensures Valid() && FilesView() == old(FilesView())
      ensures !ok ==> SameUse(old(mem.Now()), mem.Now())
      ensures !ok ==>
        sched.View() == if old(mem.free) == [] then old(sched.View())
        else old(sched.View()).(nextPid := old(sched.nextPid) + 1)
      ensures ok ==> old(mem.free) != [] && Created(old(mem.Now()), old(sched.View()), f)
      ensures (ok <==> |old(mem.free)| >= 4) && (ok ==> |mem.free| == |old(mem.free)| - 4)
    {
      ghost var a, s := mem.Now(), sched.View();
      ok := BeginFreeSlot(f);
      if ok {
        ok := CompleteSlot(f, a, s);
      }
    }

    /** A new process, or NULL: without a free slot or a page for the stack nothing happens at all,
        and without pages for the map a pid is used up. */
    method CreateNewProcess() returns (slot: Option<nat>)
      requires Valid()
      modifies mem`ram, mem`freeHead, mem`free, mem`own, sched`nextPid, sched.table.slots
      ensures Valid() && FilesView() == old(FilesView())
      ensures slot == None ==> SameUse(old(mem.Now()), mem.Now())
      ensures slot == None && (Spec.FreeSlot(old(sched.View()).procs) == PROCESSES || old(mem.free) == []) ==>
        sched.View() == old(sched.View())
      ensures slot == None && Spec.FreeSlot(old(sched.View()).procs) < PROCESSES && old(mem.free) != [] ==>
        sched.View() == old(sched.View()).(nextPid := old(sched.nextPid) + 1)
      ensures slot.Some? ==>
        old(mem.free) != [] && slot.value < PROCESSES && Created(old(mem.Now()), old(sched.View()), slot.value)
      ensures slot.Some? <==> Spec.FreeSlot(old(sched.View()).procs) < PROCESSES && |old(mem.free)| >= 4
      ensures slot.Some? ==> |mem.free| == |old(mem.free)| - 4
    {
      var f := FindFreeProcessSlot();
      SameAsBefore(mem.Now(), mem.Now());
      if f == PROCESSES {
        return None;
      }
      var ok := FillFreeSlot(f);
      return if ok then Some(f) else None;
    }

    // ----- Fork -----

    /** Append a slot that is in no queue to the ready list. */
    method MakeReady(f: nat)
      requires sched.Linked() && f < PROCESSES && InNoQueue(sched.table.queues, f)
      modifies sched.table.slots, sched.table.heads, sched.table`queues
      ensures sched.Linked() && FilesView() == old(FilesView())
      ensures sched.View() == Spec.SetState(old(sched.View()), f, Ready).(ready := old(sched.View()).ready + [f])
    {
      ghost var a := sched.table.slots[..];
      sched.SetState(f, Ready);
      sched.PushBack(READY, f);
      SameFiles(a, sched.table.slots[..], f);
    }

    static lemma StartSteps(s: Spec.Sched, f: nat, file: seq<Option<nat>>)
      requires Spec.WellFormed(s) && f < PROCESSES
      ensures var t := Spec.WithFile(s, f, file);
        Spec.SetState(t, f, Ready).(ready := t.ready + [f]) == Spec.Start(s, f, file)
    {
      assert Spec.SetState(Spec.WithFile(s, f, file), f, Ready).procs == Spec.Start(s, f, file).procs;
    }

    /** The child shares the open files of its parent and becomes ready. */
    method StartChild(f: nat)
      requires sched.Valid() && files.Valid(sched.table) && sched.current < PROCESSES
      requires 1 <= f < PROCESSES && f != sched.current && sched.table.slots[f].state == Initialized
        && sched.table.slots[f].file == NoFiles()
      modifies sched.table.slots, sched.table.heads, sched.table`queues, files.fds, files.fcbs
      ensures sched.Valid() && files.Valid(sched.table)
      ensures sched.View() == Spec.Start(old(sched.View()), f, old(sched.View()).procs[sched.current].file)
      ensures FilesView() == FileSpec.ShareAll(old(FilesView()), sched.current, f)
    {
      ghost var s := sched.View();
      assert Spec.Listed(s, f);
      Spec.StartKeeps(s, f, s.procs[sched.current].file);
      StartSteps(s, f, s.procs[sched.current].file);
      ShareFiles(f);
      MakeReady(f);
    }

    method ShareFiles(f: nat)
      requires sched.Linked() && files.Valid(sched.table) && sched.current < PROCESSES
      requires f < PROCESSES && f != sched.current && sched.table.slots[f].file == NoFiles()
      modifies sched.table.slots, files.fds, files.fcbs
      ensures sched.Linked() && files.Valid(sched.table)
      ensures sched.View() == Spec.WithFile(old(sched.View()), f, old(sched.table.slots[sched.current].file))
      ensures FilesView() == FileSpec.ShareAll(old(FilesView()), sched.current, f)
    {
      ghost var a := sched.table.slots[..];
      UpdatePcb(a, f, a[f].(file := a[sched.current].file));
      files.ShareAll(sched.table, sched.current, f);
    }

    static lemma SameFiles(a: seq<Process>, b: seq<Process>, f: nat)
      requires |a| == |b| && f < |a| && ToPcbs(b) == ToPcbs(a)[f := ToPcb(a[f]).(state := Ready)]
      ensures GridOf(a) == GridOf(b)
    {
      forall i | 0 <= i < |a| ensures b[i].file == a[i].file { assert ToPcbs(b)[i] == ToPcb(b[i]); }
    }

    /** The copy of the parent's user page into the child's map. */
    method CopyParent(f: nat, ghost a: Snapshot) returns (ok: bool)
      requires Valid() && 1 <= sched.current < PROCESSES && 1 <= f < PROCESSES
        && sched.table.slots[f].state == Initialized
      requires f != sched.current && mem.IsRoot(sched.table.slots[f].pageMap)
      requires mem.own[PageAt(sched.table.slots[f].pageMap)] == Root(f)
        && !UserMapped(mem.ram, PageAt(sched.table.slots[f].pageMap))
      requires Shape(a.ram, a.own) && SpacesOk(a.ram, a.own, mem.DirectMapped())
        && forall p: PageNo :: Holder(a.own, p) != Some(f)
      requires Acquired(a, mem.Now(), f)
      modifies mem`ram, mem`freeHead, mem`free, mem`own
      ensures mem.Ready() && Acquired(a, mem.Now(), f)
      ensures !ok ==> PagesOwned(mem.ram, mem.own, sched.View().procs)
      ensures ok ==>
        PagesOwned(mem.ram, mem.own, Spec.Start(sched.View(), f, sched.View().procs[sched.current].file).procs)
      ensures ok ==>
        PageCopied(old(mem.ram), mem.ram, sched.table.slots[sched.current].pageMap, sched.table.slots[f].pageMap)
      ensures (ok <==> |old(mem.free)| >= 3) && (ok ==> |mem.free| == |old(mem.free)| - 3)
      ensures !ok ==> (mem.own[PageAt(sched.table.slots[f].pageMap)] == Root(f) <==> old(mem.free) == [])
    {
      ghost var b, t, pages := mem.Now(), sched.View(), mem.DirectMapped();
      CurrentMap();
      var child, parent := sched.table.slots[f].pageMap, sched.table.slots[sched.current].pageMap;
      ok := mem.CopyUVM(child, parent, PAGE_SIZE);
      assert mem.DirectMapped() == pages;
      if ok {
        ForkCopied(a, b, mem.Now(), pages, t, f, t.procs[sched.current].file);
      } else if b.free != [] {
        ForkNotCopied(a, b, mem.Now(), pages, t, f);
        assert DroppedPage(b, mem.Now(), PageAt(child), PageAt(child));
      }
    }

    /** What Fork does for the child once its slot is filled. */
    method FinishFork(f: nat, ghost a: Snapshot, ghost parent: Word, ghost child: Word) returns (ok: bool)
      requires Valid() && 1 <= sched.current < PROCESSES && 1 <= f < PROCESSES
        && sched.table.slots[f].state == Initialized
      requires f != sched.current && sched.table.slots[f].file == NoFiles() && mem.IsRoot(child)
      requires sched.table.slots[sched.current].pageMap == parent && sched.table.slots[f].pageMap == child
      requires mem.own[PageAt(child)] == Root(f) && !UserMapped(mem.ram, PageAt(child))
      requires Shape(a.ram, a.own) && SpacesOk(a.ram, a.own, mem.DirectMapped())
        && forall p: PageNo :: Holder(a.own, p) != Some(f)
      requires Acquired(a, mem.Now(), f)
      modifies mem`ram, mem`freeHead, mem`free, mem`own, sched.table.slots, sched.table.heads, sched.table`queues,
        files.fds, files.fcbs
      ensures Valid() && Acquired(a, mem.Now(), f)
      ensures !ok ==> sched.View() == old(sched.View()) && FilesView() == old(FilesView())
      ensures ok ==> sched.View() == Spec.Start(old(sched.View()), f, old(sched.View()).procs[sched.current].file)
      ensures ok ==> FilesView() == FileSpec.ShareAll(old(FilesView()), sched.current, f)
      ensures ok ==> PageCopied(old(mem.ram), mem.ram, parent, child)
      ensures (ok <==> |old(mem.free)| >= 3) && (ok ==> |mem.free| == |old(mem.free)| - 3)
      ensures !ok ==> (mem.own[PageAt(child)] == Root(f) <==> old(mem.free) == [])
    {
      ghost var s := sched.View();
      ok := CopyParent(f, a);
      assert sched.View() == s && OthersValid();
      if ok { StartChild(f); }
    }

    /** The current process, unless idle, has a map with a user page. */
    lemma CurrentMap()
      requires Valid() && sched.current != 0
      ensures var r := sched.table.slots[sched.current].pageMap;
        sched.current < PROCESSES && mem.IsRoot(r) && mem.own[PageAt(r)] == Root(sched.current)
          && HasUserPage(mem.ram, PageAt(r))
    {
      var s := sched.View();
      assert Spec.RunningOk(s, s.current) && SlotOwns(mem.ram, mem.own, s.procs, s.current);
    }

    /** Fork after CreateNewProcess took the state from `a` and `s` here. */
    method ForkInto(f: nat, ghost a: Snapshot, ghost s: Spec.Sched) returns (r: int, ghost o: Spec.ForkOutcome)
      requires Valid() && f < PROCESSES && Spec.Inv(s) && 1 <= s.current == sched.current && Created(a, s, f)
      requires Shape(a.ram, a.own) && SpacesOk(a.ram, a.own, mem.DirectMapped()) && PagesOwned(a.ram, a.own, s.procs)
      modifies mem`ram, mem`freeHead, mem`free, mem`own, sched.table.slots, sched.table.heads, sched.table`queues,
        files.fds, files.fcbs
      ensures Valid() && (o.NoCopy? || o.Forked?) && sched.View() == Spec.Fork(s, o)
      ensures r == if o.Forked? then s.nextPid else -ENOMEM
      ensures Acquired(a, mem.Now(), f)
      ensures !o.Forked? ==> FilesView() == old(FilesView())
      ensures o.Forked? ==> FileSpec.Shared(old(FilesView()), FilesView(), s.current, f)
      ensures o.Forked? ==> PageCopied(a.ram, mem.ram, s.procs[s.current].pageMap, o.pageMap)
      ensures (o.Forked? <==> |old(mem.free)| >= 3) && (o.Forked? ==> |mem.free| == |old(mem.free)| - 3)
      ensures o.NoCopy? ==>
        InDirectMap(o.pageMap) && (mem.own[PageAt(o.pageMap)] == Root(f) <==> old(mem.free) == [])
    {
      ghost var stack, pageMap, pages := sched.table.slots[f].stack, sched.table.slots[f].pageMap, mem.DirectMapped();
      ForkIntoReady(f, a, s);
      ForkSteps(s, f, stack, pageMap);
      var ok := FinishFork(f, a, s.procs[s.current].pageMap, pageMap);
      if ok {
        r, o := sched.table.slots[f].pid, Spec.Forked(stack, pageMap);
      } else {
        r, o := -ENOMEM, Spec.NoCopy(stack, pageMap);
      }
    }

    static lemma ForkSteps(s: Spec.Sched, f: nat, stack: Word, pageMap: Word)
      requires Spec.WellFormed(s) && f == Spec.FreeSlot(s.procs) < PROCESSES && f != s.current
      ensures var t := Spec.Create(s, f, stack, pageMap);
        && Spec.Fork(s, Spec.NoCopy(stack, pageMap)) == t
        && Spec.Fork(s, Spec.Forked(stack, pageMap)) == Spec.Start(t, f, t.procs[s.current].file)
    {
    }

    lemma ForkIntoReady(f: nat, a: Snapshot, s: Spec.Sched)
      requires Valid() && f < PROCESSES && Spec.Inv(s) && 1 <= s.current == sched.current && Created(a, s, f)
      requires Shape(a.ram, a.own) && SpacesOk(a.ram, a.own, mem.DirectMapped()) && PagesOwned(a.ram, a.own, s.procs)
      ensures 1 <= f && f != s.current && (forall p: PageNo :: Holder(a.own, p) != Some(f))
        && InDirectMap(s.procs[s.current].pageMap)
      ensures var slots := sched.table.slots;
        && slots[f].state == Initialized && slots[f].file == NoFiles() && slots[f].pid == s.nextPid
           && slots[s.current].file == s.procs[s.current].file
        && slots[s.current].pageMap == s.procs[s.current].pageMap
      ensures var r := PageAt(s.procs[s.current].pageMap);
        && HasUserPage(a.ram, r) && HasUserPage(mem.ram, r) && UserPageOf(mem.ram, r) == UserPageOf(a.ram, r)
        && mem.ram[UserPageOf(a.ram, r)] == a.ram[UserPageOf(a.ram, r)]
    {
      FreeSlotFacts(a.ram, a.own, mem.DirectMapped(), s, f);
      ParentKept(a, mem.Now(), mem.DirectMapped(), s, f);
      var t := sched.View();
      assert t.procs[s.current] == s.procs[s.current] && t.procs[f].file == NoFiles();
    }

    /** Fork the current process. `o` tells how far memory lasted. */
    method Fork() returns (r: int, ghost o: Spec.ForkOutcome)
      requires Valid() && sched.current != 0
      modifies mem`ram, mem`freeHead, mem`free, mem`own, sched`nextPid, sched.table.slots, sched.table.heads,
        sched.table`queues, files.fds, files.fcbs
      ensures Valid() && sched.View() == Spec.Fork(old(sched.View()), o)
      ensures r == if o.Forked? then old(sched.nextPid) else -ENOMEM
      ensures ForkDone(old(sched.View()), old(mem.Now()), mem.Now(), old(FilesView()), FilesView(), o)
    {
      ghost var a, s, pages := mem.Now(), sched.View(), mem.DirectMapped();
      ghost var f := Spec.FreeSlot(s.procs);
      var slot := CreateNewProcess();
      assert mem.DirectMapped() == pages;
      if slot == None {
        SameUseAcquired(a, mem.Now(), f);
        return -ENOMEM, if f == PROCESSES || a.free == [] then Spec.NoSlotOrStack else Spec.NoMap;
      }
      r, o := ForkInto(slot.value, a, s);
    }

    // ----- Wait -----

    /** The memory of a killed process: `kfree(stack); FreeVM(map)`. */
    method FreeProcessMemory(x: nat, ghost procs: seq<Spec.Pcb>)
      requires mem.Ready() && PagesOwned(mem.ram, mem.own, procs) && |procs| == PROCESSES && 1 <= x < PROCESSES
        && Live(procs[x])
      requires x < sched.table.slots.Length
      requires procs[x].stack == sched.table.slots[x].stack && procs[x].pageMap == sched.table.slots[x].pageMap
      modifies mem`ram, mem`freeHead, mem`free, mem`own
      ensures mem.Ready() && Released(old(mem.Now()), mem.Now(), x)
    {
      ghost var a, pages := mem.Now(), mem.DirectMapped();
      assert SlotOwns(mem.ram, mem.own, procs, x);
      mem.GivePage(sched.table.slots[x].stack);
      ghost var b := mem.Now();
      mem.ReleaseMap(sched.table.slots[x].pageMap);
      StackAndMapReleased(a, b, mem.Now(), procs, pages, x);
    }

    /** Close the files of a process that is in no queue any more, and empty its slot. */
    method CleanSlot(x: nat)
      requires files.Valid(sched.table) && x < PROCESSES && InNoQueue(sched.table.queues, x)
      modifies sched.table.slots, files.fds, files.fcbs
      ensures files.Valid(sched.table) && FilesView() == FileSpec.CloseAll(old(FilesView()), x)
      ensures sched.View() == old(sched.View()).(procs := old(sched.View()).procs[x := Spec.ZeroPcb()])
    {
      ghost var s, a := sched.View(), sched.table.slots[..];
      files.CloseAll(sched.table, x);
      UpdatePcb(a, x, a[x].(file := NoFiles()));
      ResetSlot(x);
      assert sched.View().procs == s.procs[x := Spec.ZeroPcb()];
    }

    /** One round of the loop of Wait. With nobody killed it sleeps; if the process was killed it is
        cleaned up and Wait returns; otherwise nothing happens and the loop spins. */
    method WaitRound(pid: int) returns (done: bool)
      requires Valid() && sched.current != 0
      modifies mem`ram, mem`freeHead, mem`free, mem`own, sched, sched.table.slots, sched.table.heads,
        sched.table`queues, files.fds, files.fcbs
      ensures Valid() && sched.View() == Spec.WaitRound(old(sched.View()), pid)
      ensures done <==> Spec.Reaps(old(sched.View()), pid)
      ensures WaitDone(old(sched.View()), old(mem.Now()), mem.Now(), old(FilesView()), FilesView(), pid)
      ensures System() == old(System()).(sched := sched.View())
    {
      done := false;
      if !sched.table.ListIsEmpty(KILL) {
        done := Reap(pid);
      } else {
        Sleep(Spec.INIT_WAIT);
      }
    }

    /** Free the memory of a killed process that was just taken off its list, close its files, and empty its slot. */
    method Bury(x: nat, ghost s: Spec.Sched)
      requires mem.Ready() && PagesOwned(mem.ram, mem.own, s.procs) && files.Valid(sched.table)
        && |s.procs| == PROCESSES
      requires 1 <= x < PROCESSES && InNoQueue(sched.table.queues, x) && s.procs[x].state == Killed
        && sched.View().procs == s.procs
      modifies mem`ram, mem`freeHead, mem`free, mem`own, sched.table.slots, files.fds, files.fcbs
      ensures mem.Ready() && files.Valid(sched.table) && PagesOwned(mem.ram, mem.own, sched.View().procs)
      ensures Released(old(mem.Now()), mem.Now(), x) && FilesView() == FileSpec.CloseAll(old(FilesView()), x)
      ensures sched.View() == old(sched.View()).(procs := s.procs[x := Spec.ZeroPcb()])
    {
      ghost var a := mem.Now();
      FreeProcessMemory(x, s.procs);
      CleanSlot(x);
      ReleasedOwned(a, mem.Now(), s.procs, sched.View().procs, x);
    }

    static lemma KilledFound(s: Spec.Sched, pid: int)
      requires Spec.Inv(s) && s.current != 0 && s.kill != []
      ensures var k, t := Spec.PidPosition(s.procs, s.kill, pid), Spec.WaitRound(s, pid);
        && Spec.Inv(t) && (k == |s.kill| ==> t == s)
        && (k < |s.kill| ==> 1 <= s.kill[k] < PROCESSES && s.procs[s.kill[k]].state == Killed
                             && t == s.(procs := s.procs[s.kill[k] := Spec.ZeroPcb()], kill := Removed(s.kill, k)))
    {
      Spec.WaitRoundKeeps(s, pid);
    }

    method Reap(pid: int) returns (done: bool)
      requires Valid() && sched.current != 0 && sched.View().kill != []
      modifies mem`ram, mem`freeHead, mem`free, mem`own, sched.table.slots, sched.table.heads, sched.table`queues,
        files.fds, files.fcbs
      ensures Valid() && sched.View() == Spec.WaitRound(old(sched.View()), pid)
      ensures done <==> Spec.Reaps(old(sched.View()), pid)
      ensures WaitDone(old(sched.View()), old(mem.Now()), mem.Now(), old(FilesView()), FilesView(), pid)
    {
      ghost var s := sched.View();
      KilledFound(s, pid);
      var x := TakeOffKillList(pid);
      if x == None {
        return false;
      }
      BuryFound(x.value, s, pid);
      done := true;
    }

    /** Clean up the process that Wait found in the state `s` and took off its list. */
    method BuryFound(x: nat, ghost s: Spec.Sched, ghost pid: int)
      requires mem.Ready() && files.Valid(sched.table) && keyboard.Valid() && VolumeOk(volume)
      requires Spec.Inv(s) && s.current != 0 && PagesOwned(mem.ram, mem.own, s.procs)
      requires Spec.Reaps(s, pid) && x == s.kill[Spec.PidPosition(s.procs, s.kill, pid)]
      requires 1 <= x < PROCESSES && s.procs[x].state == Killed && InNoQueue(sched.table.queues, x)
      requires sched.View() == s.(kill := Removed(s.kill, Spec.PidPosition(s.procs, s.kill, pid)))
      modifies mem`ram, mem`freeHead, mem`free, mem`own, sched.table.slots, files.fds, files.fcbs
      ensures Valid() && sched.View() == Spec.WaitRound(s, pid)
      ensures WaitDone(s, old(mem.Now()), mem.Now(), old(FilesView()), FilesView(), pid)
    {
      KilledFound(s, pid);
      Bury(x, s);
      assert sched.View() == Spec.WaitRound(s, pid);
    }

    /** The slot of the killed process with this pid, off its list, or nothing. */
    method TakeOffKillList(pid: int) returns (x: Option<nat>)
      requires sched.Linked() && files.Valid(sched.table)
      modifies sched.table.slots, sched.table.heads, sched.table`queues
      ensures sched.Linked() && files.Valid(sched.table) && FilesView() == old(FilesView())
      ensures var s := old(sched.View()); var k := Spec.PidPosition(s.procs, s.kill, pid);
        if k == |s.kill| then x == None && sched.View() == s
        else
          x == Some(s.kill[k]) && InNoQueue(sched.table.queues, s.kill[k])
          && sched.View() == s.(kill := Removed(s.kill, k))
    {
      ghost var slots := sched.table.slots[..];
      var item := sched.TakeKilled(pid);
      GridFrame(slots, sched.table.slots[..]);
      x := if item == Null then None else Some(item.slot);
    }

    // ----- Calls that only schedule -----

    /** After a call that only schedules the rest of the kernel is as before. */
    static lemma FilesKept(a: seq<Process>, b: seq<Process>)
      requires SchedulingOnly(ToPcbs(a), ToPcbs(b))
      ensures GridOf(a) == GridOf(b)
    {
      forall i: nat | i < |a| ensures b[i].file == a[i].file { assert SamePages(ToPcbs(a)[i], ToPcbs(b)[i]); }
    }

    method Sleep(id: int)
      requires Valid() && sched.current != 0
      modifies sched, sched.table.slots, sched.table.heads, sched.table`queues
      ensures Valid() && sched.View() == Spec.Sleep(old(sched.View()), id) && FilesView() == old(FilesView())
      ensures System() == old(System()).(sched := sched.View())
    {
      ghost var s, slots := sched.View(), sched.table.slots[..];
      sched.Sleep(id);
      SleepOnlySchedules(s, id);
      FilesKept(slots, sched.table.slots[..]);
      SchedulingKeepsOwned(mem.ram, mem.own, s.procs, sched.View().procs);
    }

    method Exit()
      requires Valid() && sched.current != 0
      modifies sched, sched.table.slots, sched.table.heads, sched.table`queues
      ensures Valid() && sched.View() == Spec.Exit(old(sched.View())) && FilesView() == old(FilesView())
      ensures System() == old(System()).(sched := sched.View())
    {
      ghost var s, slots := sched.View(), sched.table.slots[..];
      sched.Exit();
      ExitOnlySchedules(s);
      FilesKept(slots, sched.table.slots[..]);
      SchedulingKeepsOwned(mem.ram, mem.own, s.procs, sched.View().procs);
    }

    method Yield()
      requires Valid()
      modifies sched, sched.table.slots, sched.table.heads, sched.table`queues
      ensures Valid() && sched.View() == Spec.Yield(old(sched.View())) && FilesView() == old(FilesView())
      ensures System() == old(System()).(sched := sched.View())
    {
      ghost var s, slots := sched.View(), sched.table.slots[..];
      sched.Yield();
      YieldOnlySchedules(s);
      FilesKept(slots, sched.table.slots[..]);
      SchedulingKeepsOwned(mem.ram, mem.own, s.procs, sched.View().procs);
    }

    method Wakeup(id: int)
      requires Valid()
      modifies sched, sched.table.slots, sched.table.heads, sched.table`queues
      ensures Valid() && sched.View() == Spec.Wakeup(old(sched.View()), id) && FilesView() == old(FilesView())
      ensures System() == old(System()).(sched := sched.View())
    {
      ghost var s, slots := sched.View(), sched.table.slots[..];
      Spec.WakeupKeeps(s, id);
      sched.Wakeup(id);
      WakeupOnlySchedules(s, id);
      FilesKept(slots, sched.table.slots[..]);
      SchedulingKeepsOwned(mem.ram, mem.own, s.procs, sched.View().procs);
    }

    // ----- Files -----

    /** Open a file for the current process. The lookup borrows a page. */
    method Open(filename: seq<Byte>, sector: PageData) returns (r: int)
      requires Valid() && NUL in filename && mem.free != []
      modifies mem`ram, mem`freeHead, mem`free, mem`own, sched.table.slots, files.fds, files.fcbs
      ensures Valid() && SameUse(old(mem.Now()), mem.Now()) && mem.free == old(mem.free) && mem.own == old(mem.own)
      ensures (FilesView(), r) == FileSpec.Open(old(FilesView()), sched.current, Lookup(volume, filename))
      ensures sched.View() == Spec.WithFile(old(sched.View()), sched.current, FilesView().grid[sched.current])
    {
      ghost var a, s, slots := mem.Now(), sched.View(), sched.table.slots[..];
      SameAsBefore(a, a);
      r := files.Open(sched.table, sched.current, volume, filename);
      FilesChanged(s, slots, sched.current);
      if r != -EMFILE && r != -ENOMEM {
        mem.BorrowPage(sector);
        SameUseKeepsOwned(a, mem.Now(), sched.View().procs);
      }
    }

    /** After a call that changed only the files of one process. */
    lemma FilesChanged(s: Spec.Sched, slots: seq<Process>, p: nat)
      requires sched.table.Valid() && |slots| == PROCESSES && ToPcbs(slots) == s.procs && Spec.Inv(s) && p == s.current
      requires OnlyFile(slots, sched.table.slots[..], p) && PagesOwned(mem.ram, mem.own, s.procs)
      requires sched.View() == s.(procs := sched.View().procs)
      ensures sched.View() == Spec.WithFile(s, p, FilesView().grid[p]) && Spec.Inv(sched.View())
      ensures PagesOwned(mem.ram, mem.own, sched.View().procs)
    {
      var now := sched.table.slots[..];
      UpdatePcb(slots, p, now[p]);
      assert sched.View().procs == Spec.WithFile(s, p, FilesView().grid[p]).procs;
      Spec.FileKeeps(s, FilesView().grid[p]);
      FileKeepsOwned(mem.ram, mem.own, s, p, FilesView().grid[p]);
    }

    method Close(fd: nat)
      requires Valid() && fd < MAX_FILES
      modifies sched.table.slots, files.fds, files.fcbs
      ensures Valid() && FileSpec.CellLinked(old(FilesView()), sched.current, fd)
      ensures FilesView() == FileSpec.Close(old(FilesView()), sched.current, fd)
      ensures sched.View() == Spec.WithFile(old(sched.View()), sched.current, FilesView().grid[sched.current])
    {
      ghost var s, slots := sched.View(), sched.table.slots[..];
      files.Close(sched.table, sched.current, fd);
      FilesChanged(s, slots, sched.current);
    }

    /** The part of Read that gets the bytes into `out`. The scratch page is borrowed. */
    method Fetch(fd: nat, out: array<Byte>, size: nat, scratch: array<Byte>, fetched: PageData) returns (r: int)
      requires Valid() && fd < MAX_FILES && mem.free != [] && ReadPossible(FilesView(), sched.current, fd, size, volume)
      requires out != scratch && scratch.Length == FatData.SCRATCH_SIZE && size <= out.Length
      requires out != keyboard.buffer && scratch != keyboard.buffer
      modifies mem`ram, mem`freeHead, mem`free, mem`own, files.fds, out, scratch
      ensures Valid() && SameUse(old(mem.Now()), mem.Now()) && mem.free == old(mem.free) && mem.own == old(mem.own)
        && sched.View() == old(sched.View())
      ensures old(FilesView()).grid[sched.current][fd].Some? ==>
        FileSpec.PositionOk(old(FilesView()), old(FilesView()).grid[sched.current][fd].value)
      ensures (FilesView(), r) == FileSpec.Read(old(FilesView()), sched.current, fd, size)
      ensures r < 0 ==> out[..] == old(out[..])
      ensures r >= 0 ==> r <= size && out[r..] == old(out[r..])
      ensures r >= 0 ==> BytesRead(old(FilesView()), sched.current, fd, r, volume, old(scratch[..]), out[..r])
    {
      ghost var a := mem.Now();
      SameAsBefore(a, a);
      r := files.Read(sched.table, sched.current, fd, out, size, volume, scratch);
      if r != -EBADF {
        mem.BorrowPage(fetched);
        SameUseKeepsOwned(a, mem.Now(), sched.View().procs);
      }
    }

    /** memcpy into the user page of the current process. */
    method StoreBytes(address: Word, data: seq<Byte>)
      requires Valid() && sched.current != 0 && InUserPage(address, |data|)
      modifies mem`ram
      ensures Valid() && Stored(old(mem.Now()), mem.Now(), sched.View().procs[sched.current].pageMap, address, data)
    {
      ghost var a := mem.Now();
      CurrentMap();
      var pageMap := sched.table.slots[sched.current].pageMap;
      var bytes := BytesOfPage(mem.ram[UserPageOf(mem.ram, PageAt(pageMap))]);
      mem.WriteUserPage(pageMap, PageOfBytes(Overwrite(bytes, address - USER_BASE, data)));
      StoredInUserPage(a, mem.Now(), pageMap, address, data);
      ContentKeepsOwned(a, mem.Now(), sched.View().procs);
    }

    /** The same, told from an earlier state in which only free pages were different. */
    method StoreFetched(address: Word, data: seq<Byte>, ghost a: Snapshot)
      requires Valid() && sched.current != 0 && InUserPage(address, |data|)
      requires Shape(a.ram, a.own) && SpacesOk(a.ram, a.own, mem.DirectMapped()) && SameUse(a, mem.Now())
      requires CurrentPageIn(a)
      modifies mem`ram
      ensures Valid() && Stored(a, mem.Now(), sched.View().procs[sched.current].pageMap, address, data)
    {
      ghost var m, pages := mem.Now(), mem.DirectMapped();
      StoreBytes(address, data);
      StoredSince(a, m, mem.Now(), pages, sched.table.slots[sched.current].pageMap, address, data);
    }

    /** The current process has its map and its user page. */
    ghost predicate CurrentPageIn(a: Snapshot)
      reads sched, sched.table, sched.table.slots
    {
      && sched.current < sched.table.slots.Length
      && var pageMap := sched.table.slots[sched.current].pageMap;
         InDirectMap(pageMap) && a.own[PageAt(pageMap)].Root? && HasUserPage(a.ram, PageAt(pageMap))
    }

    /** Read from a file of the current process to an address in its user page. */
    method Read(fd: nat, address: Word, size: nat, scratch: array<Byte>, fetched: PageData)
        returns (r: int, ghost data: seq<Byte>)
      requires Valid() && sched.current != 0 && fd < MAX_FILES && mem.free != []
        && ReadPossible(FilesView(), sched.current, fd, size, volume)
      requires InUserPage(address, size) && scratch.Length == FatData.SCRATCH_SIZE && scratch != keyboard.buffer
      modifies mem`ram, mem`freeHead, mem`free, mem`own, files.fds, scratch
      ensures Valid() && sched.View() == old(sched.View())
      ensures ReadDone(sched.View(), old(mem.Now()), mem.Now(), old(FilesView()), FilesView(), fd, address, size,
        volume,
        r, old(scratch[..]), data)
    {
      ghost var a, pages := mem.Now(), mem.DirectMapped();
      CurrentMap();
      var out := new Byte[size](_ => 0);
      r := Fetch(fd, out, size, scratch, fetched);
      assert mem.DirectMapped() == pages;
      if r < 0 {
        return r, [];
      }
      data := out[..r];
      StoreFetched(address, out[..r], a);
    }

    // ----- Exec -----

    /** The recorded size, or an error for an empty slot. */
    method GetFileSize(fd: nat) returns (size: int)
      requires Valid() && fd < MAX_FILES
      ensures FileSpec.CellLinked(FilesView(), sched.current, fd)
      ensures size == if FilesView().grid[sched.current][fd].Some? then SizeOf(FilesView(), sched.current, fd)
        else -EBADF
    {
      assert FileSpec.CellLinked(FilesView(), sched.current, fd);
      if sched.table.slots[sched.current].file[fd] == None {
        return -EBADF;
      }
      size := files.fcbs[files.fds[sched.table.slots[sched.current].file[fd].value].fcb.value].fileSize;
    }

    /** Read the whole file into a cleared buffer. */
    method ReadImage(fd: nat, image: array<Byte>, scratch: array<Byte>, fetched: PageData)
      requires Valid() && mem.free != [] && Loadable(FilesView(), sched.current, fd, volume)
      requires image.Length == PAGE_SIZE && forall i :: 0 <= i < PAGE_SIZE ==> image[i] == 0
      requires scratch.Length == FatData.SCRATCH_SIZE && scratch != keyboard.buffer && image != scratch
        && image != keyboard.buffer
      modifies mem`ram, mem`freeHead, mem`free, mem`own, files.fds, image, scratch
      ensures Valid() && mem.own == old(mem.own) && sched.View() == old(sched.View())
      ensures FileSpec.PositionOk(old(FilesView()), old(FilesView()).grid[sched.current][fd].value)
      ensures FilesView() == FileSpec.Read(old(FilesView()), sched.current, fd,
        SizeOf(old(FilesView()), sched.current, fd)).0
      ensures IsImage(image[..], old(FilesView()), sched.current, fd, volume, old(scratch[..]))
      ensures SameUse(old(mem.Now()), mem.Now())
    {
      ghost var zeros := image[..];
      var size := GetFileSize(fd);
      var read := Fetch(fd, image, size, scratch, fetched);
      assert read == size;
      assert forall i :: size <= i < PAGE_SIZE ==> image[i] == image[size..][i - size] == zeros[size..][i - size];
    }

    /** Clear the user page of the current process and read the file into it. */
    method LoadImage(fd: nat, scratch: array<Byte>, fetched: PageData) returns (ghost image: seq<Byte>)
      requires Valid() && sched.current != 0 && mem.free != [] && Loadable(FilesView(), sched.current, fd, volume)
      requires scratch.Length == FatData.SCRATCH_SIZE && scratch != keyboard.buffer
      modifies mem`ram, mem`freeHead, mem`free, mem`own, files.fds, scratch
      ensures Valid() && mem.own == old(mem.own) && sched.current < PROCESSES && sched.View() == old(sched.View())
      ensures FileSpec.PositionOk(old(FilesView()), old(FilesView()).grid[sched.current][fd].value)
      ensures FilesView() == FileSpec.Read(old(FilesView()), sched.current, fd,
        SizeOf(old(FilesView()), sched.current, fd)).0
      ensures IsImage(image, old(FilesView()), sched.current, fd, volume, old(scratch[..]))
      ensures Stored(old(mem.Now()), mem.Now(), old(sched.View()).procs[sched.current].pageMap, USER_BASE, image)
    {
      ghost var a, pages := mem.Now(), mem.DirectMapped();
      CurrentMap();
      var buffer := new Byte[PAGE_SIZE](_ => 0);
      ReadImage(fd, buffer, scratch, fetched);
      assert mem.DirectMapped() == pages;
      image := buffer[..];
      StoreFetched(USER_BASE, buffer[..], a);
    }

    /** Load the file and close it. */
    method LoadProgram(fd: nat, scratch: array<Byte>, fetched: PageData) returns (ghost image: seq<Byte>)
      requires Valid() && sched.current != 0 && mem.free != [] && Loadable(FilesView(), sched.current, fd, volume)
      requires scratch.Length == FatData.SCRATCH_SIZE && scratch != keyboard.buffer
      modifies mem`ram, mem`freeHead, mem`free, mem`own, sched.table.slots, files.fds, files.fcbs, scratch
      ensures Valid() && mem.own == old(mem.own)
      ensures ReadAndClosed(old(FilesView()), FilesView(), sched.current, fd)
      ensures sched.View() == Spec.WithFile(old(sched.View()), sched.current, FilesView().grid[sched.current])
      ensures IsImage(image, old(FilesView()), sched.current, fd, volume, old(scratch[..]))
      ensures Stored(old(mem.Now()), mem.Now(), old(sched.View()).procs[sched.current].pageMap, USER_BASE, image)
    {
      ghost var g := FilesView();
      image := LoadImage(fd, scratch, fetched);
      ghost var t := FilesView();
      Close(fd);
      ClosedAfterRead(g, t, FilesView(), sched.current, fd, volume);
    }

    /** What a program sees after Open, in the state before. */
    function Opened(filename: seq<Byte>): (r: (FileSpec.Files, int))
      requires Valid()
      reads Objects()
    {
      FileSpec.Open(FilesView(), sched.current, Lookup(volume, filename))
    }

    static lemma SameRow(s: Spec.Sched, p: nat, row: seq<Option<nat>>)
      requires p < |s.procs|
      ensures Spec.WithFile(Spec.WithFile(s, p, row), p, s.procs[p].file) == s
        && Spec.WithFile(s, p, s.procs[p].file) == s
    {
      var t := Spec.WithFile(Spec.WithFile(s, p, row), p, s.procs[p].file);
      assert t.procs == s.procs;
      assert Spec.WithFile(s, p, s.procs[p].file).procs == s.procs;
    }

    /** Exec after the file was opened, in the state `g` and `s`. */
    method Launch(fd: nat, scratch: array<Byte>, fetched: PageData, ghost g: FileSpec.Files, ghost s: Spec.Sched,
        ghost lookup: Option<FileSpec.Found>, ghost a: Snapshot)
      returns (ghost image: seq<Byte>)
      requires Valid() && 1 <= sched.current < PROCESSES && mem.free != []
        && Loadable(FilesView(), sched.current, fd, volume)
      requires scratch.Length == FatData.SCRATCH_SIZE && scratch != keyboard.buffer
      requires FileSpec.Shaped(g) && (lookup.Some? ==> lookup.value.index < FileSpec.FCBS)
      requires (FilesView(), fd) == FileSpec.Open(g, sched.current, lookup)
      requires |s.procs| == PROCESSES && s.procs[sched.current].file == g.grid[sched.current]
      requires sched.View() == Spec.WithFile(s, sched.current, FilesView().grid[sched.current])
      requires Shape(a.ram, a.own) && SpacesOk(a.ram, a.own, mem.DirectMapped()) && SameUse(a, mem.Now())
      requires CurrentPageIn(a) && sched.table.slots[sched.current].pageMap == s.procs[sched.current].pageMap
      modifies mem`ram, mem`freeHead, mem`free, mem`own, sched.table.slots, files.fds, files.fcbs, scratch
      ensures Valid() && mem.own == old(mem.own)
      ensures FilesView().grid == g.grid && sched.View() == s
      ensures ReadAndClosed(old(FilesView()), FilesView(), sched.current, fd)
      ensures IsImage(image, old(FilesView()), sched.current, fd, volume, old(scratch[..]))
      ensures Stored(a, mem.Now(), s.procs[sched.current].pageMap, USER_BASE, image)
    {
      ghost var t, b, pages := FilesView(), mem.Now(), mem.DirectMapped();
      image := LoadProgram(fd, scratch, fetched);
      StoredSince(a, b, mem.Now(), pages, s.procs[sched.current].pageMap, USER_BASE, image);
      OpenedAndClosed(g, sched.current, lookup, FilesView());
      SameRow(s, sched.current, t.grid[sched.current]);
    }

    /** There is a page for the lookup, and the file, if there is one, fits a page and can be read whole. */
    predicate CanExec(name: seq<Byte>)
      requires Valid()
      reads Objects()
    {
      NUL in name && mem.freeHead != 0 && (Opened(name).1 >= 0 ==>
        Loadable(Opened(name).0, sched.current, Opened(name).1, volume))
    }

    lemma FreePage()
      requires Valid()
      ensures mem.freeHead == 0 <==> mem.free == []
    {
      assert LinksOn(mem.ram, mem.free, 0);
    }

    /** Replace the program of the current process. A file that cannot be opened ends the process. On
        success the user page holds exactly the file, and nothing else of the process changed. */
    method Exec(filename: seq<Byte>, sector: PageData, scratch: array<Byte>, fetched: PageData)
        returns (ok: bool, ghost image: seq<Byte>)
      requires Valid() && sched.current != 0 && CanExec(filename)
      requires scratch.Length == FatData.SCRATCH_SIZE && scratch != keyboard.buffer
      modifies mem`ram, mem`freeHead, mem`free, mem`own, sched, sched.table.slots, sched.table.heads,
        sched.table`queues, files.fds, files.fcbs, scratch
      ensures Valid() && sched.View() == if ok then old(sched.View()) else Spec.Exit(old(sched.View()))
      ensures ExecDone(old(sched.View()), old(mem.Now()), mem.Now(), old(FilesView()), FilesView(), filename, volume,
        ok,
        old(scratch[..]), image)
    {
      ghost var g, s, lookup, a := FilesView(), sched.View(), Lookup(volume, filename), mem.Now();
      ghost var pages := mem.DirectMapped();
      CurrentMap();
      FreePage();
      var fd := Open(filename, sector);
      assert mem.DirectMapped() == pages;
      if fd < 0 {
        OpenedAndClosed(g, s.current, lookup, g);
        SameRow(s, s.current, []);
        Exit();
        return false, [];
      }
      image := Launch(fd, scratch, fetched, g, s, lookup, a);
      ok := true;
    }

    // ----- Boot -----

    /** RetrieveMemoryInfo and InitMemory: collect the usable pages, build the kernel's map and load it.
        Without memory for the map the kernel halts. */
    method InitMemory(bios: seq<E820>) returns (ok: bool)
      requires mem.Valid() && mem.free == [] && mem.kernelEnd > KERNEL_BASE
        && forall p: PageNo :: mem.own[p] == Reserved
      requires |bios| < MAX_REGIONS && PagesOnce(bios, mem.kernelEnd)
      requires forall e :: e in bios ==> e.address + e.length + 2 * PAGE_SIZE <= WORD_LIMIT - KERNEL_BASE
      modifies mem, sched`cr3
      ensures ok ==>
        mem.Ready() && InDirectMap(PhyToVir(sched.cr3)) && OnlyKernelMap(mem.own, PageAt(PhyToVir(sched.cr3)))
      ensures ok ==>
        forall p: PageNo :: mem.own[p] == Reserved <==> !InMap(bios, mem.kernelEnd, p)
      ensures ok && InOrder(bios) ==> PoolBelow(mem.own, mem.freeEnd)
      ensures ok <==> |MapPool(bios, mem.kernelEnd)| >= 3
      ensures ok ==> |mem.free| == |MapPool(bios, mem.kernelEnd)| - 3
    {
      mem.RetrieveMemoryInfo(bios);
      if mem.freeHead == 0 {
        return false;
      }
      ghost var own := mem.own;
      assert LinksOn(mem.ram, mem.free, 0);
      ok := BuildKernelMap();
      if ok && InOrder(bios) { PoolStaysBelow(own, mem.own, mem.freeEnd); }
    }

    /** The first map, built and loaded. */
    method BuildKernelMap() returns (ok: bool)
      requires mem.Valid() && (forall p: PageNo :: mem.own[p] == Free || mem.own[p] == Reserved)
      requires Aligned(mem.freeEnd) && KERNEL_BASE < mem.freeEnd <= VIRTUAL_END
      modifies mem`ram, mem`freeHead, mem`free, mem`own, sched`cr3
      ensures ok ==>
        mem.Ready() && InDirectMap(PhyToVir(sched.cr3)) && OnlyKernelMap(mem.own, PageAt(PhyToVir(sched.cr3)))
      ensures ok ==> SameReserved(old(mem.own), mem.own)
      ensures (ok <==> |old(mem.free)| >= 3) && (ok ==> |mem.free| == |old(mem.free)| - 3)
    {
      ghost var a, pages := mem.Now(), mem.DirectMapped();
      NoMapsYet(mem.ram, mem.own, pages);
      var kernelMap := mem.SetupKVM(0);
      ok := kernelMap != 0;
      if ok {
        assert mem.DirectMapped() == pages;
        FirstMap(a, mem.Now(), PageAt(kernelMap), pages);
        sched.cr3 := VirToPhy(kernelMap);
      }
    }

    /** A page for the file control blocks or the file descriptors. */
    method TakeTable(ghost r: PageNo) returns (ok: bool)
      requires mem.Ready() && OnlyKernelMap(mem.own, r)
      modifies mem`ram, mem`freeHead, mem`free, mem`own
      ensures mem.Ready() && OnlyKernelMap(mem.own, r) && SameReserved(old(mem.own), mem.own)
      ensures (ok <==> old(mem.free) != []) && (ok ==> |mem.free| == |old(mem.free)| - 1)
    {
      ghost var a := mem.own;
      var page := mem.TakePage(Kernel);
      ok := page != 0;
      if ok { KernelTakes(a, mem.own, PageAt(page), r); }
    }

    /** InitFileSystem: read the boot sector through a scratch page and check its signatures, then allocate the
        two tables. Without memory for them, or with a wrong signature, the kernel halts. */
    method InitFileSystem(ghost r: PageNo, sector: PageData) returns (ok: bool)
      requires mem.Ready() && OnlyKernelMap(mem.own, r) && VolumeOk(volume)
      modifies mem`ram, mem`freeHead, mem`free, mem`own
      ensures mem.Ready() && OnlyKernelMap(mem.own, r) && SameReserved(old(mem.own), mem.own)
      ensures ok <==>
        && |old(mem.free)| >= 2
        && volume.disk[0][510] == 0x55 && volume.disk[0][511] == 0xAA && volume.disk[0][38] == 0x29
      ensures ok ==> |mem.free| == |old(mem.free)| - 2
    {
      if mem.freeHead == 0 {
        return false;
      }
      assert LinksOn(mem.ram, mem.free, 0);
      mem.BorrowPage(sector);
      if !SignaturesOk(volume) {
        return false;
      }
      ok := TakeTable(r);
      if ok {
        ok := TakeTable(r);
      }
    }

    /** The first slot becomes the idle process, on the kernel's map. */
    method InitIdle(ghost r: PageNo)
      requires mem.Ready() && OnlyKernelMap(mem.own, r) && sched.cr3 == VirToPhy(PageVirtual(r))
      requires sched.Linked()
        && sched.View() == Spec.Sched(seq(PROCESSES, _ => Spec.ZeroPcb()), [], [], [], 0, 1, sched.cr3)
      modifies sched`current, sched.table.slots
      ensures sched.Valid() && PagesOwned(mem.ram, mem.own, sched.View().procs) && FilesView() == old(FilesView())
      ensures var s := sched.View();
        && s.procs[0].pid == 0 && s.procs[0].state == Running && s.current == 0 && s.ready == s.wait == s.kill == []
           && s.nextPid == 1
        && forall i :: 1 <= i < PROCESSES ==> s.procs[i] == Spec.ZeroPcb()
    {
      var slot := FindFreeProcessSlot();
      assert sched.View().procs[0].state == Unused;
      SetSlot(slot, sched.table.slots[slot].(pid := 0, pageMap := PhyToVir(sched.cr3), state := Running));
      sched.current := slot;
      IdleRuns(sched.View());
      IdleOwned(mem.ram, mem.own, sched.View().procs, r);
    }

    static const INIT_PROCESS_BASE := 0x2_0000
    static const INIT_PROCESS_SIZE := 512 * 20

    /** The shell: a new process whose user page starts with the program the boot loader left in memory. */
    method InitShell() returns (ok: bool)
      requires Valid() && mem.kernelEnd > KERNEL_BASE && sched.table.slots[0].state == Running && sched.current == 0
      requires sched.View().ready == [] && forall i :: 1 <= i < PROCESSES ==> sched.View().procs[i] == Spec.ZeroPcb()
      modifies mem`ram, mem`freeHead, mem`free, mem`own, sched`nextPid, sched.table.slots, sched.table.heads,
        sched.table`queues
      ensures ok ==> Valid() && FilesView() == old(FilesView()) && SameReserved(old(mem.own), mem.own)
      ensures ok ==>
        sched.View() == Spec.Start(Spec.Create(old(sched.View()), 1, sched.table.slots[1].stack,
        sched.table.slots[1].pageMap), 1, NoFiles())
      ensures ok ==> ShellLoaded(old(mem.ram), mem.ram, sched.table.slots[1].pageMap)
      ensures (ok <==> |old(mem.free)| >= 7) && (ok ==> |mem.free| == |old(mem.free)| - 7)
    {
      ghost var a, s, pages := mem.Now(), sched.View(), mem.DirectMapped();
      FirstIsFree(s);
      assert AboveKernel(a.own, mem.kernelEnd, 0);
      var slot := CreateNewProcess();
      assert mem.DirectMapped() == pages;
      ok := slot.Some?;
      if ok {
        ok := ShellInSlot(a, s);
      }
    }

    static lemma FirstIsFree(s: Spec.Sched)
      requires Spec.WellFormed(s) && s.procs[0].state == Running && s.procs[1] == Spec.ZeroPcb()
      ensures Spec.FreeSlot(s.procs) == 1
    {
    }

    /** InitShellProcess once its slot was filled, in the state `a` and `s`. */
    method ShellInSlot(ghost a: Snapshot, ghost s: Spec.Sched) returns (ok: bool)
      requires Valid() && mem.kernelEnd > KERNEL_BASE && Spec.Inv(s) && Created(a, s, 1)
      requires Shape(a.ram, a.own) && SpacesOk(a.ram, a.own, mem.DirectMapped()) && PagesOwned(a.ram, a.own, s.procs)
      requires a.own[0] == Reserved
      modifies mem`ram, mem`freeHead, mem`free, mem`own, sched.table.slots, sched.table.heads, sched.table`queues
      ensures ok ==> Valid() && FilesView() == old(FilesView()) && SameReserved(a.own, mem.own)
      ensures ok ==>
        sched.View() == Spec.Start(Spec.Create(s, 1, sched.table.slots[1].stack, sched.table.slots[1].pageMap), 1,
        NoFiles())
      ensures ok ==> ShellLoaded(a.ram, mem.ram, sched.table.slots[1].pageMap)
      ensures (ok <==> |old(mem.free)| >= 3) && (ok ==> |mem.free| == |old(mem.free)| - 3)
    {
      ghost var t := sched.View();
      FirstSlot(a, mem.Now(), mem.DirectMapped(), s);
      ok := StartShell(1, a);
      if ok {
        StartedSlot(t, 1);
      }
    }

    static lemma FirstSlot(a: Snapshot, b: Snapshot, pages: nat, s: Spec.Sched)
      requires Shape(a.ram, a.own) && SpacesOk(a.ram, a.own, pages) && PagesOwned(a.ram, a.own, s.procs) && Spec.Inv(s)
      requires Spec.FreeSlot(s.procs) == 1 && Acquired(a, b, 1) && a.own[0] == Reserved
      ensures (forall p: PageNo :: Holder(a.own, p) != Some(1)) && b.ram[0] == a.ram[0] && s.procs[1] == Spec.ZeroPcb()
    {
      FreeSlotFacts(a.ram, a.own, pages, s, 1);
      assert AcquiredPage(a, b, 1, 0);
    }

    /** Becoming ready changes neither stack nor map. */
    lemma StartedSlot(t: Spec.Sched, f: nat)
      requires sched.table.Valid() && Spec.WellFormed(t) && f < PROCESSES && sched.View() == Spec.Start(t, f, NoFiles())
      ensures sched.table.slots[f].stack == t.procs[f].stack && sched.table.slots[f].pageMap == t.procs[f].pageMap
    {
      assert sched.View().procs[f] == ToPcb(sched.table.slots[f]);
    }

    /** What InitShellProcess does once the slot is filled. */
    method StartShell(f: nat, ghost a: Snapshot) returns (ok: bool)
      requires Valid() && 1 <= f < PROCESSES && sched.table.slots[f].state == Initialized && mem.kernelEnd > KERNEL_BASE
      requires sched.table.slots[f].file == NoFiles() && mem.IsRoot(sched.table.slots[f].pageMap)
      requires mem.own[PageAt(sched.table.slots[f].pageMap)] == Root(f)
        && !UserMapped(mem.ram, PageAt(sched.table.slots[f].pageMap))
      requires Shape(a.ram, a.own) && SpacesOk(a.ram, a.own, mem.DirectMapped())
        && forall p: PageNo :: Holder(a.own, p) != Some(f)
      requires Acquired(a, mem.Now(), f)
      modifies mem`ram, mem`freeHead, mem`free, mem`own, sched.table.slots, sched.table.heads, sched.table`queues
      ensures ok ==> Valid() && FilesView() == old(FilesView()) && SameReserved(a.own, mem.own)
      ensures ok ==> sched.View() == Spec.Start(old(sched.View()), f, NoFiles())
      ensures ok ==> ShellLoaded(old(mem.ram), mem.ram, sched.View().procs[f].pageMap)
      ensures (ok <==> |old(mem.free)| >= 3) && (ok ==> |mem.free| == |old(mem.free)| - 3)
    {
      ghost var t := sched.View();
      Spec.StartKeeps(t, f, NoFiles());
      assert Spec.Listed(t, f);
      ok := LoadShell(f, a);
      if ok {
        AcquiredKeepsPool(a, mem.Now(), f);
        MakeReady(f);
        assert sched.View().procs == Spec.Start(t, f, NoFiles()).procs;
      }
    }

    /** The user page of the map starts with the words that were at the place of the program. */
    static ghost predicate ShellLoaded(a: Ram, b: Ram, pageMap: Word) {
      && InDirectMap(pageMap) && HasUserPage(b, PageAt(pageMap))
      && forall i :: 0 <= i < PAGE_WORDS ==>
        b[UserPageOf(b, PageAt(pageMap))][i] == if i < 1280 then a[0][0x4000 + i] else 0
    }

    method LoadShell(f: nat, ghost a: Snapshot) returns (ok: bool)
      requires Valid() && 1 <= f < PROCESSES && sched.table.slots[f].state == Initialized && mem.kernelEnd > KERNEL_BASE
      requires mem.IsRoot(sched.table.slots[f].pageMap) && mem.own[PageAt(sched.table.slots[f].pageMap)] == Root(f)
      requires !UserMapped(mem.ram, PageAt(sched.table.slots[f].pageMap))
      requires Shape(a.ram, a.own) && SpacesOk(a.ram, a.own, mem.DirectMapped())
        && forall p: PageNo :: Holder(a.own, p) != Some(f)
      requires Acquired(a, mem.Now(), f)
      modifies mem`ram, mem`freeHead, mem`free, mem`own
      ensures mem.Ready() && (ok ==> Acquired(a, mem.Now(), f))
      ensures ok ==> PagesOwned(mem.ram, mem.own, Spec.Start(sched.View(), f, NoFiles()).procs)
      ensures ok ==> ShellLoaded(old(mem.ram), mem.ram, sched.table.slots[f].pageMap)
      ensures (ok <==> |old(mem.free)| >= 3) && (ok ==> |mem.free| == |old(mem.free)| - 3)
    {
      ghost var b, t, pages := mem.Now(), sched.View(), mem.DirectMapped();
      assert AboveKernel(mem.own, mem.kernelEnd, 0);
      ok := mem.SetupUVM(sched.table.slots[f].pageMap, PhyToVir(INIT_PROCESS_BASE), INIT_PROCESS_SIZE);
      assert mem.DirectMapped() == pages;
      if ok { ForkCopied(a, b, mem.Now(), pages, t, f, NoFiles()); }
    }

    /** The globals before boot. */
    ghost predicate Zeroed()
      reads this, Objects()
    {
      && ticks == 0 && places == seq(PROCESSES, _ => Systems.User) && accepted == [] && delivered == []
      && keyboard.State() == Ring(seq(BUFFER_SIZE, _ => 0), 0, 0)
      && mem.Valid() && mem.free == [] && mem.kernelEnd > KERNEL_BASE && (forall p: PageNo :: mem.own[p] == Reserved)
      && sched.Linked() && sched.View() == Spec.Sched(seq(PROCESSES, _ => Spec.ZeroPcb()), [], [], [], 0, 1, sched.cr3)
      && files.fds.Length == FileSpec.FDS && files.fcbs.Length == FileSpec.FCBS
      && (forall f :: 0 <= f < FileSpec.FDS ==> files.fds[f] == FileSpec.ZeroFd())
      && (forall c :: 0 <= c < FileSpec.FCBS ==> files.fcbs[c] == FileSpec.ZeroFcb())
    }

    lemma ZeroedFiles()
      requires Zeroed()
      ensures files.Valid(sched.table)
    {
      forall p, i | 0 <= p < PROCESSES && 0 <= i < |FilesView().grid[p]| ensures FilesView().grid[p][i] == None {
        assert sched.View().procs[p] == Spec.ZeroPcb();
      }
      forall p | 0 <= p < PROCESSES ensures |FilesView().grid[p]| == MAX_FILES {
        assert sched.View().procs[p] == Spec.ZeroPcb();
      }
      FileSpec.EmptyTablesExact(FilesView());
    }

    /** The memory and file part of KMain. */
    method BootMemory(bios: seq<E820>, sector: PageData) returns (ok: bool)
      requires Zeroed() && VolumeOk(volume) && |bios| < MAX_REGIONS && PagesOnce(bios, mem.kernelEnd)
      requires forall e :: e in bios ==> e.address + e.length + 2 * PAGE_SIZE <= WORD_LIMIT - KERNEL_BASE
      modifies mem, sched`cr3
      ensures ok ==>
        mem.Ready() && InDirectMap(PhyToVir(sched.cr3)) && OnlyKernelMap(mem.own, PageAt(PhyToVir(sched.cr3)))
      ensures ok ==>
        forall p: PageNo :: mem.own[p] == Reserved <==> !InMap(bios, mem.kernelEnd, p)
      ensures ok && InOrder(bios) ==> PoolBelow(mem.own, mem.freeEnd)
      ensures ok <==>
        && |MapPool(bios, mem.kernelEnd)| >= 5
        && volume.disk[0][510] == 0x55 && volume.disk[0][511] == 0xAA && volume.disk[0][38] == 0x29
      ensures ok ==> |mem.free| == |MapPool(bios, mem.kernelEnd)| - 5
    {
      ok := InitMemory(bios);
      if ok {
        ghost var own := mem.own;
        ok := InitFileSystem(PageAt(PhyToVir(sched.cr3)), sector);
        if InOrder(bios) { PoolStaysBelow(own, mem.own, mem.freeEnd); }
      }
    }

    /** The parts of KMain one after the other. */
    method BootAll(bios: seq<E820>, sector: PageData) returns (ok: bool)
      requires Zeroed() && keyboard.Valid() && VolumeOk(volume) && |bios| < MAX_REGIONS
        && PagesOnce(bios, mem.kernelEnd)
      requires forall e :: e in bios ==> e.address + e.length + 2 * PAGE_SIZE <= WORD_LIMIT - KERNEL_BASE
      modifies mem, sched, sched.table.slots, sched.table.heads, sched.table`queues
      ensures ok ==> Valid() && Runs.Initial(sched.View())
      ensures ok ==>
        forall p: PageNo :: mem.own[p] == Reserved <==> !InMap(bios, mem.kernelEnd, p)
      ensures ok && InOrder(bios) ==> PoolBelow(mem.own, mem.freeEnd)
      ensures ok <==>
        && |MapPool(bios, mem.kernelEnd)| >= 12
        && volume.disk[0][510] == 0x55 && volume.disk[0][511] == 0xAA && volume.disk[0][38] == 0x29
      ensures ok ==> |mem.free| == |MapPool(bios, mem.kernelEnd)| - 12
    {
      ZeroedFiles();
      ok := BootMemory(bios, sector);
      if !ok {
        return;
      }
      ghost var own := mem.own;
      ok := BootProcesses(PageAt(PhyToVir(sched.cr3)));
      if ok && InOrder(bios) { PoolStaysBelow(own, mem.own, mem.freeEnd); }
    }

    /** KMain. It needs twelve pages: three for the kernel's map, two for the file tables, seven for the
        shell. With them and the signatures in
        the boot sector it does not halt: the idle process runs, the shell is ready, the system invariant
        holds, and the pages in the kernel's hands are exactly the usable ones of the BIOS map. */
    method Boot(bios: seq<E820>, sector: PageData) returns (ok: bool)
      requires Zeroed() && keyboard.Valid() && VolumeOk(volume) && |bios| < MAX_REGIONS
        && PagesOnce(bios, mem.kernelEnd)
      requires forall e :: e in bios ==> e.address + e.length + 2 * PAGE_SIZE <= WORD_LIMIT - KERNEL_BASE
      modifies mem, sched, sched.table.slots, sched.table.heads, sched.table`queues
      ensures ok ==>
        Stable() && Runs.Initial(sched.View()) && System() == Systems.Booted(sched.View(), seq(BUFFER_SIZE, _ => 0))
      ensures ok ==>
        forall p: PageNo :: mem.own[p] == Reserved <==> !InMap(bios, mem.kernelEnd, p)
      ensures ok && InOrder(bios) ==> PoolBelow(mem.own, mem.freeEnd)
      ensures ok <==>
        && |MapPool(bios, mem.kernelEnd)| >= 12
        && volume.disk[0][510] == 0x55 && volume.disk[0][511] == 0xAA && volume.disk[0][38] == 0x29
      ensures ok ==> |mem.free| == |MapPool(bios, mem.kernelEnd)| - 12
    {
      ok := BootAll(bios, sector);
    }

    /** InitProcess. */
    method BootProcesses(ghost r: PageNo) returns (ok: bool)
      requires mem.Ready() && mem.kernelEnd > KERNEL_BASE && OnlyKernelMap(mem.own, r)
        && sched.cr3 == VirToPhy(PageVirtual(r))
      requires sched.Linked()
        && sched.View() == Spec.Sched(seq(PROCESSES, _ => Spec.ZeroPcb()), [], [], [], 0, 1, sched.cr3)
      requires files.Valid(sched.table) && keyboard.Valid() && VolumeOk(volume)
      modifies mem`ram, mem`freeHead, mem`free, mem`own, sched`current, sched`nextPid, sched.table.slots,
        sched.table.heads, sched.table`queues
      ensures ok ==>
        Valid() && Runs.Initial(sched.View()) && FilesView() == old(FilesView()) && SameReserved(old(mem.own), mem.own)
      ensures (ok <==> |old(mem.free)| >= 7) && (ok ==> |mem.free| == |old(mem.free)| - 7)
    {
      InitIdle(r);
      ok := InitShell();
    }

    // ----- Interrupts and system calls -----

    /** The idle process is never parked, and a parked reader named an address in its user page. */
    static predicate PlacesOk(places: seq<Systems.Place>) {
      && |places| == PROCESSES && places[0] == Systems.User
      && forall i :: 0 <= i < |places| && places[i].InRead? ==> InUserPage(places[i].address, 1)
    }

    /** The system invariant between two steps. */
    ghost predicate Stable()
      reads this, Objects()
    {
      Valid() && PlacesOk(places)
    }

    /** The part of the state that SystemRuns follows. */
    ghost function System(): Systems.System
      requires |sched.table.queues| == 3
      reads this, Objects(), sched.table
    {
      Systems.System(sched.View(), ticks, places, keyboard.State(), accepted, delivered)
    }

    /** The timer interrupt. */
    method TimerInterrupt()
      requires Stable()
      modifies this`ticks, sched, sched.table.slots, sched.table.heads, sched.table`queues
      ensures Stable() && FilesView() == old(FilesView()) && System() == Systems.Ticked(old(System()))
    {
      ghost var s := System();
      ticks := ticks + 1;
      Wakeup(Spec.NORMAL_WAIT);
      assert System() == s.(ticks := s.ticks + 1, sched := Spec.Wakeup(s.sched, Spec.NORMAL_WAIT));
      Yield();
    }

    /** A key that gives a character goes to the buffer and wakes its readers. */
    method AcceptKey(c: Byte)
      requires Valid() && |places| == PROCESSES
      modifies this`accepted, keyboard`end, keyboard.buffer, sched, sched.table.slots, sched.table.heads,
        sched.table`queues
      ensures Valid() && FilesView() == old(FilesView()) && System() == Systems.Pushed(old(System()), c)
    {
      ghost var s := System();
      accepted := if |keyboard.Contents()| == BUFFER_SIZE - 1 then accepted else accepted + [c];
      keyboard.WriteKeyBuffer(c);
      assert System() == s.(ring := Push(s.ring, c), accepted := accepted);
      Wakeup(Spec.KEYBOARD_WAIT);
    }

    /** The keyboard interrupt: a scan code that gives a character appends it and wakes the readers, any
        other one only moves the modifier flags. */
    method KeyboardHandler(code: Byte)
      requires Valid() && |places| == PROCESSES
      modifies this`accepted, keyboard, keyboard.buffer, sched, sched.table.slots, sched.table.heads, sched.table`queues
      ensures Valid() && FilesView() == old(FilesView()) && keyboard.flags == NextFlags(old(keyboard.flags), code)
      ensures var c := Decoded(old(keyboard.flags), code);
        System() == if Signed(c) > 0 then Systems.Pushed(old(System()), c) else old(System())
    {
      ghost var s := System();
      var c := keyboard.ReadCharacter(code);
      assert System() == s;
      if Signed(c) > 0 {
        AcceptKey(c);
      }
    }

    /** Sleep inside a system call, which goes on at `place`. */
    method SleepAt(place: Systems.Place, id: int)
      requires Stable() && sched.current != 0 && (place.InRead? ==> InUserPage(place.address, 1))
      modifies this`places, sched, sched.table.slots, sched.table.heads, sched.table`queues
      ensures Stable() && FilesView() == old(FilesView())
      ensures System() == Systems.At(old(System()), place).(sched := Spec.Sleep(old(sched.View()), id))
    {
      var current := sched.current;
      Sleep(id);
      places := places[current := place];
    }

    /** The loop of SysSleep, at its test. */
    method SleepLoop(start: nat, n: nat, rounds: nat)
      requires Stable() && sched.current != 0
      modifies this`places, sched, sched.table.slots, sched.table.heads, sched.table`queues
      ensures Stable() && FilesView() == old(FilesView())
        && System() == Systems.SleepLoop(old(System()), start, n, rounds)
    {
      if ticks - start < n {
        SleepAt(Systems.InSleep(start, n, rounds + 1), Spec.NORMAL_WAIT);
      } else {
        places := places[sched.current := Systems.User];
      }
    }

    /** ReadKeyBuffer on behalf of SysRead, up to its end or up to the sleep on an empty buffer. */
    method ReadKey(address: Word)
      requires Stable() && sched.current != 0 && InUserPage(address, 1)
      modifies this`places, this`delivered, mem`ram, keyboard`front, sched, sched.table.slots, sched.table.heads,
        sched.table`queues
      ensures Stable() && FilesView() == old(FilesView()) && System() == Systems.ReadKey(old(System()), address)
      ensures mem.own == old(mem.own)
      ensures old(keyboard.front) == old(keyboard.end) ==> mem.Now() == old(mem.Now())
      ensures old(keyboard.front) != old(keyboard.end) ==>
        Stored(old(mem.Now()), mem.Now(), old(sched.View()).procs[old(sched.current)].pageMap, address,
          [old(keyboard.buffer[keyboard.front])])
    {
      var front := keyboard.front;
      if front == keyboard.end {
        SleepAt(Systems.InRead(front, address), Spec.KEYBOARD_WAIT);
      } else {
        TakeKey(front, address);
      }
    }

    /** The end of ReadKeyBuffer, after the possible sleep, and the store of the key by SysRead. */
    method TakeKey(at: Systems.RingIndex, address: Word)
      requires Stable() && sched.current != 0 && InUserPage(address, 1)
      modifies this`places, this`delivered, mem`ram, keyboard`front
      ensures Stable() && FilesView() == old(FilesView()) && System() == Systems.TakeKey(old(System()), at)
      ensures Stored(old(mem.Now()), mem.Now(), sched.View().procs[sched.current].pageMap, address,
        [old(keyboard.buffer[at])])
    {
      var key := keyboard.TakeKey(at);
      places := places[sched.current := Systems.User];
      delivered := delivered + [key];
      StoreBytes(address, [key]);
    }

    /** The loop of Wait, as far as it gets without another process. */
    method WaitLoop(pid: int)
      requires Stable() && sched.current != 0
      modifies this`places, mem`ram, mem`freeHead, mem`free, mem`own, sched, sched.table.slots, sched.table.heads,
        sched.table`queues, files.fds, files.fcbs
      ensures Stable() && System() == Systems.WaitLoop(old(System()), pid)
      ensures WaitDone(old(sched.View()), old(mem.Now()), mem.Now(), old(FilesView()), FilesView(), pid)
    {
      var current := sched.current;
      var done := WaitRound(pid);
      places := places[current := if done then Systems.User else Systems.InWait(pid)];
    }

    // ----- The traps that the model follows -----

    predicate CanRead(fd: nat, address: Word, size: nat)
      requires Valid()
      reads Objects()
    {
      && fd != STANDARD_INPUT && fd < MAX_FILES && InUserPage(address, size)
      && mem.freeHead != 0 && ReadPossible(FilesView(), sched.current, fd, size, volume)
    }

    /** Calls on which the code does what the model says: buffers lie in the user page, descriptors are in
        range, there is a page for the lookup or the read, and a read fits the scratch page. A store of
        user mode elsewhere than to the user page is a fault. */
    predicate FollowsCall(t: Trap)
      requires Valid()
      reads Objects()
    {
      match t
      case KeyCall(address) => InUserPage(address, 1)
      case OpenCall(name) => NUL in name && mem.freeHead != 0
      case CloseCall(fd) => fd < MAX_FILES
      case ReadCall(fd, address, size) => CanRead(fd, address, size)
      case ExecCall(name) => CanExec(name)
      case UserStore(address, data) => InUserPage(address, |data|)
      case _ => true
    }

    /** A parked process resumes before anything else can happen; the idle process makes no calls. */
    predicate Follows(t: Trap)
      requires Stable()
      reads this, Objects()
    {
      && (t.Resume? <==> places[sched.current] != Systems.User)
      && (t.Timer? || t.Key? || (sched.current != 0 && FollowsCall(t)))
    }

    /** What the model follows: of a parked process that it resumes; otherwise every interrupt from outside; of a
        process in user mode every fault and every fork, exit, wait and sleep; and the other calls as far as
        their buffers lie in the two megabytes of the process, with a free page where one is needed. */
    lemma WhatIsFollowed(t: Trap)
      requires Stable()
      ensures places[sched.current] != Systems.User ==> sched.current != 0 && (Follows(t) <==> t == Resume)
      ensures places[sched.current] == Systems.User && (t.Timer? || t.Key?) ==> Follows(t)
      ensures places[sched.current] == Systems.User && !t.Timer? && !t.Key? && sched.current == 0 ==> !Follows(t)
      ensures places[sched.current] == Systems.User && sched.current != 0 ==>
        match t
        case Resume => !Follows(t)
        case KeyCall(address) => Follows(t) <==> 0x40_0000 <= address < 0x60_0000
        case UserStore(address, data) => Follows(t) <==> 0x40_0000 <= address <= 0x60_0000 - |data|
        case OpenCall(name) => Follows(t) <==> (0 as Byte) in name && mem.free != []
        case CloseCall(fd) => Follows(t) <==> fd < 100
        case ReadCall(fd, address, size) =>
          Follows(t) ==> 1 <= fd < 100 && 0x40_0000 <= address <= 0x60_0000 - size && mem.free != []
        case ExecCall(name) => Follows(t) ==> (0 as Byte) in name && mem.free != []
        case _ => Follows(t)
    {
      FreePage();
    }

    // ----- One step -----

    ghost function Now(): Moment
      requires |sched.table.queues| == 3
      reads this, Objects(), sched.table
    {
      Moment(System(), mem.Now(), FilesView(), keyboard.flags)
    }

    /** The step keeps the system invariant, and is one in the sense of KernelSteps. */
    twostate predicate Moved(t: Trap, a: Systems.Act)
      requires old(Stable()) && old(allocated(this))
      reads this, Objects()
    {
      Stable() && Stepped(old(Now()), Now(), t, a, volume)
    }

    method ServeTimer() returns (ghost a: Systems.Act)
      requires Stable() && places[sched.current] == Systems.User
      modifies this`ticks, sched, sched.table.slots, sched.table.heads, sched.table`queues
      ensures Moved(Timer, a)
    {
      ghost var m := Now();
      TimerInterrupt();
      a := Systems.TimerTick;
      TimerSteps(m, Now(), volume);
    }

    method ServeKeyboard(code: Byte) returns (ghost a: Systems.Act)
      requires Stable() && places[sched.current] == Systems.User
      modifies this`accepted, keyboard, keyboard.buffer, sched, sched.table.slots, sched.table.heads, sched.table`queues
      ensures Moved(Key(code), a)
    {
      ghost var m := Now();
      KeyboardHandler(code);
      a := KeyboardSteps(m, Now(), code, volume);
    }

    method ServeExit(t: Trap) returns (ghost a: Systems.Act)
      requires Stable() && sched.current != 0 && places[sched.current] == Systems.User && (t.ExitCall? || t.Fault?)
      modifies sched, sched.table.slots, sched.table.heads, sched.table`queues
      ensures Moved(t, a)
    {
      ghost var m := Now();
      Exit();
      a := Systems.CallExit;
      CallSteps(m, Now(), t, a, volume);
    }

    method ServeSleep(n: nat) returns (ghost a: Systems.Act)
      requires Stable() && sched.current != 0 && places[sched.current] == Systems.User
      modifies this`places, sched, sched.table.slots, sched.table.heads, sched.table`queues
      ensures Moved(SleepCall(n), a)
    {
      ghost var m := Now();
      SleepLoop(ticks, n, 0);
      a := Systems.CallSleep(n);
      CallSteps(m, Now(), SleepCall(n), a, volume);
    }

    /** Not a call: the process stores to its own page. */
    method ServeStore(address: Word, data: seq<Byte>) returns (ghost a: Systems.Act)
      requires Stable() && sched.current != 0 && places[sched.current] == Systems.User && InUserPage(address, |data|)
      modifies mem`ram
      ensures Moved(UserStore(address, data), a)
    {
      ghost var m := Now();
      StoreBytes(address, data);
      a := Systems.Quiet;
      CallSteps(m, Now(), UserStore(address, data), a, volume);
    }

    method ServeKey(address: Word) returns (ghost a: Systems.Act)
      requires Stable() && sched.current != 0 && places[sched.current] == Systems.User && InUserPage(address, 1)
      modifies this`places, this`delivered, mem`ram, keyboard`front, sched, sched.table.slots, sched.table.heads,
        sched.table`queues
      ensures Moved(KeyCall(address), a)
    {
      ghost var m := Now();
      ReadKey(address);
      a := Systems.CallRead(address);
      CallSteps(m, Now(), KeyCall(address), a, volume);
    }

    method ServeWait(pid: int) returns (ghost a: Systems.Act)
      requires Stable() && sched.current != 0 && places[sched.current] == Systems.User
      modifies this`places, mem`ram, mem`freeHead, mem`free, mem`own, sched, sched.table.slots, sched.table.heads,
        sched.table`queues, files.fds, files.fcbs
      ensures Moved(WaitCall(pid), a)
    {
      ghost var m := Now();
      WaitLoop(pid);
      a := Systems.CallWait(pid);
      CallSteps(m, Now(), WaitCall(pid), a, volume);
    }

    method ServeFork() returns (ghost a: Systems.Act)
      requires Stable() && sched.current != 0 && places[sched.current] == Systems.User
      modifies mem`ram, mem`freeHead, mem`free, mem`own, sched`nextPid, sched.table.slots, sched.table.heads,
        sched.table`queues, files.fds, files.fcbs
      ensures Moved(ForkCall, a)
    {
      ghost var m := Now();
      var r;
      ghost var o;
      r, o := Fork();
      a := Systems.CallFork(o);
      CallSteps(m, Now(), ForkCall, a, volume);
    }

    /** The process that was switched to goes on where it slept. */
    method ServeResume() returns (ghost a: Systems.Act)
      requires Stable() && places[sched.current] != Systems.User
      modifies this`places, this`delivered, mem`ram, mem`freeHead, mem`free, mem`own, keyboard`front, sched,
        sched.table.slots, sched.table.heads, sched.table`queues, files.fds, files.fcbs
      ensures Moved(Resume, a)
    {
      var place := places[sched.current];
      if place.InSleep? {
        a := ResumeSleep(place);
      } else if place.InRead? {
        a := ResumeRead(place);
      } else {
        a := ResumeWait(place);
      }
    }

    method ResumeSleep(place: Systems.Place) returns (ghost a: Systems.Act)
      requires Stable() && sched.current != 0 && places[sched.current] == place && place.InSleep?
      modifies this`places, sched, sched.table.slots, sched.table.heads, sched.table`queues
      ensures Moved(Resume, a)
    {
      ghost var m := Now();
      SleepLoop(place.start, place.n, place.rounds);
      ResumeSteps(m, Now(), volume);
      a := Systems.Resume;
    }

    method ResumeRead(place: Systems.Place) returns (ghost a: Systems.Act)
      requires Stable() && sched.current != 0 && places[sched.current] == place && place.InRead?
      modifies this`places, this`delivered, mem`ram, keyboard`front
      ensures Moved(Resume, a)
    {
      ghost var m := Now();
      TakeKey(place.at, place.address);
      ResumeSteps(m, Now(), volume);
      a := Systems.Resume;
    }

    method ResumeWait(place: Systems.Place) returns (ghost a: Systems.Act)
      requires Stable() && sched.current != 0 && places[sched.current] == place && place.InWait?
      modifies this`places, mem`ram, mem`freeHead, mem`free, mem`own, sched, sched.table.slots, sched.table.heads,
        sched.table`queues, files.fds, files.fcbs
      ensures Moved(Resume, a)
    {
      ghost var m := Now();
      WaitLoop(place.pid);
      ResumeSteps(m, Now(), volume);
      a := Systems.Resume;
    }

    method ServeOpen(name: seq<Byte>, sector: PageData) returns (ghost a: Systems.Act)
      requires Stable() && sched.current != 0 && places[sched.current] == Systems.User && NUL in name
        && mem.freeHead != 0
      modifies mem`ram, mem`freeHead, mem`free, mem`own, sched.table.slots, files.fds, files.fcbs
      ensures Moved(OpenCall(name), a)
    {
      ghost var m := Now();
      FreePage();
      var fd := Open(name, sector);
      a := Systems.CallFiles(FilesView().grid[sched.current]);
      CallSteps(m, Now(), OpenCall(name), a, volume);
    }

    method ServeClose(fd: nat) returns (ghost a: Systems.Act)
      requires Stable() && sched.current != 0 && places[sched.current] == Systems.User && fd < MAX_FILES
      modifies sched.table.slots, files.fds, files.fcbs
      ensures Moved(CloseCall(fd), a)
    {
      ghost var m := Now();
      Close(fd);
      a := Systems.CallFiles(FilesView().grid[sched.current]);
      CallSteps(m, Now(), CloseCall(fd), a, volume);
    }

    method ServeRead(fd: nat, address: Word, size: nat, scratch: array<Byte>, sector: PageData)
        returns (ghost a: Systems.Act)
      requires Stable() && sched.current != 0 && places[sched.current] == Systems.User && CanRead(fd, address, size)
      requires scratch.Length == FatData.SCRATCH_SIZE && scratch != keyboard.buffer
      modifies mem`ram, mem`freeHead, mem`free, mem`own, files.fds, scratch
      ensures Moved(ReadCall(fd, address, size), a)
    {
      ghost var m, stale := Now(), scratch[..];
      FreePage();
      var read;
      ghost var data;
      read, data := Read(fd, address, size, scratch, sector);
      a := Systems.Quiet;
      assert ReadDone(m.system.sched, m.mem, mem.Now(), m.files, FilesView(), fd, address, size, volume, read, stale,
        data);
      CallSteps(m, Now(), ReadCall(fd, address, size), a, volume);
    }

    /** Exec is the exit of the process if the file cannot be opened, and otherwise leaves the scheduler alone. */
    method TryExec(name: seq<Byte>, sector: PageData, scratch: array<Byte>)
        returns (done: bool, ghost image: seq<Byte>)
      requires Stable() && sched.current != 0 && CanExec(name)
      requires scratch.Length == FatData.SCRATCH_SIZE && scratch != keyboard.buffer
      modifies mem`ram, mem`freeHead, mem`free, mem`own, sched, sched.table.slots, sched.table.heads,
        sched.table`queues, files.fds, files.fcbs, scratch
      ensures Stable() && System() == if done then old(System()) else Systems.Exited(old(System()))
      ensures ExecDone(old(sched.View()), old(mem.Now()), mem.Now(), old(FilesView()), FilesView(), name, volume, done,
        old(scratch[..]), image)
    {
      done, image := Exec(name, sector, scratch, sector);
    }

    method ServeExec(name: seq<Byte>, sector: PageData, scratch: array<Byte>) returns (ghost a: Systems.Act)
      requires Stable() && sched.current != 0 && places[sched.current] == Systems.User && CanExec(name)
      requires scratch.Length == FatData.SCRATCH_SIZE && scratch != keyboard.buffer
      modifies mem`ram, mem`freeHead, mem`free, mem`own, sched, sched.table.slots, sched.table.heads,
        sched.table`queues, files.fds, files.fcbs, scratch
      ensures Moved(ExecCall(name), a)
    {
      ghost var m, stale := Now(), scratch[..];
      var done;
      ghost var image;
      done, image := TryExec(name, sector, scratch);
      a := if done then Systems.Quiet else Systems.CallExit;
      ExecDid(m, Now(), name, volume, done, stale, image);
      CallSteps(m, Now(), ExecCall(name), a, volume);
    }

    /** System calls on files. */
    method FileCall(t: Trap, sector: PageData, scratch: array<Byte>) returns (ghost a: Systems.Act)
      requires Stable() && Follows(t) && scratch.Length == FatData.SCRATCH_SIZE && scratch != keyboard.buffer
      requires t.OpenCall? || t.CloseCall? || t.ReadCall? || t.ExecCall?
      modifies mem`ram, mem`freeHead, mem`free, mem`own, sched, sched.table`queues, sched.table.slots,
        sched.table.heads, files.fds, files.fcbs, scratch
      ensures Moved(t, a)
    {
      if t.OpenCall? {
        a := ServeOpen(t.name, sector);
      } else if t.ReadCall? {
        a := ServeRead(t.fd, t.address, t.size, scratch, sector);
      } else if t.ExecCall? {
        a := ServeExec(t.name, sector, scratch);
      } else {
        a := ServeClose(t.fd);
      }
    }

    /** System calls on processes and keys, faults of user mode, and its stores. */
    method ProcessCall(t: Trap) returns (ghost a: Systems.Act)
      requires Stable() && Follows(t)
      requires t.ForkCall? || t.ExitCall? || t.WaitCall? || t.SleepCall? || t.KeyCall? || t.Fault? || t.UserStore?
      modifies this, mem`ram, mem`freeHead, mem`free, mem`own, sched, sched.table`queues, sched.table.slots,
        sched.table.heads, files.fds, files.fcbs, keyboard
      ensures Moved(t, a)
    {
      if t.ForkCall? {
        a := ServeFork();
      } else if t.WaitCall? {
        a := ServeWait(t.pid);
      } else if t.SleepCall? {
        a := ServeSleep(t.n);
      } else if t.KeyCall? {
        a := ServeKey(t.address);
      } else if t.UserStore? {
        a := ServeStore(t.address, t.data);
      } else {
        a := ServeExit(t);
      }
    }

    /** One step of the system. */
    method InterruptHandler(t: Trap, sector: PageData, scratch: array<Byte>) returns (ghost a: Systems.Act)
      requires Stable() && Follows(t) && scratch.Length == FatData.SCRATCH_SIZE && scratch != keyboard.buffer
      modifies this, mem`ram, mem`freeHead, mem`free, mem`own, sched, sched.table`queues, sched.table.slots,
        sched.table.heads, files.fds, files.fcbs, keyboard, keyboard.buffer, scratch
      ensures Moved(t, a)
    {
      if t.Timer? {
        a := ServeTimer();
      } else if t.Key? {
        a := ServeKeyboard(t.code);
      } else if t.Resume? {
        a := ServeResume();
      } else if t.OpenCall? || t.CloseCall? || t.ReadCall? || t.ExecCall? {
        a := FileCall(t, sector, scratch);
      } else {
        a := ProcessCall(t);
      }
    }

    // ----- Runs -----

    lemma StableIsSound()
      requires Stable()
      ensures Sound(Now(), mem.DirectMapped())
    {
    }

    /** The next step of a run. */
    method HandleNext(traps: seq<Trap>, n: nat, ghost h: History, sector: PageData, scratch: array<Byte>)
      returns (ghost h': History)
      requires Stable() && scratch.Length == FatData.SCRATCH_SIZE && scratch != keyboard.buffer
      requires IsPart(h, traps, volume, mem.DirectMapped()) && Ends(h, Now())
      requires n == |h.traps| < |traps| && Follows(traps[n])
      modifies this, mem`ram, mem`freeHead, mem`free, mem`own, sched, sched.table`queues, sched.table.slots,
        sched.table.heads, files.fds, files.fcbs, keyboard, keyboard.buffer, scratch
      ensures Stable() && mem.DirectMapped() == old(mem.DirectMapped())
      ensures IsPart(h', traps, volume, mem.DirectMapped()) && Ends(h', Now())
      ensures |h'.traps| == n + 1 && h'.moments[0] == h.moments[0]
    {
      ghost var pages := mem.DirectMapped();
      ghost var a := InterruptHandler(traps[n], sector, scratch);
      assert mem.DirectMapped() == pages;
      StableIsSound();
      HistoryExtends(h, traps, volume, pages, Now(), a);
      h' := Prolonged(h, traps[n], Now(), a);
    }

    /** All of these traps, as long as the model follows. */
    method HandleAll(traps: seq<Trap>, sector: PageData, scratch: array<Byte>) returns (n: nat, ghost h: History)
      requires Stable() && scratch.Length == FatData.SCRATCH_SIZE && scratch != keyboard.buffer
      modifies this, mem`ram, mem`freeHead, mem`free, mem`own, sched, sched.table`queues, sched.table.slots,
        sched.table.heads, files.fds, files.fcbs, keyboard, keyboard.buffer, scratch
      ensures Stable() && mem.DirectMapped() == old(mem.DirectMapped())
      ensures IsPart(h, traps, volume, mem.DirectMapped()) && n == |h.traps|
      ensures h.moments[0] == old(Now()) && Ends(h, Now())
      ensures n < |traps| ==> !Follows(traps[n])
    {
      ghost var m, pages := Now(), mem.DirectMapped();
      StableIsSound();
      n, h := 0, History([], [m], []);
      while n < |traps| && Follows(traps[n])
        invariant Stable() && mem.DirectMapped() == pages && n == |h.traps|
        invariant IsPart(h, traps, volume, pages) && h.moments[0] == m && Ends(h, Now())
      {
        h := HandleNext(traps, n, h, sector, scratch);
        n := n + 1;
      }
    }

    /** Any sequence of interrupts, system calls and stores of user mode, up to the first that the model does not
        follow: the system invariant holds at the end, and what happened is a history, so that all that
        KernelSteps, KernelHistories, ProcessLifetimes and SystemRuns say holds of it. */
    method Run(traps: seq<Trap>, sector: PageData, scratch: array<Byte>) returns (n: nat, ghost h: History)
      requires Stable() && scratch.Length == FatData.SCRATCH_SIZE && scratch != keyboard.buffer
      modifies this, mem`ram, mem`freeHead, mem`free, mem`own, sched, sched.table`queues, sched.table.slots,
        sched.table.heads, files.fds, files.fcbs, keyboard, keyboard.buffer, scratch
      ensures Stable() && IsHistory(h, volume, mem.DirectMapped()) && n <= |traps| && h.traps == traps[..n]
      ensures h.moments[0] == old(Now()) && h.moments[n] == Now()
      ensures n < |traps| ==> !Follows(traps[n])
      ensures SamePool(old(mem.own), mem.own) && mem.freeEnd == old(mem.freeEnd)
      ensures PoolBelow(old(mem.own), old(mem.freeEnd)) ==> PoolBelow(mem.own, mem.freeEnd)
    {
      ghost var own := mem.own;
      n, h := HandleAll(traps, sector, scratch);
      PoolStays(h, volume, mem.DirectMapped(), n);
      assert h.moments[0].mem.own == own && h.moments[n].mem.own == mem.own;
      if PoolBelow(own, mem.freeEnd) { PoolStaysBelow(own, mem.own, mem.freeEnd); }
    }

    /** Boot, and then any sequence of traps. All that can ever happen to the kernel, as far as the model goes. */
    method BootAndRun(bios: seq<E820>, traps: seq<Trap>, sector: PageData, scratch: array<Byte>)
      returns (ok: bool, n: nat, ghost h: History)
      requires Zeroed() && keyboard.Valid() && VolumeOk(volume) && |bios| < MAX_REGIONS
        && PagesOnce(bios, mem.kernelEnd)
      requires forall e :: e in bios ==> e.address + e.length + 2 * PAGE_SIZE <= WORD_LIMIT - KERNEL_BASE
      requires scratch.Length == FatData.SCRATCH_SIZE && scratch != keyboard.buffer
      modifies this, mem, sched, sched.table`queues, sched.table.slots, sched.table.heads, files.fds, files.fcbs,
        keyboard, keyboard.buffer, scratch
      ensures ok <==>
        && |MapPool(bios, mem.kernelEnd)| >= 12
        && volume.disk[0][510] == 0x55 && volume.disk[0][511] == 0xAA && volume.disk[0][38] == 0x29
      ensures ok ==> Stable() && IsHistory(h, volume, mem.DirectMapped()) && n <= |traps| && h.traps == traps[..n]
      ensures ok ==> |h.moments| == n + 1 && h.moments[n] == Now() && (n < |traps| ==> !Follows(traps[n]))
      ensures ok ==> Begins(h, |MapPool(bios, mem.kernelEnd)| - 12)
      ensures ok ==>
        forall p: PageNo :: mem.own[p] == Reserved <==> !InMap(bios, mem.kernelEnd, p)
      ensures ok && InOrder(bios) ==> PoolBelow(mem.own, mem.freeEnd)
    {
      ok := Boot(bios, sector);
      n, h := 0, History([], [], []);
      if ok {
        ghost var c := sched.View();
        n, h := Run(traps, sector, scratch);
        assert StartsAs(h, c, seq(BUFFER_SIZE, _ => 0));
      }
    }

    /** On a machine with 16 to 18 usable pages the first fork after boot loses a slot: it is neither free nor ever
        ready (ProcessLifetimes.SlotIsLost). */
    method LoseSlot(bios: seq<E820>, sector: PageData, scratch: array<Byte>)
      requires Zeroed() && keyboard.Valid() && VolumeOk(volume) && volume.disk[0][510] == 0x55
        && volume.disk[0][511] == 0xAA && volume.disk[0][38] == 0x29 && |bios| < MAX_REGIONS
        && PagesOnce(bios, mem.kernelEnd)
      requires forall e :: e in bios ==> e.address + e.length + 2 * PAGE_SIZE <= WORD_LIMIT - KERNEL_BASE
      requires 16 <= |MapPool(bios, mem.kernelEnd)| <= 18
      requires scratch.Length == FatData.SCRATCH_SIZE && scratch != keyboard.buffer
      modifies this, mem, sched, sched.table`queues, sched.table.slots, sched.table.heads, files.fds, files.fcbs,
        keyboard, keyboard.buffer, scratch
      ensures Stable() && sched.View().procs[2].state == Initialized
    {
      var traps := [Timer, ForkCall];
      var ok, n;
      ghost var h;
      ok, n, h := BootAndRun(bios, traps, sector, scratch);
      ghost var c, buffer :| StartsAs(h, c, buffer);
      assert n != 0;
      if n == 1 {
        ShellFirst(h, volume, mem.DirectMapped(), c, buffer);
      }
      assert h.traps == traps;
      ForkAtOnce(h, volume, mem.DirectMapped(), c, buffer);
    }

    // ----- What the invariant says -----

    /** Every page that is not out of the allocator's hands is free, or kept by the kernel, or belongs to
        exactly one process: the idle process or one whose slot is in use. */
    lemma Conservation(p: PageNo)
      requires Valid() && mem.own[p] != Reserved
      ensures var h := Holder(mem.own, p);
        if p in mem.free || mem.own[p] == Kernel then h == None
        else h.Some? && h.value < PROCESSES && (h.value == 0 || sched.table.slots[h.value].state != Unused)
    {
      PoolPartition(mem.ram, mem.own, sched.View().procs, mem.DirectMapped(), p);
      assert ListedIfFree(mem.own, mem.free, p);
    }

    /** User mode of two different live processes never reaches the same physical page, and never a
        page that is free, a kernel stack or a page table. */
    lemma ProcessesIsolated(i: nat, j: nat, v: Word, w: Word)
      requires Valid() && 1 <= i < PROCESSES && 1 <= j < PROCESSES && i != j
      requires Live(sched.View().procs[i]) && Live(sched.View().procs[j])
      requires Reaches(i, v) && Reaches(j, w)
      ensures Reached(i, v) / PAGE_SIZE != Reached(j, w) / PAGE_SIZE
      ensures Reached(i, v) / PAGE_SIZE < PAGES && mem.own[Reached(i, v) / PAGE_SIZE].UserPage?
    {
      var procs := sched.View().procs;
      assert SlotOwns(mem.ram, mem.own, procs, i) && SlotOwns(mem.ram, mem.own, procs, j);
      Isolation(mem.ram, mem.own, mem.DirectMapped(), PageAt(procs[i].pageMap), PageAt(procs[j].pageMap), v, w);
    }

    /** User mode of the process in slot `i` can access the address `v`, with its map loaded. */
    ghost predicate Reaches(i: nat, v: Word)
      requires i < sched.table.slots.Length
      reads mem, sched.table.slots
    {
      var w := Walk(mem.ram, VirToPhy(sched.table.slots[i].pageMap), v);
      w.Some? && UserAccess(w.value)
    }

    ghost function Reached(i: nat, v: Word): nat
      requires i < sched.table.slots.Length && Reaches(i, v)
      reads mem, sched.table.slots
    {
      Target(Walk(mem.ram, VirToPhy(sched.table.slots[i].pageMap), v).value, v)
    }

    /** All live processes see the same kernel half: the direct map, writable, and out of reach of user mode. */
    lemma KernelHalfShared(i: nat, v: Word)
      requires Valid() && i < PROCESSES && (i == 0 || Live(sched.View().procs[i]))
      requires KERNEL_BASE <= v < mem.freeEnd
      ensures var w := Walk(mem.ram, VirToPhy(sched.table.slots[i].pageMap), v);
        w.Some? && Target(w.value, v) == VirToPhy(v) && WriteAccess(w.value) && !UserAccess(w.value)
    {
      var procs := sched.View().procs;
      assert SlotOwns(mem.ram, mem.own, procs, i);
      var r := PageAt(procs[i].pageMap);
      assert Space(mem.ram, mem.own, r, mem.DirectMapped());
      KernelHalf(mem.ram, mem.own, r, mem.DirectMapped(), v);
    }

    /** After a boot from ascending regions, every page that the allocator can hand out is visible at its own
        address in every live process's map. */
    lemma FreePageVisible(i: nat, p: PageNo)
      requires Valid() && i < PROCESSES && (i == 0 || Live(sched.View().procs[i]))
      requires PoolBelow(mem.own, mem.freeEnd) && p in mem.free
      ensures var w := Walk(mem.ram, VirToPhy(sched.table.slots[i].pageMap), PageVirtual(p));
        w.Some? && Target(w.value, PageVirtual(p)) == PagePhysical(p) && WriteAccess(w.value)
    {
      assert ListedIfFree(mem.own, mem.free, p);
      assert mem.own[p] != Reserved;
      KernelHalfShared(i, PageVirtual(p));
    }
  }
}
