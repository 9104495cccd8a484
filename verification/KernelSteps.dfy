/** What one step of the whole kernel does, as a relation between values, and what follows from it. */
module KernelSteps {
  import opened Bits
  import opened MemoryLayout
  import opened PageTables
  import opened MapGrowth
  import opened AddressSpaces
  import opened ProcessLists
  import Spec = SchedulerSpec
  import Systems = SystemRuns
  import opened CStrings
  import opened FatDirectory
  import FileSpec
  import opened OpenFiles
  import opened FileLoading
  import opened Keyboard
  import opened KernelState
  import opened UserMemory

  const STANDARD_INPUT := 0

  /** What can happen next: an interrupt or fault, or a system call of the current process, or a store of
      the process to its own memory in user mode, or, after a switch to a process that sleeps inside a
      system call, that it goes on there. KeyCall is SysRead of one character from standard input. */
  datatype Trap =
    | Timer | Key(code: Byte) | Fault | Resume
    | ForkCall | ExitCall | WaitCall(pid: int) | SleepCall(n: nat) | KeyCall(address: Word)
    | OpenCall(name: seq<Byte>) | CloseCall(fd: nat) | ReadCall(fd: nat, address: Word, size: nat)
    | ExecCall(name: seq<Byte>)
    | UserStore(address: Word, data: seq<Byte>)

  /** Not an interrupt from outside: the current process caused it. */
  predicate ByProcess(t: Trap) { !t.Timer? && !t.Key? }

  /** The step of the system that a trap is, when `f` are the modifier flags of the keyboard. */
  predicate Fits(f: Flags, t: Trap, a: Systems.Act) {
    match t
    case Timer => a == Systems.TimerTick
    case Key(code) => a == if Signed(Decoded(f, code)) > 0 then Systems.KeyPress(Decoded(f, code)) else Systems.Quiet
    case Fault => a == Systems.CallExit
    case Resume => a == Systems.Resume
    case ForkCall => a.CallFork?
    case ExitCall => a == Systems.CallExit
    case WaitCall(pid) => a == Systems.CallWait(pid)
    case SleepCall(n) => a == Systems.CallSleep(n)
    case KeyCall(address) => a == Systems.CallRead(address)
    case OpenCall(_) => a.CallFiles?
    case CloseCall(_) => a.CallFiles?
    case ReadCall(_, _, _) => a == Systems.Quiet
    case ExecCall(_) => a == Systems.CallExit || a == Systems.Quiet
    case UserStore(_, _) => a == Systems.Quiet
  }

  function FlagsThen(f: Flags, t: Trap): Flags { if t.Key? then NextFlags(f, t.code) else f }

  /** All of the kernel's state but the links of its lists. */
  datatype Moment = Moment(system: Systems.System, mem: Snapshot, files: FileSpec.Files, flags: Flags)

  /** What the system invariant says of such a state, when maps show `pages` pages in their kernel half. */
  ghost predicate Sound(m: Moment, pages: nat) {
    && Systems.Shaped(m.system) && Spec.Inv(m.system.sched) && m.system.places[0] == Systems.User
    && Shape(m.mem.ram, m.mem.own) && SpacesOk(m.mem.ram, m.mem.own, pages)
    && PagesOwned(m.mem.ram, m.mem.own, m.system.sched.procs) && pages <= PAGES
    && FileSpec.CountsExact(m.files)
  }

  // ----- What the calls do to memory and files -----

  function Current(m: Moment): nat { m.system.sched.current }

  /** The map of the current process. */
  function CurrentMap(m: Moment): Word
    requires Systems.Shaped(m.system)
  {
    m.system.sched.procs[Current(m)].pageMap
  }

  /** Bytes go to the user page of the current process, and nothing else happens. */
  ghost predicate DoesStore(m: Moment, n: Moment, address: Word, data: seq<Byte>)
    requires Systems.Shaped(m.system)
  {
    Stored(m.mem, n.mem, CurrentMap(m), address, data) && n.files == m.files
  }

  /** How far a fork gets is settled by the free slots and pages. It takes only free pages, all of them for
      the child; a child that runs has the parent's memory and files. One that cannot get a user page keeps its
      stack, and its map only if there was not a single page left. */
  ghost predicate ForkDone(s: Spec.Sched, a: Snapshot, b: Snapshot, g: FileSpec.Files, h: FileSpec.Files,
      o: Spec.ForkOutcome)
    requires Spec.WellFormed(s)
  {
    var f, free := Spec.FreeSlot(s.procs), |a.free|;
    && (o.NoSlotOrStack? <==> f == PROCESSES || free == 0)
    && (o.NoCopy? <==> f < PROCESSES && 4 <= free < 7)
    && (o.Forked? <==> f < PROCESSES && free >= 7)
    && Acquired(a, b, f)
    && (o.NoSlotOrStack? || o.NoMap? ==> SameUse(a, b))
    && (o.NoCopy? ==> InDirectMap(o.pageMap) && (b.own[PageAt(o.pageMap)] == Root(f) <==> free == 4))
    && if o.Forked? then
         && FileSpec.Shared(g, h, s.current, f) && PageCopied(a.ram, b.ram, s.procs[s.current].pageMap, o.pageMap)
         && |b.free| == free - 7
       else h == g
  }

  /** Wait gives back exactly the pages of the killed process that it finds, and closes its files. If it finds
      none nothing happens to memory and files. */
  ghost predicate WaitDone(s: Spec.Sched, a: Snapshot, b: Snapshot, g: FileSpec.Files, h: FileSpec.Files, pid: int)
    requires Spec.WellFormed(s)
  {
    if Spec.Reaps(s, pid) then
      var x := s.kill[Spec.PidPosition(s.procs, s.kill, pid)];
      x < PROCESSES && FileSpec.CountsExact(g) && Released(a, b, x) && h == FileSpec.CloseAll(g, x)
    else b == a && h == g
  }

  ghost predicate DoesWait(m: Moment, n: Moment, pid: int)
    requires Systems.Shaped(m.system)
  {
    WaitDone(m.system.sched, m.mem, n.mem, m.files, n.files, pid)
  }

  ghost predicate DoesOpen(m: Moment, n: Moment, name: seq<Byte>, v: Volume, a: Systems.Act)
    requires Systems.Shaped(m.system)
  {
    && VolumeOk(v) && FileSpec.Shaped(m.files) && n.files == FileSpec.Open(m.files, Current(m), Lookup(v, name)).0
    && a == Systems.CallFiles(n.files.grid[Current(m)]) && SameUse(m.mem, n.mem)
  }

  ghost predicate DoesClose(m: Moment, n: Moment, fd: nat, a: Systems.Act)
    requires Systems.Shaped(m.system)
  {
    && FileSpec.Shaped(m.files) && fd < MAX_FILES && FileSpec.CellLinked(m.files, Current(m), fd)
    && n.files == FileSpec.Close(m.files, Current(m), fd) && a == Systems.CallFiles(n.files.grid[Current(m)])
    && n.mem == m.mem
  }

  /** Read moves the position, and what it delivers goes to the user page; on an empty slot it fails. */
  ghost predicate ReadDone(s: Spec.Sched, a: Snapshot, b: Snapshot, g: FileSpec.Files, h: FileSpec.Files, fd: nat,
      address: Word, size: nat, v: Volume, r: int, stale: seq<Byte>, data: seq<Byte>)
    requires Spec.WellFormed(s)
  {
    && FileSpec.Shaped(g) && fd < MAX_FILES && FileSpec.CellLinked(g, s.current, fd)
    && (g.grid[s.current][fd].Some? ==> FileSpec.PositionOk(g, g.grid[s.current][fd].value))
    && (h, r) == FileSpec.Read(g, s.current, fd, size)
    && if r < 0 then SameUse(a, b)
       else
         && |data| == r && BytesRead(g, s.current, fd, r, v, stale, data)
         && Stored(a, b, s.procs[s.current].pageMap, address, data)
  }

  ghost predicate DoesRead(m: Moment, n: Moment, fd: nat, address: Word, size: nat, v: Volume)
    requires Systems.Shaped(m.system)
  {
    exists r, stale, data ::
      ReadDone(m.system.sched, m.mem, n.mem, m.files, n.files, fd, address, size, v, r, stale, data)
  }

  /** Exec puts the file into the user page and leaves it closed; if it cannot be opened nothing happens here, and
      the process exits. */
  ghost predicate ExecDone(s: Spec.Sched, a: Snapshot, b: Snapshot, g: FileSpec.Files, h: FileSpec.Files,
      name: seq<Byte>, v: Volume, ok: bool, stale: seq<Byte>, image: seq<Byte>)
    requires Spec.WellFormed(s)
  {
    && VolumeOk(v) && FileSpec.Shaped(g)
    && var (t, fd) := FileSpec.Open(g, s.current, Lookup(v, name));
       && (ok <==> fd >= 0)
       && if ok then
            && Loadable(t, s.current, fd, v) && IsImage(image, t, s.current, fd, v, stale)
            && Stored(a, b, s.procs[s.current].pageMap, USER_BASE, image)
            && ReadAndClosed(t, h, s.current, fd) && h.grid == g.grid
          else SameUse(a, b) && h == g
  }

  ghost predicate DoesExec(m: Moment, n: Moment, name: seq<Byte>, v: Volume, a: Systems.Act)
    requires Systems.Shaped(m.system)
  {
    if a == Systems.Quiet then
      exists stale, image ::
        ExecDone(m.system.sched, m.mem, n.mem, m.files, n.files, name, v, true, stale, image)
    else
      a == Systems.CallExit
      && ExecDone(m.system.sched, m.mem, n.mem, m.files, n.files, name, v, false, [], [])
  }

  lemma ExecDid(m: Moment, n: Moment, name: seq<Byte>, v: Volume, ok: bool, stale: seq<Byte>, image: seq<Byte>)
    requires Systems.Shaped(m.system)
    requires ExecDone(m.system.sched, m.mem, n.mem, m.files, n.files, name, v, ok, stale, image)
    ensures DoesExec(m, n, name, v, if ok then Systems.Quiet else Systems.CallExit)
  {
  }

  /** SysRead of a key stores it, unless it sleeps. */
  ghost predicate DoesReadKey(m: Moment, n: Moment, address: Word)
    requires Systems.Shaped(m.system)
  {
    var ring := m.system.ring;
    if ring.front == ring.end then n.mem == m.mem && n.files == m.files
    else DoesStore(m, n, address, [ring.buffer[ring.front]])
  }

  ghost predicate Does(m: Moment, n: Moment, t: Trap, a: Systems.Act, v: Volume)
    requires Systems.Shaped(m.system)
  {
    match t
    case ForkCall => a.CallFork? && ForkDone(m.system.sched, m.mem, n.mem, m.files, n.files, a.outcome)
    case WaitCall(pid) => DoesWait(m, n, pid)
    case KeyCall(address) => DoesReadKey(m, n, address)
    case OpenCall(name) => DoesOpen(m, n, name, v, a)
    case CloseCall(fd) => DoesClose(m, n, fd, a)
    case ReadCall(fd, address, size) => DoesRead(m, n, fd, address, size, v)
    case ExecCall(name) => DoesExec(m, n, name, v, a)
    case UserStore(address, data) => DoesStore(m, n, address, data)
    case Resume =>
      (match m.system.places[Current(m)]
       case InRead(at, address) => DoesStore(m, n, address, [m.system.ring.buffer[at]])
       case InWait(pid) => DoesWait(m, n, pid)
       case _ => n.mem == m.mem && n.files == m.files)
    case _ => n.mem == m.mem && n.files == m.files
  }

  // ----- Steps -----

  /** One step: it moves the system as the trap asks, and does to memory and files what the call promises. */
  ghost predicate Stepped(m: Moment, n: Moment, t: Trap, a: Systems.Act, v: Volume) {
    && Systems.StepsTo(m.system, a, n.system)
    && Fits(m.flags, t, a) && n.flags == FlagsThen(m.flags, t)
    && (ByProcess(t) ==> Current(m) != 0)
    && Does(m, n, t, a, v)
  }

  /** A process in user mode is interrupted, or calls. */
  ghost predicate InUserMode(s: Systems.System) {
    Systems.Shaped(s) && s.places[s.sched.current] == Systems.User
  }

  lemma TimerSteps(m: Moment, n: Moment, v: Volume)
    requires InUserMode(m.system) && n == m.(system := Systems.Ticked(m.system))
    ensures Stepped(m, n, Timer, Systems.TimerTick, v)
  {
  }

  lemma KeyboardSteps(m: Moment, n: Moment, code: Byte, v: Volume) returns (a: Systems.Act)
    requires InUserMode(m.system)
    requires var c := Decoded(m.flags, code);
      n == m.(system := if Signed(c) > 0 then Systems.Pushed(m.system, c)
        else m.system, flags := NextFlags(m.flags, code))
    ensures Stepped(m, n, Key(code), a, v)
  {
    var c := Decoded(m.flags, code);
    a := if Signed(c) > 0 then Systems.KeyPress(c) else Systems.Quiet;
  }

  /** A call, given what it does. */
  lemma CallSteps(m: Moment, n: Moment, t: Trap, a: Systems.Act, v: Volume)
    requires InUserMode(m.system) && Current(m) != 0 && Fits(m.flags, t, a) && ByProcess(t) && n.flags == m.flags
    requires Does(m, n, t, a, v)
    requires match a
      case CallExit => n.system == Systems.Exited(m.system)
      case CallSleep(k) => n.system == Systems.SleepLoop(m.system, m.system.ticks, k, 0)
      case CallRead(address) => n.system == Systems.ReadKey(m.system, address)
      case CallWait(pid) => n.system == Systems.WaitLoop(m.system, pid)
      case CallFork(o) => n.system == Systems.Forked(m.system, o)
      case CallFiles(row) => n.system == Systems.WithFiles(m.system, row)
      case Quiet => n.system == m.system
      case _ => false
    ensures Stepped(m, n, t, a, v)
  {
  }

  /** A process goes on where it slept. */
  lemma ResumeSteps(m: Moment, n: Moment, v: Volume)
    requires Systems.Shaped(m.system) && Current(m) != 0 && n.flags == m.flags
    requires match m.system.places[Current(m)]
      case InSleep(start, k, rounds) =>
        n == m.(system := Systems.SleepLoop(m.system, start, k, rounds))
      case InRead(at, address) =>
        n.system == Systems.TakeKey(m.system, at) && DoesStore(m, n, address, [m.system.ring.buffer[at]])
      case InWait(pid) => n.system == Systems.WaitLoop(m.system, pid) && DoesWait(m, n, pid)
      case User => false
    ensures Stepped(m, n, Resume, Systems.Resume, v)
  {
  }

  // ----- What every step keeps -----

  /** The current process, unless idle, has a map with a user page. */
  lemma CurrentPage(m: Moment, pages: nat)
    requires Sound(m, pages) && Current(m) != 0
    ensures InDirectMap(CurrentMap(m)) && HasUserPage(m.mem.ram, PageAt(CurrentMap(m)))
      && m.mem.own[PageAt(CurrentMap(m))] == Root(Current(m))
    ensures m.mem.own[UserPageOf(m.mem.ram, PageAt(CurrentMap(m)))] == UserPage(PageAt(CurrentMap(m)), USER_VPN)
  {
    var s := m.system.sched;
    assert Spec.RunningOk(s, s.current) && SlotOwns(m.mem.ram, m.mem.own, s.procs, s.current);
    var r := PageAt(CurrentMap(m));
    assert Space(m.mem.ram, m.mem.own, r, pages) && SpaceAt(m.mem.ram, m.mem.own, r, pages, USER_VPN);
  }

  lemma StoreKeeps(m: Moment, n: Moment, address: Word, data: seq<Byte>, pages: nat)
    requires Sound(m, pages) && Current(m) != 0 && Stored(m.mem, n.mem, CurrentMap(m), address, data)
    ensures n.mem.own == m.mem.own && OthersUntouched(m.mem, n.mem, Current(m))
  {
    CurrentPage(m, pages);
    StoredUntouched(m.mem, n.mem, CurrentMap(m), address, data, Current(m));
  }

  /** Calls that move no page. */
  lemma OwnStays(m: Moment, n: Moment, t: Trap, a: Systems.Act, v: Volume, pages: nat)
    requires Sound(m, pages) && Stepped(m, n, t, a, v)
    requires !t.ForkCall? && !t.WaitCall? && !(t.Resume? && m.system.places[Current(m)].InWait?)
    ensures n.mem.own == m.mem.own && OthersUntouched(m.mem, n.mem, Current(m))
  {
    match t
    case UserStore(address, data) => StoreKeeps(m, n, address, data, pages);
    case KeyCall(address) => KeyStays(m, n, address, pages);
    case Resume =>
      if m.system.places[Current(m)].InRead? {
        var place := m.system.places[Current(m)];
        StoreKeeps(m, n, place.address, [m.system.ring.buffer[place.at]], pages);
      } else {
        NothingTouched(m.mem, Current(m));
      }
    case OpenCall(_) => SameUseUntouched(m.mem, n.mem, Current(m));
    case ReadCall(fd, address, size) => ReadStays(m, n, fd, address, size, v, pages);
    case ExecCall(name) => ExecStays(m, n, name, v, a, pages);
    case _ => NothingTouched(m.mem, Current(m));
  }

  lemma KeyStays(m: Moment, n: Moment, address: Word, pages: nat)
    requires Sound(m, pages) && Current(m) != 0 && DoesReadKey(m, n, address)
    ensures n.mem.own == m.mem.own && OthersUntouched(m.mem, n.mem, Current(m))
  {
    if m.system.ring.front == m.system.ring.end {
      NothingTouched(m.mem, Current(m));
    } else {
      StoreKeeps(m, n, address, [m.system.ring.buffer[m.system.ring.front]], pages);
    }
  }

  lemma ReadStays(m: Moment, n: Moment, fd: nat, address: Word, size: nat, v: Volume, pages: nat)
    requires Sound(m, pages) && Current(m) != 0 && DoesRead(m, n, fd, address, size, v)
    ensures n.mem.own == m.mem.own && OthersUntouched(m.mem, n.mem, Current(m))
  {
    var r, stale, data :|
      ReadDone(m.system.sched, m.mem, n.mem, m.files, n.files, fd, address, size, v, r, stale, data);
    if r < 0 {
      SameUseUntouched(m.mem, n.mem, Current(m));
    } else {
      StoreKeeps(m, n, address, data, pages);
    }
  }

  lemma ExecStays(m: Moment, n: Moment, name: seq<Byte>, v: Volume, a: Systems.Act, pages: nat)
    requires Sound(m, pages) && Current(m) != 0 && DoesExec(m, n, name, v, a)
    ensures n.mem.own == m.mem.own && OthersUntouched(m.mem, n.mem, Current(m))
  {
    if a == Systems.Quiet {
      var stale, image :|
        ExecDone(m.system.sched, m.mem, n.mem, m.files, n.files, name, v, true, stale, image);
      StoreKeeps(m, n, USER_BASE, image, pages);
    } else {
      SameUseUntouched(m.mem, n.mem, Current(m));
    }
  }

  /** Every step keeps the set of pages in the kernel's hands, the pages that it keeps for itself, and the pages
      of all processes but the current one, as long as these do not become free. */
  lemma StepKeepsPages(m: Moment, n: Moment, t: Trap, a: Systems.Act, v: Volume, pages: nat)
    requires Sound(m, pages) && Stepped(m, n, t, a, v)
    ensures SamePool(m.mem.own, n.mem.own) && OthersUntouched(m.mem, n.mem, Current(m))
  {
    if t.ForkCall? {
      var f := Spec.FreeSlot(m.system.sched.procs);
      AcquiredKeepsPool(m.mem, n.mem, f);
      AcquiredUntouched(m.mem, n.mem, f, Current(m));
    } else if t.WaitCall? {
      WaitKeepsPages(m, n, t.pid);
    } else if t.Resume? && m.system.places[Current(m)].InWait? {
      WaitKeepsPages(m, n, m.system.places[Current(m)].pid);
    } else {
      OwnStays(m, n, t, a, v, pages);
    }
  }

  lemma WaitKeepsPages(m: Moment, n: Moment, pid: int)
    requires Systems.Shaped(m.system) && DoesWait(m, n, pid)
    ensures SamePool(m.mem.own, n.mem.own) && OthersUntouched(m.mem, n.mem, Current(m))
  {
    var s := m.system.sched;
    if Spec.Reaps(s, pid) {
      var x := s.kill[Spec.PidPosition(s.procs, s.kill, pid)];
      ReleasedKeepsPool(m.mem, n.mem, x);
      ReleasedUntouched(m.mem, n.mem, x, Current(m));
    } else {
      NothingTouched(m.mem, Current(m));
    }
  }

  lemma ExecKeepsAll(m: Moment, n: Moment, name: seq<Byte>, v: Volume, a: Systems.Act, pages: nat)
    requires Sound(m, pages) && DoesExec(m, n, name, v, a)
    ensures FileSpec.FilesKept(m.files, n.files)
  {
    if a == Systems.Quiet {
      ExecKeepsFiles(m.files, Current(m), Lookup(v, name), n.files);
    } else {
      FileSpec.CountsKeepFiles(m.files, n.files);
    }
  }

  lemma WaitKeepsFiles(m: Moment, n: Moment, pid: int)
    requires Systems.Shaped(m.system) && DoesWait(m, n, pid)
    ensures FileSpec.FilesKept(m.files, n.files)
  {
    FileSpec.CountsKeepFiles(m.files, n.files);
  }

  /** No step forgets what is recorded about an open file. */
  lemma StepKeepsFiles(m: Moment, n: Moment, t: Trap, a: Systems.Act, v: Volume, pages: nat)
    requires Sound(m, pages) && Stepped(m, n, t, a, v)
    ensures FileSpec.FilesKept(m.files, n.files)
  {
    match t
    case OpenCall(name) => FileSpec.OpenKeepsFiles(m.files, Current(m), Lookup(v, name));
    case CloseCall(fd) => FileSpec.CloseKeepsFiles(m.files, Current(m), fd);
    case ExecCall(name) => ExecKeepsAll(m, n, name, v, a, pages);
    case WaitCall(pid) => WaitKeepsFiles(m, n, pid);
    case Resume =>
      if m.system.places[Current(m)].InWait? {
        WaitKeepsFiles(m, n, m.system.places[Current(m)].pid);
      } else {
        FileSpec.CountsKeepFiles(m.files, n.files);
      }
    case _ => FileSpec.CountsKeepFiles(m.files, n.files);
  }
}
