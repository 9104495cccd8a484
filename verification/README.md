# Larva kernel: memory, processes, files, console

This project models the state-keeping core of the Larva kernel in Dafny and proves what holds of it: in
every reachable state, over every run, for every input.

All gates of the interrupt descriptor table are interrupt gates, so kernel code runs without preemption
between context switches. An interrupt or system call is therefore one step of the system, except where a
process sleeps inside a call (`SysSleep`, `Wait`, reading a key): there it is parked, and goes on in a step of
its own when it is switched to.

| file | models |
|---|---|
| Bits, MemoryLayout, MemoryMacros | the bitwise macros of `kernel/memory.h` and what they mean |
| PageTables, MapGrowth, MapRelease, AddressSpaces, MapConstruction | four-level page tables as values: translation, disjoint trees of tables, growing and releasing a map |
| PhysicalMemory | the page allocator, whose free list is threaded through the free pages, and the functions that build and release maps |
| ProcessLists | the three intrusive lists that share one link field |
| SchedulerSpec, SchedulerRuns, Scheduling | the scheduler as a state machine, its runs, and the code proved against it |
| FileSpec, OpenFiles | two levels of reference counts, and the code that keeps them |
| CStrings, FatDirectory, FatData, FileLoading | FAT16 names, directory lookup and reading |
| KernelState, UserMemory, LarvaKernel | the whole kernel: who owns which page, boot, system calls and interrupts |
| KernelSteps, KernelHistories, ProcessLifetimes | one step of the kernel as a relation between values, whole runs, and a process from its fork to its clean-up |
| TrapMeanings | what each interrupt, fault and system call means for the processes, over one step and over runs |
| Keyboard, SystemRuns | the key ring and the modifier flags; runs with parked processes |
| MemoryBlocks, Console, Numerals | block copies, the scrolling screen, number formatting |

The code that updates state in place is modelled by classes whose methods follow it branch by branch:
`Memory`, `ProcessTable`, `Scheduler`, `FileTables`, `KeyBuffer`, `Screen`, and `Kernel`, which puts them
together. Physical memory is a field of the class `Memory`: 512 pages of 2 MB in words. A ghost record says
what each page is used for, and the free list, the page tables and the user pages all live in the same pages.

The system invariant `Kernel.Stable` holds after `Boot` and after every step of `Run`. It says that the free
list holds exactly the free pages; that all page tables of all maps form disjoint trees; that every map shows
the direct map in its upper half and at most its own user page below; that every page is accounted for by the
slot that holds it; that the scheduler's lists agree with the states of the processes; and that reference
counts are exact.

A run may hold any interrupts, faults, system calls and stores of user mode to its own page. `KernelSteps.Stepped`
says of one step how it moves the scheduler, the keyboard and the parked processes, and exactly what it does
to the memory and the file tables; `Run` proves that what happened is a sequence of such steps
(`KernelHistories.IsHistory`), so that all lemmas about histories and about the runs inside them hold of it.

The functions that specify the code are described by statements of their own, which do not rest on them: what a
trap means is in `TrapMeanings`, in terms of states, ticks, memory as user mode sees it and file contents; the
disk layout in `FatData.ClusterPlace`, `RegionsCover` and `RegionsApart`; directory entries in
`FatDirectory.EntryByBytes` and `FileByBytes`; open files in `FileSpec.OpenRecords` and `ReadMoves`; the memory map
in the contracts of `RetrieveMemoryInfo` and `Boot` and in `PhysicalMemory.UsableOrder`; keys in
`Keyboard.KeyProduces` and `KeyRows`; the screen in `Console.TextOnScreen` and `NewlineMoves`.

Check everything with `dafny verify dfyconfig.toml`.

## Model

| member | source | states |
|---|---|---|
| `MemoryMacros.PageAlignDown` | kernel/memory.h:141-146 | shifting right and left by 21 rounds down to a 2 MB boundary |
| `MemoryMacros.PageAlignUp` | kernel/memory.h:141-146 | gives the next boundary at or above the address, and 0 when the sum leaves 64 bits |
| `MemoryMacros.AlignUpIsCeiling` | kernel/memory.h:141-146 | rounding up is right exactly when the boundary is a 64-bit number |
| `MemoryMacros.EntryRoundTrip` | kernel/memory.h:155-171 | a table entry or page entry built from an aligned address and attribute bits gives that address back, and is present exactly as asked |
| `MemoryMacros.MakeLeafEntry` | kernel/memory.h:155-171 | or-ing address, attributes and the large-page bit never carries: the fields do not overlap |
| `MemoryMacros.Pml4IndexOf` | kernel/memory.c:331-355 | shift and mask by 0x1FF give bits 39 to 47 of the address |
| `MemoryMacros.PdptIndexOf` | kernel/memory.c:405-431 | bits 30 to 38 |
| `MemoryMacros.PdIndexOf` | kernel/memory.c:357-403 | bits 21 to 29 |
| `PageTables.WalkByPages` | kernel/memory.c:331-431 | on tables of the kernel the four-level walk of the processor over physical addresses (section 4.5 of Volume 3A of the Intel SDM) is the walk over pages that the other results use |
| `PageTables.TreesDisjoint` | kernel/memory.c:331-431 | no table belongs to two maps |
| `PageTables.LinkKeepsShape` | kernel/memory.c:331-355 | hanging a zeroed page under an absent entry keeps all tables of all maps disjoint trees |
| `PageTables.LinkKeepsWalks` | kernel/memory.c:331-355 | and changes no translation of any map |
| `PageTables.LeafWalks` | kernel/memory.c:357-403 | writing a leaf changes the translation of one page of one map and nothing else |
| `PageTables.WalkFrame` | kernel/memory.c:331-431 | a map translates the same as long as its own tables do not change |
| `PageTables.UnlinkKeepsShape` | kernel/memory.c:462-493 | a freed table whose first word becomes the free-list link, with its parent entry cleared, leaves the other trees intact |
| `PhysicalMemory.TakeKeepsList` | kernel/memory.c:224-240 | popping the head leaves the intrusive list of exactly the remaining free pages, each once |
| `PhysicalMemory.GiveKeepsList` | kernel/memory.c:209-222 | pushing a page that is not free prepends it to that list |
| `PhysicalMemory.FreeListFrame` | kernel/memory.c:209-240 | writes to pages in use never disturb the list, although it lives in the same memory |
| `PhysicalMemory.Memory.Kalloc` | kernel/memory.c:224-240 | returns the most recently freed page, and NULL exactly when none is free |
| `PhysicalMemory.Memory.Kfree` | kernel/memory.c:209-222 | the page becomes the head of the list; one word of memory changes |
| `PhysicalMemory.Memory.FindEntry` | kernel/memory.c:331-355 | finds or creates the table under one entry; without `alloc` nothing changes; 0 exactly if the entry is absent and no table may or can be made |
| `PhysicalMemory.Memory.FindPageDirPointerTableEntry` | kernel/memory.c:405-431 | the page directory of an address, created on demand, and found exactly if the free list holds the missing tables, which are then taken; no translation changes |
| `PhysicalMemory.Memory.MapOnePage` | kernel/memory.c:357-403 | one round of the loop, with the assertion of the code that the entry was absent proved |
| `PhysicalMemory.Memory.MapPages` | kernel/memory.c:357-403 | exactly the pages mapped before memory ran out translate to consecutive physical pages with the given attributes; every other page of the map and all other maps translate as before; sharing-freedom of tables is kept; within one page directory it succeeds exactly if the missing tables are free |
| `MapGrowth.MapRound` | kernel/memory.c:370-400 | one more page of the range, after new tables were hung in |
| `MapGrowth.GrownKeepsOthers` | kernel/memory.c:357-431 | growing one map changes no translation of another |
| `MapGrowth.TablesCounted` | kernel/memory.c:405-431 | a directory is found exactly if as many pages are free as tables are missing on the way to it, and so many are taken |
| `PhysicalMemory.Memory.FreePages` | kernel/memory.c:433-455 | gives back the recorded page of every mapped address of the range, clears those leaves, and keeps every other translation |
| `PhysicalMemory.Memory.FreePDTable` | kernel/memory.c:462-482 | gives back every page directory of the map, once |
| `PhysicalMemory.Memory.FreePDPTable` | kernel/memory.c:484-493 | gives back every page-directory-pointer table, once |
| `PhysicalMemory.Memory.FreePML4Table` | kernel/memory.c:457-460 | gives back the root |
| `PhysicalMemory.Memory.FreeVM` | kernel/memory.c:161-172 | gives back exactly the tables of the map and its user page, each once, nothing that only the kernel half maps, and reads no table after its first word was overwritten |
| `MapRelease.ReleaseRound` | kernel/memory.c:433-455 | one round of the release loop keeps the set given back exact |
| `MapRelease.AllTables` | kernel/memory.c:457-493 | page directories, pointer tables and root together are all tables of the map |
| `MapConstruction.AllPagesOfMap` | kernel/memory.c:161-172 | the four steps of FreeVM together give back the user page and all tables |
| `PhysicalMemory.Memory.SetupKVM` | kernel/memory.c:242-264 | a fresh map of the kernel half, exactly if three pages are free, which are then taken; otherwise the use and content of all pages are as before |
| `MapConstruction.KernelMapBuilt` | kernel/memory.c:242-264 | the finished map shows all direct-mapped pages at their own address and nothing else |
| `MapConstruction.KernelMapUndone` | kernel/memory.c:252-260 | wherever MapPages ran out of memory, freeing the unfinished map leaves no trace |
| `PhysicalMemory.Memory.SetupUVM` | kernel/memory.c:175-207 | a user page that starts with the program, exactly if three pages are free; without any free page nothing happens, and with one or two the whole map is given up |
| `PhysicalMemory.Memory.CopyUVM` | kernel/memory.c:271-315 | the same with the words of the current map's user page; its branch for a missing directory of the current map is proved unreachable |
| `PhysicalMemory.Memory.CurrentUserPage` | kernel/memory.c:293-306 | the lookup of the page to copy from succeeds for every live map, so the branch for a missing directory, which would release a page twice, is never taken |
| `MapConstruction.UserMapBuilt` | kernel/memory.c:180-204 | mapping one page at USER_BASE makes it the one user page of that map, and leaves all other maps alone |
| `MapConstruction.UserMapUndone` | kernel/memory.c:188-198 | on the error path exactly the tables of the map are added to the free set |
| `PhysicalMemory.Memory.FreeRegion` | kernel/memory.c:318-329 | exactly the pages wholly inside the region and below the end of the direct map become free, pushed from low to high addresses |
| `PhysicalMemory.Memory.RetrieveMemoryInfo` | kernel/memory.c:90-145 | for a BIOS map whose entries of type 1 share no page, the free list holds exactly the pages that lie wholly inside an entry of type 1, at or above the end of the kernel and below the end of the direct map, each once; for entries in ascending order the recorded end lies above them all |
| `PhysicalMemory.UsableOrder` | kernel/memory.c:95-110 | the regions kept are the addresses and lengths of the entries of type 1, each once, in the order of the map |
| `PhysicalMemory.UsableIsMap` | kernel/memory.c:95-140 | a page lies in the regions kept exactly if it lies in an entry of type 1 |
| `AddressSpaces.KernelHalf` | kernel/memory.c:242-264 | every direct-mapped kernel address translates to itself minus KERNEL_BASE, writable and out of reach of user mode |
| `AddressSpaces.UserHalf` | kernel/memory.c:175-207 | user mode reaches exactly the addresses of the one user page recorded for the map |
| `AddressSpaces.Isolation` | kernel/memory.c:242-315 | what user mode reaches through two maps never meets in physical memory, and is never a table, a free page or a stack |
| `AddressSpaces.TookKeepsSpaces` | kernel/memory.c:175-264 | building one map keeps every other address space |
| `AddressSpaces.DroppedKeepsSpaces` | kernel/memory.c:161-172 | releasing one map keeps every other address space |
| `ProcessLists.ProcessTable.ListPushBack` | libc/list.c:4-14 | appends to the list, keeps the two others that share the `next` field, and changes nothing but links |
| `ProcessLists.ProcessTable.ListPopFront` | libc/list.c:16-32 | removes the head, and returns NULL exactly for the empty list |
| `ProcessLists.ProcessTable.Unlink` | kernel/process.c:337-399 | removing a node keeps `tail` the true last node or NULL: the header cast used as `prev` is never stored as tail |
| `ProcessLists.ProcessTable.RemoveFirst` | kernel/process.c:337-399 | both mid-list removals delete exactly the first match |
| `ProcessLists.FirstMatchIsFirst` | kernel/process.c:337-399 | what that position means |
| `ProcessLists.PushKeeps` | libc/list.c:4-14 | the links after an append are those of the longer queue |
| `ProcessLists.RemoveKeeps` | kernel/process.c:337-399 | the links after an unlink are those of the queue without that node |
| `Scheduling.Scheduler.Schedule` | kernel/process.c:306-328 | runs the head of the ready list or the idle process, with its map loaded |
| `Scheduling.Scheduler.Yield` | kernel/process.c:68-90 | refines the state machine and keeps its invariant |
| `Scheduling.Scheduler.Sleep` | kernel/process.c:92-107 | refines the state machine and keeps its invariant |
| `Scheduling.Scheduler.Wakeup` | kernel/process.c:109-129 | the restart-from-the-head loop ends and wakes all sleepers on the id, in order |
| `Scheduling.Scheduler.Exit` | kernel/process.c:131-151 | refines the state machine and keeps its invariant |
| `Scheduling.Scheduler.TakeKilled` | kernel/process.c:158-170 | takes the first killed process with the pid off its list, and changes nothing if there is none |
| `SchedulerSpec.WaitingPartition` | kernel/process.c:109-129 | woken and still sleeping processes partition the wait list, none lost or duplicated |
| `SchedulerRuns.PartitionIsStable` | kernel/process.c:109-129 | both parts are subsequences of the old list, and together a permutation of it |
| `SchedulerRuns.WakeOneFirst` | kernel/process.c:109-129 | waking the first match and then all others is waking all of them |
| `SchedulerRuns.StepKeeps` | kernel/process.c:68-241 | every call keeps: one process runs, every other live one is in exactly the list its state says, once, idle is in none, pids are distinct |
| `SchedulerRuns.RunKeeps` | kernel/process.c:68-241 | so it holds in every state of every run |
| `SchedulerRuns.InitialKeeps` | kernel/process.c:54-61 | the state that InitProcess leaves meets it |
| `SchedulerSpec.WaitRoundKeeps` | kernel/process.c:153-193 | a process found by Wait is killed, not idle and not the caller, so the check for KILLED never fails |
| `SchedulerSpec.ForkKeeps` | kernel/process.c:195-241 | fork keeps the invariant at every point where memory can run out |
| `SchedulerRuns.StillWaiting` | kernel/process.c:306-328 | a process at position k of the ready list moves up one place with each switch, whatever happens in between |
| `SchedulerRuns.BoundedWaiting` | kernel/process.c:306-328 | it runs right after switch number k + 1, and not before |
| `SchedulerRuns.TickSwitches` | kernel/trap.c:91-103 | each timer tick switches if somebody waits for the processor |
| `ProcessLifetimes.KeepsIdentity` | kernel/process.c:68-241 | no call changes pid, stack or map of a process, or ends it, but a Wait that cleans it up |
| `ProcessLifetimes.ForkedIsReaped` | kernel/process.c:153-241 | in every run that starts with a successful fork, the first Wait that finds the returned pid cleans up the slot the fork filled, with the stack and map it got then |
| `ProcessLifetimes.ForkExitWait` | kernel/process.c:131-241 | in any run of the whole kernel from a successful fork to the Wait that cleans up the child, whatever happens in between, the Wait gives back exactly the pages that the fork took; if no other page changed hands all pages have their old use, and with no file work in between the file tables are the old ones |
| `ProcessLifetimes.ProcessStays` | kernel/process.c:68-241 | until it is cleaned up a process keeps its slot, pid, stack and map, and holds exactly the same pages, whatever it and all others do |
| `ProcessLifetimes.StepKeepsHoldings` | kernel/process.c:153-241 | no step takes a page from a process in use or gives it one, but the Wait that cleans it up |
| `ProcessLifetimes.SlotIsLost` | kernel/process.c:208-211 | a slot that a fork filled and left is never used or emptied again, over any run |
| `FileSpec.OpenKeeps` | kernel/file.c:146-217 | Open keeps both levels of counts exact: descriptors count slots, control blocks count slots that reach them, a descriptor is unused exactly if no slot points at it |
| `FileSpec.CloseKeeps` | kernel/file.c:219-240 | so does Close, and the asserted count is positive |
| `FileSpec.ShareKeeps` | kernel/process.c:213-226 | so does the sharing in Fork |
| `FileSpec.CloseAll` | kernel/process.c:170-185 | so does the clean-up in Wait; the slots of the process are empty, all others as before |
| `FileSpec.ShareAll` | kernel/process.c:213-226 | the child has the slots of the parent, and only counts differ |
| `FileSpec.ShareThenClose` | kernel/process.c:170-226 | forking and cleaning up the child leaves descriptors and counts as they were |
| `FileSpec.DescriptorAvailable` | kernel/file.c:160-175 | the descriptor table never runs out |
| `FileSpec.OpenResult` | kernel/file.c:146-217 | the exact conditions of every result of Open: no slot, no file, a file without clusters, or the first empty slot |
| `FileSpec.OpenSharesNothingElse` | kernel/file.c:146-217 | Open never recycles a descriptor in use and leaves all other slots alone |
| `FileSpec.OpenFileStays` | kernel/file.c:146-266 | as long as a file stays open, over any run its first cluster, size and name are the same |
| `FileSpec.ReadKeeps` | kernel/file.c:242-266 | reading keeps counts, and positions within their files |
| `FileSpec.EmptyTablesExact` | kernel/file.c:427-441 | the zeroed tables are exact |
| `OpenFiles.FileTables.Open` | kernel/file.c:146-217 | does what the specification says and keeps the invariant; on success the slot leads, at position 0, to a block that records cluster, size, name and extension of the directory entry found, unless the file was open already |
| `FileSpec.OpenRecords` | kernel/file.c:186-214 | the new descriptor has one user and position 0; a block that was closed records cluster, size, name, extension and index of what the lookup found, one that was open keeps what it had; either has one user more |
| `OpenFiles.OpenFindsEntry` | kernel/file.c:146-217 | what is recorded are the fields of the entry of the root directory with this name |
| `OpenFiles.FileTables.Close` | kernel/file.c:219-240 | the same for Close |
| `OpenFiles.FileTables.Read` | kernel/file.c:242-266 | does what the specification says and keeps the invariant; the bytes that reach the buffer; the position is the old one plus the result |
| `FileSpec.ReadMoves` | kernel/file.c:242-266 | the result is the size asked for or the rest of the file, the position goes on by the result, and nothing else changes |
| `OpenFiles.FileTables.CloseAll` | kernel/process.c:170-185 | the same for the loop of Wait |
| `OpenFiles.FileTables.ShareAll` | kernel/process.c:213-226 | the same for the loop of Fork |
| `CStrings.StrCaseCmp` | libc/strings.c:4-19 | 0 exactly for texts that agree up to case |
| `CStrings.LetterCases` | libc/strings.c:4-19 | two characters count as the same exactly if they are equal or the capital and small form of one letter |
| `FatDirectory.GetRelativeFileName` | kernel/file.c:373-409 | renders the 8.3 name within 13 bytes |
| `FatDirectory.NameThenExtension` | kernel/file.c:373-409 | name up to its first NUL or space, a dot, extension up to its first NUL or space |
| `FatDirectory.EntryByBytes` | kernel/file.c:327-371 | the fields of entry k by their bytes in the sectors of the root directory: name at 0, extension at 8, attributes at 11, first cluster at 26 and size at 28, low byte first |
| `FatDirectory.FileByBytes` | kernel/file.c:327-371 | an entry is a file of this name exactly if its first byte is neither 0 nor 0xE5, its attributes are not 15, and the name is its own up to case |
| `FatDirectory.FindFileInRootDir` | kernel/file.c:327-371 | the least flat index of a live, short entry with this name, and -ENOENT exactly if none exists |
| `FatDirectory.RenderedIsInjective` | kernel/file.c:373-409 | names in the form of section "FAT Directory Structure" of the Microsoft FAT specification render alike, up to case, exactly if they are the same up to case |
| `FatDirectory.LookupIsUnique` | kernel/file.c:327-371 | two entries found under one name have the same 8.3 name |
| `FatData.DiskReadSectors` | kernel/disk.c:4-42 | byte k of the buffer is byte k % 512 of sector lba + k / 512, and the rest of the buffer is left |
| `FatData.ConsecutiveFile` | kernel/file.c:411-425 | a file in consecutive clusters is the bytes of consecutive sectors from the first sector of its first cluster on |
| `FatData.ClusterPlace` | kernel/file.c:411-425 | cluster c starts (c - 2) * sectors per cluster behind the reserved sectors, the copies of the FAT and the root directory (section "FAT Data Structure" of the Microsoft FAT specification) |
| `FatData.RegionsCover` | kernel/file.c:277-325 | every sector is reserved, in one copy of the FAT, in the root directory, or in a cluster |
| `FatData.RegionsApart` | kernel/file.c:277-325 | no sector of a cluster is reserved, in a FAT, in the root directory or in another cluster |
| `FatData.FatsApart` | kernel/file.c:277-325 | nor is one of a copy of the FAT anywhere else |
| `FatData.ReadRawData` | kernel/file.c:443-465 | delivers the bytes of the clusters fetched, at their places on the disk, and whatever the scratch page held behind them |
| `FatData.DeliversDataBytes` | kernel/file.c:411-465 | byte i of a read at position p is byte p + i of the data area counted from the first cluster of the file, as long as the fetched clusters last |
| `FatData.ReadIsExact` | kernel/file.c:443-465 | for a file in consecutive clusters a read delivers the bytes of the file exactly if the copied range ends within the fetched clusters |
| `FatData.StaleByte` | kernel/file.c:446-460 | scratch contents that show through in every other case |
| `FatData.StaleReadExists` | kernel/file.c:446-460 | a volume, a file and a read for which they do |
| `FatData.ReadStaysInFile` | kernel/file.c:250-258 | a read is cut off at the end of the file exactly if position plus size fits 32 bits |
| `FatData.SuccessiveReads` | kernel/file.c:242-266 | reads in multiples of the cluster size, put together, are the bytes of the file up to the sum of the sizes or its end |
| `FileLoading.ReadsFollow` | kernel/file.c:242-266 | a sequence of reads through one descriptor delivers what the recorded position says, and leaves the position at the sum of the sizes or the end of the file |
| `FileLoading.SuccessiveFileReads` | kernel/file.c:242-266 | so the bytes delivered by successive reads in multiples of the cluster size are the bytes of the file from the first position on, each once |
| `FileLoading.ReadIsFile` | kernel/file.c:242-266 | a read whose range ends within the fetched clusters delivers the bytes of the file from its position on |
| `FileLoading.ImageIsFile` | kernel/process.c:262-275 | what Exec puts into the user page is the file, byte by byte, and zeros behind it, for a file in consecutive clusters |
| `KernelState.PoolPartition` | kernel/memory.c:209-240 | every page collected at boot is free, kept by the kernel, or belongs to exactly one process |
| `KernelState.PagesOfSlot` | kernel/process.c:428-476 | the pages of a process are its stack, the tables of its map and its user page |
| `KernelState.ForkExitWaitRestores` | kernel/process.c:131-241 | what was acquired for a slot and then released leaves the record of all pages as before |
| `KernelState.ProcessCreated` | kernel/process.c:428-476 | creating a process takes only free pages, all of them for its slot |
| `KernelState.ProcessUndone` | kernel/process.c:455-470 | without memory for the map all of them are back |
| `KernelState.StackAndMapReleased` | kernel/process.c:170-190 | freeing stack and map of a killed process releases exactly its pages |
| `LarvaKernel.Kernel.constructor` | kernel/process.c:54-61 | the zeroed globals |
| `LarvaKernel.Kernel.FindFreeProcessSlot` | kernel/process.c:284-297 | the first unused slot, or none |
| `LarvaKernel.Kernel.CreateNewProcess` | kernel/process.c:428-476 | succeeds exactly if a slot and four pages are free; a failure changes at most the pid counter |
| `LarvaKernel.Kernel.Fork` | kernel/process.c:195-241 | the child exists exactly if a slot and seven pages are free; its user page holds what the parent's holds, it shares the open files, and only free pages were taken; with four to six the slot stays behind, with its map exactly with four; with less nothing but a pid is used up |
| `LarvaKernel.Kernel.WaitRound` | kernel/process.c:153-193 | one round of the loop: sleep, clean up, or spin; on clean-up exactly the pages of that process become free and its files are closed |
| `LarvaKernel.Kernel.Exec` | kernel/process.c:243-281 | the user page becomes what a read of the whole file delivers, and zeros behind it, no other page in use changes, and the slots of open files are as before; a file that cannot be opened ends the process |
| `LarvaKernel.Kernel.Open` | kernel/file.c:146-217 | Open in the whole system, with the page the lookup borrows |
| `LarvaKernel.Kernel.Close` | kernel/file.c:219-240 | Close in the whole system |
| `LarvaKernel.Kernel.Read` | kernel/file.c:242-266 | exactly the bytes read change in the user page of the caller, and no other page in use does |
| `LarvaKernel.Kernel.GetFileSize` | kernel/file.c:268-275 | the recorded size, or -EBADF for an empty slot |
| `LarvaKernel.Kernel.InitMemory` | kernel/memory.c:147-154 | collects the usable pages and loads a map of them, exactly if there are three |
| `LarvaKernel.Kernel.InitFileSystem` | kernel/file.c:110-144 | succeeds exactly if bytes 510, 511 and 38 of the boot sector are 0x55, 0xAA and 0x29 and there are two pages, for the two tables |
| `LarvaKernel.Kernel.InitShell` | kernel/process.c:412-426 | the shell is ready, its user page starts with the 10240 bytes at 0x20000 and is zero behind them, exactly if seven pages are free |
| `LarvaKernel.Kernel.InitIdle` | kernel/process.c:402-410 | the idle process runs on the kernel's map |
| `LarvaKernel.Kernel.Boot` | kernel/main.c:12-22 | succeeds exactly if the entries of type 1 of the BIOS map hold twelve pages above the kernel and the boot sector has its three signature bytes; then the system invariant holds, the pool is exactly those pages, all but twelve are free, and the state is the start of the runs below |
| `LarvaKernel.Kernel.TimerInterrupt` | kernel/trap.c:91-103 | one tick, then the normal sleepers wake, then a yield |
| `LarvaKernel.Kernel.KeyboardHandler` | kernel/keyboard.c:91-100 | a scan code with a character appends it and wakes the readers, any other one only moves the modifier flags |
| `LarvaKernel.Kernel.SleepLoop` | kernel/syscall.c:91-110 | the loop of SysSleep at its test |
| `LarvaKernel.Kernel.ReadKey` | kernel/keyboard.c:102-116 | a read of a key, up to its end or to the sleep on an empty buffer; a key taken changes exactly one byte of the caller's user page |
| `LarvaKernel.Kernel.TakeKey` | kernel/keyboard.c:111-115 | the part behind the sleep, which does not look at the buffer again |
| `LarvaKernel.Kernel.WaitLoop` | kernel/process.c:153-193 | the loop of Wait as far as it gets without another process |
| `LarvaKernel.Kernel.InterruptHandler` | kernel/trap.c:88-145 | every step the model follows keeps the system invariant, and is a step as KernelSteps.Stepped says; what such a step means for each trap is stated in TrapMeanings |
| `LarvaKernel.Kernel.WhatIsFollowed` | kernel/trap.c:88-145 | which traps are followed: every interrupt, fault, fork, exit, wait and sleep, and the other calls exactly or at most under the conditions given |
| `LarvaKernel.Kernel.Run` | kernel/trap.c:88-145 | over any sequence of traps, up to the first that the model does not follow: the invariant holds at the end, the same pages are in the kernel's hands, below the same address, and what happened is a history, so that all results over histories and runs apply to it |
| `LarvaKernel.Kernel.BootAndRun` | kernel/main.c:12-22 | all that can happen from power-on: with twelve pages and the signatures a run from the booted state, which ends in a state with the system invariant and the pool that the memory map gave |
| `LarvaKernel.Kernel.LoseSlot` | kernel/process.c:195-241 | with 16 to 18 usable pages the first fork after boot leaves a slot behind |
| `LarvaKernel.Kernel.Conservation` | kernel/memory.c:161-240 | in every such state each page in the allocator's hands is free, kept by the kernel, or held by exactly one process in use |
| `LarvaKernel.Kernel.ProcessesIsolated` | kernel/memory.c:242-315 | no two live processes reach the same physical page in user mode |
| `LarvaKernel.Kernel.KernelHalfShared` | kernel/memory.c:242-264 | all live processes see the same kernel half |
| `LarvaKernel.Kernel.FreePageVisible` | kernel/memory.c:242-264 | after a boot from ascending regions, in every later state (BootAndRun keeps what the lemma requires), every page the allocator can return is visible at its own address in every live map |
| `UserMemory.PageRoundTrip` | kernel/process.c:262-275 | bytes stored in a page of words read back |
| `UserMemory.WholePageStored` | kernel/process.c:262-275 | after a store of a whole page nothing is left of the old program |
| `UserMemory.BytesDetermine` | kernel/process.c:262-275 | two pages with the same bytes are the same |
| `UserMemory.LowByteFirst` | kernel/process.c:262-275 | a word holds its bytes least significant first |
| `UserMemory.SeesUserPage` | kernel/memory.c:175-207 | the processor, walking the map in user mode, finds at USER_BASE + k byte k of the user page |
| `UserMemory.StoredIsSeen` | kernel/process.c:262-275 | after a store user mode sees the stored bytes at their addresses and what it saw before everywhere else |
| `UserMemory.ChildSees` | kernel/memory.c:271-315 | a child sees at every address what its parent sees |
| `Keyboard.PushAppends` | kernel/keyboard.c:172-185 | the ring appends the key, or drops it when 499 are waiting |
| `Keyboard.PopRemoves` | kernel/keyboard.c:108-115 | the ring gives up its oldest key; on an empty buffer the pointers then claim 499 keys |
| `Keyboard.FlagsMeaning` | kernel/keyboard.c:119-170 | over any sequence of scan codes the flags say: prefix pending, last shift code was a press, caps lock pressed an odd number of times |
| `Keyboard.LetterCase` | kernel/keyboard.c:143-168 | a letter key gives its capital exactly if one of shift and caps lock is on, but not both |
| `Keyboard.KeyRows` | kernel/keyboard.c:47-66 | the characters of the keys, row by row, without and with shift |
| `Keyboard.OtherKeys` | kernel/keyboard.c:47-66 | and of the keys outside the rows |
| `Keyboard.ModifierCodes` | kernel/keyboard.c:7-35 | the scan codes of the shift keys and caps lock |
| `Keyboard.KeyProduces` | kernel/keyboard.c:119-170 | after any sequence of scan codes: a release, a prefix and a key behind one give nothing; a letter key its small letter, or the capital if one of shift and caps lock is on; any other key its upper character exactly with shift |
| `Keyboard.KeyBuffer.WriteKeyBuffer` | kernel/keyboard.c:172-185 | refines the bounded queue |
| `Keyboard.KeyBuffer.ReadCharacter` | kernel/keyboard.c:119-170 | the branches of the decoder are the decoding function |
| `KernelSteps.StepKeepsPages` | kernel/trap.c:88-145 | every step keeps the set of pages in the kernel's hands, the pages it keeps for itself, and use and content of the pages of all processes but the current one, unless these become free |
| `KernelSteps.StepKeepsFiles` | kernel/trap.c:88-145 | no step forgets what is recorded of an open file |
| `TrapMeanings.TimerMeans` | kernel/trap.c:91-103 | one tick more; sleepers for ticks can run, no other sleeper wakes, ready ones stay so; the head of the ready list runs next |
| `TrapMeanings.KeyMeans` | kernel/keyboard.c:91-185 | a scan code with a character appends it to the waiting keys, unless 499 wait, and readers can run; any other changes nothing but the flags |
| `TrapMeanings.ExitMeans` | kernel/process.c:131-151 | after exit, or a fault of user mode, the process is killed, listed as such and not current, and waiters for an exit can run |
| `TrapMeanings.SleepMeans` | kernel/syscall.c:91-110 | SysSleep of no ticks goes on at once; of any other number it sleeps for ticks and another process runs |
| `TrapMeanings.SleepsForTicks` | kernel/syscall.c:91-110 | over any history: a process that calls SysSleep(n) in step k is back in user mode only when n ticks have passed, and then without going to sleep again |
| `TrapMeanings.KeyCallMeans` | kernel/syscall.c:125-150 | SysRead of a key: the oldest waiting key goes to the address; with none waiting the process sleeps for one |
| `TrapMeanings.KeyReturns` | kernel/keyboard.c:102-116 | over any history: when the call returns, one key is delivered and stored at the address of the call, and nothing else |
| `TrapMeanings.WaitMeans` | kernel/process.c:153-193 | a Wait, called or gone on with, for a killed process: its slot is empty, exactly its pages are free, its files are closed, no other process changes, and the caller goes on |
| `TrapMeanings.WaitSleeps` | kernel/process.c:153-193 | with nobody killed the caller sleeps until an exit, in that Wait |
| `TrapMeanings.WaitStays` | kernel/process.c:153-193 | with only others killed it stays in Wait and nothing changes |
| `TrapMeanings.WaitReturns` | kernel/process.c:153-193 | over any history: Wait(pid) returns only by a step at which a killed process had the pid, which is cleaned up then |
| `TrapMeanings.ForkMeans` | kernel/process.c:195-241 | with a free slot and seven pages the child is in a slot that was empty, last in line, with the next pid and the files of the parent, and sees at every address what the parent sees; the parent goes on |
| `TrapMeanings.OpenMeans` | kernel/file.c:146-217 | the slot returned leads to the beginning of the file whose directory entry has the name |
| `TrapMeanings.CloseMeans` | kernel/file.c:219-240 | the slot is empty, and no other file slot of any process changes |
| `TrapMeanings.ReadMeans` | kernel/file.c:242-266 | from a cluster boundary on, for a file in consecutive clusters, user mode sees at the address the bytes of the file from the position on, as many as asked for or as are left, and the position is that much further |
| `TrapMeanings.ExecMeans` | kernel/process.c:243-281 | user mode sees the file, which lies in consecutive clusters, at USER_BASE and zeros behind it |
| `TrapMeanings.FailedExecMeans` | kernel/process.c:243-281 | Exec of a file that cannot be opened is an exit |
| `TrapMeanings.StoreMeans` | kernel/memory.c:175-207 | a store of user mode changes what it sees exactly where it stored |
| `KernelHistories.PoolStays` | kernel/memory.c:209-240 | over any run the pages in the kernel's hands and those it keeps for itself are the same ones |
| `KernelHistories.OpenFilesStay` | kernel/file.c:146-266 | over any run of the kernel, as long as a file stays open its first cluster, size and name are the same |
| `KernelHistories.HistoryIsRun` | kernel/trap.c:88-145 | every run of the kernel is a run of SystemRuns |
| `KernelHistories.HistorySchedules` | kernel/trap.c:88-145 | and what the scheduler does in it is a run of SchedulerRuns |
| `KernelHistories.ForkAtOnce` | kernel/process.c:195-241 | with four to six free pages after boot the first fork leaves the slot of the child behind |
| `PhysicalMemory.MapWithPages` | kernel/memory.c:90-145 | a memory map with any number of usable pages |
| `SystemRuns.SchedulerRun` | kernel/trap.c:88-145 | what the scheduler does in a run of the system is a run of the scheduler |
| `SystemRuns.SleepsLongEnough` | kernel/syscall.c:91-110 | SysSleep(n) returns after at least n ticks, having called Sleep at most n times, in every run |
| `SystemRuns.SleepKeeps` | kernel/syscall.c:91-110 | the invariant behind it |
| `SystemRuns.WaitSpins` | kernel/process.c:160-192 | the exact condition under which Wait hangs the system |
| `SystemRuns.WaitCanSpin` | kernel/process.c:160-192 | a run from boot to a state whose only step changes nothing |
| `SystemRuns.KeysAreFifo` | kernel/keyboard.c:91-116 | with at most one reader in the middle of a read, delivered keys followed by buffered ones are the accepted ones in every state of every run, and a reader that resumes finds a key |
| `SystemRuns.ResumedRead` | kernel/keyboard.c:102-116 | for any number of readers, a step keeps that order exactly if it does not resume a reader that finds the buffer empty or another key than the oldest |
| `SystemRuns.FifoExact` | kernel/keyboard.c:102-116 | over runs: the order is kept in all states exactly if all steps are so |
| `SystemRuns.TwoReaders` | kernel/keyboard.c:106-115 | two readers asleep, and one key that both get |
| `SystemRuns.OrderCanBreak` | kernel/keyboard.c:106-115 | such a run exists from boot on |
| `SystemRuns.InitialSystem` | kernel/main.c:12-22 | the state after boot meets the invariants of these runs |
| `MemoryBlocks.MemCpy` | libc/string.c:29-43 | copies byte by byte, lowest first |
| `MemoryBlocks.MemCpyExact` | libc/string.c:29-43 | which is a correct move exactly if the target is not above the source inside it |
| `MemoryBlocks.MemMove` | libc/string.c:45-72 | a correct move in all cases |
| `MemoryBlocks.MemSet` | libc/string.c:3-11 | fills the block and nothing else |
| `Console.Screen.WriteVGA` | kernel/printk.c:282-333 | the screen shows the 25-line window of an unbounded roll with the text put on it; every write lands on the screen |
| `Console.Screen.Scroll` | kernel/printk.c:290-300 | moves all 24 lines intact, although source and target overlap |
| `Console.TextAppears` | kernel/printk.c:282-333 | text without control characters appears where the cursor was, across line ends and scrolls |
| `Console.TextOnScreen` | kernel/printk.c:282-333 | the same by the bytes of the screen: character i at 160 * row + 2 * (column + i), its color behind it |
| `Console.NewlineMoves` | kernel/printk.c:282-333 | a newline goes to the start of the next line, in any state of the roll, also below the last line, where the scroll that was put off comes first |
| `Console.BackspaceUndoes` | kernel/printk.c:303-318 | a backspace takes back a character just printed |
| `Console.BackspaceAtTop` | kernel/printk.c:303-318 | it does nothing exactly at the top left of the window |
| `Console.PastIsFixed` | kernel/printk.c:282-333 | lines that left the window never change |
| `Numerals.ParseNumeral` | kernel/printk.c:229-266 | parsing the digits gives the number back |
| `Numerals.DigitCharacters` | kernel/printk.c:229-280 | the characters of the digits, the prefix and the sign |
| `Numerals.NoLeadingZero` | kernel/printk.c:229-266 | no leading zero but for the number 0 |
| `Numerals.NumeralIsUnique` | kernel/printk.c:229-266 | the text is the only one of digits without leading zero for its number |
| `Numerals.DigitsFit` | kernel/printk.c:229-266 | at most 16 or 20 digits, so the scratch array suffices |
| `Numerals.WriteHexToBuffer` | kernel/printk.c:229-248 | writes the prefix and the digits, returns the size, changes nothing else |
| `Numerals.WriteUDecimalToBuffer` | kernel/printk.c:250-266 | writes the digits, returns the size, changes nothing else |
| `Numerals.WriteDecimalToBuffer` | kernel/printk.c:268-280 | writes the signed number, also the least one |
| `Numerals.ParseDecimalRoundTrip` | kernel/printk.c:268-280 | parsing that gives the number back |

## Findings

Properties that the code fails, each with a concrete case and the exact condition under which it holds.

- Two readers break the order of keys (`kernel/keyboard.c:106-115`): `ReadKeyBuffer` does not look at the
  buffer again after its sleep. `SystemRuns.OrderCanBreak` gives a run from boot in which one key is delivered
  twice; `SystemRuns.ResumedRead` and `SystemRuns.FifoExact` say for every step and every run when the order
  is kept; `SystemRuns.KeysAreFifo` shows that it always is with one reader at a time.
- A read past the fetched clusters (`kernel/file.c:446-460`): the number of clusters is computed from the size
  alone, so a read that starts inside a cluster can reach behind them and deliver old contents of the scratch
  page. `FatData.StaleReadExists` is a volume and a read that do, `FatData.ReadIsExact` is the exact condition.
- A read whose end does not fit 32 bits is not cut off at the end of the file (`kernel/file.c:250-258`):
  `FatData.ReadStaysInFile`. For example 512 bytes at the end of a file of 2^32 - 256 bytes.
- `Wait` for a process that is not killed hangs the system as soon as another one is
  (`kernel/process.c:160-192`): `SystemRuns.WaitCanSpin` is a run from boot to such a state,
  `SystemRuns.WaitSpins` the exact condition.
- `memcpy` spoils a block that is moved upwards onto itself (`libc/string.c:29-43`): `MemoryBlocks.MemCpyExact`.
  For example two different bytes, moved up by one. The scroll moves downwards and is right.
- Rounding an address up to a page boundary fails in the last page of the address space
  (`kernel/memory.h:141-146`): `MemoryMacros.AlignUpIsCeiling`. For example 2^64 - 1, which gives 0.
- A fork that gets no page for the child leaves the child's slot filled (`kernel/process.c:208-211`): outcome
  `NoCopy`, which occurs exactly with a free slot and four to six free pages. The slot keeps its stack, and with
  exactly four pages also its map, which `CopyUVM` gives up only after its first page (`KernelSteps.ForkDone`,
  the contract of `LarvaKernel.Kernel.Fork`). The slot is never used or emptied again
  (`ProcessLifetimes.SlotIsLost`). `LarvaKernel.Kernel.LoseSlot` runs into this after boot on a machine with 16
  to 18 usable pages, and `PhysicalMemory.MapWithPages` gives the memory map of such a machine.

## Left out

Steps that `LarvaKernel.Kernel.Run` does not follow. It stops at the first of them (`Kernel.Follows`), since the
code then leaves its data structures, or does what the model has no words for:

- LarvaKernel.Kernel.Run: a descriptor outside the table in `Close` or `Read`, which the code does not check (`kernel/file.c:221`, `kernel/file.c:246`).
- LarvaKernel.Kernel.InterruptHandler: the same inputs are excluded for single steps. Negative descriptors and sizes, which the `int` parameters of the calls admit, are no values of `Trap` (`kernel/file.c:219`, `kernel/file.c:242`).
- LarvaKernel.Kernel.Open: needs a free page, because `FindFileInRootDir` uses the result of `kalloc` unchecked (`kernel/file.c:331`); and a name with a terminating NUL.
- LarvaKernel.Kernel.Read: needs a free page for the same reason (`kernel/file.c:454`), a buffer inside the caller's user page, since `memcpy` writes through an unchecked pointer (`kernel/file.c:460`), and a range that fits the scratch page and the one-byte sector count of the disk.
- LarvaKernel.Kernel.Exec: needs a file that can be read whole into one page in this sense. The path of Exec on which `Read` fails is not taken then.
- LarvaKernel.Kernel.ReadKey: needs a target inside the caller's user page. `SysRead` of several keys is modelled as several reads of one; the model lets interrupts in between them, the code does not, so that every run of the code is one of the model.
- FatData.ReadRawData: the same restrictions on cluster numbers, sector counts and the scratch page.
- Faults in kernel mode, spurious interrupts, and system-call numbers that pass the guard of `SystemCall` without an entry (`kernel/syscall.c:54-71`).

Weaker than the code or its environment in other ways:

- PhysicalMemory.Memory.MapPages: assumes a range that does not wrap around, as all callers pass, and is exact about the tables it needs only for ranges within one page directory, which all callers stay in.
- PhysicalMemory.Memory.FreePages: the same for wrap-around.
- PhysicalMemory.Memory.RetrieveMemoryInfo: assumes that no page lies in two entries of type 1, fewer than 50 entries, and regions whose ends fit 64 bits as kernel addresses; the total memory counter is not modelled.
- PhysicalMemory.Memory.SetupUVM: copies whole 8-byte words, so sizes and addresses are multiples of 8, as the callers' are.
- PhysicalMemory.Memory.CopyUVM: the same.
- LarvaKernel.Kernel.Boot: of the boot sector only the signatures are read; the fields of its parameter block are the fields of `Volume`. A boot without enough memory, or with a wrong signature, is a halt.
- FatDirectory.FindFileInRootDir: `bytes_per_sector` is the constant 512, where the code reads it from the parameter block, but assumes 512 in the disk driver.
- FatData.ConsecutiveFile: chains that are not consecutive are out of reach of the code and of the results; it follows no FAT chain.
- SchedulerRuns.RunKeeps: pids are unbounded, so the overflow of the 32-bit counter is not modelled; neither is that of the 64-bit tick counter in `SystemRuns.SleepsLongEnough`.
- SystemRuns.WaitSpins: a spin is a step that changes nothing.
- LarvaKernel.Kernel.CreateNewProcess: the saved registers, the trap frame on the new kernel stack, and the stack pointer that the processor loads on entry to the kernel are not modelled; where a process goes on is the field `places`.
- LarvaKernel.Kernel.Fork: the child returns to user mode with the parent's registers; only the page content, the files and the pid are modelled.

Not modelled at all:

- Boot and loader assembly, descriptor tables, interrupt and timer controllers, port input and output; keys arrive as scan codes, the disk is a fixed sequence of sectors.
- `Lstat`, `SysWrite`, `SysMemInfo`, `SysClrSrc`: they read state or write to the screen.
- `printk` and `sprintk` themselves: walking variable arguments, the 1024-byte buffer.
- User programs, the shell, the C++ runtime and the system-call stubs.
- FAT chains, subdirectories, long names and writing, which the code does not implement.
