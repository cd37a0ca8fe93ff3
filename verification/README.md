# A verified model of the kernel's state machines

This project models seven parts of the 32-bit kernel under `tp1/src` in Dafny and proves
what they are for.

- **Virtual memory** (`mm.c`, with the paging half of `loader.c`). `VirtualMemory` is the
  state of all processes together and the steps on it, physical page 0 and the state of the
  panic handler included; `VmInvariant` proves what every step keeps, `CowRefinement` that
  copy-on-write fork cannot be told from eager copying, `KernelWindow` when the kernel's own
  uses of user memory keep that true, `Palloc` when `sys_palloc` is fresh, and `Access` what
  an access gives to its process. The code below is in the classes `FrameMaps.FrameMap`
  (a bitmap of 32-bit words, on `FrameWords`), `PageWords.PageWords` (page-table words, on
  `PageEntries` and `Digits`) and `Mm.Mm` (two-level tables, on `Tables`), updated in place.
  Each method of `Mm.Mm` states its effect as a step of `VirtualMemory` on `Abs()`.
  `VmRuns.Do` carries out any call of any process on the tables, switched to first;
  `VmRuns.DoAll` and `VmRuns.Session` carry out sequences of them, as long as they are safe
  in the sense of `VmInvariant.Safe`: what they do is a run of `VmInvariant`, keeps its
  invariant, and refines eager copying. `CowRefinement.StepExact` says that exactly the safe
  steps do.
- **Scheduler, loader, semaphores** (`sched.c`, `loader.c`, `sem.c`). `Scheduling` has the
  ring, the queues and the free pids as sequences; `Semaphores` one semaphore alone.
  `Kernel.Kernel` is the three files over their linked arrays, method by method and then
  for whole runs; `LinkedLists` are the circles and chains in those arrays.
- **Pipe** (`pipe.c` on `sem.c`). `Pipes` has the steps between blocking points, for one
  reader and one writer, while any processes copy and close descriptors of either end;
  `PipeQueues` compares them with a queue of bounded length, and `PipePages.PipePage` is the
  code on the fields of the pipe page.
  The parameter `clears` is false for the code as written and true for a version whose
  lines 186-187 clear the reader's flag as lines 136 and 171 do.
- **Descriptors and reference counts** (`device.c`, `pipe_flush`, `con_flush`): `Devices`,
  and the class `DeviceTables.DeviceTable`. `Processes` runs them together with the
  scheduler, whose pids index the rows.
- **Keyboard buffer** (`con.c`): `Consoles`, with the class `Consoles.Console`.
- **Numbers** (`lib_str.c`): `Numbers`, on the 32-bit integers of `Words`.
- **FAT12** (`fat12.c` and the boot loader's decoder): `Fat12`.

`MAX_PID`, `QUANTUM`, the buffer sizes, the number of semaphores, the memory size and the
descriptors per process are parameters. `Rings` holds the circular buffers shared by the
pipe and the console.

Results where the code does less than it might be taken to promise:

- `debug_kernelpanic` returns the first time, so a fault at a page that was never granted
  falls through to a word of physical page 0. It is served exactly when it is the first one
  and that word, at the page's table index, is requested and not present
  (`VmInvariant.StrayServedExactly`); the vector of interrupt 19h is such a word
  (`KernelWindow.BiosVectorServes`). Otherwise the machine stops.
- The kernel's uses of `KERNEL_TEMP_PAGE` leave that entry of the caller reading as
  requested, so a process is given the page by touching it, and the next load, fork or copy
  on write of that process takes it away. A load or a copy keeps the frames in use exactly
  when the entry is absent or its frame is mapped elsewhere
  (`KernelWindow.LoadKeepsExactly`, `CopyKeepsExactly`), a fork keeps what the parent sees
  exactly when it is absent (`ForkKeepsExactly`), and `WindowRunLoses` is a run from the boot
  that loses a frame.
- A user access below 4 MB never completes. It takes a frame that nobody maps exactly when
  the word of physical page 0 there is requested or, for a write, copy-on-write and not
  counted once (`KernelWindow.LowKeepsExactly`).
- A store by the kernel into a user page is the write of the process exactly when the page
  is not copy-on-write, has one mapper, or holds the byte (`KernelWindow.KernelStoreExactly`).
- A write on a pipe overruns unread bytes exactly when it finds no room and no sleeping
  reader, and a reader's flag or a signal is left over (`Pipes.StepExact`). The code as
  written leaves such a flag (`Pipes.StaleFlagOverruns`). A read of 0 bytes that wakes a
  writer frees no room, so it is unsafe too.
- A call on the pipe does what it would do to a queue of bounded length exactly when a read
  is not cut short by a leftover flag or signal and a write waits for the room it needs
  (`PipeQueues.StepIsQueueExactly`); with the flag cleared every read of at least one byte
  and every write does (`PipeQueues.ClearedIsQueue`).
- `pipe_flush` signals nobody: a process asleep in a pipe can still be woken exactly while
  a descriptor of the other end is open (`Pipes.WokenExactly`, `Pipes.CloseStrands`).
- `sched_load` and `sched_unblock` keep every task exactly when a task runs or the ring is
  empty (`Scheduling.LoadKeepsExactly`, `WakeKeepsExactly`; `LoadDrops` and `WakeDrops` are
  runs from the boot that end outside). `scheduler_test.c:4-16` expects loads from the idle
  task to queue up; the model follows the code.
- `sys_palloc` returns the page that opens a directory entry again exactly when the first
  fault under that entry is at another page (`Palloc.TwiceExactly`). It can also return the
  kernel's own temporary page, once (`Palloc.TempAnsweredExactly`).
- `mm_times_mapped` reads physical page 0 for a directory without a table: the count is
  right exactly when no word there names the frame (`Tables.CountExactly`).
- A shared mark does not outlive the next write if the page was copy-on-write and had
  another mapper (`CowRefinement.ShareSurvivesExactly`).
- `num_into_string` prints a number right exactly when its leading power of the base is
  below 2^31 (`Numbers.PrintedExactly`): always in bases 10 and 16. `str_into_num` reads
  all numerals of a length right exactly when the leading power of that length is below
  2^32 (`Numbers.ReadExactly`).
- `str_into_hex` takes a printed 0 followed by an x for a prefix; hexadecimal numbers come
  back exactly otherwise, or if a lone 0 follows that x (`Numbers.HexRoundTrip`).
- `chardev_file_mov` cuts a read at the end of the file exactly while the cursor is not
  behind that end and size plus cursor does not wrap around 32 bits
  (`Fat12.ChardevFile.Read`). `chardev_file_seek` can put it there.
- Cluster 2 is the sector behind the root directory exactly when that has a number between 2
  and 2^16 + 1 (`Fat12.DataStartExactly`).

## Model

| member | source | states |
|---|---|---|
| `FrameWords.SetTouchesOneBit` | tp1/src/include/mm.h:82-84 | setting a bit of a bitmap word changes the test of that bit and of no other |
| `FrameWords.UnsetTouchesOneBit` | tp1/src/include/mm.h:82-84 | clearing a bit changes the test of that bit and of no other |
| `FrameWords.OccupiedIsFull` | tp1/src/include/mm.h:78-82 | a word equals PFI_OCCUPIED exactly when all 32 bits test as set |
| `FrameMaps.FramesUpdate` | tp1/src/include/mm.h:82-84 | one bit of the bitmap is one frame of the set it stands for |
| `FrameMaps.FrameMap.Alloc` | tp1/src/kernel/mm.c:14-31 | the lowest free frame outside the last word, or none exactly when all those are taken; on the words, the set of frames grows by that frame only |
| `FrameMaps.FrameMap.Free` | tp1/src/kernel/mm.c:127-129 | exactly one frame leaves the set, undoing its allocation |
| `PageEntries.DecodeAbsent` | tp1/src/kernel/mm.c:110-110 | the mask of mm_table_free and mm_page_free clears presence and keeps the frame number |
| `PageEntries.DecodeOwned` | tp1/src/kernel/mm.c:385-386 | the masks for a sole owner turn copy-on-write into writable and keep the rest |
| `PageEntries.DecodeShared` | tp1/src/kernel/mm.c:375-375 | marking a word shared changes nothing else in it |
| `PageEntries.DecodeAsked` | tp1/src/kernel/mm.c:334-338 | requesting a page sets the request bit alone among the attributes |
| `PageEntries.DecodeForkMark` | tp1/src/kernel/mm.c:244-254 | the masks of mm_page_fork leave shared words alone and make the others read-only and copy-on-write |
| `PageEntries.DecodeMapped` | tp1/src/kernel/mm.c:170-191 | a word composed from an address and attributes decodes to a present entry for the frame of that address |
| `PageEntries.AddressOfFrame` | tp1/src/kernel/mm.c:168-171 | the address of a frame, put together from its directory and table index, has that frame in the bits a word keeps |
| `PageWords.PageWords.Map` | tp1/src/kernel/mm.c:170-191 | the word stored for a mapping is the entry present, writable, for that frame, and no other word changes |
| `PageWords.PageWords.Absent` | tp1/src/kernel/mm.c:110-110 | the store that clears presence changes one entry to absent with its frame kept |
| `PageWords.PageWords.Ask` | tp1/src/kernel/mm.c:338-350 | the store that requests a page, on the words, is the requested entry |
| `PageWords.PageWords.TakeOver` | tp1/src/kernel/mm.c:385-386 | the two stores for a sole owner make the entry writable and not copy-on-write |
| `PageWords.PageWords.Share` | tp1/src/kernel/mm.c:375-375 | the store of the shared mark changes nothing else |
| `PageWords.PageWords.Mark` | tp1/src/kernel/mm.c:244-250 | the stores for an unshared present entry at a fork make it read-only and copy-on-write |
| `PageWords.PageWords.CopyOnto` | tp1/src/kernel/mm.c:281-287 | the directory word of the child: the attributes of the parent's with the new table |
| `Tables.WriteTable` | tp1/src/kernel/mm.c:190-193 | one table word changes the translation of one page of one directory and no other translation anywhere |
| `Tables.AddTable` | tp1/src/kernel/mm.c:181-189 | giving a directory a fresh table changes no translation in any directory |
| `Tables.AddDirectory` | tp1/src/kernel/mm.c:48-55 | a fresh directory is an empty address space and leaves the others as they were |
| `Tables.AskTable` | tp1/src/kernel/mm.c:349-353 | requesting a directory entry without table changes no translation |
| `Tables.ForkStep` | tp1/src/kernel/mm.c:237-260 | one iteration over a table copies one page to the child and marks it in the parent, everything else unchanged |
| `Tables.GiveUp` | tp1/src/kernel/mm.c:78-97 | without the freed directory the remaining directories translate as before |
| `Tables.RawIsWord` | tp1/src/kernel/mm.c:215-228 | the word that the page walks read through a directory entry is that of the table, and without a table one of physical page 0 |
| `Tables.AllTablesLeft` | tp1/src/kernel/mm.c:83-90 | what the loop over the directory gives back is the set of its table frames |
| `Tables.CountExactly` | tp1/src/kernel/mm.c:215-228 | mm_times_mapped counts the live processes that map the frame there exactly when no word of physical page 0 names it where one of them has no table |
| `Mm.BitmapChoice` | tp1/src/kernel/mm.c:120-126 | the signed comparison picks the right bitmap exactly for addresses below 2 GB |
| `Mm.Mm.MemAlloc` | tp1/src/kernel/mm.c:33-36 | a user frame not in use, the lowest one, is added to the frames in use; fails exactly when none can be handed out |
| `Mm.Mm.MemKalloc` | tp1/src/kernel/mm.c:38-46 | a cleared kernel frame that belongs to no directory or table; all address spaces unchanged |
| `Mm.Mm.MemFree` | tp1/src/kernel/mm.c:116-131 | the frame leaves the bitmap it came from and the other bitmap is unchanged |
| `Mm.Mm.DirNew` | tp1/src/kernel/mm.c:48-55 | a new directory that maps nothing, all others unchanged |
| `Mm.Mm.PageMap` | tp1/src/kernel/mm.c:167-194 | the page translates to the given frame and every other translation in every directory is unchanged, also when a table is allocated |
| `Mm.Mm.PageFree` | tp1/src/kernel/mm.c:196-213 | only that page stops being present, and its frame is returned; without a table nothing happens and NULL is returned |
| `Mm.Mm.TimesMapped` | tp1/src/kernel/mm.c:215-228 | the count of registered directories whose word at these indices names the frame |
| `Mm.Mm.CountIsCounted` | tp1/src/kernel/mm.c:215-228 | for any frame and page that count is the number of live processes whose word there has that base, be it in a table or in physical page 0 |
| `Mm.Mm.CopyVf` | tp1/src/kernel/mm.c:298-316 | the frame receives the bytes of the range, its own if the range is in the window; beside it only the temporary mapping changes; a range across pages is refused with MM_ERROR_NOTALIGNED |
| `Mm.Mm.SysPalloc` | tp1/src/kernel/mm.c:318-357 | the two nested scans return and request what VirtualMemory.Palloc does |
| `Mm.Mm.SharePage` | tp1/src/kernel/mm.c:359-379 | at any address: the shared mark on one word of the running process, or of physical page 0 where it has no table, and nothing else |
| `Mm.Mm.CopyOnWritePage` | tp1/src/kernel/mm.c:381-403 | the sole mapper takes the page over, any other gets a private copy; below 4 MB the same on the word of physical page 0, with the kernel's page for contents |
| `Mm.Mm.PageFault` | tp1/src/kernel/mm.c:406-474 | at any address: a requested page or directory entry gets a free frame, a write to a copy-on-write page is resolved, a first stray fault panics and is handled on the word of physical page 0, a second one stops the machine, all other faults change nothing; it fails exactly when the frames it needs were not there before |
| `Mm.Mm.TableDecides` | tp1/src/kernel/mm.c:181-189 | in a user process both levels together let an access through exactly when the table entry does |
| `Mm.Mm.UserRead` | tp1/src/kernel/mm.c:406-474 | at any address: the byte an unprivileged read returns after its faults were handled, or the refusal, and the state they leave; a permitted one never fails |
| `Mm.Mm.UserStore` | tp1/src/kernel/mm.c:406-474 | at any address: an unprivileged write with its faults is the abstract write; one byte of one frame changes, or it is refused; a permitted one never fails |
| `Mm.Mm.PageFork` | tp1/src/kernel/mm.c:237-260 | parent and child tables after the loop, shared entries copied as they are |
| `Mm.Mm.DirFork` | tp1/src/kernel/mm.c:263-296 | a directory that holds what the parent maps, both marked for copy-on-write; it fails exactly without a kernel frame for itself and each of the parent's tables |
| `Mm.Mm.SysFork` | tp1/src/kernel/loader.c:192-242 | on the tables fork is the abstract Fork with two new stack frames, exactly if there are frames for the directory, the tables and the stacks |
| `Mm.Mm.LoaderLoad` | tp1/src/kernel/loader.c:37-104 | loading is the abstract Spawn of a process with a code page and two stacks, exactly if there are frames for those, a directory and its tables |
| `Mm.Mm.TableFree` | tp1/src/kernel/mm.c:99-114 | of the frames of one table exactly those leave the bitmap that are neither shared nor copy-on-write, or that the count finds mapped once |
| `Mm.Mm.DirFree` | tp1/src/kernel/mm.c:78-97 | the bitmaps lose exactly the planned user frames, all table frames and the directory |
| `Mm.Mm.ReleasedIsFreed` | tp1/src/kernel/mm.c:99-114 | what the loops free is what the abstract Exit frees |
| `Mm.Mm.SwitchToExit` | tp1/src/kernel/loader_switch.asm:106-113 | after the switch the process is gone and the state is the abstract Exit |
| `Mm.Mm.SwitchTo` | tp1/src/kernel/loader_switch.asm:38-68 | the directory of the process is in CR3 and no address space changes |
| `VmRuns.Do` | tp1/src/kernel/loader_switch.asm:38-68 | any call of any live process at any address, switched to first, is the event of that call on the tables and returns what the event shows, exactly if the frames it needs were left before; a harmless one keeps the invariant |
| `VmRuns.HarmlessIsSafe` | tp1/src/kernel/mm.c:298-403 | a call is harmless exactly when the event that carries it out is safe |
| `VmRuns.DoAll` | tp1/src/kernel/mm.c:215-474 | any sequence of calls on the tables, as far as memory lasts and each is harmless, is a run with its invariant, and every process sees what eager copying would show it |
| `VmRuns.Session` | tp1/src/kernel/mm.c:499-524 | from the boot on the bytes that all reads return are those of the eager machine |
| `VmInvariant.CountedOne` | tp1/src/kernel/mm.c:215-228 | outside the window mm_times_mapped gives 1 exactly when no other live directory maps the frame anywhere |
| `VmInvariant.FreedExactly` | tp1/src/kernel/mm.c:99-114 | exit frees a user frame exactly when no other live directory maps it |
| `VmInvariant.ForkInv` | tp1/src/kernel/mm.c:263-296 | fork keeps the invariant of all directories together |
| `VmInvariant.ExitInv` | tp1/src/kernel/mm.c:78-97 | after an exit the user frames in use are again exactly those the live directories map |
| `VmInvariant.TouchInv` | tp1/src/kernel/mm.c:406-474 | handling the faults of an access at any address keeps the invariant, if a frame is taken for a page above 4 MB only and not by a copy while the window holds a page |
| `VmInvariant.StrayServedExactly` | tp1/src/kernel/mm.c:435-459 | a fault under a directory entry with neither table nor request takes a frame exactly when it is the first and the word of physical page 0 at the page's table index is requested and not present; otherwise the machine stops |
| `VmInvariant.FaultSettles` | tp1/src/kernel/mm.c:406-474 | after an access was handled it is permitted, the machine has stopped, or a further fault on it changes nothing |
| `VmInvariant.SpawnInv` | tp1/src/kernel/loader.c:37-104 | loading a program keeps the invariant |
| `VmInvariant.ShareInvExactly` | tp1/src/kernel/mm.c:359-379 | marking a page shared keeps the invariant exactly when it has no table, is absent, or is a user page that is not copy-on-write and not the window |
| `VmInvariant.PallocInv` | tp1/src/kernel/mm.c:318-357 | requesting pages keeps the invariant |
| `VmInvariant.AskPageChanges` | tp1/src/kernel/mm.c:318-357 | a request changes no present entry and at most one absent one |
| `VmInvariant.StepInv` | tp1/src/kernel/mm.c:215-474 | every safe event of the kernel keeps it |
| `VmInvariant.RunInv` | tp1/src/kernel/mm.c:215-296 | the invariant holds after any run |
| `VmInvariant.RunKeeps` | tp1/src/kernel/mm.c:215-474 | in every state reached by safe events frames in use are the mapped ones, and a frame mapped twice without sharing is read-only and copy-on-write in both, at one page number |
| `Access.CompletesExactly` | tp1/src/kernel/mm.c:425-474 | a user access completes exactly at a page above 4 MB that is present for users, requested by its entry or by its directory entry, or owed to a first stray fault; a page that was owed is the one new frame |
| `Access.ReadsBack` | tp1/src/kernel/mm.c:381-474 | after a write at such a page a read by the same process returns the byte written |
| `Access.RunHolds` | tp1/src/kernel/mm.c:318-474 | a page that is present or requested stays so along any run of the kernel, as long as its process lives and stays on what it was granted |
| `Access.AnswerServed` | tp1/src/kernel/mm.c:318-474 | a page returned by palloc is there whenever its process touches it, however much later and whatever others do |
| `Access.ChildHolds` | tp1/src/kernel/mm.c:237-296 | a child is granted what was present in its parent and nothing its parent had only requested; the parent keeps its requests |
| `Access.ForkStacks` | tp1/src/kernel/loader.c:206-236 | a child has a copy of its parent's stack, and the ring 0 stack built for it, which users cannot reach |
| `Access.LoadPages` | tp1/src/kernel/loader.c:44-95 | a loaded program has its code, a stack and its ring 0 stack, and no other page |
| `CowRefinement.ForkRefines` | tp1/src/kernel/mm.c:237-296 | fork shows parent and child what copying every private page at once would |
| `CowRefinement.WriteRefines` | tp1/src/kernel/mm.c:381-403 | a write with its copy-on-write fault is a plain write to the writer's own copy |
| `CowRefinement.ReadRefines` | tp1/src/kernel/mm.c:406-474 | a read returns the byte of the eager machine |
| `CowRefinement.StepRefines` | tp1/src/kernel/mm.c:215-474 | each safe event is matched by its eager actions, with the same bytes read |
| `CowRefinement.StepExact` | tp1/src/kernel/mm.c:215-474 | a step keeps the invariant and what every process sees exactly when it is safe, a test of the state before it |
| `CowRefinement.CowRefinesEager` | tp1/src/kernel/mm.c:215-474 | over any run of safe events each process sees the memory it would have had if fork had copied, all sharers see one memory, and all reads agree |
| `CowRefinement.RunExact` | tp1/src/kernel/mm.c:215-474 | a whole run keeps both at every step exactly when all its steps are safe |
| `CowRefinement.BootRefines` | tp1/src/kernel/mm.c:499-524 | the two machines agree at boot |
| `CowRefinement.ShareSurvivesExactly` | tp1/src/kernel/mm.c:359-403 | a shared mark survives the next write exactly when the page was not copy-on-write or had one mapper |
| `KernelWindow.LoadKeepsExactly` | tp1/src/kernel/loader.c:37-104 | a load leaves the frames in use the mapped ones exactly when its caller has no page at the window or the frame of that page is mapped elsewhere |
| `KernelWindow.CopyKeepsExactly` | tp1/src/kernel/mm.c:381-403 | the copy for a write to a page that others map does so under the same condition |
| `KernelWindow.ForkKeepsExactly` | tp1/src/kernel/loader.c:192-242 | a fork shows parent and child what eager copying would exactly when the parent has no page at the window |
| `KernelWindow.SharedWindowExactly` | tp1/src/kernel/mm.c:196-228 | a shared page at the window stays in use after the exit of its process, mapped by nobody, exactly when another process has its number left there |
| `KernelWindow.LoadLoses` | tp1/src/kernel/mm.c:298-316 | a load by a process with a page at the window leaves the frame of that page in use and unmapped |
| `KernelWindow.WindowRunLoses` | tp1/src/kernel/mm.c:196-213 | a run of safe events from the boot after which a load loses a frame |
| `KernelWindow.KernelStoreExactly` | tp1/src/kernel/pipe.c:126-130 | a store by the kernel into a user page is the write of its process exactly when the page is not copy-on-write, is counted once, or holds the byte |
| `KernelWindow.LowKeepsExactly` | tp1/src/kernel/mm.c:449-470 | an access below 4 MB never completes, and keeps the invariant exactly when the word of physical page 0 there takes no frame |
| `KernelWindow.BiosVectorServes` | tp1/src/kernel/mm.c:435-459 | with the vector of interrupt 19h in place a first stray fault at table index 25 is served and the invariant kept |
| `Palloc.LowestOpen` | tp1/src/kernel/mm.c:325-356 | the answer is the lowest open page from 4 MB on, and NULL exactly when there is none |
| `Palloc.FreshAnswer` | tp1/src/kernel/mm.c:318-357 | the answer is at or above 4 MB, was neither present nor requested, and is taken afterwards |
| `Palloc.NullExactly` | tp1/src/kernel/mm.c:325-356 | NULL exactly when each directory entry is requested or has a table with no entry left |
| `Palloc.TempAnsweredExactly` | tp1/src/kernel/mm.c:325-356 | in a space with a table at the top, the kernel's own temporary page is the answer exactly when its entry is neither present nor requested and no page below is open |
| `Palloc.StaysTaken` | tp1/src/kernel/mm.c:425-459 | calls, forks, loads, copy-on-write faults and faults on granted or stray pages never make a page available again |
| `Palloc.NeverTwice` | tp1/src/kernel/mm.c:318-357 | over any run of these no address is returned twice |
| `Palloc.StepIsMove` | tp1/src/kernel/mm.c:318-474 | what a safe kernel event of any process does to the space of a process is one of these moves or nothing |
| `Palloc.NeverTwiceInRuns` | tp1/src/kernel/mm.c:318-474 | in any run of safe events, whatever other processes do, no page is returned twice to a process that stays on what it was granted, the window included |
| `Palloc.GrantSurvivesExactly` | tp1/src/kernel/mm.c:425-447 | a grant by directory entry survives a fault under it exactly when the fault is on its first page |
| `Palloc.TwiceExactly` | tp1/src/kernel/mm.c:425-447 | in any space: after a call that opened a directory entry and a fault under it, the next call returns the same page again exactly when the fault was at another page |
| `Palloc.TwiceAfterStrayFault` | tp1/src/kernel/mm.c:425-447 | an instance of this from an empty space |
| `Semaphores.Conservation` | tp1/src/kernel/sem.c:7-20 | free places plus grants equal the initial value plus signals, waiters mean no free place, grants follow arrivals |
| `Semaphores.AtMostOneHolder` | tp1/src/kernel/sem.c:7-20 | SEM_NEW(1) with releases by holders only is held at most once, and queues only while held |
| `LinkedLists.CircleIsOne` | tp1/src/kernel/loader.c:120-157 | the links and the head of a circular list determine its sequence |
| `LinkedLists.UnlinkedHead` | tp1/src/kernel/loader.c:145-152 | the four link edits take the oldest out of a circular list and leave the rest one |
| `LinkedLists.Appended` | tp1/src/kernel/loader.c:121-133 | the link edits put a pid at the end of a circular list |
| `LinkedLists.InsertedAfter` | tp1/src/kernel/sched.c:38-41 | the link edits put a task behind the running one |
| `LinkedLists.ChainTaken` | tp1/src/kernel/loader.c:173-177 | taking the first free pid leaves a well-formed chain of the others |
| `LinkedLists.ChainAcyclic` | tp1/src/kernel/loader.c:12-20 | the free list meets no pid twice |
| `Scheduling.StepInv` | tp1/src/kernel/sched.c:32-123 | every load, exit, wait, signal, broadcast and tick keeps pids partitioned, counts right and the quantum in range |
| `Scheduling.WaitInv` | tp1/src/kernel/loader.c:120-139 | a wait, blocking or not, keeps them |
| `Scheduling.WakeInv` | tp1/src/kernel/loader.c:141-157 | a wake-up keeps them, from the idle task too, and leaves a task running |
| `Scheduling.WakeAllOrder` | tp1/src/kernel/sem.c:22-27 | the waiters of a broadcast end up behind the running task, last to arrive first, and nobody else moves |
| `Scheduling.OnePlace` | tp1/src/kernel/sched.c:32-123 | in every reachable state each pid is in exactly one of ring, one wait queue, free list; shown counts and current task agree with them |
| `Scheduling.LoadKeepsExactly` | tp1/src/kernel/sched.c:32-45 | a load keeps every task in its place exactly when a task runs or the ring is empty |
| `Scheduling.LoadDrops` | tp1/src/kernel/sched.c:32-45 | a run from the boot after which a second load from the idle task leaves pid 1 in no place |
| `Scheduling.WakeKeepsExactly` | tp1/src/kernel/sched.c:47-64 | so does a wake-up |
| `Scheduling.WakeDrops` | tp1/src/kernel/sched.c:47-64 | a run from the boot after which a load from the idle task and then a wake-up leave the loaded pid in no place |
| `Scheduling.RoundRobin` | tp1/src/kernel/sched.c:107-123 | from any running state QUANTUM times the number of tasks ticks return to it, each task having run for exactly QUANTUM of them |
| `Scheduling.StartsWhole` | tp1/src/kernel/sched.c:47-123 | whoever starts to run at any event, after a block, an exit, a tick, a wake-up or the idle task, runs for a whole quantum; nothing but ticks uses a quantum up |
| `Scheduling.BlockedHandsOn` | tp1/src/kernel/sched.c:66-105 | a task that blocks or exits is followed by the one behind it, or by the idle task |
| `Scheduling.LoadedComesNext` | tp1/src/kernel/sched.c:32-45 | a loaded program runs a whole quantum as soon as the running task has used up its own, then those who would have; from the idle task it runs at the next tick |
| `Scheduling.WokenComesNext` | tp1/src/kernel/sched.c:47-64 | so does the oldest waiter of a signalled semaphore; the idle task switches to it at once |
| `Kernel.Enqueued` | tp1/src/kernel/loader.c:120-133 | all wait queues in the one shared array stay circular lists when the running task joins one of them |
| `Kernel.Dequeued` | tp1/src/kernel/loader.c:141-152 | and when the oldest leaves one of them |
| `Kernel.Apart` | tp1/src/kernel/loader.c:120-157 | wait queues share no pid with each other, the ring or the free list |
| `Kernel.Kernel.OneMeaning` | tp1/src/kernel/sched.c:13-23 | the arrays and fields stand for one abstract state only |
| `Kernel.Kernel.constructor` | tp1/src/kernel/loader.c:12-28 | after the init loops all pids but 0 are free, in order |
| `Kernel.Kernel.SchedLoad` | tp1/src/kernel/sched.c:32-45 | the ring in the array becomes that of the abstract load |
| `Kernel.Kernel.SchedUnblock` | tp1/src/kernel/sched.c:47-64 | the ring after a wake-up, with the switch when idle |
| `Kernel.Kernel.SchedExit` | tp1/src/kernel/sched.c:66-83 | the ring without the running task, the next one current |
| `Kernel.Kernel.SchedBlock` | tp1/src/kernel/sched.c:85-105 | the same for a block, `last` kept unless it was the blocked task |
| `Kernel.Kernel.SchedTick` | tp1/src/kernel/sched.c:107-123 | the quantum counts down and then the ring turns |
| `Kernel.Kernel.LoaderTick` | tp1/src/kernel/loader.c:113-118 | the loader's pid follows the scheduler's |
| `Kernel.Kernel.Enqueue` | tp1/src/kernel/loader.c:120-139 | the running task goes to the end of one queue and leaves the ring; counts follow |
| `Kernel.Kernel.Unqueue` | tp1/src/kernel/loader.c:141-157 | the oldest waiter of one queue joins the ring; other queues keep their order |
| `Kernel.Kernel.GetNewPid` | tp1/src/kernel/loader.c:173-177 | the first free pid, no longer free |
| `Kernel.Kernel.FreePid` | tp1/src/kernel/loader.c:179-182 | the pid becomes the first free one |
| `Kernel.Kernel.Load` | tp1/src/kernel/loader.c:98-110 | a pid that was not live gets a place in the ring |
| `Kernel.Kernel.Exit` | tp1/src/kernel/loader.c:161-171 | the running pid leaves the ring and becomes free |
| `Kernel.Kernel.SemWait` | tp1/src/kernel/sem.c:7-13 | a place is taken or the caller queues up, on all of the kernel state |
| `Kernel.Kernel.SemSignal` | tp1/src/kernel/sem.c:15-20 | the oldest waiter is woken or a place added |
| `Kernel.Kernel.SemBroadcast` | tp1/src/kernel/sem.c:22-27 | the draining loop wakes every waiter and leaves one free place |
| `Kernel.Kernel.DoAll` | tp1/src/kernel/sched.c:32-123 | any run of events on the arrays ends in the state of the abstract run, with its invariant, and the loader's current pid is the scheduler's |
| `Pipes.LocksStep` | tp1/src/kernel/pipe.c:99-191 | after every step the mutex is free, at most one side sleeps, and a sleeper has its flag set and is alone in the queue |
| `Pipes.NeverStuck` | tp1/src/kernel/pipe.c:106-189 | as written, in every run with closes, the two never both sleep, the next call of the other side wakes a sleeper, and some run wakes it exactly while a descriptor of the other end is open |
| `Pipes.WokenExactly` | tp1/src/kernel/pipe.c:106-203 | a sleeper can be woken by some run exactly while a descriptor of the other end is open |
| `Pipes.CloseStrands` | tp1/src/kernel/pipe.c:194-203 | a read that waits and the close of the last write end: no run wakes the reader any more |
| `Pipes.ReadGives` | tp1/src/kernel/pipe.c:99-144 | a read sleeps exactly when fewer bytes are there than it asks for, no writer waits and no signal is left over; otherwise it gets all it asked for, or all there is |
| `Pipes.WriteGives` | tp1/src/kernel/pipe.c:147-192 | a write sleeps exactly when its bytes overflow the buffer and no flag or signal is left over, with the buffer filled; otherwise it stores all of them |
| `Pipes.WriteOnGives` | tp1/src/kernel/pipe.c:175-192 | the same for a writer that goes on after a wake-up |
| `Pipes.LoopExact` | tp1/src/kernel/pipe.c:163-184 | the loop of a write keeps the order exactly when it has room, a sleeping reader, or nothing left over |
| `Pipes.StepExact` | tp1/src/kernel/pipe.c:99-191 | a step keeps first in, first out exactly when it is safe, a test of the state before it |
| `Pipes.RunExact` | tp1/src/kernel/pipe.c:99-191 | a whole run stays first in, first out exactly when all its steps are safe |
| `Pipes.FifoWithRoom` | tp1/src/kernel/pipe.c:99-191 | as written, if every write finds room: bytes delivered then bytes in the ring are the bytes written, counts and cursors agree |
| `Pipes.FifoWhenCleared` | tp1/src/kernel/pipe.c:99-191 | with the flag cleared and reads of at least one byte: the same for writes of any length |
| `Pipes.StaleFlagOverruns` | tp1/src/kernel/pipe.c:186-187 | as written, four calls after which the count exceeds the buffer |
| `PipeQueues.StepIsQueueExactly` | tp1/src/kernel/pipe.c:85-203 | a call acts on what the users see as on a queue of bounded length exactly when it is queue-like, a test of the state before it |
| `PipeQueues.RunIsQueue` | tp1/src/kernel/pipe.c:85-203 | with the flag cleared a run of reads of at least one byte, writes of any length, closes and forks is the run of the queue |
| `PipeQueues.ClearedIsQueue` | tp1/src/kernel/pipe.c:85-203 | the same from the opening on |
| `PipePages.PipePage.PipeRead` | tp1/src/kernel/pipe.c:85-145 | the copy loop and branches carry out the read step; returns the least of what is asked for and what is there, with those bytes from the read cursor, or sleeps, exactly as ReadGives says |
| `PipePages.PipePage.PipeReadOn` | tp1/src/kernel/pipe.c:115-145 | the rest of a read after a wake-up: the least of what was asked for and what is there |
| `PipePages.PipePage.Copy` | tp1/src/kernel/pipe.c:163-189 | the write loop, up to its end or to sleep |
| `PipePages.PipePage.PipeWrite` | tp1/src/kernel/pipe.c:147-192 | the write step, or the error for a closed read end; sleeps exactly as WriteGives says, with the buffer filled, and else stores all bytes |
| `PipePages.PipePage.PipeWriteOn` | tp1/src/kernel/pipe.c:175-192 | the rest of a write after a wake-up, with the same answer |
| `PipePages.PipePage.PipeFlush` | tp1/src/kernel/pipe.c:194-203 | one descriptor of that end less and nobody signalled; the page goes exactly when neither end has one left |
| `PipePages.PipePage.Do` | tp1/src/kernel/pipe.c:85-203 | each event on the fields of the page is the abstract step and returns the bytes it delivers |
| `PipePages.PipePage.DoAll` | tp1/src/kernel/pipe.c:85-203 | any run on the fields ends in the state of the abstract run |
| `PipePages.Session` | tp1/src/kernel/pipe.c:85-203 | a pipe opened and used as written, every write finding room: bytes read then bytes in the buffer are the bytes written |
| `PipePages.ClearedSession` | tp1/src/kernel/pipe.c:85-203 | with the flag cleared and reads of at least one byte, writes of any length: the reads return what they would from a queue of that length, and what is missing is what a sleeping writer still holds |
| `Devices.ForkKeepsExactly` | tp1/src/kernel/device.c:73-81 | copying descriptors keeps counts equal to slots exactly when the child's row was empty |
| `Devices.ClosePage` | tp1/src/kernel/pipe.c:194-203 | closing a descriptor keeps counts equal to slots on every page |
| `Devices.LastCloseFrees` | tp1/src/kernel/pipe.c:194-203 | a close gives back the page exactly when it closes the last slot of either end, and no other page |
| `Devices.ClosesAll` | tp1/src/kernel/device.c:83-91 | after release the row is empty and all counts are right |
| `Devices.RunKeeps` | tp1/src/kernel/device.c:11-91 | every run keeps the invariant of rows, counts, pages and known devices |
| `Devices.CountsAreSlots` | tp1/src/kernel/device.c:11-91 | in every reachable state refcounts are the slots naming the device, pages are held exactly while named and given back once per opening, free pids have empty rows |
| `DeviceTables.DeviceTable.NextFree` | tp1/src/kernel/device.c:63-71 | the lowest empty slot, or -1 when there is none |
| `DeviceTables.DeviceTable.Descriptor` | tp1/src/kernel/device.c:11-22 | the lowest empty slot names the device, which is counted once more, or a full row changes nothing |
| `DeviceTables.DeviceTable.PipeFlush` | tp1/src/kernel/pipe.c:194-203 | one reference less, and the page given back when both ends have none |
| `DeviceTables.DeviceTable.ConFlush` | tp1/src/kernel/con.c:123-144 | one reference less, or the page given back by the last |
| `DeviceTables.DeviceTable.SysClose` | tp1/src/kernel/device.c:55-61 | that slot is emptied and no other, and its device flushed |
| `DeviceTables.DeviceTable.ForkDescriptors` | tp1/src/kernel/device.c:73-81 | the loop makes the row of the child the row of the parent and counts each name |
| `DeviceTables.DeviceTable.ReleaseDevices` | tp1/src/kernel/device.c:83-91 | the loop closes every open descriptor: the row ends empty, no other row changes |
| `DeviceTables.DeviceTable.SysPipe` | tp1/src/kernel/pipe.c:52-74 | the first descriptor returned names the read end, the second the write end, in the two lowest slots that were empty; no other slot changes |
| `DeviceTables.DeviceTable.SysOpenConsole` | tp1/src/kernel/fs.c:60-79 | the descriptor returned names the console, in the lowest slot that was empty; no other slot changes |
| `DeviceTables.DeviceTable.Do` | tp1/src/kernel/device.c:11-91 | each event by the process it belongs to is the abstract step on the table and keeps the invariant |
| `DeviceTables.DeviceTable.DoAll` | tp1/src/kernel/device.c:11-91 | any run on the table ends in the state of the abstract run, with its invariant |
| `Processes.DevEnabled` | tp1/src/kernel/loader.c:161-255 | the pids the scheduler gives out and the task it runs meet what the descriptor tables ask of their pids |
| `Processes.ForkIntoEmpty` | tp1/src/kernel/loader.c:240-245 | the row of the pid that get_new_pid gives next is empty, so a fork overwrites no descriptor |
| `Processes.StepLinked` | tp1/src/kernel/loader.c:98-182 | every load, fork, exit, wait, wake-up, tick, opening and close keeps both invariants, and the pids that may own descriptors those not in the free list |
| `Processes.SchedProjects` | tp1/src/kernel/loader.c:98-182 | a run of both is a run of the scheduler |
| `Processes.DevProjects` | tp1/src/kernel/loader.c:161-255 | and of the descriptor tables, with the scheduler's pids |
| `Processes.OwnersAreTasks` | tp1/src/kernel/loader.c:98-182 | in every run from the boot a pid with an open descriptor is in the ring or in a wait queue, and the next pid has an empty row |
| `Processes.Do` | tp1/src/kernel/loader.c:161-255 | each event on the linked arrays and on the descriptor table, whose row is taken from the arrays, is the step of both |
| `Processes.Session` | tp1/src/kernel/loader.c:12-28 | from the boot any run on the arrays and the table ends in the rows and the running task of the abstract run |
| `Consoles.Stream` | tp1/src/kernel/con.c:41-67 | in every run delivered characters then buffered ones are the accepted keystrokes in order; a reader sleeps only while its request is incomplete and a woken one finds it whole |
| `Consoles.ReleasedExactly` | tp1/src/kernel/con.c:253-266 | a sleeping reader is released by exactly the keystroke that completes its request, and every key until then is accepted |
| `Consoles.KeyAcceptedExactly` | tp1/src/kernel/con.c:253-259 | a key is accepted exactly when it is a character and the buffer has room, whether or not anybody reads |
| `Consoles.StepIsQueue` | tp1/src/kernel/con.c:41-266 | every read and keystroke acts on what the reader sees as on a queue of bounded length that serves a request whole |
| `Consoles.RunIsQueue` | tp1/src/kernel/con.c:41-266 | a run of the console is the run of that queue |
| `Consoles.Console.ConRead` | tp1/src/kernel/con.c:41-67 | all the characters asked for, or sleep exactly when fewer are there, or the error for a request larger than the buffer |
| `Consoles.Console.ConReadOn` | tp1/src/kernel/con.c:50-66 | a woken reader gets all the characters it asked for |
| `Consoles.Console.KeyPressed` | tp1/src/kernel/con.c:253-266 | a keystroke is buffered exactly if there is room and wakes the reader whose request it completes |
| `Consoles.Console.DoAll` | tp1/src/kernel/con.c:41-266 | any run on the fields ends in the state of the abstract run and returns the characters it delivers |
| `Consoles.Session` | tp1/src/kernel/con.c:41-266 | a console opened and used: the reader got, and the buffer holds, what it would from the queue |
| `Numbers.PowerBound` | tp1/src/kernel/lib_str.c:98-100 | a power that is at most the number, or 1, stays below 2^31 in bases 10 and 16, and in any base when the number does |
| `Numbers.DigitCount` | tp1/src/kernel/lib_str.c:98-112 | the number of digits from the leading power of the base |
| `Numbers.LeadingPower` | tp1/src/kernel/lib_str.c:98-100 | for every number acum ends as the leading power of the base, below 2^32, as a signed integer |
| `Numbers.NumIntoString` | tp1/src/kernel/lib_str.c:93-112 | for every number: the numeral, defined from its last digit, is written at the index if the leading power is below 2^31, and otherwise one character from behind the table; nothing else changes |
| `Numbers.PrintedExactly` | tp1/src/kernel/lib_str.c:93-112 | what is written is the numeral exactly when the leading power is below 2^31 |
| `Numbers.FitsInUse` | tp1/src/kernel/lib_str.c:54-78 | which is so in bases 10 and 16, and below 2^31 in any base |
| `Numbers.DecIntoString` | tp1/src/kernel/lib_str.c:54-66 | the sign and the numeral of the magnitude, for -2^31 too |
| `Numbers.ValueOfDigits` | tp1/src/kernel/lib_str.c:93-112 | the numeral of a number stands for it |
| `Numbers.ValueFront` | tp1/src/kernel/lib_str.c:174-184 | summing digits by falling powers gives the same value as reading from the left |
| `Numbers.StrIntoNum` | tp1/src/kernel/lib_str.c:151-186 | the longest run of digits of the base is counted, and the sum of its digits by the falling powers from lines 170-172 on, with their wrap, returned modulo 2^32; or -1 and 0 |
| `Numbers.StrIntoDec` | tp1/src/kernel/lib_str.c:188-197 | the same with a sign |
| `Numbers.StrIntoHex` | tp1/src/kernel/lib_str.c:199-204 | the same after an optional 0x |
| `Numbers.ReadExactly` | tp1/src/kernel/lib_str.c:169-184 | all numerals of a length are read as their value modulo 2^32 exactly when the leading power of that length is below 2^32 |
| `Numbers.RoundTrip` | tp1/src/kernel/lib_str.c:93-186 | parsing the numeral of any number, ended by a non-digit, gives the number and its digit count back |
| `Numbers.SignedRoundTrip` | tp1/src/kernel/lib_str.c:54-197 | signed decimals come back modulo 2^32 |
| `Numbers.HexRoundTrip` | tp1/src/kernel/lib_str.c:72-204 | hexadecimal numbers come back with their digit count exactly unless a single 0 is followed by an x that no lone 0 follows |
| `Numbers.ZeroBeforeX` | tp1/src/kernel/lib_str.c:199-204 | after a single 0 and an x the number behind the x is read, or nothing exactly when no digit follows |
| `Numbers.ReadAlike` | tp1/src/kernel/lib_str.c:151-186 | for every string the parser gives the same answer with its letters in upper case |
| `Numbers.AnyCaseRoundTrip` | tp1/src/kernel/lib_str.c:151-204 | a number comes back from its hexadecimal numeral in letters of any case behind a 0x |
| `Fat12.DecodersAgree` | tp1/src/boot/floppyboot.asm:137-146 | kernel and boot loader decode the same successor from every table |
| `Fat12.AgreeExactly` | tp1/src/boot/floppyboot.asm:137-146 | they agree on all tables exactly for cluster numbers whose byte address does not wrap around 16 bits |
| `Fat12.EntryBack` | tp1/src/kernel/fat12.c:401-404 | an entry of a table of packed 12-bit pairs is read back |
| `Fat12.DataStartExactly` | tp1/src/kernel/fat12.c:226-227 | cluster 2 is the sector behind reserved sectors, tables and root directory exactly when its number fits |
| `Fat12.SectorCountLeast` | tp1/src/kernel/fat12.c:231-231 | as few sectors are loaded as hold the size, and seven if seven do not hold it |
| `Fat12.LoadSectors` | tp1/src/kernel/fat12.c:233-241 | the page receives the sectors of the chain in order, or one of them is not on the disk |
| `Fat12.ChardevFile.Open` | tp1/src/kernel/fat12.c:225-241 | a file of at most seven sectors holds the bytes of its cluster chain cut at its size |
| `Fat12.ChardevFile.Seek` | tp1/src/kernel/fat12.c:149-178 | a seek within seven sectors sets the cursor, behind the end of the file as well |
| `Fat12.ChardevFile.Read` | tp1/src/kernel/fat12.c:58-82 | the next bytes, cut at the end of the file, exactly while the cursor is not behind the end and size plus cursor stays below 2^32; otherwise all bytes up to the seventh sector's end, before the page tables |
| `Fat12.ReadsAreConsecutive` | tp1/src/kernel/fat12.c:58-82 | successive reads join to one read of all the bytes asked for |
| `Fat12.ChardevFile.ReadAll` | tp1/src/kernel/fat12.c:58-82 | a list of reads gives the next bytes of the file in one piece, exactly unless one of the sizes wraps |
| `Fat12.ChardevFile.OpenAndRead` | tp1/src/kernel/fat12.c:58-241 | a file opened and read in pieces gives the bytes of its cluster chain cut at its size |
| `Fat12.ModestSizes` | tp1/src/kernel/fat12.c:58-61 | sizes more than 3584 below 2^32 never wrap |

## Left out

- Hardware and assembly: port I/O, floppy and DMA, interrupt controller and timer setup, segment and interrupt tables, the screen, TLB flushes, and the stack frames that `loader_load` and `sys_fork` build. Of `loader_switchto` the current pid and CR3 are modelled; the page of a new ring 0 stack is a parameter.
- The 4 MB mapping of `mm_page_map`: directory entry 0 is a fixed identity entry.
- `memory_detect` and the clearing loops of `mm_init`. mm.c:40 and mm.c:508-511 pass byte sizes where word counts are meant; the model uses word counts.
- The state after memory ran out: the methods of `Mm.Mm` and `VmRuns.Do` say exactly when, by the frames left before the call, and then promise only that a bitmap is exhausted. mm.c:281 and 290 roll back a directory that is not registered, mm.c:43 stores before the NULL check.
- Stores by the kernel into user buffers as events of runs; `KernelWindow.KernelStoreExactly` says what one of them does. The kernel's own pages below 4 MB are not modelled beside page 0: where one is copied its contents are a parameter.
- Runs from boots whose physical page 0 holds a word with the number of a user frame of the machine, which `mm_times_mapped` would count (`Tables.CountExactly`); real-mode vectors into the BIOS name frames above them.
- Runs after an unsafe event: `CowRefinement.RunExact` says that they have already gone wrong. `CowRefinement.ShareSurvivesExactly` says what becomes of a shared mark on a copy-on-write page.
- The contents of a page granted by a fault: the frame keeps what it held.
- The exit that a page fault forces when memory is out, and what the panic screen prints. A refused access is retried for ever by the source; the model stops once a further fault changes nothing (`VmInvariant.FaultSettles`).
- Semaphore counts are unbounded, the source's wrap at 2^32.
- `get_new_pid` with no free pid, which reads outside the array.
- `sem_broadcast` from the idle task, whose first wake-up switches away.
- Several readers or writers on one pipe or console.
- `sys_pipe` without two free descriptors, which leaves a slot pointing at a flushed end; reference counts of file, cpuid and serial devices, which their flush functions do not keep.
- The list of consoles, drawing, the scan-code table, `sys_run` and its clearing of the buffer.
- `num_into_string_len` and `printf_len`: one short for numbers of several digits. String helpers without state.
- Signed overflow at lib_str.c:99, 172 and 182 is taken to wrap around, as on the machine.
- `chardev_file_mov` and `chardev_file_seek` beyond seven sectors and file writes: `fat12_open` never loads those pages. Directory search, the media descriptor table and multi-sector floppy reads.
- User tasks and the papers of the repository.
