// The virtual memory of all processes as a value: for every live process its page
// table entries by page number, the user frames in use and their contents. The steps
// are those of mm.c and of the paging half of loader.c; class Mm.Mm shows that the
// two-level tables and the bitmaps carry them out.
module VirtualMemory {
  import opened PageEntries

  const PAGE_SIZE := 4096
  // Directories and tables have 1024 entries (TABLE_ENTRY_NUM, mm.h:73), so page v is entry
  // v % 1024 of the table at directory index v / 1024.
  const NPAGES := 0x10_0000            // pages of the 4 GB address space
  const USR_FIRST := 1024              // first user frame, USR_MEM_START / PAGE_SIZE
  const TEMP := 0xF_FFFF               // page of KERNEL_TEMP_PAGE
  const STACK_0 := 0xF_FFFE            // page of STACK_0_VIRTUAL
  const STACK_3 := 0xF_FFFD            // page of STACK_3_VIRTUAL
  const TOP_TABLE := 1023              // directory index of those three pages

  type Pid = nat
  type Frame = nat
  type Page = s: seq<bv8> | |s| == PAGE_SIZE witness seq(PAGE_SIZE, i => 0)

  // A directory entry: no table, no table but requested by palloc, or a table.
  datatype Pde = Absent | Asked | Table

  // One address space. Entries under a directory entry without a table read as ZERO.
  // Directory entry 0 is the fixed 4 MB identity mapping and is not represented.
  datatype Space = Space(pte: seq<Entry>, pde: seq<Pde>)

  // in_panic (debug.c:41), and the machine stopped for good in debug_kernelpanic (debug.c:156).
  datatype Status = Fine | Panicked | Halted

  // low is physical page 0 read as page-table words, which is what mm.c reads and writes
  // where a directory entry has no table.
  datatype Vm = Vm(sp: map<Pid, Space>, used: set<Frame>, ram: seq<Page>, low: seq<Entry>, status: Status)

  ghost predicate Shape(s: Vm) {
    |s.low| == 1024 && forall p <- s.sp :: |s.sp[p].pte| == NPAGES && |s.sp[p].pde| == 1024
  }

  ghost predicate Maps(s: Vm, p: Pid, v: nat, f: Frame)
    requires Shape(s)
  {
    p in s.sp && v < NPAGES && s.sp[p].pte[v].p && s.sp[p].pte[v].base == f
  }

  ghost predicate Mapped(s: Vm, f: Frame)
    requires Shape(s)
  {
    exists p, v :: Maps(s, p, v, f)
  }

  // ---------------------------------------------------------------- the steps

  // mm_page_map with 4 KB pages: the entry is written, its table allocated if missing.
  function SetEntry(sp: Space, v: nat, e: Entry): Space
    requires v < |sp.pte| && v / 1024 < |sp.pde|
  {
    Space(sp.pte[v := e], sp.pde[v / 1024 := Table])
  }

  ghost predicate HasTable(s: Vm, p: Pid, v: nat)
    requires Shape(s) && p in s.sp && v < NPAGES
  {
    v >= USR_FIRST && s.sp[p].pde[v / 1024] == Table
  }

  // The same processes and frames of the same machine.
  ghost predicate Like(s: Vm, t: Vm) { Shape(t) && t.sp.Keys == s.sp.Keys && |t.ram| == |s.ram| }

  // The word that mm.c finds for page v: below 4 MB (directory entry 0 has base 0) and under
  // a directory entry without a table it is one of physical page 0.
  ghost function WordOf(s: Vm, p: Pid, v: nat): Entry
    requires Shape(s) && p in s.sp && v < NPAGES
  {
    if HasTable(s, p, v) then s.sp[p].pte[v] else s.low[v % 1024]
  }

  // That word rewritten.
  ghost function SetWord(s: Vm, p: Pid, v: nat, e: Entry): (t: Vm)
    requires Shape(s) && p in s.sp && v < NPAGES
    ensures Like(s, t)
  {
    if HasTable(s, p, v) then s.(sp := s.sp[p := s.sp[p].(pte := s.sp[p].pte[v := e])])
    else s.(low := s.low[v % 1024 := e])
  }

  // The processes counted by mm_times_mapped for frame f at page v: the base of the word is
  // compared and its present bit is not looked at (mm.c:222).
  ghost function Counted(s: Vm, f: Frame, v: nat): (r: set<Pid>)
    requires Shape(s) && v < NPAGES
  {
    set q | q in s.sp && WordOf(s, q, v).base == f
  }

  // What is left at KERNEL_TEMP_PAGE after frame f was mapped there and unmapped: only
  // the present bit is cleared (mm.c:209).
  function TempLeft(f: Frame, us: bool): Entry { Entry(f, false, true, us, false, false) }

  // The entry of the only mapper of its frame made writable again (mm.c:385-386).
  ghost function Own(s: Vm, p: Pid, v: nat): (t: Vm)
    requires Shape(s) && p in s.sp && v < NPAGES
    ensures Like(s, t)
  {
    SetWord(s, p, v, WordOf(s, p, v).(cow := false, rw := true))
  }

  // What the copy loop of mm_copy_vf leaves in frame f for page v: below 4 MB the kernel's
  // own page k, and at the window itself, which then maps f, what f held before.
  ghost function CopiedPage(s: Vm, p: Pid, v: nat, f: Frame, k: Page): Page
    requires Shape(s) && p in s.sp && v < NPAGES && f < |s.ram| && (v >= USR_FIRST ==> WordOf(s, p, v).base < |s.ram|)
  {
    if v < USR_FIRST then k else if v == TEMP then s.ram[f] else s.ram[WordOf(s, p, v).base]
  }

  // Page v of p moved to frame f with its contents (mm.c:390-400).
  ghost function CopyTo(s: Vm, p: Pid, v: nat, f: Frame, k: Page): (t: Vm)
    requires Shape(s) && p in s.sp && v < NPAGES && f < |s.ram| && (v >= USR_FIRST ==> WordOf(s, p, v).base < |s.ram|)
    ensures Like(s, t)
  {
    var u := s.(sp := s.sp[p := SetEntry(s.sp[p], TEMP, TempLeft(f, false))], used := s.used + {f},
                ram := s.ram[f := CopiedPage(s, p, v, f, k)]);
    SetWord(u, p, v, UserEntry(f))
  }

  // mm_copy_on_write_page (mm.c:381-403); f is the frame mm_mem_alloc returns if one is needed.
  ghost function CopyOnWrite(s: Vm, p: Pid, v: nat, f: Frame, k: Page): (t: Vm)
    requires Shape(s) && p in s.sp && v < NPAGES && f < |s.ram| && (v >= USR_FIRST ==> WordOf(s, p, v).base < |s.ram|)
    ensures Like(s, t)
  {
    if |Counted(s, WordOf(s, p, v).base, v)| == 1 then Own(s, p, v) else CopyTo(s, p, v, f, k)
  }

  // A fresh user frame mapped at v with the standard attributes. mm_mem_alloc does not
  // clear the frame: the page starts with whatever the frame holds. Below 4 MB the mapping
  // goes to physical page 0, where no translation looks.
  ghost function Grant(s: Vm, p: Pid, v: nat, f: Frame): (t: Vm)
    requires Shape(s) && p in s.sp && v < NPAGES
    ensures Like(s, t)
  {
    if v < USR_FIRST then s.(low := s.low[v := UserEntry(f)], used := s.used + {f})
    else s.(sp := s.sp[p := SetEntry(s.sp[p], v, UserEntry(f))], used := s.used + {f})
  }

  // The page lies under a directory entry with neither a table nor a request.
  ghost predicate Stray(s: Vm, p: Pid, v: nat)
    requires Shape(s) && p in s.sp && v < NPAGES
  {
    v >= USR_FIRST && s.sp[p].pde[v / 1024] == Absent
  }

  ghost predicate AskedDir(s: Vm, p: Pid, v: nat)
    requires Shape(s) && p in s.sp && v < NPAGES
  {
    v >= USR_FIRST && s.sp[p].pde[v / 1024] == Asked
  }

  // A frame number that the handler may follow is one of the machine.
  ghost predicate Backed(s: Vm, p: Pid, v: nat, protection: bool)
    requires Shape(s) && p in s.sp && v < NPAGES
  {
    v >= USR_FIRST && WordOf(s, p, v).cow && protection ==> WordOf(s, p, v).base < |s.ram|
  }

  // mm.c:450-470, with the word of the page.
  ghost function WordFault(s: Vm, p: Pid, v: nat, f: Frame, k: Page, protection: bool): (t: Vm)
    requires Shape(s) && p in s.sp && v < NPAGES && f < |s.ram|
    requires Backed(s, p, v, protection)
    ensures Like(s, t)
  {
    var e := WordOf(s, p, v);
    if !e.p then (if e.Requested() then Grant(s, p, v, f) else s)
    else if e.cow && protection then CopyOnWrite(s, p, v, f, k)
    else s
  }

  // isr_page_fault_c (mm.c:406-474); `protection` is error code 7: a user write that the
  // tables refuse at a present page. debug_kernelpanic returns the first time (mm.c:439), so
  // a stray fault falls through to the word of physical page 0; the second time it stops.
  ghost function PageFault(s: Vm, p: Pid, v: nat, f: Frame, k: Page, protection: bool): (t: Vm)
    requires Shape(s) && p in s.sp && v < NPAGES && f < |s.ram|
    requires Backed(s, p, v, protection)
    ensures Like(s, t)
  {
    if AskedDir(s, p, v) then Grant(s, p, v, f)
    else if !Stray(s, p, v) then WordFault(s, p, v, f, k, protection)
    else if s.status == Fine then WordFault(s.(status := Panicked), p, v, f, k, protection)
    else s.(status := Halted)
  }

  // The hardware check of a user access at the page-table entry. The processor checks the
  // directory entry too, which never refuses a user process above 4 MB (Mm.TableDecides).
  predicate Permits(e: Entry, write: bool) { e.p && e.us && (write ==> e.rw) }

  // The error code of a refused access: the present bit is set below 4 MB as well.
  ghost predicate Protection(s: Vm, p: Pid, v: nat, write: bool)
    requires Shape(s) && p in s.sp && v < NPAGES
  {
    write && (v < USR_FIRST || s.sp[p].pte[v].p)
  }

  // A page is absent and will be granted by the first fault on it.
  ghost predicate Grantable(s: Vm, p: Pid, v: nat)
    requires Shape(s) && p in s.sp && v < NPAGES
  {
    AskedDir(s, p, v) || (!WordOf(s, p, v).p && WordOf(s, p, v).Requested() && (Stray(s, p, v) ==> s.status == Fine))
  }

  // A copy-on-write word that is not counted once.
  ghost predicate TakesCopy(s: Vm, p: Pid, v: nat)
    requires Shape(s) && p in s.sp && v < NPAGES
  {
    var e := WordOf(s, p, v);
    e.p && e.cow && |Counted(s, e.base, v)| != 1
  }

  // The handler needs a frame, and an access does.
  ghost predicate FaultTakes(s: Vm, p: Pid, v: nat, protection: bool)
    requires Shape(s) && p in s.sp && v < NPAGES
  {
    Grantable(s, p, v) || (protection && TakesCopy(s, p, v))
  }

  ghost predicate TakesFrame(s: Vm, p: Pid, v: nat, write: bool)
    requires Shape(s) && p in s.sp && v < NPAGES
  {
    !Permits(s.sp[p].pte[v], write) && FaultTakes(s, p, v, Protection(s, p, v, write))
  }

  // A user access: the handler runs, the instruction is retried, and if the directory entry
  // is still absent the second fault stops the machine. Any further fault changes nothing
  // (VmInvariant.FaultSettles).
  ghost function Touch(s: Vm, p: Pid, v: nat, f: Frame, k: Page, write: bool): (t: Vm)
    requires Shape(s) && p in s.sp && v < NPAGES && f < |s.ram| && Backed(s, p, v, Protection(s, p, v, write))
    ensures Like(s, t)
  {
    if Permits(s.sp[p].pte[v], write) then s
    else
      var u := PageFault(s, p, v, f, k, Protection(s, p, v, write));
      if Stray(u, p, v) then u.(status := Halted) else u
  }

  // The store of byte b at offset off of page v, when the tables permit it.
  ghost function Store(s: Vm, p: Pid, v: nat, off: nat, b: bv8): Vm
    requires Shape(s) && p in s.sp && v < NPAGES && off < PAGE_SIZE
    requires s.sp[p].pte[v].p ==> s.sp[p].pte[v].base < |s.ram|
  {
    var e := s.sp[p].pte[v];
    if Permits(e, true) then s.(ram := s.ram[e.base := s.ram[e.base][off := b]]) else s
  }

  ghost function ForkParent(sp: Space, f3: Frame): (r: Space)
    requires |sp.pte| == NPAGES && |sp.pde| == 1024
  {
    Space(seq(NPAGES, v requires 0 <= v < NPAGES =>
            if v == TEMP then TempLeft(f3, false) else if sp.pte[v].p then ForkMark(sp.pte[v]) else sp.pte[v]),
          sp.pde[TOP_TABLE := Table])
  }

  ghost function ForkChild(sp: Space, f3: Frame, f0: Frame): (r: Space)
    requires |sp.pte| == NPAGES && |sp.pde| == 1024
    ensures |r.pte| == NPAGES && |r.pde| == 1024 && r.pde[TOP_TABLE] == Table
  {
    Space(seq(NPAGES, v requires 0 <= v < NPAGES =>
            if v == STACK_3 then UserEntry(f3) else if v == STACK_0 then SystemEntry(f0)
            else if sp.pte[v].p then ForkMark(sp.pte[v]) else ZERO),
          seq(1024, i requires 0 <= i < 1024 =>
            if i == TOP_TABLE || sp.pde[i] == Table then Table else Absent))
  }

  // sys_fork (loader.c:192-255): mm_dir_fork, two new stacks for the child c, the ring 0
  // stack built by the kernel (contents k0) and the ring 3 stack copied from the parent.
  ghost function Fork(s: Vm, p: Pid, c: Pid, f3: Frame, f0: Frame, k0: Page): Vm
    requires Shape(s) && p in s.sp && f3 < |s.ram| && f0 < |s.ram|
    requires s.sp[p].pte[STACK_3].base < |s.ram|
  {
    s.(sp := s.sp[p := ForkParent(s.sp[p], f3)][c := ForkChild(s.sp[p], f3, f0)], used := s.used + {f3, f0},
       ram := s.ram[f0 := k0][f3 := s.ram[s.sp[p].pte[STACK_3].base]])
  }

  function NoSpace(): Space { Space(seq(NPAGES, i => ZERO), seq(1024, i => Absent)) }

  // The space loader_load builds: two stacks and one page of code at page v.
  function SpawnSpace(v: nat, fc: Frame, f3: Frame, f0: Frame): (r: Space)
    requires v < NPAGES
    ensures |r.pte| == NPAGES && |r.pde| == 1024 && r.pde[TOP_TABLE] == Table
  {
    SetEntry(SetEntry(SetEntry(NoSpace(), STACK_3, UserEntry(f3)), STACK_0, SystemEntry(f0)), v, UserEntry(fc))
  }

  // loader_load (loader.c:37-111) called from p: a directory with two stacks and one page
  // of code at page v; the kernel fills the ring 0 stack (k0) and the code page.
  ghost function Spawn(s: Vm, p: Pid, c: Pid, v: nat, fc: Frame, f3: Frame, f0: Frame, code: Page, k0: Page): Vm
    requires Shape(s) && p in s.sp && v < NPAGES && fc < |s.ram| && f3 < |s.ram| && f0 < |s.ram|
  {
    s.(sp := s.sp[p := SetEntry(s.sp[p], TEMP, TempLeft(fc, true))][c := SpawnSpace(v, fc, f3, f0)],
       used := s.used + {fc, f3, f0}, ram := s.ram[f0 := k0][fc := code])
  }

  // mm_share_page (mm.c:359-379).
  ghost function Share(s: Vm, p: Pid, v: nat): Vm
    requires Shape(s) && p in s.sp && v < NPAGES
  {
    SetWord(s, p, v, WordOf(s, p, v).(sh := true))
  }

  // The user frames mm_table_free releases (mm.c:99-114).
  ghost predicate Released(s: Vm, p: Pid, v: nat)
    requires Shape(s) && p in s.sp && v < NPAGES
  {
    var e := s.sp[p].pte[v];
    e.p && !((e.sh || e.cow) && |Counted(s, e.base, v)| > 1)
  }

  ghost function Freed(s: Vm, p: Pid): (r: set<Frame>)
    requires Shape(s) && p in s.sp
  {
    set v | 0 <= v < NPAGES && Released(s, p, v) :: s.sp[p].pte[v].base
  }

  // loader_switchto_exit: mm_dir_free on the directory of p, which is then unregistered.
  ghost function Exit(s: Vm, p: Pid): Vm
    requires Shape(s) && p in s.sp
  {
    s.(sp := s.sp - {p}, used := s.used - Freed(s, p))
  }

  // The first page of [v, end) whose entry is neither present nor requested, or end.
  function ScanTable(pte: seq<Entry>, v: nat, end: nat): (r: nat)
    requires v <= end <= |pte|
    ensures v <= r <= end
    decreases end - v
  {
    if v == end || !(pte[v].p || pte[v].Requested()) then v else ScanTable(pte, v + 1, end)
  }

  // sys_palloc's search from directory index i (mm.c:325-357): a page number, or NPAGES for NULL.
  function Scan(sp: Space, i: nat): (r: nat)
    requires |sp.pte| == NPAGES && |sp.pde| == 1024 && i <= 1024
    ensures 1024 * i <= r <= NPAGES
    decreases 1024 - i
  {
    if i == 1024 then NPAGES
    else match sp.pde[i]
      case Absent => 1024 * i
      case Asked => Scan(sp, i + 1)
      case Table =>
        var v := ScanTable(sp.pte, 1024 * i, 1024 * (i + 1));
        if v < 1024 * (i + 1) then v else Scan(sp, i + 1)
  }

  function PallocPage(sp: Space): (r: nat)
    requires |sp.pte| == NPAGES && |sp.pde| == 1024
    ensures 1024 <= r <= NPAGES
  {
    Scan(sp, 1)
  }

  // The space after sys_palloc returned page v.
  function AskPage(sp: Space, v: nat): (r: Space)
    requires |sp.pte| == NPAGES && |sp.pde| == 1024 && v <= NPAGES
    ensures |r.pte| == NPAGES && |r.pde| == 1024
  {
    if v == NPAGES then sp
    else if sp.pde[v / 1024] == Table then sp.(pte := sp.pte[v := AskedEntry(sp.pte[v])])
    else sp.(pde := sp.pde[v / 1024 := Asked])
  }

  ghost function Palloc(s: Vm, p: Pid): Vm
    requires Shape(s) && p in s.sp
  {
    s.(sp := s.sp[p := AskPage(s.sp[p], PallocPage(s.sp[p]))])
  }
}
