// mm.c and the paging half of loader.c as they run: bitmaps and two-level tables updated
// in place. The abstract state of an object, Abs(), is a VirtualMemory.Vm, and every
// operation is proved to perform the corresponding step on it.
module Mm {
  import opened PageEntries
  import opened VirtualMemory
  import opened PageWords
  import opened Tables
  import opened FrameMaps
  import opened VmInvariant
  import opened CowRefinement

  const KRN_WORDS := 24                // words of kernel_pf_info
  const TOP_FRAME := 0x8_0000          // frames below 2 GB
  const MM_ERROR_NOTALIGNED := -5

  // A uint_32 as an int.
  function Signed(x: nat): int { if x < 0x8000_0000 then x else x - 0x1_0000_0000 }

  // The signed comparison of mm_mem_free picks the bitmap of the page exactly when the
  // address is below 2 GB.
  lemma BitmapChoice(page: nat)
    requires page < 0x1_0000_0000
    ensures (Signed(page) < USR_FIRST * PAGE_SIZE <==> page < USR_FIRST * PAGE_SIZE) <==> page < 0x8000_0000
  {}

  // Of `had` frames `need` were taken and `have` are left, or there were not as many.
  predicate Took(had: nat, have: nat, need: nat, ok: bool) { if ok then have + need == had else had < need }

  // The same of both bitmaps.
  datatype Frames = Frames(kernel: nat, user: nat)

  predicate Paid(had: Frames, have: Frames, need: Frames, ok: bool) {
    if ok then have.kernel + need.kernel == had.kernel && have.user + need.user == had.user
    else had.kernel < need.kernel || had.user < need.user
  }

  // The frames it takes to map page v of p, and to copy one of its pages through the window.
  ghost function MapNeeds(s: Vm, p: Pid, v: nat): nat
    requires Shape(s) && p in s.sp && v < NPAGES
  {
    if v >= USR_FIRST && s.sp[p].pde[v / 1024] != Table then 1 else 0
  }

  // The frames a fault needs.
  ghost function FaultNeeds(s: Vm, p: Pid, v: nat, protection: bool): Frames
    requires Shape(s) && p in s.sp && v < NPAGES
  {
    if Grantable(s, p, v) then Frames(MapNeeds(s, p, v), 1)
    else if protection && TakesCopy(s, p, v) then Frames(MapNeeds(s, p, TEMP), 1)
    else Frames(0, 0)
  }

  // And an access with its faults.
  ghost function AccessNeeds(s: Vm, p: Pid, v: nat, write: bool): Frames
    requires Shape(s) && p in s.sp && v < NPAGES
  {
    if Permits(s.sp[p].pte[v], write) then Frames(0, 0) else FaultNeeds(s, p, v, Protection(s, p, v, write))
  }

  ghost predicate MapPaid(s: Vm, p: Pid, v: nat, had: Frames, have: Frames, frames: nat, ok: bool) {
    Shape(s) && p in s.sp && v < NPAGES && Paid(had, have, Frames(MapNeeds(s, p, v), frames), ok)
  }

  // The tables of a space below directory index i.
  ghost function TablesBelow(sp: Space, i: nat): nat
    requires i <= |sp.pde|
  {
    if i <= 1 then 0 else TablesBelow(sp, i - 1) + if sp.pde[i - 1] == Table then 1 else 0
  }

  lemma NoTables(sp: Space)
    requires 1 <= |sp.pde|
    ensures TablesBelow(sp, 1) == 0
  {}

  lemma {:induction false} MoreTables(sp: Space, i: nat, j: nat)
    requires i <= j <= |sp.pde|
    ensures TablesBelow(sp, i) <= TablesBelow(sp, j)
    decreases j
  {
    if i < j { MoreTables(sp, i, j - 1); }
  }

  // The copy of a directory takes one frame for itself and one for each table.
  ghost predicate CopiesPaid(sp: Space, had: nat, have: nat, ok: bool) {
    |sp.pde| == 1024 && Took(had, have, 1 + TablesBelow(sp, 1024), ok)
  }

  lemma CopiesMade(sp: Space, had: nat, mid: nat, have: nat, ok: bool)
    requires |sp.pde| == 1024 && had == mid + 1 && Took(mid, have, TablesBelow(sp, 1024), ok)
    ensures CopiesPaid(sp, had, have, ok)
  {}

  lemma NoDirectory(sp: Space, had: nat, have: nat)
    requires |sp.pde| == 1024 && had == 0
    ensures CopiesPaid(sp, had, have, false)
  {}

  // A child takes those, and two stacks.
  ghost predicate ChildPaid(sp: Space, had: Frames, have: Frames, ok: bool) {
    |sp.pde| == 1024 && Paid(had, have, Frames(1 + TablesBelow(sp, 1024), 2), ok)
  }

  lemma NoCopies(sp: Space, had: Frames, have: Frames)
    requires CopiesPaid(sp, had.kernel, have.kernel, false)
    ensures ChildPaid(sp, had, have, false)
  {}

  lemma ChildMade(sp: Space, had: Frames, mid: Frames, have: Frames, ok: bool)
    requires CopiesPaid(sp, had.kernel, mid.kernel, true) && had.user == mid.user
    requires Took(mid.user, have.user, 2, ok) && (ok ==> have.kernel == mid.kernel)
    ensures ChildPaid(sp, had, have, ok)
  {}

  // A fork takes a directory, a table for each of the parent's, and two stacks; a load a
  // directory, the tables for two stacks and the code, those pages, and perhaps the table of
  // the window.
  ghost function ForkNeeds(s: Vm, p: Pid): Frames
    requires Shape(s) && p in s.sp
  {
    Frames(1 + TablesBelow(s.sp[p], 1024), 2)
  }

  ghost function LoadNeeds(s: Vm, p: Pid, v: nat): Frames
    requires Shape(s) && p in s.sp
  {
    Frames(2 + (if v / 1024 == TOP_TABLE then 0 else 1) + MapNeeds(s, p, TEMP), 3)
  }

  ghost predicate ForkPaid(s: Vm, p: Pid, had: Frames, have: Frames, ok: bool) {
    Shape(s) && p in s.sp && Paid(had, have, ForkNeeds(s, p), ok)
  }

  // The new directory of a load with its pages.
  ghost predicate ProgramPaid(v: nat, had: Frames, have: Frames, ok: bool) {
    Paid(had, have, Frames(2 + if v / 1024 == TOP_TABLE then 0 else 1, 3), ok)
  }

  lemma NoProgramFrames(v: nat, had: Frames, have: Frames)
    requires had.kernel == 0 || had.user < 3
    ensures ProgramPaid(v, had, have, false)
  {}

  lemma ProgramMade(v: nat, had: Frames, mid: Frames, have: Frames, ok: bool)
    requires had.kernel == mid.kernel + 1 && had.user == mid.user + 3 && have.user == mid.user
    requires Took(mid.kernel, have.kernel, 1 + (if v / 1024 == TOP_TABLE then 0 else 1), ok)
    ensures ProgramPaid(v, had, have, ok)
  {}

  // The window may need a table then.
  lemma LoadMade(s: Vm, p: Pid, v: nat, had: Frames, mid: Frames, have: Frames, ok: bool)
    requires Shape(s) && p in s.sp && ProgramPaid(v, had, mid, true) && have.user == mid.user
    requires Took(mid.kernel, have.kernel, MapNeeds(s, p, TEMP), ok)
    ensures LoadPaid(s, p, v, had, have, ok)
  {}

  lemma NoProgram(s: Vm, p: Pid, v: nat, had: Frames, have: Frames)
    requires Shape(s) && p in s.sp && ProgramPaid(v, had, have, false)
    ensures LoadPaid(s, p, v, had, have, false)
  {}

  lemma ChildIsFork(s: Vm, p: Pid, sp: Space, had: Frames, have: Frames, ok: bool)
    requires SpaceAt(s, p, sp) && ChildPaid(sp, had, have, ok)
    ensures ForkPaid(s, p, had, have, ok)
  {}

  ghost predicate LoadPaid(s: Vm, p: Pid, v: nat, had: Frames, have: Frames, ok: bool) {
    Shape(s) && p in s.sp && Paid(had, have, LoadNeeds(s, p, v), ok)
  }

  // A free frame is taken.
  ghost predicate TakenAs(s: Vm, r: Vm, f: Frame, had: Frames, have: Frames) {
    && USR_FIRST <= f < |s.ram| && f !in s.used && r == s.(used := s.used + {f})
    && had.kernel == have.kernel && had.user == have.user + 1
  }

  lemma TablePaid(s: Vm, p: Pid, v: nat, had: Frames, have: Frames, ok: bool)
    requires Shape(s) && p in s.sp && v < NPAGES && had.user == have.user && Took(had.kernel, have.kernel, MapNeeds(s, p, v), ok)
    ensures MapPaid(s, p, v, had, have, 0, ok)
  {}

  // No user frame is left for it.
  lemma NoFrame(s: Vm, p: Pid, v: nat, had: Frames, have: Frames)
    requires Shape(s) && p in s.sp && v < NPAGES && had.user == 0
    ensures MapPaid(s, p, v, had, have, 1, false)
  {}

  // A user frame is taken first, and then the rest.
  lemma FrameFirst(s: Vm, r: Vm, p: Pid, v: nat, f: Frame, had: Frames, mid: Frames, have: Frames, ok: bool)
    requires Shape(s) && p in s.sp && v < NPAGES && TakenAs(s, r, f, had, mid)
    requires MapPaid(r, p, v, mid, have, 0, ok)
    ensures MapPaid(s, p, v, had, have, 1, ok)
  {}

  ghost predicate CopyPaid(s: Vm, p: Pid, v: nat, had: Frames, have: Frames, ok: bool) {
    Shape(s) && p in s.sp && v < NPAGES &&
    Paid(had, have, if |Counted(s, WordOf(s, p, v).base, v)| == 1 then Frames(0, 0) else Frames(MapNeeds(s, p, TEMP), 1), ok)
  }

  lemma CopyCosts(s: Vm, p: Pid, v: nat, had: Frames, have: Frames, ok: bool)
    requires Shape(s) && p in s.sp && v < NPAGES
    requires if |Counted(s, WordOf(s, p, v).base, v)| == 1 then ok && had == have else MapPaid(s, p, TEMP, had, have, 1, ok)
    ensures CopyPaid(s, p, v, had, have, ok)
  {}

  ghost predicate WordPaid(s: Vm, p: Pid, v: nat, protection: bool, had: Frames, have: Frames, ok: bool) {
    Shape(s) && p in s.sp && v < NPAGES &&
    var e := WordOf(s, p, v);
    if !e.p && e.Requested() then MapPaid(s, p, v, had, have, 1, ok)
    else if e.p && e.cow && protection then CopyPaid(s, p, v, had, have, ok)
    else Paid(had, have, Frames(0, 0), ok)
  }

  ghost predicate FaultPaid(s: Vm, p: Pid, v: nat, protection: bool, had: Frames, have: Frames, ok: bool) {
    Shape(s) && p in s.sp && v < NPAGES && Paid(had, have, FaultNeeds(s, p, v, protection), ok)
  }

  ghost predicate AccessPaid(s: Vm, p: Pid, v: nat, write: bool, had: Frames, have: Frames, ok: bool) {
    Shape(s) && p in s.sp && v < NPAGES && Paid(had, have, AccessNeeds(s, p, v, write), ok)
  }

  // The access of process p to page v makes t of s, with the free frame f if it needs one.
  ghost predicate Touched(s: Vm, t: Vm, p: Pid, v: nat, f: Frame, k: Page, write: bool) {
    && Shape(s) && p in s.sp && v < NPAGES && USR_FIRST <= f < |s.ram| && Backed(s, p, v, Protection(s, p, v, write))
    && (TakesFrame(s, p, v, write) ==> Free(s, f)) && t == Touch(s, p, v, f, k, write)
  }

  // What is known of a page whose frame, if it is present, is in use.
  ghost predicate InUseAt(s: Vm, p: Pid, v: nat) {
    && Shape(s) && p in s.sp && v < NPAGES && USR_FIRST < |s.ram|
    && (s.sp[p].pte[v].p ==> HasTable(s, p, v) && s.sp[p].pte[v].base < |s.ram|)
  }

  // The outcome of the hardware check, and the error code if it fails.
  ghost predicate CheckedAs(s: Vm, p: Pid, v: nat, write: bool, allowed: bool, protection: bool) {
    && Shape(s) && p in s.sp && v < NPAGES && allowed == Permits(s.sp[p].pte[v], write)
    && protection == Protection(s, p, v, write)
  }

  // A second fault under an absent directory entry.
  ghost predicate AgainAs(u: Vm, t: Vm, p: Pid, v: nat) {
    Shape(u) && p in u.sp && v < NPAGES && t == if Stray(u, p, v) then u.(status := Halted) else u
  }

  // The first fault of the access, and the second one.
  ghost predicate HandledAs(s: Vm, t: Vm, p: Pid, v: nat, f: Frame, k: Page, protection: bool) {
    exists u :: FaultedAs(s, u, p, v, f, k, protection) && AgainAs(u, t, p, v)
  }

  lemma TouchMade(s: Vm, t: Vm, p: Pid, v: nat, f: Frame, k: Page, write: bool, allowed: bool, protection: bool)
    requires InUseAt(s, p, v) && CheckedAs(s, p, v, write, allowed, protection)
    requires if allowed then s == t && f == USR_FIRST else HandledAs(s, t, p, v, f, k, protection)
    ensures Touched(s, t, p, v, f, k, write)
  {}

  // What the parts of the fault handler make of a state, on a frame that is free if needed.
  ghost predicate GrantedAs(s: Vm, t: Vm, p: Pid, v: nat, f: Frame) {
    Shape(s) && p in s.sp && v < NPAGES && USR_FIRST <= f < |s.ram| && f !in s.used && t == Grant(s, p, v, f)
  }

  ghost predicate MovedAs(s: Vm, t: Vm, p: Pid, v: nat, f: Frame, k: Page) {
    && Shape(s) && p in s.sp && v < NPAGES && USR_FIRST <= f < |s.ram| && (v >= USR_FIRST ==> WordOf(s, p, v).base < |s.ram|)
    && f !in s.used && t == CopyTo(s, p, v, f, k)
  }

  ghost predicate CopiedAs(s: Vm, t: Vm, p: Pid, v: nat, f: Frame, k: Page) {
    && Shape(s) && p in s.sp && v < NPAGES && USR_FIRST <= f < |s.ram| && (v >= USR_FIRST ==> WordOf(s, p, v).base < |s.ram|)
    && (|Counted(s, WordOf(s, p, v).base, v)| != 1 ==> f !in s.used) && t == CopyOnWrite(s, p, v, f, k)
  }

  ghost predicate WordFaultedAs(s: Vm, t: Vm, p: Pid, v: nat, f: Frame, k: Page, protection: bool) {
    && Shape(s) && p in s.sp && v < NPAGES && USR_FIRST <= f < |s.ram| && Backed(s, p, v, protection)
    && ((if WordOf(s, p, v).p then protection && TakesCopy(s, p, v) else WordOf(s, p, v).Requested()) ==> f !in s.used)
    && t == WordFault(s, p, v, f, k, protection)
  }

  ghost predicate FaultedAs(s: Vm, t: Vm, p: Pid, v: nat, f: Frame, k: Page, protection: bool) {
    && Shape(s) && p in s.sp && v < NPAGES && USR_FIRST <= f < |s.ram| && Backed(s, p, v, protection)
    && (FaultTakes(s, p, v, protection) ==> f !in s.used) && t == PageFault(s, p, v, f, k, protection)
  }

  ghost predicate DirFaultAs(s: Vm, u: Vm, p: Pid, v: nat, asked: bool, stopped: bool) {
    && Shape(s) && p in s.sp && v < NPAGES && asked == AskedDir(s, p, v) && stopped == (Stray(s, p, v) && s.status != Fine)
    && u == if stopped then s.(status := Halted) else if Stray(s, p, v) then s.(status := Panicked) else s
  }

  // The page is present if the fault is one of protection.
  ghost predicate ProtectedAt(s: Vm, p: Pid, v: nat, protection: bool) {
    Shape(s) && p in s.sp && v < NPAGES && (s.sp[p].pte[v].p ==> HasTable(s, p, v)) &&
    (protection && v >= USR_FIRST ==> s.sp[p].pte[v].p)
  }

  lemma AskedFault(s: Vm, t: Vm, p: Pid, v: nat, f: Frame, k: Page, protection: bool)
    requires ProtectedAt(s, p, v, protection) && DirFaultAs(s, s, p, v, true, false) && GrantedAs(s, t, p, v, f)
    ensures FaultedAs(s, t, p, v, f, k, protection)
  {}

  lemma SecondStray(s: Vm, t: Vm, p: Pid, v: nat, f: Frame, k: Page, protection: bool)
    requires ProtectedAt(s, p, v, protection) && DirFaultAs(s, t, p, v, false, true) && USR_FIRST <= f < |s.ram|
    ensures FaultedAs(s, t, p, v, f, k, protection)
  {}

  lemma FallThrough(s: Vm, u: Vm, t: Vm, p: Pid, v: nat, f: Frame, k: Page, protection: bool)
    requires ProtectedAt(s, p, v, protection) && DirFaultAs(s, u, p, v, false, false) && WordFaultedAs(u, t, p, v, f, k, protection)
    ensures FaultedAs(s, t, p, v, f, k, protection)
  {
    assert Counted(u, WordOf(u, p, v).base, v) == Counted(s, WordOf(s, p, v).base, v);
  }

  // What these three cases cost.
  lemma AskedPaid(s: Vm, p: Pid, v: nat, protection: bool, had: Frames, have: Frames, ok: bool)
    requires ProtectedAt(s, p, v, protection) && DirFaultAs(s, s, p, v, true, false) && MapPaid(s, p, v, had, have, 1, ok)
    ensures FaultPaid(s, p, v, protection, had, have, ok)
  {}

  lemma StrayPaid(s: Vm, t: Vm, p: Pid, v: nat, protection: bool, had: Frames)
    requires ProtectedAt(s, p, v, protection) && DirFaultAs(s, t, p, v, false, true)
    ensures FaultPaid(s, p, v, protection, had, had, true)
  {}

  lemma FallPaid(s: Vm, u: Vm, p: Pid, v: nat, protection: bool, had: Frames, have: Frames, ok: bool)
    requires ProtectedAt(s, p, v, protection) && DirFaultAs(s, u, p, v, false, false) && WordPaid(u, p, v, protection, had, have, ok)
    ensures FaultPaid(s, p, v, protection, had, have, ok)
  {
    assert Counted(u, WordOf(u, p, v).base, v) == Counted(s, WordOf(s, p, v).base, v);
  }

  lemma AccessIs(s: Vm, p: Pid, v: nat, write: bool, allowed: bool, protection: bool, had: Frames, have: Frames, ok: bool)
    requires CheckedAs(s, p, v, write, allowed, protection)
    requires if allowed then ok && have == had else FaultPaid(s, p, v, protection, had, have, ok)
    ensures AccessPaid(s, p, v, write, had, have, ok)
  {}

  lemma WordGranted(s: Vm, t: Vm, p: Pid, v: nat, f: Frame, k: Page, protection: bool, had: Frames, have: Frames, ok: bool)
    requires Shape(s) && p in s.sp && v < NPAGES && Backed(s, p, v, protection)
    requires !WordOf(s, p, v).p && WordOf(s, p, v).Requested() && MapPaid(s, p, v, had, have, 1, ok) && (ok ==> GrantedAs(s, t, p, v, f))
    ensures WordPaid(s, p, v, protection, had, have, ok) && (ok ==> WordFaultedAs(s, t, p, v, f, k, protection))
  {}

  lemma WordCopied(s: Vm, t: Vm, p: Pid, v: nat, f: Frame, k: Page, protection: bool, had: Frames, have: Frames, ok: bool)
    requires Shape(s) && p in s.sp && v < NPAGES && Backed(s, p, v, protection) && protection
    requires WordOf(s, p, v).p && WordOf(s, p, v).cow && CopyPaid(s, p, v, had, have, ok) && (ok ==> CopiedAs(s, t, p, v, f, k))
    ensures WordPaid(s, p, v, protection, had, have, ok) && (ok ==> WordFaultedAs(s, t, p, v, f, k, protection))
  {}

  lemma WordKept(s: Vm, p: Pid, v: nat, k: Page, protection: bool, had: Frames)
    requires Shape(s) && p in s.sp && v < NPAGES && Backed(s, p, v, protection) && USR_FIRST < |s.ram|
    requires var e := WordOf(s, p, v); if e.p then !(e.cow && protection) else !e.Requested()
    ensures WordPaid(s, p, v, protection, had, had, true) && WordFaultedAs(s, s, p, v, USR_FIRST, k, protection)
  {}

  // The directories are still there, and all but one hold what they did.
  ghost predicate SameSpaces(before: Memory, mem: Memory, prior: Owners, own: Owners, except: Frame) {
    forall c: nat | IsDir(prior, c) && c < USR_FIRST :: IsDir(own, c) && (c != except ==> SpaceOf(mem, c) == SpaceOf(before, c))
  }

  // The stacks of a child: one built by the kernel, one copied from the parent.
  ghost predicate StacksIn(before: seq<Page>, ram: seq<Page>, sp: Space, f3: Frame, f0: Frame, k0: Page) {
    && |sp.pte| == NPAGES && sp.pte[STACK_3].base < |before| && f3 < |before| && f0 < |before|
    && ram == before[f0 := k0][f3 := before[sp.pte[STACK_3].base]]
  }

  // What the copy loop leaves once f is in use.
  ghost predicate FilledAs(s: Vm, t: Vm, p: Pid, v: nat, f: Frame, k: Page) {
    && Shape(s) && p in s.sp && v < NPAGES && f < |s.ram| && (v >= USR_FIRST ==> WordOf(s, p, v).base < |s.ram|)
    && t == s.(sp := s.sp[p := SetEntry(s.sp[p], TEMP, TempLeft(f, false))], ram := s.ram[f := CopiedPage(s, p, v, f, k)])
  }

  ghost predicate WordAs(s: Vm, t: Vm, p: Pid, v: nat, e: Entry) {
    Shape(s) && p in s.sp && v < NPAGES && t == SetWord(s, p, v, e)
  }

  lemma FilledMade(s: Vm, t: Vm, p: Pid, v: nat, f: Frame, k: Page)
    requires Shape(s) && p in s.sp && v < NPAGES && f < |s.ram| && (v >= USR_FIRST ==> WordOf(s, p, v).base < |s.ram|)
    requires t == s.(sp := t.sp, ram := t.ram)
    requires t.sp == s.sp[p := SetEntry(s.sp[p], TEMP, TempLeft(f, false))] && t.ram == s.ram[f := CopiedPage(s, p, v, f, k)]
    ensures FilledAs(s, t, p, v, f, k)
  {}

  ghost predicate EntryAs(s: Vm, t: Vm, p: Pid, v: nat, f: Frame) {
    Shape(s) && p in s.sp && v < NPAGES && t == s.(sp := s.sp[p := SetEntry(s.sp[p], v, UserEntry(f))])
  }

  lemma TouchedBase(s: Vm, t: Vm, p: Pid, v: nat, f: Frame, k: Page, write: bool)
    requires InUseAt(s, p, v) && Touched(s, t, p, v, f, k, write)
    ensures Shape(t) && p in t.sp && (t.sp[p].pte[v].p ==> t.sp[p].pte[v].base < |t.ram|)
  {
    TouchBase(s, p, v, f, k, write);
  }

  lemma ReadMade(s: Vm, t: Vm, p: Pid, v: nat, off: nat, f: Frame, seen: Seen)
    requires Touched(s, t, p, v, f, NoPage(), false) && off < PAGE_SIZE && Shape(t) && p in t.sp && seen == Fetch(t, p, v, off)
    ensures ReadAs(s, t, p, v, off, f, seen)
  {}

  lemma StoreMade(s: Vm, u: Vm, t: Vm, p: Pid, v: nat, off: nat, b: bv8, f: Frame, k: Page)
    requires Touched(s, u, p, v, f, k, true) && off < PAGE_SIZE && Shape(u) && p in u.sp
    requires (u.sp[p].pte[v].p ==> u.sp[p].pte[v].base < |u.ram|) && t == Store(u, p, v, off, b)
    ensures StoredAs(s, t, p, v, off, b, f, k)
  {}

  // A grant in two steps.
  lemma GrantMade(s: Vm, r: Vm, t: Vm, p: Pid, v: nat, f: Frame, had: Frames, mid: Frames)
    requires Shape(s) && p in s.sp && v < NPAGES && TakenAs(s, r, f, had, mid)
    requires if v < USR_FIRST then WordAs(r, t, p, v, UserEntry(f)) else EntryAs(r, t, p, v, f)
    ensures GrantedAs(s, t, p, v, f)
  {}

  lemma CopyCases(s: Vm, t: Vm, p: Pid, v: nat, f: Frame, k: Page)
    requires Shape(s) && p in s.sp && v < NPAGES && (v >= USR_FIRST ==> WordOf(s, p, v).base < |s.ram|)
    requires if |Counted(s, WordOf(s, p, v).base, v)| == 1 then t == Own(s, p, v) && USR_FIRST <= f < |s.ram| else MovedAs(s, t, p, v, f, k)
    ensures CopiedAs(s, t, p, v, f, k)
  {}

  // The copy in three steps.
  ghost predicate RefilledAs(s: Vm, t: Vm, p: Pid, v: nat, f: Frame, k: Page) {
    exists u :: FilledAs(s, u, p, v, f, k) && WordAs(u, t, p, v, UserEntry(f))
  }

  lemma CopyMade(s: Vm, r: Vm, t: Vm, p: Pid, v: nat, f: Frame, k: Page, had: Frames, mid: Frames)
    requires Shape(s) && TakenAs(s, r, f, had, mid) && RefilledAs(r, t, p, v, f, k)
    ensures MovedAs(s, t, p, v, f, k)
  {}

  // A fork and a load as the abstract machine has them, on free frames.
  ghost predicate ForkedAs(s: Vm, t: Vm, p: Pid, c: Pid, f3: Frame, f0: Frame, k0: Page) {
    && Shape(s) && p in s.sp && Free(s, f3) && Free(s, f0) && f3 != f0 && s.sp[p].pte[STACK_3].base < |s.ram|
    && t == VirtualMemory.Fork(s, p, c, f3, f0, k0)
  }

  ghost predicate LoadedAs(s: Vm, t: Vm, p: Pid, c: Pid, v: nat, fc: Frame, f3: Frame, f0: Frame, code: Page, k0: Page) {
    && Shape(s) && p in s.sp && v < NPAGES && Free(s, fc) && Free(s, f3) && Free(s, f0) && fc != f3 && fc != f0 && f3 != f0
    && t == VirtualMemory.Spawn(s, p, c, v, fc, f3, f0, code, k0)
  }

  // A read of byte off of that page returned `seen`.
  ghost predicate ReadAs(s: Vm, t: Vm, p: Pid, v: nat, off: nat, f: Frame, seen: Seen) {
    Touched(s, t, p, v, f, NoPage(), false) && off < PAGE_SIZE && seen == Fetch(t, p, v, off)
  }

  // Byte b was written there.
  ghost predicate StoredAs(s: Vm, t: Vm, p: Pid, v: nat, off: nat, b: bv8, f: Frame, k: Page) {
    exists u :: Touched(s, u, p, v, f, k, true) && off < PAGE_SIZE &&
      (u.sp[p].pte[v].p ==> u.sp[p].pte[v].base < |u.ram|) && t == Store(u, p, v, off, b)
  }

  // t is s with the space of p changed to spp and a new process c with spc.
  ghost predicate BornAs(s: Vm, t: Vm, p: Pid, c: Pid, spp: Space, spc: Space) {
    t == s.(sp := s.sp[p := spp][c := spc], used := t.used, ram := t.ram)
  }

  ghost predicate SpaceAt(s: Vm, p: Pid, sp: Space) { Shape(s) && p in s.sp && s.sp[p] == sp && |sp.pte| == NPAGES && |sp.pde| == 1024 }

  ghost predicate StackAt(sp: Space, top: nat) { |sp.pte| == NPAGES && sp.pte[STACK_3].base < top }

  ghost predicate TwoFree(used: set<Frame>, top: nat, f: Frame, g: Frame) {
    USR_FIRST <= f < top && USR_FIRST <= g < top && f !in used && g !in used && f != g
  }

  // The parts of a state that a fork or a load leaves.
  lemma ForkBuilt(s: Vm, t: Vm, p: Pid, c: Pid, f3: Frame, f0: Frame, k0: Page, sp: Space)
    requires SpaceAt(s, p, sp) && StackAt(sp, |s.ram|) && TwoFree(s.used, |s.ram|, f3, f0)
    requires BornAs(s, t, p, c, ForkParent(sp, f3), ForkChild(sp, f3, f0))
    requires t.used == s.used + {f3, f0} && t.ram == s.ram[f0 := k0][f3 := s.ram[sp.pte[STACK_3].base]]
    ensures ForkedAs(s, t, p, c, f3, f0, k0)
  {}

  lemma LoadBuilt(s: Vm, t: Vm, p: Pid, c: Pid, v: nat, fc: Frame, f3: Frame, f0: Frame, code: Page, k0: Page, sp: Space)
    requires SpaceAt(s, p, sp) && TwoFree(s.used, |s.ram|, fc, f3) && TwoFree(s.used, |s.ram|, fc, f0) && f3 != f0 && v < NPAGES
    requires BornAs(s, t, p, c, SetEntry(sp, TEMP, TempLeft(fc, true)), SpawnSpace(v, fc, f3, f0))
    requires t.used == s.used + {fc, f3, f0} && t.ram == s.ram[f0 := k0][fc := code]
    ensures LoadedAs(s, t, p, c, v, fc, f3, f0, code, k0)
  {}

  // The idle task's directory, and nothing in use.
  ghost function Booted(contents: seq<Page>, low: Line): Vm { Vm(map[0 := NoSpace()], {}, contents, low, Fine) }

  // Line t rewritten twice.
  lemma RewriteTwice(m0: Memory, m1: Memory, m2: Memory, t: Frame)
    requires t < USR_FIRST && m1 == m0[t := m1[t]] && m2 == m1[t := m2[t]]
    ensures m2 == m0[t := m2[t]]
  {}

  // A memory whose registered directory d is about to be freed.
  ghost predicate Layout(mem0: Memory, own: Owners, cr3: seq<nat>, d: Frame, top: nat) {
    && top <= 0x8_0000 && WellFormed(mem0, own) && IsDir(own, d)
    && (forall f <- own :: KRN_FIRST <= f < KRN_FIRST + 32 * KRN_WORDS)
    && (forall p | 0 <= p < |cr3| && cr3[p] != 0 :: IsDir(own, cr3[p]))
    && (forall v: nat | v < NPAGES && PteAt(mem0, d, v).p :: USR_FIRST <= PteAt(mem0, d, v).base < top)
  }

  // Frames other than d and its tables below index i, and the entries of d from i on, are
  // as they were.
  ghost predicate Untouched(mem: Memory, mem0: Memory, own: Owners, d: Frame, i: nat)
    requires d < USR_FIRST
  {
    && (forall f | 0 <= f < USR_FIRST && f != d && !(f in own && own[f].TableOf? && own[f].dir == d && own[f].index < i) ::
          mem[f] == mem0[f])
    && forall k | i <= k < 1024 :: mem[d][k] == mem0[d][k]
  }

  lemma TableInRange(mem0: Memory, own: Owners, cr3: seq<nat>, d: Frame, top: nat, i: nat)
    requires Layout(mem0, own, cr3, d, top) && 1 <= i < 1024 && mem0[d][i].p
    ensures mem0[d][i].base < USR_FIRST
    ensures forall j | 0 <= j < 1024 && mem0[mem0[d][i].base][j].p :: USR_FIRST <= mem0[mem0[d][i].base][j].base < top
  {
    TableEntryAt(mem0, own, d, i, 0);
    forall j | 0 <= j < 1024 && mem0[mem0[d][i].base][j].p ensures USR_FIRST <= mem0[mem0[d][i].base][j].base < top {
      assert PteAt(mem0, d, 1024 * i + j) == mem0[mem0[d][i].base][j];
    }
  }

  // Page b with its first i bytes taken from offset off of page a.
  function Splice(a: Page, b: Page, off: nat, i: nat): Page
    requires off + i <= PAGE_SIZE
  {
    a[off..off + i] + b[i..]
  }

  // One more byte, which is still that of page a if a is the page written to.
  lemma SpliceStep(a: Page, b: Page, off: nat, i: nat)
    requires off + i < PAGE_SIZE
    ensures Splice(a, b, off, i)[i := a[off + i]] == Splice(a, b, off, i + 1)
    ensures a == b ==> Splice(a, b, off, i)[off + i] == a[off + i]
  {
    assert a[off..off + i + 1] == a[off..off + i] + [a[off + i]];
  }

  // A range of a whole page.
  lemma OnePage(v: nat)
    ensures v * PAGE_SIZE / PAGE_SIZE == v == (v * PAGE_SIZE + PAGE_SIZE - 1) / PAGE_SIZE && v * PAGE_SIZE % PAGE_SIZE == 0
  {}

  lemma WholePage(a: Page, b: Page)
    ensures a[0..PAGE_SIZE] + b[PAGE_SIZE..] == a
  {}

  class Mm {
    const kernelMap: FrameMap          // kernel_pf_info
    const usrMap: FrameMap             // usr_pf_info
    const usrLimit: nat                // usr_pf_limit
    const lines: PageWords             // the first 4 MB, as page-table words
    var ram: seq<Page>                 // contents of the user frames, by frame number
    var cr3: seq<nat>                  // task_table[i].cr3 as a frame number, 0 for none
    var cur: nat                       // the directory in CR3
    var status: Status                 // in_panic, and whether the machine has stopped
    ghost var own: Owners              // what the frames of the paging structures are for
    ghost var low: Line                // physical page 0, as page-table words

    // Directories and tables are in order in memory `mem`, and the bitmaps cover its frames.
    ghost predicate ValidFor(mem: Memory, own: Owners)
      reads this, kernelMap.words, usrMap.words
    {
      ValidTables(mem, own) && mem[0] == low
    }

    ghost predicate ValidTables(mem: Memory, own: Owners)
      reads this, kernelMap.words, usrMap.words
    {
      && kernelMap.words != usrMap.words && kernelMap.first == KRN_FIRST && usrMap.first == USR_FIRST
      && kernelMap.words.Length == KRN_WORDS && usrLimit <= usrMap.words.Length
      && USR_FIRST < |ram| == USR_FIRST + 32 * usrMap.words.Length && |ram| <= TOP_FRAME
      && WellFormed(mem, own)
      && (forall f <- own :: f in kernelMap.Frames())
      && (forall p | 0 <= p < |cr3| && cr3[p] != 0 :: IsDir(own, cr3[p]) && (IsUser(own, cr3[p]) <==> p != 0))
      && (forall p, q | 0 <= p < q < |cr3| && cr3[p] != 0 :: cr3[p] != cr3[q])
      && (forall p | 0 < p < |cr3| && cr3[p] != 0 :: mem[cr3[p]][TOP_TABLE].p)
    }

    ghost predicate Valid()
      reads this, lines, kernelMap.words, usrMap.words
    {
      lines.Ok() && ValidFor(lines.mem, own)
    }

    ghost predicate Live(p: nat)
      reads this, lines
    {
      p < |cr3| && cr3[p] != 0
    }

    ghost function Spaces(): map<Pid, Space>
      requires Valid()
      reads this, lines, kernelMap.words, usrMap.words
    {
      assert InRange(cr3);
      SpacesOf(lines.mem, cr3)
    }

    ghost function Abs(): Vm
      requires Valid()
      reads this, lines, kernelMap.words, usrMap.words
    {
      Vm(Spaces(), usrMap.Frames(), ram, low, status)
    }

    // mm_init and loader_init: the idle task runs on the kernel directory. `page` is
    // physical page 0 and `contents` the user memory as the boot loader leaves it.
    constructor (maxPid: nat, words: nat, limit: nat, page: WordLine, contents: seq<Page>)
      requires 0 < maxPid && 0 < words && limit <= words && |contents| == USR_FIRST + 32 * words <= TOP_FRAME
      ensures Valid() && |cr3| == maxPid && cur == cr3[0] != 0
      ensures fresh(lines) && fresh(kernelMap.words) && fresh(usrMap.words)
      ensures Abs() == Booted(contents, LineOf(page))
    {
      kernelMap := new FrameMap(KRN_WORDS, KRN_FIRST);
      usrMap := new FrameMap(words, USR_FIRST);
      usrLimit := limit;
      lines := new PageWords(page);
      ram := contents;
      cr3 := seq(maxPid, i => 0);
      cur := 0;
      own, status, low := map[], Fine, LineOf(page);
      new;
      FirstLine(page);
      FreshValid();
      hide Valid, Decoded, ZeroWords, LineOf, SpaceOf, Booted;
      BootDirectory();
    }

    lemma FreshValid()
      requires kernelMap.words != usrMap.words && kernelMap.first == KRN_FIRST && usrMap.first == USR_FIRST
      requires kernelMap.words.Length == KRN_WORDS && usrLimit <= usrMap.words.Length
      requires USR_FIRST < |ram| == USR_FIRST + 32 * usrMap.words.Length && |ram| <= TOP_FRAME
      requires lines.Ok() && own == map[] && (forall p | 0 <= p < |cr3| :: cr3[p] == 0) && lines.mem[0] == low
      ensures Valid()
    {}

    // The kernel directory becomes that of the idle task (mm.c:514-515, loader.c:29).
    method BootDirectory()
      requires Valid() && own == map[] && 0 < |cr3| && (forall p | 0 <= p < |cr3| :: cr3[p] == 0)
      requires KRN_FIRST !in kernelMap.Frames() && usrMap.Frames() == {} && status == Fine
      modifies lines, `own, `cr3, `cur, kernelMap.words
      ensures Valid() && |cr3| == |old(cr3)| && cur == cr3[0] != 0 && Abs() == Booted(ram, low)
    {
      hide Available;
      var ok, d := DirNew(false);
      cr3 := cr3[0 := d];
      cur := d;
    }

    // The directory in CR3 is that of process p.
    ghost predicate Running(p: Pid)
      requires Valid()
      reads this, lines, kernelMap.words, usrMap.words
    {
      Live(p) && cur == cr3[p]
    }

    // Only the directory of the running process p changed.
    lemma OneSpaceChanged(before: Memory, p: Pid)
      requires Valid() && Running(p) && InRange(cr3)
      requires forall c: nat | IsDir(own, c) && c != cur :: SpaceOf(lines.mem, c) == SpaceOf(before, c)
      ensures Spaces() == SpacesOf(before, cr3)[p := SpaceOf(lines.mem, cur)]
    {
      SpacesUpdate(before, lines.mem, cr3, p);
    }

    // Some allocation found its bitmap full.
    ghost predicate OutOfMemory()
      reads this, lines, kernelMap.words, usrMap.words
    {
      KernelFull() || Exhausted(usrMap.Frames(), usrMap.first, usrLimit)
    }

    ghost predicate KernelFull()
      reads kernelMap.words
    {
      Exhausted(kernelMap.Frames(), kernelMap.first, KRN_WORDS)
    }

    // The frames that the two bitmaps can still hand out.
    ghost function KernelLeft(): nat
      reads kernelMap.words
    {
      Available(kernelMap.Frames(), kernelMap.first, KRN_WORDS)
    }

    ghost function UserLeft(): nat
      reads usrMap.words
    {
      Available(usrMap.Frames(), usrMap.first, usrLimit)
    }

    ghost function Unused(): Frames
      reads kernelMap.words, usrMap.words
    {
      Frames(KernelLeft(), UserLeft())
    }

    // ------------------------------------------------------------ frames

    // mm_mem_alloc (mm.c:33-36).
    method MemAlloc() returns (ok: bool, f: Frame)
      requires Valid()
      modifies usrMap.words
      ensures Valid()
      ensures ok ==> USR_FIRST <= f < |ram| && NextFree(old(usrMap.Frames()), USR_FIRST, usrLimit, f)
      ensures ok ==> f !in old(usrMap.Frames()) && usrMap.Frames() == old(usrMap.Frames()) + {f}
      ensures !ok ==> OutOfMemory() && usrMap.Frames() == old(usrMap.Frames())
      ensures if ok then UserLeft() + 1 == old(UserLeft()) else UserLeft() == old(UserLeft()) == 0
    {
      ghost var before := usrMap.Frames();
      ok, f := usrMap.Alloc(usrLimit);
      if ok { TakenOne(before, USR_FIRST, usrLimit, f); } else { NoneAvailable(before, USR_FIRST, usrLimit); }
    }

    // mm_mem_kalloc (mm.c:38-46): the frame is cleared. The store through a null pointer
    // that follows a failed allocation is not modelled.
    method MemKalloc() returns (ok: bool, f: Frame)
      requires Valid()
      modifies lines, kernelMap.words
      ensures Valid()
      ensures ok ==> KRN_FIRST <= f < USR_FIRST && NextFree(old(kernelMap.Frames()), KRN_FIRST, KRN_WORDS, f)
      ensures ok ==> f !in old(kernelMap.Frames()) && kernelMap.Frames() == old(kernelMap.Frames()) + {f}
      ensures ok ==> f !in own && lines.mem == old(lines.mem)[f := ZeroLine()]
      ensures forall c: nat | IsDir(own, c) :: SpaceOf(lines.mem, c) == old(SpaceOf(lines.mem, c))
      ensures !ok ==> KernelFull() && lines.mem == old(lines.mem) && kernelMap.Frames() == old(kernelMap.Frames())
      ensures if ok then KernelLeft() + 1 == old(KernelLeft()) else KernelLeft() == old(KernelLeft()) == 0
    {
      ghost var taken := kernelMap.Frames();
      ok, f := kernelMap.Alloc(KRN_WORDS);
      if !ok {
        NoneAvailable(taken, KRN_FIRST, KRN_WORDS);
        return;
      }
      TakenOne(taken, KRN_FIRST, KRN_WORDS, f);
      var i := 0;
      while i < 1024
        modifies lines
        invariant 0 <= i <= 1024 && lines.Ok()
        invariant lines.mem == old(lines.mem)[f := lines.mem[f]]
        invariant forall j | 0 <= j < i :: lines.mem[f][j] == ZERO
      {
        lines.Clear(f, i);
        i := i + 1;
      }
      assert lines.mem[f] == ZeroLine();
      WriteElsewhere(old(lines.mem), own, f, ZeroLine());
    }

    // mm_mem_free (mm.c:116-131) of the page at frame f. The comparison of its address with
    // USR_MEM_START is signed, as the cast of the source makes it.
    method MemFree(f: Frame)
      requires Bitmaps() && (KRN_FIRST <= f < KRN_FIRST + 32 * KRN_WORDS || USR_FIRST <= f < |ram|)
      modifies kernelMap.words, usrMap.words
      ensures kernelMap.Frames() == old(kernelMap.Frames()) - (if f < USR_FIRST then {f} else {})
      ensures usrMap.Frames() == old(usrMap.Frames()) - (if f < USR_FIRST then {} else {f})
    {
      var page := f * PAGE_SIZE;
      var signed := Signed(page);
      if signed < USR_FIRST * PAGE_SIZE {
        kernelMap.Free((signed - KRN_FIRST * PAGE_SIZE) / PAGE_SIZE);
      } else {
        usrMap.Free((signed - USR_FIRST * PAGE_SIZE) / PAGE_SIZE);
      }
    }

    // mm_dir_new (mm.c:48-55).
    method DirNew(user: bool) returns (ok: bool, d: Frame)
      requires Valid()
      modifies lines, `own, kernelMap.words
      ensures Valid()
      ensures ok ==> KRN_FIRST <= d < USR_FIRST && d !in old(kernelMap.Frames()) && kernelMap.Frames() == old(kernelMap.Frames()) + {d} && own == old(own)[d := Directory(user)]
      ensures ok ==> SpaceOf(lines.mem, d) == NoSpace() && lines.mem[d] == ZeroLine()[0 := IDENTITY]
      ensures forall f | 0 <= f < USR_FIRST && f != d :: lines.mem[f] == old(lines.mem[f])
      ensures forall c: nat | old(IsDir(own, c)) :: IsDir(own, c) && SpaceOf(lines.mem, c) == old(SpaceOf(lines.mem, c))
      ensures !ok ==> KernelFull() && own == old(own)
      ensures if ok then KernelLeft() + 1 == old(KernelLeft()) else KernelLeft() == old(KernelLeft()) == 0
      ensures KRN_FIRST !in old(kernelMap.Frames()) ==> ok
    {
      hide Available;
      ok, d := MemKalloc();
      if !ok {
        assert KRN_FIRST + 32 < KRN_FIRST + 32 * KRN_WORDS;
        return;
      }
      ghost var before, prior := lines.mem, own;
      lines.MapIdentity(d);
      own := own[d := Directory(user)];
      DirectoryAdded(before, prior, d, user);
      hide WellFormed, SpaceOf, NoSpace;
    }

    // What a fresh directory in frame d does.
    lemma DirectoryAdded(before: Memory, prior: Owners, d: Frame, user: bool)
      requires lines.Ok() && ValidFor(before, prior) && d !in prior && KRN_FIRST <= d < USR_FIRST && d in kernelMap.Frames()
      requires before[d] == ZeroLine() && lines.mem == WriteLine(before, d, 0, IDENTITY) && own == prior[d := Directory(user)]
      ensures Valid() && lines.mem[d] == ZeroLine()[0 := IDENTITY] && SpaceOf(lines.mem, d) == NoSpace()
      ensures forall c: nat | IsDir(prior, c) :: IsDir(own, c) && SpaceOf(lines.mem, c) == SpaceOf(before, c)
    {
      AddDirectory(before, prior, d, user);
      hide WellFormed, SpaceOf, NoSpace;
    }

    // ------------------------------------------------------------ mapping

    // The supervisor mapping of the temporary page needs no new table in a user directory.
    ghost predicate Window()
      reads this, lines
    {
      cur < USR_FIRST && (IsUser(own, cur) ==> lines.mem[cur][TOP_TABLE].p)
    }

    lemma WindowOpen(p: Pid)
      requires Valid() && Running(p)
      ensures Window()
    {}

    // The first half of mm_page_map (mm.c:181-189): a table for the directory entry.
    method EnsureTable(i: nat, d: Frame, us: bool) returns (ok: bool)
      requires Valid() && IsDir(own, d) && 1 <= i < 1024 && (IsUser(own, d) ==> us || lines.mem[d][i].p)
      modifies lines, `own, kernelMap.words
      ensures Valid() && Extends(old(own), own) && (old(Window()) ==> Window())
      ensures forall c: nat | old(IsDir(own, c)) :: IsDir(own, c) && (c != d ==> SpaceOf(lines.mem, c) == old(SpaceOf(lines.mem, c)))
      ensures forall c: nat :: IsDir(own, c) ==> old(IsDir(own, c))
      ensures ok ==> SpaceOf(lines.mem, d) == old(SpaceOf(lines.mem, d)).(pde := old(SpaceOf(lines.mem, d)).pde[i := Table]) && lines.mem[d][i].p
      ensures old(own.Keys) <= own.Keys && kernelMap.Frames() - own.Keys == old(kernelMap.Frames() - own.Keys)
      ensures !ok ==> OutOfMemory() && SpaceOf(lines.mem, d) == old(SpaceOf(lines.mem, d))
      ensures Took(old(KernelLeft()), KernelLeft(), if old(lines.mem[d][i]).p then 0 else 1, ok)
    {
      hide Available;
      var e := lines.Get(d, i);
      if e.p {
        assert SpaceOf(lines.mem, d).pde[i] == Table;
        return true;
      }
      ok := NewTable(i, d, us);
    }

    // mm.c:182-187.
    method NewTable(i: nat, d: Frame, us: bool) returns (ok: bool)
      requires Valid() && IsDir(own, d) && 1 <= i < 1024 && !lines.mem[d][i].p && (IsUser(own, d) ==> us)
      modifies lines, `own, kernelMap.words
      ensures Valid() && Extends(old(own), own) && (old(Window()) ==> Window())
      ensures forall c: nat :: IsDir(own, c) <==> old(IsDir(own, c))
      ensures forall c: nat | old(IsDir(own, c)) && c != d :: SpaceOf(lines.mem, c) == old(SpaceOf(lines.mem, c))
      ensures ok ==> SpaceOf(lines.mem, d) == old(SpaceOf(lines.mem, d)).(pde := old(SpaceOf(lines.mem, d)).pde[i := Table]) && lines.mem[d][i].p
      ensures old(own.Keys) <= own.Keys && kernelMap.Frames() - own.Keys == old(kernelMap.Frames() - own.Keys)
      ensures !ok ==> OutOfMemory() && SpaceOf(lines.mem, d) == old(SpaceOf(lines.mem, d))
      ensures Took(old(KernelLeft()), KernelLeft(), 1, ok)
    {
      hide Available, WellFormed, SpaceOf;
      DirsBelow();
      var t;
      ok, t := MemKalloc();
      if !ok { return; }
      ghost var before, prior, e := lines.mem, own, Entry(t, true, true, us, false, false);
      lines.Map(d, i, t, us);
      own := own[t := TableOf(d, i)];
      TableAdded(before, prior, d, i, t, e);
    }

    // What a fresh table put under entry i of directory d does.
    lemma TableAdded(before: Memory, prior: Owners, d: Frame, i: nat, t: Frame, e: Entry)
      requires lines.Ok() && ValidFor(before, prior) && IsDir(prior, d) && 1 <= i < 1024 && !before[d][i].p
      requires t !in prior && KRN_FIRST <= t < USR_FIRST && t in kernelMap.Frames() && before[t] == ZeroLine()
      requires e.p && e.base == t && (IsUser(prior, d) ==> e.us && e.rw)
      requires lines.mem == WriteLine(before, d, i, e) && own == prior[t := TableOf(d, i)]
      ensures Valid() && Extends(prior, own) && lines.mem[d][i].p
      ensures cur < USR_FIRST && IsUser(own, cur) ==>
        IsUser(prior, cur) && (before[cur][TOP_TABLE].p ==> lines.mem[cur][TOP_TABLE].p)
      ensures forall c: nat :: IsDir(own, c) <==> IsDir(prior, c)
      ensures forall c: nat | IsDir(prior, c) && c != d :: SpaceOf(lines.mem, c) == SpaceOf(before, c)
      ensures SpaceOf(lines.mem, d) == SpaceOf(before, d).(pde := SpaceOf(before, d).pde[i := Table])
    {
      AddTable(before, prior, d, i, t, e);
      AddedSpaces(before, prior, d, i, e);
      hide WellFormed, SpaceOf;
    }

    // mm_page_map with 4 KB pages (mm.c:167-194). The page translates to the frame, every
    // other translation of every directory stays, whether or not a table is allocated.
    method PageMap(v: nat, d: Frame, f: Frame, us: bool) returns (ok: bool)
      requires Valid() && IsDir(own, d) && USR_FIRST <= v < NPAGES && f < 0x10_0000
      requires IsUser(own, d) ==> us || lines.mem[d][v / 1024].p
      modifies lines, `own, kernelMap.words
      ensures Valid() && Extends(old(own), own) && (old(Window()) ==> Window())
      ensures forall c: nat | old(IsDir(own, c)) :: IsDir(own, c) && (c != d ==> SpaceOf(lines.mem, c) == old(SpaceOf(lines.mem, c)))
      ensures forall c: nat :: IsDir(own, c) ==> old(IsDir(own, c))
      ensures ok ==> SpaceOf(lines.mem, d) == SetEntry(old(SpaceOf(lines.mem, d)), v, Entry(f, true, true, us, false, false))
      ensures old(own.Keys) <= own.Keys && kernelMap.Frames() - own.Keys == old(kernelMap.Frames() - own.Keys)
      ensures !ok ==> OutOfMemory() && SpaceOf(lines.mem, d) == old(SpaceOf(lines.mem, d))
      ensures ok ==> lines.mem[d][v / 1024].p
      ensures Took(old(KernelLeft()), KernelLeft(), if old(lines.mem[d][v / 1024]).p then 0 else 1, ok)
    {
      hide Available;
      ok := EnsureTable(v / 1024, d, us);
      if !ok { return; }
      var t := TableFor(v, d);
      ghost var before := lines.mem;
      lines.Map(t, v % 1024, f, us);
      EntryWritten(before, v, d, Entry(f, true, true, us, false, false));
      assert SpaceOf(lines.mem, d).pde[v / 1024] == PdeAt(lines.mem, d, v / 1024);
    }

    // The frame of the table for page v.
    method TableFor(v: nat, d: Frame) returns (t: Frame)
      requires Valid() && IsDir(own, d) && USR_FIRST <= v < NPAGES && lines.mem[d][v / 1024].p
      ensures t == lines.mem[d][v / 1024].base < USR_FIRST && lines.mem[t][v % 1024] == SpaceOf(lines.mem, d).pte[v]
    {
      assert GoodEntryOf(own, d, v / 1024, lines.mem[d][v / 1024]) by { assert GoodDir(lines.mem, own, d); }
      var e := lines.Get(d, v / 1024);
      t := e.base;
    }

    // What one word written to the table for page v does.
    lemma EntryWritten(before: Memory, v: nat, d: Frame, e: Entry)
      requires lines.Ok() && ValidFor(before, own) && IsDir(own, d) && USR_FIRST <= v < NPAGES && before[d][v / 1024].p
      requires before[d][v / 1024].base < USR_FIRST
      requires lines.mem == WriteLine(before, before[d][v / 1024].base, v % 1024, e)
      ensures Valid()
      ensures SpaceOf(lines.mem, d) == SpaceOf(before, d).(pte := SpaceOf(before, d).pte[v := e])
      ensures forall c: nat | IsDir(own, c) && c != d :: SpaceOf(lines.mem, c) == SpaceOf(before, c)
    {
      WriteTable(before, own, d, v, e);
      assert GoodEntryOf(own, d, v / 1024, before[d][v / 1024]) by { assert GoodDir(before, own, d); }
    }

    // mm_page_free (mm.c:196-213): only the present bit goes, and without a table nothing
    // happens and NULL is returned.
    method PageFree(v: nat, d: Frame) returns (f: Frame)
      requires Valid() && IsDir(own, d) && USR_FIRST <= v < NPAGES
      modifies lines
      ensures Valid()
      ensures if old(lines.mem)[d][v / 1024].p then
          && f == SpaceOf(lines.mem, d).pte[v].base
          && SpaceOf(lines.mem, d) == old(SpaceOf(lines.mem, d)).(pte := old(SpaceOf(lines.mem, d)).pte[v := old(SpaceOf(lines.mem, d)).pte[v].(p := false)])
        else f == 0 && lines.mem == old(lines.mem)
      ensures forall c: nat | IsDir(own, c) && c != d :: SpaceOf(lines.mem, c) == old(SpaceOf(lines.mem, c))
    {
      var desc := lines.Get(d, v / 1024);
      if !desc.p { return 0; }
      var t := TableFor(v, d);
      var e := lines.Get(t, v % 1024);
      ghost var before := lines.mem;
      lines.Absent(t, v % 1024);
      EntryWritten(before, v, d, e.(p := false));
      f := e.base;
    }

    // mm_times_mapped (mm.c:215-228), with the tables as they are.
    method TimesMapped(f: Frame, i: nat, j: nat) returns (times: nat)
      requires lines.Ok()
      requires forall p | 0 <= p < |cr3| :: cr3[p] < USR_FIRST
      requires i < 1024 && j < 1024
      requires forall p | 0 <= p < |cr3| && cr3[p] != 0 :: lines.mem[cr3[p]][i].base < USR_FIRST
      ensures times == |RawCounted(lines.mem, cr3, f, i, j, |cr3|)|
    {
      times := 0;
      var p := 0;
      while p < |cr3|
        invariant 0 <= p <= |cr3| && times == |RawCounted(lines.mem, cr3, f, i, j, p)|
      {
        RawCountedIn(lines.mem, cr3, f, i, j, p);
        if cr3[p] != 0 {
          var desc := lines.Get(cr3[p], i);
          var e := lines.Get(desc.base, j);
          if e.base == f { times := times + 1; }
        }
        p := p + 1;
      }
    }

    // The words that mm.c finds in the tables are those of the abstract state.
    lemma WordIs(q: Pid, v: nat)
      requires Valid() && Live(q) && v < NPAGES && Shape(Abs())
      ensures cr3[q] < USR_FIRST && lines.mem[cr3[q]][v / 1024].base < USR_FIRST && IsDir(own, cr3[q])
      ensures lines.mem[lines.mem[cr3[q]][v / 1024].base][v % 1024] == WordOf(Abs(), q, v) == RawPte(lines.mem, cr3[q], v / 1024, v % 1024)
      ensures HasTable(Abs(), q, v) <==> v >= USR_FIRST && lines.mem[cr3[q]][v / 1024].p
      ensures !HasTable(Abs(), q, v) ==> lines.mem[cr3[q]][v / 1024].base == 0
      ensures Abs().sp[q].pte[v] == PteAt(lines.mem, cr3[q], v) && Abs().sp[q].pde[v / 1024] == PdeAt(lines.mem, cr3[q], v / 1024)
      ensures v < USR_FIRST ==> lines.mem[cr3[q]][v / 1024] == IDENTITY
    {
      RawIsWord(lines.mem, own, cr3[q], v);
      assert GoodDir(lines.mem, own, cr3[q]);
      if v >= USR_FIRST { assert GoodEntryOf(own, cr3[q], v / 1024, lines.mem[cr3[q]][v / 1024]); }
      assert Abs().sp[q] == SpaceOf(lines.mem, cr3[q]);
    }

    // mm_times_mapped counts the live processes whose word at that page has that base.
    lemma CountIsCounted(f: Frame, v: nat)
      requires Valid() && Shape(Abs()) && v < NPAGES
      ensures forall p | 0 <= p < |cr3| :: cr3[p] < USR_FIRST
      ensures forall p | 0 <= p < |cr3| && cr3[p] != 0 :: lines.mem[cr3[p]][v / 1024].base < USR_FIRST
      ensures RawCounted(lines.mem, cr3, f, v / 1024, v % 1024, |cr3|) == Counted(Abs(), f, v)
    {
      forall p: nat | Live(p) ensures lines.mem[cr3[p]][v / 1024].base < USR_FIRST { WordIs(p, v); }
      forall p: nat ensures p in RawCounted(lines.mem, cr3, f, v / 1024, v % 1024, |cr3|) <==> p in Counted(Abs(), f, v) {
        InRawCounted(lines.mem, cr3, f, v / 1024, v % 1024, |cr3|, p);
        if Live(p) { WordIs(p, v); }
      }
    }

    lemma DirBases(d: Frame, i: nat)
      requires Valid() && IsDir(own, d) && 1 <= i < 1024
      ensures d < USR_FIRST && lines.mem[d][i].base < USR_FIRST
    {
      assert GoodDir(lines.mem, own, d);
      assert GoodEntryOf(own, d, i, lines.mem[d][i]);
    }

    // What one word of physical page 0 rewritten does.
    lemma LowWritten(before: Memory, j: nat, e: Entry)
      requires lines.Ok() && ValidTables(before, own) && j < 1024 && lines.mem == WriteLine(before, 0, j, e) && low == lines.mem[0]
      ensures Valid() && InRange(cr3) && Spaces() == SpacesOf(before, cr3) && low == before[0][j := e]
    {
      WriteElsewhere(before, own, 0, lines.mem[0]);
      assert SpacesOf(lines.mem, cr3) == SpacesOf(before, cr3);
    }

    // The copying loop of mm_copy_vf (mm.c:309-310), between two frames or within one.
    method CopyFrame(from: Frame, off: nat, to: Frame, cant: nat)
      requires from < |ram| && to < |ram| && off + cant <= PAGE_SIZE
      modifies `ram
      ensures ram == old(ram)[to := old(ram)[from][off..off + cant] + old(ram)[to][cant..]]
    {
      ghost var a, b := ram[from], ram[to];
      assert Splice(a, b, off, 0) == b && ram[to := b] == ram;
      assert Splice(a, b, off, cant) == a[off..off + cant] + b[cant..];
      hide Splice;
      var i := 0;
      while i < cant
        invariant 0 <= i <= cant && ram == old(ram)[to := Splice(a, b, off, i)]
      {
        SpliceStep(a, b, off, i);
        assert ram[to] == Splice(a, b, off, i) && ram[from][off + i] == a[off + i];
        ram := ram[to := ram[to][i := ram[from][off + i]]];
        i := i + 1;
      }
    }

    // The frame behind page v once the window maps f.
    ghost function SourceOf(v: nat, f: Frame): Frame
      requires cur < USR_FIRST && v < NPAGES
      reads this, lines
    {
      if v == TEMP then f else PteAt(lines.mem, cur, v).base
    }

    // mm_copy_vf (mm.c:298-316): frame f gets a copy of cant bytes from an address of the
    // running process above 4 MB, through the temporary mapping. A range that crosses into
    // another page is refused.
    method CopyVf(address: nat, f: Frame, cant: nat) returns (ok: bool, st: int)
      requires Valid() && IsDir(own, cur) && Window() && f < |ram|
      requires address < NPAGES * PAGE_SIZE && address + cant <= NPAGES * PAGE_SIZE && USR_FIRST <= address / PAGE_SIZE < NPAGES
      requires SourceOf(address / PAGE_SIZE, f) < |ram|
      modifies lines, `own, `ram, kernelMap.words
      ensures Valid() && Extends(old(own), own)
      ensures forall c: nat :: IsDir(own, c) <==> old(IsDir(own, c))
      ensures forall c: nat | old(IsDir(own, c)) && c != cur :: SpaceOf(lines.mem, c) == old(SpaceOf(lines.mem, c))
      ensures old(own.Keys) <= own.Keys && kernelMap.Frames() - own.Keys == old(kernelMap.Frames() - own.Keys)
      ensures st == if address / PAGE_SIZE != (address + cant - 1) / PAGE_SIZE then MM_ERROR_NOTALIGNED else 0
      ensures st != 0 ==> ok && ram == old(ram) && lines.mem == old(lines.mem) && own == old(own)
      ensures ok && st == 0 ==> SpaceOf(lines.mem, cur) == SetEntry(old(SpaceOf(lines.mem, cur)), TEMP, TempLeft(f, false))
      ensures ok && st == 0 ==> ram == old(ram)[f :=
        old(ram)[old(SourceOf(address / PAGE_SIZE, f))][address % PAGE_SIZE..address % PAGE_SIZE + cant] + old(ram)[f][cant..]]
      ensures !ok ==> OutOfMemory() && ram == old(ram) && SpaceOf(lines.mem, cur) == old(SpaceOf(lines.mem, cur))
      ensures st == 0 ==> Took(old(KernelLeft()), KernelLeft(), if old(lines.mem[cur][TOP_TABLE]).p then 0 else 1, ok)
    {
      hide Available;
      var v := address / PAGE_SIZE;
      if v != (address + cant - 1) / PAGE_SIZE { return true, MM_ERROR_NOTALIGNED; }
      st := 0;
      ok := CopyRange(v, address % PAGE_SIZE, f, cant);
    }

    // mm.c:307-313, within one page.
    method CopyRange(v: nat, off: nat, f: Frame, cant: nat) returns (ok: bool)
      requires Valid() && IsDir(own, cur) && Window() && f < |ram|
      requires USR_FIRST <= v < NPAGES && off + cant <= PAGE_SIZE && SourceOf(v, f) < |ram|
      modifies lines, `own, `ram, kernelMap.words
      ensures Valid() && Extends(old(own), own)
      ensures forall c: nat :: IsDir(own, c) <==> old(IsDir(own, c))
      ensures forall c: nat | old(IsDir(own, c)) && c != cur :: SpaceOf(lines.mem, c) == old(SpaceOf(lines.mem, c))
      ensures old(own.Keys) <= own.Keys && kernelMap.Frames() - own.Keys == old(kernelMap.Frames() - own.Keys)
      ensures ok ==> SpaceOf(lines.mem, cur) == SetEntry(old(SpaceOf(lines.mem, cur)), TEMP, TempLeft(f, false))
      ensures ok ==> ram == old(ram)[f := old(ram)[old(SourceOf(v, f))][off..off + cant] + old(ram)[f][cant..]]
      ensures !ok ==> OutOfMemory() && ram == old(ram) && SpaceOf(lines.mem, cur) == old(SpaceOf(lines.mem, cur))
      ensures Took(old(KernelLeft()), KernelLeft(), if old(lines.mem[cur][TOP_TABLE]).p then 0 else 1, ok)
    {
      hide Available;
      ghost var before := SpaceOf(lines.mem, cur);
      assert before.pte[v] == PteAt(lines.mem, cur, v);
      ok := PageMap(TEMP, cur, f, false);
      if !ok { return; }
      assert SpaceOf(lines.mem, cur).pte[v] == PteAt(lines.mem, cur, v) && SpaceOf(lines.mem, cur).pte[TEMP] == PteAt(lines.mem, cur, TEMP);
      hide WellFormed;
      var _, from := Walk(v);
      var _, to := Walk(TEMP);
      CopyFrame(from.base, off, to.base, cant);
      UnmapTemp(before, f, false);
    }

    // The processor's walk to page v: the directory entry and the table entry, which the
    // 4 MB page of directory entry 0 does not have.
    method Walk(v: nat) returns (d: Entry, e: Entry)
      requires lines.Ok() && cur < USR_FIRST && v < NPAGES
      ensures d == lines.mem[cur][v / 1024] && e == PteAt(lines.mem, cur, v)
    {
      d := lines.Get(cur, v / 1024);
      e := ZERO;
      if v >= USR_FIRST && d.p && d.base < USR_FIRST { e := lines.Get(d.base, v % 1024); }
    }

    // mm_page_free of KERNEL_TEMP_PAGE after frame f was mapped there.
    method UnmapTemp(ghost before: Space, f: Frame, us: bool)
      requires Valid() && IsDir(own, cur) && |before.pte| == NPAGES && |before.pde| == 1024
      requires SpaceOf(lines.mem, cur) == SetEntry(before, TEMP, Entry(f, true, true, us, false, false))
      modifies lines
      ensures Valid() && SpaceOf(lines.mem, cur) == SetEntry(before, TEMP, TempLeft(f, us))
      ensures forall c: nat | IsDir(own, c) && c != cur :: SpaceOf(lines.mem, c) == old(SpaceOf(lines.mem, c))
    {
      assert SpaceOf(lines.mem, cur).pde[TOP_TABLE] == PdeAt(lines.mem, cur, TOP_TABLE);
      var g := PageFree(TEMP, cur);
    }

    // The inner loop of sys_palloc (mm.c:332-342): a free slot of a table, or 1024.
    method FindSlot(i: nat) returns (j: nat)
      requires lines.Ok() && WellFormed(lines.mem, own) && IsDir(own, cur) && 1 <= i < 1024 && lines.mem[cur][i].p
      ensures j <= 1024
      ensures 1024 * i + j ==
        ScanTable(SpaceOf(lines.mem, cur).pte, 1024 * i, 1024 * (i + 1))
    {
      ghost var pte := SpaceOf(lines.mem, cur).pte;
      TableEntryAt(lines.mem, own, cur, i, 0);
      var desc := lines.Get(cur, i);
      j := 0;
      while j < 1024
        invariant 0 <= j <= 1024
        invariant ScanTable(pte, 1024 * i + j, 1024 * (i + 1)) ==
          ScanTable(pte, 1024 * i, 1024 * (i + 1))
      {
        TableEntryAt(lines.mem, own, cur, i, j);
        var e := lines.Get(desc.base, j);
        if !e.p && !e.Requested() { return; }
        j := j + 1;
      }
    }

    // The search of sys_palloc (mm.c:325-356).
    method FindPage() returns (v: nat)
      requires lines.Ok() && WellFormed(lines.mem, own) && IsDir(own, cur)
      ensures v == PallocPage(SpaceOf(lines.mem, cur))
    {
      ghost var sp := SpaceOf(lines.mem, cur);
      var i := 1;
      while i < 1024
        invariant 1 <= i <= 1024 && Scan(sp, i) == Scan(sp, 1)
      {
        assert sp.pde[i] == PdeAt(lines.mem, cur, i);
        var e := lines.Get(cur, i);
        if e.p {
          var j := FindSlot(i);
          if j < 1024 { return 1024 * i + j; }
        } else if !e.Requested() {
          return 1024 * i;
        }
        i := i + 1;
      }
      v := NPAGES;
    }

    // sys_palloc (mm.c:318-357): a page number, or NPAGES when the scan finds nothing.
    method SysPalloc(ghost p: Pid) returns (v: nat)
      requires Valid() && Running(p)
      modifies lines
      ensures Valid() && v == PallocPage(old(SpaceOf(lines.mem, cur))) && Abs() == VirtualMemory.Palloc(old(Abs()), p)
    {
      ghost var before := lines.mem;
      v := FindPage();
      if v != NPAGES { MarkAsked(v); }
      OneSpaceChanged(before, p);
    }

    // The page found is marked requested, in its table or in the directory (mm.c:338 and 350).
    method MarkAsked(v: nat)
      requires Valid() && IsDir(own, cur) && v < NPAGES && v == PallocPage(SpaceOf(lines.mem, cur))
      modifies lines
      ensures Valid() && SpaceOf(lines.mem, cur) == AskPage(old(SpaceOf(lines.mem, cur)), v)
      ensures forall c: nat | IsDir(own, c) && c != cur :: SpaceOf(lines.mem, c) == old(SpaceOf(lines.mem, c))
    {
      var i := v / 1024;
      assert SpaceOf(lines.mem, cur).pde[i] == PdeAt(lines.mem, cur, i);
      var e := lines.Get(cur, i);
      if e.p {
        AskEntry(v);
      } else {
        AskTable(lines.mem, own, cur, i);
        lines.Ask(cur, i);
      }
    }

    // `table[j].attr = MM_ATTR_REQ` (mm.c:338).
    method AskEntry(v: nat)
      requires Valid() && IsDir(own, cur) && USR_FIRST <= v < NPAGES && lines.mem[cur][v / 1024].p
      modifies lines
      ensures Valid()
      ensures SpaceOf(lines.mem, cur) == old(SpaceOf(lines.mem, cur)).(pte := old(SpaceOf(lines.mem, cur)).pte[v := AskedEntry(old(SpaceOf(lines.mem, cur)).pte[v])])
      ensures forall c: nat | IsDir(own, c) && c != cur :: SpaceOf(lines.mem, c) == old(SpaceOf(lines.mem, c))
    {
      var t := TableFor(v, cur);
      ghost var before := lines.mem;
      lines.Ask(t, v % 1024);
      EntryWritten(before, v, cur, AskedEntry(before[t][v % 1024]));
    }

    // mm_share_page (mm.c:359-379). Without a table the mark goes to a word of physical
    // page 0.
    method SharePage(ghost p: Pid, v: nat)
      requires Valid() && Running(p) && v < NPAGES
      modifies lines, `low
      ensures Valid() && Abs() == VirtualMemory.Share(old(Abs()), p, v)
    {
      ghost var before, s := lines.mem, Abs();
      WordIs(p, v);
      var desc := lines.Get(cur, v / 1024);
      lines.Share(desc.base, v % 1024);
      Noted(before, s, p, v, before[desc.base][v % 1024].(sh := true));
    }

    // ------------------------------------------------------------ words

    // The state s is that of memory `before`, in which only the word for page v of the running
    // process p was then rewritten to e.
    ghost predicate Rewritten(before: Memory, s: Vm, p: Pid, v: nat, e: Entry)
      reads this, lines, kernelMap.words, usrMap.words
    {
      && lines.Ok() && Live(p) && cur == cr3[p] && v < NPAGES && ValidFor(before, own) && InRange(cr3)
      && s == Vm(SpacesOf(before, cr3), usrMap.Frames(), ram, low, status) && Shape(s)
      && before[cur][v / 1024].base < USR_FIRST
      && (HasTable(s, p, v) <==> v >= USR_FIRST && before[cur][v / 1024].p)
      && (!HasTable(s, p, v) ==> before[cur][v / 1024].base == 0)
      && lines.mem == WriteLine(before, before[cur][v / 1024].base, v % 1024, e)
    }

    ghost method Noted(before: Memory, s: Vm, p: Pid, v: nat, e: Entry)
      requires Rewritten(before, s, p, v, e)
      modifies `low
      ensures Valid() && Abs() == SetWord(s, p, v, e)
    {
      if HasTable(s, p, v) {
        assert GoodEntryOf(own, cur, v / 1024, before[cur][v / 1024]) by { assert GoodDir(before, own, cur); }
        EntryWritten(before, v, cur, e);
        OneSpaceChanged(before, p);
      } else {
        low := lines.mem[0];
        LowWritten(before, v % 1024, e);
      }
    }

    // ------------------------------------------------------------ faults

    // The frame of the word for page v, which is 0 below 4 MB.
    method WordFrame(ghost p: Pid, v: nat) returns (t: Frame, e: Entry)
      requires Valid() && Running(p) && v < NPAGES
      ensures t == lines.mem[cur][v / 1024].base < USR_FIRST && e == lines.mem[t][v % 1024] == WordOf(Abs(), p, v)
      ensures HasTable(Abs(), p, v) <==> v >= USR_FIRST && lines.mem[cur][v / 1024].p
      ensures !HasTable(Abs(), p, v) ==> t == 0
    {
      WordIs(p, v);
      var desc := lines.Get(cur, v / 1024);
      t := desc.base;
      e := lines.Get(t, v % 1024);
    }

    // What the page or the kernel's page k puts into frame f (mm_copy_vf called at mm.c:396).
    method CopySource(v: nat, f: Frame, k: Page) returns (ok: bool)
      requires Valid() && IsDir(own, cur) && Window() && f < |ram| && v < NPAGES
      requires v >= USR_FIRST ==> SourceOf(v, f) < |ram|
      modifies lines, `own, `ram, kernelMap.words
      ensures Valid() && Extends(old(own), own)
      ensures forall c: nat :: IsDir(own, c) <==> old(IsDir(own, c))
      ensures forall c: nat | old(IsDir(own, c)) && c != cur :: SpaceOf(lines.mem, c) == old(SpaceOf(lines.mem, c))
      ensures ok ==> SpaceOf(lines.mem, cur) == SetEntry(old(SpaceOf(lines.mem, cur)), TEMP, TempLeft(f, false))
      ensures ok ==> ram == old(ram)[f := if v < USR_FIRST then k else old(ram)[old(SourceOf(v, f))]]
      ensures !ok ==> OutOfMemory()
      ensures Took(old(KernelLeft()), KernelLeft(), if old(lines.mem[cur][TOP_TABLE]).p then 0 else 1, ok)
    {
      hide Available;
      if v < USR_FIRST {
        ghost var sp := SpaceOf(lines.mem, cur);
        ok := FillFrame(f, false, k);
        if !ok { return; }
        UnmapTemp(sp, f, false);
      } else {
        OnePage(v);
        WholePage(ram[SourceOf(v, f)], ram[f]);
        var st;
        ok, st := CopyVf(v * PAGE_SIZE, f, PAGE_SIZE);
      }
    }

    // A word that maps frame f with the standard attributes (mm.c:190, 399).
    method MapWord(ghost p: Pid, v: nat, f: Frame)
      requires Valid() && Running(p) && v < NPAGES && f < 0x10_0000
      modifies lines, `low
      ensures Valid() && WordAs(old(Abs()), Abs(), p, v, UserEntry(f))
    {
      ghost var before, s := lines.mem, Abs();
      WordIs(p, v);
      var t, _ := WordFrame(p, v);
      lines.Map(t, v % 1024, f, true);
      Noted(before, s, p, v, UserEntry(f));
    }

    // mm_mem_alloc for the running process.
    method TakeFrame(ghost p: Pid) returns (ok: bool, f: Frame)
      requires Valid() && Running(p)
      modifies usrMap.words
      ensures if ok then Valid() && Running(p) && TakenAs(old(Abs()), Abs(), f, old(Unused()), Unused()) && f < |ram|
              else OutOfMemory() && old(Unused()).user == 0
    {
      hide Available, SpaceOf, WellFormed;
      ok, f := MemAlloc();
    }

    // The copying half of mm_copy_on_write_page (mm.c:390-400).
    method CopyPage(ghost p: Pid, v: nat, k: Page) returns (ok: bool, f: Frame)
      requires Valid() && Running(p) && v < NPAGES && (v >= USR_FIRST ==> lines.mem[cur][v / 1024].p)
      requires v >= USR_FIRST ==> PteAt(lines.mem, cur, v).base in usrMap.Frames()
      modifies lines, `own, `ram, `low, kernelMap.words, usrMap.words
      ensures ok ==> Valid() && MovedAs(old(Abs()), Abs(), p, v, f, k)
      ensures !ok ==> OutOfMemory()
      ensures MapPaid(old(Abs()), p, TEMP, old(Unused()), Unused(), 1, ok)
    {
      hide Available;
      ghost var s := Abs();
      WordIs(p, v);
      if v >= USR_FIRST { usrMap.InFrames(PteAt(lines.mem, cur, v).base); }
      hide Valid, SpaceOf, WellFormed, MovedAs, RefilledAs, MapPaid, TakenAs;
      ghost var had := Unused();
      ok, f := TakeFrame(p);
      if !ok {
        NoFrame(s, p, TEMP, had, Unused());
        return;
      }
      ghost var r, mid := Abs(), Unused();
      ok := Refill(p, v, f, k);
      FrameFirst(s, r, p, TEMP, f, had, mid, Unused(), ok);
      if !ok { return; }
      CopyMade(s, r, Abs(), p, v, f, k, had, mid);
    }

    // The copy into frame f, which is in use by now, and the new word.
    method Refill(ghost p: Pid, v: nat, f: Frame, k: Page) returns (ok: bool)
      requires Valid() && Running(p) && v < NPAGES && f < |ram| && (v >= USR_FIRST ==> lines.mem[cur][v / 1024].p)
      requires v >= USR_FIRST ==> PteAt(lines.mem, cur, v).base < |ram|
      modifies lines, `own, `ram, `low, kernelMap.words
      ensures ok ==> Valid() && RefilledAs(old(Abs()), Abs(), p, v, f, k)
      ensures !ok ==> OutOfMemory()
      ensures MapPaid(old(Abs()), p, TEMP, old(Unused()), Unused(), 0, ok)
    {
      hide Available, Valid, FilledAs, WordAs;
      ghost var s := Abs();
      BelowTop();
      ok := CopyInto(p, v, f, k);
      if !ok { return; }
      ghost var u := Abs();
      MapWord(p, v, f);
      assert FilledAs(s, u, p, v, f, k) && WordAs(u, Abs(), p, v, UserEntry(f));
    }

    lemma BelowTop()
      requires Valid()
      ensures |ram| <= TOP_FRAME
    {}

    lemma WindowIs(p: Pid)
      requires Valid() && Running(p)
      ensures Window() && Shape(Abs()) && p in Abs().sp && MapNeeds(Abs(), p, TEMP) == if lines.mem[cur][TOP_TABLE].p then 0 else 1
    {
      OthersDirs(p);
      WordIs(p, TEMP);
    }

    // mm_copy_vf with frame f.
    method CopyInto(ghost p: Pid, v: nat, f: Frame, k: Page) returns (ok: bool)
      requires Valid() && Running(p) && v < NPAGES && f < |ram| && (v >= USR_FIRST ==> lines.mem[cur][v / 1024].p)
      requires v >= USR_FIRST ==> PteAt(lines.mem, cur, v).base < |ram|
      modifies lines, `own, `ram, kernelMap.words
      ensures ok ==> Valid() && FilledAs(old(Abs()), Abs(), p, v, f, k)
      ensures !ok ==> OutOfMemory()
      ensures MapPaid(old(Abs()), p, TEMP, old(Unused()), Unused(), 0, ok)
    {
      hide Available;
      ghost var before, s, had := lines.mem, Abs(), Unused();
      WordIs(p, v);
      WindowIs(p);
      OthersDirs(p);
      ghost var contents := CopiedPage(s, p, v, f, k);
      assert contents == if v < USR_FIRST then k else ram[SourceOf(v, f)];
      hide SpaceOf, WellFormed, SetEntry, MapPaid, FilledAs, CopiedPage, WordOf;
      ok := CopySource(v, f, k);
      TablePaid(s, p, TEMP, had, Unused(), ok);
      if !ok { return; }
      OneSpaceChanged(before, p);
      FilledMade(s, Abs(), p, v, f, k);
    }

    // mm_copy_on_write_page (mm.c:381-403) on page v of the running process p.
    method CopyOnWritePage(ghost p: Pid, v: nat, k: Page) returns (ok: bool, f: Frame)
      requires Valid() && Running(p) && v < NPAGES && (v >= USR_FIRST ==> lines.mem[cur][v / 1024].p)
      requires v >= USR_FIRST ==> PteAt(lines.mem, cur, v).base in usrMap.Frames()
      modifies lines, `own, `ram, `low, kernelMap.words, usrMap.words
      ensures ok ==> Valid() && CopiedAs(old(Abs()), Abs(), p, v, f, k)
      ensures !ok ==> OutOfMemory()
      ensures CopyPaid(old(Abs()), p, v, old(Unused()), Unused(), ok)
    {
      hide Available;
      ghost var s, had := Abs(), Unused();
      SourceInUse(p, v);
      hide Valid, CopiedAs, MovedAs, SpaceOf, WellFormed, Counted, CopyPaid, MapPaid;
      var times := CountWord(p, v);
      if times == 1 {
        OwnPage(p, v);
        ok, f := true, USR_FIRST;
      } else {
        ok, f := CopyPage(p, v, k);
      }
      CopyCosts(s, p, v, had, Unused(), ok);
      if !ok { return; }
      CopyCases(s, Abs(), p, v, f, k);
    }

    lemma SourceInUse(p: Pid, v: nat)
      requires Valid() && Running(p) && v < NPAGES && (v >= USR_FIRST ==> lines.mem[cur][v / 1024].p)
      requires v >= USR_FIRST ==> PteAt(lines.mem, cur, v).base in usrMap.Frames()
      ensures p in Abs().sp && Shape(Abs()) && USR_FIRST < |ram| && (v >= USR_FIRST ==> WordOf(Abs(), p, v).base < |ram|)
    {
      WordIs(p, v);
      if v >= USR_FIRST { usrMap.InFrames(PteAt(lines.mem, cur, v).base); }
    }

    // mm_times_mapped called with the word for page v.
    method CountWord(ghost p: Pid, v: nat) returns (times: nat)
      requires Valid() && Running(p) && v < NPAGES
      ensures Shape(Abs()) && p in Abs().sp && times == |Counted(Abs(), WordOf(Abs(), p, v).base, v)|
    {
      var t, e := WordFrame(p, v);
      CountIsCounted(e.base, v);
      times := TimesMapped(e.base, v / 1024, v % 1024);
    }

    // The entry of the only mapper made writable again (mm.c:385-386).
    method OwnPage(ghost p: Pid, v: nat)
      requires Valid() && Running(p) && v < NPAGES
      modifies lines, `low
      ensures Valid() && Abs() == Own(old(Abs()), p, v)
    {
      ghost var before, s := lines.mem, Abs();
      WordIs(p, v);
      var t, e := WordFrame(p, v);
      lines.TakeOver(t, v % 1024);
      Noted(before, s, p, v, e.(cow := false, rw := true));
    }

    // isr_page_fault_c (mm.c:406-474) for a fault of the running process p at page v;
    // k is the kernel's own page if v is below 4 MB.
    method PageFault(ghost p: Pid, v: nat, protection: bool, k: Page) returns (ok: bool, f: Frame)
      requires Valid() && Running(p) && v < NPAGES
      requires PteAt(lines.mem, cur, v).p ==> PteAt(lines.mem, cur, v).base in usrMap.Frames()
      requires protection && v >= USR_FIRST ==> PteAt(lines.mem, cur, v).p
      modifies lines, `own, `ram, `low, `status, kernelMap.words, usrMap.words
      ensures ok ==> Valid() && FaultedAs(old(Abs()), Abs(), p, v, f, k, protection)
      ensures !ok ==> OutOfMemory()
      ensures FaultPaid(old(Abs()), p, v, protection, old(Unused()), Unused(), ok)
    {
      hide Available;
      ghost var s, had := Abs(), Unused();
      BaseInUse(p, v);
      hide Valid, FaultedAs, GrantedAs, WordFaultedAs, FaultPaid, MapPaid, WordPaid;
      var asked, stopped := DirectoryFault(p, v);
      ghost var u := Abs();
      if stopped {
        ok, f := true, USR_FIRST;
        SecondStray(s, u, p, v, f, k, protection);
        StrayPaid(s, u, p, v, protection, had);
      } else if asked {
        ok, f := MapFresh(p, v);
        AskedPaid(s, p, v, protection, had, Unused(), ok);
        if ok { AskedFault(s, Abs(), p, v, f, k, protection); }
      } else {
        ok, f := FaultOnWord(p, v, protection, k);
        FallPaid(s, u, p, v, protection, had, Unused(), ok);
        if ok { FallThrough(s, u, Abs(), p, v, f, k, protection); }
      }
    }

    // mm.c:425-447, but for the frame of a requested directory entry. debug_kernelpanic halts
    // if the machine was in panic, and returns otherwise.
    method DirectoryFault(ghost p: Pid, v: nat) returns (asked: bool, stopped: bool)
      requires Valid() && Running(p) && v < NPAGES
      modifies `status
      ensures Valid() && DirFaultAs(old(Abs()), Abs(), p, v, asked, stopped)
    {
      WordIs(p, v);
      var desc := lines.Get(cur, v / 1024);
      asked, stopped := !desc.p && desc.Requested(), !desc.p && !desc.Requested() && status != Fine;
      if stopped { status := Halted; } else if !desc.p && !asked { status := Panicked; }
    }

    // mm.c:450-470.
    method FaultOnWord(ghost p: Pid, v: nat, protection: bool, k: Page) returns (ok: bool, f: Frame)
      requires Valid() && Running(p) && v < NPAGES
      requires PteAt(lines.mem, cur, v).p ==> PteAt(lines.mem, cur, v).base in usrMap.Frames()
      requires protection && v >= USR_FIRST ==> PteAt(lines.mem, cur, v).p
      modifies lines, `own, `ram, `low, kernelMap.words, usrMap.words
      ensures ok ==> Valid() && WordFaultedAs(old(Abs()), Abs(), p, v, f, k, protection)
      ensures !ok ==> OutOfMemory()
      ensures WordPaid(old(Abs()), p, v, protection, old(Unused()), Unused(), ok)
    {
      hide Available, Valid, SpaceOf, WellFormed, InUseAt, WordPaid, WordFaultedAs, MapPaid, CopyPaid, GrantedAs, CopiedAs;
      ghost var s, had := Abs(), Unused();
      WordBacked(p, v, protection);
      var t, e := WordFrame(p, v);
      ok, f := true, USR_FIRST;
      if !e.p && e.Requested() {
        ok, f := MapFresh(p, v);
        WordGranted(s, if ok then Abs() else s, p, v, f, k, protection, had, Unused(), ok);
      } else if e.p && e.cow && protection {
        ok, f := CopyOnWritePage(p, v, k);
        WordCopied(s, if ok then Abs() else s, p, v, f, k, protection, had, Unused(), ok);
      } else {
        WordKept(s, p, v, k, protection, had);
      }
    }

    // A copy-on-write word of a user page is one of its table.
    lemma WordBacked(p: Pid, v: nat, protection: bool)
      requires Valid() && Running(p) && v < NPAGES
      requires PteAt(lines.mem, cur, v).p ==> PteAt(lines.mem, cur, v).base in usrMap.Frames()
      requires protection && v >= USR_FIRST ==> PteAt(lines.mem, cur, v).p
      ensures Shape(Abs()) && p in Abs().sp && USR_FIRST < |ram| && Backed(Abs(), p, v, protection)
      ensures protection && v >= USR_FIRST ==> lines.mem[cur][v / 1024].p && PteAt(lines.mem, cur, v).base in usrMap.Frames()
    {
      WordIs(p, v);
      if PteAt(lines.mem, cur, v).p { usrMap.InFrames(PteAt(lines.mem, cur, v).base); }
    }

    // A fresh user frame mapped with the standard attributes (mm.c:427-432, 454-459). Below
    // 4 MB directory entry 0 has a table already, as far as mm_page_map can tell.
    method MapFresh(ghost p: Pid, v: nat) returns (ok: bool, f: Frame)
      requires Valid() && Running(p) && v < NPAGES
      modifies lines, `own, `low, kernelMap.words, usrMap.words
      ensures ok ==> Valid() && GrantedAs(old(Abs()), Abs(), p, v, f)
      ensures !ok ==> OutOfMemory()
      ensures MapPaid(old(Abs()), p, v, old(Unused()), Unused(), 1, ok)
    {
      hide Available;
      ghost var s := Abs();
      WordIs(p, v);
      hide Valid, SpaceOf, WellFormed, GrantedAs, WordAs, EntryAs, MapPaid, TakenAs;
      ghost var had := Unused();
      ok, f := TakeFrame(p);
      if !ok {
        NoFrame(s, p, v, had, Unused());
        return;
      }
      ghost var r, mid := Abs(), Unused();
      ok := MapAt(p, v, f);
      FrameFirst(s, r, p, v, f, had, mid, Unused(), ok);
      if !ok { return; }
      GrantMade(s, r, Abs(), p, v, f, had, mid);
    }

    method MapAt(ghost p: Pid, v: nat, f: Frame) returns (ok: bool)
      requires Valid() && Running(p) && v < NPAGES && f < |ram|
      modifies lines, `own, `low, kernelMap.words
      ensures ok ==> Valid() && if v < USR_FIRST then WordAs(old(Abs()), Abs(), p, v, UserEntry(f)) else EntryAs(old(Abs()), Abs(), p, v, f)
      ensures !ok ==> OutOfMemory()
      ensures MapPaid(old(Abs()), p, v, old(Unused()), Unused(), 0, ok)
    {
      hide Available, WordAs, EntryAs;
      WordIs(p, v);
      ok := true;
      if v < USR_FIRST { MapWord(p, v, f); } else { ok := MapHigh(p, v, f); }
    }

    method MapHigh(ghost p: Pid, v: nat, f: Frame) returns (ok: bool)
      requires Valid() && Running(p) && UserPage(v) && f < |ram|
      modifies lines, `own, kernelMap.words
      ensures ok ==> Valid() && EntryAs(old(Abs()), Abs(), p, v, f)
      ensures !ok ==> OutOfMemory()
      ensures MapPaid(old(Abs()), p, v, old(Unused()), Unused(), 0, ok)
    {
      hide Available;
      ghost var before, s, had := lines.mem, Abs(), Unused();
      OthersDirs(p);
      WordIs(p, v);
      hide WellFormed, SpaceOf, SetEntry, MapPaid;
      ok := PageMap(v, cur, f, true);
      TablePaid(s, p, v, had, Unused(), ok);
      if !ok { return; }
      OneSpaceChanged(before, p);
    }

    // Both levels must let an unprivileged access through. In a user process the directory
    // entry stands in the way below 4 MB only, where no page is present.
    predicate Allows(d: Entry, e: Entry, write: bool) { Permits(d, write) && Permits(e, write) }

    lemma TableDecides(p: Pid, v: nat, write: bool)
      requires Valid() && Running(p) && p != 0 && v < NPAGES
      ensures Allows(lines.mem[cur][v / 1024], PteAt(lines.mem, cur, v), write) <==> Permits(PteAt(lines.mem, cur, v), write)
    {
      assert GoodDir(lines.mem, own, cur);
      if v >= USR_FIRST { assert GoodEntryOf(own, cur, v / 1024, lines.mem[cur][v / 1024]); }
    }

    // The hardware check of a user access, the page fault if it fails, and the second one
    // if the directory entry is still absent then.
    method EnsureAccess(ghost p: Pid, v: nat, write: bool, k: Page) returns (ok: bool, f: Frame)
      requires Valid() && Running(p) && p != 0 && v < NPAGES
      requires PteAt(lines.mem, cur, v).p ==> PteAt(lines.mem, cur, v).base in usrMap.Frames()
      modifies lines, `own, `ram, `low, `status, kernelMap.words, usrMap.words
      ensures ok ==> Valid() && Running(p) && Touched(old(Abs()), Abs(), p, v, f, k, write)
      ensures !ok ==> OutOfMemory()
      ensures AccessPaid(old(Abs()), p, v, write, old(Unused()), Unused(), ok)
    {
      hide Available, HandledAs, Touched, CheckedAs, InUseAt, SpaceOf, WellFormed, Valid, AccessPaid, FaultPaid;
      ghost var s, had := Abs(), Unused();
      BaseInUse(p, v);
      var allowed, protection := CheckAccess(p, v, write);
      ok, f := true, USR_FIRST;
      if !allowed { ok, f := Handle(p, v, protection, k); }
      AccessIs(s, p, v, write, allowed, protection, had, Unused(), ok);
      if !ok { return; }
      TouchMade(s, Abs(), p, v, f, k, write, allowed, protection);
    }

    method Handle(ghost p: Pid, v: nat, protection: bool, k: Page) returns (ok: bool, f: Frame)
      requires Valid() && Running(p) && v < NPAGES
      requires PteAt(lines.mem, cur, v).p ==> PteAt(lines.mem, cur, v).base in usrMap.Frames()
      requires protection && v >= USR_FIRST ==> PteAt(lines.mem, cur, v).p
      modifies lines, `own, `ram, `low, `status, kernelMap.words, usrMap.words
      ensures ok ==> Valid() && HandledAs(old(Abs()), Abs(), p, v, f, k, protection)
      ensures !ok ==> OutOfMemory()
      ensures FaultPaid(old(Abs()), p, v, protection, old(Unused()), Unused(), ok)
    {
      hide Available, FaultedAs, AgainAs, Valid;
      ghost var s := Abs();
      ok, f := PageFault(p, v, protection, k);
      if !ok { return; }
      ghost var u := Abs();
      FaultAgain(p, v);
      assert FaultedAs(s, u, p, v, f, k, protection) && AgainAs(u, Abs(), p, v);
    }

    // The walk of the processor, and the error code if it refuses the access.
    method CheckAccess(ghost p: Pid, v: nat, write: bool) returns (allowed: bool, protection: bool)
      requires Valid() && Running(p) && p != 0 && v < NPAGES
      ensures CheckedAs(Abs(), p, v, write, allowed, protection)
      ensures protection && v >= USR_FIRST ==> PteAt(lines.mem, cur, v).p
    {
      WordIs(p, v);
      TableDecides(p, v, write);
      var d, e := Walk(v);
      allowed, protection := Allows(d, e, write), write && (v < USR_FIRST || e.p);
    }

    // The instruction is retried: under an absent directory entry it faults again, and
    // debug_kernelpanic does not return.
    method FaultAgain(ghost p: Pid, v: nat)
      requires Valid() && Running(p) && v < NPAGES
      modifies `status
      ensures Valid() && AgainAs(old(Abs()), Abs(), p, v)
    {
      WordIs(p, v);
      var desc := lines.Get(cur, v / 1024);
      if !desc.p && !desc.Requested() { status := Halted; }
    }

    // A user read of byte off of page v: the faults it may cause, then the retry.
    method UserRead(ghost p: Pid, v: nat, off: nat) returns (ok: bool, seen: Seen, f: Frame)
      requires Valid() && Running(p) && p != 0 && v < NPAGES && off < PAGE_SIZE
      requires PteAt(lines.mem, cur, v).p ==> PteAt(lines.mem, cur, v).base in usrMap.Frames()
      modifies lines, `own, `ram, `low, `status, kernelMap.words, usrMap.words
      ensures ok ==> Valid() && ReadAs(old(Abs()), Abs(), p, v, off, f, seen)
      ensures !ok ==> OutOfMemory()
      ensures AccessPaid(old(Abs()), p, v, false, old(Unused()), Unused(), ok)
    {
      hide Available;
      ghost var s := Abs();
      BaseInUse(p, v);
      seen := Refused;
      ok, f := EnsureAccess(p, v, false, NoPage());
      if !ok { return; }
      ghost var t := Abs();
      TouchedBase(s, t, p, v, f, NoPage(), false);
      hide Touched, InUseAt, ReadAs, WellFormed;
      seen := LoadByte(p, v, off);
      ReadMade(s, t, p, v, off, f, seen);
    }

    lemma BaseInUse(p: Pid, v: nat)
      requires Valid() && Running(p) && v < NPAGES
      requires PteAt(lines.mem, cur, v).p ==> PteAt(lines.mem, cur, v).base in usrMap.Frames()
      ensures InUseAt(Abs(), p, v)
    {
      WordIs(p, v);
      usrMap.InFrames(PteAt(lines.mem, cur, v).base);
    }

    // What the processor does once the tables let an access through, or do not.
    method LoadByte(ghost p: Pid, v: nat, off: nat) returns (seen: Seen)
      requires Valid() && Running(p) && p != 0 && v < NPAGES && off < PAGE_SIZE
      requires Abs().sp[p].pte[v].p ==> Abs().sp[p].pte[v].base < |ram|
      ensures seen == Fetch(Abs(), p, v, off)
    {
      var d, e := Walk(v);
      assert Abs().sp[p].pte[v] == e;
      TableDecides(p, v, false);
      seen := Refused;
      if Allows(d, e, false) { seen := Byte(ram[e.base][off]); }
    }

    method StoreByte(ghost p: Pid, v: nat, off: nat, b: bv8)
      requires Valid() && Running(p) && p != 0 && v < NPAGES && off < PAGE_SIZE
      requires Abs().sp[p].pte[v].p ==> Abs().sp[p].pte[v].base < |ram|
      modifies `ram
      ensures Valid() && Abs() == Store(old(Abs()), p, v, off, b)
    {
      var d, e := Walk(v);
      assert Abs().sp[p].pte[v] == e;
      TableDecides(p, v, true);
      if Allows(d, e, true) { ram := ram[e.base := ram[e.base][off := b]]; }
    }

    // A user write of byte b at offset off of page v; k as for a fault.
    method UserStore(ghost p: Pid, v: nat, off: nat, b: bv8, k: Page) returns (ok: bool, f: Frame)
      requires Valid() && Running(p) && p != 0 && v < NPAGES && off < PAGE_SIZE
      requires PteAt(lines.mem, cur, v).p ==> PteAt(lines.mem, cur, v).base in usrMap.Frames()
      modifies lines, `own, `ram, `low, `status, kernelMap.words, usrMap.words
      ensures ok ==> Valid() && StoredAs(old(Abs()), Abs(), p, v, off, b, f, k)
      ensures !ok ==> OutOfMemory()
      ensures AccessPaid(old(Abs()), p, v, true, old(Unused()), Unused(), ok)
    {
      hide Available;
      ghost var s := Abs();
      BaseInUse(p, v);
      ok, f := EnsureAccess(p, v, true, k);
      if !ok { return; }
      ghost var u := Abs();
      TouchedBase(s, u, p, v, f, k, true);
      hide Touched, InUseAt, StoredAs, WellFormed;
      StoreByte(p, v, off, b);
      StoreMade(s, u, Abs(), p, v, off, b, f, k);
    }

    // ------------------------------------------------------------ fork

    // mm_page_fork (mm.c:237-260) on the table in frame t and the new table in frame n.
    method PageFork(t: Frame, n: Frame)
      requires lines.Ok() && t < USR_FIRST && n < USR_FIRST && t != n
      modifies lines
      ensures lines.Ok() && lines.mem == old(lines.mem)[t := MarkLine(old(lines.mem)[t])][n := CopyLine(old(lines.mem)[t], old(lines.mem)[n])]
    {
      var j := 0;
      while j < 1024
        invariant 0 <= j <= 1024 && lines.Ok() && lines.mem == old(lines.mem)[t := lines.mem[t]][n := lines.mem[n]]
        invariant forall k | 0 <= k < j ::
          lines.mem[t][k] == MarkLine(old(lines.mem)[t])[k] && lines.mem[n][k] == CopyLine(old(lines.mem)[t], old(lines.mem)[n])[k]
        invariant forall k | j <= k < 1024 :: lines.mem[t][k] == old(lines.mem)[t][k] && lines.mem[n][k] == old(lines.mem)[n][k]
      {
        var e := lines.Get(t, j);
        if e.p {
          if !e.sh { lines.Mark(t, j); }
          lines.Copy(t, n, j);
        }
        j := j + 1;
      }
      assert lines.mem[t] == MarkLine(old(lines.mem)[t]) && lines.mem[n] == CopyLine(old(lines.mem)[t], old(lines.mem)[n]);
    }

    // One present directory entry forked (mm.c:276-293): a new table, attributes copied.
    method TableFork(d: Frame, nd: Frame, i: nat, ghost sp: Space) returns (ok: bool)
      requires Valid() && IsDir(own, d) && IsDir(own, nd) && d != nd && 1 <= i < 1024 && lines.mem[d][i].p
      requires IsUser(own, nd) ==> IsUser(own, d)
      requires |sp.pte| == NPAGES && |sp.pde| == 1024
      requires SpaceOf(lines.mem, d) == MarkedTo(sp, 1024 * i) && SpaceOf(lines.mem, nd) == CopiedTo(sp, 1024 * i)
      modifies lines, `own, kernelMap.words
      ensures Extends(old(own), own)
      ensures ok ==> Valid() && SpaceOf(lines.mem, d) == MarkedTo(sp, 1024 * (i + 1))
      ensures ok ==> SpaceOf(lines.mem, nd) == CopiedTo(sp, 1024 * (i + 1)) && lines.mem[d] == old(lines.mem[d])
      ensures forall c: nat :: IsDir(own, c) <==> old(IsDir(own, c))
      ensures forall c: nat | old(IsDir(own, c)) && c != d && c != nd :: SpaceOf(lines.mem, c) == old(SpaceOf(lines.mem, c))
      ensures !ok ==> OutOfMemory()
      ensures Took(old(KernelLeft()), KernelLeft(), 1, ok)
    {
      hide Available;
      NotForkedYet(lines.mem, nd, sp, i);
      hide SpaceOf, WellFormed, MarkedTo, CopiedTo;
      var n;
      ok, n := MemKalloc();
      if !ok { return; }
      ghost var before, prior := lines.mem, own;
      ForkFrames(before, prior, d, i, n);
      ForkInto(d, nd, i, n);
      own := own[n := TableOf(nd, i)];
      TableForked(before, prior, d, nd, i, n, sp);
    }

    // Directory entry 0 is not copied.
    lemma ForkBegun(d: Frame, nd: Frame)
      requires Valid() && IsDir(own, d) && IsDir(own, nd) && d < USR_FIRST && nd < USR_FIRST && SpaceOf(lines.mem, nd) == NoSpace()
      ensures SpaceOf(lines.mem, d) == MarkedTo(SpaceOf(lines.mem, d), 1024) && SpaceOf(lines.mem, nd) == CopiedTo(SpaceOf(lines.mem, d), 1024)
    {
      ForkStart(lines.mem, d, nd);
      ForkSkip(lines.mem, own, d, nd, 0, SpaceOf(lines.mem, d));
    }

    lemma ParentTable(mem: Memory, d: Frame, sp: Space, i: nat)
      requires d < USR_FIRST && 1 <= i < 1024 && |sp.pte| == NPAGES && |sp.pde| == 1024
      requires SpaceOf(mem, d) == MarkedTo(sp, 1024 * i)
      ensures sp.pde[i] == Table <==> mem[d][i].p
      ensures TablesBelow(sp, i + 1) == TablesBelow(sp, i) + if mem[d][i].p then 1 else 0
    {
      assert SpaceOf(mem, d).pde[i] == PdeAt(mem, d, i);
    }

    lemma NotForkedYet(mem: Memory, nd: Frame, sp: Space, i: nat)
      requires nd < USR_FIRST && 1 <= i < 1024 && |sp.pte| == NPAGES && |sp.pde| == 1024
      requires SpaceOf(mem, nd) == CopiedTo(sp, 1024 * i)
      ensures !mem[nd][i].p
    {
      assert SpaceOf(mem, nd).pde[i] == PdeAt(mem, nd, i);
    }

    lemma ForkFrames(before: Memory, prior: Owners, d: Frame, i: nat, n: Frame)
      requires WellFormed(before, prior) && IsDir(prior, d) && 1 <= i < 1024 && before[d][i].p && n !in prior
      ensures before[d][i].base < USR_FIRST && before[d][i].base != n
    {
      assert GoodDir(before, prior, d);
      assert GoodEntryOf(prior, d, i, before[d][i]);
    }

    // What one forked directory entry does.
    lemma TableForked(before: Memory, prior: Owners, d: Frame, nd: Frame, i: nat, n: Frame, sp: Space)
      requires lines.Ok() && ValidFor(before, prior) && |sp.pte| == NPAGES && |sp.pde| == 1024
      requires IsDir(prior, d) && IsDir(prior, nd) && d != nd && 1 <= i < 1024 && before[d][i].p && !before[nd][i].p
      requires IsUser(prior, nd) ==> IsUser(prior, d)
      requires n !in prior && KRN_FIRST <= n < USR_FIRST && n in kernelMap.Frames() && before[n] == ZeroLine()
      requires SpaceOf(before, d) == MarkedTo(sp, 1024 * i) && SpaceOf(before, nd) == CopiedTo(sp, 1024 * i)
      requires before[d][i].base < USR_FIRST && lines.mem == ForkedAt(before, d, nd, i, n) && own == prior[n := TableOf(nd, i)]
      ensures Valid() && Extends(prior, own) && lines.mem[d] == before[d]
      ensures forall c: nat :: IsDir(own, c) <==> IsDir(prior, c)
      ensures SpaceOf(lines.mem, d) == MarkedTo(sp, 1024 * (i + 1)) && SpaceOf(lines.mem, nd) == CopiedTo(sp, 1024 * (i + 1))
      ensures forall c: nat | IsDir(prior, c) && c != d && c != nd :: SpaceOf(lines.mem, c) == SpaceOf(before, c)
    {
      ForkStep(before, prior, d, nd, i, n, sp);
      ForkKeepsTables(before, prior, d, nd, i, n);
      hide WellFormed, SpaceOf, MarkedTo, CopiedTo, ForkedAt;
    }

    // mm.c:285-289.
    method ForkInto(d: Frame, nd: Frame, i: nat, n: Frame)
      requires lines.Ok() && d < USR_FIRST && nd < USR_FIRST && d != nd && n < USR_FIRST && i < 1024
      requires lines.mem[d][i].base < USR_FIRST && lines.mem[d][i].base != n
      modifies lines
      ensures lines.Ok() && lines.mem == ForkedAt(old(lines.mem), d, nd, i, n)
    {
      lines.CopyOnto(d, nd, i, n);
      var desc := lines.Get(d, i);
      PageFork(desc.base, n);
    }

    // The body of the loop of mm_dir_fork.
    method ForkEntry(d: Frame, nd: Frame, i: nat, ghost sp: Space) returns (ok: bool)
      requires Valid() && IsDir(own, d) && IsDir(own, nd) && d != nd && 1 <= i < 1024
      requires IsUser(own, nd) ==> IsUser(own, d)
      requires |sp.pte| == NPAGES && |sp.pde| == 1024
      requires SpaceOf(lines.mem, d) == MarkedTo(sp, 1024 * i) && SpaceOf(lines.mem, nd) == CopiedTo(sp, 1024 * i)
      modifies lines, `own, kernelMap.words
      ensures Extends(old(own), own)
      ensures ok ==> Valid() && SpaceOf(lines.mem, d) == MarkedTo(sp, 1024 * (i + 1)) && SpaceOf(lines.mem, nd) == CopiedTo(sp, 1024 * (i + 1))
      ensures forall c: nat :: IsDir(own, c) <==> old(IsDir(own, c))
      ensures forall c: nat | old(IsDir(own, c)) && c != d && c != nd :: SpaceOf(lines.mem, c) == old(SpaceOf(lines.mem, c))
      ensures !ok ==> OutOfMemory()
      ensures Took(old(KernelLeft()), KernelLeft(), TablesBelow(sp, i + 1) - TablesBelow(sp, i), ok)
    {
      hide Available;
      ParentTable(lines.mem, d, sp, i);
      hide SpaceOf, MarkedTo, CopiedTo, WellFormed, TablesBelow, OutOfMemory;
      var e := lines.Get(d, i);
      ok := true;
      if e.p {
        ok := TableFork(d, nd, i, sp);
      } else {
        ForkSkip(lines.mem, own, d, nd, i, sp);
      }
    }

    lemma DirsBelow()
      requires Valid()
      ensures forall c: nat | IsDir(own, c) :: c < USR_FIRST
    {}

    // The loop of mm_dir_fork (mm.c:274-294).
    method ForkEntries(d: Frame, nd: Frame, ghost sp: Space) returns (ok: bool)
      requires Valid() && IsUser(own, d) && IsUser(own, nd) && d != nd && |sp.pte| == NPAGES && |sp.pde| == 1024
      requires SpaceOf(lines.mem, d) == MarkedTo(sp, 1024) && SpaceOf(lines.mem, nd) == CopiedTo(sp, 1024)
      modifies lines, `own, kernelMap.words
      ensures Extends(old(own), own)
      ensures ok ==> Valid() && SpaceOf(lines.mem, d) == MarkedTo(sp, NPAGES) && SpaceOf(lines.mem, nd) == CopiedTo(sp, NPAGES)
      ensures forall c: nat :: IsDir(own, c) <==> old(IsDir(own, c))
      ensures forall c: nat | old(IsDir(own, c)) && c != d && c != nd :: SpaceOf(lines.mem, c) == old(SpaceOf(lines.mem, c))
      ensures !ok ==> OutOfMemory()
      ensures Took(old(KernelLeft()), KernelLeft(), TablesBelow(sp, 1024), ok)
    {
      hide Available, ValidTables, SpaceOf, MarkedTo, CopiedTo, OutOfMemory, TablesBelow;
      NoTables(sp);
      DirsBelow();
      assert IsDir(own, d) && IsDir(own, nd);
      var i := 1;
      while i < 1024
        invariant 1 <= i <= 1024 && Valid() && Extends(old(own), own)
        invariant d < USR_FIRST && nd < USR_FIRST && forall c: nat | IsDir(own, c) :: c < USR_FIRST
        invariant SpaceOf(lines.mem, d) == MarkedTo(sp, 1024 * i) && SpaceOf(lines.mem, nd) == CopiedTo(sp, 1024 * i)
        invariant forall c: nat :: IsDir(own, c) <==> old(IsDir(own, c))
        invariant forall c: nat | old(IsDir(own, c)) && c != d && c != nd :: SpaceOf(lines.mem, c) == old(SpaceOf(lines.mem, c))
        invariant KernelLeft() + TablesBelow(sp, i) == old(KernelLeft())
      {
        MoreTables(sp, i + 1, 1024);
        ok := ForkEntry(d, nd, i, sp);
        if !ok { return; }
        i := i + 1;
      }
      ok := true;
    }

    // mm_dir_fork (mm.c:263-296).
    method DirFork(d: Frame) returns (ok: bool, nd: Frame)
      requires Valid() && IsUser(own, d)
      modifies lines, `own, kernelMap.words
      ensures ok ==> Valid() && IsUser(own, nd) && 0 < nd < USR_FIRST && nd !in old(own) && Extends(old(own), own)
      ensures ok ==> SpaceOf(lines.mem, d) == MarkedTo(old(SpaceOf(lines.mem, d)), NPAGES)
      ensures ok ==> SpaceOf(lines.mem, nd) == CopiedTo(old(SpaceOf(lines.mem, d)), NPAGES)
      ensures ok ==> forall c: nat :: IsDir(own, c) <==> old(IsDir(own, c)) || c == nd
      ensures ok ==> forall c: nat | old(IsDir(own, c)) && c != d :: SpaceOf(lines.mem, c) == old(SpaceOf(lines.mem, c))
      ensures !ok ==> OutOfMemory()
      ensures CopiesPaid(old(SpaceOf(lines.mem, d)), old(KernelLeft()), KernelLeft(), ok)
    {
      hide Available;
      ghost var sp := SpaceOf(lines.mem, d);
      hide WellFormed, SpaceOf, MarkedTo, CopiedTo, TablesBelow;
      hide CopiesPaid, Took;
      ghost var had := KernelLeft();
      ok, nd := DirNew(true);
      if !ok {
        NoDirectory(sp, had, KernelLeft());
        return;
      }
      ForkBegun(d, nd);
      ghost var mid := KernelLeft();
      ok := ForkEntries(d, nd, sp);
      CopiesMade(sp, had, mid, KernelLeft(), ok);
    }

    // The two stacks of a new process (loader.c:58-59 and 211-212).
    method MapStacks(nd: Frame, f3: Frame, f0: Frame) returns (ok: bool)
      requires Valid() && IsDir(own, nd) && f3 < 0x10_0000 && f0 < 0x10_0000
      modifies lines, `own, kernelMap.words
      ensures Valid() && Extends(old(own), own) && forall c: nat :: IsDir(own, c) <==> old(IsDir(own, c))
      ensures ok ==> SpaceOf(lines.mem, nd) == SetEntry(SetEntry(old(SpaceOf(lines.mem, nd)), STACK_3, UserEntry(f3)), STACK_0, SystemEntry(f0))
      ensures forall c: nat | IsDir(own, c) && c != nd :: SpaceOf(lines.mem, c) == old(SpaceOf(lines.mem, c))
      ensures !ok ==> OutOfMemory()
      ensures (ok ==> lines.mem[nd][TOP_TABLE].p) && Took(old(KernelLeft()), KernelLeft(), if old(lines.mem[nd][TOP_TABLE]).p then 0 else 1, ok)
    {
      hide Available, SpaceOf, WellFormed, SetEntry;
      ok := PageMap(STACK_3, nd, f3, true);
      if !ok { return; }
      ok := PageMap(STACK_0, nd, f0, false);
    }

    // A page the kernel builds in frame f through the temporary mapping of the running directory.
    method FillFrame(f: Frame, us: bool, contents: Page) returns (ok: bool)
      requires Valid() && IsDir(own, cur) && Window() && f < |ram|
      modifies lines, `own, `ram, kernelMap.words
      ensures Valid() && Window() && Extends(old(own), own) && forall c: nat :: IsDir(own, c) <==> old(IsDir(own, c))
      ensures ok ==> ram == old(ram)[f := contents]
      ensures ok ==> SpaceOf(lines.mem, cur) == SetEntry(old(SpaceOf(lines.mem, cur)), TEMP, Entry(f, true, true, us, false, false))
      ensures forall c: nat | IsDir(own, c) && c != cur :: SpaceOf(lines.mem, c) == old(SpaceOf(lines.mem, c))
      ensures !ok ==> OutOfMemory()
      ensures (ok ==> lines.mem[cur][TOP_TABLE].p) && Took(old(KernelLeft()), KernelLeft(), if old(lines.mem[cur][TOP_TABLE]).p then 0 else 1, ok)
    {
      hide Available;
      ok := PageMap(TEMP, cur, f, us);
      if !ok { return; }
      assert SpaceOf(lines.mem, cur).pte[TEMP] == PteAt(lines.mem, cur, TEMP);
      var _, e := Walk(TEMP);
      ram := ram[e.base := contents];
    }

    // loader.c:206-207: the two stacks of a new process.
    method TwoFrames() returns (ok: bool, f3: Frame, f0: Frame)
      requires Valid()
      modifies usrMap.words
      ensures Valid()
      ensures ok ==> TwoFree(old(usrMap.Frames()), |ram|, f3, f0) && usrMap.Frames() == old(usrMap.Frames()) + {f3, f0}
      ensures !ok ==> OutOfMemory()
      ensures Took(old(UserLeft()), UserLeft(), 2, ok)
    {
      hide Available;
      f0 := 0;
      ok, f3 := MemAlloc();
      if !ok { return; }
      ok, f0 := MemAlloc();
    }

    // The child's directory (loader.c:198-212).
    method BuildChild(ghost sp: Space, ghost had: Frames) returns (ok: bool, nd: Frame, f3: Frame, f0: Frame)
      requires Valid() && cur < USR_FIRST && IsUser(own, cur) && SpaceOf(lines.mem, cur) == sp && sp.pde[TOP_TABLE] == Table && had == Unused()
      modifies lines, `own, kernelMap.words, usrMap.words
      ensures ok ==> Valid() && IsUser(own, nd) && 0 < nd < USR_FIRST && nd !in old(own) && Extends(old(own), own)
      ensures ok ==> TwoFree(old(usrMap.Frames()), |ram|, f3, f0) && usrMap.Frames() == old(usrMap.Frames()) + {f3, f0}
      ensures ok ==> SpaceOf(lines.mem, cur) == MarkedTo(sp, NPAGES) && SpaceOf(lines.mem, nd) == ForkChild(sp, f3, f0)
      ensures ok ==> SameSpaces(old(lines.mem), lines.mem, old(own), own, cur)
      ensures !ok ==> OutOfMemory()
      ensures ChildPaid(sp, had, Unused(), ok)
    {
      hide Available, WellFormed, SpaceOf, MarkedTo, CopiedTo, SetEntry, ForkChild, CopiesPaid, ChildPaid;
      f3, f0 := 0, 0;
      ok, nd := DirFork(cur);
      if !ok {
        NoCopies(sp, had, Unused());
        return;
      }
      ghost var mid := Unused();
      ok, f3, f0 := TwoFrames();
      ChildMade(sp, had, mid, Unused(), ok);
      if !ok { return; }
      ChildTop(nd, sp);
      BelowTop();
      assert f3 < |ram| && f0 < |ram|;
      hide TwoFree, OutOfMemory;
      ok := MapStacks(nd, f3, f0);
      ForkSpaces(sp, f3, f0);
    }

    // The child has a table for its stacks.
    lemma ChildTop(nd: Frame, sp: Space)
      requires nd < USR_FIRST && |sp.pte| == NPAGES && |sp.pde| == 1024 && sp.pde[TOP_TABLE] == Table
      requires SpaceOf(lines.mem, nd) == CopiedTo(sp, NPAGES)
      ensures lines.mem[nd][TOP_TABLE].p
    {
      assert SpaceOf(lines.mem, nd).pde[TOP_TABLE] == PdeAt(lines.mem, nd, TOP_TABLE);
    }

    // The child's stacks filled through the temporary mapping (loader.c:215-236).
    method FillStacks(f3: Frame, f0: Frame, k0: Page, ghost sp: Space) returns (ok: bool)
      requires Valid() && IsDir(own, cur) && Window() && f3 < |ram| && f0 < |ram| && f3 != f0
      requires |sp.pte| == NPAGES && |sp.pde| == 1024 && SpaceOf(lines.mem, cur) == MarkedTo(sp, NPAGES)
      requires sp.pte[STACK_3].base < |ram| && sp.pte[STACK_3].base != f3 && sp.pte[STACK_3].base != f0
      modifies lines, `own, `ram, kernelMap.words
      ensures ok ==> Extends(old(own), own)
      ensures ok ==> Valid() && SpaceOf(lines.mem, cur) == ForkParent(sp, f3)
      ensures ok ==> ram == old(ram)[f0 := k0][f3 := old(ram)[sp.pte[STACK_3].base]]
      ensures ok ==> forall c: nat | old(IsDir(own, c)) :: IsDir(own, c) && (c != cur ==> SpaceOf(lines.mem, c) == old(SpaceOf(lines.mem, c)))
      ensures !ok ==> OutOfMemory()
      ensures Took(old(KernelLeft()), KernelLeft(), if old(lines.mem[cur][TOP_TABLE]).p then 0 else 1, ok)
    {
      hide Available;
      ok := FillFrame(f0, false, k0);
      if !ok { return; }
      assert SpaceOf(lines.mem, cur).pte[STACK_3] == PteAt(lines.mem, cur, STACK_3);
      ok := CopySource(STACK_3, f3, k0);
      if !ok { return; }
      SetEntryTwice(MarkedTo(sp, NPAGES), TEMP, SystemEntry(f0), TempLeft(f3, false));
      ForkSpaces(sp, f3, f0);
      UnmapAgain(f3);
    }

    // The registered directories are directories, and only the running process has that in CR3.
    lemma OthersDirs(p: Pid)
      requires Valid() && Running(p)
      ensures InRange(cr3) && IsDir(own, cur) && Window() && (IsUser(own, cur) <==> p != 0) && Shape(Abs())
      ensures kernelMap.words != usrMap.words
      ensures Spaces() == SpacesOf(lines.mem, cr3) && p in Spaces() && Spaces()[p] == SpaceOf(lines.mem, cur)
      ensures forall q: nat | q < |cr3| && cr3[q] != 0 :: IsDir(own, cr3[q]) && (q != p ==> cr3[q] != cur)
    {}

    // A table at the top of a new space.
    lemma TopTable(nd: Frame)
      requires Valid() && IsUser(own, nd) && nd < USR_FIRST && SpaceOf(lines.mem, nd).pde[TOP_TABLE] == Table
      ensures lines.mem[nd][TOP_TABLE].p
    {
      assert SpaceOf(lines.mem, nd).pde[TOP_TABLE] == PdeAt(lines.mem, nd, TOP_TABLE);
    }

    // The paging half of sys_fork (loader.c:192-242): c is the pid of the child, k0 the ring 0
    // stack the kernel builds for it.
    method SysFork(ghost p: Pid, c: Pid, k0: Page) returns (ok: bool, f3: Frame, f0: Frame)
      requires Valid() && Running(p) && p != 0 && 0 < c < |cr3| && cr3[c] == 0
      requires PteAt(lines.mem, cur, STACK_3).base in usrMap.Frames()
      modifies lines, `own, `ram, `cr3, kernelMap.words, usrMap.words
      ensures ok ==> Valid() && ForkedAs(old(Abs()), Abs(), p, c, f3, f0, k0)
      ensures |cr3| == |old(cr3)|
      ensures !ok ==> OutOfMemory()
      ensures ForkPaid(old(Abs()), p, old(Unused()), Unused(), ok)
    {
      hide Available;
      ghost var before, s := lines.mem, Abs();
      var nd;
      OthersDirs(p);
      hide Valid, VirtualMemory.Fork, SpaceOf, SpacesOf, ForkParent, ForkChild, ForkedAs, IsUser;
      ghost var sp := s.sp[p];
      assert SpaceAt(s, p, sp);
      ghost var had := Unused();
      hide ForkPaid, ChildPaid;
      ok, nd, f3, f0 := FilledChild(p, k0, sp, had);
      ChildIsFork(s, p, sp, had, Unused(), ok);
      if !ok { return; }
      assert StackAt(sp, |s.ram|) && TwoFree(s.used, |s.ram|, f3, f0);
      hide StackAt, TwoFree, SpaceAt, BornAs;
      Register(before, s, p, c, nd);
      ForkBuilt(s, Abs(), p, c, f3, f0, k0, sp);
    }

    // The parent has a table for its stacks, and a stack to be copied.
    lemma ParentReady(p: Pid)
      requires Valid() && Running(p) && p != 0 && PteAt(lines.mem, cur, STACK_3).base in usrMap.Frames()
      ensures cur < USR_FIRST && IsUser(own, cur) && lines.mem[cur][TOP_TABLE].p && kernelMap.words != usrMap.words
      ensures var sp := SpaceOf(lines.mem, cur);
        sp.pde[TOP_TABLE] == Table && sp.pte[STACK_3].base < |ram| && sp.pte[STACK_3].base in usrMap.Frames()
    {
      usrMap.InFrames(PteAt(lines.mem, cur, STACK_3).base);
      assert SpaceOf(lines.mem, cur).pte[STACK_3] == PteAt(lines.mem, cur, STACK_3);
      assert SpaceOf(lines.mem, cur).pde[TOP_TABLE] == PdeAt(lines.mem, cur, TOP_TABLE);
    }

    // The child's directory and the contents of its stacks.
    method FilledChild(ghost p: Pid, k0: Page, ghost sp: Space, ghost had: Frames) returns (ok: bool, nd: Frame, f3: Frame, f0: Frame)
      requires Valid() && cur < USR_FIRST && Running(p) && p != 0 && SpaceOf(lines.mem, cur) == sp && had == Unused()
      requires PteAt(lines.mem, cur, STACK_3).base in usrMap.Frames()
      modifies lines, `own, `ram, kernelMap.words, usrMap.words
      ensures ok ==> Valid() && IsUser(own, nd) && 0 < nd < USR_FIRST && nd !in old(own)
      ensures ok ==> TwoFree(old(usrMap.Frames()), |ram|, f3, f0) && usrMap.Frames() == old(usrMap.Frames()) + {f3, f0}
      ensures ok ==> SpaceOf(lines.mem, cur) == ForkParent(sp, f3) && SpaceOf(lines.mem, nd) == ForkChild(sp, f3, f0)
      ensures ok ==> StacksIn(old(ram), ram, sp, f3, f0, k0)
      ensures ok ==> SameSpaces(old(lines.mem), lines.mem, old(own), own, cur)
      ensures !ok ==> OutOfMemory()
      ensures ChildPaid(sp, had, Unused(), ok)
    {
      hide Available;
      ParentReady(p);
      hide Valid, SpaceOf, SpacesOf, ForkParent, ForkChild, MarkedTo, CopiedTo, OutOfMemory, Extends, Running, ChildPaid;
      ok, nd, f3, f0 := BuildChild(sp, had);
      if !ok { return; }
      WindowOpen(p);
      ok := FillStacks(f3, f0, k0, sp);
    }

    // task_table[c].cr3 = nd (loader.c:100 and 241).
    method Register(ghost before: Memory, ghost s: Vm, ghost p: Pid, c: Pid, nd: Frame)
      requires Valid() && Running(p) && c < |cr3| && cr3[c] == 0 && c != 0
      requires IsUser(own, nd) && nd < USR_FIRST && SpaceOf(lines.mem, nd).pde[TOP_TABLE] == Table
      requires forall q | 0 <= q < |cr3| :: cr3[q] != nd
      requires forall q: nat | Live(q) && q != p :: SpaceOf(lines.mem, cr3[q]) == SpaceOf(before, cr3[q])
      requires InRange(cr3) && s.sp == SpacesOf(before, cr3) && s.low == low && s.status == status
      modifies `cr3
      ensures Valid() && |cr3| == |old(cr3)|
      ensures BornAs(s, Abs(), p, c, SpaceOf(lines.mem, cur), SpaceOf(lines.mem, nd))
    {
      TopTable(nd);
      SpacesAdd(before, lines.mem, cr3, p, c, nd);
      cr3 := cr3[c := nd];
    }

    // The second mm_page_free of KERNEL_TEMP_PAGE (loader.c:235) finds it unmapped.
    method UnmapAgain(ghost f: Frame)
      requires Valid() && IsDir(own, cur) && SpaceOf(lines.mem, cur).pte[TEMP] == TempLeft(f, false)
      requires SpaceOf(lines.mem, cur).pde[TOP_TABLE] == Table
      modifies lines
      ensures Valid() && forall c: nat | IsDir(own, c) :: SpaceOf(lines.mem, c) == old(SpaceOf(lines.mem, c))
    {
      assert SpaceOf(lines.mem, cur).pde[TOP_TABLE] == PdeAt(lines.mem, cur, TOP_TABLE);
      ghost var sp := SpaceOf(lines.mem, cur);
      var g := PageFree(TEMP, cur);
      assert sp.pte[TEMP := sp.pte[TEMP].(p := false)] == sp.pte;
    }

    // The code page (loader.c:53) and the two stacks.
    method ThreeFrames() returns (ok: bool, fc: Frame, f3: Frame, f0: Frame)
      requires Valid()
      modifies usrMap.words
      ensures Valid()
      ensures ok ==> USR_FIRST <= fc < |ram| && USR_FIRST <= f3 < |ram| && USR_FIRST <= f0 < |ram| && fc != f3 && fc != f0 && f3 != f0
      ensures ok ==> fc !in old(usrMap.Frames()) && f3 !in old(usrMap.Frames()) && f0 !in old(usrMap.Frames())
      ensures ok ==> usrMap.Frames() == old(usrMap.Frames()) + {fc, f3, f0}
      ensures !ok ==> OutOfMemory()
      ensures Took(old(UserLeft()), UserLeft(), 3, ok)
    {
      hide Available;
      f3, f0 := 0, 0;
      ok, fc := MemAlloc();
      if !ok { return; }
      ok, f3, f0 := TwoFrames();
    }

    // The new directory of loader_load (loader.c:44-59 and 78).
    method BuildLoaded(v: nat, ghost had: Frames) returns (ok: bool, nd: Frame, fc: Frame, f3: Frame, f0: Frame)
      requires Valid() && IsDir(own, cur) && UserPage(v) && had == Unused()
      modifies lines, `own, kernelMap.words, usrMap.words
      ensures ok ==> Valid() && IsUser(own, nd) && 0 < nd < USR_FIRST && nd !in old(own) && Extends(old(own), own)
      ensures ok ==> USR_FIRST <= fc < |ram| && USR_FIRST <= f3 < |ram| && USR_FIRST <= f0 < |ram| && fc != f3 && fc != f0 && f3 != f0
      ensures ok ==> fc !in old(usrMap.Frames()) && f3 !in old(usrMap.Frames()) && f0 !in old(usrMap.Frames())
      ensures ok ==> usrMap.Frames() == old(usrMap.Frames()) + {fc, f3, f0}
      ensures ok ==> SpaceOf(lines.mem, nd) == SpawnSpace(v, fc, f3, f0)
      ensures ok ==> forall c: nat | old(IsDir(own, c)) :: IsDir(own, c) && SpaceOf(lines.mem, c) == old(SpaceOf(lines.mem, c))
      ensures !ok ==> OutOfMemory()
      ensures ProgramPaid(v, had, Unused(), ok)
    {
      hide Available, WellFormed, SpaceOf, SetEntry;
      fc, f3, f0 := 0, 0, 0;
      hide ProgramPaid;
      ok, nd := DirNew(true);
      if !ok {
        NoProgramFrames(v, had, Unused());
        return;
      }
      ok, fc, f3, f0 := ThreeFrames();
      if !ok {
        NoProgramFrames(v, had, Unused());
        return;
      }
      ghost var mid := Unused();
      ok := MapLoaded(nd, v, fc, f3, f0);
      ProgramMade(v, had, mid, Unused(), ok);
    }

    // The mappings of a new program (loader.c:58-59 and 78).
    method MapLoaded(nd: Frame, v: nat, fc: Frame, f3: Frame, f0: Frame) returns (ok: bool)
      requires Valid() && IsUser(own, nd) && UserPage(v) && SpaceOf(lines.mem, nd) == NoSpace()
      requires fc < 0x10_0000 && f3 < 0x10_0000 && f0 < 0x10_0000
      modifies lines, `own, kernelMap.words
      ensures Valid() && Extends(old(own), own) && forall c: nat :: IsDir(own, c) <==> old(IsDir(own, c))
      ensures ok ==> SpaceOf(lines.mem, nd) == SpawnSpace(v, fc, f3, f0)
      ensures forall c: nat | IsDir(own, c) && c != nd :: SpaceOf(lines.mem, c) == old(SpaceOf(lines.mem, c))
      ensures !ok ==> OutOfMemory()
      ensures Took(old(KernelLeft()), KernelLeft(), 1 + (if v / 1024 == TOP_TABLE then 0 else 1), ok)
    {
      hide Available;
      TableIs(nd, TOP_TABLE);
      hide WellFormed, SpaceOf;
      ok := MapStacks(nd, f3, f0);
      if !ok { return; }
      TableIs(nd, v / 1024);
      hide SetEntry, NoSpace;
      ok := PageMap(v, nd, fc, true);
    }

    lemma TableIs(d: Frame, i: nat)
      requires d < USR_FIRST && 1 <= i < 1024
      ensures lines.mem[d][i].p <==> SpaceOf(lines.mem, d).pde[i] == Table
    {
      assert SpaceOf(lines.mem, d).pde[i] == PdeAt(lines.mem, d, i);
    }

    // The kernel fills the ring 0 stack and the code page (loader.c:62-95, 103).
    method FillLoaded(fc: Frame, f0: Frame, code: Page, k0: Page, ghost sp: Space) returns (ok: bool)
      requires Valid() && IsDir(own, cur) && Window() && fc < |ram| && f0 < |ram| && SpaceOf(lines.mem, cur) == sp
      requires |sp.pte| == NPAGES && |sp.pde| == 1024
      modifies lines, `own, `ram, kernelMap.words
      ensures ok ==> Extends(old(own), own)
      ensures ok ==> Valid() && SpaceOf(lines.mem, cur) == SetEntry(sp, TEMP, TempLeft(fc, true))
      ensures ok ==> ram == old(ram)[f0 := k0][fc := code]
      ensures ok ==> forall c: nat | old(IsDir(own, c)) :: IsDir(own, c) && (c != cur ==> SpaceOf(lines.mem, c) == old(SpaceOf(lines.mem, c)))
      ensures !ok ==> OutOfMemory()
      ensures Took(old(KernelLeft()), KernelLeft(), if old(lines.mem[cur][TOP_TABLE]).p then 0 else 1, ok)
    {
      hide Available;
      ok := FillFrame(f0, false, k0);
      if !ok { return; }
      ok := FillFrame(fc, true, code);
      if !ok { return; }
      SetEntryTwice(sp, TEMP, SystemEntry(f0), Entry(fc, true, true, true, false, false));
      UnmapTemp(sp, fc, true);
    }

    // The paging half of loader_load (loader.c:37-104), called from process p: `code` is the
    // code page as the copy of the program leaves it.
    method LoaderLoad(ghost p: Pid, c: Pid, v: nat, code: Page, k0: Page) returns (ok: bool, fc: Frame, f3: Frame, f0: Frame)
      requires Valid() && Running(p) && 0 < c < |cr3| && cr3[c] == 0 && UserPage(v) && v != STACK_0 && v != STACK_3
      modifies lines, `own, `ram, `cr3, kernelMap.words, usrMap.words
      ensures ok ==> Valid() && LoadedAs(old(Abs()), Abs(), p, c, v, fc, f3, f0, code, k0)
      ensures |cr3| == |old(cr3)|
      ensures !ok ==> OutOfMemory()
      ensures LoadPaid(old(Abs()), p, v, old(Unused()), Unused(), ok)
    {
      hide Available;
      ghost var before, s := lines.mem, Abs();
      var nd;
      OthersDirs(p);
      hide Valid, VirtualMemory.Spawn, SpaceOf, SpacesOf, SpawnSpace, SetEntry, LoadedAs, IsUser;
      ghost var sp := s.sp[p];
      assert SpaceAt(s, p, sp);
      ghost var had := Unused();
      hide LoadPaid;
      ok, nd, fc, f3, f0 := FilledProgram(p, v, code, k0, s, had);
      if !ok { return; }
      assert TwoFree(s.used, |s.ram|, fc, f3) && TwoFree(s.used, |s.ram|, fc, f0);
      hide SpaceAt, TwoFree, BornAs;
      Register(before, s, p, c, nd);
      LoadBuilt(s, Abs(), p, c, v, fc, f3, f0, code, k0, sp);
    }

    // The new directory and the contents of the ring 0 stack and the code page.
    method FilledProgram(ghost p: Pid, v: nat, code: Page, k0: Page, ghost s: Vm, ghost had: Frames)
      returns (ok: bool, nd: Frame, fc: Frame, f3: Frame, f0: Frame)
      requires Valid() && Running(p) && UserPage(v) && v != STACK_0 && v != STACK_3
      requires cur < USR_FIRST && SpaceAt(s, p, SpaceOf(lines.mem, cur)) && had == Unused()
      modifies lines, `own, `ram, kernelMap.words, usrMap.words
      ensures ok ==> Valid() && IsUser(own, nd) && 0 < nd < USR_FIRST && nd !in old(own)
      ensures ok ==> USR_FIRST <= fc < |ram| && USR_FIRST <= f3 < |ram| && USR_FIRST <= f0 < |ram| && fc != f3 && fc != f0 && f3 != f0
      ensures ok ==> fc !in old(usrMap.Frames()) && f3 !in old(usrMap.Frames()) && f0 !in old(usrMap.Frames())
      ensures ok ==> usrMap.Frames() == old(usrMap.Frames()) + {fc, f3, f0}
      ensures ok ==> SpaceOf(lines.mem, cur) == SetEntry(s.sp[p], TEMP, TempLeft(fc, true))
      ensures ok ==> SpaceOf(lines.mem, nd) == SpawnSpace(v, fc, f3, f0)
      ensures LoadPaid(s, p, v, had, Unused(), ok)
      ensures ok ==> |ram| == |old(ram)| && ram == old(ram)[f0 := k0][fc := code]
      ensures ok ==> forall c: nat | old(IsDir(own, c)) :: IsDir(own, c) && (c != cur ==> SpaceOf(lines.mem, c) == old(SpaceOf(lines.mem, c)))
      ensures !ok ==> OutOfMemory()
    {
      hide Available;
      ghost var sp := SpaceOf(lines.mem, cur);
      OthersDirs(p);
      hide Valid, SpaceOf, SpacesOf, SpawnSpace, SetEntry, ProgramPaid, LoadPaid, OutOfMemory, Extends;
      ok, nd, fc, f3, f0 := BuildLoaded(v, had);
      if !ok {
        NoProgram(s, p, v, had, Unused());
        return;
      }
      WindowOpen(p);
      TableIs(cur, TOP_TABLE);
      ghost var mid := Unused();
      ok := FillLoaded(fc, f0, code, k0, sp);
      LoadMade(s, p, v, had, mid, Unused(), ok);
    }

    // ------------------------------------------------------------ exit

    // What mm_table_free and mm_dir_free need: the memory is that of a registered directory
    // at the start, mem0, but for present bits already cleared.
    ghost predicate Dismantling(mem0: Memory, d: Frame)
      reads this, lines
    {
      && lines.Ok() && Bitmaps() && Layout(mem0, own, cr3, d, |ram|) && SameBases(lines.mem, mem0)
    }

    // The bitmaps cover the frames of the memory.
    ghost predicate Bitmaps()
      reads this, lines
    {
      && kernelMap.words != usrMap.words && kernelMap.words.Length == KRN_WORDS
      && kernelMap.first == KRN_FIRST && usrMap.first == USR_FIRST
      && |ram| == USR_FIRST + 32 * usrMap.words.Length && |ram| <= TOP_FRAME
    }

    // mm_table_free (mm.c:99-114) on the table of directory entry i of d. `users` are the user
    // frames in use before the directory is freed and plan what each of its pages releases.
    method TableFree(t: Frame, i: nat, ghost mem0: Memory, ghost d: Frame, ghost lo: nat, ghost users: set<Frame>, ghost plan: seq<set<Frame>>)
      requires lo == 1024 * i && lines.Ok() && Bitmaps() && SameBases(lines.mem, mem0) && 1 <= i < 1024 && BasesAt(mem0, cr3, i)
      requires d < USR_FIRST && mem0[d][i].p && t == mem0[d][i].base && t < USR_FIRST && lines.mem[t] == mem0[t]
      requires forall j | 0 <= j < 1024 && mem0[t][j].p :: USR_FIRST <= mem0[t][j].base < |ram|
      requires |plan| == NPAGES && usrMap.Frames() == Left(users, plan, lo)
      requires forall v | 0 <= v < NPAGES :: plan[v] == Gone(mem0, cr3, d, v)
      modifies lines, kernelMap.words, usrMap.words
      ensures lines.Ok() && SameBases(lines.mem, mem0) && lines.mem == old(lines.mem)[t := lines.mem[t]]
      ensures kernelMap.Frames() == old(kernelMap.Frames())
      ensures usrMap.Frames() == Left(users, plan, lo + 1024)
    {
      hide Left, Gone, SameBases, BasesAt;
      var j := 0;
      ghost var v := lo;
      while j < 1024
        invariant 0 <= j <= 1024 && lines.Ok() && SameBases(lines.mem, mem0) && lines.mem == old(lines.mem)[t := lines.mem[t]]
        invariant forall k | j <= k < 1024 :: lines.mem[t][k] == mem0[t][k]
        invariant kernelMap.Frames() == old(kernelMap.Frames())
        invariant v == lo + j && usrMap.Frames() == Left(users, plan, v)
      {
        ghost var now := lines.mem;
        GoneAt(mem0, cr3, d, i, j, v);
        LeftStep(users, plan, v);
        EntryFree(t, i, j, mem0, d, plan[v]);
        RewriteTwice(old(lines.mem), now, lines.mem, t);
        j, v := j + 1, v + 1;
      }
    }

    // The body of that loop (mm.c:102-111): a frame that someone else maps is kept.
    method EntryFree(t: Frame, i: nat, j: nat, ghost mem0: Memory, ghost d: Frame, ghost gone: set<Frame>)
      requires lines.Ok() && Bitmaps() && SameBases(lines.mem, mem0) && 1 <= i < 1024 && BasesAt(mem0, cr3, i)
      requires d < USR_FIRST && mem0[d][i].p && t == mem0[d][i].base && t < USR_FIRST
      requires j < 1024 && lines.mem[t][j] == mem0[t][j]
      requires lines.mem[t][j].p ==> USR_FIRST <= lines.mem[t][j].base < |ram|
      requires var e := mem0[t][j];
        gone == if e.p && !((e.sh || e.cow) && |RawCounted(mem0, cr3, e.base, i, j, |cr3|)| > 1) then {e.base} else {}
      modifies lines, kernelMap.words, usrMap.words
      ensures lines.Ok() && SameBases(lines.mem, mem0) && lines.mem == old(lines.mem)[t := lines.mem[t]] && lines.mem[t] == old(lines.mem)[t][j := lines.mem[t][j]]
      ensures kernelMap.Frames() == old(kernelMap.Frames()) && usrMap.Frames() == old(usrMap.Frames()) - gone
    {
      var e := lines.Get(t, j);
      assert lines.mem[t][j := e] == lines.mem[t] && lines.mem[t := lines.mem[t]] == lines.mem;
      if !e.p { return; }
      if e.sh || e.cow {
        SameCounted(lines.mem, mem0, cr3, e.base, i, j, |cr3|);
        var times := TimesMapped(e.base, i, j);
        if times > 1 { return; }
      }
      MemFree(e.base);
      lines.Absent(t, j);
    }

    // mm_dir_free (mm.c:78-97) on a directory registered in the task table. The semaphore
    // around it is never contended: system calls run with interrupts off.
    method DirFree(d: Frame, ghost mem0: Memory)
      requires Dismantling(mem0, d) && lines.mem == mem0
      modifies lines, kernelMap.words, usrMap.words
      ensures lines.Ok() && SameBases(lines.mem, mem0) && Untouched(lines.mem, mem0, own, d, 1024)
      ensures kernelMap.Frames() == Left(old(kernelMap.Frames()), TablePlan(mem0, d), 1024) - {d}
      ensures usrMap.Frames() == Left(old(usrMap.Frames()), Plan(mem0, cr3, d), NPAGES)
    {
      TablesFree(d, mem0, usrMap.Frames(), Plan(mem0, cr3, d), kernelMap.Frames(), TablePlan(mem0, d));
      lines.Absent(d, 0);
      MemFree(d);
    }

    // Its loop over the directory (mm.c:83-90).
    method TablesFree(d: Frame, ghost mem0: Memory, ghost users: set<Frame>, ghost plan: seq<set<Frame>>,
                      ghost frames: set<Frame>, ghost tables: seq<set<Frame>>)
      requires Dismantling(mem0, d) && lines.mem == mem0
      requires users == usrMap.Frames() && plan == Plan(mem0, cr3, d)
      requires frames == kernelMap.Frames() && tables == TablePlan(mem0, d)
      modifies lines, kernelMap.words, usrMap.words
      ensures lines.Ok() && SameBases(lines.mem, mem0) && Untouched(lines.mem, mem0, own, d, 1024)
      ensures kernelMap.Frames() == Left(frames, tables, 1024) && usrMap.Frames() == Left(users, plan, NPAGES)
    {
      NoTableNothingGone(mem0, cr3, d, 0);
      NothingGone(users, plan, 0, 1024);
      NothingGone(frames, tables, 0, 1);
      assert Untouched(lines.mem, mem0, own, d, 1);
      hide Left, Gone, SameBases, Layout, Untouched;
      var i := 1;
      while i < 1024
        invariant 1 <= i <= 1024 && lines.Ok() && SameBases(lines.mem, mem0) && Untouched(lines.mem, mem0, own, d, i)
        invariant kernelMap.Frames() == Left(frames, tables, i)
        invariant usrMap.Frames() == Left(users, plan, 1024 * i)
      {
        LeftStep(frames, tables, i);
        IndexFree(d, i, mem0, users, plan, tables[i]);
        i := i + 1;
      }
    }

    // The body of that loop (mm.c:84-88).
    method IndexFree(d: Frame, i: nat, ghost mem0: Memory, ghost users: set<Frame>, ghost plan: seq<set<Frame>>, ghost table: set<Frame>)
      requires Dismantling(mem0, d) && 1 <= i < 1024 && Untouched(lines.mem, mem0, own, d, i)
      requires |plan| == NPAGES && usrMap.Frames() == Left(users, plan, 1024 * i)
      requires forall v | 0 <= v < NPAGES :: plan[v] == Gone(mem0, cr3, d, v)
      requires table == if mem0[d][i].p then {mem0[d][i].base} else {}
      modifies lines, kernelMap.words, usrMap.words
      ensures lines.Ok() && SameBases(lines.mem, mem0) && Untouched(lines.mem, mem0, own, d, i + 1)
      ensures kernelMap.Frames() == old(kernelMap.Frames()) - table
      ensures usrMap.Frames() == Left(users, plan, 1024 * (i + 1))
    {
      hide Left, Gone;
      var desc := lines.Get(d, i);
      if !desc.p {
        NoTableNothingGone(mem0, cr3, d, i);
        NothingGone(users, plan, 1024 * i, 1024 * (i + 1));
        return;
      }
      assert GoodEntryOf(own, d, i, mem0[d][i]) by { assert GoodDir(mem0, own, d); }
      var t := desc.base;
      BasesInRange(mem0, own, cr3, i);
      TableInRange(mem0, own, cr3, d, |ram|, i);
      hide BasesAt, Layout;
      ghost var lo, hi := 1024 * i, 1024 * (i + 1);
      TableFree(t, i, mem0, d, lo, users, plan);
      assert usrMap.Frames() == Left(users, plan, hi);
      lines.Absent(d, i);
      MemFree(t);
    }

    // The frames that mm_table_free releases are those of VirtualMemory.Freed.
    lemma ReleasedIsFreed(p: Pid)
      requires Valid() && Live(p)
      requires forall v: nat | v < NPAGES && PteAt(lines.mem, cr3[p], v).p :: USR_FIRST <= PteAt(lines.mem, cr3[p], v).base < |ram|
      ensures InRange(cr3) && Left(usrMap.Frames(), Plan(lines.mem, cr3, cr3[p]), NPAGES) == usrMap.Frames() - Freed(Abs(), p)
    {
      var s, d := Abs(), cr3[p];
      forall v: nat | v < NPAGES ensures s.sp[p].pte[v] == PteAt(lines.mem, d, v) && Releases(lines.mem, cr3, d, v) == Released(s, p, v) {
        assert s.sp[p].pte[v] == PteAt(lines.mem, d, v);
        if PteAt(lines.mem, d, v).p { CountIsCounted(PteAt(lines.mem, d, v).base, v); }
      }
      var plan, freed := Plan(lines.mem, cr3, d), Freed(s, p);
      var left := Left(usrMap.Frames(), plan, NPAGES);
      forall f: Frame ensures f in left <==> f in usrMap.Frames() && f !in freed {
        InLeft(usrMap.Frames(), plan, NPAGES, f);
        if f in freed {
          var v :| 0 <= v < NPAGES && Released(s, p, v) && s.sp[p].pte[v].base == f;
          assert f in plan[v];
        }
      }
    }

    // loader_switchto (loader_switch.asm:38-68): CR3 is loaded with the directory of p.
    method SwitchTo(p: Pid)
      requires Valid() && Live(p)
      modifies `cur
      ensures Valid() && Running(p) && Abs() == old(Abs())
    {
      cur := cr3[p];
    }

    // loader_switchto_exit (loader_switch.asm:74-120): the directory of p is freed once the
    // processor runs on that of `next`, and then unregistered.
    method SwitchToExit(p: Pid, next: Pid)
      requires Valid() && Live(p) && Live(next) && p != next && p != 0
      requires forall v: nat | v < NPAGES && PteAt(lines.mem, cr3[p], v).p :: PteAt(lines.mem, cr3[p], v).base in usrMap.Frames()
      modifies `cur, `cr3, `own, lines, kernelMap.words, usrMap.words
      ensures Valid() && Running(next) && cr3 == old(cr3)[p := 0]
      ensures Abs() == VirtualMemory.Exit(old(Abs()), p)
      ensures kernelMap.Frames() == old(kernelMap.Frames()) - old(TableFrames(lines.mem, cr3[p])) - {old(cr3[p])}
    {
      ghost var s := Abs();
      SwitchTo(next);
      LiveSpaces(p);
      hide Valid, Freed, TableFrames, WellFormed, SpaceOf, SpacesOf, PteAt;
      FreeSpace(p);
      assert Abs() == s.(sp := s.sp - {p}, used := s.used - Freed(s, p));
    }

    lemma LiveSpaces(p: Pid)
      requires Valid() && Live(p)
      ensures p in Abs().sp && Shape(Abs()) && Abs().sp == Spaces()
    {}

    // The directory of p, which is not in CR3, is freed and unregistered.
    method FreeSpace(p: Pid)
      requires Valid() && Live(p) && p != 0
      requires forall v: nat | v < NPAGES && PteAt(lines.mem, cr3[p], v).p :: PteAt(lines.mem, cr3[p], v).base in usrMap.Frames()
      modifies `cr3, `own, lines, kernelMap.words, usrMap.words
      ensures Valid() && cr3 == old(cr3)[p := 0]
      ensures Spaces() == old(Spaces()) - {p} && usrMap.Frames() == old(usrMap.Frames()) - old(Freed(Abs(), p))
      ensures kernelMap.Frames() == old(kernelMap.Frames()) - old(TableFrames(lines.mem, cr3[p])) - {old(cr3[p])}
    {
      ghost var mem0 := lines.mem;
      var d := cr3[p];
      PlannedExit(p);
      hide Valid, Layout, SpacesOf, Left, Freed, Untouched, TableFrames, SameBases, WellFormed, Plan, TablePlan, InRange, IsUser, SpaceOf;
      DirFree(d, mem0);
      Unregister(p, mem0);
    }

    // What freeing the directory of p is going to take from the bitmaps.
    lemma PlannedExit(p: Pid)
      requires Valid() && Live(p) && p != 0
      requires forall v: nat | v < NPAGES && PteAt(lines.mem, cr3[p], v).p :: PteAt(lines.mem, cr3[p], v).base in usrMap.Frames()
      ensures InRange(cr3) && Dismantling(lines.mem, cr3[p]) && lines.mem[0] == low
      ensures usrLimit <= usrMap.words.Length && USR_FIRST < |ram| && SameBases(lines.mem, lines.mem)
      ensures forall q | 0 <= q < |cr3| && cr3[q] != 0 :: (IsUser(own, cr3[q]) <==> q != 0) && (q > 0 ==> lines.mem[cr3[q]][TOP_TABLE].p)
      ensures forall q, r | 0 <= q < r < |cr3| && cr3[q] != 0 :: cr3[q] != cr3[r]
      ensures forall f <- own :: f in kernelMap.Frames()
      ensures Spaces() == SpacesOf(lines.mem, cr3)
      ensures Left(usrMap.Frames(), Plan(lines.mem, cr3, cr3[p]), NPAGES) == usrMap.Frames() - Freed(Abs(), p)
      ensures Left(kernelMap.Frames(), TablePlan(lines.mem, cr3[p]), 1024) == kernelMap.Frames() - TableFrames(lines.mem, cr3[p])
    {
      var d := cr3[p];
      forall v: nat | v < NPAGES && PteAt(lines.mem, d, v).p ensures USR_FIRST <= PteAt(lines.mem, d, v).base < |ram| {
        usrMap.InFrames(PteAt(lines.mem, d, v).base);
      }
      forall f <- own ensures KRN_FIRST <= f < KRN_FIRST + 32 * KRN_WORDS { kernelMap.InFrames(f); }
      ReleasedIsFreed(p);
      AllTablesLeft(kernelMap.Frames(), lines.mem, d);
    }

    // task_table[p].cr3 = 0 (loader_switch.asm:110-113).
    method Unregister(p: Pid, ghost mem0: Memory)
      requires Live(p) && Dismantling(mem0, cr3[p]) && usrLimit <= usrMap.words.Length && USR_FIRST < |ram|
      requires mem0[0] == low && InRange(cr3)
      requires forall q | 0 <= q < |cr3| && cr3[q] != 0 :: (IsUser(own, cr3[q]) <==> q != 0) && (q > 0 ==> mem0[cr3[q]][TOP_TABLE].p)
      requires forall q, r | 0 <= q < r < |cr3| && cr3[q] != 0 :: cr3[q] != cr3[r]
      requires forall f <- own :: f in kernelMap.Frames() + TableFrames(mem0, cr3[p]) + {cr3[p]}
      requires Untouched(lines.mem, mem0, own, cr3[p], 1024)
      modifies `cr3, `own
      ensures Valid() && cr3 == old(cr3)[p := 0] && InRange(old(cr3))
      ensures Spaces() == SpacesOf(mem0, old(cr3)) - {p}
    {
      hide WellFormed, SpacesOf, Dismantling, Untouched, TableFrames, Without, SpaceOf;
      Dismantled(p, mem0);
      own := Without(own, cr3[p]);
      cr3 := cr3[p := 0];
    }

    // What is left is in order.
    lemma Dismantled(p: Pid, mem0: Memory)
      requires Live(p) && Dismantling(mem0, cr3[p]) && usrLimit <= usrMap.words.Length && USR_FIRST < |ram|
      requires mem0[0] == low && InRange(cr3)
      requires forall q | 0 <= q < |cr3| && cr3[q] != 0 :: (IsUser(own, cr3[q]) <==> q != 0) && (q > 0 ==> mem0[cr3[q]][TOP_TABLE].p)
      requires forall q, r | 0 <= q < r < |cr3| && cr3[q] != 0 :: cr3[q] != cr3[r]
      requires forall f <- own :: f in kernelMap.Frames() + TableFrames(mem0, cr3[p]) + {cr3[p]}
      requires Untouched(lines.mem, mem0, own, cr3[p], 1024)
      ensures lines.Ok() && WellFormed(lines.mem, Without(own, cr3[p])) && lines.mem[0] == low && Bitmaps()
      ensures InRange(cr3[p := 0]) && SpacesOf(lines.mem, cr3[p := 0]) == SpacesOf(mem0, cr3) - {p}
      ensures forall f <- Without(own, cr3[p]) :: f in kernelMap.Frames()
      ensures forall q | 0 <= q < |cr3| && q != p && cr3[q] != 0 ::
        IsDir(Without(own, cr3[p]), cr3[q]) && (IsUser(Without(own, cr3[p]), cr3[q]) <==> q != 0) && (q > 0 ==> lines.mem[cr3[q]][TOP_TABLE].p)
    {
      GiveUp(lines.mem, mem0, own, cr3[p]);
      OwnTables(mem0, cr3[p]);
      SpacesRemove(lines.mem, mem0, cr3, p);
    }

    // Owned frames that are no table of d are kept when d's tables are freed.
    lemma OwnTables(mem0: Memory, d: Frame)
      requires WellFormed(mem0, own) && IsDir(own, d)
      ensures forall f <- Without(own, d) :: f != d && f !in TableFrames(mem0, d)
    {
      assert GoodDir(mem0, own, d);
      forall i | 1 <= i < 1024 && mem0[d][i].p ensures mem0[d][i].base !in Without(own, d) {
        assert GoodEntryOf(own, d, i, mem0[d][i]);
      }
    }
  }
}
