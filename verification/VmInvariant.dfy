// The invariant of the paging structures of all processes together, and its
// preservation by every step of VirtualMemory.
module VmInvariant {
  import opened PageEntries
  import opened VirtualMemory

  // Pages a user process is given: those above the identity mapping.
  predicate UserPage(v: nat) { USR_FIRST <= v < NPAGES }

  // A present entry is owned (writable), copy-on-write (read-only), or shared (writable);
  // only the ring 0 stack is a supervisor page, and it is never shared. A page that a process
  // has at the kernel's window is its own.
  predicate GoodEntry(v: nat, e: Entry) {
    && (if e.cow then !e.rw && !e.sh else e.rw)
    && (e.us <==> v != STACK_0)
    && (e.sh ==> e.us)
    && (v == TEMP ==> !e.cow && !e.sh)
  }

  // Absent entries carry no frame number, except for what the temporary mapping leaves.
  predicate CleanEntry(v: nat, e: Entry) {
    if e.p then UserPage(v) && GoodEntry(v, e) else v != TEMP ==> e.base == 0
  }

  ghost predicate CleanEntries(s: Vm)
    requires Shape(s)
  {
    forall p, v {:trigger s.sp[p].pte[v]} :: p in s.sp && 0 <= v < NPAGES ==> CleanEntry(v, s.sp[p].pte[v])
  }

  // No entry under a directory entry without a table.
  ghost predicate NoStrays(s: Vm)
    requires Shape(s)
  {
    forall p, v {:trigger s.sp[p].pte[v]} :: p in s.sp && 0 <= v < NPAGES ==>
      s.sp[p].pde[v / 1024] != Table ==> s.sp[p].pte[v] == ZERO
  }

  // The frames in use are exactly the frames some live directory maps.
  ghost predicate Exact(s: Vm)
    requires Shape(s)
  {
    && (forall f :: f in s.used <==> Mapped(s, f))
    && (forall f :: f in s.used ==> USR_FIRST <= f < |s.ram|)
  }

  // A frame is mapped at one page number only, whoever maps it.
  ghost predicate OneHome(s: Vm)
    requires Shape(s)
  {
    forall p: Pid, v: nat, q: Pid, w: nat, f: Frame :: Maps(s, p, v, f) && Maps(s, q, w, f) ==> v == w
  }

  predicate Compatible(e: Entry, d: Entry) { e.us && e.sh == d.sh && (e.sh || e.cow) }

  // Two directories that map one frame agree on it: both shared, or both copy-on-write.
  ghost predicate Agree(s: Vm)
    requires Shape(s)
  {
    forall p: Pid, q: Pid, v: nat, f: Frame :: Maps(s, p, v, f) && Maps(s, q, v, f) && p != q ==>
      Compatible(s.sp[p].pte[v], s.sp[q].pte[v])
  }

  // Every process but the idle task (pid 0) has its stacks.
  ghost predicate Stacks(s: Vm)
    requires Shape(s)
  {
    forall p <- s.sp | p != 0 :: s.sp[p].pte[STACK_3].p && s.sp[p].pte[STACK_0].p
  }

  // No word of physical page 0 names a frame of a machine with frames below top.
  ghost predicate CleanLow(low: seq<Entry>, top: nat) {
    |low| == 1024 && forall j | 0 <= j < 1024 :: low[j].base < USR_FIRST || low[j].base >= top
  }

  // Physical page 0 names no frame of the machine. Real-mode vectors into the BIOS name
  // frames above all of them.
  ghost predicate LowFree(s: Vm)
    requires Shape(s)
  {
    CleanLow(s.low, |s.ram|)
  }

  // What holds of each address space, and of all of them together.
  ghost predicate Local(s: Vm)
    requires Shape(s)
  {
    CleanEntries(s) && NoStrays(s) && Stacks(s)
  }

  ghost predicate Global(s: Vm)
    requires Shape(s)
  {
    Exact(s) && OneHome(s) && Agree(s)
  }

  ghost predicate Inv(s: Vm) { Shape(s) && Local(s) && Global(s) && LowFree(s) }

  // ---------------------------------------------------------------- counting mappers

  // For a frame of the machine the words counted are entries of tables.
  lemma CountedMaps(s: Vm, v: nat, f: Frame)
    requires Shape(s) && CleanEntries(s) && NoStrays(s) && LowFree(s) && v < NPAGES && USR_FIRST <= f < |s.ram|
    ensures v != TEMP ==> forall q :: q in Counted(s, f, v) <==> Maps(s, q, v, f)
    ensures forall q :: Maps(s, q, v, f) ==> q in Counted(s, f, v)
  {
    forall q: Pid ensures (q in Counted(s, f, v) && v != TEMP ==> Maps(s, q, v, f)) && (Maps(s, q, v, f) ==> q in Counted(s, f, v)) {
      if q in s.sp { assert CleanEntry(v, s.sp[q].pte[v]); }
    }
  }

  // mm_times_mapped counts 1 exactly when no other live directory maps the frame. At the
  // window stale entries may be counted as well.
  lemma CountedOne(s: Vm, p: Pid, v: nat, f: Frame)
    requires Inv(s) && Maps(s, p, v, f) && v != TEMP
    ensures p in Counted(s, f, v)
    ensures |Counted(s, f, v)| == 1 <==> forall q, w :: Maps(s, q, w, f) ==> q == p
    ensures |Counted(s, f, v)| >= 1
  {
    var c := Counted(s, f, v);
    assert Mapped(s, f);
    CountedMaps(s, v, f);
    assert p in c;
    if |c| == 1 {
      assert c == {p} by { SingletonIs(c, p); }
      forall q, w | Maps(s, q, w, f) ensures q == p {
        assert w == v;
        assert q in c;
      }
    }
    if forall q, w :: Maps(s, q, w, f) ==> q == p {
      assert c == {p};
    }
  }

  lemma SingletonIs<T>(c: set<T>, x: T)
    requires x in c && |c| == 1
    ensures c == {x}
  {
    assert |c - {x}| == 0;
  }

  // ---------------------------------------------------------------- the enabled events

  datatype Event =
    | Fork(p: Pid, c: Pid, f3: Frame, f0: Frame, k0: Page)
    | Spawn(p: Pid, c: Pid, v: nat, fc: Frame, f3: Frame, f0: Frame, code: Page, k0: Page)
    | Read(p: Pid, v: nat, off: nat, f: Frame)
    | Write(p: Pid, v: nat, off: nat, b: bv8, f: Frame, k: Page)
    | Palloc(p: Pid)
    | Share(p: Pid, v: nat)
    | Exit(p: Pid)

  ghost predicate Free(s: Vm, f: Frame) { f !in s.used && USR_FIRST <= f < |s.ram| }

  // A user process accesses page v; f is a free frame if the access needs one.
  ghost predicate CanTouch(s: Vm, p: Pid, v: nat, f: Frame, write: bool)
    requires Shape(s)
  {
    p in s.sp && p != 0 && v < NPAGES && f < |s.ram| && (TakesFrame(s, p, v, write) ==> Free(s, f))
  }

  // What can happen while the machine runs: a live, non-idle process issues the event (a
  // load may also come from the idle task), new pids are not live, and frames are available.
  // k is the kernel's page that a write below 4 MB names.
  ghost predicate Enabled(s: Vm, e: Event)
    requires Shape(s)
  {
    s.status != Halted &&
    match e
    case Fork(p, c, f3, f0, _) =>
      p in s.sp && p != 0 && c !in s.sp && Free(s, f3) && Free(s, f0) && f3 != f0
    case Spawn(p, c, v, fc, f3, f0, _, _) =>
      p in s.sp && c !in s.sp && UserPage(v) && v != STACK_0 && v != STACK_3
      && Free(s, fc) && Free(s, f3) && Free(s, f0) && fc != f3 && fc != f0 && f3 != f0
    case Read(p, v, off, f) => off < PAGE_SIZE && CanTouch(s, p, v, f, false)
    case Write(p, v, off, _, f, _) => off < PAGE_SIZE && CanTouch(s, p, v, f, true)
    case Palloc(p) => p in s.sp && p != 0
    case Share(p, v) => p in s.sp && p != 0 && v < NPAGES
    case Exit(p) => p in s.sp && p != 0
  }

  // The steps that keep memory right (CowRefinement.StepExact): the kernel uses its window,
  // for a fork, a load or a copy, while the process has no page there; no frame is taken for
  // a page below 4 MB; and a present page is marked shared only if it is a user page other
  // than the window and not copy-on-write.
  ghost predicate Safe(s: Vm, e: Event)
    requires Shape(s) && Enabled(s, e)
  {
    match e
    case Fork(p, _, _, _, _) => !s.sp[p].pte[TEMP].p
    case Spawn(p, _, _, _, _, _, _, _) => !s.sp[p].pte[TEMP].p
    case Read(p, v, _, _) => SafeTouch(s, p, v, false)
    case Write(p, v, _, _, _, _) => SafeTouch(s, p, v, true)
    case Palloc(_) => true
    case Share(p, v) => SafeShare(s, p, v)
    case Exit(_) => true
  }

  // Page v is owed to p: it is absent, and its entry, or the whole directory entry, was
  // requested. A first stray access is owed what physical page 0 happens to request.
  ghost predicate Due(s: Vm, p: Pid, v: nat)
    requires Shape(s) && p in s.sp && v < NPAGES
  {
    v >= USR_FIRST &&
    match s.sp[p].pde[v / 1024]
    case Table => !s.sp[p].pte[v].p && s.sp[p].pte[v].rw
    case Asked => true
    case Absent => s.status == Fine && !s.low[v % 1024].p && s.low[v % 1024].rw
  }

  ghost predicate SafeTouch(s: Vm, p: Pid, v: nat, write: bool)
    requires Shape(s) && p in s.sp && v < NPAGES
  {
    TakesFrame(s, p, v, write) ==> v >= USR_FIRST && (Due(s, p, v) || !s.sp[p].pte[TEMP].p)
  }

  ghost predicate SafeShare(s: Vm, p: Pid, v: nat)
    requires Shape(s) && p in s.sp && v < NPAGES
  {
    var e := s.sp[p].pte[v];
    HasTable(s, p, v) && e.p ==> e.us && !e.cow && v != TEMP
  }

  // A store that may fault first.
  ghost function UserWrite(s: Vm, p: Pid, v: nat, off: nat, b: bv8, f: Frame, k: Page): Vm
    requires Inv(s) && off < PAGE_SIZE && CanTouch(s, p, v, f, true)
  {
    BackedAt(s, p, v);
    TouchBase(s, p, v, f, k, true);
    Store(Touch(s, p, v, f, k, true), p, v, off, b)
  }

  // Only writes below 4 MB copy a page of the kernel; a read passes on any page.
  ghost function Step(s: Vm, e: Event): Vm
    requires Inv(s) && Enabled(s, e)
  {
    match e
    case Fork(p, c, f3, f0, k0) => BackedAt(s, p, STACK_3); VirtualMemory.Fork(s, p, c, f3, f0, k0)
    case Spawn(p, c, v, fc, f3, f0, code, k0) => VirtualMemory.Spawn(s, p, c, v, fc, f3, f0, code, k0)
    case Read(p, v, off, f) => BackedAt(s, p, v); Touch(s, p, v, f, NoPage(), false)
    case Write(p, v, off, b, f, k) => UserWrite(s, p, v, off, b, f, k)
    case Palloc(p) => VirtualMemory.Palloc(s, p)
    case Share(p, v) => VirtualMemory.Share(s, p, v)
    case Exit(p) => VirtualMemory.Exit(s, p)
  }

  function NoPage(): Page { seq(PAGE_SIZE, i => 0) }

  // A present entry points at a user frame in use.
  lemma BackedAt(s: Vm, p: Pid, v: nat)
    requires Inv(s) && p in s.sp && v < NPAGES
    ensures s.sp[p].pte[v].p ==> s.sp[p].pte[v].base in s.used && USR_FIRST <= s.sp[p].pte[v].base < |s.ram|
    ensures s.sp[p].pte[v].p ==> HasTable(s, p, v)
    ensures forall write: bool :: Backed(s, p, v, Protection(s, p, v, write))
  {
    if s.sp[p].pte[v].p {
      assert Maps(s, p, v, s.sp[p].pte[v].base);
    }
  }

  // What an access keeps, whatever the tables hold.
  lemma TouchBase(s: Vm, p: Pid, v: nat, f: Frame, k: Page, write: bool)
    requires Shape(s) && p in s.sp && v < NPAGES && f < |s.ram| && Backed(s, p, v, Protection(s, p, v, write))
    requires s.sp[p].pte[v].p ==> s.sp[p].pte[v].base < |s.ram|
    ensures var t := Touch(s, p, v, f, k, write);
      Shape(t) && p in t.sp && |t.ram| == |s.ram| && (t.sp[p].pte[v].p ==> t.sp[p].pte[v].base < |t.ram|)
  {
    hide WordFault, Protection;
    var protection := Protection(s, p, v, write);
    if Stray(s, p, v) && s.status == Fine { WordFaultBase(s.(status := Panicked), p, v, f, k, protection); }
    WordFaultBase(s, p, v, f, k, protection);
  }

  lemma WordFaultBase(s: Vm, p: Pid, v: nat, f: Frame, k: Page, protection: bool)
    requires Shape(s) && p in s.sp && v < NPAGES && f < |s.ram| && Backed(s, p, v, protection)
    ensures WordFault(s, p, v, f, k, protection).sp[p].pte[v].p ==>
      WordFault(s, p, v, f, k, protection).sp[p].pte[v].base == f ||
      (s.sp[p].pte[v].p && WordFault(s, p, v, f, k, protection).sp[p].pte[v].base == s.sp[p].pte[v].base)
  {}

  // ---------------------------------------------------------------- preservation

  // t is s with the entry of p at page v pointing at the fresh frame f and perhaps
  // something absent left at TEMP, if nothing was present there.
  ghost predicate Replaced(s: Vm, t: Vm, p: Pid, v: nat, f: Frame)
    requires Shape(s) && Shape(t) && v < NPAGES
  {
    && p in s.sp && t.sp.Keys == s.sp.Keys && (forall q <- s.sp | q != p :: t.sp[q] == s.sp[q])
    && t.sp[p].pte[v] == UserEntry(f) && t.low == s.low
    && (v == TEMP || t.sp[p].pte[TEMP] == s.sp[p].pte[TEMP] || (!s.sp[p].pte[TEMP].p && !t.sp[p].pte[TEMP].p))
    && (forall w | 0 <= w < NPAGES && w != v && w != TEMP :: t.sp[p].pte[w] == s.sp[p].pte[w])
    && t.sp[p].pde[v / 1024] == Table
    && (t.sp[p].pte[TEMP] == s.sp[p].pte[TEMP] || t.sp[p].pde[TOP_TABLE] == Table)
    && (forall i | 0 <= i < 1024 :: t.sp[p].pde[i] == s.sp[p].pde[i] || t.sp[p].pde[i] == Table)
    && t.used == s.used + {f} && |t.ram| == |s.ram|
  }

  lemma ReplacedMaps(s: Vm, t: Vm, p: Pid, v: nat, f: Frame)
    requires Shape(s) && CleanEntries(s) && Shape(t) && UserPage(v) && Replaced(s, t, p, v, f)
    ensures forall q, w, g :: Maps(t, q, w, g) <==> (if q == p && w == v then g == f else Maps(s, q, w, g))
  {}

  lemma ReplacedLocal(s: Vm, t: Vm, p: Pid, v: nat, f: Frame)
    requires Shape(s) && Local(s) && Shape(t) && UserPage(v) && v != STACK_0 && Replaced(s, t, p, v, f)
    ensures Local(t)
  {}

  lemma ReplacedExact(s: Vm, t: Vm, p: Pid, v: nat, f: Frame)
    requires Shape(s) && CleanEntries(s) && Exact(s) && Shape(t) && UserPage(v) && Free(s, f) && Replaced(s, t, p, v, f)
    requires s.sp[p].pte[v].p ==> exists q, w :: q != p && Maps(s, q, w, s.sp[p].pte[v].base)
    ensures Exact(t)
  {
    ReplacedMaps(s, t, p, v, f);
    forall g ensures g in t.used <==> Mapped(t, g) {
      assert Maps(t, p, v, f);
      if Mapped(s, g) {
        var r, x :| Maps(s, r, x, g);
        if r == p && x == v {
          var q, w :| q != p && Maps(s, q, w, s.sp[p].pte[v].base);
          assert Maps(t, q, w, g);
        } else {
          assert Maps(t, r, x, g);
        }
      }
    }
  }

  // A free frame is mapped by nobody.
  lemma FreeUnmapped(s: Vm, f: Frame)
    requires Shape(s) && Exact(s) && f !in s.used
    ensures forall q, w :: !Maps(s, q, w, f)
  {
    assert !Mapped(s, f);
  }

  lemma ReplacedAgree(s: Vm, t: Vm, p: Pid, v: nat, f: Frame)
    requires Shape(s) && CleanEntries(s) && OneHome(s) && Agree(s) && Shape(t) && UserPage(v) && Replaced(s, t, p, v, f)
    requires forall q, w :: !Maps(s, q, w, f)
    ensures OneHome(t) && Agree(t)
  {
    ReplacedMaps(s, t, p, v, f);
    forall q: Pid, r: Pid, x: nat, g: Frame | Maps(t, q, x, g) && Maps(t, r, x, g) && q != r
      ensures Compatible(t.sp[q].pte[x], t.sp[r].pte[x])
    {
      assert Maps(s, q, x, g) && Maps(s, r, x, g);
    }
  }

  lemma ReplacedInv(s: Vm, t: Vm, p: Pid, v: nat, f: Frame)
    requires Inv(s) && Shape(t) && UserPage(v) && v != STACK_0 && Free(s, f) && Replaced(s, t, p, v, f)
    requires s.sp[p].pte[v].p ==> exists q, w :: q != p && Maps(s, q, w, s.sp[p].pte[v].base)
    ensures Inv(t)
  {
    ReplacedLocal(s, t, p, v, f);
    ReplacedExact(s, t, p, v, f);
    FreeUnmapped(s, f);
    ReplacedAgree(s, t, p, v, f);
  }

  // t is s with some entries of p changed in their rw, cow or sh bits, or in an absent entry.
  ghost predicate Retouched(s: Vm, t: Vm, p: Pid)
    requires Shape(s) && Shape(t)
  {
    && p in s.sp && t.sp.Keys == s.sp.Keys && (forall q <- s.sp | q != p :: t.sp[q] == s.sp[q])
    && t.used == s.used && t.ram == s.ram && t.low == s.low
    && (forall w | 0 <= w < NPAGES :: t.sp[p].pte[w].p == s.sp[p].pte[w].p && t.sp[p].pte[w].base == s.sp[p].pte[w].base)
  }

  lemma RetouchedMaps(s: Vm, t: Vm, p: Pid)
    requires Shape(s) && Shape(t) && Retouched(s, t, p)
    ensures forall q, w, g :: Maps(t, q, w, g) <==> Maps(s, q, w, g)
  {}

  lemma RetouchedExact(s: Vm, t: Vm, p: Pid)
    requires Shape(s) && Shape(t) && Retouched(s, t, p) && Exact(s) && OneHome(s)
    ensures Exact(t) && OneHome(t)
  {
    RetouchedMaps(s, t, p);
    SameMapsExact(s, t);
  }

  // The entry of the only mapper of its frame may change its bits.
  lemma RetouchedAgree(s: Vm, t: Vm, p: Pid, v: nat)
    requires Shape(s) && Shape(t) && Retouched(s, t, p) && OneHome(s) && Agree(s) && v < NPAGES
    requires forall w | 0 <= w < NPAGES && w != v && s.sp[p].pte[w].p :: t.sp[p].pte[w] == s.sp[p].pte[w]
    requires s.sp[p].pte[v].p && t.sp[p].pte[v] != s.sp[p].pte[v] ==>
      forall q, w :: Maps(s, q, w, s.sp[p].pte[v].base) ==> q == p
    ensures Agree(t)
  {
    RetouchedMaps(s, t, p);
    forall q: Pid, r: Pid, x: nat, g: Frame | Maps(t, q, x, g) && Maps(t, r, x, g) && q != r
      ensures Compatible(t.sp[q].pte[x], t.sp[r].pte[x])
    {
      assert Maps(s, q, x, g) && Maps(s, r, x, g);
    }
  }

  lemma SameMapsExact(s: Vm, t: Vm)
    requires Shape(s) && Shape(t) && Exact(s) && t.used == s.used && |t.ram| == |s.ram|
    requires forall q, w, g :: Maps(t, q, w, g) <==> Maps(s, q, w, g)
    ensures Exact(t)
  {
    forall g ensures Mapped(t, g) <==> Mapped(s, g) {
      if Mapped(s, g) { var q, w :| Maps(s, q, w, g); assert Maps(t, q, w, g); }
      if Mapped(t, g) { var q, w :| Maps(t, q, w, g); assert Maps(s, q, w, g); }
    }
  }

  // What the two outcomes of a copy-on-write fault do to the tables.
  lemma CopyShape(s: Vm, p: Pid, v: nat, f: Frame, k: Page)
    requires Shape(s) && NoStrays(s) && p in s.sp && UserPage(v) && v != TEMP && f < |s.ram|
    requires s.sp[p].pte[v].p && s.sp[p].pte[v].base < |s.ram| && !s.sp[p].pte[TEMP].p
    ensures var t := CopyTo(s, p, v, f, k);
      Shape(t) && Replaced(s, t, p, v, f) && t.ram == s.ram[f := s.ram[s.sp[p].pte[v].base]]
  {}

  lemma OwnShape(s: Vm, p: Pid, v: nat)
    requires Shape(s) && p in s.sp && v < NPAGES && HasTable(s, p, v)
    ensures var t := Own(s, p, v);
      && Shape(t) && Retouched(s, t, p) && t.status == s.status
      && t.sp[p] == s.sp[p].(pte := s.sp[p].pte[v := s.sp[p].pte[v].(cow := false, rw := true)])
  {}

  lemma GrantShape(s: Vm, p: Pid, v: nat, f: Frame)
    requires Shape(s) && CleanEntries(s) && p in s.sp && UserPage(v)
    ensures var t := Grant(s, p, v, f); Shape(t) && Replaced(s, t, p, v, f) && t.ram == s.ram
  {}

  // The entry that a copy-on-write fault of the only mapper leaves.
  lemma OwnInv(s: Vm, t: Vm, p: Pid, v: nat)
    requires Inv(s) && Shape(t) && Retouched(s, t, p) && UserPage(v) && s.sp[p].pte[v].p && s.sp[p].pte[v].cow
    requires |Counted(s, s.sp[p].pte[v].base, v)| == 1
    requires t.sp[p] == s.sp[p].(pte := s.sp[p].pte[v := s.sp[p].pte[v].(cow := false, rw := true)])
    ensures Inv(t)
  {
    CountedOne(s, p, v, s.sp[p].pte[v].base);
    RetouchedExact(s, t, p);
    RetouchedAgree(s, t, p, v);
    OwnLocal(s, t, p, v);
  }

  lemma OwnLocal(s: Vm, t: Vm, p: Pid, v: nat)
    requires Shape(s) && Local(s) && Shape(t) && Retouched(s, t, p) && UserPage(v) && s.sp[p].pte[v].p && s.sp[p].pte[v].cow
    requires t.sp[p] == s.sp[p].(pte := s.sp[p].pte[v := s.sp[p].pte[v].(cow := false, rw := true)])
    ensures Local(t)
  {}

  // Some other directory maps the frame that a second count finds.
  lemma CountedMore(s: Vm, p: Pid, v: nat, f: Frame) returns (q: Pid)
    requires Inv(s) && Maps(s, p, v, f) && v != TEMP && |Counted(s, f, v)| != 1
    ensures q != p && Maps(s, q, v, f) && Compatible(s.sp[p].pte[v], s.sp[q].pte[v])
  {
    CountedOne(s, p, v, f);
    var w;
    q, w :| Maps(s, q, w, f) && q != p;
  }

  lemma CopyToInv(s: Vm, p: Pid, v: nat, f: Frame, k: Page)
    requires Inv(s) && p in s.sp && UserPage(v) && s.sp[p].pte[v].p && s.sp[p].pte[v].cow && Free(s, f)
    requires s.sp[p].pte[v].base < |s.ram| && |Counted(s, s.sp[p].pte[v].base, v)| != 1 && !s.sp[p].pte[TEMP].p
    ensures Inv(CopyTo(s, p, v, f, k))
  {
    assert CleanEntry(v, s.sp[p].pte[v]);
    CopyShape(s, p, v, f, k);
    assert Maps(s, p, v, s.sp[p].pte[v].base);
    var q := CountedMore(s, p, v, s.sp[p].pte[v].base);
    ReplacedInv(s, CopyTo(s, p, v, f, k), p, v, f);
  }

  // Tables, frames and contents are as they were, and physical page 0 names the same frames.
  ghost predicate SameTables(s: Vm, t: Vm) {
    && t.sp == s.sp && t.used == s.used && t.ram == s.ram && |t.low| == |s.low|
    && forall j | 0 <= j < |s.low| :: t.low[j].base == s.low[j].base
  }

  lemma SameTablesInv(s: Vm, t: Vm)
    requires Inv(s) && SameTables(s, t)
    ensures Inv(t)
  {
    assert forall q, w, g :: Maps(t, q, w, g) <==> Maps(s, q, w, g);
    SameMapsExact(s, t);
  }

  // What an access to a page above 4 MB does: nothing, a grant, a stop, or the resolution of
  // a copy-on-write fault.
  lemma TouchIs(s: Vm, p: Pid, v: nat, f: Frame, k: Page, write: bool)
    requires Inv(s) && CanTouch(s, p, v, f, write) && UserPage(v) && Backed(s, p, v, Protection(s, p, v, write))
    ensures var t, e := Touch(s, p, v, f, k, write), s.sp[p].pte[v];
      if Permits(e, write) then t == s
      else if Due(s, p, v) then t == Grant(s, p, v, f).(status := if Stray(s, p, v) then Panicked else s.status) && !e.p
      else if Stray(s, p, v) then t == s.(status := Halted)
      else if e.p && e.cow && write then
        HasTable(s, p, v) && v != TEMP && (TakesFrame(s, p, v, write) <==> |Counted(s, e.base, v)| != 1) &&
        (if |Counted(s, e.base, v)| == 1 then t == Own(s, p, v) else e.base < |s.ram| && t == CopyTo(s, p, v, f, k))
      else t == s
  {
    assert CleanEntry(v, s.sp[p].pte[v]);
    assert s.sp[p].pde[v / 1024] != Table ==> s.sp[p].pte[v] == ZERO;
  }

  // An access below 4 MB that takes no frame.
  lemma LowTouchIs(s: Vm, p: Pid, v: nat, f: Frame, k: Page, write: bool)
    requires Inv(s) && CanTouch(s, p, v, f, write) && v < USR_FIRST && !TakesFrame(s, p, v, write)
    ensures SameTables(s, Touch(s, p, v, f, k, write))
  {
    assert CleanEntry(v, s.sp[p].pte[v]);
  }

  // A fault under a directory entry with neither table nor request is served exactly when it
  // is the first of its kind and the word of physical page 0 at the page's table index is
  // requested and not present; otherwise the machine stops.
  lemma StrayServedExactly(s: Vm, p: Pid, v: nat, f: Frame, k: Page, write: bool)
    requires Shape(s) && p in s.sp && v < NPAGES && f < |s.ram| && Stray(s, p, v) && !s.sp[p].pte[v].p
    ensures TakesFrame(s, p, v, write) <==> s.status == Fine && !s.low[v % 1024].p && s.low[v % 1024].Requested()
    ensures Backed(s, p, v, Protection(s, p, v, write))
    ensures Touch(s, p, v, f, k, write) ==
      if TakesFrame(s, p, v, write) then Grant(s, p, v, f).(status := Panicked) else s.(status := Halted)
  {}

  // Once an access was handled it is permitted, the machine has stopped, or every further
  // fault on it changes nothing.
  lemma FaultSettles(s: Vm, p: Pid, v: nat, f: Frame, k: Page, write: bool, g: Frame, h: Page)
    requires Inv(s) && CanTouch(s, p, v, f, write) && Backed(s, p, v, Protection(s, p, v, write)) && g < |s.ram|
    ensures var t := Touch(s, p, v, f, k, write);
      t.status == Halted || Permits(t.sp[p].pte[v], write) ||
      (Backed(t, p, v, Protection(t, p, v, write)) && PageFault(t, p, v, g, h, Protection(t, p, v, write)) == t)
  {
    CleanAt(s, p, v);
    if v < USR_FIRST {
      LowSettles(s, p, v, f, k, write, g, h);
    } else {
      HighSettles(s, p, v, f, k, write, g, h);
    }
  }

  // What the invariant says of one entry.
  lemma CleanAt(s: Vm, p: Pid, v: nat)
    requires Inv(s) && p in s.sp && v < NPAGES
    ensures Shape(s) && CleanEntry(v, s.sp[p].pte[v]) && (s.sp[p].pde[v / 1024] != Table ==> s.sp[p].pte[v] == ZERO)
  {}

  lemma HighSettles(s: Vm, p: Pid, v: nat, f: Frame, k: Page, write: bool, g: Frame, h: Page)
    requires Inv(s) && CanTouch(s, p, v, f, write) && UserPage(v) && Backed(s, p, v, Protection(s, p, v, write)) && g < |s.ram|
    ensures var t := Touch(s, p, v, f, k, write);
      t.status == Halted || Permits(t.sp[p].pte[v], write) ||
      (Backed(t, p, v, Protection(t, p, v, write)) && PageFault(t, p, v, g, h, Protection(t, p, v, write)) == t)
  {
    hide Inv, Touch, Counted, TakesFrame;
    CleanAt(s, p, v);
    TouchIs(s, p, v, f, k, write);
  }

  lemma LowSettles(s: Vm, p: Pid, v: nat, f: Frame, k: Page, write: bool, g: Frame, h: Page)
    requires Shape(s) && p in s.sp && v < USR_FIRST && f < |s.ram| && g < |s.ram| && !s.sp[p].pte[v].p
    ensures Backed(s, p, v, Protection(s, p, v, write))
    ensures var t := Touch(s, p, v, f, k, write);
      Backed(t, p, v, Protection(t, p, v, write)) && PageFault(t, p, v, g, h, Protection(t, p, v, write)) == t
  {}

  lemma TouchInv(s: Vm, p: Pid, v: nat, f: Frame, k: Page, write: bool)
    requires Inv(s) && CanTouch(s, p, v, f, write) && SafeTouch(s, p, v, write) && Backed(s, p, v, Protection(s, p, v, write))
    ensures Inv(Touch(s, p, v, f, k, write))
  {
    var e, t := s.sp[p].pte[v], Touch(s, p, v, f, k, write);
    if v < USR_FIRST {
      LowTouchIs(s, p, v, f, k, write);
      SameTablesInv(s, t);
    } else {
      TouchIs(s, p, v, f, k, write);
      if Permits(e, write) {
      } else if Due(s, p, v) {
        GrantedInv(s, p, v, f);
        SameTablesInv(Grant(s, p, v, f), t);
      } else if Stray(s, p, v) {
        SameTablesInv(s, t);
      } else if e.p && e.cow && write {
        if TakesFrame(s, p, v, write) {
          CopyToInv(s, p, v, f, k);
        } else {
          OwnShape(s, p, v);
          OwnInv(s, Own(s, p, v), p, v);
        }
      }
    }
  }

  lemma GrantedInv(s: Vm, p: Pid, v: nat, f: Frame)
    requires Inv(s) && p in s.sp && p != 0 && UserPage(v) && Due(s, p, v) && Free(s, f)
    ensures Inv(Grant(s, p, v, f))
  {
    assert CleanEntry(v, s.sp[p].pte[v]) && s.sp[p].pte[STACK_0].p;
    assert s.sp[p].pde[STACK_0 / 1024] == Table && s.sp[p].pde[v / 1024] != Table ==> s.sp[p].pte[v] == ZERO;
    GrantShape(s, p, v, f);
    ReplacedInv(s, Grant(s, p, v, f), p, v, f);
  }

  lemma StoreInv(s: Vm, p: Pid, v: nat, off: nat, b: bv8)
    requires Inv(s) && p in s.sp && v < NPAGES && off < PAGE_SIZE
    requires s.sp[p].pte[v].p ==> s.sp[p].pte[v].base < |s.ram|
    ensures Inv(Store(s, p, v, off, b))
  {
    var t := Store(s, p, v, off, b);
    assert forall q, w, g :: Maps(t, q, w, g) <==> Maps(s, q, w, g);
    SameMapsExact(s, t);
  }

  // Marking a page shared keeps the invariant exactly when that is safe.
  lemma ShareInvExactly(s: Vm, p: Pid, v: nat)
    requires Inv(s) && Enabled(s, Share(p, v))
    ensures Shape(VirtualMemory.Share(s, p, v))
    ensures Inv(VirtualMemory.Share(s, p, v)) <==> SafeShare(s, p, v)
  {
    var t, e := VirtualMemory.Share(s, p, v), s.sp[p].pte[v];
    if !HasTable(s, p, v) {
      SameTablesInv(s, t);
    } else {
      assert Retouched(s, t, p);
      assert t.sp[p].pte[v] == e.(sh := true);
      RetouchedExact(s, t, p);
      if SafeShare(s, p, v) {
        if e.p && !e.sh {
          assert Maps(s, p, v, e.base);
          OnlyMapper(s, p, v);
        }
        RetouchedAgree(s, t, p, v);
        ShareLocal(s, t, p, v);
      } else {
        assert CleanEntry(v, e) && !CleanEntry(v, t.sp[p].pte[v]);
      }
    }
  }

  lemma ShareLocal(s: Vm, t: Vm, p: Pid, v: nat)
    requires Shape(s) && Local(s) && Shape(t) && Retouched(s, t, p) && v < NPAGES
    requires t.sp[p] == s.sp[p].(pte := s.sp[p].pte[v := s.sp[p].pte[v].(sh := true)])
    requires HasTable(s, p, v) && SafeShare(s, p, v)
    ensures Local(t)
  {}

  // An owned page has no other mapper.
  lemma OnlyMapper(s: Vm, p: Pid, v: nat)
    requires Shape(s) && OneHome(s) && Agree(s) && p in s.sp && v < NPAGES
    requires s.sp[p].pte[v].p && !s.sp[p].pte[v].sh && !s.sp[p].pte[v].cow
    ensures forall q, w :: Maps(s, q, w, s.sp[p].pte[v].base) ==> q == p
  {
    assert Maps(s, p, v, s.sp[p].pte[v].base);
  }

  lemma ScanTableFree(pte: seq<Entry>, v: nat, end: nat)
    requires v <= end <= |pte|
    ensures var r := ScanTable(pte, v, end); r < end ==> !pte[r].p && !pte[r].Requested()
    decreases end - v
  {}

  // The page palloc picks is neither present nor requested.
  lemma {:induction false} ScanFree(sp: Space, i: nat)
    requires |sp.pte| == NPAGES && |sp.pde| == 1024 && i <= 1024
    ensures var v := Scan(sp, i);
      v < NPAGES ==> if sp.pde[v / 1024] == Table then !sp.pte[v].p && !sp.pte[v].Requested()
                     else sp.pde[v / 1024] == Absent && v % 1024 == 0
    decreases 1024 - i
  {
    if i < 1024 {
      ScanFree(sp, i + 1);
      ScanTableFree(sp.pte, 1024 * i, 1024 * (i + 1));
      var first := ScanTable(sp.pte, 1024 * i, 1024 * (i + 1));
      assert first < 1024 * (i + 1) ==> first / 1024 == i;
      hide ScanTable;
    }
  }

  // Palloc changes absent entries only, and no table comes or goes.
  lemma AskPageChanges(sp: Space)
    requires |sp.pte| == NPAGES && |sp.pde| == 1024
    ensures var r, v := AskPage(sp, PallocPage(sp)), PallocPage(sp);
      && (forall i | 0 <= i < 1024 :: r.pde[i] == Table <==> sp.pde[i] == Table)
      && (forall w | 0 <= w < NPAGES :: r.pte[w] == sp.pte[w] ||
           (w == v && sp.pde[w / 1024] == Table && !sp.pte[w].p && r.pte[w] == AskedEntry(sp.pte[w])))
  {
    ScanFree(sp, 1);
  }

  lemma PallocInv(s: Vm, p: Pid)
    requires Inv(s) && p in s.sp
    ensures Inv(VirtualMemory.Palloc(s, p))
  {
    AskPageChanges(s.sp[p]);
    AskedInv(s, VirtualMemory.Palloc(s, p), p);
  }

  lemma AskedInv(s: Vm, t: Vm, p: Pid)
    requires Inv(s) && Shape(t) && p in s.sp && t.sp.Keys == s.sp.Keys && t.used == s.used && t.ram == s.ram && t.low == s.low
    requires forall q <- s.sp | q != p :: t.sp[q] == s.sp[q]
    requires forall i | 0 <= i < 1024 :: t.sp[p].pde[i] == Table <==> s.sp[p].pde[i] == Table
    requires forall w | 0 <= w < NPAGES ::
      (t.sp[p].pte[w] == s.sp[p].pte[w] ||
        (s.sp[p].pde[w / 1024] == Table && !s.sp[p].pte[w].p && t.sp[p].pte[w] == AskedEntry(s.sp[p].pte[w])))
    ensures Inv(t)
  {
    assert Retouched(s, t, p);
    RetouchedExact(s, t, p);
    RetouchedAgree(s, t, p, 0);
  }

  // Reclamation: mm_dir_free on a registered directory releases a user frame exactly
  // when that directory maps it and no other live directory does.
  lemma FreedExactly(s: Vm, p: Pid, f: Frame)
    requires Inv(s) && p in s.sp
    ensures f in Freed(s, p) <==> Mapped(s, f) && forall q, w :: Maps(s, q, w, f) ==> q == p
  {
    if f in Freed(s, p) {
      var v :| 0 <= v < NPAGES && Released(s, p, v) && s.sp[p].pte[v].base == f;
      assert Maps(s, p, v, f);
      if v == TEMP { OwnedAt(s, p, v); } else { CountedOne(s, p, v, f); }
    }
    if Mapped(s, f) && forall q, w :: Maps(s, q, w, f) ==> q == p {
      var q, v :| Maps(s, q, v, f);
      if v == TEMP { OwnedAt(s, p, v); } else { CountedOne(s, p, v, f); }
      assert Released(s, p, v);
    }
  }

  // What a process has at the window is its own.
  lemma OwnedAt(s: Vm, p: Pid, v: nat)
    requires Inv(s) && p in s.sp && v == TEMP && s.sp[p].pte[v].p
    ensures !s.sp[p].pte[v].cow && !s.sp[p].pte[v].sh
    ensures forall q, w :: Maps(s, q, w, s.sp[p].pte[v].base) ==> q == p
  {
    assert CleanEntry(v, s.sp[p].pte[v]);
    OnlyMapper(s, p, v);
  }

  lemma ExitInv(s: Vm, p: Pid)
    requires Inv(s) && p in s.sp
    ensures Inv(VirtualMemory.Exit(s, p))
  {
    var t := VirtualMemory.Exit(s, p);
    assert forall q, w, g :: Maps(t, q, w, g) <==> q != p && Maps(s, q, w, g);
    forall g ensures g in t.used <==> Mapped(t, g) {
      FreedExactly(s, p, g);
      if Mapped(t, g) {
        var q, w :| Maps(t, q, w, g);
        assert Maps(s, q, w, g);
      }
      if g in t.used {
        assert Mapped(s, g);
        var q, w :| Maps(s, q, w, g) && q != p;
        assert Maps(t, q, w, g);
      }
    }
  }

  // The tables after a fork, without its definition.
  ghost predicate Forked(s: Vm, t: Vm, p: Pid, c: Pid, f3: Frame, f0: Frame)
    requires Shape(s) && Shape(t)
  {
    && p in s.sp && c !in s.sp && t.sp.Keys == s.sp.Keys + {c} && |t.ram| == |s.ram|
    && (forall q <- s.sp | q != p :: t.sp[q] == s.sp[q])
    && t.sp[p] == ForkParent(s.sp[p], f3) && t.sp[c] == ForkChild(s.sp[p], f3, f0)
    && t.used == s.used + {f3, f0} && f3 != f0 && Free(s, f3) && Free(s, f0)
    && t.low == s.low && !s.sp[p].pte[TEMP].p
  }

  lemma ForkForked(s: Vm, p: Pid, c: Pid, f3: Frame, f0: Frame, k0: Page)
    requires Shape(s) && Enabled(s, Fork(p, c, f3, f0, k0)) && s.sp[p].pte[STACK_3].base < |s.ram| && !s.sp[p].pte[TEMP].p
    ensures var t := VirtualMemory.Fork(s, p, c, f3, f0, k0); Shape(t) && Forked(s, t, p, c, f3, f0)
  {}

  lemma ForkMaps(s: Vm, t: Vm, p: Pid, c: Pid, f3: Frame, f0: Frame)
    requires Shape(s) && CleanEntries(s) && Shape(t) && Forked(s, t, p, c, f3, f0)
    ensures forall q, w, g :: Maps(t, q, w, g) <==>
      if q == c then (if w == STACK_3 then g == f3 else if w == STACK_0 then g == f0 else Maps(s, p, w, g))
      else Maps(s, q, w, g)
  {
    assert t.sp[c].pte[STACK_3] == UserEntry(f3) && t.sp[c].pte[STACK_0] == SystemEntry(f0);
    forall q: Pid, w: nat, g: Frame | w < NPAGES
      ensures q == c && w != STACK_3 && w != STACK_0 ==> (Maps(t, c, w, g) <==> Maps(s, p, w, g))
      ensures q != c ==> (Maps(t, q, w, g) <==> Maps(s, q, w, g))
    {
      if q == p || q == c { assert s.sp[p].pte[w].p || !s.sp[p].pte[w].p; }
    }
  }

  lemma ForkExact(s: Vm, t: Vm, p: Pid, c: Pid, f3: Frame, f0: Frame)
    requires Shape(s) && CleanEntries(s) && Exact(s) && Shape(t) && Forked(s, t, p, c, f3, f0)
    ensures Exact(t)
  {
    ForkMaps(s, t, p, c, f3, f0);
    forall g ensures g in t.used <==> Mapped(t, g) {
      assert Maps(t, c, STACK_3, f3) && Maps(t, c, STACK_0, f0);
      if Mapped(s, g) {
        var q, w :| Maps(s, q, w, g);
        assert Maps(t, q, w, g);
      }
      if Mapped(t, g) {
        var q, w :| Maps(t, q, w, g);
        if q == c && w != STACK_3 && w != STACK_0 { assert Maps(s, p, w, g); }
      }
    }
  }

  lemma ForkAgreeAt(s: Vm, t: Vm, p: Pid, c: Pid, f3: Frame, f0: Frame, q: Pid, r: Pid, v: nat, f: Frame)
    requires Shape(s) && CleanEntries(s) && Agree(s) && Shape(t) && Forked(s, t, p, c, f3, f0)
    requires forall q, w :: !Maps(s, q, w, f3) && !Maps(s, q, w, f0)
    requires Maps(t, q, v, f) && Maps(t, r, v, f) && q != r
    ensures Compatible(t.sp[q].pte[v], t.sp[r].pte[v])
  {
    ForkMaps(s, t, p, c, f3, f0);
    if v != STACK_3 && v != STACK_0 {
      assert Maps(s, if q == c then p else q, v, f) && Maps(s, if r == c then p else r, v, f);
    }
  }

  lemma ForkAgree(s: Vm, t: Vm, p: Pid, c: Pid, f3: Frame, f0: Frame)
    requires Shape(s) && CleanEntries(s) && Agree(s) && Shape(t) && Forked(s, t, p, c, f3, f0)
    requires forall q, w :: !Maps(s, q, w, f3) && !Maps(s, q, w, f0)
    ensures Agree(t)
  {
    forall q: Pid, r: Pid, v: nat, f: Frame | Maps(t, q, v, f) && Maps(t, r, v, f) && q != r
      ensures Compatible(t.sp[q].pte[v], t.sp[r].pte[v])
    {
      ForkAgreeAt(s, t, p, c, f3, f0, q, r, v, f);
    }
  }

  lemma ForkOneHome(s: Vm, t: Vm, p: Pid, c: Pid, f3: Frame, f0: Frame)
    requires Shape(s) && CleanEntries(s) && OneHome(s) && Shape(t) && Forked(s, t, p, c, f3, f0)
    requires forall q, w :: !Maps(s, q, w, f3) && !Maps(s, q, w, f0)
    ensures OneHome(t)
  {
    ForkMaps(s, t, p, c, f3, f0);
  }

  lemma ForkClean(s: Vm, t: Vm, p: Pid, c: Pid, f3: Frame, f0: Frame)
    requires Shape(s) && Local(s) && Shape(t) && p != 0 && Forked(s, t, p, c, f3, f0)
    ensures CleanEntries(t)
  {
    forall q, w | q in t.sp && 0 <= w < NPAGES
      ensures CleanEntry(w, t.sp[q].pte[w])
    {
      if q == c || q == p {
        assert CleanEntry(w, s.sp[p].pte[w]);
      } else {
        assert t.sp[q] == s.sp[q] && CleanEntry(w, s.sp[q].pte[w]);
      }
    }
  }

  lemma ForkStacks(s: Vm, t: Vm, p: Pid, c: Pid, f3: Frame, f0: Frame)
    requires Shape(s) && Local(s) && Shape(t) && p != 0 && Forked(s, t, p, c, f3, f0)
    ensures Stacks(t)
  {}

  lemma ForkNoStrays(s: Vm, t: Vm, p: Pid, c: Pid, f3: Frame, f0: Frame)
    requires Shape(s) && NoStrays(s) && Shape(t) && Forked(s, t, p, c, f3, f0)
    ensures NoStrays(t)
  {}

  lemma ForkInv(s: Vm, p: Pid, c: Pid, f3: Frame, f0: Frame, k0: Page)
    requires Inv(s) && Enabled(s, Fork(p, c, f3, f0, k0)) && s.sp[p].pte[STACK_3].base < |s.ram| && !s.sp[p].pte[TEMP].p
    ensures Inv(VirtualMemory.Fork(s, p, c, f3, f0, k0))
  {
    var t := VirtualMemory.Fork(s, p, c, f3, f0, k0);
    ForkForked(s, p, c, f3, f0, k0);
    FreeUnmapped(s, f3);
    FreeUnmapped(s, f0);
    ForkClean(s, t, p, c, f3, f0);
    ForkStacks(s, t, p, c, f3, f0);
    ForkNoStrays(s, t, p, c, f3, f0);
    ForkExact(s, t, p, c, f3, f0);
    ForkOneHome(s, t, p, c, f3, f0);
    ForkAgree(s, t, p, c, f3, f0);
  }

  // The address space of a freshly loaded process.
  ghost predicate FreshSpace(sp: Space, v: nat, fc: Frame, f3: Frame, f0: Frame)
    requires |sp.pte| == NPAGES && |sp.pde| == 1024 && v < NPAGES
  {
    && (forall w | 0 <= w < NPAGES :: (sp.pte[w] ==
         if w == v then UserEntry(fc) else if w == STACK_3 then UserEntry(f3)
         else if w == STACK_0 then SystemEntry(f0) else ZERO))
    && sp.pde[TOP_TABLE] == Table && sp.pde[v / 1024] == Table
  }

  // t is s with something absent still absent at TEMP of p and a new process c on three
  // fresh frames.
  ghost predicate Loaded(s: Vm, t: Vm, p: Pid, c: Pid, v: nat, fc: Frame, f3: Frame, f0: Frame, e: Entry)
    requires Shape(s) && Shape(t)
  {
    && p in s.sp && c !in s.sp && t.sp.Keys == s.sp.Keys + {c} && |t.ram| == |s.ram|
    && (forall q <- s.sp | q != p :: t.sp[q] == s.sp[q])
    && !e.p && t.sp[p] == SetEntry(s.sp[p], TEMP, e)
    && UserPage(v) && v != STACK_0 && v != STACK_3 && fc != f3 && fc != f0 && f3 != f0
    && Free(s, fc) && Free(s, f3) && Free(s, f0) && t.used == s.used + {fc, f3, f0}
    && FreshSpace(t.sp[c], v, fc, f3, f0) && t.low == s.low && !s.sp[p].pte[TEMP].p
  }

  lemma ChildIsFresh(v: nat, fc: Frame, f3: Frame, f0: Frame)
    requires UserPage(v) && v != STACK_0 && v != STACK_3
    ensures FreshSpace(SpawnSpace(v, fc, f3, f0), v, fc, f3, f0)
  {}

  lemma SpawnLoaded(s: Vm, p: Pid, c: Pid, v: nat, fc: Frame, f3: Frame, f0: Frame, code: Page, k0: Page)
    requires Shape(s) && Enabled(s, Spawn(p, c, v, fc, f3, f0, code, k0)) && !s.sp[p].pte[TEMP].p
    ensures var t := VirtualMemory.Spawn(s, p, c, v, fc, f3, f0, code, k0);
      Shape(t) && Loaded(s, t, p, c, v, fc, f3, f0, TempLeft(fc, true))
  {
    ChildIsFresh(v, fc, f3, f0);
  }

  lemma LoadedMaps(s: Vm, t: Vm, p: Pid, c: Pid, v: nat, fc: Frame, f3: Frame, f0: Frame, e: Entry)
    requires Shape(s) && CleanEntries(s) && Shape(t) && Loaded(s, t, p, c, v, fc, f3, f0, e)
    ensures forall q, w, g :: Maps(t, q, w, g) <==>
      if q == c then (w == STACK_3 && g == f3) || (w == STACK_0 && g == f0) || (w == v && g == fc)
      else Maps(s, q, w, g)
  {
    forall q: Pid, w: nat, g: Frame ensures q != c ==> (Maps(t, q, w, g) <==> Maps(s, q, w, g)) {
      if q == p && w < NPAGES && w != TEMP { assert t.sp[p].pte[w] == s.sp[p].pte[w]; }
    }
  }

  lemma LoadedExact(s: Vm, t: Vm, p: Pid, c: Pid, v: nat, fc: Frame, f3: Frame, f0: Frame, e: Entry)
    requires Shape(s) && CleanEntries(s) && Exact(s) && Shape(t) && Loaded(s, t, p, c, v, fc, f3, f0, e)
    ensures Exact(t)
  {
    LoadedMaps(s, t, p, c, v, fc, f3, f0, e);
    forall g ensures g in t.used <==> Mapped(t, g) {
      assert Maps(t, c, STACK_3, f3) && Maps(t, c, STACK_0, f0) && Maps(t, c, v, fc);
      if Mapped(s, g) {
        var q, w :| Maps(s, q, w, g);
        assert Maps(t, q, w, g);
      }
      if Mapped(t, g) {
        var q, w :| Maps(t, q, w, g);
        if q != c { assert Maps(s, q, w, g); }
      }
    }
  }

  lemma LoadedAgree(s: Vm, t: Vm, p: Pid, c: Pid, v: nat, fc: Frame, f3: Frame, f0: Frame, e: Entry)
    requires Shape(s) && CleanEntries(s) && OneHome(s) && Agree(s) && Shape(t) && Loaded(s, t, p, c, v, fc, f3, f0, e)
    requires forall q, w :: !Maps(s, q, w, fc) && !Maps(s, q, w, f3) && !Maps(s, q, w, f0)
    ensures OneHome(t) && Agree(t)
  {
    LoadedMaps(s, t, p, c, v, fc, f3, f0, e);
    forall q: Pid, r: Pid, x: nat, g: Frame | Maps(t, q, x, g) && Maps(t, r, x, g) && q != r
      ensures Compatible(t.sp[q].pte[x], t.sp[r].pte[x])
    {
      assert Maps(s, q, x, g) && Maps(s, r, x, g);
    }
  }

  lemma FreshClean(sp: Space, v: nat, fc: Frame, f3: Frame, f0: Frame, w: nat)
    requires |sp.pte| == NPAGES && |sp.pde| == 1024 && UserPage(v) && v != STACK_0 && v != STACK_3 && w < NPAGES
    requires FreshSpace(sp, v, fc, f3, f0)
    ensures CleanEntry(w, sp.pte[w])
  {}

  lemma TempSet(sp: Space, e: Entry, w: nat)
    requires |sp.pte| == NPAGES && |sp.pde| == 1024 && w < NPAGES
    ensures SetEntry(sp, TEMP, e).pte[w] == if w == TEMP then e else sp.pte[w]
    ensures !e.p ==> CleanEntry(TEMP, e)
  {}

  lemma LoadedClean(s: Vm, t: Vm, p: Pid, c: Pid, v: nat, fc: Frame, f3: Frame, f0: Frame, e: Entry)
    requires Shape(s) && Local(s) && Shape(t) && Loaded(s, t, p, c, v, fc, f3, f0, e)
    ensures CleanEntries(t)
  {
    hide FreshSpace, NoStrays, Free, SetEntry, CleanEntry;
    forall q, w | q in t.sp && 0 <= w < NPAGES
      ensures CleanEntry(w, t.sp[q].pte[w])
    {
      if q == c {
        FreshClean(t.sp[c], v, fc, f3, f0, w);
      } else if q == p {
        TempSet(s.sp[p], e, w);
        assert CleanEntry(w, s.sp[p].pte[w]);
      } else {
        assert t.sp[q] == s.sp[q];
      }
    }
  }

  lemma LoadedStacks(s: Vm, t: Vm, p: Pid, c: Pid, v: nat, fc: Frame, f3: Frame, f0: Frame, e: Entry)
    requires Shape(s) && Local(s) && Shape(t) && Loaded(s, t, p, c, v, fc, f3, f0, e)
    ensures Stacks(t)
  {
    forall q <- t.sp | q != 0 ensures t.sp[q].pte[STACK_3].p && t.sp[q].pte[STACK_0].p {
      if q != c && q != p { assert t.sp[q] == s.sp[q]; }
    }
  }

  lemma LoadedNoStrays(s: Vm, t: Vm, p: Pid, c: Pid, v: nat, fc: Frame, f3: Frame, f0: Frame, e: Entry)
    requires Shape(s) && NoStrays(s) && Shape(t) && Loaded(s, t, p, c, v, fc, f3, f0, e)
    ensures NoStrays(t)
  {
    forall q, w | q in t.sp && 0 <= w < NPAGES && t.sp[q].pde[w / 1024] != Table
      ensures t.sp[q].pte[w] == ZERO
    {
      if q != c && q != p { assert t.sp[q] == s.sp[q]; }
    }
  }

  lemma SpawnInv(s: Vm, p: Pid, c: Pid, v: nat, fc: Frame, f3: Frame, f0: Frame, code: Page, k0: Page)
    requires Inv(s) && Enabled(s, Spawn(p, c, v, fc, f3, f0, code, k0)) && !s.sp[p].pte[TEMP].p
    ensures Inv(VirtualMemory.Spawn(s, p, c, v, fc, f3, f0, code, k0))
  {
    var t, e := VirtualMemory.Spawn(s, p, c, v, fc, f3, f0, code, k0), TempLeft(fc, true);
    SpawnLoaded(s, p, c, v, fc, f3, f0, code, k0);
    LoadedClean(s, t, p, c, v, fc, f3, f0, e);
    LoadedStacks(s, t, p, c, v, fc, f3, f0, e);
    LoadedNoStrays(s, t, p, c, v, fc, f3, f0, e);
    LoadedExact(s, t, p, c, v, fc, f3, f0, e);
    FreeUnmapped(s, fc);
    FreeUnmapped(s, f3);
    FreeUnmapped(s, f0);
    LoadedAgree(s, t, p, c, v, fc, f3, f0, e);
  }

  // Every safe step keeps the invariant.
  lemma StepInv(s: Vm, e: Event)
    requires Inv(s) && Enabled(s, e) && Safe(s, e)
    ensures Inv(Step(s, e))
  {
    match e
    case Fork(p, c, f3, f0, k0) => BackedAt(s, p, STACK_3); ForkInv(s, p, c, f3, f0, k0);
    case Spawn(p, c, v, fc, f3, f0, code, k0) => SpawnInv(s, p, c, v, fc, f3, f0, code, k0);
    case Read(p, v, off, f) => BackedAt(s, p, v); TouchInv(s, p, v, f, NoPage(), false);
    case Write(p, v, off, b, f, k) =>
      BackedAt(s, p, v);
      TouchInv(s, p, v, f, k, true);
      var t := Touch(s, p, v, f, k, true);
      BackedAt(t, p, v);
      StoreInv(t, p, v, off, b);
    case Palloc(p) => PallocInv(s, p);
    case Share(p, v) => ShareInvExactly(s, p, v);
    case Exit(p) => ExitInv(s, p);
  }

  // ---------------------------------------------------------------- runs

  // Every event of the run is enabled and safe when its turn comes.
  ghost predicate Runs(s: Vm, es: seq<Event>)
    requires Inv(s)
    decreases |es|
  {
    if es == [] then true else Enabled(s, es[0]) && Safe(s, es[0]) && (StepInv(s, es[0]); Runs(Step(s, es[0]), es[1..]))
  }

  ghost function Run(s: Vm, es: seq<Event>): (t: Vm)
    requires Inv(s) && Runs(s, es)
    ensures Shape(t)
    decreases |es|
  {
    if es == [] then s else (StepInv(s, es[0]); Run(Step(s, es[0]), es[1..]))
  }

  // The invariant holds after any run.
  lemma {:induction false} RunInv(s: Vm, es: seq<Event>)
    requires Inv(s) && Runs(s, es)
    ensures Inv(Run(s, es))
    decreases |es|
  {
    if es != [] {
      StepInv(s, es[0]);
      RunInv(Step(s, es[0]), es[1..]);
    }
  }

  // The state mm_init and loader_init leave: the idle task's directory, no user frame in use.
  // low is physical page 0 as the boot leaves it.
  ghost function Boot(ram: seq<Page>, low: seq<Entry>): (s: Vm)
    requires CleanLow(low, |ram|)
    ensures Inv(s)
  {
    BootInv(ram, low);
    Vm(map[0 := NoSpace()], {}, ram, low, Fine)
  }

  lemma BootInv(ram: seq<Page>, low: seq<Entry>)
    requires CleanLow(low, |ram|)
    ensures Inv(Vm(map[0 := NoSpace()], {}, ram, low, Fine))
  {
    assert forall p, v, f :: !Maps(Vm(map[0 := NoSpace()], {}, ram, low, Fine), p, v, f);
  }

  // In every state of every run the user frames in use are exactly those that some live
  // directory maps, and a frame that two live directories map without sharing is
  // read-only and copy-on-write in both, at the same page.
  lemma RunKeeps(ram: seq<Page>, low: seq<Entry>, es: seq<Event>, p: Pid, v: nat, q: Pid, w: nat, f: Frame)
    requires CleanLow(low, |ram|) && Runs(Boot(ram, low), es)
    ensures var s := Run(Boot(ram, low), es);
      && (f in s.used <==> Mapped(s, f))
      && (Maps(s, p, v, f) && Maps(s, q, w, f) && p != q ==>
           v == w && (s.sp[p].pte[v].sh <==> s.sp[q].pte[v].sh) &&
           (!s.sp[p].pte[v].sh ==> s.sp[p].pte[v].cow && !s.sp[p].pte[v].rw && s.sp[q].pte[v].cow && !s.sp[q].pte[v].rw))
  {
    RunInv(Boot(ram, low), es);
    var s := Run(Boot(ram, low), es);
    if Maps(s, p, v, f) && Maps(s, q, w, f) && p != q {
      assert Compatible(s.sp[p].pte[v], s.sp[q].pte[v]);
      assert Compatible(s.sp[q].pte[v], s.sp[p].pte[v]);
    }
  }
}
