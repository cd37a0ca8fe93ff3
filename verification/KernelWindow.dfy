// Where the kernel reaches into user memory: its window at KERNEL_TEMP_PAGE, and its own
// stores into user pages. When each of them keeps memory right, and a run that does not.
module KernelWindow {
  import opened PageEntries
  import opened VirtualMemory
  import opened VmInvariant
  import opened CowRefinement

  // Frame f has a mapping other than that of p at the window.
  ghost predicate MappedElsewhere(s: Vm, p: Pid, f: Frame)
    requires Shape(s)
  {
    exists q, w :: Maps(s, q, w, f) && (q != p || w != TEMP)
  }

  // ---------------------------------------------------------------- loads

  // A load leaves the frames in use the mapped ones exactly when its caller had no page at
  // the window, or the frame of that page is mapped elsewhere.
  lemma LoadKeepsExactly(s: Vm, p: Pid, c: Pid, v: nat, fc: Frame, f3: Frame, f0: Frame, code: Page, k0: Page)
    requires Shape(s) && Exact(s) && Enabled(s, Spawn(p, c, v, fc, f3, f0, code, k0))
    ensures var t, e := VirtualMemory.Spawn(s, p, c, v, fc, f3, f0, code, k0), s.sp[p].pte[TEMP];
      Shape(t) && (Exact(t) <==> !e.p || MappedElsewhere(s, p, e.base))
  {
    var t, e := VirtualMemory.Spawn(s, p, c, v, fc, f3, f0, code, k0), s.sp[p].pte[TEMP];
    LoadMaps(s, t, p, c, v, fc, f3, f0, code, k0);
    hide VirtualMemory.Spawn, Maps;
    forall g ensures Mapped(t, g) <==> g == fc || g == f3 || g == f0 || (exists q, w :: Maps(s, q, w, g) && (q != p || w != TEMP)) {
      if g == fc { assert Maps(t, c, v, g); }
      if g == f3 { assert Maps(t, c, STACK_3, g); }
      if g == f0 { assert Maps(t, c, STACK_0, g); }
      if exists q, w :: Maps(s, q, w, g) && (q != p || w != TEMP) {
        var q, w :| Maps(s, q, w, g) && (q != p || w != TEMP);
        assert Maps(t, q, w, g);
      }
      if Mapped(t, g) { var q, w :| Maps(t, q, w, g); }
    }
    WindowFrame(s, t, p, {fc, f3, f0});
  }

  lemma LoadMaps(s: Vm, t: Vm, p: Pid, c: Pid, v: nat, fc: Frame, f3: Frame, f0: Frame, code: Page, k0: Page)
    requires Shape(s) && Exact(s) && Enabled(s, Spawn(p, c, v, fc, f3, f0, code, k0))
    requires t == VirtualMemory.Spawn(s, p, c, v, fc, f3, f0, code, k0)
    ensures Shape(t) && t.used == s.used + {fc, f3, f0} && |t.ram| == |s.ram|
    ensures forall q, w, g :: Maps(t, q, w, g) <==>
      if q == c then (w == STACK_3 && g == f3) || (w == STACK_0 && g == f0) || (w == v && g == fc)
      else Maps(s, q, w, g) && (q != p || w != TEMP)
  {
    ChildIsFresh(v, fc, f3, f0);
    forall q: Pid, w: nat, g: Frame
      ensures q != c ==> (Maps(t, q, w, g) <==> Maps(s, q, w, g) && (q != p || w != TEMP))
    {
      if q == p && w < NPAGES && q != c { TempSet(s.sp[p], TempLeft(fc, true), w); }
    }
  }

  // If t has the mappings of s but for that of p at the window, and those of new frames.
  lemma WindowFrame(s: Vm, t: Vm, p: Pid, fresh_: set<Frame>)
    requires Shape(s) && Shape(t) && Exact(s) && p in s.sp && |t.ram| == |s.ram|
    requires t.used == s.used + fresh_ && forall g <- fresh_ :: Free(s, g)
    requires forall g :: Mapped(t, g) <==> g in fresh_ || MappedElsewhere(s, p, g)
    ensures Exact(t) <==> !s.sp[p].pte[TEMP].p || MappedElsewhere(s, p, s.sp[p].pte[TEMP].base)
  {
    var e := s.sp[p].pte[TEMP];
    forall g ensures Mapped(s, g) <==> MappedElsewhere(s, p, g) || (e.p && e.base == g) {
      if e.p && e.base == g { assert Maps(s, p, TEMP, g); }
      if Mapped(s, g) {
        var q, w :| Maps(s, q, w, g);
      }
    }
  }

  // ---------------------------------------------------------------- copies

  // So does the copy that resolves a write to another page, whose old frame others map.
  lemma CopyKeepsExactly(s: Vm, p: Pid, v: nat, f: Frame, k: Page)
    requires Shape(s) && Exact(s) && OneHome(s) && p in s.sp && v < NPAGES && HasTable(s, p, v) && v != TEMP && Free(s, f)
    requires s.sp[p].pte[v].p && (exists q :: q != p && Maps(s, q, v, s.sp[p].pte[v].base))
    ensures s.sp[p].pte[v].base < |s.ram|
    ensures var t, e := CopyTo(s, p, v, f, k), s.sp[p].pte[TEMP];
      Exact(t) <==> !e.p || MappedElsewhere(s, p, e.base)
  {
    var base := s.sp[p].pte[v].base;
    assert Maps(s, p, v, base);
    assert Mapped(s, base);
    var t := CopyTo(s, p, v, f, k);
    var other :| other != p && Maps(s, other, v, base);
    CopyMaps(s, t, p, v, f, k);
    hide CopyTo, Maps, OneHome;
    forall g ensures Mapped(t, g) <==> g == f || MappedElsewhere(s, p, g) {
      if g == f { assert Maps(t, p, v, g); }
      if Mapped(t, g) {
        var q, w :| Maps(t, q, w, g);
        if q != p || w != v { assert Maps(s, q, w, g) && (q != p || w != TEMP); }
      }
      if MappedElsewhere(s, p, g) {
        var q, w :| Maps(s, q, w, g) && (q != p || w != TEMP);
        if q == p && w == v {
          SameFrame(s, p, v, g, base);
          assert Maps(t, other, v, g);
        } else {
          assert Maps(t, q, w, g);
        }
      }
    }
    WindowFrame(s, t, p, {f});
  }

  lemma SameFrame(s: Vm, p: Pid, v: nat, f: Frame, g: Frame)
    requires Shape(s) && Maps(s, p, v, f) && Maps(s, p, v, g)
    ensures f == g
  {}

  lemma CopyMaps(s: Vm, t: Vm, p: Pid, v: nat, f: Frame, k: Page)
    requires Shape(s) && p in s.sp && v < NPAGES && HasTable(s, p, v) && v != TEMP && f < |s.ram| && s.sp[p].pte[v].base < |s.ram|
    requires t == CopyTo(s, p, v, f, k)
    ensures Shape(t) && t.used == s.used + {f} && |t.ram| == |s.ram|
    ensures forall q, w, g :: Maps(t, q, w, g) <==>
      if q == p && w == v then g == f else Maps(s, q, w, g) && (q != p || w != TEMP)
  {
    forall q: Pid, w: nat, g: Frame
      ensures Maps(t, q, w, g) <==> if q == p && w == v then g == f else Maps(s, q, w, g) && (q != p || w != TEMP)
    {
      if q == p && w < NPAGES { TempSet(s.sp[p], TempLeft(f, false), w); }
    }
  }

  // ---------------------------------------------------------------- forks

  // A fork shows the processes what eager copying would exactly when the parent had no page
  // at the window: the kernel takes that page from it.
  lemma ForkKeepsExactly(s: Vm, m: Eager, p: Pid, c: Pid, f3: Frame, f0: Frame, k0: Page)
    requires Inv(s) && Refines(s, m) && Enabled(s, Fork(p, c, f3, f0, k0))
    ensures s.sp[p].pte[STACK_3].base < |s.ram|
    ensures var t := VirtualMemory.Fork(s, p, c, f3, f0, k0);
      Shape(t) && (Refines(t, Do(m, Copy(p, c))) <==> !s.sp[p].pte[TEMP].p)
  {
    BackedAt(s, p, STACK_3);
    assert s.sp[p].pte[STACK_3].p;
    if s.sp[p].pte[TEMP].p {
      ForkTakesWindow(s, p, c, f3, f0, k0);
      SlotKept(m, Copy(p, c), p);
      hide Inv, Do, VirtualMemory.Fork;
      WindowLost(s, m, VirtualMemory.Fork(s, p, c, f3, f0, k0), Do(m, Copy(p, c)), p);
    } else {
      ForkRefines(s, m, p, c, f3, f0, k0);
    }
  }

  // ---------------------------------------------------------------- sharing the window

  // What the window left behind carries a frame number (mm.c:209), and mm_times_mapped
  // counts it. So a page at the window that was marked shared is given back at exit exactly
  // when no other process has that number left there.
  lemma SharedWindowExactly(s: Vm, p: Pid)
    requires Inv(s) && p in s.sp && s.sp[p].pte[TEMP].p
    ensures var f, t := s.sp[p].pte[TEMP].base, VirtualMemory.Exit(VirtualMemory.Share(s, p, TEMP), p);
      (f in t.used <==> Counted(s, f, TEMP) != {p}) && !Mapped(t, f)
  {
    var e, u := s.sp[p].pte[TEMP], VirtualMemory.Share(s, p, TEMP);
    assert CleanEntry(TEMP, e);
    OwnedAt(s, p, TEMP);
    assert Maps(s, p, TEMP, e.base) && Mapped(s, e.base);
    assert s.sp[p].pde[TEMP / 1024] == Table;
    assert u.sp[p].pte[TEMP] == e.(sh := true);
    assert Counted(u, e.base, TEMP) == Counted(s, e.base, TEMP);
    assert p in Counted(s, e.base, TEMP);
    if |Counted(s, e.base, TEMP)| == 1 { SingletonIs(Counted(s, e.base, TEMP), p); }
    var t := VirtualMemory.Exit(u, p);
    forall q: Pid, w: nat ensures !Maps(t, q, w, e.base) { assert !Maps(s, q, w, e.base) || q == p; }
    assert Released(u, p, TEMP) <==> Counted(s, e.base, TEMP) == {p};
    forall w: nat | w < NPAGES && w != TEMP && Released(u, p, w) ensures u.sp[p].pte[w].base != e.base {
      assert Maps(s, p, w, u.sp[p].pte[w].base);
    }
  }

  // ---------------------------------------------------------------- a run that loses a frame

  // The event leaves frame f in use with nobody mapping it.
  ghost predicate Loses(s: Vm, e: Event, f: Frame) {
    Inv(s) && Enabled(s, e) && var t := Step(s, e); Shape(t) && f in t.used && !Mapped(t, f)
  }

  // A load by a process with a page at the window loses the frame of that page.
  lemma LoadLoses(s: Vm, p: Pid, c: Pid, v: nat, fc: Frame, f3: Frame, f0: Frame, code: Page, k0: Page)
    requires Inv(s) && Enabled(s, Spawn(p, c, v, fc, f3, f0, code, k0)) && s.sp[p].pte[TEMP].p
    ensures Loses(s, Spawn(p, c, v, fc, f3, f0, code, k0), s.sp[p].pte[TEMP].base)
  {
    var t, f := VirtualMemory.Spawn(s, p, c, v, fc, f3, f0, code, k0), s.sp[p].pte[TEMP].base;
    assert Maps(s, p, TEMP, f) && Mapped(s, f);
    LoadMaps(s, t, p, c, v, fc, f3, f0, code, k0);
    hide VirtualMemory.Spawn;
    OwnedAt(s, p, TEMP);
    forall q: Pid, w: nat ensures !Maps(t, q, w, f) {
      if q == p && Maps(s, q, w, f) { assert w == TEMP; }
    }
  }

  // The event is allowed and safe, and leads from s to t.
  ghost predicate Does(s: Vm, e: Event, t: Vm) { Inv(s) && Enabled(s, e) && Safe(s, e) && t == Step(s, e) && Inv(t) }

  // The first loaded program.
  function FirstProgram(code: Page, k0: Page): Event {
    Spawn(0, 1, USR_FIRST, USR_FIRST, USR_FIRST + 1, USR_FIRST + 2, code, k0)
  }

  lemma FirstLoad(ram: seq<Page>, low: seq<Entry>, code: Page, k0: Page) returns (s: Vm)
    requires CleanLow(low, |ram|) && |ram| >= USR_FIRST + 3
    ensures Does(Boot(ram, low), FirstProgram(code, k0), s)
    ensures Shape(s) && 1 in s.sp && 2 !in s.sp && 3 !in s.sp && !s.sp[1].pte[TEMP].p
    ensures |s.ram| == |ram| && s.status == Fine && forall g <- s.used :: g < USR_FIRST + 3
  {
    var b, e := Boot(ram, low), FirstProgram(code, k0);
    StepInv(b, e);
    s := Step(b, e);
    assert s.sp[1] == SpawnSpace(USR_FIRST, USR_FIRST, USR_FIRST + 1, USR_FIRST + 2);
  }

  // A fork or load on free frames at the end of memory.
  lemma CanFork(s: Vm, p: Pid, c: Pid, f: Frame, k0: Page)
    requires Shape(s) && p in s.sp && p != 0 && c !in s.sp && s.status != Halted && |s.ram| >= f + 2
    requires f >= USR_FIRST && forall g <- s.used :: g < f
    ensures Enabled(s, Fork(p, c, f, f + 1, k0))
  {}

  lemma CanLoad(s: Vm, p: Pid, c: Pid, f: Frame, code: Page, k0: Page)
    requires Shape(s) && p in s.sp && c !in s.sp && s.status != Halted && |s.ram| >= f + 3
    requires f >= USR_FIRST && forall g <- s.used :: g < f
    ensures Enabled(s, Spawn(p, c, USR_FIRST, f, f + 1, f + 2, code, k0))
  {}

  // The events of a run one after the other.
  lemma ThreeEvents(s0: Vm, a: Event, b: Event, c: Event, s1: Vm, s2: Vm, s3: Vm)
    requires Inv(s0) && Does(s0, a, s1) && Does(s1, b, s2) && Does(s2, c, s3)
    ensures Runs(s0, [a, b, c]) && Run(s0, [a, b, c]) == s3
  {
    hide Inv, Enabled, Safe, Step;
    assert [c][1..] == [] && [b, c][1..] == [c] && [a, b, c][1..] == [b, c];
    assert Runs(s3, []) && Run(s3, []) == s3;
    assert Runs(s2, [c]) && Run(s2, [c]) == s3;
    assert Runs(s1, [b, c]) && Run(s1, [b, c]) == s3;
  }

  // What a fork leaves.
  lemma AnyFork(s: Vm, p: Pid, c: Pid, f3: Frame, f0: Frame, k0: Page) returns (t: Vm)
    requires Inv(s) && Enabled(s, Fork(p, c, f3, f0, k0)) && !s.sp[p].pte[TEMP].p
    ensures Does(s, Fork(p, c, f3, f0, k0), t)
    ensures Shape(t) && (forall q: Pid :: q in t.sp <==> q in s.sp || q == c) && |t.ram| == |s.ram| && t.status == s.status
    ensures forall g: Frame :: g in t.used <==> g in s.used || g == f3 || g == f0
    ensures HasTable(t, p, TEMP) && t.sp[p].pte[TEMP] == TempLeft(f3, false)
  {
    var e := Fork(p, c, f3, f0, k0);
    StepInv(s, e);
    BackedAt(s, p, STACK_3);
    ForkLeaves(s, p, c, f3, f0, k0);
    hide Inv, ForkParent, ForkChild, HasTable;
    t := Step(s, e);
  }

  lemma ForkLeaves(s: Vm, p: Pid, c: Pid, f3: Frame, f0: Frame, k0: Page)
    requires Shape(s) && p in s.sp && c !in s.sp && f3 < |s.ram| && f0 < |s.ram| && s.sp[p].pte[STACK_3].base < |s.ram|
    ensures var t := VirtualMemory.Fork(s, p, c, f3, f0, k0);
      && Shape(t) && (forall q: Pid :: q in t.sp <==> q in s.sp || q == c) && |t.ram| == |s.ram| && t.status == s.status
      && (forall g: Frame :: g in t.used <==> g in s.used || g == f3 || g == f0)
      && HasTable(t, p, TEMP) && t.sp[p].pte[TEMP] == TempLeft(f3, false)
  {
    assert ForkParent(s.sp[p], f3).pte[TEMP] == TempLeft(f3, false) && ForkParent(s.sp[p], f3).pde[TOP_TABLE] == Table;
  }

  // The window reads as requested after a use.
  lemma WindowRead(s: Vm, p: Pid, g: Frame, f: Frame) returns (t: Vm)
    requires Inv(s) && p in s.sp && p != 0 && s.status != Halted && HasTable(s, p, TEMP) && s.sp[p].pte[TEMP] == TempLeft(g, false)
    requires Free(s, f)
    ensures Does(s, Read(p, TEMP, 0, f), t)
    ensures Shape(t) && (forall q: Pid :: q in t.sp <==> q in s.sp) && |t.ram| == |s.ram| && t.status == s.status
    ensures (forall x: Frame :: x in t.used <==> x in s.used || x == f) && p in t.sp && t.sp[p].pte[TEMP] == UserEntry(f)
  {
    var e := Read(p, TEMP, 0, f);
    BackedAt(s, p, TEMP);
    StepInv(s, e);
    TouchIs(s, p, TEMP, f, NoPage(), false);
    GrantLeaves(s, p, TEMP, f);
    hide Inv, Touch, Grant;
    t := Step(s, e);
  }

  lemma GrantLeaves(s: Vm, p: Pid, v: nat, f: Frame)
    requires Shape(s) && p in s.sp && USR_FIRST <= v < NPAGES
    ensures var t := Grant(s, p, v, f);
      && (forall q: Pid :: q in t.sp <==> q in s.sp) && (forall x: Frame :: x in t.used <==> x in s.used || x == f)
      && t.sp[p].pte[v] == UserEntry(f) && |t.ram| == |s.ram| && t.status == s.status
  {}

  // A load, a fork, and a read at the window, which the fork left requested.
  function WindowRun(code: Page, k0: Page): seq<Event> {
    [FirstProgram(code, k0), Fork(1, 2, USR_FIRST + 3, USR_FIRST + 4, k0), Read(1, TEMP, 0, USR_FIRST + 5)]
  }

  // Process 1 has the page that the read was given at the window; frames from top on are free.
  ghost predicate AtWindow(s: Vm, top: nat) {
    Inv(s) && 1 in s.sp && 3 !in s.sp && |s.ram| >= top + 3 && s.status == Fine
    && top > 0 && s.sp[1].pte[TEMP] == UserEntry(top - 1) && forall g <- s.used :: g < top
  }

  // Process 1 is loaded and has nothing at the window; frames from f on are free.
  ghost predicate AtStart(s: Vm, f: Frame) {
    Inv(s) && 1 in s.sp && 2 !in s.sp && 3 !in s.sp && !s.sp[1].pte[TEMP].p && s.status == Fine
    && f >= USR_FIRST && |s.ram| >= f + 6 && forall g <- s.used :: g < f
  }

  // It has forked: the window was used, and process 3 is still to come.
  ghost predicate AtFork(s: Vm, f: Frame) {
    Inv(s) && 1 in s.sp && 3 !in s.sp && s.status == Fine && HasTable(s, 1, TEMP)
    && f >= USR_FIRST && s.sp[1].pte[TEMP] == TempLeft(f - 2, false) && |s.ram| >= f + 4 && forall g <- s.used :: g < f
  }

  lemma ForkAtStart(s: Vm, f: Frame, k0: Page) returns (t: Vm)
    requires AtStart(s, f)
    ensures Does(s, Fork(1, 2, f, f + 1, k0), t) && AtFork(t, f + 2)
  {
    CanFork(s, 1, 2, f, k0);
    hide Inv, Enabled;
    t := AnyFork(s, 1, 2, f, f + 1, k0);
  }

  lemma ReadAtFork(s: Vm, f: Frame) returns (t: Vm)
    requires AtFork(s, f)
    ensures Does(s, Read(1, TEMP, 0, f), t) && AtWindow(t, f + 1)
  {
    assert Free(s, f);
    hide Inv, Enabled;
    t := WindowRead(s, 1, f - 2, f);
  }

  lemma WindowRuns(ram: seq<Page>, low: seq<Entry>, code: Page, k0: Page)
    requires CleanLow(low, |ram|) && |ram| >= USR_FIRST + 9
    ensures Runs(Boot(ram, low), WindowRun(code, k0)) && AtWindow(Run(Boot(ram, low), WindowRun(code, k0)), USR_FIRST + 6)
  {
    var s1 := FirstLoad(ram, low, code, k0);
    assert AtStart(s1, USR_FIRST + 3);
    hide Inv, AtStart, AtFork, Does, Boot, Runs, Run, AtWindow, CleanLow;
    var s2 := ForkAtStart(s1, USR_FIRST + 3, k0);
    var s3 := ReadAtFork(s2, USR_FIRST + 5);
    var es := WindowRun(code, k0);
    ThreeEvents(Boot(ram, low), es[0], es[1], es[2], s1, s2, s3);
    assert es == [es[0], es[1], es[2]];
  }

  // The next load takes the page at the window, and its frame stays in use with nobody
  // mapping it.
  lemma WindowRunLoses(ram: seq<Page>, low: seq<Entry>, code: Page, k0: Page)
    requires CleanLow(low, |ram|) && |ram| >= USR_FIRST + 9
    ensures Runs(Boot(ram, low), WindowRun(code, k0))
    ensures Loses(Run(Boot(ram, low), WindowRun(code, k0)),
                  Spawn(1, 3, USR_FIRST, USR_FIRST + 6, USR_FIRST + 7, USR_FIRST + 8, code, k0), USR_FIRST + 5)
  {
    WindowRuns(ram, low, code, k0);
    var s := Run(Boot(ram, low), WindowRun(code, k0));
    hide Inv, Enabled, Loses, Runs, Run, WindowRun;
    CanLoad(s, 1, 3, USR_FIRST + 6, code, k0);
    LoadLoses(s, 1, 3, USR_FIRST, USR_FIRST + 6, USR_FIRST + 7, USR_FIRST + 8, code, k0);
  }

  // ---------------------------------------------------------------- stores by the kernel

  // A store by the kernel into a present page: with CR0.WP clear neither a read-only nor a
  // copy-on-write entry stops it (pipe.c:128, con.c:59).
  ghost function KernelStore(s: Vm, p: Pid, v: nat, off: nat, b: bv8): Vm
    requires Shape(s) && p in s.sp && v < NPAGES && off < PAGE_SIZE && s.sp[p].pte[v].base < |s.ram|
  {
    var e := s.sp[p].pte[v];
    s.(ram := s.ram[e.base := s.ram[e.base][off := b]])
  }

  // It is the write of that byte by the process exactly when the page is not copy-on-write,
  // has one mapper, or holds the byte already.
  lemma KernelStoreExactly(s: Vm, m: Eager, p: Pid, v: nat, off: nat, b: bv8)
    requires Inv(s) && Refines(s, m) && p in s.sp && v < NPAGES && off < PAGE_SIZE && s.sp[p].pte[v].p && s.sp[p].pte[v].us
    ensures s.sp[p].pte[v].base < |s.ram|
    ensures var e, t := s.sp[p].pte[v], KernelStore(s, p, v, off, b);
      Shape(t) && (Refines(t, Do(m, Put(p, v, off, b))) <==>
        !e.cow || |Counted(s, e.base, v)| == 1 || s.ram[e.base][off] == b)
  {
    BackedAt(s, p, v);
    var e, t, n := s.sp[p].pte[v], KernelStore(s, p, v, off, b), Do(m, Put(p, v, off, b));
    assert CleanEntry(v, e);
    if !e.cow {
      assert t == Store(s, p, v, off, b);
      StoreRefines(s, m, p, v, off, b);
    } else {
      PageShown(s, m, p, v);
      assert Maps(s, p, v, e.base);
      if s.ram[e.base][off] == b {
        SameByte(s, t, m, p, v, off, b);
      } else if |Counted(s, e.base, v)| == 1 {
        CountedOne(s, p, v, e.base);
        OwnStore(s, t, m, p, v, off, b);
      } else {
        var q := CountedMore(s, p, v, e.base);
        StoreSeen(s, t, m, p, v, off, b, q);
      }
    }
  }

  lemma SameByte(s: Vm, t: Vm, m: Eager, p: Pid, v: nat, off: nat, b: bv8)
    requires Shape(s) && Refines(s, m) && p in s.sp && v < NPAGES && off < PAGE_SIZE
    requires var e := s.sp[p].pte[v]; e.p && e.us && !e.sh && e.base < |s.ram| && s.ram[e.base][off] == b
    requires t == KernelStore(s, p, v, off, b)
    ensures Refines(t, Do(m, Put(p, v, off, b)))
  {
    var e := s.sp[p].pte[v];
    assert Shows(s.ram, m.cells, e, m.spaces[p][v]);
    assert s.ram[e.base][off := b] == s.ram[e.base] && s.ram[e.base := s.ram[e.base]] == s.ram;
    SetSlotSame(m, p, v);
  }

  lemma OwnStore(s: Vm, t: Vm, m: Eager, p: Pid, v: nat, off: nat, b: bv8)
    requires Shape(s) && OneHome(s) && Refines(s, m) && p in s.sp && v < NPAGES && off < PAGE_SIZE
    requires var e := s.sp[p].pte[v]; e.p && e.us && !e.sh && e.base < |s.ram| && forall q, w :: Maps(s, q, w, e.base) ==> q == p
    requires t == KernelStore(s, p, v, off, b)
    ensures Refines(t, Do(m, Put(p, v, off, b)))
  {
    var e, n := s.sp[p].pte[v], Do(m, Put(p, v, off, b));
    assert Shows(s.ram, m.cells, e, m.spaces[p][v]);
    PutSlots(m, p, v, off, b);
    assert Maps(s, p, v, e.base);
    forall q: Pid, w: nat | q in t.sp && w < NPAGES
      ensures Shows(t.ram, n.cells, t.sp[q].pte[w], n.spaces[q][w])
    {
      assert Shows(s.ram, m.cells, s.sp[q].pte[w], m.spaces[q][w]);
      if q != p || w != v { assert !Maps(s, q, w, e.base); }
    }
  }

  lemma StoreSeen(s: Vm, t: Vm, m: Eager, p: Pid, v: nat, off: nat, b: bv8, q: Pid)
    requires Shape(s) && Refines(s, m) && p in s.sp && q in s.sp && q != p && v < NPAGES && off < PAGE_SIZE
    requires var e, d := s.sp[p].pte[v], s.sp[q].pte[v];
      e.p && e.us && !e.sh && d.p && d.us && !d.sh && d.base == e.base < |s.ram| && s.ram[e.base][off] != b
    requires t == KernelStore(s, p, v, off, b)
    ensures !Refines(t, Do(m, Put(p, v, off, b)))
  {
    var e, n := s.sp[p].pte[v], Do(m, Put(p, v, off, b));
    assert Shows(s.ram, m.cells, e, m.spaces[p][v]) && Shows(s.ram, m.cells, s.sp[q].pte[v], m.spaces[q][v]);
    PutSlots(m, p, v, off, b);
    assert n.spaces[q][v] == m.spaces[q][v] == Private(s.ram[e.base]);
    assert t.ram[e.base][off] == b;
    assert !Shows(t.ram, n.cells, t.sp[q].pte[v], n.spaces[q][v]);
  }

  // ---------------------------------------------------------------- physical page 0

  // An access below 4 MB never completes. It keeps the invariant exactly when the word of
  // physical page 0 behind it takes no frame.
  lemma LowKeepsExactly(s: Vm, p: Pid, v: nat, f: Frame, k: Page, write: bool)
    requires Inv(s) && CanTouch(s, p, v, f, write) && v < USR_FIRST
    ensures Backed(s, p, v, Protection(s, p, v, write)) && !Touch(s, p, v, f, k, write).sp[p].pte[v].p
    ensures TakesFrame(s, p, v, write) <==>
      if s.low[v].p then write && s.low[v].cow && |Counted(s, s.low[v].base, v)| != 1 else s.low[v].Requested()
    ensures Inv(Touch(s, p, v, f, k, write)) <==> !TakesFrame(s, p, v, write)
  {
    assert CleanEntry(v, s.sp[p].pte[v]);
    if TakesFrame(s, p, v, write) {
      LowFrameLost(s, p, v, f, k, write);
    } else {
      LowTouchIs(s, p, v, f, k, write);
      SameTablesInv(s, Touch(s, p, v, f, k, write));
    }
  }

  // The vector of interrupt 19h in physical page 0, F000:E6F2, as a page-table word: absent
  // and requested, and naming no frame below 2 GB.
  lemma BiosVector()
    ensures var e := EntryOf(0xF000_E6F2); !e.p && e.Requested() && e.base == 0xF_000E
  {}

  // With it in place the first stray fault at a page with table index 25 is served, and the
  // invariant survives.
  lemma BiosVectorServes(s: Vm, p: Pid, v: nat, f: Frame)
    requires Inv(s) && p in s.sp && p != 0 && v < NPAGES && Stray(s, p, v) && v % 1024 == 25 && s.status == Fine && Free(s, f)
    requires s.low[25] == EntryOf(0xF000_E6F2)
    ensures Enabled(s, Read(p, v, 0, f)) && Safe(s, Read(p, v, 0, f))
    ensures Step(s, Read(p, v, 0, f)) == Grant(s, p, v, f).(status := Panicked) && Inv(Step(s, Read(p, v, 0, f)))
  {
    BiosVector();
    hide EntryOf;
    assert s.sp[p].pte[v] == ZERO;
    StrayServedExactly(s, p, v, f, NoPage(), false);
    StepInv(s, Read(p, v, 0, f));
  }
}
