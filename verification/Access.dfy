// What an access gives to the process: when it completes, what a write leaves for the reads
// after it, and that a page returned by palloc is there when it is touched.
module Access {
  import opened PageEntries
  import opened VirtualMemory
  import opened VmInvariant
  import opened CowRefinement
  import P = Palloc

  // ---------------------------------------------------------------- one access

  // A page of p above 4 MB that is present for users, or owed.
  ghost predicate Reachable(s: Vm, p: Pid, v: nat)
    requires Shape(s) && p in s.sp && v < NPAGES
  {
    (s.sp[p].pte[v].p && s.sp[p].pte[v].us) || Due(s, p, v)
  }

  // Once its faults are handled an access is permitted exactly at a reachable page, be it a
  // read or a write. A page that was owed is then the frame taken for it.
  lemma CompletesExactly(s: Vm, p: Pid, v: nat, f: Frame, k: Page, write: bool)
    requires Inv(s) && p in s.sp && p != 0 && v < NPAGES && Free(s, f)
    ensures Backed(s, p, v, Protection(s, p, v, write))
    ensures var t := Touch(s, p, v, f, k, write);
      && (Permits(t.sp[p].pte[v], write) <==> Reachable(s, p, v))
      && (Due(s, p, v) ==> Maps(t, p, v, f) && t.used == s.used + {f} && t.ram == s.ram)
      && (Permits(s.sp[p].pte[v], write) ==> t == s)
  {
    BackedAt(s, p, v);
    if v < USR_FIRST {
      LowNeverPresent(s, p, v, f, k, write);
    } else {
      HighCompletes(s, p, v, f, k, write);
    }
  }

  lemma HighCompletes(s: Vm, p: Pid, v: nat, f: Frame, k: Page, write: bool)
    requires Inv(s) && CanTouch(s, p, v, f, write) && UserPage(v) && Backed(s, p, v, Protection(s, p, v, write))
    ensures var t := Touch(s, p, v, f, k, write);
      && (Permits(t.sp[p].pte[v], write) <==> Reachable(s, p, v))
      && (Due(s, p, v) ==> Maps(t, p, v, f) && t.used == s.used + {f} && t.ram == s.ram)
      && (Permits(s.sp[p].pte[v], write) ==> t == s)
  {
    hide Inv, Touch, TakesFrame, Counted, Backed, Protection;
    CleanAt(s, p, v);
    TouchIs(s, p, v, f, k, write);
    CopiedIsUsers(s, p, v);
  }

  // A page that a write copies is no ring 0 stack.
  lemma CopiedIsUsers(s: Vm, p: Pid, v: nat)
    requires Inv(s) && p in s.sp && v < NPAGES
    ensures var e := s.sp[p].pte[v]; e.p && e.cow && |Counted(s, e.base, v)| != 1 ==> e.us
  {
    var e := s.sp[p].pte[v];
    if e.p && e.cow && |Counted(s, e.base, v)| != 1 {
      assert CleanEntry(v, e);
      assert Maps(s, p, v, e.base);
      var q := CountedMore(s, p, v, e.base);
    }
  }

  lemma LowNeverPresent(s: Vm, p: Pid, v: nat, f: Frame, k: Page, write: bool)
    requires Inv(s) && CanTouch(s, p, v, f, write) && v < USR_FIRST && Backed(s, p, v, Protection(s, p, v, write))
    ensures !s.sp[p].pte[v].p && !Touch(s, p, v, f, k, write).sp[p].pte[v].p
  {
    assert CleanEntry(v, s.sp[p].pte[v]);
  }

  // A read by p of the same place returns the byte that its write left.
  lemma ReadsBack(s: Vm, p: Pid, v: nat, off: nat, b: bv8, f: Frame, k: Page, g: Frame)
    requires Inv(s) && Enabled(s, Write(p, v, off, b, f, k)) && Safe(s, Write(p, v, off, b, f, k)) && Free(s, f) && Reachable(s, p, v)
    ensures var t := Step(s, Write(p, v, off, b, f, k));
      && Inv(t) && Fetch(t, p, v, off) == Byte(b)
      && (Enabled(t, Read(p, v, off, g)) ==> Observed(t, Read(p, v, off, g)) == [Byte(b)])
  {
    var e := Write(p, v, off, b, f, k);
    var t := Step(s, e);
    StepInv(s, e);
    CompletesExactly(s, p, v, f, k, true);
    var u := Touch(s, p, v, f, k, true);
    BackedAt(s, p, v);
    TouchInv(s, p, v, f, k, true);
    BackedAt(u, p, v);
    assert t == Store(u, p, v, off, b);
    assert Permits(t.sp[p].pte[v], false);
  }

  // ---------------------------------------------------------------- what palloc promises

  // The page is present for users, or requested: its entry, or the directory entry it is the
  // first page of.
  ghost predicate Held(sp: Space, v: nat)
    requires P.Sized(sp)
  {
    v < NPAGES && match sp.pde[v / 1024]
                  case Table => if sp.pte[v].p then sp.pte[v].us else sp.pte[v].rw
                  case Asked => v % 1024 == 0
                  case Absent => false
  }

  lemma AnswerHeld(sp: Space)
    requires P.Sized(sp) && PallocPage(sp) < NPAGES
    ensures Held(AskPage(sp, PallocPage(sp)), PallocPage(sp))
  {
    P.LowestOpen(sp, PallocPage(sp));
  }

  lemma StaysHeld(sp: Space, m: P.Move, v: nat)
    requires P.Sized(sp) && P.Tidy(sp) && P.Allowed(sp, m) && Held(sp, v)
    ensures Held(P.After(sp, m), v)
  {
    if m.Ask? { ScanFree(sp, 1); }
  }

  lemma HeldIsReachable(s: Vm, p: Pid, v: nat)
    requires Inv(s) && p in s.sp && Held(s.sp[p], v) && UserPage(v)
    ensures Reachable(s, p, v)
  {}

  // A page once held stays held along any run, whatever other processes do, as long as its
  // process lives and touches nothing but the first page under a requested directory entry.
  lemma {:induction false} RunHolds(s: Vm, es: seq<Event>, p: Pid, v: nat)
    requires Inv(s) && Runs(s, es) && p in s.sp && p != 0 && P.AlwaysOnGrants(s, es, p) && Exit(p) !in es
    requires Held(s.sp[p], v)
    ensures var t := Run(s, es); Inv(t) && p in t.sp && Held(t.sp[p], v)
    decreases |es|
  {
    if es != [] {
      StepInv(s, es[0]);
      assert es[0] != Exit(p) && Exit(p) !in es[1..];
      StepHolds(s, es[0], p, v);
      hide Inv, Step, Enabled, Safe, Held;
      RunHolds(Step(s, es[0]), es[1..], p, v);
    }
  }

  lemma StepHolds(s: Vm, e: Event, p: Pid, v: nat)
    requires Inv(s) && Enabled(s, e) && Safe(s, e) && p in s.sp && p != 0 && P.OnGrants(s, e, p) && e != Exit(p) && Held(s.sp[p], v)
    ensures p in Step(s, e).sp && P.Sized(Step(s, e).sp[p]) && Held(Step(s, e).sp[p], v)
  {
    P.StepIsMove(s, e, p);
    var ms := P.MovesOf(s, e, p);
    if ms != [] { StaysHeld(s.sp[p], ms[0], v); }
  }

  // The page that palloc returned: whenever its process first touches it, and ever after, the
  // access completes.
  lemma AnswerServed(s: Vm, es: seq<Event>, p: Pid, f: Frame, k: Page, write: bool)
    requires Inv(s) && p in s.sp && p != 0 && PallocPage(s.sp[p]) < NPAGES && Exit(p) !in es
    requires (PallocInv(s, p); var t := VirtualMemory.Palloc(s, p);
      Runs(t, es) && P.AlwaysOnGrants(t, es, p) && Free(Run(t, es), f))
    ensures var t, v := VirtualMemory.Palloc(s, p), PallocPage(s.sp[p]);
      && Inv(t) && p in Run(t, es).sp && Backed(Run(t, es), p, v, Protection(Run(t, es), p, v, write))
      && Permits(Touch(Run(t, es), p, v, f, k, write).sp[p].pte[v], write)
  {
    var t, v := VirtualMemory.Palloc(s, p), PallocPage(s.sp[p]);
    PallocInv(s, p);
    AnswerHeld(s.sp[p]);
    RunHolds(t, es, p, v);
    HeldIsReachable(Run(t, es), p, v);
    CompletesExactly(Run(t, es), p, v, f, k, write);
  }

  // ---------------------------------------------------------------- forks

  // A child is owed nothing: what it holds of its parent is what was present there.
  lemma ChildHolds(sp: Space, f3: Frame, f0: Frame, v: nat)
    requires P.Sized(sp) && P.Tidy(sp) && sp.pde[TOP_TABLE] == Table && v < NPAGES
    ensures P.IsTaken(ForkChild(sp, f3, f0), v) <==> sp.pte[v].p || v == STACK_3 || v == STACK_0
    ensures P.IsTaken(sp, v) ==> P.IsTaken(ForkParent(sp, f3), v)
  {
    if v == STACK_3 || v == STACK_0 { assert v / 1024 == TOP_TABLE; }
  }

  // ---------------------------------------------------------------- new processes

  // Frame f, holding `page`, is where process c has page v; users see it or only the kernel.
  ghost predicate Has(s: Vm, c: Pid, v: nat, f: Frame, page: Page, us: bool) {
    Shape(s) && Maps(s, c, v, f) && f < |s.ram| && s.ram[f] == page && s.sp[c].pte[v].us == us
  }

  // A child starts with a copy of its parent's stack and the ring 0 stack built for it.
  lemma ForkStacks(s: Vm, p: Pid, c: Pid, f3: Frame, f0: Frame, k0: Page)
    requires Inv(s) && Enabled(s, Fork(p, c, f3, f0, k0))
    ensures s.sp[p].pte[STACK_3].base < |s.ram|
    ensures var t := Step(s, Fork(p, c, f3, f0, k0));
      Has(t, c, STACK_3, f3, s.ram[s.sp[p].pte[STACK_3].base], true) && Has(t, c, STACK_0, f0, k0, false)
  {
    BackedAt(s, p, STACK_3);
  }

  // A program starts with its code, an unused stack and the ring 0 stack built for it, and
  // nothing else.
  lemma LoadPages(s: Vm, p: Pid, c: Pid, v: nat, fc: Frame, f3: Frame, f0: Frame, code: Page, k0: Page)
    requires Inv(s) && Enabled(s, Spawn(p, c, v, fc, f3, f0, code, k0))
    ensures var t := Step(s, Spawn(p, c, v, fc, f3, f0, code, k0));
      && Has(t, c, v, fc, code, true) && Has(t, c, STACK_3, f3, s.ram[f3], true) && Has(t, c, STACK_0, f0, k0, false)
      && forall w, g :: Maps(t, c, w, g) ==> w == v || w == STACK_3 || w == STACK_0
  {}
}
