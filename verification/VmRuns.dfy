// Whole runs on the tables: any sequence of calls by any processes, each of them switched
// to first, carries out a run of VmInvariant, so what is proved of runs holds of the tables.
module VmRuns {
  import opened PageEntries
  import opened VirtualMemory
  import opened VmInvariant
  import opened CowRefinement
  import opened PageWords
  import Tables
  import FM = FrameMaps
  import M = Mm

  // What processes ask for. The events of VmInvariant also say which frames were taken.
  datatype Call =
    | CFork(p: Pid, c: Pid, k0: Page)
    | CLoad(p: Pid, c: Pid, v: nat, code: Page, k0: Page)
    | CRead(p: Pid, v: nat, off: nat)
    | CWrite(p: Pid, v: nat, off: nat, b: bv8, k: Page)
    | CPalloc(p: Pid)
    | CShare(p: Pid, v: nat)
    | CExit(p: Pid)

  // What can be called while the machine runs, in a task table of maxPid entries.
  ghost predicate Possible(s: Vm, c: Call, maxPid: nat)
    requires Shape(s)
  {
    s.status != Halted && c.p in s.sp && (c.CLoad? || c.p != 0) &&
    match c
    case CFork(_, q, _) => q !in s.sp && q < maxPid
    case CLoad(_, q, v, _, _) => q !in s.sp && q < maxPid && UserPage(v) && v != STACK_0 && v != STACK_3
    case CRead(_, v, off) => v < NPAGES && off < PAGE_SIZE
    case CWrite(_, v, off, _, _) => v < NPAGES && off < PAGE_SIZE
    case CPalloc(_) => true
    case CShare(_, v) => v < NPAGES
    case CExit(_) => true
  }

  // The calls that are safe, whatever frames they take.
  ghost predicate Harmless(s: Vm, c: Call)
    requires Shape(s) && exists maxPid :: Possible(s, c, maxPid)
  {
    match c
    case CFork(p, _, _) => !s.sp[p].pte[TEMP].p
    case CLoad(p, _, _, _, _) => !s.sp[p].pte[TEMP].p
    case CRead(p, v, _) => SafeTouch(s, p, v, false)
    case CWrite(p, v, _, _, _) => SafeTouch(s, p, v, true)
    case CPalloc(_) => true
    case CShare(p, v) => SafeShare(s, p, v)
    case CExit(_) => true
  }

  // What the runs contain.
  ghost predicate Asked(s: Vm, c: Call, maxPid: nat)
    requires Shape(s)
  {
    Possible(s, c, maxPid) && Harmless(s, c)
  }

  // A call is harmless exactly when the event that carries it out is safe.
  lemma HarmlessIsSafe(s: Vm, c: Call, e: Event, maxPid: nat)
    requires Shape(s) && Possible(s, c, maxPid) && Matches(c, e) && Enabled(s, e)
    ensures Harmless(s, c) <==> Safe(s, e)
  {}

  // The event is that call.
  predicate Matches(c: Call, e: Event) {
    match e
    case Fork(p, q, _, _, k0) => c == CFork(p, q, k0)
    case Spawn(p, q, v, _, _, _, code, k0) => c == CLoad(p, q, v, code, k0)
    case Read(p, v, off, _) => c == CRead(p, v, off)
    case Write(p, v, off, b, _, k) => c == CWrite(p, v, off, b, k)
    case Palloc(p) => c == CPalloc(p)
    case Share(p, v) => c == CShare(p, v)
    case Exit(p) => c == CExit(p)
  }

  // The machine between two calls: the tables are in order and stand for the state s, which
  // has the invariant, and the idle task is there to switch to.
  ghost predicate Sound(m: M.Mm, s: Vm)
    reads m, m.lines, m.kernelMap.words, m.usrMap.words
  {
    Inv(s) && 0 in s.sp && m.Valid() && m.Abs() == s
  }

  // The event e is the call c, allowed in state s, and leads to t with seen returned.
  ghost predicate Carried(s: Vm, t: Vm, c: Call, e: Event, seen: seq<Seen>)
    requires Inv(s)
  {
    Matches(c, e) && Enabled(s, e) && t == Step(s, e) && seen == Observed(s, e)
  }

  // The frames a call needs.
  ghost function Needs(s: Vm, c: Call): M.Frames
    requires Shape(s) && exists maxPid :: Possible(s, c, maxPid)
  {
    match c
    case CFork(p, _, _) => M.ForkNeeds(s, p)
    case CLoad(p, _, v, _, _) => M.LoadNeeds(s, p, v)
    case CRead(p, v, _) => M.AccessNeeds(s, p, v, false)
    case CWrite(p, v, _, _, _) => M.AccessNeeds(s, p, v, true)
    case _ => M.Frames(0, 0)
  }

  // There are as many.
  ghost predicate Affords(s: Vm, c: Call, had: M.Frames) {
    Shape(s) && (exists maxPid :: Possible(s, c, maxPid)) && Needs(s, c).kernel <= had.kernel && Needs(s, c).user <= had.user
  }

  lemma PaidAffords(s: Vm, c: Call, maxPid: nat, had: M.Frames, have: M.Frames, ok: bool)
    requires Shape(s) && Possible(s, c, maxPid) && M.Paid(had, have, Needs(s, c), ok)
    ensures ok <==> Affords(s, c, had)
  {}

  lemma ForkAffords(s: Vm, p: Pid, c: Pid, k0: Page, maxPid: nat, had: M.Frames, have: M.Frames, ok: bool)
    requires Shape(s) && Possible(s, CFork(p, c, k0), maxPid) && M.ForkPaid(s, p, had, have, ok)
    ensures ok <==> Affords(s, CFork(p, c, k0), had)
  {
    PaidAffords(s, CFork(p, c, k0), maxPid, had, have, ok);
  }

  lemma LoadAffords(s: Vm, p: Pid, c: Pid, v: nat, code: Page, k0: Page, maxPid: nat, had: M.Frames, have: M.Frames, ok: bool)
    requires Shape(s) && Possible(s, CLoad(p, c, v, code, k0), maxPid) && M.LoadPaid(s, p, v, had, have, ok)
    ensures ok <==> Affords(s, CLoad(p, c, v, code, k0), had)
  {
    PaidAffords(s, CLoad(p, c, v, code, k0), maxPid, had, have, ok);
  }

  lemma AccessAffords(s: Vm, c: Call, maxPid: nat, had: M.Frames, have: M.Frames, ok: bool)
    requires Shape(s) && Possible(s, c, maxPid) && (c.CRead? || c.CWrite?) && M.AccessPaid(s, c.p, c.v, c.CWrite?, had, have, ok)
    ensures ok <==> Affords(s, c, had)
  {
    PaidAffords(s, c, maxPid, had, have, ok);
  }

  // What the invariant says of the tables.
  lemma InUse(m: M.Mm, s: Vm, p: Pid, v: nat)
    requires Sound(m, s) && p in s.sp && v < NPAGES
    ensures m.Live(p) && s.sp[p].pte[v] == Tables.PteAt(m.lines.mem, m.cr3[p], v)
    ensures s.sp[p].pte[v].p ==> s.sp[p].pte[v].base in m.usrMap.Frames()
  {
    if s.sp[p].pte[v].p { assert Maps(s, p, v, s.sp[p].pte[v].base); }
  }

  lemma Unregistered(m: M.Mm, s: Vm, p: Pid)
    requires Sound(m, s) && p !in s.sp
    ensures !m.Live(p)
  {}

  // ---------------------------------------------------------------- calls as events

  lemma ForkCarried(s: Vm, t: Vm, p: Pid, c: Pid, f3: Frame, f0: Frame, k0: Page, maxPid: nat)
    requires Inv(s) && Possible(s, CFork(p, c, k0), maxPid) && M.ForkedAs(s, t, p, c, f3, f0, k0)
    ensures Carried(s, t, CFork(p, c, k0), Fork(p, c, f3, f0, k0), [])
  {}

  lemma LoadCarried(s: Vm, t: Vm, p: Pid, c: Pid, v: nat, fc: Frame, f3: Frame, f0: Frame, code: Page, k0: Page, maxPid: nat)
    requires Inv(s) && Possible(s, CLoad(p, c, v, code, k0), maxPid) && M.LoadedAs(s, t, p, c, v, fc, f3, f0, code, k0)
    ensures Carried(s, t, CLoad(p, c, v, code, k0), Spawn(p, c, v, fc, f3, f0, code, k0), [])
  {}

  lemma ReadCarried(s: Vm, t: Vm, p: Pid, v: nat, off: nat, f: Frame, seen: Seen, maxPid: nat)
    requires Inv(s) && Possible(s, CRead(p, v, off), maxPid) && M.ReadAs(s, t, p, v, off, f, seen)
    ensures Carried(s, t, CRead(p, v, off), Read(p, v, off, f), [seen])
  {
    hide Touch, TakesFrame;
  }

  lemma WriteCarried(s: Vm, t: Vm, p: Pid, v: nat, off: nat, b: bv8, f: Frame, k: Page, maxPid: nat)
    requires Inv(s) && Possible(s, CWrite(p, v, off, b, k), maxPid) && M.StoredAs(s, t, p, v, off, b, f, k)
    ensures Carried(s, t, CWrite(p, v, off, b, k), Write(p, v, off, b, f, k), [])
  {
    hide Touch, TakesFrame;
  }

  lemma RestCarried(s: Vm, c: Call, maxPid: nat)
    requires Inv(s) && Possible(s, c, maxPid)
    ensures c.CPalloc? ==> Carried(s, VirtualMemory.Palloc(s, c.p), c, Palloc(c.p), [])
    ensures c.CShare? ==> Carried(s, VirtualMemory.Share(s, c.p, c.v), c, Share(c.p, c.v), [])
    ensures c.CExit? ==> Carried(s, VirtualMemory.Exit(s, c.p), c, Exit(c.p), [])
  {}

  // ---------------------------------------------------------------- calls on the tables

  lemma ForkReady(m: M.Mm, s: Vm, p: Pid, c: Pid, k0: Page)
    requires Sound(m, s) && m.Running(p) && Possible(s, CFork(p, c, k0), |m.cr3|)
    ensures m.Valid() && Inv(s) && Shape(s) && s == m.Abs() && p != 0 && 0 < c < |m.cr3| && m.cr3[c] == 0 && m.cur < USR_FIRST
    ensures Tables.PteAt(m.lines.mem, m.cur, STACK_3).base in m.usrMap.Frames()
  {
    HasStack(s, p);
    InUse(m, s, p, STACK_3);
    Unregistered(m, s, c);
  }

  method DoFork(m: M.Mm, ghost s: Vm, ghost had: M.Frames, p: Pid, c: Pid, k0: Page) returns (ok: bool, ghost e: Event)
    requires Sound(m, s) && had == m.Unused() && m.Running(p) && Possible(s, CFork(p, c, k0), |m.cr3|)
    modifies m`own, m`ram, m`cr3, m.lines, m.kernelMap.words, m.usrMap.words
    ensures ok ==> m.Valid() && Carried(s, m.Abs(), CFork(p, c, k0), e, [])
    ensures |m.cr3| == |old(m.cr3)| && (!ok ==> m.OutOfMemory())
    ensures ok <==> Affords(s, CFork(p, c, k0), had)
  {
    hide *;
    var f3, f0;
    ghost var maxPid := |m.cr3|;
    ForkReady(m, s, p, c, k0);
    ok, f3, f0 := m.SysFork(p, c, k0);
    ForkAffords(s, p, c, k0, maxPid, had, m.Unused(), ok);
    e := Fork(p, c, f3, f0, k0);
    if ok { ForkCarried(s, m.Abs(), p, c, f3, f0, k0, maxPid); }
  }

  lemma HasStack(s: Vm, p: Pid)
    requires Inv(s) && p in s.sp && p != 0
    ensures s.sp[p].pte[STACK_3].p
  {}

  lemma LoadReady(m: M.Mm, s: Vm, p: Pid, c: Pid, v: nat, code: Page, k0: Page)
    requires Sound(m, s) && m.Running(p) && Possible(s, CLoad(p, c, v, code, k0), |m.cr3|)
    ensures m.Valid() && Inv(s) && Shape(s) && s == m.Abs() && 0 < c < |m.cr3| && m.cr3[c] == 0
    ensures UserPage(v) && v != STACK_0 && v != STACK_3
  {
    Unregistered(m, s, c);
  }

  method DoLoad(m: M.Mm, ghost s: Vm, ghost had: M.Frames, p: Pid, c: Pid, v: nat, code: Page, k0: Page) returns (ok: bool, ghost e: Event)
    requires Sound(m, s) && had == m.Unused() && m.Running(p) && Possible(s, CLoad(p, c, v, code, k0), |m.cr3|)
    modifies m`own, m`ram, m`cr3, m.lines, m.kernelMap.words, m.usrMap.words
    ensures ok ==> m.Valid() && Carried(s, m.Abs(), CLoad(p, c, v, code, k0), e, [])
    ensures |m.cr3| == |old(m.cr3)| && (!ok ==> m.OutOfMemory())
    ensures ok <==> Affords(s, CLoad(p, c, v, code, k0), had)
  {
    hide *;
    var fc, f3, f0;
    ghost var maxPid := |m.cr3|;
    LoadReady(m, s, p, c, v, code, k0);
    ok, fc, f3, f0 := m.LoaderLoad(p, c, v, code, k0);
    LoadAffords(s, p, c, v, code, k0, maxPid, had, m.Unused(), ok);
    e := Spawn(p, c, v, fc, f3, f0, code, k0);
    if ok { LoadCarried(s, m.Abs(), p, c, v, fc, f3, f0, code, k0, maxPid); }
  }

  // What the tables need for an access.
  lemma AccessReady(m: M.Mm, s: Vm, c: Call)
    requires Sound(m, s) && m.Running(c.p) && Possible(s, c, |m.cr3|) && (c.CRead? || c.CWrite?)
    ensures m.Valid() && Inv(s) && Shape(s) && s == m.Abs() && c.p != 0 && c.v < NPAGES && c.off < PAGE_SIZE && m.cur < USR_FIRST
    ensures var e := Tables.PteAt(m.lines.mem, m.cur, c.v); e.p ==> e.base in m.usrMap.Frames()
  {
    InUse(m, s, c.p, c.v);
  }

  method DoRead(m: M.Mm, ghost s: Vm, ghost had: M.Frames, p: Pid, v: nat, off: nat) returns (ok: bool, ghost e: Event, seen: seq<Seen>)
    requires Sound(m, s) && had == m.Unused() && m.Running(p) && Possible(s, CRead(p, v, off), |m.cr3|)
    modifies m`own, m`ram, m`low, m`status, m.lines, m.kernelMap.words, m.usrMap.words
    ensures ok ==> m.Valid() && Carried(s, m.Abs(), CRead(p, v, off), e, seen)
    ensures !ok ==> m.OutOfMemory()
    ensures ok <==> Affords(s, CRead(p, v, off), had)
  {
    hide *;
    var b, f;
    ghost var maxPid := |m.cr3|;
    AccessReady(m, s, CRead(p, v, off));
    ok, b, f := m.UserRead(p, v, off);
    ghost var have := m.Unused();
    AccessAffords(s, CRead(p, v, off), maxPid, had, have, ok);
    e, seen := Read(p, v, off, f), [b];
    if ok {
      ghost var t := m.Abs();
      ReadCarried(s, t, p, v, off, f, b, maxPid);
    }
  }

  method DoWrite(m: M.Mm, ghost s: Vm, ghost had: M.Frames, p: Pid, v: nat, off: nat, b: bv8, k: Page) returns (ok: bool, ghost e: Event)
    requires Sound(m, s) && had == m.Unused() && m.Running(p) && Possible(s, CWrite(p, v, off, b, k), |m.cr3|)
    modifies m`own, m`ram, m`low, m`status, m.lines, m.kernelMap.words, m.usrMap.words
    ensures ok ==> m.Valid() && Carried(s, m.Abs(), CWrite(p, v, off, b, k), e, [])
    ensures !ok ==> m.OutOfMemory()
    ensures ok <==> Affords(s, CWrite(p, v, off, b, k), had)
  {
    hide *;
    var f;
    ghost var maxPid := |m.cr3|;
    AccessReady(m, s, CWrite(p, v, off, b, k));
    ok, f := m.UserStore(p, v, off, b, k);
    AccessAffords(s, CWrite(p, v, off, b, k), maxPid, had, m.Unused(), ok);
    e := Write(p, v, off, b, f, k);
    if ok { WriteCarried(s, m.Abs(), p, v, off, b, f, k, maxPid); }
  }

  lemma RestReady(m: M.Mm, s: Vm, c: Call)
    requires Sound(m, s) && m.Running(c.p) && Possible(s, c, |m.cr3|) && (c.CPalloc? || c.CShare? || c.CExit?)
    ensures m.Valid() && Inv(s) && Shape(s) && s == m.Abs() && c.p in s.sp && c.p != 0 && m.Live(0)
    ensures c.p < |m.cr3| && m.cr3[c.p] == m.cur < USR_FIRST && m.Live(c.p)
    ensures c.CPalloc? ==> Carried(s, VirtualMemory.Palloc(s, c.p), c, Palloc(c.p), [])
    ensures c.CShare? ==> c.v < NPAGES && Carried(s, VirtualMemory.Share(s, c.p, c.v), c, Share(c.p, c.v), [])
    ensures c.CExit? ==> Carried(s, VirtualMemory.Exit(s, c.p), c, Exit(c.p), [])
    ensures forall v: nat | v < NPAGES && Tables.PteAt(m.lines.mem, m.cur, v).p :: Tables.PteAt(m.lines.mem, m.cur, v).base in m.usrMap.Frames()
  {
    RestCarried(s, c, |m.cr3|);
    forall v: nat | v < NPAGES && Tables.PteAt(m.lines.mem, m.cur, v).p ensures Tables.PteAt(m.lines.mem, m.cur, v).base in m.usrMap.Frames() {
      InUse(m, s, c.p, v);
    }
    InUse(m, s, 0, 0);
  }

  // The calls that need no frame.
  method DoRest(m: M.Mm, ghost s: Vm, c: Call) returns (ghost e: Event)
    requires Sound(m, s) && m.Running(c.p) && Possible(s, c, |m.cr3|) && (c.CPalloc? || c.CShare? || c.CExit?)
    modifies m, m.lines, m.kernelMap.words, m.usrMap.words
    ensures m.Valid() && Carried(s, m.Abs(), c, e, [])
    ensures |m.cr3| == |old(m.cr3)|
  {
    hide *;
    RestReady(m, s, c);
    match c
    case CPalloc(p) =>
      var v := m.SysPalloc(p);
      e := Palloc(p);
    case CShare(p, v) =>
      m.SharePage(p, v);
      e := Share(p, v);
    case CExit(p) =>
      // Whose directory runs next does not matter: every call switches first.
      m.SwitchToExit(p, 0);
      e := Exit(p);
  }

  lemma RestAffords(m: M.Mm, s: Vm, c: Call, had: M.Frames)
    requires Sound(m, s) && Possible(s, c, |m.cr3|) && (c.CPalloc? || c.CShare? || c.CExit?)
    ensures Affords(s, c, had)
  {
    PaidAffords(s, c, |m.cr3|, had, had, true);
  }

  // Any possible call of the process whose directory is in CR3, safe or not.
  method Dispatch(m: M.Mm, ghost s: Vm, ghost had: M.Frames, c: Call) returns (ok: bool, ghost e: Event, seen: seq<Seen>)
    requires Sound(m, s) && had == m.Unused() && m.Running(c.p) && Possible(s, c, |m.cr3|)
    modifies m, m.lines, m.kernelMap.words, m.usrMap.words
    ensures ok ==> m.Valid() && Carried(s, m.Abs(), c, e, seen)
    ensures |m.cr3| == |old(m.cr3)| && (!ok ==> m.OutOfMemory())
    ensures ok <==> Affords(s, c, had)
  {
    hide *;
    seen := [];
    match c
    case CFork(p, q, k0) => ok, e := DoFork(m, s, had, p, q, k0);
    case CLoad(p, q, v, code, k0) => ok, e := DoLoad(m, s, had, p, q, v, code, k0);
    case CRead(p, v, off) => ok, e, seen := DoRead(m, s, had, p, v, off);
    case CWrite(p, v, off, b, k) => ok, e := DoWrite(m, s, had, p, v, off, b, k);
    case _ =>
      RestAffords(m, s, c, had);
      ok := true;
      e := DoRest(m, s, c);
  }

  method SwitchTo(m: M.Mm, ghost s: Vm, p: Pid)
    requires Sound(m, s) && p in s.sp
    modifies m
    ensures Sound(m, s) && m.Running(p) && m.cr3 == old(m.cr3)
  {
    InUse(m, s, p, 0);
    hide Inv, M.Mm.Valid;
    m.SwitchTo(p);
  }

  // ---------------------------------------------------------------- whole runs

  // Switches to the caller and carries any possible call out on the tables, exactly if there
  // are frames for it; a harmless one leaves the machine in order.
  method Do(m: M.Mm, ghost s: Vm, c: Call) returns (ok: bool, ghost e: Event, seen: seq<Seen>)
    requires Sound(m, s) && Possible(s, c, |m.cr3|)
    modifies m, m.lines, m.kernelMap.words, m.usrMap.words
    ensures ok ==> m.Valid() && Carried(s, m.Abs(), c, e, seen)
    ensures ok && Harmless(s, c) ==> Safe(s, e) && Sound(m, Step(s, e))
    ensures |m.cr3| == |old(m.cr3)| && (!ok ==> m.OutOfMemory())
    ensures ok <==> Affords(s, c, old(m.Unused()))
  {
    ghost var maxPid, had := |m.cr3|, m.Unused();
    SwitchTo(m, s, c.p);
    hide Inv, Possible, Harmless, Safe, M.Mm.Valid, Affords, FM.Available;
    ok, e, seen := Dispatch(m, s, had, c);
    if ok {
      HarmlessIsSafe(s, c, e, maxPid);
      if Harmless(s, c) { IdleStays(s, e); }
    }
  }

  lemma IdleStays(s: Vm, e: Event)
    requires Inv(s) && 0 in s.sp && Enabled(s, e) && Safe(s, e)
    ensures Inv(Step(s, e)) && 0 in Step(s, e).sp
  {
    StepInv(s, e);
    hide Inv, Touch, TakesFrame, Counted;
  }

  lemma {:induction false} Append(s: Vm, es: seq<Event>, e: Event)
    requires Inv(s) && Runs(s, es) && Inv(VmInvariant.Run(s, es)) && Enabled(VmInvariant.Run(s, es), e) && Safe(VmInvariant.Run(s, es), e)
    ensures Runs(s, es + [e]) && VmInvariant.Run(s, es + [e]) == Step(VmInvariant.Run(s, es), e)
    ensures Observations(s, es + [e]) == Observations(s, es) + Observed(VmInvariant.Run(s, es), e)
    decreases |es|
  {
    hide Inv, Enabled, Safe, Step, Observed;
    if es == [] {
      assert ([e])[1..] == [];
      assert [] + [e] == [e];
      StepInv(s, e);
    } else {
      StepInv(s, es[0]);
      assert (es + [e])[1..] == es[1..] + [e];
      Append(Step(s, es[0]), es[1..], e);
    }
  }

  // Why a run of calls ended: all were carried out, the next one is impossible or not safe,
  // or an allocation failed.
  datatype Outcome = Done | NotAsked | NoMemory

  // The calls carried out so far are the events es.
  ghost predicate CarriedOut(s: Vm, cs: seq<Call>, es: seq<Event>, seen: seq<Seen>)
    requires Inv(s)
  {
    && |es| <= |cs| && (forall i | 0 <= i < |es| :: Matches(cs[i], es[i]))
    && Runs(s, es) && seen == Observations(s, es)
  }

  // And the tables stand for the state those events lead to.
  ghost predicate Reached(m: M.Mm, s: Vm, cs: seq<Call>, es: seq<Event>, seen: seq<Seen>)
    requires Inv(s)
    reads m, m.lines, m.kernelMap.words, m.usrMap.words
  {
    CarriedOut(s, cs, es, seen) && Sound(m, VmInvariant.Run(s, es))
  }

  // The next call is impossible or not safe.
  ghost predicate Barred(m: M.Mm, s: Vm, cs: seq<Call>, es: seq<Event>)
    requires Inv(s) && Runs(s, es)
    reads m
  {
    Inv(VmInvariant.Run(s, es)) && |es| < |cs| && !Asked(VmInvariant.Run(s, es), cs[|es|], |m.cr3|)
  }

  // How far a run of calls has come.
  ghost predicate Progress(m: M.Mm, s: Vm, cs: seq<Call>, es: seq<Event>, seen: seq<Seen>, r: Outcome)
    reads m, m.lines, m.kernelMap.words, m.usrMap.words
  {
    Inv(s) && if r == NoMemory then m.OutOfMemory() else Reached(m, s, cs, es, seen) && (r == NotAsked ==> Barred(m, s, cs, es))
  }

  // Every process saw, and sees, what it would on the machine that copies eagerly.
  ghost predicate SeenEagerly(s: Vm, es: seq<Event>, seen: seq<Seen>)
    requires Inv(s) && Runs(s, es)
  {
    forall g: Eager | Refines(s, g) ::
      Refines(VmInvariant.Run(s, es), CowRefinement.DoAll(g, Labels(s, es))) && seen == Seens(g, Labels(s, es))
  }

  lemma Eagerly(s: Vm, es: seq<Event>)
    requires Inv(s) && Runs(s, es)
    ensures SeenEagerly(s, es, Observations(s, es))
  {
    forall g: Eager | Refines(s, g)
      ensures Refines(VmInvariant.Run(s, es), CowRefinement.DoAll(g, Labels(s, es))) && Observations(s, es) == Seens(g, Labels(s, es))
    {
      CowRefinesEager(s, g, es);
    }
  }

  // The calls of any processes in any order, as far as they go: the tables carry out a run,
  // keep its invariant, and show every process what eager copying would show it.
  method DoAll(m: M.Mm, ghost s: Vm, cs: seq<Call>) returns (r: Outcome, ghost es: seq<Event>, seen: seq<Seen>)
    requires Sound(m, s)
    modifies m, m.lines, m.kernelMap.words, m.usrMap.words
    ensures r != NoMemory ==> Reached(m, s, cs, es, seen) && SeenEagerly(s, es, seen)
    ensures r == Done ==> |es| == |cs|
    ensures r == NotAsked ==> Barred(m, s, cs, es)
    ensures r == NoMemory ==> m.OutOfMemory()
  {
    hide Inv, Runs, VmInvariant.Run, Observations, SeenEagerly, Sound, Barred, M.Mm.OutOfMemory;
    InvOf(m, s);
    r, es, seen := AllCalls(m, s, cs);
    if r != NoMemory { Eagerly(s, es); }
  }

  lemma InvOf(m: M.Mm, s: Vm)
    requires Sound(m, s)
    ensures Inv(s)
  {}

  lemma Started(m: M.Mm, s: Vm, cs: seq<Call>)
    requires Sound(m, s)
    ensures Progress(m, s, cs, [], [], Done)
  {}

  // The loop over the calls.
  method AllCalls(m: M.Mm, ghost s: Vm, cs: seq<Call>) returns (r: Outcome, ghost es: seq<Event>, seen: seq<Seen>)
    requires Sound(m, s)
    modifies m, m.lines, m.kernelMap.words, m.usrMap.words
    ensures Progress(m, s, cs, es, seen, r) && (r == Done ==> |es| == |cs|)
  {
    hide *;
    es, seen, r := [], [], Done;
    Started(m, s, cs);
    var i := 0;
    while i < |cs| && r == Done
      invariant i == |es| <= |cs| && Progress(m, s, cs, es, seen, r)
      decreases |cs| - i, r == Done
    {
      var b;
      ghost var e;
      r, e, b := Next(m, s, cs, i, es, seen);
      if r == Done { es, seen, i := es + [e], seen + b, i + 1; }
    }
  }

  // One more call.
  method Next(m: M.Mm, ghost s: Vm, cs: seq<Call>, i: nat, ghost es: seq<Event>, ghost seen: seq<Seen>)
    returns (r: Outcome, ghost e: Event, b: seq<Seen>)
    requires i == |es| < |cs| && Progress(m, s, cs, es, seen, Done)
    modifies m, m.lines, m.kernelMap.words, m.usrMap.words
    ensures if r == Done then Progress(m, s, cs, es + [e], seen + b, r) else Progress(m, s, cs, es, seen, r)
  {
    hide Inv, Enabled, Safe, Step, Observed, Possible, Harmless, Runs, VmInvariant.Run, Observations, M.Mm.Valid, Affords, FM.Available;
    e, b := Palloc(cs[i].p), [];
    var asked := MayAsk(m, VmInvariant.Run(s, es), cs[i]);
    if !asked { return NotAsked, e, b; }
    var ok;
    ok, e, b := Do(m, VmInvariant.Run(s, es), cs[i]);
    if ok { Append(s, es, e); }
    r := if ok then Done else NoMemory;
  }

  // Whether the call is possible and safe.
  method MayAsk(m: M.Mm, ghost s: Vm, c: Call) returns (asked: bool)
    requires Sound(m, s)
    ensures asked <==> Asked(s, c, |m.cr3|)
  {
    var possible := IsPossible(m, s, c);
    if !possible { return false; }
    assert Possible(s, c, |m.cr3|);
    match c
    case CFork(p, _, _) => asked := WindowClear(m, s, p);
    case CLoad(p, _, _, _, _) => asked := WindowClear(m, s, p);
    case CRead(p, v, _) => asked := IsSafeTouch(m, s, p, v, false);
    case CWrite(p, v, _, _, _) => asked := IsSafeTouch(m, s, p, v, true);
    case CPalloc(_) => return true;
    case CShare(p, v) =>
      if v < USR_FIRST { return true; }
      var e := EntryAt(m, s, p, v);
      PresentHasTable(s, p, v);
      return e.p ==> e.us && !e.cow && v != TEMP;
    case CExit(_) => return true;
  }

  lemma PresentHasTable(s: Vm, p: Pid, v: nat)
    requires Inv(s) && p in s.sp && v < NPAGES
    ensures s.sp[p].pte[v].p ==> HasTable(s, p, v)
  {
    BackedAt(s, p, v);
  }

  method IsPossible(m: M.Mm, ghost s: Vm, c: Call) returns (possible: bool)
    requires Sound(m, s)
    ensures possible <==> Possible(s, c, |m.cr3|)
  {
    assert c.p in s.sp <==> c.p < |m.cr3| && m.cr3[c.p] != 0;
    if m.status == Halted || c.p >= |m.cr3| || m.cr3[c.p] == 0 || (c.p == 0 && !c.CLoad?) { return false; }
    match c
    case CFork(_, q, _) => return q < |m.cr3| && m.cr3[q] == 0;
    case CLoad(_, q, v, _, _) => return q < |m.cr3| && m.cr3[q] == 0 && UserPage(v) && v != STACK_0 && v != STACK_3;
    case CRead(_, v, off) => return v < NPAGES && off < PAGE_SIZE;
    case CWrite(_, v, off, _, _) => return v < NPAGES && off < PAGE_SIZE;
    case CPalloc(_) => return true;
    case CShare(_, v) => return v < NPAGES;
    case CExit(_) => return true;
  }

  method WindowClear(m: M.Mm, ghost s: Vm, p: Pid) returns (clear: bool)
    requires Sound(m, s) && p in s.sp
    ensures clear <==> !s.sp[p].pte[TEMP].p
  {
    var e := EntryAt(m, s, p, TEMP);
    clear := !e.p;
  }

  // Whether the access takes a frame it should not.
  method IsSafeTouch(m: M.Mm, ghost s: Vm, p: Pid, v: nat, write: bool) returns (safe: bool)
    requires Sound(m, s) && p in s.sp && v < NPAGES
    ensures safe <==> SafeTouch(s, p, v, write)
  {
    hide Inv, M.Mm.Valid, SafeTouch, Counted, TakesCopy, WordOf;
    var w := WordAt(m, s, p, v);
    var times := Times(m, s, v, w.base);
    var copies := write && w.p && w.cow && times != 1;
    TouchSafety(s, p, v, write, w, copies);
    if v < USR_FIRST { return !copies && (w.p || !w.Requested()); }
    var clear := WindowClear(m, s, p);
    var e := EntryAt(m, s, p, v);
    safe := clear || !copies || !e.p;
  }

  // mm_times_mapped for any frame.
  method Times(m: M.Mm, ghost s: Vm, v: nat, f: Frame) returns (times: nat)
    requires Sound(m, s) && v < NPAGES
    ensures times == |Counted(s, f, v)|
  {
    m.CountIsCounted(f, v);
    times := m.TimesMapped(f, v / 1024, v % 1024);
  }

  lemma TouchSafety(s: Vm, p: Pid, v: nat, write: bool, w: Entry, copies: bool)
    requires Inv(s) && p in s.sp && v < NPAGES && w == WordOf(s, p, v)
    requires copies <==> write && w.p && w.cow && |Counted(s, w.base, v)| != 1
    ensures SafeTouch(s, p, v, write) <==>
      if v < USR_FIRST then !copies && (w.p || !w.Requested()) else !s.sp[p].pte[TEMP].p || !copies || !s.sp[p].pte[v].p
  {
    assert CleanEntry(v, s.sp[p].pte[v]);
    BackedAt(s, p, v);
  }

  // The word of page v of process p.
  method WordAt(m: M.Mm, ghost s: Vm, p: Pid, v: nat) returns (e: Entry)
    requires Sound(m, s) && p in s.sp && v < NPAGES
    ensures e == WordOf(s, p, v)
  {
    InUse(m, s, p, v);
    m.WordIs(p, v);
    var d := m.lines.Get(m.cr3[p], v / 1024);
    e := m.lines.Get(d.base, v % 1024);
  }

  // The entry of page v of process p.
  method EntryAt(m: M.Mm, ghost s: Vm, p: Pid, v: nat) returns (e: Entry)
    requires Sound(m, s) && p in s.sp && USR_FIRST <= v < NPAGES
    ensures e == s.sp[p].pte[v]
  {
    InUse(m, s, p, v);
    m.WordIs(p, v);
    var d := m.lines.Get(m.cr3[p], v / 1024);
    if !d.p { return ZERO; }
    e := m.lines.Get(d.base, v % 1024);
  }

  lemma BootSeen(ram: seq<Page>, low: seq<Entry>, es: seq<Event>, seen: seq<Seen>)
    requires CleanLow(low, |ram|) && Runs(Boot(ram, low), es) && SeenEagerly(Boot(ram, low), es, seen)
    ensures seen == Seens(EagerBoot(), Labels(Boot(ram, low), es))
  {
    BootRefines(ram, low);
  }

  // From the boot on: mm_init and loader_init, then the calls. `page` is physical page 0.
  method Session(maxPid: nat, words: nat, limit: nat, page: WordLine, contents: seq<Page>, cs: seq<Call>)
    returns (m: M.Mm, r: Outcome, ghost es: seq<Event>, seen: seq<Seen>)
    requires 0 < maxPid && 0 < words && limit <= words && |contents| == USR_FIRST + 32 * words <= M.TOP_FRAME
    requires CleanLow(LineOf(page), |contents|)
    ensures r != NoMemory ==> Reached(m, Boot(contents, LineOf(page)), cs, es, seen)
    ensures r == Done ==> |es| == |cs|
    ensures r == NotAsked ==> Barred(m, Boot(contents, LineOf(page)), cs, es)
    ensures r == NoMemory ==> m.OutOfMemory()
    ensures r != NoMemory ==> seen == Seens(EagerBoot(), Labels(Boot(contents, LineOf(page)), es))
  {
    m := new M.Mm(maxPid, words, limit, page, contents);
    ghost var s := Boot(contents, LineOf(page));
    assert Sound(m, s);
    hide *;
    r, es, seen := DoAll(m, s, cs);
    if r != NoMemory {
      assert Runs(s, es);
      BootSeen(contents, LineOf(page), es, seen);
    }
  }
}
