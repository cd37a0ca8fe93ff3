// sys_palloc never hands out a page twice: what happens to an address space between two
// calls keeps the pages handed out before taken.
module Palloc {
  import opened PageEntries
  import opened VirtualMemory
  import opened VmInvariant

  ghost predicate Sized(sp: Space) { |sp.pte| == NPAGES && |sp.pde| == 1024 }

  // No entry under a directory entry without a table.
  ghost predicate Tidy(sp: Space)
    requires Sized(sp)
  {
    forall v {:trigger sp.pte[v]} | 0 <= v < NPAGES :: sp.pde[v / 1024] != Table ==> sp.pte[v] == ZERO
  }

  // A page that is present, requested, or granted with its whole directory entry.
  ghost predicate IsTaken(sp: Space, v: nat)
    requires Sized(sp)
  {
    v < NPAGES && match sp.pde[v / 1024]
                  case Table => sp.pte[v].p || sp.pte[v].Requested()
                  case Asked => v % 1024 == 0
                  case Absent => false
  }

  // ---------------------------------------------------------------- one call

  // A page the search may answer with: the first page of a directory entry without table
  // and not requested, or a free entry of a table.
  ghost predicate Open(sp: Space, v: nat)
    requires Sized(sp)
  {
    v < NPAGES && match sp.pde[v / 1024]
                  case Table => !sp.pte[v].p && !sp.pte[v].Requested()
                  case Asked => false
                  case Absent => v % 1024 == 0
  }

  lemma {:induction false} ScanTableLowest(sp: Space, i: nat, v: nat)
    requires Sized(sp) && i < 1024 && 1024 * i <= v <= 1024 * (i + 1) && sp.pde[i] == Table
    ensures var r := ScanTable(sp.pte, v, 1024 * (i + 1));
      (r < 1024 * (i + 1) ==> Open(sp, r)) && forall w | v <= w < r :: !Open(sp, w)
    decreases 1024 * (i + 1) - v
  {
    if v < 1024 * (i + 1) {
      assert v / 1024 == i;
      if sp.pte[v].p || sp.pte[v].Requested() { ScanTableLowest(sp, i, v + 1); }
    }
  }

  lemma {:induction false} ScanLowest(sp: Space, i: nat)
    requires Sized(sp) && i <= 1024
    ensures var r := Scan(sp, i);
      (r < NPAGES ==> Open(sp, r)) && forall w | 1024 * i <= w < r :: !Open(sp, w)
    decreases 1024 - i
  {
    if i < 1024 {
      ScanLowest(sp, i + 1);
      assert 1024 * i / 1024 == i && 1024 * i % 1024 == 0;
      forall w | 1024 * i <= w < Scan(sp, i) ensures !Open(sp, w) {
        if w < 1024 * (i + 1) {
          assert w / 1024 == i;
          if sp.pde[i] == Table { ScanTableLowest(sp, i, 1024 * i); }
        }
      }
      if sp.pde[i] == Table { ScanTableLowest(sp, i, 1024 * i); }
    }
  }

  // The answer is the lowest open page from 4 MB on, and NULL exactly when there is none.
  lemma LowestOpen(sp: Space, v: nat)
    requires Sized(sp) && 1024 <= v <= NPAGES
    ensures PallocPage(sp) == v <==> (v < NPAGES ==> Open(sp, v)) && forall w | 1024 <= w < v :: !Open(sp, w)
  {
    ScanLowest(sp, 1);
  }

  // A call returns a page at or above 4 MB that was not taken, and takes it.
  lemma FreshAnswer(sp: Space)
    requires Sized(sp)
    ensures var v := PallocPage(sp);
      v < NPAGES ==> v * PAGE_SIZE >= 0x40_0000 && !IsTaken(sp, v) && IsTaken(AskPage(sp, v), v)
  {
    LowestOpen(sp, PallocPage(sp));
  }

  // A call returns NULL exactly when every directory entry is requested or has a full table.
  lemma NullExactly(sp: Space)
    requires Sized(sp)
    ensures PallocPage(sp) == NPAGES <==> forall k | 1 <= k < 1024 :: Full(sp, k)
  {
    LowestOpen(sp, NPAGES);
    forall k | 1 <= k < 1024 ensures (forall w | 1024 * k <= w < 1024 * (k + 1) :: !Open(sp, w)) <==> Full(sp, k) { FullExactly(sp, k); }
    if forall k | 1 <= k < 1024 :: Full(sp, k) {
      forall w: nat | 1024 <= w < NPAGES ensures !Open(sp, w) { assert Full(sp, w / 1024); }
    }
  }

  ghost predicate Full(sp: Space, k: nat)
    requires Sized(sp) && k < 1024
  {
    sp.pde[k] == Asked || (sp.pde[k] == Table && forall w | 1024 * k <= w < 1024 * (k + 1) :: sp.pte[w].p || sp.pte[w].Requested())
  }

  lemma FullExactly(sp: Space, k: nat)
    requires Sized(sp) && 1 <= k < 1024
    ensures (forall w | 1024 * k <= w < 1024 * (k + 1) :: !Open(sp, w)) <==> Full(sp, k)
  {
    assert forall w | 1024 * k <= w < 1024 * (k + 1) :: w / 1024 == k;
    assert 1024 * k % 1024 == 0;
    if sp.pde[k] == Absent { assert Open(sp, 1024 * k); }
    if sp.pde[k] == Table { assert forall w | 1024 * k <= w < 1024 * (k + 1) :: Open(sp, w) <==> !(sp.pte[w].p || sp.pte[w].Requested()); }
  }

  // The kernel's own page is an answer too, when nothing was ever mapped there and every
  // other page from 4 MB on is taken.
  lemma TempAnsweredExactly(sp: Space)
    requires Sized(sp) && sp.pde[TOP_TABLE] == Table
    ensures PallocPage(sp) == TEMP <==> !sp.pte[TEMP].p && !sp.pte[TEMP].Requested() && forall w | 1024 <= w < TEMP :: !Open(sp, w)
  {
    LowestOpen(sp, TEMP);
  }

  // ---------------------------------------------------------------- runs of moves

  // What can happen to the address space of a process while it lives: a palloc, a page
  // fault on a page granted to it or where it has no table, a fork, the two outcomes of a copy-on-write fault, a
  // page marked shared, a program loaded. The stacks keep a table at the top of the space.
  datatype Move =
    | Ask
    | Use(v: nat, f: Frame)
    | Split(f3: Frame)
    | Regain(v: nat)
    | Replace(v: nat, f: Frame)
    | Publish(v: nat)
    | Load(fc: Frame)

  ghost predicate Allowed(sp: Space, m: Move)
    requires Sized(sp)
  {
    match m
    case Ask => true
    case Use(v, _) => v < NPAGES && !sp.pte[v].p && (IsTaken(sp, v) || sp.pde[v / 1024] == Absent)
    case Split(_) => sp.pde[TOP_TABLE] == Table
    case Regain(v) => v < NPAGES && sp.pte[v].p
    case Replace(v, _) => v < NPAGES && v != TEMP && sp.pte[v].p && sp.pde[TOP_TABLE] == Table
    case Publish(v) => v < NPAGES && sp.pde[v / 1024] == Table
    case Load(_) => sp.pde[TOP_TABLE] == Table
  }

  ghost function After(sp: Space, m: Move): (r: Space)
    requires Sized(sp) && Allowed(sp, m)
    ensures Sized(r)
  {
    match m
    case Ask => AskPage(sp, PallocPage(sp))
    case Use(v, f) => SetEntry(sp, v, UserEntry(f))
    case Split(f3) => ForkParent(sp, f3)
    case Regain(v) => sp.(pte := sp.pte[v := sp.pte[v].(cow := false, rw := true)])
    case Replace(v, f) => Space(sp.pte[TEMP := TempLeft(f, false)][v := UserEntry(f)], sp.pde[TOP_TABLE := Table])
    case Publish(v) => sp.(pte := sp.pte[v := sp.pte[v].(sh := true)])
    case Load(fc) => SetEntry(sp, TEMP, TempLeft(fc, true))
  }

  lemma TidyAfter(sp: Space, m: Move)
    requires Sized(sp) && Tidy(sp) && Allowed(sp, m)
    ensures Tidy(After(sp, m))
  {
    if m.Ask? { AskPageChanges(sp); }
  }

  // Nothing that is taken is given up.
  lemma StaysTaken(sp: Space, m: Move, w: nat)
    requires Sized(sp) && Tidy(sp) && Allowed(sp, m) && IsTaken(sp, w)
    ensures IsTaken(After(sp, m), w)
  {
    if m.Ask? { ScanFree(sp, 1); }
  }

  ghost predicate AllAllowed(sp: Space, ms: seq<Move>)
    requires Sized(sp)
    decreases |ms|
  {
    ms == [] || (Allowed(sp, ms[0]) && AllAllowed(After(sp, ms[0]), ms[1..]))
  }

  // The pages the palloc calls of a run return; a NULL returns none.
  ghost function Answers(sp: Space, ms: seq<Move>): seq<nat>
    requires Sized(sp) && AllAllowed(sp, ms)
    decreases |ms|
  {
    if ms == [] then []
    else (if ms[0].Ask? && PallocPage(sp) < NPAGES then [PallocPage(sp)] else []) + Answers(After(sp, ms[0]), ms[1..])
  }

  lemma {:induction false} AnswersNotTaken(sp: Space, ms: seq<Move>, w: nat)
    requires Sized(sp) && Tidy(sp) && AllAllowed(sp, ms) && IsTaken(sp, w)
    ensures w !in Answers(sp, ms)
    decreases |ms|
  {
    if ms != [] {
      FreshAnswer(sp);
      TidyAfter(sp, ms[0]);
      StaysTaken(sp, ms[0], w);
      AnswersNotTaken(After(sp, ms[0]), ms[1..], w);
    }
  }

  // Over any run, no page is returned twice, and none that was present or requested before.
  lemma {:induction false} NeverTwice(sp: Space, ms: seq<Move>)
    requires Sized(sp) && Tidy(sp) && AllAllowed(sp, ms)
    ensures forall i, j | 0 <= i < j < |Answers(sp, ms)| :: Answers(sp, ms)[i] != Answers(sp, ms)[j]
    ensures forall v <- Answers(sp, ms) :: v * PAGE_SIZE >= 0x40_0000 && !IsTaken(sp, v)
    decreases |ms|
  {
    if ms != [] {
      var next, rest := After(sp, ms[0]), ms[1..];
      FreshAnswer(sp);
      TidyAfter(sp, ms[0]);
      NeverTwice(next, rest);
      forall v <- Answers(next, rest) ensures !IsTaken(sp, v) {
        if IsTaken(sp, v) { StaysTaken(sp, ms[0], v); }
      }
      if ms[0].Ask? && PallocPage(sp) < NPAGES { AnswersNotTaken(next, rest, PallocPage(sp)); }
    }
  }

  // ---------------------------------------------------------------- runs of the kernel

  // The move that an access with its fault makes on the space of the process.
  ghost function TouchMoves(s: Vm, p: Pid, v: nat, f: Frame, write: bool): (r: seq<Move>)
    requires Shape(s) && p in s.sp && v < NPAGES
    ensures |r| <= 1
  {
    var e := s.sp[p].pte[v];
    if Permits(e, write) || v < USR_FIRST then []
    else if Due(s, p, v) then [Use(v, f)]
    else if e.p && e.cow && write then (if |Counted(s, e.base, v)| == 1 then [Regain(v)] else [Replace(v, f)])
    else []
  }

  // The move that an event makes on the space of process p, if any.
  ghost function MovesOf(s: Vm, e: Event, p: Pid): (r: seq<Move>)
    requires Inv(s) && Enabled(s, e)
    ensures |r| <= 1 && (e.p != p ==> r == [])
  {
    if e.p != p then []
    else match e
      case Fork(_, _, f3, _, _) => [Split(f3)]
      case Spawn(_, _, _, fc, _, _, _, _) => [Load(fc)]
      case Read(_, v, _, f) => TouchMoves(s, p, v, f, false)
      case Write(_, v, _, _, f, _) => TouchMoves(s, p, v, f, true)
      case Palloc(_) => [Ask]
      case Share(_, v) => if HasTable(s, p, v) then [Publish(v)] else []
      case Exit(_) => []
  }

  // Process p does not touch a page beyond the first under a directory entry granted as a whole.
  ghost predicate OnGrants(s: Vm, e: Event, p: Pid)
    requires Inv(s) && Enabled(s, e)
  {
    e.p == p && (e.Read? || e.Write?) ==> s.sp[p].pde[e.v / 1024] == Asked ==> e.v % 1024 == 0
  }

  lemma TouchIsMove(s: Vm, p: Pid, v: nat, f: Frame, k: Page, write: bool)
    requires Inv(s) && CanTouch(s, p, v, f, write) && SafeTouch(s, p, v, write)
    requires s.sp[p].pde[v / 1024] == Asked ==> v % 1024 == 0
    requires Backed(s, p, v, Protection(s, p, v, write))
    ensures var ms := TouchMoves(s, p, v, f, write);
      if ms == [] then Touch(s, p, v, f, k, write).sp[p] == s.sp[p]
      else Allowed(s.sp[p], ms[0]) && Touch(s, p, v, f, k, write).sp[p] == After(s.sp[p], ms[0])
  {
    if v < USR_FIRST {
      LowTouchIs(s, p, v, f, k, write);
    } else {
      HighTouchIsMove(s, p, v, f, k, write);
    }
  }

  lemma HighTouchIsMove(s: Vm, p: Pid, v: nat, f: Frame, k: Page, write: bool)
    requires Inv(s) && CanTouch(s, p, v, f, write) && SafeTouch(s, p, v, write) && UserPage(v)
    requires s.sp[p].pde[v / 1024] == Asked ==> v % 1024 == 0
    requires Backed(s, p, v, Protection(s, p, v, write))
    ensures var ms := TouchMoves(s, p, v, f, write);
      if ms == [] then Touch(s, p, v, f, k, write).sp[p] == s.sp[p]
      else Allowed(s.sp[p], ms[0]) && Touch(s, p, v, f, k, write).sp[p] == After(s.sp[p], ms[0])
  {
    var e := s.sp[p].pte[v];
    TouchIs(s, p, v, f, k, write);
    assert s.sp[p].pte[STACK_3].p && s.sp[p].pde[STACK_3 / 1024] == Table;
    assert s.sp[p].pde[v / 1024] != Table ==> e == ZERO;
    hide Inv, Touch;
    if !Permits(e, write) {
      if Due(s, p, v) {
        GrantIsMove(s, p, v, f);
      } else if e.p && e.cow && write {
        hide Due;
        if |Counted(s, e.base, v)| == 1 { OwnIsMove(s, p, v); } else { CopyIsMove(s, p, v, f, k); }
      }
    }
  }

  lemma GrantIsMove(s: Vm, p: Pid, v: nat, f: Frame)
    requires Shape(s) && p in s.sp && UserPage(v) && Due(s, p, v) && !s.sp[p].pte[v].p
    requires s.sp[p].pde[v / 1024] == Asked ==> v % 1024 == 0
    ensures Allowed(s.sp[p], Use(v, f)) && Grant(s, p, v, f).sp[p] == After(s.sp[p], Use(v, f))
  {}

  lemma OwnIsMove(s: Vm, p: Pid, v: nat)
    requires Shape(s) && p in s.sp && v < NPAGES && HasTable(s, p, v) && s.sp[p].pte[v].p
    ensures Allowed(s.sp[p], Regain(v)) && Own(s, p, v).sp[p] == After(s.sp[p], Regain(v))
  {}

  lemma CopyIsMove(s: Vm, p: Pid, v: nat, f: Frame, k: Page)
    requires Shape(s) && p in s.sp && UserPage(v) && v != TEMP && HasTable(s, p, v) && s.sp[p].pte[v].p
    requires f < |s.ram| && s.sp[p].pte[v].base < |s.ram| && s.sp[p].pde[TOP_TABLE] == Table
    ensures Allowed(s.sp[p], Replace(v, f)) && CopyTo(s, p, v, f, k).sp[p] == After(s.sp[p], Replace(v, f))
  {}

  // What an enabled event does to the space of a process that lives on is that move.
  lemma StepIsMove(s: Vm, e: Event, p: Pid)
    requires Inv(s) && Enabled(s, e) && Safe(s, e) && p in s.sp && p != 0 && OnGrants(s, e, p) && e != Exit(p)
    ensures p in Step(s, e).sp
    ensures var ms := MovesOf(s, e, p);
      if ms == [] then Step(s, e).sp[p] == s.sp[p]
      else Allowed(s.sp[p], ms[0]) && Step(s, e).sp[p] == After(s.sp[p], ms[0])
  {
    if e.p != p {
      hide MovesOf;
      OthersKeep(s, e, p);
      assert MovesOf(s, e, p) == [];
    } else {
      hide Inv, Touch, TouchMoves;
      match e
      case Read(_, v, _, f) => BackedAt(s, p, v); TouchIsMove(s, p, v, f, NoPage(), false);
      case Write(_, v, _, _, f, k) => BackedAt(s, p, v); TouchIsMove(s, p, v, f, k, true);
      case _ =>
        hide Step, MovesOf, Safe, Allowed, After;
        OwnTaskIsMove(s, e);
    }
  }

  lemma OwnTaskIsMove(s: Vm, e: Event)
    requires Inv(s) && Enabled(s, e) && e.p in s.sp && e.p != 0 && !e.Read? && !e.Write? && !e.Exit?
    ensures e.p in Step(s, e).sp
    ensures var p, ms := e.p, MovesOf(s, e, e.p);
      if ms == [] then Step(s, e).sp[p] == s.sp[p]
      else Allowed(s.sp[p], ms[0]) && Step(s, e).sp[p] == After(s.sp[p], ms[0])
  {
    assert s.sp[e.p].pte[STACK_3].p && s.sp[e.p].pde[STACK_3 / 1024] == Table;
    hide Inv, SetEntry, ForkParent, ForkChild, SpawnSpace, AskPage, PallocPage, Counted;
    match e
    case Share(_, _) => hide VirtualMemory.Fork, VirtualMemory.Spawn;
    case Fork(_, _, _, _, _) => hide VirtualMemory.Share, VirtualMemory.Spawn;
    case _ => hide VirtualMemory.Share, VirtualMemory.Fork;
  }

  // An event of another process leaves the space of p alone.
  lemma OthersKeep(s: Vm, e: Event, p: Pid)
    requires Inv(s) && Enabled(s, e) && p in s.sp && e.p != p
    ensures p in Step(s, e).sp && Step(s, e).sp[p] == s.sp[p]
  {
    assert Shape(s);
    hide Inv, SetEntry, ForkParent, ForkChild, SpawnSpace, AskPage, PallocPage, Counted, TakesFrame;
    match e
    case Read(q, v, _, f) =>
      BackedAt(s, q, v);
      OthersKeepTouch(s, q, v, f, NoPage(), false, p);
    case Write(q, v, _, _, f, k) =>
      BackedAt(s, q, v);
      OthersKeepTouch(s, q, v, f, k, true, p);
    case _ => hide Touch;
  }

  lemma OthersKeepTouch(s: Vm, q: Pid, v: nat, f: Frame, k: Page, write: bool, p: Pid)
    requires Shape(s) && CanTouch(s, q, v, f, write) && p in s.sp && q != p && Backed(s, q, v, Protection(s, q, v, write))
    ensures Touch(s, q, v, f, k, write).sp[p] == s.sp[p]
  {}

  // The moves on the space of p until p exits, and the pages palloc returns to it.
  ghost function Moves(s: Vm, es: seq<Event>, p: Pid): seq<Move>
    requires Inv(s) && Runs(s, es)
    decreases |es|
  {
    if es == [] || es[0] == Exit(p) then []
    else (StepInv(s, es[0]); MovesOf(s, es[0], p) + Moves(Step(s, es[0]), es[1..], p))
  }

  ghost function Returned(s: Vm, es: seq<Event>, p: Pid): seq<nat>
    requires Inv(s) && Runs(s, es) && p in s.sp
    decreases |es|
  {
    if es == [] || es[0] == Exit(p) then []
    else
      StepInv(s, es[0]);
      (if es[0] == VmInvariant.Palloc(p) && PallocPage(s.sp[p]) < NPAGES then [PallocPage(s.sp[p])] else [])
        + Returned(Step(s, es[0]), es[1..], p)
  }

  ghost predicate AlwaysOnGrants(s: Vm, es: seq<Event>, p: Pid)
    requires Inv(s) && Runs(s, es)
    decreases |es|
  {
    es == [] || es[0] == Exit(p) || (OnGrants(s, es[0], p) && (StepInv(s, es[0]); AlwaysOnGrants(Step(s, es[0]), es[1..], p)))
  }

  lemma {:induction false} RunIsMoves(s: Vm, es: seq<Event>, p: Pid)
    requires Inv(s) && Runs(s, es) && p in s.sp && p != 0 && AlwaysOnGrants(s, es, p)
    ensures AllAllowed(s.sp[p], Moves(s, es, p)) && Answers(s.sp[p], Moves(s, es, p)) == Returned(s, es, p)
    decreases |es|
  {
    if es != [] && es[0] != Exit(p) {
      StepInv(s, es[0]);
      StepIsMove(s, es[0], p);
      var ms, rest := MovesOf(s, es[0], p), Moves(Step(s, es[0]), es[1..], p);
      RunIsMoves(Step(s, es[0]), es[1..], p);
      hide Inv, Enabled, Step, Allowed, After, AllAllowed, Answers;
      OneMore(s.sp[p], Step(s, es[0]).sp[p], ms, rest);
    }
  }

  lemma OneMore(sp: Space, t: Space, ms: seq<Move>, rest: seq<Move>)
    requires Sized(sp) && Sized(t) && |ms| <= 1
    requires if ms == [] then t == sp else Allowed(sp, ms[0]) && t == After(sp, ms[0])
    requires AllAllowed(t, rest)
    ensures AllAllowed(sp, ms + rest)
    ensures Answers(sp, ms + rest) == (if ms == [Ask] && PallocPage(sp) < NPAGES then [PallocPage(sp)] else []) + Answers(t, rest)
  {
    if ms != [] { assert (ms + rest)[0] == ms[0] && (ms + rest)[1..] == rest; } else { assert ms + rest == rest; }
  }

  // In any run of the kernel, whatever the other processes do, palloc returns no page twice
  // to a process that touches only what it was granted.
  lemma NeverTwiceInRuns(s: Vm, es: seq<Event>, p: Pid)
    requires Inv(s) && Runs(s, es) && p in s.sp && p != 0 && AlwaysOnGrants(s, es, p)
    ensures var a := Returned(s, es, p);
      (forall i, j | 0 <= i < j < |a| :: a[i] != a[j]) && forall v <- a :: v * PAGE_SIZE >= 0x40_0000 && !IsTaken(s.sp[p], v)
  {
    RunIsMoves(s, es, p);
    NeverTwice(s.sp[p], Moves(s, es, p));
  }

  // ---------------------------------------------------------------- what a grant covers

  // A fault is served anywhere under a requested directory entry, but only its first page
  // was granted: the grant survives exactly when the fault is on that page.
  lemma GrantSurvivesExactly(sp: Space, v: nat, f: Frame)
    requires Sized(sp) && Tidy(sp) && v < NPAGES && sp.pde[v / 1024] == Asked
    ensures IsTaken(SetEntry(sp, v, UserEntry(f)), 1024 * (v / 1024)) <==> v % 1024 == 0
  {
    assert 1024 * (v / 1024) / 1024 == v / 1024;
    assert sp.pte[1024 * (v / 1024)] == ZERO;
  }

  // After a call that granted a whole directory entry, and a fault on a page w under it,
  // the next call returns the same page again exactly when w was not that page.
  lemma TwiceExactly(sp: Space, w: nat, f: Frame)
    requires Sized(sp) && Tidy(sp) && PallocPage(sp) < NPAGES && sp.pde[PallocPage(sp) / 1024] == Absent
    requires w / 1024 == PallocPage(sp) / 1024
    ensures PallocPage(SetEntry(AskPage(sp, PallocPage(sp)), w, UserEntry(f))) == PallocPage(sp) <==> w != PallocPage(sp)
  {
    var v := PallocPage(sp);
    var t := SetEntry(AskPage(sp, v), w, UserEntry(f));
    LowestOpen(sp, v);
    LowestOpen(t, v);
    assert sp.pte[v] == ZERO;
    if w != v {
      forall x: nat | 1024 <= x < v ensures !Open(t, x) {
        assert !Open(sp, x) && x / 1024 < v / 1024;
      }
    }
  }

  // Such a run of an empty space: pages 1024, then 1025 touched, then 1024 again.
  lemma TwiceAfterStrayFault(f: Frame)
    ensures var sp := NoSpace();
      Sized(sp) && PallocPage(sp) == 1024 && PallocPage(SetEntry(AskPage(sp, 1024), 1025, UserEntry(f))) == 1024
  {
    TwiceExactly(NoSpace(), 1025, f);
  }
}
