// Scheduler and descriptor tables together: what loader_load, sys_fork and loader_exit do to
// both, and what follows for the pids that own descriptors.
module Processes {
  import opened Semaphores
  import S = Scheduling
  import D = Devices
  import K = Kernel
  import T = DeviceTables

  datatype State = State(sched: S.State, dev: D.State)

  // A fork copies the descriptors of the running task to the new pid; pipes, consoles and
  // closes are those of the running task.
  datatype Event =
    | Load
    | Fork
    | Exit
    | Wait(k: nat)
    | Signal(k: nat)
    | Broadcast(k: nat)
    | Tick
    | Pipe(page: D.Page)
    | Console(page: D.Page)
    | Close(i: nat)

  // The scheduler's part of an event.
  function Sched(e: Event): Option<S.Event> {
    match e
    case Load => Some(S.ELoad)
    case Fork => Some(S.ELoad)
    case Exit => Some(S.EExit)
    case Wait(k) => Some(S.EWait(k))
    case Signal(k) => Some(S.ESignal(k))
    case Broadcast(k) => Some(S.EBroadcast(k))
    case Tick => Some(S.ETick)
    case _ => None
  }

  // The part of the descriptor tables, with the pids the scheduler supplies.
  function Dev(s: State, e: Event): Option<D.Event>
    requires (e.Load? || e.Fork?) ==> s.sched.free != []
  {
    match e
    case Load => Some(D.ELoad(s.sched.free[0]))
    case Fork => Some(D.EFork(s.sched.current, s.sched.free[0]))
    case Exit => Some(D.EExit(s.sched.current))
    case Pipe(page) => Some(D.EPipe(s.sched.current, page))
    case Console(page) => Some(D.EConsole(s.sched.current, page))
    case Close(i) => Some(D.EClose(s.sched.current, i))
    case _ => None
  }

  // The scheduler allows the event, a task other than the idle one issues it where it
  // concerns descriptors, and the kernel has a page and descriptors to give. Nothing is asked
  // of the pids.
  ghost predicate Enabled(s: State, e: Event) {
    && (Sched(e).Some? ==> S.Enabled(s.sched, Sched(e).value))
    && (e.Fork? || e.Pipe? || e.Console? || e.Close? ==> s.sched.current != 0)
    && var p := s.sched.current;
       match e
       case Pipe(page) => page !in s.dev.live && p < |s.dev.rows| && D.Vacant(s.dev.rows[p]) >= 2
       case Console(page) => page !in s.dev.live && p < |s.dev.rows| && D.Vacant(s.dev.rows[p]) >= 1
       case Close(i) => p < |s.dev.rows| && i < |s.dev.rows[p]| && s.dev.rows[p][i].Some?
       case _ => true
  }

  // The pids in use by the descriptor tables are those the scheduler has given out.
  ghost predicate Linked(s: State, fds: nat) {
    && S.Good(s.sched) && D.Inv(s.dev, fds) && |s.dev.rows| == s.sched.n
    && forall p: Pid :: p in s.dev.used <==> 1 <= p < s.sched.n && p !in s.sched.free
  }

  // The running task is live, and the first free pid is not.
  lemma PidsFit(s: State, fds: nat)
    requires Linked(s, fds)
    ensures s.sched.current != 0 ==> s.sched.current in s.dev.used && s.sched.current < s.sched.n
    ensures s.sched.free != [] ==> 1 <= s.sched.free[0] < s.sched.n && s.sched.free[0] !in s.dev.used
  {
    var t := s.sched;
    if t.current != 0 {
      assert S.Placed(t, t.current);
      S.Once(t, t.current);
    }
    if t.free != [] {
      assert S.Placed(t, t.free[0]);
      S.OccIn(t.free, t.free[0]);
    }
  }

  // So the descriptor tables allow whatever the scheduler does.
  lemma DevEnabled(s: State, e: Event, fds: nat)
    requires Linked(s, fds) && Enabled(s, e)
    ensures (e.Load? || e.Fork?) ==> s.sched.free != []
    ensures Dev(s, e).Some? ==> D.Enabled(s.dev, Dev(s, e).value, fds)
  {
    PidsFit(s, fds);
  }

  ghost function Step(s: State, e: Event, fds: nat): State
    requires Linked(s, fds) && Enabled(s, e)
  {
    DevEnabled(s, e, fds);
    State(if Sched(e).Some? then S.Step(s.sched, Sched(e).value) else s.sched,
          if Dev(s, e).Some? then D.Step(s.dev, Dev(s, e).value, fds) else s.dev)
  }

  // A new process starts with an empty row, so a fork overwrites no descriptor.
  lemma ForkIntoEmpty(s: State, fds: nat)
    requires Linked(s, fds) && s.sched.free != []
    ensures s.sched.free[0] < |s.dev.rows| && D.Empty(s.dev.rows[s.sched.free[0]])
  {
    PidsFit(s, fds);
  }

  // ---------------------------------------------------------------- pids stay linked

  lemma {:induction false} WakeAllFree(s: S.State, k: nat)
    requires k < |s.sems|
    ensures S.WakeAll(s, k).free == s.free && S.WakeAll(s, k).n == s.n
    decreases |s.sems[k].queue|
  {
    if s.sems[k].queue != [] { WakeAllFree(S.Wake(s, k), k); }
  }

  // What an event does to the free pids and to those in use.
  function FreeAfter(s: S.State, e: Event): seq<Pid>
    requires (e.Load? || e.Fork?) ==> s.free != []
  {
    match e
    case Load | Fork => s.free[1..]
    case Exit => [s.current] + s.free
    case _ => s.free
  }

  lemma SchedPids(s: S.State, e: Event)
    requires S.Good(s) && Sched(e).Some? && S.Enabled(s, Sched(e).value)
    ensures (e.Load? || e.Fork?) ==> s.free != []
    ensures S.Step(s, Sched(e).value).free == FreeAfter(s, e) && S.Step(s, Sched(e).value).n == s.n
  {
    hide S.Good;
    if e.Broadcast? { WakeAllFree(s, e.k); }
  }

  lemma DevPids(s: D.State, e: D.Event, fds: nat)
    requires D.Inv(s, fds) && D.Enabled(s, e, fds)
    ensures |D.Step(s, e, fds).rows| == |s.rows|
    ensures D.Step(s, e, fds).used == match e
      case ELoad(p) => s.used + {p}
      case EFork(_, q) => s.used + {q}
      case EExit(p) => s.used - {p}
      case _ => s.used
  {
    hide D.OpenPipe, D.OpenConsole, D.Copies, D.Closes;
    match e
    case EPipe(p, page) => D.PipeRows(s, p, page);
    case EConsole(p, page) => D.ConsoleRows(s, p, page);
    case EClose(p, i) => D.CloseRows(s, p, i);
    case ELoad(_) =>
    case EFork(p, q) => D.ForkDoes(s, p, q, D.Console(0));
    case EExit(p) => D.ClosesAll(s, p, 0);
  }

  // Every event keeps the invariants of both and the pids linked.
  lemma StepLinked(s: State, e: Event, fds: nat)
    requires Linked(s, fds) && Enabled(s, e)
    ensures Linked(Step(s, e, fds), fds)
  {
    DevEnabled(s, e, fds);
    var t := Step(s, e, fds);
    if Sched(e).Some? {
      S.StepInv(s.sched, Sched(e).value);
      SchedPids(s.sched, e);
    }
    if Dev(s, e).Some? {
      D.StepInv(s.dev, Dev(s, e).value, fds);
      DevPids(s.dev, Dev(s, e).value, fds);
    }
    PidsFit(s, fds);
    if e.Load? || e.Fork? { FreeOnce(s.sched); }
    hide S.Good, S.Step, S.Enabled, D.Inv, D.Step, D.Enabled;
  }

  // The first free pid is in the list once.
  lemma FreeOnce(s: S.State)
    requires S.Good(s) && s.free != []
    ensures s.free[0] !in s.free[1..]
  {
    assert S.Placed(s, s.free[0]);
    S.OccIn(s.free[1..], s.free[0]);
  }

  ghost predicate Runs(s: State, es: seq<Event>, fds: nat)
    requires Linked(s, fds)
    decreases |es|
  {
    if es == [] then true else Enabled(s, es[0]) && (StepLinked(s, es[0], fds); Runs(Step(s, es[0], fds), es[1..], fds))
  }

  ghost function Run(s: State, es: seq<Event>, fds: nat): (t: State)
    requires Linked(s, fds) && Runs(s, es, fds)
    ensures Linked(t, fds)
    decreases |es|
  {
    if es == [] then s else (StepLinked(s, es[0], fds); Run(Step(s, es[0], fds), es[1..], fds))
  }

  // What a run is for each of the two parts.
  ghost function Scheds(es: seq<Event>): seq<S.Event> {
    if es == [] then [] else (if Sched(es[0]).Some? then [Sched(es[0]).value] else []) + Scheds(es[1..])
  }

  ghost function Devs(s: State, es: seq<Event>, fds: nat): seq<D.Event>
    requires Linked(s, fds) && Runs(s, es, fds)
    decreases |es|
  {
    if es == [] then []
    else
      DevEnabled(s, es[0], fds);
      StepLinked(s, es[0], fds);
      (if Dev(s, es[0]).Some? then [Dev(s, es[0]).value] else []) + Devs(Step(s, es[0], fds), es[1..], fds)
  }

  // An event as the two parts see it.
  lemma SchedPart(s: State, e: Event, fds: nat)
    requires Linked(s, fds) && Enabled(s, e)
    ensures S.Good(s.sched) && S.Good(Step(s, e, fds).sched)
    ensures Sched(e).None? ==> Step(s, e, fds).sched == s.sched
    ensures Sched(e).Some? ==> S.Enabled(s.sched, Sched(e).value) && Step(s, e, fds).sched == S.Step(s.sched, Sched(e).value)
  {
    if Sched(e).Some? { S.StepInv(s.sched, Sched(e).value); }
  }

  lemma DevPart(s: State, e: Event, fds: nat)
    requires Linked(s, fds) && Enabled(s, e)
    ensures (e.Load? || e.Fork?) ==> s.sched.free != []
    ensures Dev(s, e).None? ==> Step(s, e, fds).dev == s.dev
    ensures Dev(s, e).Some? ==> D.Enabled(s.dev, Dev(s, e).value, fds) && Step(s, e, fds).dev == D.Step(s.dev, Dev(s, e).value, fds)
  {
    DevEnabled(s, e, fds);
  }

  // A run of the kernel is a run of the scheduler.
  lemma {:induction false} SchedProjects(s: State, es: seq<Event>, fds: nat)
    requires Linked(s, fds) && Runs(s, es, fds)
    ensures S.Good(s.sched) && S.Runs(s.sched, Scheds(es)) && S.Run(s.sched, Scheds(es)) == Run(s, es, fds).sched
    decreases |es|
  {
    hide S.Good, S.Step, S.Enabled, S.Run, S.Runs, Linked, Step, Enabled, Sched;
    if es == [] {
      SchedNone(s, fds);
    } else {
      var e := es[0];
      StepLinked(s, e, fds);
      SchedPart(s, e, fds);
      var t := Step(s, e, fds);
      SchedProjects(t, es[1..], fds);
      if Sched(e).Some? {
        SchedJoins(s.sched, Sched(e).value, Scheds(es[1..]));
      } else {
        assert Scheds(es) == Scheds(es[1..]);
      }
    }
  }

  lemma SchedNone(s: State, fds: nat)
    requires Linked(s, fds)
    ensures S.Good(s.sched) && S.Runs(s.sched, []) && S.Run(s.sched, []) == s.sched
  {
  }

  // With the pids the scheduler gives out and the task it runs, it is a run of the
  // descriptor tables.
  lemma {:induction false} DevProjects(s: State, es: seq<Event>, fds: nat)
    requires Linked(s, fds) && Runs(s, es, fds)
    ensures D.Runs(s.dev, Devs(s, es, fds), fds) && D.Run(s.dev, Devs(s, es, fds), fds) == Run(s, es, fds).dev
    decreases |es|
  {
    if es != [] {
      var e := es[0];
      StepLinked(s, e, fds);
      DevPart(s, e, fds);
      hide Linked, Step, Enabled, Dev, D.Step, D.Enabled, D.Run, D.Runs;
      var t := Step(s, e, fds);
      DevProjects(t, es[1..], fds);
      if Dev(s, e).Some? {
        DevJoins(s.dev, Dev(s, e).value, Devs(t, es[1..], fds), fds);
      } else {
        assert Devs(s, es, fds) == Devs(t, es[1..], fds);
      }
    }
  }

  lemma SchedJoins(s: S.State, e: S.Event, es: seq<S.Event>)
    requires S.Good(s) && S.Enabled(s, e) && S.Good(S.Step(s, e)) && S.Runs(S.Step(s, e), es)
    ensures S.Runs(s, [e] + es) && S.Run(s, [e] + es) == S.Run(S.Step(s, e), es)
  {
    hide S.Good, S.Step, S.Enabled;
    assert ([e] + es)[1..] == es;
  }

  lemma DevJoins(s: D.State, e: D.Event, es: seq<D.Event>, fds: nat)
    requires D.Enabled(s, e, fds) && D.Runs(D.Step(s, e, fds), es, fds)
    ensures D.Runs(s, [e] + es, fds) && D.Run(s, [e] + es, fds) == D.Run(D.Step(s, e, fds), es, fds)
  {
    hide D.Step, D.Enabled;
    assert ([e] + es)[1..] == es;
  }

  // loader_init, sched_init and device_init.
  function Boot(n: nat, slice: nat, vls: seq<nat>, fds: nat): State {
    State(S.Boot(n, slice, vls), D.Boot(n, fds))
  }

  lemma BootLinked(n: nat, slice: nat, vls: seq<nat>, fds: nat)
    requires slice > 0
    ensures Linked(Boot(n, slice, vls, fds), fds)
  {
    S.BootGood(n, slice, vls);
    D.BootInv(n, fds);
    forall p: Pid ensures 1 <= p < n <==> p in S.FreePids(n) {
      S.FreePidsAll(n, p);
      S.OccIn(S.FreePids(n), p);
    }
  }

  // In every run from the boot: a pid that holds an open descriptor is a task of the ring or
  // of a wait queue, and the row of the pid that comes next is empty.
  lemma OwnersAreTasks(n: nat, slice: nat, vls: seq<nat>, fds: nat, es: seq<Event>, p: Pid)
    requires slice > 0 && (BootLinked(n, slice, vls, fds); Runs(Boot(n, slice, vls, fds), es, fds)) && p < n
    ensures (BootLinked(n, slice, vls, fds); var s := Run(Boot(n, slice, vls, fds), es, fds);
      && |s.dev.rows| == n
      && (!D.Empty(s.dev.rows[p]) ==> p !in s.sched.free && (p in s.sched.ring || exists k :: S.Waits(s.sched, k, p)))
      && (s.sched.free != [] ==> 1 <= s.sched.free[0] < n && D.Empty(s.dev.rows[s.sched.free[0]])))
  {
    BootLinked(n, slice, vls, fds);
    var b := Boot(n, slice, vls, fds);
    var s := Run(b, es, fds);
    SchedProjects(b, es, fds);
    if s.sched.free != [] { ForkIntoEmpty(s, fds); }
    PidsFit(s, fds);
    if !D.Empty(s.dev.rows[p]) {
      assert p in s.dev.used;
      S.BootGood(n, slice, vls);
      S.OnePlace(n, slice, vls, Scheds(es), p);
    }
  }

  // ---------------------------------------------------------------- on the arrays

  // Both tables at once; descriptors go by the pid the scheduler's tables give.
  ghost predicate Fits(s: State, k: K.Kernel, t: T.DeviceTable)
    reads k, k.tasks, k.states, k.table, k.freePids, k.sems, t
  {
    k.Valid() && k.abs == s.sched && t.Abs() == s.dev
  }

  lemma PidsShown(s: State, k: K.Kernel, t: T.DeviceTable)
    requires Fits(s, k, t)
    ensures k.current == s.sched.current && (s.sched.free != [] ==> k.nextFree == s.sched.free[0])
  {
  }

  method DoDev(k: K.Kernel, t: T.DeviceTable, e: Event, ghost s: State, ghost fds: nat)
    requires Linked(s, fds) && Enabled(s, e) && Fits(s, k, t)
    modifies t
    ensures t.Abs() == Step(s, e, fds).dev
  {
    DevPart(s, e, fds);
    PidsShown(s, k, t);
    hide k.Valid, Enabled, Step, S.Good, D.Enabled, D.Step;
    match e {
      case Load => t.Do(D.ELoad(k.nextFree), fds);
      case Fork => t.Do(D.EFork(k.current, k.nextFree), fds);
      case Exit => t.Do(D.EExit(k.current), fds);
      case Pipe(page) => t.Do(D.EPipe(k.current, page), fds);
      case Console(page) => t.Do(D.EConsole(k.current, page), fds);
      case Close(i) => t.Do(D.EClose(k.current, i), fds);
      case _ =>
    }
  }

  method Do(k: K.Kernel, t: T.DeviceTable, e: Event, ghost s: State, ghost fds: nat)
    requires Linked(s, fds) && Enabled(s, e) && Fits(s, k, t)
    modifies k, k.tasks, k.states, k.table, k.sems, k.freePids, t
    ensures Fits(Step(s, e, fds), k, t)
  {
    SchedPart(s, e, fds);
    DoDev(k, t, e, s, fds);
    hide k.Valid, Linked, Enabled, Step, S.Good, S.Enabled, S.Step;
    match Sched(e) {
      case Some(x) => k.Do(x);
      case None =>
    }
  }

  // From the boot: any run of the kernel on the linked arrays of the scheduler and the rows
  // of the descriptor table.
  method Session(n: nat, slice: nat, vls: seq<nat>, fds: nat, es: seq<Event>) returns (rows: seq<seq<D.Slot>>, current: Pid)
    requires n >= 2 && slice > 0
    requires (BootLinked(n, slice, vls, fds); Runs(Boot(n, slice, vls, fds), es, fds))
    ensures (BootLinked(n, slice, vls, fds); var s := Run(Boot(n, slice, vls, fds), es, fds);
      rows == s.dev.rows && current == s.sched.current)
  {
    var k := new K.Kernel(n, slice, vls);
    var t := new T.DeviceTable(n, fds);
    BootLinked(n, slice, vls, fds);
    ghost var s := Boot(n, slice, vls, fds);
    assert es[0..] == es;
    hide k.Valid, Linked, Enabled, Step;
    for i := 0 to |es|
      invariant fresh(k) && fresh(k.tasks) && fresh(k.states) && fresh(k.table) && fresh(k.sems) && fresh(k.freePids) && fresh(t)
      invariant Linked(s, fds) && Fits(s, k, t) && Runs(s, es[i..], fds)
      invariant Run(s, es[i..], fds) == Run(Boot(n, slice, vls, fds), es, fds)
    {
      assert es[i..][0] == es[i] && es[i..][1..] == es[i + 1..];
      StepLinked(s, es[i], fds);
      Do(k, t, es[i], s, fds);
      s := Step(s, es[i], fds);
    }
    rows, current := t.rows, k.current;
  }
}
