// sched.c, loader.c and sem.c over their arrays: the run ring, the wait queues threaded
// through the task table, the chain of free pids. Every operation carries out the step of
// module Scheduling on the state the arrays hold.
module Kernel {
  import opened LinkedLists
  import opened Semaphores
  import opened Scheduling

  const RUNNING := 0
  const BLOCKED := 1
  const FINISHED := 2

  // sem_t: free places and the head of the queue.
  datatype Cell = Cell(vl: nat, q: int)

  lemma {:induction false} OccTwice(r: seq<Pid>, i: nat, j: nat)
    requires i < j < |r| && r[i] == r[j]
    ensures Occ(r, r[i]) >= 2
  {
    if i == 0 {
      OccIn(r[1..], r[0]);
      assert r[1..][j - 1] == r[j];
    } else {
      OccTwice(r[1..], i - 1, j - 1);
    }
  }

  // Nobody is twice in the ring or in a queue.
  lemma NoRepeats(s: State)
    requires Partition(s)
    ensures Distinct(s.ring) && forall k | 0 <= k < |s.sems| :: Distinct(s.sems[k].queue)
  {
    forall i, j | 0 <= i < j < |s.ring| ensures s.ring[i] != s.ring[j] {
      assert Placed(s, s.ring[i]);
      if s.ring[i] == s.ring[j] { OccTwice(s.ring, i, j); }
    }
    forall k | 0 <= k < |s.sems| ensures Distinct(s.sems[k].queue) {
      var q := s.sems[k].queue;
      forall i, j | 0 <= i < j < |q| ensures q[i] != q[j] {
        assert Placed(s, q[i]);
        InQueue(s.sems, k, q[i]);
        if q[i] == q[j] { OccTwice(q, i, j); }
      }
    }
  }

  // All the wait queues of s are threaded through t.
  ghost predicate Threaded(t: seq<Link>, sems: seq<Sem>) {
    forall k | 0 <= k < |sems| :: Circle(t, sems[k].queue)
  }

  // What is in one wait queue is in no other, nor in the ring.
  lemma Apart(s: State, k: nat, l: nat, p: Pid)
    requires Partition(s) && k < |s.sems| && l < |s.sems| && p in s.sems[k].queue
    ensures p in s.sems[l].queue ==> k == l
    ensures p !in s.ring && p !in s.free && 1 <= p < s.n
  {
    assert Placed(s, p);
    InQueue(s.sems, k, p);
    OccIn(s.ring, p);
    OccIn(s.free, p);
    if p in s.sems[l].queue {
      if k < l { TwoQueues(s.sems, k, l, p); }
      if l < k { TwoQueues(s.sems, l, k, p); }
    }
  }

  lemma Enqueued(s: State, t: seq<Link>, k: nat)
    requires Partition(s) && s.current in s.ring && k < |s.sems| && |t| == s.n && Threaded(t, s.sems) && Blocks(s.sems[k])
    ensures s.current < |t| && (s.sems[k].queue != [] ==> s.sems[k].queue[0] < |t| && 0 <= t[s.sems[k].queue[0]].prev < |t|)
    ensures Threaded(Append(t, Head(s.sems[k].queue), s.current), WaitOn(s, k).sems)
  {
    assert Placed(s, s.current);
    Once(s, s.current);
    NoRepeats(s);
    var q := s.sems[k].queue;
    Appended(t, q, s.current);
    var u := Append(t, Head(q), s.current);
    forall l | 0 <= l < |s.sems| && l != k ensures Circle(u, s.sems[l].queue) {
      forall p | p in s.sems[l].queue ensures p !in q { Apart(s, l, k, p); }
      CircleElsewhere(t, u, s.sems[l].queue);
    }
  }

  lemma Dequeued(s: State, t: seq<Link>, k: nat)
    requires Partition(s) && k < |s.sems| && Threaded(t, s.sems) && s.sems[k].queue != []
    ensures var p := s.sems[k].queue[0]; p < |t| && 0 <= t[p].next < |t| && 0 <= t[p].prev < |t|
    ensures Threaded(Unlink(t, s.sems[k].queue[0]), Wake(s, k).sems)
  {
    var q := s.sems[k].queue;
    NoRepeats(s);
    UnlinkedHead(t, q);
    assert t[q[0]].next in q && t[q[0]].prev in q;
    var u := Unlink(t, q[0]);
    forall l | 0 <= l < |s.sems| && l != k ensures Circle(u, s.sems[l].queue) {
      forall p | p in s.sems[l].queue ensures p !in q { Apart(s, l, k, p); }
      CircleElsewhere(t, u, s.sems[l].queue);
    }
  }

  ghost predicate Marked(states: seq<int>, r: seq<Pid>, mark: int) {
    forall p | p in r :: p < |states| && states[p] == mark
  }

  // Who waits is marked as blocked.
  ghost predicate AllBlocked(states: seq<int>, sems: seq<Sem>) {
    forall k | 0 <= k < |sems| :: Marked(states, sems[k].queue, BLOCKED)
  }

  lemma BlockedByWait(s: State, states: seq<int>, k: nat)
    requires AllBlocked(states, s.sems) && k < |s.sems| && s.ring != [] && s.current < |states| && Blocks(s.sems[k])
    ensures AllBlocked(states[s.current := BLOCKED], WaitOn(s, k).sems)
  {
    var w := WaitOn(s, k).sems;
    forall l | 0 <= l < |w| ensures Marked(states[s.current := BLOCKED], w[l].queue, BLOCKED) {
      assert Marked(states, s.sems[l].queue, BLOCKED);
    }
  }

  // A pid that is nowhere in the queues may be marked at will.
  lemma BlockedElsewhere(sems: seq<Sem>, states: seq<int>, pd: Pid, mark: int)
    requires AllBlocked(states, sems) && pd < |states| && forall k | 0 <= k < |sems| :: pd !in sems[k].queue
    ensures AllBlocked(states[pd := mark], sems)
  {
    forall l | 0 <= l < |sems| ensures Marked(states[pd := mark], sems[l].queue, BLOCKED) {
      assert Marked(states, sems[l].queue, BLOCKED);
    }
  }

  lemma BlockedByWake(s: State, states: seq<int>, k: nat, mark: int)
    requires AllBlocked(states, s.sems) && Partition(s) && k < |s.sems| && s.sems[k].queue != []
    ensures s.sems[k].queue[0] < |states|
    ensures AllBlocked(states[s.sems[k].queue[0] := mark], Wake(s, k).sems)
  {
    NoRepeats(s);
    var w, q := Wake(s, k).sems, s.sems[k].queue;
    assert Marked(states, q, BLOCKED) && q[0] in q;
    forall l | 0 <= l < |w| ensures Marked(states[q[0] := mark], w[l].queue, BLOCKED) {
      assert Marked(states, s.sems[l].queue, BLOCKED);
      if l == k { MarkedTail(states, q, BLOCKED, mark); } else { Apart(s, k, l, q[0]); }
    }
  }

  // The rest of a list keeps its mark when the first leaves.
  lemma MarkedTail(states: seq<int>, r: seq<Pid>, mark: int, x: int)
    requires Marked(states, r, mark) && Distinct(r) && r != []
    ensures r[0] < |states| && Marked(states[r[0] := x], r[1..], mark) && Distinct(r[1..])
  {
    assert r[0] in r;
    forall p | p in r[1..] ensures p in r && p != r[0] {
      var i :| 0 <= i < |r[1..]| && r[1..][i] == p;
      assert r[i + 1] == p;
    }
  }

  class Kernel {
    // sched.c
    const slice: nat
    const states: array<int>
    const tasks: array<Link>
    var quantum: int
    var current: Pid
    var last: Pid
    // loader.c
    const table: array<Link>
    var curPid: Pid
    var running: int
    var blocked: int
    const freePids: array<int>
    var nextFree: int
    // every semaphore of the system
    const sems: array<Cell>
    // what all this amounts to
    ghost var abs: State

    ghost predicate RingFits(ring: seq<Pid>)
      reads tasks, states
    {
      Circle(tasks[..], ring) && Distinct(ring) && Marked(states[..], ring, RUNNING)
    }

    // The scheduler's part of s.
    ghost predicate SchedFits(s: State)
      reads `quantum, `current, `last, tasks, states
    {
      && s.slice == slice && tasks.Length == states.Length == s.n
      && quantum == s.quantum && current == s.current && last == s.last && RingFits(s.ring)
      && (current != 0 ==> s.ring != [] && s.ring[0] == current)
    }

    // The semaphores, and the links of their queues.
    ghost predicate LinksFit(s: seq<Sem>)
      reads table, sems
    {
      && sems.Length == |s| && Threaded(table[..], s)
      && (forall k {:trigger sems[k]} | 0 <= k < sems.Length :: sems[k] == Cell(s[k].vl, Head(s[k].queue)))
    }

    ghost predicate FreeFits(free: seq<Pid>)
      reads `nextFree, freePids
    {
      Chain(freePids[..], nextFree, free)
    }

    ghost predicate Valid()
      reads this, tasks, states, table, freePids, sems
    {
      && tasks != table && states != freePids && tasks.Length == table.Length == freePids.Length >= 2
      && SchedFits(abs) && LinksFit(abs.sems) && AllBlocked(states[..], abs.sems) && FreeFits(abs.free)
      && curPid == current && running == abs.running && blocked == abs.blocked
    }

    // The fields leave no choice of abstract state.
    lemma OneMeaning(s: State)
      requires Valid() && Good(abs) && Good(s)
      requires SchedFits(s) && LinksFit(s.sems) && FreeFits(s.free) && running == s.running && blocked == s.blocked
      ensures s == abs
    {
      NoRepeats(s);
      NoRepeats(abs);
      CircleIsOne(tasks[..], s.ring, abs.ring);
      ChainIsOne(freePids[..], nextFree, s.free, abs.free);
      forall k | 0 <= k < sems.Length ensures s.sems[k] == abs.sems[k] {
        assert sems[k] == Cell(s.sems[k].vl, Head(s.sems[k].queue)) == Cell(abs.sems[k].vl, Head(abs.sems[k].queue));
        CircleIsOne(table[..], s.sems[k].queue, abs.sems[k].queue);
      }
      assert s.sems == abs.sems;
    }

    // loader_init and sched_init, with the semaphores SEM_NEW(vls[k]).
    constructor (n: nat, slice: nat, vls: seq<nat>)
      requires n >= 2 && slice > 0
      ensures Valid() && Good(abs) && abs == Boot(n, slice, vls)
      ensures fresh(tasks) && fresh(states) && fresh(table) && fresh(sems) && fresh(freePids)
    {
      this.slice := slice;
      states := new int[n](_ => RUNNING);
      tasks := new Link[n](_ => NOWHERE);
      quantum, current, last := 0, 0, 0;
      table := new Link[n](_ => NOWHERE);
      curPid, running, blocked, nextFree := 0, 0, 0, 1;
      var links := new int[n];
      freePids := links;
      sems := new Cell[|vls|](i requires 0 <= i < |vls| => Cell(vls[i], -1));
      abs := Boot(n, slice, vls);
      new;
      links[0] := -1;
      for i := 1 to n - 1
        modifies links
        invariant forall j | 1 <= j < i :: links[j] == j + 1
      {
        links[i] := i + 1;
      }
      links[n - 1] := -1;
      BootGood(n, slice, vls);
      FreePidsAre(n);
    }

    // ---------------------------------------------------------------- sched.c

    method ConfigureTask(pd: Pid, state: int, next: int, prev: int)
      requires pd < tasks.Length == states.Length
      modifies tasks, states
      ensures tasks[..] == old(tasks[..])[pd := Link(next, prev)] && states[..] == old(states[..])[pd := state]
    {
      states[pd] := state;
      tasks[pd] := Link(next, prev);
    }

    // The two link edits of sched_load and sched_unblock.
    method Insert(pd: Pid, ghost s: State)
      requires SchedFits(s) && pd < s.n && current != 0 && pd !in s.ring
      modifies tasks
      ensures Circle(tasks[..], [s.ring[0], pd] + s.ring[1..]) && Distinct([s.ring[0], pd] + s.ring[1..])
    {
      InsertedAfter(tasks[..], s.ring, pd);
      ghost var t := tasks[..];
      tasks[pd] := tasks[pd].(prev := current);
      tasks[pd] := tasks[pd].(next := tasks[current].next);
      tasks[tasks[current].next] := tasks[tasks[current].next].(prev := pd);
      tasks[current] := tasks[current].(next := pd);
      assert tasks[..] == InsertAfter(t, current, pd);
    }

    method SchedLoad(pd: Pid, ghost s: State)
      requires SchedFits(s) && 0 < pd < s.n && pd !in s.ring
      modifies `last, tasks, states
      ensures SchedFits(Scheduling.SchedLoad(s, pd)) && states[..] == old(states[..])[pd := RUNNING]
    {
      if current == 0 {
        tasks[pd] := Link(pd, pd);
      } else {
        Insert(pd, s);
      }
      last := pd;
      ghost var r := Scheduling.SchedLoad(s, pd).ring;
      assert forall p | p in r && p != pd :: p in s.ring;
      states[pd] := RUNNING;
      assert Marked(states[..], r, RUNNING);
    }

    method SchedUnblock(pd: Pid, ghost s: State)
      requires SchedFits(s) && 0 < pd < s.n && pd !in s.ring && curPid == current
      modifies `current, `last, `curPid, tasks, states
      ensures SchedFits(Scheduling.SchedUnblock(s, pd)) && states[..] == old(states[..])[pd := RUNNING]
      ensures curPid == current
    {
      states[pd] := RUNNING;
      if current == 0 {
        tasks[pd] := Link(pd, pd);
        current := pd;
        last := current;
        SwitchTo(pd);
      } else {
        Insert(pd, s);
      }
    }

    // The running task leaves the ring.
    method Leave(state: int, ghost s: State) returns (prev: int)
      requires SchedFits(s) && 0 < current < s.n && |s.ring| > 1
      modifies `current, tasks, states
      ensures RingFits(s.ring[1..]) && states[..] == old(states[..])[old(current) := state]
      ensures prev == s.ring[|s.ring| - 1] && current == s.ring[1]
    {
      UnlinkedHead(tasks[..], s.ring);
      ghost var t := tasks[..];
      var next := tasks[current].next;
      prev := tasks[current].prev;
      tasks[next] := tasks[next].(prev := prev);
      tasks[prev] := tasks[prev].(next := next);
      MarkedTail(states[..], s.ring, RUNNING, state);
      ConfigureTask(current, state, -1, -1);
      assert tasks[..] == Unlink(t, current);
      current := next;
    }

    method SchedExit(ghost s: State) returns (next: Pid)
      requires SchedFits(s) && 0 < current < s.n
      modifies `current, `last, `quantum, tasks, states
      ensures SchedFits(Scheduling.SchedExit(s)) && states[..] == old(states[..])[old(current) := FINISHED]
      ensures next == current
    {
      quantum := slice;
      UnlinkedHead(tasks[..], s.ring);
      if tasks[current].next == current {
        last := 0;
        ConfigureTask(current, FINISHED, -1, -1);
        current := 0;
      } else {
        last := Leave(FINISHED, s.(quantum := s.slice));
      }
      return current;
    }

    method SchedBlock(ghost s: State) returns (next: Pid)
      requires SchedFits(s) && 0 < current < s.n
      modifies `current, `last, `quantum, tasks, states
      ensures SchedFits(Scheduling.SchedBlock(s)) && states[..] == old(states[..])[old(current) := BLOCKED]
      ensures next == current
    {
      quantum := slice;
      UnlinkedHead(tasks[..], s.ring);
      if tasks[current].next == current {
        last := 0;
        ConfigureTask(current, BLOCKED, -1, -1);
        current := 0;
      } else {
        var atLast := current == last;
        var prev := Leave(BLOCKED, s.(quantum := s.slice));
        if atLast { last := prev; }
      }
      return current;
    }

    method SchedTick(ghost s: State) returns (next: Pid)
      requires SchedFits(s)
      requires current == 0 && last != 0 ==> s.ring != [] && s.ring[0] == last
      modifies `current, `quantum
      ensures SchedFits(Tick(s)) && next == current
    {
      if current == 0 {
        if last != 0 {
          quantum := slice;
          current := last;
        }
        return current;
      }
      quantum := quantum - 1;
      if quantum == 0 {
        quantum := slice;
        FromSecond(tasks[..], s.ring);
        current := tasks[current].next;
      }
      return current;
    }

    // ---------------------------------------------------------------- loader.c

    // loader_switchto, as far as the bookkeeping goes.
    method SwitchTo(pd: Pid)
      modifies `curPid
      ensures curPid == pd
    {
      curPid := pd;
    }

    // loader_tick.
    method LoaderTick()
      requires Valid() && Good(abs)
      modifies this, tasks, states
      ensures Valid() && abs == Tick(old(abs))
    {
      ghost var s := abs;
      assert current == 0 && last != 0 ==> s.ring != [] && s.ring[0] == last;
      var next := SchedTick(s);
      if next != curPid { SwitchTo(next); }
      abs := Tick(s);
    }

    // get_new_pid with a free pid left.
    method GetNewPid(ghost free: seq<Pid>) returns (pd: Pid)
      requires FreeFits(free) && free != []
      modifies `nextFree
      ensures pd == free[0] && FreeFits(free[1..])
    {
      ChainTaken(freePids[..], nextFree, free);
      pd := nextFree;
      nextFree := freePids[nextFree];
    }

    method FreePid(pd: Pid, ghost free: seq<Pid>)
      requires FreeFits(free) && pd < freePids.Length && pd !in free
      modifies `nextFree, freePids
      ensures FreeFits([pd] + free)
    {
      ChainPut(freePids[..], nextFree, free, pd);
      freePids[pd] := nextFree;
      nextFree := pd;
    }

    // The bookkeeping end of loader_load and sys_fork: a fresh pid, the ring, the count.
    method Load() returns (pd: Pid)
      requires Valid() && Good(abs) && Enabled(abs, ELoad)
      modifies this, tasks, states
      ensures Valid() && abs == Scheduling.Load(old(abs)) && pd == old(abs).free[0]
    {
      ghost var s := abs;
      assert Placed(s, s.free[0]);
      FreeIsElsewhere(s, s.free[0]);
      assert s.free[0] < states.Length == s.n;
      pd := GetNewPid(s.free);
      BlockedElsewhere(s.sems, states[..], pd, RUNNING);
      SchedLoad(pd, s);
      running := running + 1;
      abs := Scheduling.Load(s);
    }

    // The bookkeeping of loader_exit.
    method Exit()
      requires Valid() && Good(abs) && current != 0
      modifies this, tasks, states, freePids
      ensures Valid() && abs == Scheduling.Exit(old(abs))
    {
      ghost var s := abs;
      assert Placed(s, s.current);
      Once(s, s.current);
      assert s.current == curPid < states.Length;
      FreePid(curPid, s.free);
      BlockedElsewhere(s.sems, states[..], curPid, FINISHED);
      running := running - 1;
      var next := SchedExit(s);
      SwitchTo(next);
      abs := Scheduling.Exit(s);
    }

    // The link edits of loader_enqueue.
    method LinkLast(k: nat, ghost s: State)
      requires LinksFit(s.sems) && Partition(s) && s.current in s.ring && s.current == curPid && table.Length == s.n
      requires k < sems.Length && sems[k].vl == 0
      modifies table, sems
      ensures LinksFit(WaitOn(s, k).sems)
    {
      ghost var t := table[..];
      Enqueued(s, t, k);
      if sems[k].q == -1 {
        table[curPid] := Link(curPid, curPid);
        sems[k] := sems[k].(q := curPid);
      } else {
        var head := sems[k].q;
        var prev := table[head].prev;
        table[prev] := table[prev].(next := curPid);
        table[head] := table[head].(prev := curPid);
        table[curPid] := Link(head, prev);
      }
      assert table[..] == Append(t, Head(s.sems[k].queue), s.current);
    }

    // loader_enqueue: the running task goes to the end of the queue of semaphore k.
    method Enqueue(k: nat)
      requires Valid() && Good(abs) && current != 0 && k < sems.Length && sems[k].vl == 0
      modifies this, tasks, states, table, sems
      ensures Valid() && abs == WaitOn(old(abs), k)
    {
      ghost var s := abs;
      assert s.current in s.ring && s.current < states.Length == s.n && sems.Length == |s.sems| && Blocks(s.sems[k]);
      LinkLast(k, s);
      BlockedByWait(s, states[..], k);
      var next := SchedBlock(s);
      blocked := blocked + 1;
      running := running - 1;
      SwitchTo(next);
      abs := WaitOn(s, k);
    }

    // The link edits of loader_unqueue.
    method UnlinkFirst(k: nat, ghost s: State)
      requires LinksFit(s.sems) && Partition(s) && k < sems.Length && sems[k].q != -1
      modifies table, sems
      ensures LinksFit(Wake(s, k).sems)
    {
      ghost var t := table[..];
      Dequeued(s, t, k);
      NoRepeats(s);
      UnlinkedHead(t, s.sems[k].queue);
      var head := sems[k].q;
      var next, prev := table[head].next, table[head].prev;
      table[next] := table[next].(prev := prev);
      table[prev] := table[prev].(next := next);
      table[head] := table[head].(next := -1);
      table[head] := table[head].(prev := -1);
      sems[k] := sems[k].(q := if next == head then -1 else next);
      assert table[..] == Unlink(t, head);
    }

    // loader_unqueue: the oldest waiter of semaphore k, if any, goes back to the ring.
    method Unqueue(k: nat)
      requires Valid() && Good(abs) && k < sems.Length
      modifies this, tasks, states, table, sems
      ensures Valid() && abs == if old(abs).sems[k].queue == [] then old(abs) else Wake(old(abs), k)
    {
      var head := sems[k].q;
      if head != -1 {
        ghost var s := abs;
        assert head in s.sems[k].queue;
        Apart(s, k, k, head);
        assert Circle(table[..], s.sems[k].queue);
        BlockedByWake(s, states[..], k, RUNNING);
        assert 0 < head < s.n == states.Length && head == s.sems[k].queue[0];
        UnlinkFirst(k, s);
        blocked := blocked - 1;
        running := running + 1;
        SchedUnblock(head, s);
        abs := Wake(s, k);
      }
    }

    // ---------------------------------------------------------------- sem.c

    method SemWait(k: nat)
      requires Valid() && Good(abs) && current != 0 && k < sems.Length
      modifies this, tasks, states, table, sems
      ensures Valid() && abs == WaitOn(old(abs), k)
    {
      if sems[k].vl > 0 {
        sems[k] := sems[k].(vl := sems[k].vl - 1);
        abs := WaitOn(abs, k);
      } else {
        Enqueue(k);
      }
    }

    method SemSignal(k: nat)
      requires Valid() && Good(abs) && k < sems.Length
      modifies this, tasks, states, table, sems
      ensures Valid() && abs == SignalOn(old(abs), k)
    {
      if sems[k].vl == 0 && sems[k].q != -1 {
        Unqueue(k);
      } else {
        sems[k] := sems[k].(vl := sems[k].vl + 1);
        abs := SignalOn(abs, k);
      }
    }

    method SemBroadcast(k: nat)
      requires Valid() && Good(abs) && current != 0 && k < sems.Length
      modifies this, tasks, states, table, sems
      ensures Valid() && abs == Broadcast(old(abs), k)
    {
      while sems[k].q != -1
        invariant Valid() && Good(abs) && current != 0 && WakeAll(abs, k) == WakeAll(old(abs), k)
        decreases |abs.sems[k].queue|
      {
        WakeInv(abs, k);
        Unqueue(k);
      }
      sems[k] := sems[k].(vl := 1);
      abs := Broadcast(abs, k);
    }

    // ---------------------------------------------------------------- whole runs

    method Do(e: Event)
      requires Valid() && Good(abs) && Enabled(abs, e)
      modifies this, tasks, states, table, sems, freePids
      ensures Valid() && Good(abs) && abs == Step(old(abs), e)
    {
      StepInv(abs, e);
      assert abs.current == current && |abs.sems| == sems.Length;
      match e
      case ELoad => var _ := Load();
      case EExit => Exit();
      case EWait(k) => SemWait(k);
      case ESignal(k) => SemSignal(k);
      case EBroadcast(k) => SemBroadcast(k);
      case ETick => LoaderTick();
    }

    // Any run allowed by the discipline, event by event, ends where the model says.
    method DoAll(es: seq<Event>)
      requires Valid() && Good(abs) && Runs(abs, es)
      modifies this, tasks, states, table, sems, freePids
      ensures Valid() && Good(abs) && abs == Run(old(abs), es)
    {
      var i := 0;
      while i < |es|
        invariant 0 <= i <= |es| && Valid() && Good(abs) && Runs(abs, es[i..])
        invariant Run(abs, es[i..]) == Run(old(abs), es)
      {
        assert es[i..][1..] == es[i + 1..];
        Do(es[i]);
        i := i + 1;
      }
    }
  }

  lemma {:induction false} FreePidsAre(n: nat)
    ensures |FreePids(n)| == (if n == 0 then 0 else n - 1) && forall i | 0 <= i < n - 1 :: FreePids(n)[i] == i + 1
  {
    if n > 1 { FreePidsAre(n - 1); }
  }

  lemma FreeIsElsewhere(s: State, p: Pid)
    requires Placed(s, p) && p in s.free
    ensures 1 <= p < s.n && p !in s.ring && forall k | 0 <= k < |s.sems| :: p !in s.sems[k].queue
  {
    OccIn(s.ring, p);
    OccIn(s.free, p);
    forall k | 0 <= k < |s.sems| ensures p !in s.sems[k].queue {
      if p in s.sems[k].queue { InQueue(s.sems, k, p); }
    }
  }
}
