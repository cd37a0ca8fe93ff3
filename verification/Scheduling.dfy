// The run ring, the wait queues and the free pids as values: sched.c and the bookkeeping
// of loader.c. Class Kernel.Kernel implements these steps with linked arrays.
module Scheduling {
  import opened Semaphores

  // n is MAX_PID and slice is QUANTUM. The ring starts at the running task, or at `last`
  // while the idle task (pid 0) runs.
  datatype State = State(
    n: nat, slice: nat,
    ring: seq<Pid>, current: Pid, last: Pid, quantum: int,
    sems: seq<Sem>, free: seq<Pid>,
    running: int, blocked: int)

  // ---------------------------------------------------------------- sched.c

  // sched_load (sched.c:32-45): the new task goes behind the current one. With the idle
  // task running it becomes a ring of its own, whatever was there.
  function SchedLoad(s: State, pd: Pid): State {
    s.(ring := if s.current == 0 || s.ring == [] then [pd] else [s.ring[0], pd] + s.ring[1..], last := pd)
  }

  // sched_unblock (sched.c:47-64); from the idle task it switches at once.
  function SchedUnblock(s: State, pd: Pid): State {
    if s.current == 0 || s.ring == [] then s.(ring := [pd], current := pd, last := pd)
    else s.(ring := [s.ring[0], pd] + s.ring[1..])
  }

  // sched_exit (sched.c:66-83).
  function SchedExit(s: State): State
    requires s.ring != []
  {
    if |s.ring| == 1 then s.(quantum := s.slice, ring := [], current := 0, last := 0)
    else s.(quantum := s.slice, ring := s.ring[1..], current := s.ring[1], last := s.ring[|s.ring| - 1])
  }

  // sched_block (sched.c:85-105).
  function SchedBlock(s: State): State
    requires s.ring != []
  {
    if |s.ring| == 1 then s.(quantum := s.slice, ring := [], current := 0, last := 0)
    else s.(quantum := s.slice, ring := s.ring[1..], current := s.ring[1],
            last := if s.current == s.last then s.ring[|s.ring| - 1] else s.last)
  }

  function Rotate(r: seq<Pid>): seq<Pid> { if r == [] then [] else r[1..] + [r[0]] }

  // sched_tick (sched.c:107-123).
  function Tick(s: State): State {
    if s.current == 0 then
      if s.last != 0 then s.(quantum := s.slice, current := s.last) else s
    else if s.quantum - 1 == 0 && s.ring != [] then
      s.(quantum := s.slice, ring := Rotate(s.ring), current := Rotate(s.ring)[0])
    else s.(quantum := s.quantum - 1)
  }

  // ---------------------------------------------------------------- loader.c

  // The bookkeeping end of loader_load and sys_fork: a pid, its place in the ring, the count.
  function Load(s: State): State
    requires s.free != []
  {
    SchedLoad(s, s.free[0]).(free := s.free[1..], running := s.running + 1)
  }

  // loader_exit: the running pid is freed.
  function Exit(s: State): State
    requires s.ring != []
  {
    SchedExit(s).(free := [s.current] + s.free, running := s.running - 1)
  }

  // sem_wait by the running task on semaphore k.
  function WaitOn(s: State, k: nat): State
    requires k < |s.sems| && s.ring != []
  {
    var t := s.(sems := s.sems[k := Wait(s.sems[k], s.current)]);
    if Blocks(s.sems[k]) then SchedBlock(t).(running := s.running - 1, blocked := s.blocked + 1) else t
  }

  // loader_unqueue (loader.c:141-157): the oldest waiter of semaphore k goes back to the ring.
  function Wake(s: State, k: nat): State
    requires k < |s.sems| && s.sems[k].queue != []
  {
    var q := s.sems[k].queue;
    SchedUnblock(s.(sems := s.sems[k := s.sems[k].(queue := q[1..])],
                    running := s.running + 1, blocked := s.blocked - 1), q[0])
  }

  // sem_signal on semaphore k.
  function SignalOn(s: State, k: nat): State
    requires k < |s.sems|
  {
    if Woken(s.sems[k]).Some? then Wake(s, k) else s.(sems := s.sems[k := Signal(s.sems[k])])
  }

  // sem_broadcast on semaphore k: everybody is woken and one place is left free.
  function WakeAll(s: State, k: nat): (t: State)
    requires k < |s.sems|
    ensures |t.sems| == |s.sems| && t.sems[k].queue == [] && t.n == s.n
    decreases |s.sems[k].queue|
  {
    if s.sems[k].queue == [] then s else WakeAll(Wake(s, k), k)
  }

  function Broadcast(s: State, k: nat): State
    requires k < |s.sems|
  {
    var t := WakeAll(s, k);
    t.(sems := t.sems[k := New(1)])
  }

  // ---------------------------------------------------------------- the invariant

  // How often p occurs in a sequence, and in all the wait queues.
  function Occ(r: seq<Pid>, p: Pid): nat { if r == [] then 0 else (if r[0] == p then 1 else 0) + Occ(r[1..], p) }

  function WaitOcc(sems: seq<Sem>, p: Pid): nat {
    if sems == [] then 0 else Occ(sems[0].queue, p) + WaitOcc(sems[1..], p)
  }

  function WaitingCount(sems: seq<Sem>): nat {
    if sems == [] then 0 else |sems[0].queue| + WaitingCount(sems[1..])
  }

  // Pid p is in exactly one place: the ring, one wait queue, or the free list. The idle
  // task is in none.
  ghost predicate Placed(s: State, p: Pid) {
    Occ(s.ring, p) + WaitOcc(s.sems, p) + Occ(s.free, p) == if 1 <= p < s.n then 1 else 0
  }

  ghost predicate Partition(s: State) { forall p: Pid :: Placed(s, p) }

  ghost predicate Counted(s: State) { s.running == |s.ring| && s.blocked == WaitingCount(s.sems) }

  // The ring and its two entry points. Only the task loaded at boot waits for the idle
  // task to be interrupted, and nothing is blocked then.
  ghost predicate RingState(s: State) {
    if s.ring == [] then s.current == 0 && s.last == 0
    else s.last in s.ring && s.ring[0] == (if s.current == 0 then s.last else s.current) &&
         (s.current == 0 ==> |s.ring| == 1 && WaitingCount(s.sems) == 0)
  }

  ghost predicate QuantumState(s: State) {
    && s.slice > 0 && (s.current != 0 ==> 1 <= s.quantum <= s.slice)
    && (s.current == 0 && WaitingCount(s.sems) > 0 ==> s.quantum == s.slice)
  }

  ghost predicate QueueState(s: State) { forall k | 0 <= k < |s.sems| :: s.sems[k].queue != [] ==> s.sems[k].vl == 0 }

  ghost predicate Good(s: State) { Partition(s) && Counted(s) && RingState(s) && QuantumState(s) && QueueState(s) }

  // ---------------------------------------------------------------- runs

  datatype Event = ELoad | EExit | EWait(k: nat) | ESignal(k: nat) | EBroadcast(k: nat) | ETick

  // The run discipline: the idle task loads at boot only, and neither waits, broadcasts
  // nor exits.
  ghost predicate Enabled(s: State, e: Event) {
    match e
    case ELoad => s.free != [] && (s.current != 0 || (s.ring == [] && WaitingCount(s.sems) == 0))
    case EExit => s.current != 0
    case EWait(k) => s.current != 0 && k < |s.sems|
    case ESignal(k) => k < |s.sems|
    case EBroadcast(k) => s.current != 0 && k < |s.sems|
    case ETick => true
  }

  ghost function Step(s: State, e: Event): State
    requires Good(s) && Enabled(s, e)
  {
    match e
    case ELoad => Load(s)
    case EExit => Exit(s)
    case EWait(k) => WaitOn(s, k)
    case ESignal(k) => SignalOn(s, k)
    case EBroadcast(k) => Broadcast(s, k)
    case ETick => Tick(s)
  }

  lemma {:induction false} OccJoin(a: seq<Pid>, b: seq<Pid>, p: Pid)
    ensures Occ(a + b, p) == Occ(a, p) + Occ(b, p)
  {
    if a == [] {
      assert a + b == b;
    } else {
      assert (a + b)[1..] == a[1..] + b;
      OccJoin(a[1..], b, p);
    }
  }

  lemma {:induction false} OccIn(r: seq<Pid>, p: Pid)
    ensures Occ(r, p) > 0 <==> p in r
  {
    if r != [] { OccIn(r[1..], p); }
  }

  lemma OccOne(x: Pid, p: Pid)
    ensures Occ([x], p) == if x == p then 1 else 0
  {
    assert [x][1..] == [];
  }

  // One semaphore replaced.
  lemma {:induction false} WaitOccUpdate(sems: seq<Sem>, k: nat, x: Sem, p: Pid)
    requires k < |sems|
    ensures WaitOcc(sems[k := x], p) == WaitOcc(sems, p) - Occ(sems[k].queue, p) + Occ(x.queue, p)
  {
    if k == 0 {
      assert sems[0 := x][1..] == sems[1..];
    } else {
      WaitOccUpdate(sems[1..], k - 1, x, p);
      assert sems[k := x][1..] == sems[1..][k - 1 := x];
    }
  }

  lemma {:induction false} CountUpdate(sems: seq<Sem>, k: nat, x: Sem)
    requires k < |sems|
    ensures WaitingCount(sems[k := x]) == WaitingCount(sems) - |sems[k].queue| + |x.queue|
    ensures WaitingCount(sems) >= |sems[k].queue|
  {
    if k == 0 {
      assert sems[0 := x][1..] == sems[1..];
    } else {
      CountUpdate(sems[1..], k - 1, x);
      assert sems[k := x][1..] == sems[1..][k - 1 := x];
    }
  }

  // The head of a ring, a task put behind it, and the ring turned by one.
  lemma OccRing(r: seq<Pid>, pd: Pid, p: Pid)
    requires r != []
    ensures Occ(r, p) == Occ([r[0]], p) + Occ(r[1..], p)
    ensures Occ([r[0], pd] + r[1..], p) == Occ(r, p) + Occ([pd], p)
    ensures Occ(Rotate(r), p) == Occ(r, p)
  {
    OccOne(r[0], p);
    OccOne(pd, p);
    OccJoin(r[1..], [r[0]], p);
    var x := [r[0], pd] + r[1..];
    assert x[1..] == [pd] + r[1..];
    OccJoin([pd], r[1..], p);
  }

  lemma NoIdle(s: State)
    requires Partition(s)
    ensures 0 !in s.ring && forall k | 0 <= k < |s.sems| :: 0 !in s.sems[k].queue
  {
    assert Placed(s, 0);
    OccIn(s.ring, 0);
    forall k | 0 <= k < |s.sems| ensures 0 !in s.sems[k].queue {
      if 0 in s.sems[k].queue { InQueue(s.sems, k, 0); }
    }
  }

  lemma WaitPlaced(s: State, k: nat, p: Pid)
    requires s.ring != [] && s.current == s.ring[0] && k < |s.sems| && Placed(s, p)
    ensures Placed(WaitOn(s, k), p)
  {
    WaitOccUpdate(s.sems, k, Wait(s.sems[k], s.current), p);
    OccJoin(s.sems[k].queue, [s.current], p);
    OccRing(s.ring, 0, p);
    if |s.ring| == 1 { assert s.ring[1..] == []; }
  }

  lemma WaitInv(s: State, k: nat)
    requires Good(s) && s.current != 0 && k < |s.sems|
    ensures Good(WaitOn(s, k))
  {
    forall p: Pid ensures Placed(WaitOn(s, k), p) { assert Placed(s, p); WaitPlaced(s, k, p); }
    CountUpdate(s.sems, k, Wait(s.sems[k], s.current));
    NoIdle(s);
    if |s.ring| > 1 { assert s.last == s.ring[0] || s.last in s.ring[1..]; }
  }

  lemma WakePlaced(s: State, k: nat, p: Pid)
    requires k < |s.sems| && s.sems[k].queue != [] && Placed(s, p) && (s.current == 0 || s.ring == [] ==> s.ring == [])
    ensures Placed(Wake(s, k), p)
  {
    var q := s.sems[k].queue;
    WaitOccUpdate(s.sems, k, s.sems[k].(queue := q[1..]), p);
    OccRing(q, 0, p);
    if s.ring != [] { OccRing(s.ring, q[0], p); }
  }

  lemma WakeInv(s: State, k: nat)
    requires Good(s) && k < |s.sems| && s.sems[k].queue != []
    ensures Good(Wake(s, k)) && Wake(s, k).current != 0
  {
    CountUpdate(s.sems, k, s.sems[k].(queue := s.sems[k].queue[1..]));
    NoIdle(s);
    assert s.sems[k].queue[0] in s.sems[k].queue;
    forall p: Pid ensures Placed(Wake(s, k), p) { assert Placed(s, p); WakePlaced(s, k, p); }
  }

  lemma SignalInv(s: State, k: nat)
    requires Good(s) && k < |s.sems|
    ensures Good(SignalOn(s, k))
  {
    if Woken(s.sems[k]).Some? {
      WakeInv(s, k);
    } else {
      CountUpdate(s.sems, k, Signal(s.sems[k]));
      forall p: Pid ensures Placed(SignalOn(s, k), p) {
        assert Placed(s, p);
        WaitOccUpdate(s.sems, k, Signal(s.sems[k]), p);
      }
    }
  }

  function Reversed(q: seq<Pid>): seq<Pid> { if q == [] then [] else Reversed(q[1..]) + [q[0]] }

  // A broadcast puts the waiters behind the running task, the last to arrive first, and
  // moves nobody else.
  lemma {:induction false} WakeAllOrder(s: State, k: nat)
    requires Good(s) && k < |s.sems| && s.current != 0
    ensures var t := WakeAll(s, k);
      && Good(t) && t.current == s.current
      && t.ring == [s.ring[0]] + Reversed(s.sems[k].queue) + s.ring[1..]
      && t.sems == s.sems[k := s.sems[k].(queue := [])]
    decreases |s.sems[k].queue|
  {
    var q := s.sems[k].queue;
    if q == [] {
      assert s.ring == [s.ring[0]] + [] + s.ring[1..];
    } else {
      WakeInv(s, k);
      var u := Wake(s, k);
      assert u.ring[1..] == [q[0]] + s.ring[1..];
      WakeAllOrder(u, k);
      assert [s.ring[0]] + Reversed(q[1..]) + ([q[0]] + s.ring[1..]) == [s.ring[0]] + Reversed(q) + s.ring[1..];
    }
  }

  lemma BroadcastInv(s: State, k: nat)
    requires Good(s) && k < |s.sems| && s.current != 0
    ensures Good(Broadcast(s, k))
    ensures Broadcast(s, k).ring == [s.ring[0]] + Reversed(s.sems[k].queue) + s.ring[1..]
    ensures Broadcast(s, k).sems == s.sems[k := New(1)]
  {
    WakeAllOrder(s, k);
    var t := WakeAll(s, k);
    CountUpdate(t.sems, k, New(1));
    forall p: Pid ensures Placed(Broadcast(s, k), p) {
      assert Placed(t, p);
      WaitOccUpdate(t.sems, k, New(1), p);
    }
  }

  lemma LoadPlaced(s: State, p: Pid)
    requires s.free != [] && Placed(s, p) && (s.current == 0 ==> s.ring == [])
    ensures Placed(Load(s), p)
  {
    OccRing(s.free, 0, p);
    if s.ring != [] { OccRing(s.ring, s.free[0], p); }
  }

  lemma LoadInv(s: State)
    requires Good(s) && Enabled(s, ELoad)
    ensures Good(Load(s))
  {
    forall p: Pid ensures Placed(Load(s), p) { assert Placed(s, p); LoadPlaced(s, p); }
  }

  lemma ExitPlaced(s: State, p: Pid)
    requires s.ring != [] && s.current == s.ring[0] && Placed(s, p)
    ensures Placed(Exit(s), p)
  {
    OccRing(s.ring, 0, p);
    OccOne(s.current, p);
    assert ([s.current] + s.free)[1..] == s.free;
    if |s.ring| == 1 { assert s.ring[1..] == []; }
  }

  lemma ExitInv(s: State)
    requires Good(s) && s.current != 0
    ensures Good(Exit(s))
  {
    forall p: Pid ensures Placed(Exit(s), p) { assert Placed(s, p); ExitPlaced(s, p); }
    NoIdle(s);
  }

  lemma TickInv(s: State)
    requires Good(s)
    ensures Good(Tick(s))
  {
    forall p: Pid ensures Placed(Tick(s), p) {
      assert Placed(s, p);
      if s.ring != [] { OccRing(s.ring, 0, p); }
    }
    NoIdle(s);
    if s.ring != [] { assert s.last == s.ring[0] || s.last in s.ring[1..]; }
  }

  lemma StepInv(s: State, e: Event)
    requires Good(s) && Enabled(s, e)
    ensures Good(Step(s, e))
  {
    match e
    case ELoad => LoadInv(s);
    case EExit => ExitInv(s);
    case EWait(k) => WaitInv(s, k);
    case ESignal(k) => SignalInv(s, k);
    case EBroadcast(k) => BroadcastInv(s, k);
    case ETick => TickInv(s);
  }

  ghost predicate Runs(s: State, es: seq<Event>)
    requires Good(s)
    decreases |es|
  {
    if es == [] then true else Enabled(s, es[0]) && (StepInv(s, es[0]); Runs(Step(s, es[0]), es[1..]))
  }

  ghost function Run(s: State, es: seq<Event>): (t: State)
    requires Good(s) && Runs(s, es)
    ensures Good(t) && t.n == s.n
    decreases |es|
  {
    if es == [] then s else (StepInv(s, es[0]); Run(Step(s, es[0]), es[1..]))
  }

  function FreePids(n: nat): seq<Pid> { if n <= 1 then [] else FreePids(n - 1) + [n - 1] }

  lemma {:induction false} FreePidsAll(n: nat, p: Pid)
    ensures Occ(FreePids(n), p) == if 1 <= p < n then 1 else 0
  {
    if n > 1 {
      FreePidsAll(n - 1, p);
      OccJoin(FreePids(n - 1), [n - 1], p);
      OccOne(n - 1, p);
    }
  }

  // loader_init and sched_init: nothing loaded, every pid free in order.
  function Boot(n: nat, slice: nat, vls: seq<nat>): State {
    State(n, slice, [], 0, 0, 0, seq(|vls|, i requires 0 <= i < |vls| => New(vls[i])), FreePids(n), 0, 0)
  }

  lemma {:induction false} NobodyWaits(sems: seq<Sem>, p: Pid)
    requires forall k | 0 <= k < |sems| :: sems[k].queue == []
    ensures WaitOcc(sems, p) == 0 && WaitingCount(sems) == 0
  {
    if sems != [] { NobodyWaits(sems[1..], p); }
  }

  lemma BootGood(n: nat, slice: nat, vls: seq<nat>)
    requires slice > 0
    ensures Good(Boot(n, slice, vls))
  {
    var s := Boot(n, slice, vls);
    forall p: Pid ensures Placed(s, p) { FreePidsAll(n, p); NobodyWaits(s.sems, p); }
    NobodyWaits(s.sems, 0);
  }

  lemma {:induction false} InQueue(sems: seq<Sem>, k: nat, p: Pid)
    requires k < |sems| && p in sems[k].queue
    ensures WaitOcc(sems, p) >= Occ(sems[k].queue, p) > 0
  {
    OccIn(sems[k].queue, p);
    if k > 0 { InQueue(sems[1..], k - 1, p); }
  }

  lemma {:induction false} TwoQueues(sems: seq<Sem>, k: nat, l: nat, p: Pid)
    requires k < l < |sems| && p in sems[k].queue && p in sems[l].queue
    ensures WaitOcc(sems, p) >= 2
  {
    if k == 0 {
      OccIn(sems[0].queue, p);
      InQueue(sems[1..], l - 1, p);
    } else {
      TwoQueues(sems[1..], k - 1, l - 1, p);
    }
  }

  lemma {:induction false} SomeQueue(sems: seq<Sem>, p: Pid) returns (k: nat)
    requires WaitOcc(sems, p) > 0
    ensures k < |sems| && p in sems[k].queue
  {
    OccIn(sems[0].queue, p);
    if p in sems[0].queue {
      k := 0;
    } else {
      k := SomeQueue(sems[1..], p);
      k := k + 1;
    }
  }

  ghost predicate Waits(s: State, k: nat, p: Pid) { k < |s.sems| && p in s.sems[k].queue }

  // In every reachable state a pid other than 0 is in exactly one place, and no pid waits
  // in two queues; the counts the kernel shows are those of the places, and the running
  // task is the head of the ring with some of its quantum left.
  lemma OnePlace(n: nat, slice: nat, vls: seq<nat>, es: seq<Event>, p: Pid)
    requires slice > 0 && (BootGood(n, slice, vls); Runs(Boot(n, slice, vls), es)) && 1 <= p < n
    ensures (BootGood(n, slice, vls); var s := Run(Boot(n, slice, vls), es);
      && (p in s.ring ==> p !in s.free && forall k :: !Waits(s, k, p))
      && (p in s.free ==> p !in s.ring && forall k :: !Waits(s, k, p))
      && (forall k, l :: Waits(s, k, p) && Waits(s, l, p) ==> k == l)
      && (p in s.ring || p in s.free || exists k :: Waits(s, k, p))
      && s.running == |s.ring| && s.blocked == WaitingCount(s.sems)
      && (s.current != 0 ==> s.ring != [] && s.current == s.ring[0] && 1 <= s.quantum <= s.slice))
  {
    BootGood(n, slice, vls);
    var s := Run(Boot(n, slice, vls), es);
    assert Placed(s, p);
    OccIn(s.ring, p);
    OccIn(s.free, p);
    forall k: nat, l: nat | Waits(s, k, p) && Waits(s, l, p) ensures k == l {
      if k < l { TwoQueues(s.sems, k, l, p); }
      if l < k { TwoQueues(s.sems, l, k, p); }
    }
    forall k: nat | Waits(s, k, p) ensures WaitOcc(s.sems, p) > 0 { InQueue(s.sems, k, p); }
    if WaitOcc(s.sems, p) > 0 {
      var k := SomeQueue(s.sems, p);
      assert Waits(s, k, p);
    }
  }

  // ---------------------------------------------------------------- dropped tasks

  // sched_load tests current_pid, not last: it keeps every task in its place exactly when
  // a task is running or the ring is empty.
  lemma LoadKeepsExactly(s: State)
    requires Partition(s) && s.free != [] && (s.current != 0 ==> s.ring != [])
    ensures Partition(Load(s)) <==> s.current != 0 || s.ring == []
  {
    if s.current != 0 || s.ring == [] {
      forall p: Pid ensures Placed(Load(s), p) { assert Placed(s, p); LoadPlaced(s, p); }
    } else {
      var p := s.ring[0];
      assert Placed(s, p);
      Once(s, p);
      OccRing(s.free, 0, p);
      OccOne(s.free[0], p);
      assert !Placed(Load(s), p);
    }
  }

  // A pid of the ring is in no other place.
  lemma Once(s: State, p: Pid)
    requires Placed(s, p) && p in s.ring
    ensures Occ(s.ring, p) == 1 && WaitOcc(s.sems, p) == 0 && Occ(s.free, p) == 0 && p !in s.free
    ensures forall k | 0 <= k < |s.sems| :: p !in s.sems[k].queue
  {
    OccIn(s.ring, p);
    OccIn(s.free, p);
    forall k | 0 <= k < |s.sems| ensures p !in s.sems[k].queue {
      if p in s.sems[k].queue { InQueue(s.sems, k, p); }
    }
  }

  // So does the wake-up of a waiter.
  lemma WakeKeepsExactly(s: State, k: nat)
    requires Partition(s) && k < |s.sems| && Woken(s.sems[k]).Some? && (s.current != 0 ==> s.ring != [])
    ensures Partition(SignalOn(s, k)) <==> s.current != 0 || s.ring == []
  {
    if s.current != 0 || s.ring == [] {
      forall p: Pid ensures Placed(SignalOn(s, k), p) { assert Placed(s, p); WakePlaced(s, k, p); }
    } else {
      var p := s.ring[0];
      assert Placed(s, p);
      Once(s, p);
      WaitOccUpdate(s.sems, k, Signal(s.sems[k]), p);
      OccRing(s.sems[k].queue, 0, p);
      OccOne(s.sems[k].queue[0], p);
      assert !Placed(SignalOn(s, k), p);
    }
  }

  // A run that ends there: the idle task loads one program, and before it is interrupted
  // another. Pid 1 is then in no place.
  lemma LoadDrops(n: nat, slice: nat, vls: seq<nat>)
    requires n > 2 && slice > 0
    ensures (BootGood(n, slice, vls); var s := Boot(n, slice, vls);
      && Runs(s, [ELoad]) && Run(s, [ELoad]) == Load(s) && Load(s).free != []
      && !Partition(Load(Load(s))) && Load(Load(s)).ring == [2] && 1 !in Load(Load(s)).free)
  {
    BootGood(n, slice, vls);
    var s := Boot(n, slice, vls);
    NobodyWaits(s.sems, 0);
    FirstFree(n);
    assert Enabled(s, ELoad);
    StepInv(s, ELoad);
    var t := Load(s);
    assert [ELoad][1..] == [] && Runs(t, []) && Run(t, []) == t;
    LoadKeepsExactly(t);
    FreePidsAll(n, 1);
    FreePidsAll(n, 2);
    assert t.ring == [1] && t.free == FreePids(n)[1..] && t.free[0] == 2;
    OccRing(s.free, 0, 1);
    OccOne(1, 1);
    OccIn(t.free[1..], 1);
    OccRing(t.free, 0, 1);
    OccOne(2, 1);
  }

  lemma {:induction false} FirstFree(n: nat)
    requires n > 2
    ensures |FreePids(n)| == n - 1 && FreePids(n)[0] == 1 && FreePids(n)[1] == 2
  {
    if n == 3 {
      assert FreePids(1) == [] && FreePids(2) == [] + [1] && FreePids(3) == FreePids(2) + [2];
    } else {
      FirstFree(n - 1);
    }
  }

  // And a wake-up: the only task waits on semaphore 0, the idle task loads a program, and
  // an interrupt signals the semaphore before the program has run. Pid 2 is dropped.
  lemma WakeDrops(n: nat, slice: nat)
    requires n > 2 && slice > 0
    ensures (BootGood(n, slice, [0]); var es := [ELoad, ETick, EWait(0)];
      && Runs(Boot(n, slice, [0]), es) && Run(Boot(n, slice, [0]), es).free != []
      && var s := Load(Run(Boot(n, slice, [0]), es));
         s.ring == [2] && s.sems[0].queue == [1] && Partition(s) && !Partition(SignalOn(s, 0)) && SignalOn(s, 0).ring == [1])
  {
    BootGood(n, slice, [0]);
    var s0 := Boot(n, slice, [0]);
    NobodyWaits(s0.sems, 0);
    FirstFree(n);
    var s1 := Load(s0);
    var s2 := Tick(s1);
    var s3 := WaitOn(s2, 0);
    assert Enabled(s0, ELoad);
    StepInv(s0, ELoad);
    StepInv(s1, ETick);
    assert s1.ring == [1] && s2.current == 1;
    StepInv(s2, EWait(0));
    assert Runs(s3, []) && Run(s3, []) == s3;
    ThreeSteps(s0, ELoad, ETick, EWait(0), s1, s2, s3);
    assert s3.ring == [] && s3.sems[0].queue == [1] && s3.free[0] == 2;
    LoadKeepsExactly(s3);
    WakeKeepsExactly(Load(s3), 0);
  }

  lemma ThreeSteps(s0: State, a: Event, b: Event, c: Event, s1: State, s2: State, s3: State)
    requires Good(s0) && Enabled(s0, a) && s1 == Step(s0, a)
    requires Good(s1) && Enabled(s1, b) && s2 == Step(s1, b)
    requires Good(s2) && Enabled(s2, c) && s3 == Step(s2, c)
    ensures Runs(s0, [a, b, c]) && Run(s0, [a, b, c]) == s3
  {
    StepInv(s2, c);
    hide Good, Enabled, Step;
    assert [c][1..] == [] && [b, c][1..] == [c] && [a, b, c][1..] == [b, c];
    assert Runs(s3, []) && Run(s3, []) == s3;
    assert Runs(s2, [c]) && Run(s2, [c]) == s3;
    assert Runs(s1, [b, c]) && Run(s1, [b, c]) == s3;
  }

  // ---------------------------------------------------------------- fairness

  function Ticks(s: State, t: nat): State
    decreases t
  {
    if t == 0 then s else Ticks(Tick(s), t - 1)
  }

  // How many of the next t ticks find p running.
  function Share(s: State, t: nat, p: Pid): nat
    decreases t
  {
    if t == 0 then 0 else (if s.current == p then 1 else 0) + Share(Tick(s), t - 1, p)
  }

  lemma {:induction false} TicksJoin(s: State, a: nat, b: nat, p: Pid)
    ensures Ticks(s, a + b) == Ticks(Ticks(s, a), b)
    ensures Share(s, a + b, p) == Share(s, a, p) + Share(Ticks(s, a), b, p)
    decreases a
  {
    if a > 0 { TicksJoin(Tick(s), a - 1, b, p); }
  }

  ghost predicate Active(s: State) {
    s.ring != [] && s.current == s.ring[0] && s.current != 0 && 0 !in s.ring && 1 <= s.quantum <= s.slice
  }

  // Fewer ticks than the quantum left change only the quantum.
  lemma {:induction false} PartSlice(s: State, t: nat, p: Pid)
    requires Active(s) && t < s.quantum
    ensures Ticks(s, t) == s.(quantum := s.quantum - t) && Share(s, t, p) == if s.current == p then t else 0
    decreases t
  {
    if t > 0 { PartSlice(Tick(s), t - 1, p); }
  }

  function Turned(s: State, r: seq<Pid>): State
    requires r != []
  {
    s.(ring := r, current := r[0], quantum := s.slice)
  }

  // The rest of a quantum passes the turn on.
  lemma RestOfSlice(s: State, p: Pid)
    requires Active(s)
    ensures Ticks(s, s.quantum) == Turned(s, Rotate(s.ring)) && Share(s, s.quantum, p) == if s.current == p then s.quantum else 0
  {
    PartSlice(s, s.quantum - 1, p);
    TicksJoin(s, s.quantum - 1, 1, p);
    var u := s.(quantum := 1);
    assert Ticks(u, 1) == Tick(u) by { assert Ticks(Tick(u), 0) == Tick(u); }
    assert Share(u, 1, p) == (if u.current == p then 1 else 0) by { assert Share(Tick(u), 0, p) == 0; }
  }

  function RotateBy(r: seq<Pid>, m: nat): seq<Pid> requires m <= |r| { r[m..] + r[..m] }

  lemma RotateOnce(r: seq<Pid>, m: nat)
    requires m < |r|
    ensures Rotate(RotateBy(r, m)) == RotateBy(r, m + 1) && RotateBy(r, m)[0] == r[m] && RotateBy(r, |r|) == r
  {
    var x := RotateBy(r, m);
    assert x[1..] == r[m + 1..] + r[..m];
    assert r[..m + 1] == r[..m] + [r[m]];
  }

  // m quanta, as a sum.
  function Quanta(slice: nat, m: nat): nat { if m == 0 then 0 else Quanta(slice, m - 1) + slice }

  lemma {:induction false} QuantaIsProduct(slice: nat, m: nat)
    ensures Quanta(slice, m) == slice * m
  {
    if m > 0 {
      QuantaIsProduct(slice, m - 1);
      assert slice * (m - 1) + slice == slice * m;
    }
  }

  lemma NextQuantum(slice: nat, m: nat)
    ensures Quanta(slice, m + 1) == Quanta(slice, m) + slice
  {
  }

  // m whole quanta from a fresh turn.
  lemma {:induction false} WholeSlices(s: State, m: nat, p: Pid)
    requires Active(s) && s.quantum == s.slice && m <= |s.ring|
    ensures Ticks(s, Quanta(s.slice, m)) == Turned(s, RotateBy(s.ring, m))
    ensures Share(s, Quanta(s.slice, m), p) == Quanta(s.slice, Occ(s.ring[..m], p))
  {
    if m == 0 {
      assert s.ring[..0] == [] && RotateBy(s.ring, 0) == s.ring;
    } else {
      assert Quanta(s.slice, m) == Quanta(s.slice, m - 1) + s.slice;
      NextQuantum(s.slice, Occ(s.ring[..m - 1], p));
      hide Ticks, Share, Quanta, Occ;
      WholeSlices(s, m - 1, p);
      OccSnoc(s.ring, m - 1, p);
      NextTurn(s, m - 1, p);
      TicksJoin(s, Quanta(s.slice, m - 1), s.slice, p);
    }
  }

  lemma OccSnoc(r: seq<Pid>, m: nat, p: Pid)
    requires m < |r|
    ensures Occ(r[..m + 1], p) == Occ(r[..m], p) + (if r[m] == p then 1 else 0)
  {
    assert r[..m + 1] == r[..m] + [r[m]];
    OccJoin(r[..m], [r[m]], p);
    OccOne(r[m], p);
  }

  // The quantum of task m of the ring.
  lemma NextTurn(s: State, m: nat, p: Pid)
    requires Active(s) && m < |s.ring|
    ensures var u := Turned(s, RotateBy(s.ring, m));
      Ticks(u, s.slice) == Turned(s, RotateBy(s.ring, m + 1)) && Share(u, s.slice, p) == if s.ring[m] == p then s.slice else 0
  {
    var u := Turned(s, RotateBy(s.ring, m));
    RotateOnce(s.ring, m);
    assert 0 !in u.ring;
    hide Ticks, Share;
    RestOfSlice(u, p);
  }

  // Round-robin fairness: from any running state of n tasks, slice * n ticks come back to
  // the same state, and each task was running for exactly slice of them.
  lemma RoundRobin(s: State, p: Pid)
    requires Good(s) && s.current != 0
    ensures Ticks(s, s.slice * |s.ring|) == s
    ensures p in s.ring ==> Share(s, s.slice * |s.ring|, p) == s.slice
    ensures p !in s.ring ==> Share(s, s.slice * |s.ring|, p) == 0
  {
    RingOnce(s, p);
    NoIdle(s);
    OccRing(s.ring, 0, p);
    OccOne(s.ring[0], p);
    OccIn(s.ring, p);
    QuantaOne(s.slice, Occ(s.ring[1..], p));
    var most, rest := s.quantum + Quanta(s.slice, |s.ring| - 1), s.slice - s.quantum;
    InTicks(s.slice, |s.ring|);
    assert Active(s) && s.slice * |s.ring| == most + rest;
    hide Good, Partition, Quanta, Occ, Ticks, Share, QuantumState, RingState;
    FullTurn(s, most, rest, p);
  }

  lemma InTicks(slice: nat, n: nat)
    requires n > 0
    ensures slice * n == Quanta(slice, n - 1) + slice
  {
    QuantaIsProduct(slice, n);
    NextQuantum(slice, n - 1);
  }

  lemma FullTurn(s: State, most: nat, rest: nat, p: Pid)
    requires Active(s) && most == s.quantum + Quanta(s.slice, |s.ring| - 1) && rest == s.slice - s.quantum
    ensures Ticks(s, most + rest) == s
    ensures Share(s, most + rest, p) == (if s.current == p then s.slice else 0) + Quanta(s.slice, Occ(s.ring[1..], p))
  {
    hide Ticks, Share, Quanta, Occ;
    Turn(s, p);
    PartSlice(s.(quantum := s.slice), rest, p);
    TicksJoin(s, most, rest, p);
  }

  lemma QuantaOne(slice: nat, m: nat)
    ensures m == 0 ==> Quanta(slice, m) == 0
    ensures m == 1 ==> Quanta(slice, m) == slice
  {
    assert Quanta(slice, 0) == 0;
  }

  // The rest of the quantum, then one quantum for everybody else.
  lemma Turn(s: State, p: Pid)
    requires Active(s)
    ensures Ticks(s, s.quantum + Quanta(s.slice, |s.ring| - 1)) == s.(quantum := s.slice)
    ensures Share(s, s.quantum + Quanta(s.slice, |s.ring| - 1), p) ==
      (if s.current == p then s.quantum else 0) + Quanta(s.slice, Occ(s.ring[1..], p))
  {
    var n, r := |s.ring|, Rotate(s.ring);
    hide Ticks, Share, Quanta, Occ;
    RestOfSlice(s, p);
    var u := Turned(s, r);
    assert 0 !in r;
    WholeSlices(u, n - 1, p);
    RotateBack(s.ring);
    TicksJoin(s, s.quantum, Quanta(s.slice, n - 1), p);
  }

  lemma RotateBack(r: seq<Pid>)
    requires r != []
    ensures RotateBy(Rotate(r), |r| - 1) == r && Rotate(r)[..|r| - 1] == r[1..]
  {
  }

  // A pid is in the ring at most once, and never pid 0.
  lemma RingOnce(s: State, p: Pid)
    requires Partition(s)
    ensures Occ(s.ring, p) <= 1 && Occ(s.ring, 0) == 0
  {
    assert Placed(s, p) && Placed(s, 0);
  }

  // ---------------------------------------------------------------- who runs next

  lemma GoodIsActive(s: State)
    requires Good(s) && s.current != 0
    ensures Active(s)
  {
    NoIdle(s);
  }

  // Whoever starts to run, because the task before it blocked, exited or used up its quantum,
  // or because the idle task found it or woke it, does so for a whole quantum; and nothing
  // but ticks uses a quantum up.
  lemma StartsWhole(s: State, e: Event)
    requires Good(s) && Enabled(s, e)
    ensures var t := Step(s, e);
      && (t.current != s.current && t.current != 0 ==> Share(t, s.slice, t.current) == s.slice)
      && (t.current == s.current && !e.ETick? ==> t.quantum == s.quantum)
  {
    StepInv(s, e);
    if e.EBroadcast? { WakeAllQuantum(s, e.k); WakeAllOrder(s, e.k); }
    if |s.ring| > 1 { NextDiffers(s); }
    var t := Step(s, e);
    if t.current != s.current && t.current != 0 {
      StartQuantum(s, e);
      GoodIsActive(t);
      hide Good, Step, Share;
      RestOfSlice(t, t.current);
    }
  }

  lemma NextDiffers(s: State)
    requires Partition(s) && |s.ring| > 1
    ensures s.ring[0] != s.ring[1]
  {
    var p := s.ring[1];
    RingOnce(s, p);
    OccRing(s.ring, 0, p);
    OccOne(s.ring[0], p);
    assert p == s.ring[1..][0];
    OccIn(s.ring[1..], p);
  }

  lemma StartQuantum(s: State, e: Event)
    requires Good(s) && Enabled(s, e) && Step(s, e).current != s.current && Step(s, e).current != 0
    ensures Step(s, e).quantum == s.slice == Step(s, e).slice
  {
    if e.EBroadcast? { WakeAllOrder(s, e.k); }
    if e.ESignal? { CountUpdate(s.sems, e.k, s.sems[e.k]); }
  }

  lemma {:induction false} WakeAllQuantum(s: State, k: nat)
    requires k < |s.sems| && s.current != 0 && s.ring != []
    ensures WakeAll(s, k).quantum == s.quantum && WakeAll(s, k).slice == s.slice
    decreases |s.sems[k].queue|
  {
    if s.sems[k].queue != [] { WakeAllQuantum(Wake(s, k), k); }
  }

  // A task that blocks or exits is followed by the one behind it.
  lemma BlockedHandsOn(s: State, k: nat)
    requires Good(s) && s.current != 0 && k < |s.sems|
    ensures WaitOn(s, k).current == if !Blocks(s.sems[k]) then s.current else if |s.ring| > 1 then s.ring[1] else 0
    ensures Exit(s).current == if |s.ring| > 1 then s.ring[1] else 0
  {
  }

  // Task p comes next: it runs for a whole quantum once the running one has used up its own,
  // and then those follow who would have.
  ghost predicate ComesNext(s: State, t: State, p: Pid)
    requires s.quantum >= 0 && t.quantum >= 0
  {
    && Ticks(t, t.quantum).current == p && Share(Ticks(t, t.quantum), s.slice, p) == s.slice
    && Ticks(t, t.quantum + s.slice).current == Ticks(s, s.quantum).current
  }

  lemma BehindComesNext(s: State, t: State, p: Pid)
    requires Active(s) && Active(t) && t.ring == [s.ring[0], p] + s.ring[1..] && t.quantum == s.quantum && t.slice == s.slice
    ensures ComesNext(s, t, p)
  {
    hide Ticks, Share;
    RestOfSlice(s, p);
    RestOfSlice(t, p);
    var u := Turned(t, Rotate(t.ring));
    assert u.ring == [p] + s.ring[1..] + [s.ring[0]];
    RestOfSlice(u, p);
    TicksJoin(t, t.quantum, s.slice, p);
    assert Rotate(u.ring)[0] == Rotate(s.ring)[0];
  }

  // A loaded program comes next; if nothing was loaded before it runs at the next tick.
  lemma LoadedComesNext(s: State)
    requires Good(s) && Enabled(s, ELoad)
    ensures if s.current != 0 then ComesNext(s, Load(s), s.free[0]) else Tick(Load(s)).current == s.free[0]
  {
    LoadInv(s);
    if s.current != 0 {
      GoodIsActive(s);
      GoodIsActive(Load(s));
      BehindComesNext(s, Load(s), s.free[0]);
    } else {
      assert Placed(s, s.free[0]);
      OccIn(s.free, s.free[0]);
    }
  }

  // So does the oldest waiter of a signalled semaphore; the idle task runs it at once.
  lemma WokenComesNext(s: State, k: nat)
    requires Good(s) && k < |s.sems| && s.sems[k].queue != []
    ensures var p := s.sems[k].queue[0];
      if s.current != 0 then ComesNext(s, SignalOn(s, k), p) else SignalOn(s, k).current == p
  {
    WakeInv(s, k);
    if s.current != 0 {
      GoodIsActive(s);
      GoodIsActive(Wake(s, k));
      BehindComesNext(s, Wake(s, k), s.sems[k].queue[0]);
    }
  }
}
