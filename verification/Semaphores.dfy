// Semaphores as values: a count and the queue of the processes that wait (sem.c). The
// scheduler, the pipe and the console build on them; class Kernel.Kernel shows that the
// links threaded through the task table implement the queues.
module Semaphores {

  type Pid = nat

  datatype Option<+T> = None | Some(value: T)

  datatype Sem = Sem(vl: nat, queue: seq<Pid>)

  // sem_wait (sem.c:7-13) called by p; it blocks when there is no free place.
  predicate Blocks(s: Sem) { s.vl == 0 }

  function Wait(s: Sem, p: Pid): Sem {
    if s.vl > 0 then s.(vl := s.vl - 1) else s.(queue := s.queue + [p])
  }

  // sem_signal (sem.c:15-20): wakes the oldest waiter, or adds a free place.
  function Woken(s: Sem): Option<Pid> {
    if s.vl == 0 && s.queue != [] then Some(s.queue[0]) else None
  }

  function Signal(s: Sem): Sem {
    if s.vl == 0 && s.queue != [] then s.(queue := s.queue[1..]) else s.(vl := s.vl + 1)
  }

  // ---------------------------------------------------------------- runs

  datatype Call = P(pid: Pid) | V

  // A semaphore with its history: the waits in order of arrival, those granted, in order
  // of grant, and the number of signals.
  datatype Trace = Trace(s: Sem, arrivals: seq<Pid>, granted: seq<Pid>, signals: nat)

  function Do(t: Trace, c: Call): Trace {
    match c
    case P(pid) =>
      Trace(Wait(t.s, pid), t.arrivals + [pid], if Blocks(t.s) then t.granted else t.granted + [pid], t.signals)
    case V =>
      Trace(Signal(t.s), t.arrivals,
            if Woken(t.s).Some? then t.granted + [Woken(t.s).value] else t.granted, t.signals + 1)
  }

  function DoAll(t: Trace, cs: seq<Call>): Trace
    decreases |cs|
  {
    if cs == [] then t else DoAll(Do(t, cs[0]), cs[1..])
  }

  // SEM_NEW(val).
  function New(val: nat): Sem { Sem(val, []) }
  function Start(val: nat): Trace { Trace(New(val), [], [], 0) }

  ghost predicate Kept(t: Trace, val: nat) {
    && t.s.vl + |t.granted| == val + t.signals
    && (t.s.queue != [] ==> t.s.vl == 0)
    && t.arrivals == t.granted + t.s.queue
  }

  lemma {:induction false} RunKeeps(t: Trace, cs: seq<Call>, val: nat)
    requires Kept(t, val)
    ensures Kept(DoAll(t, cs), val)
    decreases |cs|
  {
    if cs != [] {
      RunKeeps(Do(t, cs[0]), cs[1..], val);
    }
  }

  // Over any run of waits and signals from SEM_NEW(val): free places plus grants equal the
  // initial value plus signals, waiters mean no free place, and grants follow arrival order.
  lemma Conservation(cs: seq<Call>, val: nat)
    ensures var t := DoAll(Start(val), cs);
      && t.s.vl + |t.granted| == val + t.signals
      && (t.s.queue != [] ==> t.s.vl == 0)
      && t.arrivals == t.granted + t.s.queue
  {
    RunKeeps(Start(val), cs, val);
  }

  // ---------------------------------------------------------------- mutual exclusion

  // The processes inside the critical section of a mutex, when only those signal.
  datatype Lock = Lock(s: Sem, holders: multiset<Pid>)

  datatype Action = Acquire(pid: Pid) | Release(pid: Pid)

  predicate Fair(l: Lock, a: Action) { a.Release? ==> a.pid in l.holders }

  function Act(l: Lock, a: Action): Lock
    requires Fair(l, a)
  {
    match a
    case Acquire(p) => Lock(Wait(l.s, p), if Blocks(l.s) then l.holders else l.holders + multiset{p})
    case Release(p) =>
      Lock(Signal(l.s), l.holders - multiset{p} + match Woken(l.s) case Some(q) => multiset{q} case None => multiset{})
  }

  ghost predicate AllFair(l: Lock, acts: seq<Action>)
    decreases |acts|
  {
    acts == [] || (Fair(l, acts[0]) && AllFair(Act(l, acts[0]), acts[1..]))
  }

  function ActAll(l: Lock, acts: seq<Action>): Lock
    requires AllFair(l, acts)
    decreases |acts|
  {
    if acts == [] then l else ActAll(Act(l, acts[0]), acts[1..])
  }

  // SEM_NEW(1) with releases by holders only: one place, held or free.
  lemma {:induction false} AtMostOneHolder(l: Lock, acts: seq<Action>)
    requires AllFair(l, acts) && l.s.vl + |l.holders| == 1 && (l.s.queue != [] ==> l.s.vl == 0)
    ensures var r := ActAll(l, acts); r.s.vl + |r.holders| == 1 && (r.s.queue != [] ==> r.s.vl == 0)
    decreases |acts|
  {
    if acts != [] {
      AtMostOneHolder(Act(l, acts[0]), acts[1..]);
    }
  }
}
