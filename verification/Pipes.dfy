// The two ends of a pipe with one reader and one writer (pipe.c), while any processes open
// and close descriptors of either end. A system call runs with interrupts off, so a step
// goes from a blocking point to the next one or to the return.
// Class PipePages.PipePage carries out these steps on the fields of the pipe page.
module Pipes {
  import opened Rings
  import opened Semaphores

  const READER: Pid := 1
  const WRITER: Pid := 2

  // Where the two processes are: outside, asleep on the condition, or signalled and ready
  // to go on at pipe.c:116 and pipe.c:177.
  datatype Reader = ReadIdle | ReadAsleep(want: nat) | ReadWoken(want: nat)
  datatype Writer = WriteIdle | WriteAsleep(rest: seq<char>) | WriteWoken(rest: seq<char>)

  // The shared buffer with the cursors and counts of both ends.
  datatype Ring = Ring(buf: seq<char>, rcur: nat, wcur: nat, rcant: int, wcant: int)

  // The history: bytes given to the reader, put into the buffer, and offered by write calls.
  datatype Log = Log(delivered: seq<char>, stored: seq<char>, offered: seq<char>)

  // cond is the semaphore of the read end, mutex that of the write end; readers and writers
  // count the open descriptors of each end.
  datatype State = State(
    ring: Ring, rBusy: bool, wBusy: bool, cond: Sem, mutex: Sem, readers: nat, writers: nat,
    reader: Reader, writer: Writer, log: Log)

  function Min(a: int, b: int): int { if a < b then a else b }

  // ---------------------------------------------------------------- steps

  // sem_signal on the condition: whoever it wakes is ready.
  function SignalCond(s: State): State {
    var t := s.(cond := Signal(s.cond));
    match Woken(s.cond)
    case None => t
    case Some(p) =>
      if p == READER && s.reader.ReadAsleep? then t.(reader := ReadWoken(s.reader.want))
      else if p == WRITER && s.writer.WriteAsleep? then t.(writer := WriteWoken(s.writer.rest))
      else t
  }

  // Lines 127-134.
  function Take(s: State, n: nat): State
    requires s.ring.rcur < |s.ring.buf|
  {
    var r := s.ring;
    s.(ring := Ring(r.buf, Slot(r.rcur, n, |r.buf|), r.wcur, r.rcant - n, r.wcant - n),
       log := s.log.(delivered := s.log.delivered + Cells(r.buf, r.rcur, n)))
  }

  // Lines 127-144, with the mutex held.
  function EndRead(s: State, n: nat): State
    requires s.ring.rcur < |s.ring.buf|
  {
    var t := Take(s, n);
    var u := if t.wBusy then SignalCond(t.(wBusy := false)) else t;
    u.(mutex := Signal(u.mutex), reader := ReadIdle)
  }

  // Lines 111-125, with the mutex held: sleep, unless a signal is left over.
  function Await(s: State, want: nat): State
    requires s.ring.rcur < |s.ring.buf| && s.ring.rcant >= 0
  {
    var t := s.(rBusy := true, mutex := Signal(s.mutex));
    if Blocks(t.cond) then t.(cond := Wait(t.cond, READER), reader := ReadAsleep(want))
    else EndRead(t.(cond := Wait(t.cond, READER), mutex := Wait(t.mutex, READER)), Min(t.ring.rcant, want))
  }

  // pipe_read from the call, and from a wake-up.
  function Read(s: State, want: nat): State
    requires s.ring.rcur < |s.ring.buf| && s.ring.rcant >= 0
  {
    if s.writers == 0 then s else
    var t := s.(mutex := Wait(s.mutex, READER));
    if t.ring.rcant >= want then EndRead(t, want)
    else if t.wBusy then EndRead(t, t.ring.rcant)
    else Await(t, want)
  }

  function ReadOn(s: State): State
    requires s.ring.rcur < |s.ring.buf| && s.ring.rcant >= 0 && s.reader.ReadWoken?
  {
    EndRead(s.(mutex := Wait(s.mutex, READER)), Min(s.ring.rcant, s.reader.want))
  }

  // Lines 180-183.
  function Put(s: State, c: char): State
    requires s.ring.wcur < |s.ring.buf|
  {
    var r := s.ring;
    s.(ring := Ring(r.buf[r.wcur := c], r.rcur, Slot(r.wcur, 1, |r.buf|), r.rcant + 1, r.wcant + 1),
       log := s.log.(stored := s.log.stored + [c]))
  }

  // Lines 166-173: the full buffer is left to the reader.
  function HandOver(s: State): State {
    var t := s.(wBusy := true, mutex := Signal(s.mutex));
    if t.rBusy then SignalCond(t.(rBusy := false)) else t
  }

  // Lines 166-177, with bs still to be written: sleep, unless a signal is left over.
  function GiveWay(s: State, bs: seq<char>): State {
    var t := HandOver(s);
    if Blocks(t.cond) then t.(cond := Wait(t.cond, WRITER), writer := WriteAsleep(bs))
    else t.(cond := Wait(t.cond, WRITER), mutex := Wait(t.mutex, WRITER))
  }

  // The loop of pipe_write with the mutex held, up to the return or to sleep. The code as
  // written has clears == false: lines 186-187 leave the reader's flag set.
  function WriteLoop(s: State, bs: seq<char>, clears: bool): State
    requires s.ring.wcur < |s.ring.buf|
    decreases |bs|
  {
    if bs == [] then
      var t := if s.rBusy then SignalCond(s.(rBusy := !clears)) else s;
      t.(mutex := Signal(t.mutex), writer := WriteIdle)
    else if s.ring.wcant == |s.ring.buf| then
      if Blocks(HandOver(s).cond) then GiveWay(s, bs)
      else WriteLoop(Put(GiveWay(s, bs), bs[0]), bs[1..], clears)
    else WriteLoop(Put(s, bs[0]), bs[1..], clears)
  }

  function Offer(log: Log, bs: seq<char>): Log { log.(offered := log.offered + bs) }

  // pipe_write from the call, and from a wake-up at line 177.
  function Write(s: State, bs: seq<char>, clears: bool): State
    requires s.ring.wcur < |s.ring.buf|
  {
    if s.readers == 0 then s
    else WriteLoop(s.(mutex := Wait(s.mutex, WRITER), log := Offer(s.log, bs)), bs, clears)
  }

  function WriteOn(s: State, clears: bool): State
    requires s.ring.wcur < |s.ring.buf| && s.writer.WriteWoken? && s.writer.rest != []
  {
    var bs := s.writer.rest;
    WriteLoop(Put(s.(mutex := Wait(s.mutex, WRITER)), bs[0]), bs[1..], clears)
  }

  datatype End = ReadEnd | WriteEnd

  function Refs(s: State, x: End): nat { if x == ReadEnd then s.readers else s.writers }

  // pipe_flush (lines 194-203): one descriptor less, and nobody is signalled. The process
  // inside a call keeps its own descriptor.
  function Close(s: State, x: End): State
    requires Refs(s, x) > 0
  {
    if x == ReadEnd then s.(readers := s.readers - 1) else s.(writers := s.writers - 1)
  }

  // A fork copies a descriptor.
  function Copied(s: State, x: End): State {
    if x == ReadEnd then s.(readers := s.readers + 1) else s.(writers := s.writers + 1)
  }

  function InCall(s: State, x: End): nat {
    if (x == ReadEnd && !s.reader.ReadIdle?) || (x == WriteEnd && !s.writer.WriteIdle?) then 1 else 0
  }

  // pipe_open, once both descriptors are taken.
  function Open(buf: seq<char>): State {
    State(Ring(buf, 0, 0, 0, 0), false, false, New(0), New(1), 1, 1, ReadIdle, WriteIdle, Log([], [], []))
  }

  // ---------------------------------------------------------------- runs

  datatype Event = ERead(want: nat) | EReadOn | EWrite(bs: seq<char>) | EWriteOn | EClose(x: End) | ECopy(x: End)

  predicate Enabled(s: State, e: Event) {
    match e
    case ERead(_) => s.reader.ReadIdle? && s.readers > 0
    case EReadOn => s.reader.ReadWoken?
    case EWrite(_) => s.writer.WriteIdle? && s.writers > 0
    case EWriteOn => s.writer.WriteWoken?
    case EClose(x) => Refs(s, x) > InCall(s, x)
    case ECopy(x) => Refs(s, x) > 0
  }

  // What every step keeps, whatever the lengths: the mutex is free, the two processes never
  // sleep at once, a sleeper has its flag set and is alone in the queue of the condition.
  ghost predicate Locks(s: State) {
    && s.ring.rcur < |s.ring.buf| && s.ring.wcur < |s.ring.buf| && 0 <= s.ring.rcant == s.ring.wcant
    && s.mutex == New(1)
    && !(s.reader.ReadAsleep? && s.writer.WriteAsleep?)
    && (s.reader.ReadAsleep? ==> s.rBusy && s.cond == Sem(0, [READER]))
    && (s.writer.WriteAsleep? ==> s.wBusy && s.cond == Sem(0, [WRITER]))
    && (!s.reader.ReadAsleep? && !s.writer.WriteAsleep? ==> s.cond.queue == [])
    && (!s.reader.ReadIdle? ==> s.reader.want > 0 && s.readers > 0)
    && (!s.writer.WriteIdle? ==> s.writer.rest != [] && s.writers > 0)
  }

  ghost function Step(s: State, e: Event, clears: bool): State
    requires Locks(s) && Enabled(s, e)
  {
    match e
    case ERead(want) => Read(s, want)
    case EReadOn => ReadOn(s)
    case EWrite(bs) => Write(s, bs, clears)
    case EWriteOn => WriteOn(s, clears)
    case EClose(x) => Close(s, x)
    case ECopy(x) => Copied(s, x)
  }

  // The invariant inside the write loop: the mutex is held, the writer is awake.
  ghost predicate Inside(s: State) {
    && s.ring.rcur < |s.ring.buf| && s.ring.wcur < |s.ring.buf| && 0 <= s.ring.rcant == s.ring.wcant
    && s.mutex == New(0) && !s.writer.WriteAsleep?
    && (s.reader.ReadAsleep? ==> s.rBusy && s.cond == Sem(0, [READER]))
    && (!s.reader.ReadAsleep? ==> s.cond.queue == [])
    && (!s.reader.ReadIdle? ==> s.reader.want > 0 && s.readers > 0) && s.writers > 0
  }

  // Where the loop leaves the critical section, no reader is left asleep.
  ghost predicate LeftBy(s: State, t: State) {
    Locks(t) && !t.reader.ReadAsleep? && |t.ring.buf| == |s.ring.buf| && !t.writer.WriteWoken?
    && t.readers == s.readers && t.writers == s.writers && t.log.delivered == s.log.delivered && t.ring.wcant >= s.ring.wcant
    && t.reader == if s.reader.ReadAsleep? then ReadWoken(s.reader.want) else s.reader
  }

  lemma LoopEnds(s: State, bs: seq<char>, clears: bool)
    requires Inside(s) && (bs == [] || (s.ring.wcant == |s.ring.buf| && Blocks(HandOver(s).cond)))
    ensures LeftBy(s, WriteLoop(s, bs, clears))
  {
  }

  // A full buffer without a sleep: the loop goes on in the critical section.
  lemma GiveWayInside(s: State, bs: seq<char>)
    requires Inside(s) && !Blocks(HandOver(s).cond)
    ensures var t := GiveWay(s, bs);
      Inside(t) && t.ring == s.ring && t.log == s.log && t.readers == s.readers && t.writers == s.writers
      && !t.reader.ReadAsleep? && !s.reader.ReadAsleep?
  {
  }

  lemma {:induction false} LoopLocks(s: State, bs: seq<char>, clears: bool)
    requires Inside(s)
    ensures LeftBy(s, WriteLoop(s, bs, clears))
    decreases |bs|
  {
    if bs == [] || (s.ring.wcant == |s.ring.buf| && Blocks(HandOver(s).cond)) {
      LoopEnds(s, bs, clears);
    } else if s.ring.wcant == |s.ring.buf| {
      GiveWayInside(s, bs);
      hide GiveWay, HandOver;
      LoopLocks(Put(GiveWay(s, bs), bs[0]), bs[1..], clears);
    } else {
      LoopLocks(Put(s, bs[0]), bs[1..], clears);
    }
  }

  lemma EndReadLocks(s: State, k: nat)
    requires Locks(s.(mutex := New(1), reader := ReadIdle)) && s.mutex == New(0) && k <= s.ring.rcant
    ensures var t := EndRead(s, k);
      Locks(t) && t.ring.buf == s.ring.buf && t.readers == s.readers && t.writers == s.writers
  {
  }

  lemma LocksStep(s: State, e: Event, clears: bool)
    requires Locks(s) && Enabled(s, e)
    ensures var t := Step(s, e, clears);
      && Locks(t) && |t.ring.buf| == |s.ring.buf|
      && (!e.EClose? && !e.ECopy? ==> t.readers == s.readers && t.writers == s.writers)
  {
    match e
    case ERead(want) =>
      var t := s.(mutex := New(0));
      if s.ring.rcant >= want { EndReadLocks(t, want); }
      else if s.wBusy { EndReadLocks(t, s.ring.rcant); }
      else if !Blocks(s.cond) { EndReadLocks(t.(rBusy := true, cond := Wait(s.cond, READER)), Min(s.ring.rcant, want)); }
    case EReadOn => EndReadLocks(s.(mutex := New(0)), Min(s.ring.rcant, s.reader.want));
    case EWrite(bs) =>
      if s.readers > 0 { LoopLocks(s.(mutex := Wait(s.mutex, WRITER), log := Offer(s.log, bs)), bs, clears); }
    case EWriteOn =>
      var bs := s.writer.rest;
      LoopLocks(Put(s.(mutex := Wait(s.mutex, WRITER)), bs[0]), bs[1..], clears);
    case _ =>
  }

  ghost predicate Runs(s: State, es: seq<Event>, clears: bool)
    requires Locks(s)
    decreases |es|
  {
    if es == [] then true
    else Enabled(s, es[0]) && (LocksStep(s, es[0], clears); Runs(Step(s, es[0], clears), es[1..], clears))
  }

  ghost function Run(s: State, es: seq<Event>, clears: bool): (t: State)
    requires Locks(s) && Runs(s, es, clears)
    ensures Locks(t) && |t.ring.buf| == |s.ring.buf|
    decreases |es|
  {
    if es == [] then s else (LocksStep(s, es[0], clears); Run(Step(s, es[0], clears), es[1..], clears))
  }

  // ---------------------------------------------------------------- no deadlock, no lost wake-up

  ghost predicate Asleep(s: State, x: End) { if x == ReadEnd then s.reader.ReadAsleep? else s.writer.WriteAsleep? }

  function Other(x: End): End { if x == ReadEnd then WriteEnd else ReadEnd }

  // A read or a write, from its call or its wake-up, by the process at that end.
  predicate IsCall(e: Event, x: End) { if x == ReadEnd then e.ERead? || e.EReadOn? else e.EWrite? || e.EWriteOn? }

  // Whoever sleeps is woken by the next call of the other side.
  lemma CallWakes(s: State, e: Event, x: End, clears: bool)
    requires Locks(s) && Enabled(s, e) && Asleep(s, x) && IsCall(e, Other(x))
    ensures var t := Step(s, e, clears);
      if x == ReadEnd then t.reader == ReadWoken(s.reader.want) else t.reader.ReadIdle? && t.writer == WriteWoken(s.writer.rest)
  {
    match e
    case EWrite(bs) => LoopLocks(s.(mutex := Wait(s.mutex, WRITER), log := Offer(s.log, bs)), bs, clears);
    case EWriteOn =>
      var bs := s.writer.rest;
      LoopLocks(Put(s.(mutex := Wait(s.mutex, WRITER)), bs[0]), bs[1..], clears);
    case _ =>
  }

  // The call that the process at the other end makes next.
  function NextCall(s: State, x: End): Event {
    if x == ReadEnd then (if s.reader.ReadIdle? then ERead(1) else EReadOn)
    else (if s.writer.WriteIdle? then EWrite([]) else EWriteOn)
  }

  // Without a descriptor of the other end left nobody can wake the sleeper any more.
  lemma {:induction false} Stranded(s: State, es: seq<Event>, x: End, clears: bool)
    requires Locks(s) && Asleep(s, x) && Refs(s, Other(x)) == 0 && Runs(s, es, clears)
    ensures Asleep(Run(s, es, clears), x) && Refs(Run(s, es, clears), Other(x)) == 0
    decreases |es|
  {
    if es != [] {
      LocksStep(s, es[0], clears);
      Stranded(Step(s, es[0], clears), es[1..], x, clears);
    }
  }

  // The run wakes the sleeper at that end.
  ghost predicate Wakes(s: State, es: seq<Event>, x: End, clears: bool)
    requires Locks(s)
  {
    Runs(s, es, clears) && !Asleep(Run(s, es, clears), x)
  }

  // A sleeper can be woken by some run exactly while a descriptor of the other end is open.
  lemma WokenExactly(s: State, x: End, clears: bool)
    requires Locks(s) && Asleep(s, x)
    ensures (exists es :: Wakes(s, es, x, clears)) <==> Refs(s, Other(x)) > 0
  {
    if Refs(s, Other(x)) > 0 {
      var e := NextCall(s, Other(x));
      CallWakes(s, e, x, clears);
      LocksStep(s, e, clears);
      assert [e][1..] == [];
      assert Runs(Step(s, e, clears), [], clears);
      var es := [e];
      assert Runs(s, es, clears) && Run(s, es, clears) == Step(s, e, clears);
      assert Wakes(s, es, x, clears);
    } else if exists es :: Wakes(s, es, x, clears) {
      var es :| Wakes(s, es, x, clears);
      Stranded(s, es, x, clears);
    }
  }

  // The code as written, over any run of reads and writes of any lengths and of closes: the
  // two never both sleep, whoever sleeps is woken by the next call of the other side, and
  // can be woken at all exactly while a descriptor of the other end is open.
  lemma NeverStuck(buf: seq<char>, es: seq<Event>, x: End)
    requires buf != [] && Runs(Open(buf), es, false)
    ensures var s := Run(Open(buf), es, false);
      && !(Asleep(s, ReadEnd) && Asleep(s, WriteEnd))
      && (Asleep(s, x) ==>
            && (forall e | Enabled(s, e) && IsCall(e, Other(x)) :: !Asleep(Step(s, e, false), x))
            && ((exists more :: Wakes(s, more, x, false)) <==> Refs(s, Other(x)) > 0))
  {
    var s := Run(Open(buf), es, false);
    if Asleep(s, x) {
      forall e | Enabled(s, e) && IsCall(e, Other(x)) ensures !Asleep(Step(s, e, false), x) { CallWakes(s, e, x, false); }
      WokenExactly(s, x, false);
    }
  }

  // Two calls as written that strand a reader: it waits, and the last write end is closed.
  lemma CloseStrands(buf: seq<char>, more: seq<Event>)
    requires buf != []
    ensures var es := [ERead(1), EClose(WriteEnd)];
      Runs(Open(buf), es, false) &&
      (Runs(Run(Open(buf), es, false), more, false) ==> Run(Run(Open(buf), es, false), more, false).reader.ReadAsleep?)
  {
    var s0, c := Open(buf), EClose(WriteEnd);
    var s1 := Step(s0, ERead(1), false);
    LocksStep(s0, ERead(1), false);
    var s2 := Step(s1, c, false);
    LocksStep(s1, c, false);
    assert [c][1..] == [] && [ERead(1), c][1..] == [c];
    assert Runs(s2, [], false);
    assert Runs(s1, [c], false) && Run(s1, [c], false) == s2;
    assert Runs(s0, [ERead(1), c], false) && Run(s0, [ERead(1), c], false) == s2;
    if Runs(s2, more, false) { Stranded(s2, more, ReadEnd, false); }
  }

  // ---------------------------------------------------------------- what a call gives

  // A read has to wait: fewer bytes than it wants, no writer to make room for, and no signal
  // left over.
  predicate Waits(s: State, want: nat) { s.ring.rcant < want && !s.wBusy && s.cond.vl == 0 }

  // A read with an open write end sleeps exactly if it has to wait. Otherwise it is given
  // what it wants, or all there is if that is less.
  lemma ReadGives(s: State, want: nat)
    requires Locks(s) && s.reader.ReadIdle? && s.writers > 0
    ensures var t, n := Read(s, want), Min(s.ring.rcant, want);
      if Waits(s, want) then t.reader == ReadAsleep(want) && t.ring == s.ring && t.log == s.log
      else t.reader == ReadIdle && Given(s, t, n)
  {
  }

  // The first n bytes of the buffer went to the reader, and nothing else changed there.
  ghost predicate Given(s: State, t: State, n: nat)
    requires s.ring.rcur < |s.ring.buf|
  {
    && t.log == s.log.(delivered := s.log.delivered + Cells(s.ring.buf, s.ring.rcur, n))
    && t.ring == s.ring.(rcur := Slot(s.ring.rcur, n, |s.ring.buf|), rcant := s.ring.rcant - n, wcant := s.ring.wcant - n)
  }

  // A signalled reader is given what it wanted, or all there is.
  lemma ReadOnGives(s: State)
    requires Locks(s) && s.reader.ReadWoken?
    ensures ReadOn(s).reader == ReadIdle && Given(s, ReadOn(s), Min(s.ring.rcant, s.reader.want))
  {
  }

  // A write of n more bytes has to wait: they overflow the buffer, and either a reader is
  // asleep, which is woken but has yet to take bytes out, or no flag and no signal is left over.
  predicate Overflows(s: State, n: nat) {
    s.ring.wcant <= |s.ring.buf| < s.ring.wcant + n && (s.reader.ReadAsleep? || (!s.rBusy && s.cond.vl == 0))
  }

  // The bytes bs were put in as far as there is room, or all of them.
  ghost predicate Stored(s: State, t: State, bs: seq<char>, waits: bool)
    requires waits ==> 0 <= |s.ring.buf| - s.ring.wcant <= |bs|
  {
    var n := if waits then |s.ring.buf| - s.ring.wcant else |bs|;
    && t.log == s.log.(stored := s.log.stored + bs[..n])
    && t.ring.wcant == s.ring.wcant + n && t.writer == if waits then WriteAsleep(bs[n..]) else WriteIdle
  }

  lemma {:induction false} LoopGives(s: State, bs: seq<char>, clears: bool)
    requires Inside(s)
    ensures Stored(s, WriteLoop(s, bs, clears), bs, Overflows(s, |bs|))
    decreases |bs|
  {
    if bs == [] {
      assert s.log.stored + [] == s.log.stored;
    } else if s.ring.wcant == |s.ring.buf| && Blocks(HandOver(s).cond) {
      assert s.log.stored + [] == s.log.stored;
    } else if s.ring.wcant == |s.ring.buf| {
      GiveWayInside(s, bs);
      hide GiveWay, HandOver;
      LoopGives(Put(GiveWay(s, bs), bs[0]), bs[1..], clears);
      OneByte(s.log.stored, bs, |bs|);
    } else {
      LoopGives(Put(s, bs[0]), bs[1..], clears);
      OneByte(s.log.stored, bs, if Overflows(s, |bs|) then |s.ring.buf| - s.ring.wcant else |bs|);
    }
  }

  lemma OneByte(stored: seq<char>, bs: seq<char>, n: nat)
    requires 0 < n <= |bs|
    ensures (stored + [bs[0]]) + bs[1..][..n - 1] == stored + bs[..n] && bs[1..][n - 1..] == bs[n..]
  {
  }

  // A write to an open read end sleeps exactly if it has to wait, once the buffer is full.
  // Otherwise all its bytes are stored.
  lemma WriteGives(s: State, bs: seq<char>, clears: bool)
    requires Locks(s) && s.writer.WriteIdle? && s.readers > 0 && s.writers > 0
    ensures Stored(s.(log := Offer(s.log, bs)), Write(s, bs, clears), bs, Overflows(s, |bs|))
  {
    LoopGives(s.(mutex := Wait(s.mutex, WRITER), log := Offer(s.log, bs)), bs, clears);
  }

  // A signalled writer goes on with the bytes it has left.
  lemma WriteOnGives(s: State, clears: bool)
    requires Locks(s) && s.writer.WriteWoken?
    ensures var bs := s.writer.rest;
      Stored(s, WriteOn(s, clears), bs, s.ring.wcant < |s.ring.buf| && Overflows(s, |bs|))
  {
    var bs := s.writer.rest;
    LoopGives(Put(s.(mutex := Wait(s.mutex, WRITER)), bs[0]), bs[1..], clears);
    OneByte(s.log.stored, bs, if s.ring.wcant < |s.ring.buf| && Overflows(s, |bs|) then |s.ring.buf| - s.ring.wcant else |bs|);
  }

  // ---------------------------------------------------------------- first in, first out

  ghost predicate Fifo(s: State) {
    && s.ring.rcur < |s.ring.buf| && s.ring.wcur < |s.ring.buf| && 0 <= s.ring.rcant == s.ring.wcant <= |s.ring.buf|
    && s.ring.wcur == Slot(s.ring.rcur, s.ring.rcant, |s.ring.buf|)
    && s.log.delivered + Cells(s.ring.buf, s.ring.rcur, s.ring.rcant) == s.log.stored
  }

  function Pending(w: Writer): seq<char> { if w.WriteIdle? then [] else w.rest }

  ghost predicate Sound(s: State) {
    && Locks(s) && Fifo(s) && s.log.stored + Pending(s.writer) == s.log.offered
    && (s.writer.WriteAsleep? ==> s.ring.wcant == |s.ring.buf|)
    && (s.writer.WriteWoken? ==> s.ring.wcant < |s.ring.buf|)
  }

  lemma PutFifo(s: State, c: char)
    requires Fifo(s) && s.ring.wcant < |s.ring.buf|
    ensures Fifo(Put(s, c))
  {
    CellsPut(s.ring.buf, s.ring.rcur, s.ring.rcant, c);
  }

  lemma JoinAssoc(a: seq<char>, b: seq<char>, c: seq<char>)
    ensures a + (b + c) == (a + b) + c
  {
  }

  lemma TakeFifo(s: State, k: nat)
    requires Fifo(s) && k <= s.ring.rcant
    ensures Fifo(Take(s, k))
  {
    hide Slot, Cells;
    var r := s.ring;
    CellsTake(r.buf, r.rcur, r.rcant, k);
    JoinAssoc(s.log.delivered, Cells(r.buf, r.rcur, k), Cells(r.buf, Slot(r.rcur, k, |r.buf|), r.rcant - k));
  }

  // Room for the rest of a write, or a sleep that waits for room: a reader asleep takes the
  // writer's signal; otherwise neither a flag nor a signal may be left over.
  predicate WriteSafe(s: State, left: nat) {
    s.ring.wcant + left <= |s.ring.buf| || s.reader.ReadAsleep? || (!s.rBusy && s.cond.vl == 0)
  }

  // A full buffer: the writer goes to sleep, or runs over the unread bytes.
  lemma FullExact(s: State, bs: seq<char>, clears: bool)
    requires Inside(s) && Fifo(s) && s.log.stored + bs == s.log.offered && bs != [] && s.ring.wcant == |s.ring.buf|
    ensures Sound(WriteLoop(s, bs, clears)) <==> WriteSafe(s, |bs|)
    ensures !WriteSafe(s, |bs|) ==> WriteLoop(s, bs, clears).ring.wcant > |s.ring.buf|
  {
    if !Blocks(HandOver(s).cond) { LoopLocks(Put(GiveWay(s, bs), bs[0]), bs[1..], clears); }
  }

  lemma {:induction false} LoopExact(s: State, bs: seq<char>, clears: bool)
    requires Inside(s) && Fifo(s) && s.log.stored + bs == s.log.offered
    ensures Sound(WriteLoop(s, bs, clears)) <==> WriteSafe(s, |bs|)
    ensures !WriteSafe(s, |bs|) ==> WriteLoop(s, bs, clears).ring.wcant > |s.ring.buf|
    decreases |bs|
  {
    if bs == [] {
      LoopLocks(s, bs, clears);
      assert s.log.stored + [] == s.log.stored;
    } else if s.ring.wcant == |s.ring.buf| {
      FullExact(s, bs, clears);
    } else {
      PutFifo(s, bs[0]);
      assert s.log.stored + bs == (s.log.stored + [bs[0]]) + bs[1..];
      LoopExact(Put(s, bs[0]), bs[1..], clears);
    }
  }

  // When a step keeps the pipe first in, first out.
  predicate Safe(s: State, e: Event) {
    match e
    case ERead(want) => s.writers > 0 && s.writer.WriteAsleep? ==> want > 0
    case EReadOn => true
    case EWrite(bs) => s.readers > 0 ==> WriteSafe(s, |bs|)
    case EWriteOn => s.writer.WriteWoken? ==> WriteSafe(s, |s.writer.rest|)
    case _ => true
  }

  lemma EndReadSound(s: State, k: nat)
    requires Sound(s.(mutex := New(1), reader := ReadIdle)) && s.mutex == New(0) && k <= s.ring.rcant
    ensures Sound(EndRead(s, k)) <==> (s.writer.WriteAsleep? ==> k > 0)
  {
    TakeFifo(s, k);
  }

  lemma ReadExact(s: State, want: nat)
    requires Sound(s) && s.reader.ReadIdle? && s.readers > 0
    ensures Sound(Read(s, want)) <==> Safe(s, ERead(want))
  {
    hide Slot, Cells;
    var t := s.(mutex := New(0));
    if s.writers == 0 {
    } else if s.ring.rcant >= want {
      EndReadSound(t, want);
    } else if s.wBusy {
      EndReadSound(t, s.ring.rcant);
    } else if !Blocks(s.cond) {
      EndReadSound(t.(rBusy := true, cond := Wait(s.cond, READER)), Min(s.ring.rcant, want));
    }
  }

  lemma WriteExact(s: State, bs: seq<char>, clears: bool)
    requires Sound(s) && s.writer.WriteIdle? && s.writers > 0
    ensures Sound(Write(s, bs, clears)) <==> Safe(s, EWrite(bs))
  {
    if s.readers > 0 {
      hide Slot, Cells, WriteLoop;
      assert s.log.stored + [] == s.log.stored;
      LoopExact(s.(mutex := Wait(s.mutex, WRITER), log := Offer(s.log, bs)), bs, clears);
    }
  }

  lemma WriteOnExact(s: State, clears: bool)
    requires Sound(s) && s.writer.WriteWoken?
    ensures Sound(WriteOn(s, clears)) <==> Safe(s, EWriteOn)
  {
    hide Slot, Cells, WriteLoop;
    var bs := s.writer.rest;
    var t := s.(mutex := Wait(s.mutex, WRITER));
    PutFifo(t, bs[0]);
    assert s.log.stored + bs == (s.log.stored + [bs[0]]) + bs[1..];
    LoopExact(Put(t, bs[0]), bs[1..], clears);
  }

  // Exactly the safe steps keep the invariant, with or without the flag cleared.
  lemma StepExact(s: State, e: Event, clears: bool)
    requires Sound(s) && Enabled(s, e)
    ensures Sound(Step(s, e, clears)) <==> Safe(s, e)
  {
    hide Slot, Cells, Read, Write, WriteOn, EndRead;
    match e
    case ERead(want) => ReadExact(s, want);
    case EReadOn => EndReadSound(s.(mutex := New(0)), Min(s.ring.rcant, s.reader.want));
    case EWrite(bs) => WriteExact(s, bs, clears);
    case EWriteOn => WriteOnExact(s, clears);
    case _ =>
  }

  ghost predicate StaysSound(s: State, es: seq<Event>, clears: bool)
    requires Locks(s) && Runs(s, es, clears)
    decreases |es|
  {
    Sound(s) && (es == [] || (LocksStep(s, es[0], clears); StaysSound(Step(s, es[0], clears), es[1..], clears)))
  }

  ghost predicate AllSafe(s: State, es: seq<Event>, clears: bool)
    requires Locks(s) && Runs(s, es, clears)
    decreases |es|
  {
    es == [] || (Safe(s, es[0]) && (LocksStep(s, es[0], clears); AllSafe(Step(s, es[0], clears), es[1..], clears)))
  }

  // A whole run stays first in, first out exactly when each of its steps is safe.
  lemma {:induction false} RunExact(s: State, es: seq<Event>, clears: bool)
    requires Sound(s) && Runs(s, es, clears)
    ensures StaysSound(s, es, clears) <==> AllSafe(s, es, clears)
    decreases |es|
  {
    if es != [] {
      StepExact(s, es[0], clears);
      if Safe(s, es[0]) { RunExact(Step(s, es[0], clears), es[1..], clears); }
    }
  }

  // ---------------------------------------------------------------- writes that find room

  ghost predicate Roomy(s: State, es: seq<Event>, clears: bool)
    requires Locks(s) && Runs(s, es, clears)
    decreases |es|
  {
    es == [] ||
    ((es[0].EWrite? ==> s.ring.wcant + |es[0].bs| <= |s.ring.buf|) &&
     (LocksStep(s, es[0], clears); Roomy(Step(s, es[0], clears), es[1..], clears)))
  }

  lemma {:induction false} LoopReturns(s: State, bs: seq<char>, clears: bool)
    requires s.ring.wcur < |s.ring.buf| && s.ring.wcant + |bs| <= |s.ring.buf|
    ensures WriteLoop(s, bs, clears).writer == WriteIdle
    decreases |bs|
  {
    if bs != [] { LoopReturns(Put(s, bs[0]), bs[1..], clears); }
  }

  lemma {:induction false} RoomyKeeps(s: State, es: seq<Event>, clears: bool)
    requires Sound(s) && s.writer.WriteIdle? && Runs(s, es, clears) && Roomy(s, es, clears)
    ensures Sound(Run(s, es, clears)) && Run(s, es, clears).writer.WriteIdle?
    decreases |es|
  {
    if es != [] {
      var e := es[0];
      StepExact(s, e, clears);
      if e.EWrite? && s.readers > 0 {
        LoopReturns(s.(mutex := Wait(s.mutex, WRITER), log := Offer(s.log, e.bs)), e.bs, clears);
      }
      RoomyKeeps(Step(s, e, clears), es[1..], clears);
    }
  }

  lemma OpenSound(buf: seq<char>)
    requires buf != []
    ensures Sound(Open(buf))
  {
    assert Cells(buf, 0, 0) == [];
  }

  // The code as written: if every write finds room for all its bytes, then in every
  // interleaving, blocking and short reads included, the bytes delivered and then those in
  // the ring are the bytes written; both counts agree and stay within the buffer, and the
  // write cursor is the read cursor plus the count, around the buffer.
  lemma FifoWithRoom(buf: seq<char>, es: seq<Event>)
    requires buf != [] && Runs(Open(buf), es, false) && Roomy(Open(buf), es, false)
    ensures var s := Run(Open(buf), es, false);
      && 0 <= s.ring.rcant == s.ring.wcant <= |buf| && s.ring.rcur < |buf|
      && s.log.delivered + Cells(s.ring.buf, s.ring.rcur, s.ring.rcant) == s.log.offered
      && s.ring.wcur == (s.ring.rcur + s.ring.rcant) % |buf|
  {
    OpenSound(buf);
    RoomyKeeps(Open(buf), es, false);
    var s := Run(Open(buf), es, false);
    assert s.log.stored + [] == s.log.stored;
    Around(s.ring.rcur + s.ring.rcant, |buf|);
  }

  // ---------------------------------------------------------------- writes of any length

  predicate Asks(e: Event) { e.ERead? ==> e.want > 0 }

  // With the flag cleared, a flag is set exactly while its owner sleeps and no signal is
  // ever left over.
  ghost predicate Clean(s: State) {
    (s.rBusy <==> s.reader.ReadAsleep?) && (s.wBusy <==> s.writer.WriteAsleep?) && s.cond.vl == 0
  }

  lemma {:induction false} LoopClean(s: State, bs: seq<char>)
    requires Inside(s) && Clean(s)
    ensures Clean(WriteLoop(s, bs, true))
    decreases |bs|
  {
    if bs != [] && s.ring.wcant != |s.ring.buf| { LoopClean(Put(s, bs[0]), bs[1..]); }
  }

  lemma CleanStep(s: State, e: Event)
    requires Locks(s) && Clean(s) && Enabled(s, e)
    ensures Clean(Step(s, e, true))
  {
    match e
    case EWrite(bs) => if s.readers > 0 { LoopClean(s.(mutex := Wait(s.mutex, WRITER), log := Offer(s.log, bs)), bs); }
    case EWriteOn =>
      var bs := s.writer.rest;
      var t := Put(s.(mutex := Wait(s.mutex, WRITER)), bs[0]);
      LoopClean(t, bs[1..]);
    case _ =>
  }

  lemma {:induction false} CleanKeeps(s: State, es: seq<Event>)
    requires Sound(s) && Clean(s) && Runs(s, es, true) && forall e | e in es :: Asks(e)
    ensures Sound(Run(s, es, true)) && Clean(Run(s, es, true))
    decreases |es|
  {
    if es != [] {
      assert Asks(es[0]);
      StepExact(s, es[0], true);
      CleanStep(s, es[0]);
      CleanKeeps(Step(s, es[0], true), es[1..]);
    }
  }

  // If lines 186-187 cleared the flag like 136 and 171, and every read asked for at least
  // one byte: writes of any length stay first in, first out, and what is still missing is
  // what the sleeping or woken writer has yet to put in.
  lemma FifoWhenCleared(buf: seq<char>, es: seq<Event>)
    requires buf != [] && Runs(Open(buf), es, true) && forall e | e in es :: Asks(e)
    ensures var s := Run(Open(buf), es, true);
      && 0 <= s.ring.rcant == s.ring.wcant <= |buf| && s.ring.rcur < |buf|
      && s.log.delivered + Cells(s.ring.buf, s.ring.rcur, s.ring.rcant) + Pending(s.writer) == s.log.offered
      && s.ring.wcur == (s.ring.rcur + s.ring.rcant) % |buf|
  {
    OpenSound(buf);
    CleanKeeps(Open(buf), es);
    Around(Run(Open(buf), es, true).ring.rcur + Run(Open(buf), es, true).ring.rcant, |buf|);
  }

  // A reader that waits once and is served leaves its flag set.
  lemma ServedOnce(buf: seq<char>, a: char) returns (s1: State, s2: State, s3: State)
    requires buf != []
    ensures s1 == Read(Open(buf), 1) && Locks(s1) && s1.reader.ReadAsleep? && s1.writer.WriteIdle?
    ensures s2 == Write(s1, [a], false) && Locks(s2) && s2.reader.ReadWoken?
    ensures s3 == ReadOn(s2) && Sound(s3)
    ensures s3.rBusy && s3.reader == ReadIdle && s3.writer == WriteIdle && |s3.ring.buf| == |buf| && s3.readers > 0 && s3.writers > 0
  {
    OpenSound(buf);
    s1 := Read(Open(buf), 1);
    StepExact(Open(buf), ERead(1), false);
    var m := s1.(mutex := New(0), log := Offer(s1.log, [a]));
    s2 := WriteLoop(m, [a], false);
    assert [a][1..] == [];
    assert s2 == WriteLoop(Put(m, a), [], false);
    StepExact(s1, EWrite([a]), false);
    s3 := ReadOn(s2);
    StepExact(s2, EReadOn, false);
  }

  // The code as written: with the stale flag a later write longer than the buffer does not
  // wait at line 174 and runs over the unread bytes.
  lemma StaleFlagOverruns(buf: seq<char>, a: char, bs: seq<char>)
    requires 0 < |buf| < |bs|
    ensures var es := [ERead(1), EWrite([a]), EReadOn, EWrite(bs)];
      Runs(Open(buf), es, false) && Run(Open(buf), es, false).ring.wcant > |buf|
  {
    var s1, s2, s3 := ServedOnce(buf, a);
    assert s3.log.stored + [] == s3.log.stored;
    var t := s3.(mutex := New(0), log := Offer(s3.log, bs));
    LoopExact(t, bs, false);
    var s4 := WriteLoop(t, bs, false);
    LoopLocks(t, bs, false);
    FourSteps(Open(buf), ERead(1), EWrite([a]), EReadOn, EWrite(bs), s1, s2, s3, s4);
  }

  lemma FourSteps(s0: State, a: Event, b: Event, c: Event, d: Event, s1: State, s2: State, s3: State, s4: State)
    requires Locks(s0) && Enabled(s0, a) && s1 == Step(s0, a, false)
    requires Locks(s1) && Enabled(s1, b) && s2 == Step(s1, b, false)
    requires Locks(s2) && Enabled(s2, c) && s3 == Step(s2, c, false)
    requires Locks(s3) && Enabled(s3, d) && s4 == Step(s3, d, false)
    ensures Runs(s0, [a, b, c, d], false) && Run(s0, [a, b, c, d], false) == s4
  {
    LocksStep(s3, d, false);
    assert Runs(s4, [], false) && Run(s4, [], false) == s4;
    assert [d][1..] == [] && [c, d][1..] == [d] && [b, c, d][1..] == [c, d] && [a, b, c, d][1..] == [b, c, d];
    assert Runs(s3, [d], false) && Run(s3, [d], false) == s4;
    assert Runs(s2, [c, d], false) && Run(s2, [c, d], false) == s4;
    assert Runs(s1, [b, c, d], false) && Run(s1, [b, c, d], false) == s4;
  }
}
