// The pipe as its users see it: a queue of bounded length between a reader and a writer who
// wait for each other. When the code of pipe.c is that queue.
module PipeQueues {
  import opened Rings
  import opened Semaphores
  import opened Pipes

  // The bytes held and given so far, and where the two processes are.
  datatype Queue = Queue(cap: nat, held: seq<char>, given: seq<char>, reader: Reader, writer: Writer, readers: nat, writers: nat)

  function Empty(cap: nat): Queue { Queue(cap, [], [], ReadIdle, WriteIdle, 1, 1) }

  // The first n bytes go to the reader, and a writer that waits is woken.
  function Give(q: Queue, n: nat): Queue
    requires n <= |q.held|
  {
    q.(held := q.held[n..], given := q.given + q.held[..n], reader := ReadIdle,
       writer := if q.writer.WriteAsleep? then WriteWoken(q.writer.rest) else q.writer)
  }

  // As many of the bytes as fit, the rest when there is room, and a reader that waits is woken.
  function Fill(q: Queue, bs: seq<char>): Queue
    requires |q.held| <= q.cap
  {
    var n := Min(q.cap - |q.held|, |bs|);
    q.(held := q.held + bs[..n], writer := if n == |bs| then WriteIdle else WriteAsleep(bs[n..]),
       reader := if q.reader.ReadAsleep? then ReadWoken(q.reader.want) else q.reader)
  }

  // A read waits if there is less than it wants, unless a writer waits for room.
  function Act(q: Queue, e: Event): Queue
    requires |q.held| <= q.cap
  {
    match e
    case ERead(want) =>
      if q.writers == 0 then q
      else if |q.held| < want && !q.writer.WriteAsleep? then q.(reader := ReadAsleep(want))
      else Give(q, Min(|q.held|, want))
    case EReadOn => if q.reader.ReadWoken? then Give(q, Min(|q.held|, q.reader.want)) else q
    case EWrite(bs) => if q.readers == 0 then q else Fill(q, bs)
    case EWriteOn => if q.writer.WriteWoken? then Fill(q, q.writer.rest) else q
    case EClose(x) => if x == ReadEnd then q.(readers := if q.readers > 0 then q.readers - 1 else 0)
                      else q.(writers := if q.writers > 0 then q.writers - 1 else 0)
    case ECopy(x) => if x == ReadEnd then q.(readers := q.readers + 1) else q.(writers := q.writers + 1)
  }

  lemma ActKeeps(q: Queue, e: Event)
    requires |q.held| <= q.cap
    ensures |Act(q, e).held| <= q.cap == Act(q, e).cap
  {}

  function Acts(q: Queue, es: seq<Event>): Queue
    requires |q.held| <= q.cap
    decreases |es|
  {
    if es == [] then q else (ActKeeps(q, es[0]); Acts(Act(q, es[0]), es[1..]))
  }

  // What the users see of the pipe page.
  ghost function View(s: State): Queue
    requires Locks(s)
  {
    Queue(|s.ring.buf|, Cells(s.ring.buf, s.ring.rcur, s.ring.rcant), s.log.delivered, s.reader, s.writer, s.readers, s.writers)
  }

  // A read is not cut short by a leftover flag or signal, and a write waits for the room it
  // needs.
  predicate QueueLike(s: State, e: Event) {
    match e
    case ERead(want) => s.writers > 0 ==> want <= s.ring.rcant || s.writer.WriteAsleep? || Waits(s, want)
    case EReadOn => true
    case EWrite(bs) => s.readers > 0 ==> WriteSafe(s, |bs|)
    case EWriteOn => s.writer.WriteWoken? ==> WriteSafe(s, |s.writer.rest|)
    case _ => true
  }

  lemma HeldLength(s: State)
    requires Sound(s)
    ensures |View(s).held| == s.ring.rcant <= View(s).cap
  {}

  lemma GivenIsGive(s: State, t: State, n: nat)
    requires Sound(s) && Locks(t) && Given(s, t, n) && n <= s.ring.rcant
    requires t.reader == ReadIdle && t.readers == s.readers && t.writers == s.writers
    requires t.writer == if s.writer.WriteAsleep? then WriteWoken(s.writer.rest) else s.writer
    ensures View(t) == Give(View(s), n)
  {
    var r := s.ring;
    CellsTake(r.buf, r.rcur, r.rcant, n);
  }

  lemma EndReadWakes(s: State, n: nat)
    requires Locks(s.(mutex := New(1), reader := ReadIdle)) && s.mutex == New(0)
    ensures EndRead(s, n).writer == if s.writer.WriteAsleep? then WriteWoken(s.writer.rest) else s.writer
  {}

  lemma ReadIsQueue(s: State, want: nat, clears: bool)
    requires Sound(s) && Enabled(s, ERead(want))
    ensures Locks(Read(s, want))
    ensures View(Read(s, want)) == Act(View(s), ERead(want)) <==> QueueLike(s, ERead(want))
  {
    LocksStep(s, ERead(want), clears);
    HeldLength(s);
    if s.writers > 0 {
      ReadGives(s, want);
      var t, n := Read(s, want), Min(s.ring.rcant, want);
      if !Waits(s, want) {
        assert t.writer == if s.writer.WriteAsleep? then WriteWoken(s.writer.rest) else s.writer;
        hide Read;
        GivenIsGive(s, t, n);
      }
    }
  }

  lemma Cancel(a: seq<char>, b: seq<char>, c: seq<char>, d: seq<char>)
    requires a + b == c + d && a == c
    ensures b == d
  {
    assert b == (a + b)[|a|..] && d == (c + d)[|c|..];
  }

  // The bytes that a sound write leaves in the buffer.
  lemma StoredIsFill(s: State, t: State, bs: seq<char>, waits: bool)
    requires Sound(s) && Sound(t) && |t.ring.buf| == |s.ring.buf| && t.readers == s.readers && t.writers == s.writers
    requires waits ==> 0 <= |s.ring.buf| - s.ring.wcant < |bs|
    requires waits || s.ring.wcant + |bs| <= |s.ring.buf|
    requires t.log.delivered == s.log.delivered && t.reader == if s.reader.ReadAsleep? then ReadWoken(s.reader.want) else s.reader
    requires var n := if waits then |s.ring.buf| - s.ring.wcant else |bs|;
      t.log.stored == s.log.stored + bs[..n] && t.writer == if waits then WriteAsleep(bs[n..]) else WriteIdle
    ensures View(t) == Fill(View(s), bs)
  {
    var n := if waits then |s.ring.buf| - s.ring.wcant else |bs|;
    var a, b := Cells(s.ring.buf, s.ring.rcur, s.ring.rcant), Cells(t.ring.buf, t.ring.rcur, t.ring.rcant);
    HeldLength(s);
    JoinAssoc(s.log.delivered, a, bs[..n]);
    Cancel(t.log.delivered, b, s.log.delivered, a + bs[..n]);
  }

  // A buffer that holds more than its length.
  lemma OverrunIsNoQueue(s: State, t: State, e: Event)
    requires Sound(s) && Locks(t) && t.ring.wcant > |s.ring.buf|
    ensures |View(s).held| <= View(s).cap && View(t) != Act(View(s), e)
  {
    HeldLength(s);
    ActKeeps(View(s), e);
    assert |View(t).held| > View(s).cap;
  }

  lemma WriteIsQueue(s: State, bs: seq<char>, clears: bool)
    requires Sound(s) && Enabled(s, EWrite(bs))
    ensures Locks(Write(s, bs, clears)) && |View(s).held| <= View(s).cap
    ensures View(Write(s, bs, clears)) == Act(View(s), EWrite(bs)) <==> QueueLike(s, EWrite(bs))
  {
    hide Cells, Slot, WriteLoop, Fill;
    LocksStep(s, EWrite(bs), clears);
    HeldLength(s);
    if s.readers > 0 {
      var u := s.(mutex := Wait(s.mutex, WRITER), log := Offer(s.log, bs));
      var t := Write(s, bs, clears);
      LoopLocks(u, bs, clears);
      WriteGives(s, bs, clears);
      WriteExact(s, bs, clears);
      assert s.log.stored + [] == s.log.stored;
      LoopExact(u, bs, clears);
      if WriteSafe(s, |bs|) {
        StoredIsFill(s, t, bs, Overflows(s, |bs|));
      } else {
        OverrunIsNoQueue(s, t, EWrite(bs));
      }
    }
  }

  lemma WriteOnIsQueue(s: State, clears: bool)
    requires Sound(s) && s.writer.WriteWoken?
    ensures Locks(WriteOn(s, clears)) && |View(s).held| <= View(s).cap
    ensures View(WriteOn(s, clears)) == Act(View(s), EWriteOn) <==> QueueLike(s, EWriteOn)
  {
    hide Cells, Slot, WriteLoop, Fill;
    LocksStep(s, EWriteOn, clears);
    HeldLength(s);
    var bs, t := s.writer.rest, WriteOn(s, clears);
    var u := Put(s.(mutex := Wait(s.mutex, WRITER)), bs[0]);
    LoopLocks(u, bs[1..], clears);
    WriteOnGives(s, clears);
    WriteOnExact(s, clears);
    PutFifo(s, bs[0]);
    assert s.log.stored + bs == (s.log.stored + [bs[0]]) + bs[1..];
    LoopExact(u, bs[1..], clears);
    if WriteSafe(s, |bs|) {
      StoredIsFill(s, t, bs, Overflows(s, |bs|));
    } else {
      OverrunIsNoQueue(s, t, EWriteOn);
    }
  }

  // A call does to what the users see what it would do to the queue exactly when it is
  // queue-like: as written, and with the flag cleared.
  lemma StepIsQueueExactly(s: State, e: Event, clears: bool)
    requires Sound(s) && Enabled(s, e)
    ensures Locks(Step(s, e, clears)) && |View(s).held| <= View(s).cap
    ensures View(Step(s, e, clears)) == Act(View(s), e) <==> QueueLike(s, e)
  {
    LocksStep(s, e, clears);
    HeldLength(s);
    hide Cells, Read, Write, WriteOn;
    match e
    case ERead(want) => ReadIsQueue(s, want, clears);
    case EReadOn => ReadOnIsQueue(s);
    case EWrite(bs) => WriteIsQueue(s, bs, clears);
    case EWriteOn => WriteOnIsQueue(s, clears);
    case _ =>
  }

  lemma ReadOnIsQueue(s: State)
    requires Sound(s) && s.reader.ReadWoken?
    ensures Locks(ReadOn(s)) && |View(s).held| <= View(s).cap && View(ReadOn(s)) == Act(View(s), EReadOn)
  {
    LocksStep(s, EReadOn, false);
    HeldLength(s);
    ReadOnGives(s);
    GivenIsGive(s, ReadOn(s), Min(s.ring.rcant, s.reader.want));
  }

  // ---------------------------------------------------------------- with the flag cleared

  // No flag and no signal is left over then, so every read of at least one byte and every
  // write is queue-like.
  lemma CleanIsQueueLike(s: State, e: Event)
    requires Sound(s) && Clean(s) && Enabled(s, e)
    ensures QueueLike(s, e)
  {}

  // A run of the pipe page is the run of the queue.
  lemma {:induction false} RunIsQueue(s: State, es: seq<Event>)
    requires Sound(s) && Clean(s) && Runs(s, es, true) && forall e | e in es :: Asks(e)
    ensures |View(s).held| <= View(s).cap && View(Run(s, es, true)) == Acts(View(s), es)
    decreases |es|
  {
    HeldLength(s);
    if es != [] {
      assert Asks(es[0]);
      CleanIsQueueLike(s, es[0]);
      StepIsQueueExactly(s, es[0], true);
      StepExact(s, es[0], true);
      CleanStep(s, es[0]);
      RunIsQueue(Step(s, es[0], true), es[1..]);
    }
  }

  lemma OpenIsEmpty(buf: seq<char>)
    requires buf != []
    ensures Sound(Open(buf)) && Clean(Open(buf)) && View(Open(buf)) == Empty(|buf|)
  {
    OpenSound(buf);
  }

  // From the opening on, for reads of at least one byte and writes of any length.
  lemma ClearedIsQueue(buf: seq<char>, es: seq<Event>)
    requires buf != [] && Runs(Open(buf), es, true) && forall e | e in es :: Asks(e)
    ensures View(Run(Open(buf), es, true)) == Acts(Empty(|buf|), es)
  {
    OpenIsEmpty(buf);
    RunIsQueue(Open(buf), es);
  }
}
