// pipe.c over the fields of a pipe page. Each method runs from a call or a wake-up to the
// next blocking point or the return, and is the step of module Pipes of the same name.
module PipePages {
  import opened Rings
  import opened Semaphores
  import opened Pipes
  import Q = PipeQueues

  const PIPE_ERROR_CLOSED := -6

  class PipePage {
    const buffer: array<char>
    // the read end
    var rCursor: nat
    var rCant: int
    var rBusy: bool
    var rSem: Sem
    var rRefs: nat
    // the write end
    var wCursor: nat
    var wCant: int
    var wBusy: bool
    var wSem: Sem
    var wRefs: nat
    // the stacks of the two processes, and the history
    var reader: Reader
    var writer: Writer
    ghost var delivered: seq<char>
    ghost var stored: seq<char>
    ghost var offered: seq<char>

    ghost function Abs(): State
      reads this, buffer
    {
      State(Ring(buffer[..], rCursor, wCursor, rCant, wCant), rBusy, wBusy, rSem, wSem, rRefs, wRefs,
            reader, writer, Log(delivered, stored, offered))
    }

    // pipe_open on a page with the given contents, and the two descriptors of sys_pipe.
    constructor (page: array<char>)
      requires page.Length > 0
      ensures Abs() == Open(page[..]) && buffer == page
    {
      buffer := page;
      rCursor, rCant, rBusy, rSem, rRefs := 0, 0, false, New(0), 1;
      wCursor, wCant, wBusy, wSem, wRefs := 0, 0, false, New(1), 1;
      reader, writer, delivered, stored, offered := ReadIdle, WriteIdle, [], [], [];
    }

    // sem_signal on the semaphore of the read end.
    method Signalled()
      modifies `rSem, `reader, `writer
      ensures Abs() == SignalCond(old(Abs()))
    {
      var woken := Woken(rSem);
      rSem := Signal(rSem);
      if woken == Some(READER) && reader.ReadAsleep? {
        reader := ReadWoken(reader.want);
      } else if woken == Some(WRITER) && writer.WriteAsleep? {
        writer := WriteWoken(writer.rest);
      }
    }

    // Lines 127-130.
    method CopyOut(total: nat) returns (got: seq<char>)
      requires rCursor < buffer.Length
      modifies `rCursor
      ensures got == Cells(buffer[..], old(rCursor), total) && rCursor == Slot(old(rCursor), total, buffer.Length)
    {
      got := [];
      OneMore(buffer[..], rCursor, 0);
      hide Slot, Cells;
      for i := 0 to total
        invariant rCursor < buffer.Length
        invariant got == Cells(buffer[..], old(rCursor), i) && rCursor == Slot(old(rCursor), i, buffer.Length)
      {
        OneMore(buffer[..], old(rCursor), i);
        got := got + [buffer[rCursor]];
        rCursor := (rCursor + 1) % buffer.Length;
      }
    }

    // Lines 127-134.
    method TakeOut(total: nat) returns (got: seq<char>)
      requires rCursor < buffer.Length
      modifies `rCursor, `rCant, `wCant, `delivered
      ensures Abs() == Take(old(Abs()), total) && delivered == old(delivered) + got
      ensures |got| == total && got == Cells(buffer[..], old(rCursor), total)
    {
      got := CopyOut(total);
      wCant := wCant - total;
      rCant := rCant - total;
      delivered := delivered + got;
    }

    // The end of pipe_read (lines 127-144).
    method Finish(total: nat) returns (got: seq<char>)
      requires rCursor < buffer.Length
      modifies `rCursor, `rCant, `wCant, `wBusy, `rSem, `wSem, `reader, `writer, `delivered
      ensures Abs() == EndRead(old(Abs()), total) && delivered == old(delivered) + got
      ensures |got| == total && got == Cells(buffer[..], old(rCursor), total)
    {
      got := TakeOut(total);
      if wBusy {
        wBusy := false;
        Signalled();
      }
      wSem := Signal(wSem);
      reader := ReadIdle;
    }

    // Lines 111-125.
    method AwaitWriter(size: nat) returns (got: seq<char>, slept: bool)
      requires rCursor < buffer.Length && rCant >= 0 && wSem == New(0) && reader.ReadIdle?
      modifies this
      ensures Abs() == Await(old(Abs()), size) && slept == reader.ReadAsleep?
      ensures delivered == old(delivered) + got && wRefs == old(wRefs)
      ensures if slept then got == [] else |got| == Min(old(rCant), size) && got == Cells(buffer[..], old(rCursor), |got|)
      ensures slept == (old(rSem).vl == 0)
    {
      rBusy := true;
      wSem := Signal(wSem);
      slept := Blocks(rSem);
      rSem := Wait(rSem, READER);
      if slept {
        reader, got := ReadAsleep(size), [];
      } else {
        wSem := Wait(wSem, READER);
        got := Finish(if rCant < size then rCant else size);
      }
    }

    // pipe_read; with slept the process stays at line 114.
    method PipeRead(size: nat) returns (st: int, got: seq<char>, slept: bool)
      requires Locks(Abs()) && reader.ReadIdle?
      modifies this
      ensures Abs() == Read(old(Abs()), size) && slept == reader.ReadAsleep?
      ensures st == if wRefs == 0 then PIPE_ERROR_CLOSED else |got|
      ensures delivered == old(delivered) + got && (slept ==> got == [])
      ensures wRefs > 0 ==> slept == old(rCant < size && !wBusy && rSem.vl == 0)
      ensures wRefs > 0 && !slept ==> st == Min(old(rCant), size) && got == Cells(buffer[..], old(rCursor), |got|)
    {
      if wRefs == 0 { return PIPE_ERROR_CLOSED, [], false; }
      slept := false;
      wSem := Wait(wSem, READER);
      if rCant >= size {
        got := Finish(size);
      } else if wBusy {
        got := Finish(rCant);
      } else {
        got, slept := AwaitWriter(size);
      }
      st := |got|;
    }

    // The rest of pipe_read once the reader is signalled.
    method PipeReadOn(size: nat) returns (st: int, got: seq<char>)
      requires Locks(Abs()) && reader == ReadWoken(size)
      modifies this
      ensures Abs() == ReadOn(old(Abs())) && delivered == old(delivered) + got
      ensures st == |got| == Min(old(rCant), size) && got == Cells(buffer[..], old(rCursor), |got|)
    {
      wSem := Wait(wSem, READER);
      got := Finish(if rCant < size then rCant else size);
      st := |got|;
    }

    // Lines 180-183.
    method PutByte(c: char)
      requires wCursor < buffer.Length
      modifies buffer, `wCursor, `wCant, `rCant, `stored
      ensures Abs() == Put(old(Abs()), c)
    {
      buffer[wCursor] := c;
      wCursor := (wCursor + 1) % buffer.Length;
      wCant := wCant + 1;
      rCant := rCant + 1;
      stored := stored + [c];
    }

    // Lines 166-173.
    method HandOverBuffer()
      modifies `wBusy, `rBusy, `wSem, `rSem, `reader, `writer
      ensures Abs() == HandOver(old(Abs()))
    {
      wBusy := true;
      wSem := Signal(wSem);
      if rBusy {
        rBusy := false;
        Signalled();
      }
    }

    // Lines 166-177.
    method AwaitReader(rest: seq<char>) returns (slept: bool)
      modifies `wBusy, `rBusy, `wSem, `rSem, `reader, `writer
      ensures Abs() == GiveWay(old(Abs()), rest) && slept == Blocks(HandOver(old(Abs())).cond)
      ensures slept ==> writer.WriteAsleep?
    {
      HandOverBuffer();
      slept := Blocks(rSem);
      rSem := Wait(rSem, WRITER);
      if slept {
        writer := WriteAsleep(rest);
      } else {
        wSem := Wait(wSem, WRITER);
      }
    }

    // Lines 186-189.
    method Leave(clears: bool)
      requires wCursor < buffer.Length
      modifies `rBusy, `wSem, `rSem, `reader, `writer
      ensures Abs() == WriteLoop(old(Abs()), [], clears)
    {
      if rBusy {
        rBusy := !clears;
        Signalled();
      }
      wSem := Signal(wSem);
      writer := WriteIdle;
    }

    // The loop of pipe_write from its byte i on, with the mutex held.
    method Copy(bs: seq<char>, i: nat, clears: bool) returns (slept: bool)
      requires wCursor < buffer.Length && i <= |bs|
      modifies this, buffer
      ensures Abs() == WriteLoop(old(Abs()), bs[i..], clears) && slept == writer.WriteAsleep?
    {
      var j := i;
      while j < |bs|
        invariant i <= j <= |bs| && wCursor < buffer.Length
        invariant WriteLoop(Abs(), bs[j..], clears) == WriteLoop(old(Abs()), bs[i..], clears)
      {
        assert bs[j..][1..] == bs[j + 1..];
        if wCant == buffer.Length {
          slept := AwaitReader(bs[j..]);
          if slept { return; }
        }
        PutByte(bs[j]);
        j := j + 1;
      }
      assert bs[j..] == [];
      Leave(clears);
      slept := false;
    }

    // pipe_write by a holder of the write end; with slept the process stays at line 174. The
    // code as written has clears == false.
    method PipeWrite(bs: seq<char>, clears: bool) returns (st: int, slept: bool)
      requires Locks(Abs()) && writer.WriteIdle? && wRefs > 0
      modifies this, buffer
      ensures Abs() == Write(old(Abs()), bs, clears) && slept == writer.WriteAsleep?
      ensures !slept ==> st == if rRefs == 0 then PIPE_ERROR_CLOSED else |bs|
      ensures rRefs > 0 ==> slept == old(Overflows(Abs(), |bs|))
      ensures rRefs > 0 ==> stored == old(stored) + if slept then bs[..buffer.Length - old(wCant)] else bs
    {
      if rRefs == 0 { return PIPE_ERROR_CLOSED, false; }
      wSem := Wait(wSem, WRITER);
      offered := offered + bs;
      ghost var s := Abs();
      assert bs[0..] == bs;
      slept := Copy(bs, 0, clears);
      LoopLocks(s, bs, clears);
      LoopGives(s, bs, clears);
      st := |bs|;
    }

    // The rest of pipe_write once the writer is signalled with the bytes bs left.
    method PipeWriteOn(bs: seq<char>, clears: bool) returns (slept: bool)
      requires Locks(Abs()) && writer == WriteWoken(bs)
      modifies this, buffer
      ensures Abs() == WriteOn(old(Abs()), clears) && slept == writer.WriteAsleep?
      ensures slept == (old(wCant) < buffer.Length && old(Overflows(Abs(), |bs|)))
      ensures stored == old(stored) + if slept then bs[..buffer.Length - old(wCant)] else bs
    {
      WriteOnGives(Abs(), clears);
      wSem := Wait(wSem, WRITER);
      PutByte(bs[0]);
      slept := Copy(bs, 1, clears);
    }

    // pipe_flush: the page is given back when neither end has a descriptor left.
    method PipeFlush(x: End) returns (gone: bool)
      requires Refs(Abs(), x) > 0
      modifies `rRefs, `wRefs
      ensures Abs() == Close(old(Abs()), x) && (gone <==> Refs(Abs(), ReadEnd) == Refs(Abs(), WriteEnd) == 0)
    {
      if x == ReadEnd { rRefs := rRefs - 1; } else { wRefs := wRefs - 1; }
      gone := rRefs == 0 && wRefs == 0;
    }

    // A fork copies a descriptor (device.c:79).
    method AddRef(x: End)
      modifies `rRefs, `wRefs
      ensures Abs() == Copied(old(Abs()), x)
    {
      if x == ReadEnd { rRefs := rRefs + 1; } else { wRefs := wRefs + 1; }
    }

    // ------------------------------------------------------------ runs

    // One event, and the bytes it gives to the reader.
    method Do(e: Event, clears: bool) returns (got: seq<char>)
      requires Locks(Abs()) && Enabled(Abs(), e)
      modifies this, buffer
      ensures Abs() == Step(old(Abs()), e, clears) && Locks(Abs()) && delivered == old(delivered) + got
    {
      ghost var s := Abs();
      LocksStep(s, e, clears);
      got := [];
      match e
      case ERead(want) =>
        var st, slept;
        st, got, slept := PipeRead(want);
      case EReadOn =>
        var st;
        st, got := PipeReadOn(reader.want);
      case EWrite(bs) =>
        WriteDelivers(s, e, clears);
        var st, slept := PipeWrite(bs, clears);
      case EWriteOn =>
        WriteDelivers(s, e, clears);
        var slept := PipeWriteOn(writer.rest, clears);
      case EClose(x) => var gone := PipeFlush(x);
      case ECopy(x) => AddRef(x);
    }

    // Any run on the fields of the page is the run of the specification.
    method DoAll(es: seq<Event>, clears: bool) returns (got: seq<char>)
      requires Locks(Abs()) && Runs(Abs(), es, clears)
      modifies this, buffer
      ensures Abs() == Run(old(Abs()), es, clears) && Locks(Abs()) && delivered == old(delivered) + got
    {
      ghost var s, t := Abs(), Abs();
      got := [];
      assert es[0..] == es;
      hide Locks, Enabled, Step, Runs, Run;
      for i := 0 to |es|
        invariant t == Abs() && Locks(t) && Runs(t, es[i..], clears) && Run(t, es[i..], clears) == Run(s, es, clears)
        invariant delivered == old(delivered) + got
      {
        OneEvent(t, es, i, clears);
        var more := Do(es[i], clears);
        t := Step(t, es[i], clears);
        got := got + more;
      }
      assert es[|es|..] == [];
      Ended(t, clears);
    }
  }

  lemma Ended(s: State, clears: bool)
    requires Locks(s)
    ensures Runs(s, [], clears) && Run(s, [], clears) == s
  {
  }

  // The event whose turn it is, and the rest of the run.
  lemma OneEvent(s: State, es: seq<Event>, i: nat, clears: bool)
    requires Locks(s) && i < |es| && Runs(s, es[i..], clears)
    ensures Enabled(s, es[i])
    ensures var t := Step(s, es[i], clears);
      Locks(t) && Runs(t, es[i + 1..], clears) && Run(s, es[i..], clears) == Run(t, es[i + 1..], clears)
  {
    assert es[i..][0] == es[i] && es[i..][1..] == es[i + 1..];
    LocksStep(s, es[i], clears);
  }

  // A write delivers nothing.
  lemma WriteDelivers(s: State, e: Event, clears: bool)
    requires Locks(s) && Enabled(s, e) && (e.EWrite? || e.EWriteOn?)
    ensures Step(s, e, clears).log.delivered == s.log.delivered
  {
    match e
    case EWrite(bs) =>
      if s.readers > 0 { LoopLocks(s.(mutex := Wait(s.mutex, WRITER), log := Offer(s.log, bs)), bs, clears); }
    case EWriteOn =>
      var bs := s.writer.rest;
      LoopLocks(Put(s.(mutex := Wait(s.mutex, WRITER)), bs[0]), bs[1..], clears);
  }

  // A pipe opened and used as written, every write finding room: the bytes its reads
  // returned and then those in the buffer are the bytes written.
  method Session(page: array<char>, es: seq<Event>) returns (pipe: PipePage, got: seq<char>)
    requires page.Length > 0 && Runs(Open(page[..]), es, false) && Roomy(Open(page[..]), es, false)
    modifies page
    ensures pipe.buffer == page && pipe.rCursor < page.Length && pipe.rCant >= 0
    ensures got + Cells(page[..], pipe.rCursor, pipe.rCant) == pipe.offered == Run(Open(old(page[..])), es, false).log.offered
  {
    FifoWithRoom(page[..], es);
    OpenSound(page[..]);
    pipe := new PipePage(page);
    got := pipe.DoAll(es, false);
  }

  // And with the flag cleared, for writes of any length: what is missing is what the writer
  // still holds, and the reads return what they would from a queue of that length.
  method ClearedSession(page: array<char>, es: seq<Event>) returns (pipe: PipePage, got: seq<char>)
    requires page.Length > 0 && Runs(Open(page[..]), es, true) && forall e | e in es :: Asks(e)
    modifies page
    ensures pipe.buffer == page && pipe.rCursor < page.Length && pipe.rCant >= 0
    ensures got + Cells(page[..], pipe.rCursor, pipe.rCant) + Pending(pipe.writer) == pipe.offered
    ensures pipe.offered == Run(Open(old(page[..])), es, true).log.offered
    ensures got == Q.Acts(Q.Empty(page.Length), es).given
  {
    FifoWhenCleared(page[..], es);
    Q.ClearedIsQueue(page[..], es);
    OpenSound(page[..]);
    pipe := new PipePage(page);
    got := pipe.DoAll(es, true);
  }
}
