// The keyboard buffer of a console with one reader: con_read and the buffering half of
// console_keyPressed (con.c). The drawing and the switching of consoles are left out.
module Consoles {
  import opened Rings
  import opened Semaphores

  const READER: Pid := 1
  const CON_ERROR_READTOOLARGE := -5

  // Where the reader is: outside, asleep at con.c:53, or signalled and ready to go on.
  datatype Reader = Outside | Asleep(want: nat) | Woken(want: nat)

  // The fields of the console, its reader, and the history: characters given to the reader
  // and keystrokes accepted.
  datatype State = State(
    buf: seq<char>, first: nat, end: nat, cant: int, busy: bool, expected: nat, sem: Sem,
    reader: Reader, delivered: seq<char>, accepted: seq<char>)

  // ---------------------------------------------------------------- steps

  // Lines 57-65.
  function Deliver(s: State, size: nat): State
    requires s.first < |s.buf|
  {
    s.(first := Slot(s.first, size, |s.buf|), cant := s.cant - size, expected := 0, reader := Outside,
       delivered := s.delivered + Cells(s.buf, s.first, size))
  }

  // con_read from the call; a request larger than the buffer is refused.
  function Read(s: State, size: nat): State
    requires s.first < |s.buf|
  {
    if size > |s.buf| then s
    else if s.cant < size then
      var t := s.(busy := true, expected := size, sem := Wait(s.sem, READER));
      if Blocks(s.sem) then t.(reader := Asleep(size)) else Deliver(t, size)
    else Deliver(s, size)
  }

  // con_read after the wake-up.
  function ReadOn(s: State): State
    requires s.first < |s.buf| && s.reader.Woken?
  {
    Deliver(s, s.reader.want)
  }

  // console_keyPressed once the scan code is translated; code 0 is no character.
  function Key(s: State, c: char): State
    requires s.end < |s.buf|
  {
    if c == '\0' || s.cant >= |s.buf| then s
    else
      var t := s.(buf := s.buf[s.end := c], end := Slot(s.end, 1, |s.buf|), cant := s.cant + 1,
                  accepted := s.accepted + [c]);
      if t.cant >= t.expected && t.busy then WakeReader(t.(busy := false)) else t
  }

  function WakeReader(s: State): State {
    s.(sem := Signal(s.sem),
       reader := if Semaphores.Woken(s.sem) == Some(READER) && s.reader.Asleep? then Reader.Woken(s.reader.want) else s.reader)
  }

  // con_open: the page comes zeroed from the kernel allocator.
  function Open(buf: seq<char>): State { State(buf, 0, 0, 0, false, 0, New(0), Outside, [], []) }

  // ---------------------------------------------------------------- runs

  datatype Event = ERead(size: nat) | EReadOn | EKey(c: char)

  predicate Enabled(s: State, e: Event) {
    s.first < |s.buf| && s.end < |s.buf| &&
    match e
    case ERead(_) => s.reader.Outside?
    case EReadOn => s.reader.Woken?
    case EKey(_) => true
  }

  ghost predicate Inv(s: State) {
    && s.first < |s.buf| && 0 <= s.cant <= |s.buf| && s.end == Slot(s.first, s.cant, |s.buf|)
    && s.delivered + Cells(s.buf, s.first, s.cant) == s.accepted
    && match s.reader
       case Outside => !s.busy && s.sem == New(0)
       case Asleep(n) => s.busy && s.sem == Sem(0, [READER]) && s.expected == n && s.cant < n <= |s.buf|
       case Woken(n) => !s.busy && s.sem == New(0) && n <= s.cant
  }

  function Step(s: State, e: Event): State
    requires Enabled(s, e)
  {
    match e
    case ERead(size) => Read(s, size)
    case EReadOn => ReadOn(s)
    case EKey(c) => Key(s, c)
  }

  lemma DeliverInv(s: State, size: nat)
    requires Inv(s.(reader := Outside, busy := false)) && !s.busy && size <= s.cant
    ensures Inv(Deliver(s, size))
  {
    CellsTake(s.buf, s.first, s.cant, size);
    hide Slot, Cells;
  }

  lemma KeyInv(s: State, c: char)
    requires Inv(s)
    ensures Inv(Key(s, c))
  {
    if s.cant < |s.buf| { CellsPut(s.buf, s.first, s.cant, c); OneMore(s.buf, s.first, s.cant); }
  }

  lemma StepInv(s: State, e: Event)
    requires Inv(s) && Enabled(s, e)
    ensures Inv(Step(s, e)) && |Step(s, e).buf| == |s.buf|
  {
    match e
    case ERead(size) => if size <= s.cant { DeliverInv(s, size); }
    case EReadOn => DeliverInv(s, s.reader.want);
    case EKey(c) => KeyInv(s, c);
  }

  ghost predicate Runs(s: State, es: seq<Event>)
    decreases |es|
  {
    es == [] || (Enabled(s, es[0]) && Runs(Step(s, es[0]), es[1..]))
  }

  function Run(s: State, es: seq<Event>): State
    requires Runs(s, es)
    decreases |es|
  {
    if es == [] then s else Run(Step(s, es[0]), es[1..])
  }

  lemma {:induction false} RunInv(s: State, es: seq<Event>)
    requires Inv(s) && Runs(s, es)
    ensures Inv(Run(s, es))
    decreases |es|
  {
    if es != [] {
      StepInv(s, es[0]);
      RunInv(Step(s, es[0]), es[1..]);
    }
  }

  lemma OpenInv(buf: seq<char>)
    requires buf != []
    ensures Inv(Open(buf))
  {
    assert Cells(buf, 0, 0) == [];
  }

  // In every run of reads and keystrokes the characters delivered and then those in the
  // buffer are the accepted keystrokes in order; a reader is asleep exactly while its whole
  // request is not there, and a woken one finds it whole; so the count stays in range.
  lemma Stream(buf: seq<char>, es: seq<Event>)
    requires buf != [] && Runs(Open(buf), es)
    ensures var s := Run(Open(buf), es);
      && s.first < |s.buf| && 0 <= s.cant <= |s.buf|
      && s.delivered + Cells(s.buf, s.first, s.cant) == s.accepted
      && (s.reader.Asleep? ==> s.cant < s.reader.want <= |s.buf|)
      && (s.reader.Woken? ==> s.reader.want <= s.cant && |ReadOn(s).delivered| == |s.delivered| + s.reader.want)
  {
    OpenInv(buf);
    RunInv(Open(buf), es);
  }

  // A sleeping reader is released exactly by the keystroke that completes its request, and
  // the keys it still needs are always accepted.
  lemma ReleasedExactly(s: State, c: char)
    requires Inv(s) && s.reader.Asleep? && c != '\0'
    ensures Key(s, c).accepted == s.accepted + [c]
    ensures Key(s, c).reader.Woken? <==> s.cant + 1 == s.reader.want
    ensures !Key(s, c).reader.Woken? ==> Key(s, c).reader == s.reader
  {
    var t := Key(s, c);
    StepInv(s, EKey(c));
    assert t.cant == s.cant + 1;
  }

  // A key is accepted exactly when it is a character and finds room, and else ignored.
  lemma KeyAcceptedExactly(s: State, c: char)
    requires Inv(s)
    ensures Key(s, c).accepted == s.accepted + [c] <==> c != '\0' && s.cant < |s.buf|
    ensures !(c != '\0' && s.cant < |s.buf|) ==> Key(s, c) == s
  {
  }

  // ---------------------------------------------------------------- the queue behind it

  // The console as its reader sees it: the characters held and given so far. A request is
  // served whole or waits.
  datatype Queue = Queue(cap: nat, held: seq<char>, given: seq<char>, reader: Reader)

  function Give(q: Queue, n: nat): Queue
    requires n <= |q.held|
  {
    q.(held := q.held[n..], given := q.given + q.held[..n], reader := Outside)
  }

  function Act(q: Queue, e: Event): Queue {
    match e
    case ERead(n) =>
      if n > q.cap then q else if n <= |q.held| then Give(q, n) else q.(reader := Asleep(n))
    case EReadOn => if q.reader.Woken? && q.reader.want <= |q.held| then Give(q, q.reader.want) else q
    case EKey(c) =>
      if c == '\0' || |q.held| >= q.cap then q
      else q.(held := q.held + [c],
              reader := if q.reader.Asleep? && |q.held| + 1 >= q.reader.want then Reader.Woken(q.reader.want) else q.reader)
  }

  function Acts(q: Queue, es: seq<Event>): Queue
    decreases |es|
  {
    if es == [] then q else Acts(Act(q, es[0]), es[1..])
  }

  ghost function View(s: State): Queue
    requires s.first < |s.buf| && s.cant >= 0
  {
    Queue(|s.buf|, Cells(s.buf, s.first, s.cant), s.delivered, s.reader)
  }

  lemma DeliverIsGive(s: State, n: nat)
    requires s.first < |s.buf| && n <= s.cant <= |s.buf|
    ensures View(Deliver(s, n)) == Give(View(s), n)
  {
    CellsTake(s.buf, s.first, s.cant, n);
  }

  lemma KeyIsPut(s: State, c: char)
    requires Inv(s)
    ensures View(Key(s, c)) == Act(View(s), EKey(c))
  {
    if s.cant < |s.buf| { CellsPut(s.buf, s.first, s.cant, c); }
  }

  // Every step of the console is that of the queue.
  lemma StepIsQueue(s: State, e: Event)
    requires Inv(s) && Enabled(s, e)
    ensures Step(s, e).first < |Step(s, e).buf| && Step(s, e).cant >= 0
    ensures View(Step(s, e)) == Act(View(s), e)
  {
    StepInv(s, e);
    match e
    case ERead(n) => if n <= s.cant { DeliverIsGive(s, n); }
    case EReadOn => DeliverIsGive(s, s.reader.want);
    case EKey(c) => KeyIsPut(s, c);
  }

  lemma {:induction false} RunIsQueue(s: State, es: seq<Event>)
    requires Inv(s) && Runs(s, es)
    ensures Inv(Run(s, es)) && View(Run(s, es)) == Acts(View(s), es)
    decreases |es|
  {
    if es != [] {
      StepInv(s, es[0]);
      StepIsQueue(s, es[0]);
      RunIsQueue(Step(s, es[0]), es[1..]);
    }
  }

  lemma OpenIsQueue(buf: seq<char>, es: seq<Event>)
    requires buf != [] && Runs(Open(buf), es)
    ensures Inv(Run(Open(buf), es)) && View(Run(Open(buf), es)) == Acts(Queue(|buf|, [], [], Outside), es)
  {
    OpenInv(buf);
    RunIsQueue(Open(buf), es);
  }

  // ---------------------------------------------------------------- con.c

  class Console {
    const buff: array<char>
    var start: nat
    var end: nat
    var cant: int
    var busy: bool
    var readExpected: nat
    var sem: Sem
    // the stack of the reading process, and the history
    var reader: Reader
    ghost var delivered: seq<char>
    ghost var accepted: seq<char>

    ghost function Abs(): State
      reads this, buff
    {
      State(buff[..], start, end, cant, busy, readExpected, sem, reader, delivered, accepted)
    }

    // con_open, on the buffer of a zeroed page.
    constructor (page: array<char>)
      ensures buff == page && Abs() == Open(page[..])
    {
      buff := page;
      start, end, cant, busy, readExpected, sem := 0, 0, 0, false, 0, New(0);
      reader, delivered, accepted := Outside, [], [];
    }

    // Lines 57-61.
    method CopyOut(size: nat) returns (got: seq<char>)
      requires start < buff.Length
      modifies `start
      ensures got == Cells(buff[..], old(start), size) && start == Slot(old(start), size, buff.Length)
    {
      got := [];
      OneMore(buff[..], start, 0);
      hide Slot, Cells;
      for i := 0 to size
        invariant start < buff.Length
        invariant got == Cells(buff[..], old(start), i) && start == Slot(old(start), i, buff.Length)
      {
        OneMore(buff[..], old(start), i);
        got := got + [buff[start]];
        start := (start + 1) % buff.Length;
      }
    }

    // Lines 57-66.
    method Finish(size: nat) returns (got: seq<char>)
      requires start < buff.Length
      modifies `start, `cant, `readExpected, `reader, `delivered
      ensures Abs() == Deliver(old(Abs()), size) && delivered == old(delivered) + got && |got| == size
    {
      got := CopyOut(size);
      cant := cant - size;
      readExpected := 0;
      delivered := delivered + got;
      reader := Outside;
    }

    // con_read; with slept the process stays at line 53.
    method ConRead(size: nat) returns (st: int, got: seq<char>, slept: bool)
      requires Inv(Abs()) && reader.Outside?
      modifies this
      ensures Abs() == Read(old(Abs()), size) && slept == reader.Asleep?
      ensures st == if size > buff.Length then CON_ERROR_READTOOLARGE else 0
      ensures delivered == old(delivered) + got && |got| == if st == 0 && !slept then size else 0
      ensures slept <==> old(cant) < size <= buff.Length
    {
      if size > buff.Length { return CON_ERROR_READTOOLARGE, [], false; }
      st, got, slept := 0, [], false;
      if cant < size {
        busy := true;
        readExpected := size;
        slept := Blocks(sem);
        sem := Wait(sem, READER);
        if slept {
          reader := Asleep(size);
          return;
        }
      }
      got := Finish(size);
    }

    // The rest of con_read once the reader is signalled.
    method ConReadOn(size: nat) returns (got: seq<char>)
      requires Inv(Abs()) && reader == Reader.Woken(size)
      modifies this
      ensures Abs() == ReadOn(old(Abs())) && delivered == old(delivered) + got && |got| == size && cant >= 0
    {
      got := Finish(size);
    }

    // The buffering half of console_keyPressed.
    method KeyPressed(c: char)
      requires Inv(Abs())
      modifies this, buff
      ensures Abs() == Key(old(Abs()), c)
      ensures accepted == old(accepted) + if c != '\0' && old(cant) < buff.Length then [c] else []
    {
      if c != '\0' && cant < buff.Length {
        var index := end;
        buff[index] := c;
        end := (index + 1) % buff.Length;
        cant := cant + 1;
        accepted := accepted + [c];
        if cant >= readExpected && busy {
          busy := false;
          if Semaphores.Woken(sem) == Some(READER) && reader.Asleep? { reader := Reader.Woken(reader.want); }
          sem := Signal(sem);
        }
      }
    }

    // ------------------------------------------------------------ runs

    // One event, and the characters it gives to the reader.
    method Do(e: Event) returns (got: seq<char>)
      requires Inv(Abs()) && Enabled(Abs(), e)
      modifies this, buff
      ensures Abs() == Step(old(Abs()), e) && Inv(Abs()) && delivered == old(delivered) + got
    {
      StepInv(Abs(), e);
      got := [];
      match e
      case ERead(size) =>
        var st, slept;
        st, got, slept := ConRead(size);
      case EReadOn => got := ConReadOn(reader.want);
      case EKey(c) => KeyPressed(c);
    }

    // Any run on the fields is the run of the specification.
    method DoAll(es: seq<Event>) returns (got: seq<char>)
      requires Inv(Abs()) && Runs(Abs(), es)
      modifies this, buff
      ensures Abs() == Run(old(Abs()), es) && Inv(Abs()) && delivered == old(delivered) + got
    {
      ghost var s, t := Abs(), Abs();
      got := [];
      assert es[0..] == es;
      hide Inv, Runs, Run, Step, Enabled;
      for i := 0 to |es|
        invariant t == Abs() && Inv(t) && Runs(t, es[i..]) && Run(t, es[i..]) == Run(s, es)
        invariant delivered == old(delivered) + got
      {
        OneEvent(t, es, i);
        var more := Do(es[i]);
        t := Step(t, es[i]);
        got := got + more;
      }
      assert es[|es|..] == [];
      Ended(t);
    }
  }

  // The event whose turn it is, and the rest of the run.
  lemma OneEvent(s: State, es: seq<Event>, i: nat)
    requires i < |es| && Runs(s, es[i..])
    ensures Enabled(s, es[i]) && Runs(Step(s, es[i]), es[i + 1..]) && Run(s, es[i..]) == Run(Step(s, es[i]), es[i + 1..])
  {
    assert es[i..][0] == es[i] && es[i..][1..] == es[i + 1..];
  }

  lemma Ended(s: State)
    ensures Runs(s, []) && Run(s, []) == s
  {
  }

  // A console opened and used: the reader got a prefix of the accepted keystrokes, and the
  // buffer holds the rest, as on the queue.
  method Session(page: array<char>, es: seq<Event>) returns (con: Console, got: seq<char>)
    requires page.Length > 0 && Runs(Open(page[..]), es)
    modifies page
    ensures con.start < page.Length && con.cant >= 0 && con.buff == page
    ensures got + Cells(page[..], con.start, con.cant) == con.accepted == Run(Open(old(page[..])), es).accepted
    ensures var q := Acts(Queue(page.Length, [], [], Outside), es);
      got == q.given && con.reader == q.reader && Cells(page[..], con.start, con.cant) == q.held
  {
    OpenIsQueue(page[..], es);
    con := new Console(page);
    OpenInv(page[..]);
    Stream(page[..], es);
    got := con.DoAll(es);
  }
}
