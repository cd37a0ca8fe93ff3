// The descriptor tables of device.c with the reference counts of pipes and consoles:
// pipe_flush, con_flush and the kernel page behind every device.
module Devices {
  import opened Semaphores

  type Page = nat

  // A device by the kernel page it lives in; the two ends of a pipe share theirs.
  datatype Dev = ReadEnd(page: Page) | WriteEnd(page: Page) | Console(page: Page)

  type Slot = Option<Dev>

  // char_devices, the refcount fields of the devices, the pids in use, the kernel pages
  // that hold devices, and how often each page was taken and given back.
  datatype State = State(rows: seq<seq<Slot>>, refs: map<Dev, int>, used: set<Pid>,
                         live: set<Page>, made: multiset<Page>, freed: multiset<Page>)

  // ---------------------------------------------------------------- operations

  // get_next_free_fd_for_current_task: the first empty slot, or the length of the row.
  function FirstFree(row: seq<Slot>): (i: nat)
    ensures i <= |row| && (i < |row| ==> row[i].None?) && forall j | 0 <= j < i :: row[j].Some?
  {
    if row == [] || row[0].None? then 0 else 1 + FirstFree(row[1..])
  }

  function Refs(s: State, d: Dev): int { if d in s.refs then s.refs[d] else 0 }

  function SetSlot(s: State, p: Pid, i: nat, x: Slot): State
    requires p < |s.rows| && i < |s.rows[p]|
  {
    s.(rows := s.rows[p := s.rows[p][i := x]])
  }

  // device_descriptor for the running pid p; a full row changes nothing.
  function Descriptor(s: State, p: Pid, d: Dev): State
    requires p < |s.rows|
  {
    var i := FirstFree(s.rows[p]);
    if i == |s.rows[p]| then s else SetSlot(s, p, i, Some(d)).(refs := s.refs[d := Refs(s, d) + 1])
  }

  function TakePage(s: State, page: Page): State {
    s.(live := s.live + {page}, made := s.made + multiset{page})
  }

  function GivePage(s: State, page: Page): State {
    s.(live := s.live - {page}, freed := s.freed + multiset{page})
  }

  // pipe_open and the two descriptors of sys_pipe.
  function OpenPipe(s: State, p: Pid, page: Page): State
    requires p < |s.rows|
  {
    var t := TakePage(s, page);
    var u := t.(refs := t.refs[ReadEnd(page) := 0][WriteEnd(page) := 0]);
    var v := Descriptor(u, p, ReadEnd(page));
    if p < |v.rows| then Descriptor(v, p, WriteEnd(page)) else v
  }

  // con_open and the descriptor of sys_open.
  function OpenConsole(s: State, p: Pid, page: Page): State
    requires p < |s.rows|
  {
    var t := TakePage(s, page);
    Descriptor(t.(refs := t.refs[Console(page) := 0]), p, Console(page))
  }

  // pipe_flush and con_flush.
  function Flush(s: State, d: Dev): State {
    match d
    case Console(page) =>
      if Refs(s, d) > 1 then s.(refs := s.refs[d := Refs(s, d) - 1]) else GivePage(s, page)
    case _ =>
      var t := s.(refs := s.refs[d := Refs(s, d) - 1]);
      if Refs(t, d) == 0 && Refs(t, Other(d)) == 0 then GivePage(t, d.page) else t
  }

  function Other(d: Dev): Dev {
    match d
    case ReadEnd(page) => WriteEnd(page)
    case WriteEnd(page) => ReadEnd(page)
    case Console(page) => d
  }

  // sys_close of an open descriptor.
  function Close(s: State, p: Pid, i: nat): State
    requires p < |s.rows| && i < |s.rows[p]| && s.rows[p][i].Some?
  {
    Flush(SetSlot(s, p, i, None), s.rows[p][i].value)
  }

  // device_fork_descriptors, from slot i on.
  function CopySlot(s: State, p: Pid, q: Pid, i: nat): State
    requires p < |s.rows| && q < |s.rows| && i < |s.rows[p]| == |s.rows[q]|
  {
    var x := s.rows[p][i];
    var t := SetSlot(s, q, i, x);
    match x case None => t case Some(d) => t.(refs := s.refs[d := Refs(s, d) + 1])
  }

  function Copies(s: State, p: Pid, q: Pid, i: nat): (t: State)
    requires p < |s.rows| && q < |s.rows| && i <= |s.rows[p]| == |s.rows[q]|
    decreases |s.rows[p]| - i
  {
    if i == |s.rows[p]| then s else Copies(CopySlot(s, p, q, i), p, q, i + 1)
  }

  // device_release_devices, from slot i on.
  function Closes(s: State, p: Pid, i: nat): (t: State)
    requires p < |s.rows| && i <= |s.rows[p]|
    decreases |s.rows[p]| - i
  {
    if i == |s.rows[p]| then s
    else Closes(if s.rows[p][i].Some? then Close(s, p, i) else s, p, i + 1)
  }

  // sys_fork and loader_exit, as far as descriptors and pids go.
  function Fork(s: State, p: Pid, q: Pid): State
    requires p < |s.rows| && q < |s.rows| && |s.rows[p]| == |s.rows[q]|
  {
    Copies(s, p, q, 0).(used := s.used + {q})
  }

  function Exit(s: State, p: Pid): State
    requires p < |s.rows|
  {
    Closes(s, p, 0).(used := s.used - {p})
  }

  // ---------------------------------------------------------------- the invariant

  function InRow(row: seq<Slot>, d: Dev): nat {
    if row == [] then 0 else (if row[0] == Some(d) then 1 else 0) + InRow(row[1..], d)
  }

  // The descriptor slots that name d, over all pids.
  function Named(rows: seq<seq<Slot>>, d: Dev): nat {
    if rows == [] then 0 else InRow(rows[0], d) + Named(rows[1..], d)
  }

  function OnPage(s: State, page: Page): nat {
    Named(s.rows, ReadEnd(page)) + Named(s.rows, WriteEnd(page)) + Named(s.rows, Console(page))
  }

  predicate Empty(row: seq<Slot>) { forall i | 0 <= i < |row| :: row[i].None? }

  // What holds of one page: a live page is named, a dead one is not; the counts are the
  // slots; a console shares its page with nobody; taken and given back balance.
  ghost predicate PageKept(s: State, page: Page) {
    && (page in s.live <==> OnPage(s, page) > 0)
    && (page in s.live && Named(s.rows, Console(page)) == 0 ==>
          && Refs(s, ReadEnd(page)) == Named(s.rows, ReadEnd(page))
          && Refs(s, WriteEnd(page)) == Named(s.rows, WriteEnd(page)))
    && (Named(s.rows, Console(page)) > 0 ==>
          Refs(s, Console(page)) == Named(s.rows, Console(page)) == OnPage(s, page))
    && s.made[page] == s.freed[page] + if page in s.live then 1 else 0
  }

  ghost predicate Shape(s: State, fds: nat) { forall p | 0 <= p < |s.rows| :: |s.rows[p]| == fds }

  ghost predicate Idle(s: State) { forall p: Pid | p < |s.rows| && p !in s.used :: Empty(s.rows[p]) }

  // Every device in a slot has its refcount field, and so has the other end of a pipe.
  ghost predicate KnownRow(row: seq<Slot>, refs: map<Dev, int>) {
    forall i | 0 <= i < |row| :: row[i].Some? ==> row[i].value in refs && Other(row[i].value) in refs
  }

  ghost predicate Known(s: State) { forall p | 0 <= p < |s.rows| :: KnownRow(s.rows[p], s.refs) }

  ghost predicate Inv(s: State, fds: nat) {
    Shape(s, fds) && Idle(s) && Known(s) && forall page: Page :: PageKept(s, page)
  }

  lemma {:induction false} InRowUpdate(row: seq<Slot>, i: nat, x: Slot, d: Dev)
    requires i < |row|
    ensures InRow(row[i := x], d) + (if row[i] == Some(d) then 1 else 0) == InRow(row, d) + (if x == Some(d) then 1 else 0)
  {
    if i == 0 {
      assert row[0 := x][1..] == row[1..];
    } else {
      InRowUpdate(row[1..], i - 1, x, d);
      assert row[i := x][1..] == row[1..][i - 1 := x];
    }
  }

  lemma {:induction false} NamedUpdate(rows: seq<seq<Slot>>, p: nat, row: seq<Slot>, d: Dev)
    requires p < |rows|
    ensures Named(rows[p := row], d) + InRow(rows[p], d) == Named(rows, d) + InRow(row, d)
    ensures InRow(rows[p], d) <= Named(rows, d)
  {
    if p == 0 {
      assert rows[0 := row][1..] == rows[1..];
    } else {
      NamedUpdate(rows[1..], p - 1, row, d);
      assert rows[p := row][1..] == rows[1..][p - 1 := row];
    }
  }

  // One slot changed.
  lemma SlotNamed(s: State, p: Pid, i: nat, x: Slot, d: Dev)
    requires p < |s.rows| && i < |s.rows[p]|
    ensures Named(SetSlot(s, p, i, x).rows, d) ==
      Named(s.rows, d) - (if s.rows[p][i] == Some(d) then 1 else 0) + (if x == Some(d) then 1 else 0)
  {
    InRowUpdate(s.rows[p], i, x, d);
    NamedUpdate(s.rows, p, s.rows[p][i := x], d);
  }

  lemma SlotOnPage(s: State, p: Pid, i: nat, x: Slot, page: Page)
    requires p < |s.rows| && i < |s.rows[p]|
    ensures OnPage(SetSlot(s, p, i, x), page) ==
      OnPage(s, page) - (if s.rows[p][i].Some? && s.rows[p][i].value.page == page then 1 else 0)
                      + (if x.Some? && x.value.page == page then 1 else 0)
  {
    SlotNamed(s, p, i, x, ReadEnd(page));
    SlotNamed(s, p, i, x, WriteEnd(page));
    SlotNamed(s, p, i, x, Console(page));
  }

  lemma {:induction false} InRowNames(row: seq<Slot>, d: Dev)
    ensures InRow(row, d) > 0 <==> Some(d) in row
  {
    if row != [] { InRowNames(row[1..], d); }
  }

  lemma {:induction false} EmptyNames(row: seq<Slot>, d: Dev)
    requires Empty(row)
    ensures InRow(row, d) == 0
  {
    InRowNames(row, d);
  }

  // ---------------------------------------------------------------- close and exit

  // Closing a descriptor keeps every page right.
  lemma CloseElsewhere(s: State, p: Pid, i: nat, page: Page)
    requires p < |s.rows| && i < |s.rows[p]| && s.rows[p][i].Some? && PageKept(s, page)
    requires s.rows[p][i].value.page != page
    ensures PageKept(Close(s, p, i), page)
  {
    SlotNamed(s, p, i, None, ReadEnd(page));
    SlotNamed(s, p, i, None, WriteEnd(page));
    SlotNamed(s, p, i, None, Console(page));
  }

  lemma ClosePage(s: State, p: Pid, i: nat, page: Page)
    requires p < |s.rows| && i < |s.rows[p]| && s.rows[p][i].Some? && PageKept(s, page)
    ensures PageKept(Close(s, p, i), page)
  {
    var d := s.rows[p][i].value;
    if d.page != page {
      CloseElsewhere(s, p, i, page);
    } else {
      SlotNamed(s, p, i, None, ReadEnd(page));
      SlotNamed(s, p, i, None, WriteEnd(page));
      SlotNamed(s, p, i, None, Console(page));
      InRowNames(s.rows[p], d);
      NamedUpdate(s.rows, p, s.rows[p], d);
    }
  }

  // The page goes with the last slot of either end, and is there to be given back.
  lemma LastCloseFrees(s: State, p: Pid, i: nat, fds: nat)
    requires Inv(s, fds) && p < |s.rows| && i < fds && s.rows[p][i].Some?
    ensures var page := s.rows[p][i].value.page;
      && page in s.live
      && (page !in Close(s, p, i).live <==> OnPage(s, page) == 1)
      && Close(s, p, i).freed[page] == s.freed[page] + (if OnPage(s, page) == 1 then 1 else 0)
      && forall q: Page | q != page :: (q in Close(s, p, i).live <==> q in s.live) && Close(s, p, i).freed[q] == s.freed[q]
  {
    var d := s.rows[p][i].value;
    assert PageKept(s, d.page);
    ClosePage(s, p, i, d.page);
    SlotOnPage(s, p, i, None, d.page);
    InRowNames(s.rows[p], d);
    NamedUpdate(s.rows, p, s.rows[p], d);
  }

  lemma {:induction false} ClosesAll(s: State, p: Pid, i: nat)
    requires p < |s.rows| && i <= |s.rows[p]| && (forall page: Page :: PageKept(s, page))
    requires forall j | 0 <= j < i :: s.rows[p][j].None?
    ensures var t := Closes(s, p, i);
      && (forall page: Page :: PageKept(t, page)) && |t.rows| == |s.rows| && t.used == s.used
      && |t.rows[p]| == |s.rows[p]| && Empty(t.rows[p])
      && forall q | 0 <= q < |s.rows| && q != p :: t.rows[q] == s.rows[q]
    decreases |s.rows[p]| - i
  {
    if i < |s.rows[p]| {
      if s.rows[p][i].Some? {
        forall page: Page ensures PageKept(Close(s, p, i), page) { ClosePage(s, p, i, page); }
        ClosesAll(Close(s, p, i), p, i + 1);
      } else {
        ClosesAll(s, p, i + 1);
      }
    }
  }

  // ---------------------------------------------------------------- fork

  // What the copy of a row does to the rows and the counts.
  lemma {:induction false} CopiesDo(s: State, p: Pid, q: Pid, i: nat, d: Dev)
    requires p < |s.rows| && q < |s.rows| && p != q && i <= |s.rows[p]| == |s.rows[q]|
    ensures var t := Copies(s, p, q, i);
      && t.rows == s.rows[q := s.rows[q][..i] + s.rows[p][i..]]
      && Refs(t, d) == Refs(s, d) + InRow(s.rows[p][i..], d)
      && t.live == s.live && t.made == s.made && t.freed == s.freed && t.used == s.used
    decreases |s.rows[p]| - i
  {
    if i == |s.rows[p]| {
      assert s.rows[q][..i] + s.rows[p][i..] == s.rows[q];
    } else {
      var u := CopySlot(s, p, q, i);
      CopiesDo(u, p, q, i + 1, d);
      assert u.rows[q][..i + 1] == s.rows[q][..i] + [s.rows[p][i]];
      assert s.rows[p][i..] == [s.rows[p][i]] + s.rows[p][i + 1..];
      assert u.rows[q][..i + 1] + s.rows[p][i + 1..] == s.rows[q][..i] + s.rows[p][i..];
    }
  }

  lemma ForkDoes(s: State, p: Pid, q: Pid, d: Dev)
    requires p < |s.rows| && q < |s.rows| && p != q && |s.rows[p]| == |s.rows[q]|
    ensures var t := Fork(s, p, q);
      && t.rows == s.rows[q := s.rows[p]] && Refs(t, d) == Refs(s, d) + InRow(s.rows[p], d)
      && Named(t.rows, d) == Named(s.rows, d) - InRow(s.rows[q], d) + InRow(s.rows[p], d)
      && InRow(s.rows[p], d) <= Named(s.rows, d)
      && t.live == s.live && t.made == s.made && t.freed == s.freed && t.used == s.used + {q}
  {
    CopiesDo(s, p, q, 0, d);
    assert s.rows[q][..0] + s.rows[p][0..] == s.rows[p];
    assert s.rows[p][0..] == s.rows[p];
    NamedUpdate(s.rows, q, s.rows[p], d);
    NamedUpdate(s.rows, p, s.rows[p], d);
  }

  lemma ForkPage(s: State, p: Pid, q: Pid, page: Page)
    requires p < |s.rows| && q < |s.rows| && p != q && |s.rows[p]| == |s.rows[q]|
    requires PageKept(s, page) && Empty(s.rows[q])
    ensures PageKept(Fork(s, p, q), page)
  {
    forall d: Dev ensures InRow(s.rows[q], d) == 0 { EmptyNames(s.rows[q], d); }
    ForkDoes(s, p, q, ReadEnd(page));
    ForkDoes(s, p, q, WriteEnd(page));
    ForkDoes(s, p, q, Console(page));
  }

  // Forking into a row keeps the counts right exactly when that row is empty.
  lemma ForkKeepsExactly(s: State, p: Pid, q: Pid)
    requires p < |s.rows| && q < |s.rows| && p != q && |s.rows[p]| == |s.rows[q]|
    requires forall page: Page :: PageKept(s, page)
    ensures (forall page: Page :: PageKept(Fork(s, p, q), page)) <==> Empty(s.rows[q])
  {
    if Empty(s.rows[q]) {
      forall page: Page ensures PageKept(Fork(s, p, q), page) { ForkPage(s, p, q, page); }
    } else {
      var i :| 0 <= i < |s.rows[q]| && s.rows[q][i].Some?;
      var d := s.rows[q][i].value;
      InRowNames(s.rows[q], d);
      assert PageKept(s, d.page);
      NamedUpdate(s.rows, q, s.rows[q], d);
      ForkDoes(s, p, q, ReadEnd(d.page));
      ForkDoes(s, p, q, WriteEnd(d.page));
      ForkDoes(s, p, q, Console(d.page));
      assert !PageKept(Fork(s, p, q), d.page);
    }
  }

  // ---------------------------------------------------------------- opening

  function Vacant(row: seq<Slot>): nat {
    if row == [] then 0 else (if row[0].None? then 1 else 0) + Vacant(row[1..])
  }

  lemma {:induction false} VacantUpdate(row: seq<Slot>, x: Dev)
    ensures Vacant(row) > 0 <==> FirstFree(row) < |row|
    ensures FirstFree(row) < |row| ==> Vacant(row[FirstFree(row) := Some(x)]) == Vacant(row) - 1
  {
    if row != [] && row[0].Some? {
      VacantUpdate(row[1..], x);
      if FirstFree(row) < |row| {
        assert row[FirstFree(row) := Some(x)][1..] == row[1..][FirstFree(row[1..]) := Some(x)];
      }
    } else if row != [] {
      assert row[0 := Some(x)][1..] == row[1..];
    }
  }

  // A descriptor for d in a row with room.
  lemma DescriptorDoes(s: State, p: Pid, d: Dev, x: Dev)
    requires p < |s.rows| && Vacant(s.rows[p]) > 0
    ensures var t := Descriptor(s, p, d);
      && Named(t.rows, x) == Named(s.rows, x) + (if x == d then 1 else 0)
      && Refs(t, x) == Refs(s, x) + (if x == d then 1 else 0)
      && t.live == s.live && t.made == s.made && t.freed == s.freed && t.used == s.used && |t.rows| == |s.rows|
      && |t.rows[p]| == |s.rows[p]| && Vacant(t.rows[p]) == Vacant(s.rows[p]) - 1
      && forall q | 0 <= q < |s.rows| && q != p :: t.rows[q] == s.rows[q]
  {
    VacantUpdate(s.rows[p], d);
    SlotNamed(s, p, FirstFree(s.rows[p]), Some(d), x);
  }

  lemma PipePage(s: State, p: Pid, at: Page, page: Page)
    requires p < |s.rows| && Vacant(s.rows[p]) >= 2 && at !in s.live && PageKept(s, at) && PageKept(s, page)
    ensures PageKept(OpenPipe(s, p, at), page)
  {
    var t := TakePage(s, at);
    var u := t.(refs := t.refs[ReadEnd(at) := 0][WriteEnd(at) := 0]);
    forall d | d in [ReadEnd(page), WriteEnd(page), Console(page)]
      ensures var v := OpenPipe(s, p, at); var k := if d == ReadEnd(at) || d == WriteEnd(at) then 1 else 0;
        Named(v.rows, d) == Named(s.rows, d) + k && Refs(v, d) == Refs(u, d) + k &&
        v.live == t.live && v.made == t.made && v.freed == t.freed
    {
      DescriptorDoes(u, p, ReadEnd(at), d);
      DescriptorDoes(Descriptor(u, p, ReadEnd(at)), p, WriteEnd(at), d);
    }
    assert ReadEnd(page) in [ReadEnd(page), WriteEnd(page), Console(page)];
    assert WriteEnd(page) in [ReadEnd(page), WriteEnd(page), Console(page)];
    assert Console(page) in [ReadEnd(page), WriteEnd(page), Console(page)];
  }

  lemma ConsolePage(s: State, p: Pid, at: Page, page: Page)
    requires p < |s.rows| && Vacant(s.rows[p]) >= 1 && at !in s.live && PageKept(s, at) && PageKept(s, page)
    ensures PageKept(OpenConsole(s, p, at), page)
  {
    var t := TakePage(s, at);
    var u := t.(refs := t.refs[Console(at) := 0]);
    DescriptorDoes(u, p, Console(at), ReadEnd(page));
    DescriptorDoes(u, p, Console(at), WriteEnd(page));
    DescriptorDoes(u, p, Console(at), Console(page));
  }

  // ---------------------------------------------------------------- runs

  datatype Event =
    | EPipe(p: Pid, page: Page)
    | EConsole(p: Pid, page: Page)
    | EClose(p: Pid, i: nat)
    | ELoad(p: Pid)
    | EFork(p: Pid, q: Pid)
    | EExit(p: Pid)

  // The kernel gives out pages that are not in use and pids from the free list; pipes and
  // consoles are made with descriptors to spare; only open descriptors are closed.
  predicate Enabled(s: State, e: Event, fds: nat) {
    match e
    case EPipe(p, page) => p in s.used && p < |s.rows| && Vacant(s.rows[p]) >= 2 && page !in s.live
    case EConsole(p, page) => p in s.used && p < |s.rows| && Vacant(s.rows[p]) >= 1 && page !in s.live
    case EClose(p, i) => p in s.used && p < |s.rows| && i < |s.rows[p]| == fds && s.rows[p][i].Some?
    case ELoad(p) => p !in s.used && p < |s.rows|
    case EFork(p, q) => p in s.used && q !in s.used && p < |s.rows| && q < |s.rows| && |s.rows[p]| == |s.rows[q]|
    case EExit(p) => p in s.used && p < |s.rows|
  }

  function Step(s: State, e: Event, fds: nat): State
    requires Enabled(s, e, fds)
  {
    match e
    case EPipe(p, page) => OpenPipe(s, p, page)
    case EConsole(p, page) => OpenConsole(s, p, page)
    case EClose(p, i) => Close(s, p, i)
    case ELoad(p) => s.(used := s.used + {p})
    case EFork(p, q) => Fork(s, p, q)
    case EExit(p) => Exit(s, p)
  }

  lemma PagesStep(s: State, e: Event, fds: nat)
    requires Inv(s, fds) && Enabled(s, e, fds)
    ensures forall page: Page :: PageKept(Step(s, e, fds), page)
  {
    match e
    case EPipe(p, at) => forall page: Page ensures PageKept(OpenPipe(s, p, at), page) {
      assert PageKept(s, page) && PageKept(s, at);
      PipePage(s, p, at, page);
    }
    case EConsole(p, at) => forall page: Page ensures PageKept(OpenConsole(s, p, at), page) {
      assert PageKept(s, page) && PageKept(s, at);
      ConsolePage(s, p, at, page);
    }
    case EClose(p, i) => forall page: Page ensures PageKept(Close(s, p, i), page) {
      assert PageKept(s, page);
      ClosePage(s, p, i, page);
    }
    case ELoad(p) => forall page: Page ensures PageKept(s.(used := s.used + {p}), page) { assert PageKept(s, page); }
    case EFork(p, q) => ForkKeepsExactly(s, p, q);
    case EExit(p) =>
      ClosesAll(s, p, 0);
      var t := Closes(s, p, 0);
      forall page: Page ensures PageKept(Exit(s, p), page) { assert PageKept(t, page); }
  }

  lemma PipeRows(s: State, p: Pid, page: Page)
    requires p < |s.rows| && Vacant(s.rows[p]) >= 2
    ensures var t := OpenPipe(s, p, page);
      && |t.rows| == |s.rows| && |t.rows[p]| == |s.rows[p]| && t.used == s.used
      && forall q | 0 <= q < |s.rows| && q != p :: t.rows[q] == s.rows[q]
  {
    var t := TakePage(s, page);
    var u := t.(refs := t.refs[ReadEnd(page) := 0][WriteEnd(page) := 0]);
    DescriptorDoes(u, p, ReadEnd(page), ReadEnd(page));
    DescriptorDoes(Descriptor(u, p, ReadEnd(page)), p, WriteEnd(page), ReadEnd(page));
  }

  lemma RowsStep(s: State, e: Event, fds: nat)
    requires Inv(s, fds) && Enabled(s, e, fds)
    ensures Shape(Step(s, e, fds), fds) && Idle(Step(s, e, fds)) && |Step(s, e, fds).rows| == |s.rows|
  {
    hide OpenPipe, OpenConsole, Fork, Closes, PageKept;
    match e
    case EPipe(p, page) => PipeRows(s, p, page);
    case EConsole(p, page) => ConsoleRows(s, p, page);
    case EClose(p, i) => CloseRows(s, p, i);
    case ELoad(p) =>
    case EFork(p, q) => ForkDoes(s, p, q, Console(0));
    case EExit(p) => ClosesAll(s, p, 0);
  }

  lemma ConsoleRows(s: State, p: Pid, page: Page)
    requires p < |s.rows| && Vacant(s.rows[p]) >= 1
    ensures var t := OpenConsole(s, p, page);
      && |t.rows| == |s.rows| && |t.rows[p]| == |s.rows[p]| && t.used == s.used
      && forall q | 0 <= q < |s.rows| && q != p :: t.rows[q] == s.rows[q]
  {
    var t := TakePage(s, page);
    DescriptorDoes(t.(refs := t.refs[Console(page) := 0]), p, Console(page), Console(page));
  }

  lemma CloseRows(s: State, p: Pid, i: nat)
    requires p < |s.rows| && i < |s.rows[p]| && s.rows[p][i].Some?
    ensures var t := Close(s, p, i);
      && t.rows == s.rows[p := s.rows[p][i := None]] && t.used == s.used && s.refs.Keys <= t.refs.Keys
  {
  }

  // Every step keeps the devices in slots known.
  lemma KnownStep(s: State, e: Event, fds: nat)
    requires Inv(s, fds) && Enabled(s, e, fds)
    ensures Known(Step(s, e, fds))
  {
    hide OpenPipe, OpenConsole, Copies, Close, Closes, PageKept;
    match e
    case EPipe(p, page) => PipeKnown(s, p, page);
    case EConsole(p, page) => ConsoleKnown(s, p, page);
    case EClose(p, i) => CloseKnown(s, p, i);
    case ELoad(p) =>
    case EFork(p, q) => CopiesKnown(s, p, q, 0);
    case EExit(p) => ClosesKnown(s, p, 0);
  }

  lemma CloseKnown(s: State, p: Pid, i: nat)
    requires Known(s) && p < |s.rows| && i < |s.rows[p]| && s.rows[p][i].Some?
    ensures Known(Close(s, p, i))
  {
    CloseRows(s, p, i);
    hide Close;
    var t := Close(s, p, i);
    forall q | 0 <= q < |t.rows| ensures KnownRow(t.rows[q], t.refs) { assert KnownRow(s.rows[q], s.refs); }
  }

  lemma {:induction false} ClosesKnown(s: State, p: Pid, i: nat)
    requires Known(s) && p < |s.rows| && i <= |s.rows[p]|
    ensures Known(Closes(s, p, i))
    decreases |s.rows[p]| - i
  {
    hide Close, Known;
    if i < |s.rows[p]| && s.rows[p][i].Some? {
      CloseRows(s, p, i);
      CloseKnown(s, p, i);
      ClosesKnown(Close(s, p, i), p, i + 1);
    } else if i < |s.rows[p]| {
      ClosesKnown(s, p, i + 1);
    }
  }

  lemma {:induction false} CopiesKnown(s: State, p: Pid, q: Pid, i: nat)
    requires Known(s) && p < |s.rows| && q < |s.rows| && p != q && i <= |s.rows[p]| == |s.rows[q]|
    ensures Known(Copies(s, p, q, i))
    decreases |s.rows[p]| - i
  {
    if i < |s.rows[p]| {
      var t := CopySlot(s, p, q, i);
      assert KnownRow(s.rows[p], s.refs) && KnownRow(s.rows[q], s.refs);
      forall r | 0 <= r < |t.rows| ensures KnownRow(t.rows[r], t.refs) { assert KnownRow(s.rows[r], s.refs); }
      CopiesKnown(t, p, q, i + 1);
    }
  }

  lemma DescriptorKnown(s: State, p: Pid, d: Dev)
    requires Known(s) && p < |s.rows| && d in s.refs && Other(d) in s.refs
    ensures Known(Descriptor(s, p, d)) && s.refs.Keys <= Descriptor(s, p, d).refs.Keys && |Descriptor(s, p, d).rows| == |s.rows|
  {
    var t := Descriptor(s, p, d);
    forall r | 0 <= r < |t.rows| ensures KnownRow(t.rows[r], t.refs) { assert KnownRow(s.rows[r], s.refs); }
  }

  lemma PipeKnown(s: State, p: Pid, page: Page)
    requires Known(s) && p < |s.rows|
    ensures Known(OpenPipe(s, p, page))
  {
    var t := TakePage(s, page);
    var u := t.(refs := t.refs[ReadEnd(page) := 0][WriteEnd(page) := 0]);
    forall r | 0 <= r < |u.rows| ensures KnownRow(u.rows[r], u.refs) { assert KnownRow(s.rows[r], s.refs); }
    hide Descriptor;
    DescriptorKnown(u, p, ReadEnd(page));
    DescriptorKnown(Descriptor(u, p, ReadEnd(page)), p, WriteEnd(page));
  }

  lemma ConsoleKnown(s: State, p: Pid, page: Page)
    requires Known(s) && p < |s.rows|
    ensures Known(OpenConsole(s, p, page))
  {
    var t := TakePage(s, page);
    var u := t.(refs := t.refs[Console(page) := 0]);
    forall r | 0 <= r < |u.rows| ensures KnownRow(u.rows[r], u.refs) { assert KnownRow(s.rows[r], s.refs); }
    DescriptorKnown(u, p, Console(page));
  }

  // Every enabled event keeps the invariant.
  lemma StepInv(s: State, e: Event, fds: nat)
    requires Inv(s, fds) && Enabled(s, e, fds)
    ensures Inv(Step(s, e, fds), fds)
  {
    PagesStep(s, e, fds);
    RowsStep(s, e, fds);
    KnownStep(s, e, fds);
  }

  ghost predicate Runs(s: State, es: seq<Event>, fds: nat)
    decreases |es|
  {
    es == [] || (Enabled(s, es[0], fds) && Runs(Step(s, es[0], fds), es[1..], fds))
  }

  function Run(s: State, es: seq<Event>, fds: nat): State
    requires Runs(s, es, fds)
    decreases |es|
  {
    if es == [] then s else Run(Step(s, es[0], fds), es[1..], fds)
  }

  lemma {:induction false} RunKeeps(s: State, es: seq<Event>, fds: nat)
    requires Inv(s, fds) && Runs(s, es, fds)
    ensures Inv(Run(s, es, fds), fds)
    decreases |es|
  {
    if es != [] {
      StepInv(s, es[0], fds);
      hide Inv, Step, Enabled;
      RunKeeps(Step(s, es[0], fds), es[1..], fds);
    }
  }

  // device_init.
  function Boot(n: nat, fds: nat): State {
    State(seq(n, _ => seq(fds, _ => None)), map[], {}, {}, multiset{}, multiset{})
  }

  lemma {:induction false} NothingNamed(rows: seq<seq<Slot>>, d: Dev)
    requires forall p | 0 <= p < |rows| :: Empty(rows[p])
    ensures Named(rows, d) == 0
  {
    if rows != [] {
      EmptyNames(rows[0], d);
      NothingNamed(rows[1..], d);
    }
  }

  lemma BootInv(n: nat, fds: nat)
    ensures Inv(Boot(n, fds), fds)
  {
    var b := Boot(n, fds);
    forall g: Page ensures PageKept(b, g) {
      NothingNamed(b.rows, ReadEnd(g));
      NothingNamed(b.rows, WriteEnd(g));
      NothingNamed(b.rows, Console(g));
    }
  }

  // In every run of loads, forks, exits, closes and successful openings: the refcount of
  // each end of an open pipe, and of each open console, is the number of descriptor slots
  // that name it over all pids; its page is held exactly while some slot names it and was
  // given back as often as it was taken, once less while held; free pids have empty rows.
  lemma CountsAreSlots(n: nat, fds: nat, es: seq<Event>, page: Page)
    requires Runs(Boot(n, fds), es, fds)
    ensures var s := Run(Boot(n, fds), es, fds);
      && (page in s.live <==> exists d: Dev :: d.page == page && Named(s.rows, d) > 0)
      && (page in s.live && Named(s.rows, Console(page)) == 0 ==>
            Refs(s, ReadEnd(page)) == Named(s.rows, ReadEnd(page)) && Refs(s, WriteEnd(page)) == Named(s.rows, WriteEnd(page)))
      && (Named(s.rows, Console(page)) > 0 ==> Refs(s, Console(page)) == Named(s.rows, Console(page)))
      && s.made[page] == s.freed[page] + (if page in s.live then 1 else 0)
      && (forall p: Pid | p < |s.rows| && p !in s.used :: Empty(s.rows[p]))
  {
    var b := Boot(n, fds);
    BootInv(n, fds);
    RunKeeps(b, es, fds);
    var s := Run(b, es, fds);
    assert PageKept(s, page);
    if page in s.live {
      assert ReadEnd(page).page == page && WriteEnd(page).page == page && Console(page).page == page;
    }
    forall d: Dev | d.page == page && Named(s.rows, d) > 0 ensures page in s.live {
      assert d == ReadEnd(page) || d == WriteEnd(page) || d == Console(page);
    }
  }
}
