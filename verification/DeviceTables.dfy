// device.c, pipe_open, pipe_flush and con_flush over the descriptor table and the refcount
// fields. Every method is the operation of module Devices of the same meaning.
module DeviceTables {
  import opened Semaphores
  import opened Devices

  const ENOSYS := 1

  class DeviceTable {
    // char_devices, one row a pid, and the refcount field of every device
    var rows: seq<seq<Slot>>
    var refs: map<Dev, int>
    var curPid: Pid
    // the pids in use and the kernel pages taken and given back
    ghost var used: set<Pid>
    ghost var live: set<Page>
    ghost var made: multiset<Page>
    ghost var freed: multiset<Page>

    ghost function Abs(): State
      reads this
    {
      State(rows, refs, used, live, made, freed)
    }

    // device_init.
    constructor (n: nat, fds: nat)
      ensures Abs() == Boot(n, fds) && Inv(Abs(), fds)
    {
      rows, refs, curPid := seq(n, _ => seq(fds, _ => None)), map[], 0;
      used, live, made, freed := {}, {}, multiset{}, multiset{};
      new;
      BootInv(n, fds);
    }

    // ------------------------------------------------------------ runs

    // The event is carried out by the process it belongs to.
    method Do(e: Event, ghost fds: nat)
      requires Inv(Abs(), fds) && Enabled(Abs(), e, fds)
      modifies this
      ensures Abs() == Step(old(Abs()), e, fds) && Inv(Abs(), fds)
    {
      StepInv(Abs(), e, fds);
      curPid := e.p;
      assert KnownRow(rows[curPid], refs);
      match e
      case EPipe(_, page) => var readFd, writeFd := SysPipe(page);
      case EConsole(_, page) => var fd := SysOpenConsole(page);
      case EClose(_, i) => SysClose(i);
      case ELoad(p) => used := used + {p};
      case EFork(p, q) =>
        ForkDescriptors(p, q);
        used := used + {q};
      case EExit(p) =>
        ReleaseDevices();
        used := used - {p};
    }

    // Any run on the table is the run of the specification, so after it the refcounts are
    // the slots that name the devices.
    method DoAll(es: seq<Event>, ghost fds: nat)
      requires Inv(Abs(), fds) && Runs(Abs(), es, fds)
      modifies this
      ensures Abs() == Run(old(Abs()), es, fds) && Inv(Abs(), fds)
    {
      ghost var s := Abs();
      assert es[0..] == es;
      for k := 0 to |es|
        invariant Inv(Abs(), fds) && Runs(Abs(), es[k..], fds) && Run(Abs(), es[k..], fds) == Run(s, es, fds)
      {
        assert es[k..][0] == es[k] && es[k..][1..] == es[k + 1..];
        Do(es[k], fds);
      }
    }

    // ------------------------------------------------------------ operations

    // get_next_free_fd_for_current_task.
    method NextFree() returns (fd: int)
      requires curPid < |rows|
      ensures fd == if FirstFree(rows[curPid]) == |rows[curPid]| then -1 else FirstFree(rows[curPid])
    {
      var row := rows[curPid];
      for i := 0 to |row|
        invariant forall j | 0 <= j < i :: row[j].Some?
      {
        if row[i].None? {
          FirstIs(row, i);
          return i;
        }
      }
      FirstIs(row, |row|);
      return -1;
    }

    method Descriptor(d: Dev) returns (fd: int)
      requires curPid < |rows| && d in refs
      modifies `rows, `refs
      ensures Abs() == Devices.Descriptor(old(Abs()), curPid, d)
      ensures var i := FirstFree(old(rows)[curPid]); fd == if i == |old(rows)[curPid]| then -ENOSYS else i
      ensures rows == if fd < 0 then old(rows) else old(rows)[curPid := old(rows)[curPid][fd := Some(d)]]
    {
      fd := NextFree();
      if fd == -1 { return -ENOSYS; }
      rows := rows[curPid := rows[curPid][fd := Some(d)]];
      refs := refs[d := refs[d] + 1];
    }

    // mm_mem_free of the page of a device.
    ghost method GiveBack(page: Page)
      modifies `live, `freed
      ensures Abs() == GivePage(old(Abs()), page)
    {
      live := live - {page};
      freed := freed + multiset{page};
    }

    // pipe_flush.
    method PipeFlush(d: Dev)
      requires !d.Console? && d in refs && Other(d) in refs
      modifies `refs, `live, `freed
      ensures Abs() == Flush(old(Abs()), d)
    {
      refs := refs[d := refs[d] - 1];
      if refs[d] == 0 && refs[Other(d)] == 0 { GiveBack(d.page); }
    }

    // con_flush.
    method ConFlush(d: Dev)
      requires d.Console? && d in refs
      modifies `refs, `live, `freed
      ensures Abs() == Flush(old(Abs()), d)
    {
      if refs[d] > 1 {
        refs := refs[d := refs[d] - 1];
        return;
      }
      GiveBack(d.page);
    }

    method SysClose(fd: nat)
      requires curPid < |rows| && fd < |rows[curPid]| && rows[curPid][fd].Some? && KnownRow(rows[curPid], refs)
      modifies `rows, `refs, `live, `freed
      ensures Abs() == Close(old(Abs()), curPid, fd) && KnownRow(rows[curPid], refs)
      ensures rows == old(rows)[curPid := old(rows)[curPid][fd := None]]
    {
      var d := rows[curPid][fd].value;
      rows := rows[curPid := rows[curPid][fd := None]];
      if d.Console? { ConFlush(d); } else { PipeFlush(d); }
    }

    // The body of the loop of device_fork_descriptors.
    method CopyOne(pid1: Pid, pid2: Pid, i: nat)
      requires pid1 < |rows| && pid2 < |rows| && pid1 != pid2 && i < |rows[pid1]| == |rows[pid2]| && KnownRow(rows[pid1], refs)
      modifies `rows, `refs
      ensures Abs() == CopySlot(old(Abs()), pid1, pid2, i) && KnownRow(rows[pid1], refs)
    {
      rows := rows[pid2 := rows[pid2][i := rows[pid1][i]]];
      match rows[pid2][i] {
        case Some(d) => refs := refs[d := refs[d] + 1];
        case None =>
      }
    }

    method ForkDescriptors(pid1: Pid, pid2: Pid)
      requires pid1 < |rows| && pid2 < |rows| && pid1 != pid2 && |rows[pid1]| == |rows[pid2]| && KnownRow(rows[pid1], refs)
      modifies `rows, `refs
      ensures Abs() == Copies(old(Abs()), pid1, pid2, 0)
      ensures rows == old(rows)[pid2 := old(rows)[pid1]]
    {
      CopiesDo(Abs(), pid1, pid2, 0, Console(0));
      assert rows[pid2][..0] + rows[pid1][0..] == rows[pid1];
      var n := |rows[pid1]|;
      for i := 0 to n
        invariant |rows| == |old(rows)| && |rows[pid1]| == n == |rows[pid2]| && KnownRow(rows[pid1], refs)
        invariant Copies(Abs(), pid1, pid2, i) == Copies(old(Abs()), pid1, pid2, 0)
      {
        CopyOne(pid1, pid2, i);
      }
    }

    method ReleaseDevices()
      requires curPid < |rows| && KnownRow(rows[curPid], refs)
      modifies `rows, `refs, `live, `freed
      ensures Abs() == Closes(old(Abs()), curPid, 0)
      ensures |rows| == |old(rows)| && Empty(rows[curPid])
      ensures forall p | 0 <= p < |rows| && p != curPid :: rows[p] == old(rows)[p]
    {
      hide Devices.Close, Known;
      var n := |rows[curPid]|;
      for i := 0 to n
        invariant curPid < |rows| && |rows[curPid]| == n && KnownRow(rows[curPid], refs)
        invariant Closes(Abs(), curPid, i) == Closes(old(Abs()), curPid, 0)
        invariant |rows| == |old(rows)| && forall j | 0 <= j < i :: rows[curPid][j].None?
        invariant forall p | 0 <= p < |rows| && p != curPid :: rows[p] == old(rows)[p]
      {
        if rows[curPid][i].Some? { SysClose(i); }
      }
    }

    // sys_pipe with a kernel page and two descriptors to be had.
    method SysPipe(page: Page) returns (readFd: int, writeFd: int)
      requires curPid < |rows| && Vacant(rows[curPid]) >= 2
      modifies `rows, `refs, `live, `made
      ensures Abs() == OpenPipe(old(Abs()), curPid, page)
      ensures var row := old(rows)[curPid];
        && 0 <= readFd < writeFd < |row| && (forall j | 0 <= j < writeFd :: row[j].None? <==> j == readFd) && row[writeFd].None?
        && rows == old(rows)[curPid := row[readFd := Some(ReadEnd(page))][writeFd := Some(WriteEnd(page))]]
    {
      VacantUpdate(rows[curPid], ReadEnd(page));
      TwoFree(rows[curPid], ReadEnd(page));
      live, made := live + {page}, made + multiset{page};
      refs := refs[ReadEnd(page) := 0][WriteEnd(page) := 0];
      DescriptorDoes(Abs(), curPid, ReadEnd(page), ReadEnd(page));
      readFd := Descriptor(ReadEnd(page));
      VacantUpdate(rows[curPid], WriteEnd(page));
      writeFd := Descriptor(WriteEnd(page));
    }

    // con_open with a kernel page and a descriptor to be had, and the descriptor of sys_open.
    method SysOpenConsole(page: Page) returns (fd: int)
      requires curPid < |rows| && Vacant(rows[curPid]) >= 1
      modifies `rows, `refs, `live, `made
      ensures Abs() == OpenConsole(old(Abs()), curPid, page)
      ensures var row := old(rows)[curPid];
        && 0 <= fd < |row| && row[fd].None? && (forall j | 0 <= j < fd :: row[j].Some?)
        && rows == old(rows)[curPid := row[fd := Some(Console(page))]]
    {
      live, made := live + {page}, made + multiset{page};
      refs := refs[Console(page) := 0];
      VacantUpdate(rows[curPid], Console(page));
      fd := Descriptor(Console(page));
    }
  }

  lemma {:induction false} FirstIs(row: seq<Slot>, i: nat)
    requires i <= |row| && (forall j | 0 <= j < i :: row[j].Some?) && (i < |row| ==> row[i].None?)
    ensures FirstFree(row) == i
  {
    if i > 0 { FirstIs(row[1..], i - 1); }
  }

  // The two lowest empty slots.
  lemma TwoFree(row: seq<Slot>, d: Dev)
    requires FirstFree(row) < |row|
    ensures var i, j := FirstFree(row), FirstFree(row[FirstFree(row) := Some(d)]);
      i < j && (forall k | 0 <= k < j :: row[k].None? <==> k == i) && (j < |row| ==> row[j].None?)
  {
    var i := FirstFree(row);
    var next := row[i := Some(d)];
    var j := FirstFree(next);
    assert forall k | 0 <= k <= i :: next[k].Some?;
    assert j > i;
    forall k | 0 <= k < j ensures row[k].None? <==> k == i {
      assert next[k].Some?;
    }
  }
}
