// Copy-on-write refines eager copying: the paging machine and a machine without
// sharing, whose fork copies every private page at once, are indistinguishable to the
// user processes.
module CowRefinement {
  import opened PageEntries
  import opened VirtualMemory
  import opened VmInvariant

  // ---------------------------------------------------------------- the reference machine

  // What a process sees at a page: nothing, a page of its own, or a shared memory cell.
  datatype Slot = Nothing | Private(page: Page) | Link(cell: nat)

  datatype Eager = Eager(spaces: map<Pid, seq<Slot>>, cells: map<nat, Page>)

  datatype Action =
    | Copy(p: Pid, c: Pid)
    | Load(c: Pid, v: nat, code: Page, stack: Page)
    | Get(p: Pid, v: nat, off: nat)
    | Put(p: Pid, v: nat, off: nat, b: bv8)
    | Give(p: Pid, v: nat, page: Page)
    | Publish(p: Pid, v: nat, cell: nat)
    | Drop(p: Pid)

  predicate Formed(m: Eager) { forall p <- m.spaces :: |m.spaces[p]| == NPAGES }

  function Blank(): Page { seq(PAGE_SIZE, i => 0) }

  function Contents(m: Eager, p: Pid, v: nat): Page
    requires Formed(m) && p in m.spaces && v < NPAGES
  {
    match m.spaces[p][v]
    case Private(page) => page
    case Link(c) => if c in m.cells then m.cells[c] else Blank()
    case Nothing => Blank()
  }

  function SetSlot(m: Eager, p: Pid, v: nat, slot: Slot): Eager
    requires Formed(m) && p in m.spaces && v < NPAGES
  {
    m.(spaces := m.spaces[p := m.spaces[p][v := slot]])
  }

  // The child of a fork: a copy of every private page, a link to every shared cell, and
  // a private copy of the stack.
  function ChildOf(m: Eager, p: Pid): seq<Slot>
    requires Formed(m) && p in m.spaces
  {
    m.spaces[p][STACK_3 := Private(Contents(m, p, STACK_3))]
  }

  function Do(m: Eager, a: Action): (r: Eager)
    requires Formed(m)
    ensures Formed(r)
  {
    match a
    case Copy(p, c) => if p in m.spaces then m.(spaces := m.spaces[c := ChildOf(m, p)]) else m
    case Load(c, v, code, stack) =>
      if v < NPAGES then
        m.(spaces := m.spaces[c := seq(NPAGES, i => Nothing)[STACK_3 := Private(stack)][v := Private(code)]])
      else m
    case Get(_, _, _) => m
    case Put(p, v, off, b) =>
      if p in m.spaces && v < NPAGES && off < PAGE_SIZE then
        match m.spaces[p][v]
        case Private(page) => SetSlot(m, p, v, Private(page[off := b]))
        case Link(c) => if c in m.cells then m.(cells := m.cells[c := m.cells[c][off := b]]) else m
        case Nothing => m
      else m
    case Give(p, v, page) => if p in m.spaces && v < NPAGES then SetSlot(m, p, v, Private(page)) else m
    case Publish(p, v, cell) =>
      if p in m.spaces && v < NPAGES then
        SetSlot(m, p, v, Link(cell)).(cells := m.cells[cell := Contents(m, p, v)])
      else m
    case Drop(p) => m.(spaces := m.spaces - {p})
  }

  // What a user observes: the bytes its reads return.
  datatype Seen = Byte(b: bv8) | Refused

  function Look(m: Eager, p: Pid, v: nat, off: nat): Seen
    requires Formed(m)
  {
    if p in m.spaces && v < NPAGES && off < PAGE_SIZE && m.spaces[p][v] != Nothing
    then Byte(Contents(m, p, v)[off]) else Refused
  }

  function DoAll(m: Eager, acts: seq<Action>): (r: Eager)
    requires Formed(m)
    ensures Formed(r)
    decreases |acts|
  {
    if acts == [] then m else DoAll(Do(m, acts[0]), acts[1..])
  }

  function Seens(m: Eager, acts: seq<Action>): seq<Seen>
    requires Formed(m)
    decreases |acts|
  {
    if acts == [] then []
    else (match acts[0]
          case Get(p, v, off) => [Look(m, p, v, off)]
          case _ => []) + Seens(Do(m, acts[0]), acts[1..])
  }

  // ---------------------------------------------------------------- the correspondence

  // What the tables show at an entry is what the reference machine holds in the slot.
  predicate Shows(ram: seq<Page>, cells: map<nat, Page>, e: Entry, slot: Slot) {
    if !e.p || !e.us then slot == Nothing
    else e.base < |ram| && (if e.sh then slot == Link(e.base) && e.base in cells && cells[e.base] == ram[e.base]
                            else slot == Private(ram[e.base]))
  }

  ghost predicate Refines(s: Vm, m: Eager)
    requires Shape(s)
  {
    && m.spaces.Keys == s.sp.Keys && Formed(m)
    && forall p: Pid, v: nat {:trigger s.sp[p].pte[v]} {:trigger m.spaces[p][v]} :: p in s.sp && v < NPAGES ==>
         Shows(s.ram, m.cells, s.sp[p].pte[v], m.spaces[p][v])
  }

  // The reference actions of an access that finds page v granted: a page is given, holding
  // whatever the frame held.
  ghost function GiveIfAsked(s: Vm, p: Pid, v: nat, f: Frame): seq<Action>
    requires Shape(s) && p in s.sp && v < NPAGES && f < |s.ram|
  {
    if Due(s, p, v) then [Give(p, v, s.ram[f])] else []
  }

  ghost function Label(s: Vm, e: Event): seq<Action>
    requires Inv(s) && Enabled(s, e)
  {
    match e
    case Fork(p, c, _, _, _) => [Copy(p, c)]
    case Spawn(p, c, v, _, f3, _, code, _) => [Load(c, v, code, s.ram[f3])]
    case Read(p, v, off, f) => GiveIfAsked(s, p, v, f) + [Get(p, v, off)]
    case Write(p, v, off, b, f, _) => GiveIfAsked(s, p, v, f) + [Put(p, v, off, b)]
    case Palloc(p) => []
    case Share(p, v) => if s.sp[p].pte[v].p then [Publish(p, v, s.sp[p].pte[v].base)] else []
    case Exit(p) => [Drop(p)]
  }

  // What the hardware returns for a user read.
  ghost function Fetch(s: Vm, p: Pid, v: nat, off: nat): Seen
    requires Shape(s) && p in s.sp && v < NPAGES && off < PAGE_SIZE
  {
    var e := s.sp[p].pte[v];
    if Permits(e, false) && e.base < |s.ram| then Byte(s.ram[e.base][off]) else Refused
  }

  // What a read returns on the paging machine, after the fault it may cause.
  ghost function Observed(s: Vm, e: Event): seq<Seen>
    requires Inv(s) && Enabled(s, e)
  {
    if e.Read? then
      BackedAt(s, e.p, e.v);
      TouchBase(s, e.p, e.v, e.f, NoPage(), false);
      [Fetch(Step(s, e), e.p, e.v, e.off)]
    else []
  }

  // ---------------------------------------------------------------- one step

  // A frame holding `page` put at page v of p, where s maps nothing to that frame.
  lemma ReplacedRefines(s: Vm, t: Vm, m: Eager, p: Pid, v: nat, f: Frame, page: Page)
    requires Shape(s) && CleanEntries(s) && Refines(s, m) && Shape(t) && UserPage(v) && v != STACK_0
    requires Replaced(s, t, p, v, f) && f < |s.ram| && t.ram == s.ram[f := page]
    requires forall q, w :: !Maps(s, q, w, f)
    ensures Refines(t, SetSlot(m, p, v, Private(page)))
  {
    var n := SetSlot(m, p, v, Private(page));
    forall q: Pid, w: nat | q in t.sp && w < NPAGES
      ensures Shows(t.ram, n.cells, t.sp[q].pte[w], n.spaces[q][w])
    {
      if q != p || w != v {
        assert Shows(s.ram, m.cells, s.sp[q].pte[w], m.spaces[q][w]);
        assert !Maps(s, q, w, f);
        assert t.sp[q].pte[w] == s.sp[q].pte[w] || (!s.sp[q].pte[w].p && !t.sp[q].pte[w].p);
      }
    }
  }

  // Entries that differ only in rw and cow, or that are absent on both sides, show the same.
  predicate SameView(e: Entry, d: Entry) {
    e.p == d.p && (e.p ==> e.us == d.us && e.sh == d.sh && e.base == d.base)
  }

  lemma SameViewRefines(s: Vm, t: Vm, m: Eager)
    requires Shape(s) && Refines(s, m) && Shape(t) && t.sp.Keys == s.sp.Keys && t.ram == s.ram
    requires forall q: Pid, w: nat :: q in s.sp && w < NPAGES ==> SameView(s.sp[q].pte[w], t.sp[q].pte[w])
    ensures Refines(t, m)
  {
    forall q: Pid, w: nat | q in t.sp && w < NPAGES
      ensures Shows(t.ram, m.cells, t.sp[q].pte[w], m.spaces[q][w])
    {
      assert Shows(s.ram, m.cells, s.sp[q].pte[w], m.spaces[q][w]);
    }
  }

  lemma SetSlotSame(m: Eager, p: Pid, v: nat)
    requires Formed(m) && p in m.spaces && v < NPAGES
    ensures SetSlot(m, p, v, m.spaces[p][v]) == m
  {
    assert m.spaces[p][v := m.spaces[p][v]] == m.spaces[p];
    assert m.spaces[p := m.spaces[p]] == m.spaces;
  }

  // A copy-on-write fault is invisible: to the only mapper of the frame, and to the others.
  lemma OwnRefines(s: Vm, m: Eager, p: Pid, v: nat)
    requires Shape(s) && Refines(s, m) && p in s.sp && v < NPAGES
    ensures Shape(Own(s, p, v)) && Refines(Own(s, p, v), m)
  {
    SameViewRefines(s, Own(s, p, v), m);
  }

  lemma CopyToRefines(s: Vm, m: Eager, p: Pid, v: nat, f: Frame, k: Page)
    requires Inv(s) && Refines(s, m) && p in s.sp && UserPage(v) && s.sp[p].pte[v].p && s.sp[p].pte[v].cow && Free(s, f)
    requires s.sp[p].pte[v].base < |s.ram| && |Counted(s, s.sp[p].pte[v].base, v)| != 1 && !s.sp[p].pte[TEMP].p
    ensures Refines(CopyTo(s, p, v, f, k), m)
  {
    assert CleanEntry(v, s.sp[p].pte[v]);
    CopyShape(s, p, v, f, k);
    assert Maps(s, p, v, s.sp[p].pte[v].base);
    var q := CountedMore(s, p, v, s.sp[p].pte[v].base);
    FreeUnmapped(s, f);
    CopiedRefines(s, CopyTo(s, p, v, f, k), m, p, v, f);
  }

  lemma CopiedRefines(s: Vm, t: Vm, m: Eager, p: Pid, v: nat, f: Frame)
    requires Shape(s) && CleanEntries(s) && Refines(s, m) && Shape(t) && UserPage(v) && Replaced(s, t, p, v, f)
    requires s.sp[p].pte[v].p && s.sp[p].pte[v].us && s.sp[p].pte[v].cow && s.sp[p].pte[v].base < |s.ram|
    requires f < |s.ram| && t.ram == s.ram[f := s.ram[s.sp[p].pte[v].base]]
    requires forall q, w :: !Maps(s, q, w, f)
    ensures Refines(t, m)
  {
    assert Shows(s.ram, m.cells, s.sp[p].pte[v], m.spaces[p][v]);
    ReplacedRefines(s, t, m, p, v, f, s.ram[s.sp[p].pte[v].base]);
    SetSlotSame(m, p, v);
  }

  lemma GrantRefines(s: Vm, m: Eager, p: Pid, v: nat, f: Frame)
    requires Shape(s) && CleanEntries(s) && Exact(s) && Refines(s, m) && p in s.sp && UserPage(v) && v != STACK_0
    requires Free(s, f)
    ensures Refines(Grant(s, p, v, f), Do(m, Give(p, v, s.ram[f])))
  {
    GrantShape(s, p, v, f);
    FreeUnmapped(s, f);
    ReplacedRefines(s, Grant(s, p, v, f), m, p, v, f, s.ram[f]);
  }

  // What the processes see does not depend on physical page 0.
  lemma SameTablesRefines(s: Vm, t: Vm, m: Eager)
    requires Shape(s) && Refines(s, m) && Shape(t) && SameTables(s, t)
    ensures Refines(t, m)
  {
    forall q: Pid, w: nat | q in t.sp && w < NPAGES
      ensures Shows(t.ram, m.cells, t.sp[q].pte[w], m.spaces[q][w])
    {
      assert Shows(s.ram, m.cells, s.sp[q].pte[w], m.spaces[q][w]);
    }
  }

  // The fault, if any, of an access to page v: a page given, or nothing to be seen.
  lemma TouchRefines(s: Vm, m: Eager, p: Pid, v: nat, f: Frame, k: Page, write: bool)
    requires Inv(s) && Refines(s, m) && CanTouch(s, p, v, f, write) && SafeTouch(s, p, v, write)
    requires Backed(s, p, v, Protection(s, p, v, write))
    ensures Refines(Touch(s, p, v, f, k, write), DoAll(m, GiveIfAsked(s, p, v, f)))
  {
    var e, t := s.sp[p].pte[v], Touch(s, p, v, f, k, write);
    if v < USR_FIRST {
      LowTouchIs(s, p, v, f, k, write);
      SameTablesRefines(s, t, m);
    } else {
      TouchIs(s, p, v, f, k, write);
      hide Touch;
      if GiveIfAsked(s, p, v, f) != [] {
        GrantedRefines(s, m, p, v, f);
        SameTablesRefines(Grant(s, p, v, f), t, Do(m, Give(p, v, s.ram[f])));
        DoOne(m, Give(p, v, s.ram[f]));
      } else if Stray(s, p, v) || !e.cow || !write {
        SameTablesRefines(s, t, m);
      } else if TakesFrame(s, p, v, write) {
        CopyToRefines(s, m, p, v, f, k);
      } else {
        OwnRefines(s, m, p, v);
      }
    }
  }

  // A page to be granted is not present.
  lemma GrantedRefines(s: Vm, m: Eager, p: Pid, v: nat, f: Frame)
    requires Inv(s) && Refines(s, m) && p in s.sp && p != 0 && UserPage(v) && Due(s, p, v) && Free(s, f)
    ensures Refines(Grant(s, p, v, f), Do(m, Give(p, v, s.ram[f])))
  {
    assert CleanEntry(v, s.sp[p].pte[v]) && s.sp[p].pte[STACK_0].p;
    assert s.sp[p].pde[STACK_0 / 1024] == Table;
    GrantRefines(s, m, p, v, f);
  }

  lemma DoOne(m: Eager, a: Action)
    requires Formed(m)
    ensures DoAll(m, [a]) == Do(m, a)
  {
    assert [a][1..] == [];
  }

  // The slot of another process, or of another page, after a store through (p, v).
  lemma StoreShows(s: Vm, m: Eager, p: Pid, v: nat, page: Page, q: Pid, w: nat)
    requires Shape(s) && OneHome(s) && Agree(s) && Refines(s, m) && p in s.sp && v < NPAGES && q in s.sp && w < NPAGES
    requires var e := s.sp[p].pte[v]; e.p && e.us && e.rw && e.base < |s.ram| && (e.cow ==> !e.rw) && (q != p || w != v)
    ensures var e, d := s.sp[p].pte[v], s.sp[q].pte[w];
      Shows(s.ram[e.base := page], if e.sh then m.cells[e.base := page] else m.cells, d, m.spaces[q][w])
  {
    var e, d := s.sp[p].pte[v], s.sp[q].pte[w];
    assert Shows(s.ram, m.cells, d, m.spaces[q][w]);
    assert Maps(s, p, v, e.base);
    if d.p && d.base == e.base {
      assert Maps(s, q, w, e.base);
      assert Compatible(e, d);
    }
  }

  lemma PutSlots(m: Eager, p: Pid, v: nat, off: nat, b: bv8)
    requires Formed(m) && p in m.spaces && v < NPAGES && off < PAGE_SIZE && m.spaces[p][v] != Nothing
    requires m.spaces[p][v].Link? ==> m.spaces[p][v].cell in m.cells
    ensures var n, page := Do(m, Put(p, v, off, b)), Contents(m, p, v)[off := b];
      && n.spaces.Keys == m.spaces.Keys
      && n.cells == (if m.spaces[p][v].Link? then m.cells[m.spaces[p][v].cell := page] else m.cells)
      && forall q: Pid, w: nat :: q in m.spaces && w < NPAGES ==>
           n.spaces[q][w] == if q == p && w == v && m.spaces[p][v].Private? then Private(page) else m.spaces[q][w]
  {}

  lemma StoreRefines(s: Vm, m: Eager, p: Pid, v: nat, off: nat, b: bv8)
    requires Inv(s) && Refines(s, m) && p in s.sp && v < NPAGES && off < PAGE_SIZE
    requires s.sp[p].pte[v].p ==> s.sp[p].pte[v].base < |s.ram|
    requires s.sp[p].pte[v].p && s.sp[p].pte[v].us ==> s.sp[p].pte[v].rw
    ensures Refines(Store(s, p, v, off, b), Do(m, Put(p, v, off, b)))
  {
    var e, t, n := s.sp[p].pte[v], Store(s, p, v, off, b), Do(m, Put(p, v, off, b));
    assert Shows(s.ram, m.cells, e, m.spaces[p][v]);
    if Permits(e, true) {
      PutSlots(m, p, v, off, b);
      forall q: Pid, w: nat | q in t.sp && w < NPAGES
        ensures Shows(t.ram, n.cells, t.sp[q].pte[w], n.spaces[q][w])
      {
        if q != p || w != v { StoreShows(s, m, p, v, s.ram[e.base][off := b], q, w); }
      }
    }
  }

  // Frames that the page to be shared already links to, or nobody else maps.
  lemma ShareShows(s: Vm, m: Eager, p: Pid, v: nat, q: Pid, w: nat)
    requires Inv(s) && Refines(s, m) && p in s.sp && v < NPAGES && s.sp[p].pte[v].p && s.sp[p].pte[v].us && !s.sp[p].pte[v].cow
    requires q in s.sp && w < NPAGES && (q != p || w != v)
    ensures s.sp[p].pte[v].base < |s.ram| && Contents(m, p, v) == s.ram[s.sp[p].pte[v].base]
    ensures Shows(s.ram, m.cells[s.sp[p].pte[v].base := Contents(m, p, v)], s.sp[q].pte[w], m.spaces[q][w])
  {
    var e, d := s.sp[p].pte[v], s.sp[q].pte[w];
    assert Shows(s.ram, m.cells, e, m.spaces[p][v]);
    assert Shows(s.ram, m.cells, d, m.spaces[q][w]);
    assert Maps(s, p, v, e.base);
    if d.p && d.base == e.base {
      assert Maps(s, q, w, e.base);
      assert w == v;
      assert Compatible(e, d);
    }
  }

  lemma PublishSlots(m: Eager, p: Pid, v: nat, cell: nat)
    requires Formed(m) && p in m.spaces && v < NPAGES
    ensures var n := Do(m, Publish(p, v, cell));
      && n.spaces.Keys == m.spaces.Keys && n.cells == m.cells[cell := Contents(m, p, v)]
      && forall q: Pid, w: nat :: q in m.spaces && w < NPAGES ==>
           n.spaces[q][w] == if q == p && w == v then Link(cell) else m.spaces[q][w]
  {}

  lemma PageShown(s: Vm, m: Eager, p: Pid, v: nat)
    requires Shape(s) && Refines(s, m) && p in s.sp && v < NPAGES && s.sp[p].pte[v].p && s.sp[p].pte[v].us
    ensures s.sp[p].pte[v].base < |s.ram| && Contents(m, p, v) == s.ram[s.sp[p].pte[v].base]
  {
    assert Shows(s.ram, m.cells, s.sp[p].pte[v], m.spaces[p][v]);
  }

  // The entry of p at v, now shared, against the published cell.
  lemma PublishedRefines(s: Vm, t: Vm, m: Eager, p: Pid, v: nat)
    requires Inv(s) && Refines(s, m) && p in s.sp && v < NPAGES && s.sp[p].pte[v].p && s.sp[p].pte[v].us && !s.sp[p].pte[v].cow
    requires Shape(t) && t.sp.Keys == s.sp.Keys && t.ram == s.ram
    requires forall q: Pid, w: nat :: q in s.sp && w < NPAGES ==>
      t.sp[q].pte[w] == if q == p && w == v then s.sp[p].pte[v].(sh := true) else s.sp[q].pte[w]
    ensures Refines(t, Do(m, Publish(p, v, s.sp[p].pte[v].base)))
  {
    assert Shape(s);
    hide Inv, Do;
    var n, e := Do(m, Publish(p, v, s.sp[p].pte[v].base)), s.sp[p].pte[v];
    PublishSlots(m, p, v, e.base);
    PageShown(s, m, p, v);
    hide Contents;
    forall q: Pid, w: nat | q in t.sp && w < NPAGES
      ensures Shows(t.ram, n.cells, t.sp[q].pte[w], n.spaces[q][w])
    {
      if q != p || w != v { ShareShows(s, m, p, v, q, w); }
    }
  }

  // An absent page marked shared, or a word of physical page 0, is seen by nobody.
  lemma AbsentShareRefines(s: Vm, m: Eager, p: Pid, v: nat)
    requires Shape(s) && Refines(s, m) && p in s.sp && v < NPAGES && !s.sp[p].pte[v].p
    ensures Refines(VirtualMemory.Share(s, p, v), m)
  {
    var t := VirtualMemory.Share(s, p, v);
    forall q: Pid, w: nat | q in t.sp && w < NPAGES
      ensures Shows(t.ram, m.cells, t.sp[q].pte[w], m.spaces[q][w])
    {
      assert Shows(s.ram, m.cells, s.sp[q].pte[w], m.spaces[q][w]);
    }
  }

  lemma ShareRefines(s: Vm, m: Eager, p: Pid, v: nat)
    requires Inv(s) && Refines(s, m) && p in s.sp && v < NPAGES && SafeShare(s, p, v)
    ensures Refines(VirtualMemory.Share(s, p, v),
                    if s.sp[p].pte[v].p then Do(m, Publish(p, v, s.sp[p].pte[v].base)) else m)
  {
    if s.sp[p].pte[v].p {
      BackedAt(s, p, v);
      PublishedRefines(s, VirtualMemory.Share(s, p, v), m, p, v);
    } else {
      AbsentShareRefines(s, m, p, v);
    }
  }

  lemma PallocRefines(s: Vm, m: Eager, p: Pid)
    requires Shape(s) && Refines(s, m) && p in s.sp
    ensures Refines(VirtualMemory.Palloc(s, p), m)
  {
    AskPageChanges(s.sp[p]);
    var t := VirtualMemory.Palloc(s, p);
    forall q: Pid, w: nat | q in s.sp && w < NPAGES ensures SameView(s.sp[q].pte[w], t.sp[q].pte[w]) {
      if q == p { assert t.sp[p].pte[w] == s.sp[p].pte[w] || !s.sp[p].pte[w].p; }
    }
    SameViewRefines(s, t, m);
  }

  lemma CopySlots(m: Eager, p: Pid, c: Pid)
    requires Formed(m) && p in m.spaces && c !in m.spaces
    ensures var n := Do(m, Copy(p, c));
      && n.spaces.Keys == m.spaces.Keys + {c} && n.cells == m.cells
      && (forall q <- m.spaces :: n.spaces[q] == m.spaces[q])
      && forall w | 0 <= w < NPAGES :: (n.spaces[c][w] ==
           if w == STACK_3 then Private(Contents(m, p, STACK_3)) else m.spaces[p][w])
  {}

  lemma ForkShows(s: Vm, t: Vm, m: Eager, p: Pid, c: Pid, f3: Frame, f0: Frame, q: Pid, w: nat)
    requires Shape(s) && CleanEntries(s) && Refines(s, m) && Shape(t) && Forked(s, t, p, c, f3, f0)
    requires forall i | 0 <= i < |s.ram| && i != f3 && i != f0 :: t.ram[i] == s.ram[i]
    requires !Maps(s, if q == c then p else q, w, f3) && !Maps(s, if q == c then p else q, w, f0)
    requires q in t.sp && w < NPAGES && (q != c || (w != STACK_3 && w != STACK_0))
    ensures Shows(t.ram, m.cells, t.sp[q].pte[w], m.spaces[if q == c then p else q][w])
  {
    var r := if q == c then p else q;
    assert Shows(s.ram, m.cells, s.sp[r].pte[w], m.spaces[r][w]);
  }

  lemma ForkedRefines(s: Vm, t: Vm, m: Eager, p: Pid, c: Pid, f3: Frame, f0: Frame, k0: Page)
    requires Shape(s) && CleanEntries(s) && Refines(s, m) && Shape(t) && Forked(s, t, p, c, f3, f0)
    requires s.sp[p].pte[STACK_3].p && s.sp[p].pte[STACK_3].base < |s.ram|
    requires t.ram == s.ram[f0 := k0][f3 := s.ram[s.sp[p].pte[STACK_3].base]]
    requires forall q, w :: !Maps(s, q, w, f3) && !Maps(s, q, w, f0)
    ensures Refines(t, Do(m, Copy(p, c)))
  {
    var n := Do(m, Copy(p, c));
    CopySlots(m, p, c);
    assert Shows(s.ram, m.cells, s.sp[p].pte[STACK_3], m.spaces[p][STACK_3]);
    assert Shows(s.ram, m.cells, s.sp[p].pte[STACK_0], m.spaces[p][STACK_0]);
    forall q: Pid, w: nat | q in t.sp && w < NPAGES
      ensures Shows(t.ram, n.cells, t.sp[q].pte[w], n.spaces[q][w])
    {
      if q != c || (w != STACK_3 && w != STACK_0) { ForkShows(s, t, m, p, c, f3, f0, q, w); }
    }
  }

  lemma ForkRefines(s: Vm, m: Eager, p: Pid, c: Pid, f3: Frame, f0: Frame, k0: Page)
    requires Inv(s) && Refines(s, m) && Enabled(s, Fork(p, c, f3, f0, k0)) && s.sp[p].pte[STACK_3].base < |s.ram| && !s.sp[p].pte[TEMP].p
    ensures var t := VirtualMemory.Fork(s, p, c, f3, f0, k0); Shape(t) && Refines(t, Do(m, Copy(p, c)))
  {
    var t := VirtualMemory.Fork(s, p, c, f3, f0, k0);
    ForkForked(s, p, c, f3, f0, k0);
    FreeUnmapped(s, f3);
    FreeUnmapped(s, f0);
    ForkedRefines(s, t, m, p, c, f3, f0, k0);
  }

  lemma LoadedShows(s: Vm, t: Vm, m: Eager, p: Pid, c: Pid, v: nat, fc: Frame, f3: Frame, f0: Frame,
                    e: Entry, code: Page, k0: Page, q: Pid, w: nat)
    requires Shape(s) && CleanEntries(s) && Refines(s, m) && Shape(t) && Loaded(s, t, p, c, v, fc, f3, f0, e)
    requires t.ram == s.ram[f0 := k0][fc := code] && q in s.sp && w < NPAGES
    requires !Maps(s, q, w, fc) && !Maps(s, q, w, f0)
    ensures Shows(t.ram, m.cells, t.sp[q].pte[w], m.spaces[q][w])
  {
    assert Shows(s.ram, m.cells, s.sp[q].pte[w], m.spaces[q][w]);
    if q == p { assert !s.sp[p].pte[TEMP].p; }
  }

  lemma LoadSlots(m: Eager, c: Pid, v: nat, code: Page, stack: Page)
    requires Formed(m) && c !in m.spaces && v < NPAGES && v != STACK_3
    ensures var n := Do(m, Load(c, v, code, stack));
      && n.spaces.Keys == m.spaces.Keys + {c} && n.cells == m.cells
      && (forall q <- m.spaces :: n.spaces[q] == m.spaces[q])
      && forall w | 0 <= w < NPAGES :: (n.spaces[c][w] ==
           if w == v then Private(code) else if w == STACK_3 then Private(stack) else Nothing)
  {}

  lemma LoadedRefines(s: Vm, t: Vm, m: Eager, p: Pid, c: Pid, v: nat, fc: Frame, f3: Frame, f0: Frame,
                      e: Entry, code: Page, k0: Page)
    requires Shape(s) && CleanEntries(s) && Refines(s, m) && Shape(t) && Loaded(s, t, p, c, v, fc, f3, f0, e)
    requires t.ram == s.ram[f0 := k0][fc := code]
    requires forall q, w :: !Maps(s, q, w, fc) && !Maps(s, q, w, f0)
    ensures Refines(t, Do(m, Load(c, v, code, s.ram[f3])))
  {
    var n := Do(m, Load(c, v, code, s.ram[f3]));
    LoadSlots(m, c, v, code, s.ram[f3]);
    forall q: Pid, w: nat | q in t.sp && w < NPAGES
      ensures Shows(t.ram, n.cells, t.sp[q].pte[w], n.spaces[q][w])
    {
      if q != c { LoadedShows(s, t, m, p, c, v, fc, f3, f0, e, code, k0, q, w); }
    }
  }

  lemma SpawnRefines(s: Vm, m: Eager, p: Pid, c: Pid, v: nat, fc: Frame, f3: Frame, f0: Frame, code: Page, k0: Page)
    requires Inv(s) && Refines(s, m) && Enabled(s, Spawn(p, c, v, fc, f3, f0, code, k0)) && !s.sp[p].pte[TEMP].p
    ensures var t := VirtualMemory.Spawn(s, p, c, v, fc, f3, f0, code, k0);
      Shape(t) && Refines(t, Do(m, Load(c, v, code, s.ram[f3])))
  {
    SpawnLoaded(s, p, c, v, fc, f3, f0, code, k0);
    FreeUnmapped(s, fc);
    FreeUnmapped(s, f0);
    LoadedRefines(s, VirtualMemory.Spawn(s, p, c, v, fc, f3, f0, code, k0), m, p, c, v, fc, f3, f0,
                  TempLeft(fc, true), code, k0);
  }

  lemma ExitRefines(s: Vm, m: Eager, p: Pid)
    requires Shape(s) && Refines(s, m) && p in s.sp
    ensures Refines(VirtualMemory.Exit(s, p), Do(m, Drop(p)))
  {
    var t, n := VirtualMemory.Exit(s, p), Do(m, Drop(p));
    forall q: Pid, w: nat | q in t.sp && w < NPAGES
      ensures Shows(t.ram, n.cells, t.sp[q].pte[w], n.spaces[q][w])
    {
      assert Shows(s.ram, m.cells, s.sp[q].pte[w], m.spaces[q][w]);
    }
  }

  lemma {:induction false} DoAllConcat(m: Eager, a: seq<Action>, b: seq<Action>)
    requires Formed(m)
    ensures DoAll(m, a + b) == DoAll(DoAll(m, a), b)
    ensures Seens(m, a + b) == Seens(m, a) + Seens(DoAll(m, a), b)
    decreases |a|
  {
    if a == [] {
      assert a + b == b;
    } else {
      assert (a + b)[1..] == a[1..] + b;
      DoAllConcat(Do(m, a[0]), a[1..], b);
    }
  }

  lemma SilentGive(s: Vm, m: Eager, p: Pid, v: nat, f: Frame)
    requires Shape(s) && Formed(m) && p in s.sp && v < NPAGES && f < |s.ram|
    ensures Seens(m, GiveIfAsked(s, p, v, f)) == []
  {}

  lemma SeenGet(m: Eager, p: Pid, v: nat, off: nat)
    requires Formed(m)
    ensures Seens(m, [Get(p, v, off)]) == [Look(m, p, v, off)] && DoAll(m, [Get(p, v, off)]) == m
  {
    DoOne(m, Get(p, v, off));
  }

  lemma ReadRefines(s: Vm, m: Eager, p: Pid, v: nat, off: nat, f: Frame)
    requires Inv(s) && Refines(s, m) && off < PAGE_SIZE && CanTouch(s, p, v, f, false) && SafeTouch(s, p, v, false)
    requires Backed(s, p, v, Protection(s, p, v, false))
    ensures var t, acts := Touch(s, p, v, f, NoPage(), false), GiveIfAsked(s, p, v, f) + [Get(p, v, off)];
      Refines(t, DoAll(m, acts)) && [Fetch(t, p, v, off)] == Seens(m, acts)
  {
    var a := GiveIfAsked(s, p, v, f);
    TouchRefines(s, m, p, v, f, NoPage(), false);
    DoAllConcat(m, a, [Get(p, v, off)]);
    SilentGive(s, m, p, v, f);
    SeenGet(DoAll(m, a), p, v, off);
    FetchIsLook(Touch(s, p, v, f, NoPage(), false), DoAll(m, a), p, v, off);
  }

  lemma FetchIsLook(t: Vm, n: Eager, p: Pid, v: nat, off: nat)
    requires Shape(t) && Refines(t, n) && p in t.sp && v < NPAGES && off < PAGE_SIZE
    ensures Fetch(t, p, v, off) == Look(n, p, v, off)
  {
    assert Shows(t.ram, n.cells, t.sp[p].pte[v], n.spaces[p][v]);
  }

  // After a write fault was handled, a page present for the user is writable.
  lemma WritableAfterTouch(s: Vm, p: Pid, v: nat, f: Frame, k: Page)
    requires Inv(s) && CanTouch(s, p, v, f, true) && Backed(s, p, v, Protection(s, p, v, true))
    ensures var t := Touch(s, p, v, f, k, true);
      t.sp[p].pte[v].p && t.sp[p].pte[v].us ==> t.sp[p].pte[v].rw
  {
    assert CleanEntry(v, s.sp[p].pte[v]);
    if v < USR_FIRST {
      LowTouchKeeps(s, p, v, f, k, true);
    } else {
      TouchIs(s, p, v, f, k, true);
      hide Touch, Inv, CanTouch, Counted;
    }
  }

  // Whatever an access below 4 MB does, the page stays absent.
  lemma LowTouchKeeps(s: Vm, p: Pid, v: nat, f: Frame, k: Page, write: bool)
    requires Shape(s) && p in s.sp && v < USR_FIRST && f < |s.ram| && !s.sp[p].pte[v].p
    requires Backed(s, p, v, Protection(s, p, v, write))
    ensures !Touch(s, p, v, f, k, write).sp[p].pte[v].p
  {}

  lemma Formeds(s: Vm, m: Eager)
    requires Inv(s) && Refines(s, m)
    ensures Shape(s) && Formed(m)
  {}

  lemma WriteRefines(s: Vm, m: Eager, p: Pid, v: nat, off: nat, b: bv8, f: Frame, k: Page)
    requires Inv(s) && Refines(s, m) && off < PAGE_SIZE && CanTouch(s, p, v, f, true) && SafeTouch(s, p, v, true)
    ensures var t, acts := UserWrite(s, p, v, off, b, f, k), GiveIfAsked(s, p, v, f) + [Put(p, v, off, b)];
      Shape(t) && Refines(t, DoAll(m, acts)) && Seens(m, acts) == []
  {
    hide Touch, Inv, Refines, TakesFrame;
    Formeds(s, m);
    var n := DoAll(m, GiveIfAsked(s, p, v, f));
    BackedAt(s, p, v);
    TouchInv(s, p, v, f, k, true);
    TouchRefines(s, m, p, v, f, k, true);
    WritableAfterTouch(s, p, v, f, k);
    StoredRefines(Touch(s, p, v, f, k, true), n, p, v, off, b);
    DoAllConcat(m, GiveIfAsked(s, p, v, f), [Put(p, v, off, b)]);
    SilentGive(s, m, p, v, f);
    assert Seens(n, [Put(p, v, off, b)]) == [];
  }

  lemma StoredRefines(t: Vm, n: Eager, p: Pid, v: nat, off: nat, b: bv8)
    requires Inv(t) && Refines(t, n) && p in t.sp && v < NPAGES && off < PAGE_SIZE
    requires t.sp[p].pte[v].p && t.sp[p].pte[v].us ==> t.sp[p].pte[v].rw
    ensures t.sp[p].pte[v].p ==> t.sp[p].pte[v].base < |t.ram|
    ensures Refines(Store(t, p, v, off, b), DoAll(n, [Put(p, v, off, b)]))
  {
    BackedAt(t, p, v);
    StoreRefines(t, n, p, v, off, b);
    DoOne(n, Put(p, v, off, b));
  }

  // The events that are no accesses show nothing and have at most one eager action.
  lemma TaskRefines(s: Vm, m: Eager, e: Event)
    requires Inv(s) && Refines(s, m) && Enabled(s, e) && Safe(s, e) && !e.Read? && !e.Write?
    ensures Inv(Step(s, e)) && Refines(Step(s, e), DoAll(m, Label(s, e)))
    ensures Seens(m, Label(s, e)) == []
  {
    StepInv(s, e);
    SilentOne(m, Label(s, e));
    hide Inv, Refines, Do, DoAll, Seens, VirtualMemory.Spawn, VirtualMemory.Exit, VirtualMemory.Share, VirtualMemory.Palloc;
    match e
    case Fork(p, c, f3, f0, k0) =>
      BackedAt(s, p, STACK_3);
      hide VirtualMemory.Fork;
      ForkRefines(s, m, p, c, f3, f0, k0);
    case Spawn(p, c, v, fc, f3, f0, code, k0) => SpawnRefines(s, m, p, c, v, fc, f3, f0, code, k0);
    case Palloc(p) => PallocRefines(s, m, p);
    case Share(p, v) => ShareRefines(s, m, p, v);
    case Exit(p) => ExitRefines(s, m, p);
  }

  lemma SilentOne(m: Eager, acts: seq<Action>)
    requires Formed(m) && (acts == [] || (|acts| == 1 && !acts[0].Get?))
    ensures DoAll(m, acts) == if acts == [] then m else Do(m, acts[0])
    ensures Seens(m, acts) == []
  {
    if acts != [] { assert acts == [acts[0]] && acts[1..] == []; }
  }

  lemma StepRefines(s: Vm, m: Eager, e: Event)
    requires Inv(s) && Refines(s, m) && Enabled(s, e) && Safe(s, e)
    ensures Shape(Step(s, e)) && Refines(Step(s, e), DoAll(m, Label(s, e)))
    ensures Observed(s, e) == Seens(m, Label(s, e))
  {
    StepInv(s, e);
    hide Refines, Do, DoAll, Seens, Touch, UserWrite;
    match e
    case Read(p, v, off, f) => BackedAt(s, p, v); ReadRefines(s, m, p, v, off, f);
    case Write(p, v, off, b, f, k) => WriteRefines(s, m, p, v, off, b, f, k);
    case _ => TaskRefines(s, m, e);
  }

  // ---------------------------------------------------------------- unsafe steps

  ghost predicate Right(s: Vm, m: Eager) { Inv(s) && Refines(s, m) }

  // A page that the kernel's window takes away is missed.
  lemma WindowLost(s: Vm, m: Eager, t: Vm, n: Eager, p: Pid)
    requires Inv(s) && Refines(s, m) && p in s.sp && s.sp[p].pte[TEMP].p
    requires Shape(t) && p in t.sp && !t.sp[p].pte[TEMP].p
    requires Formed(n) && p in n.spaces && n.spaces[p][TEMP] == m.spaces[p][TEMP]
    ensures !Refines(t, n)
  {
    assert CleanEntry(TEMP, s.sp[p].pte[TEMP]);
    assert Shows(s.ram, m.cells, s.sp[p].pte[TEMP], m.spaces[p][TEMP]);
    assert !Shows(t.ram, n.cells, t.sp[p].pte[TEMP], n.spaces[p][TEMP]);
  }

  // A frame taken for a page below 4 MB is in use and mapped by nobody.
  lemma LowFrameLost(s: Vm, p: Pid, v: nat, f: Frame, k: Page, write: bool)
    requires Inv(s) && CanTouch(s, p, v, f, write) && v < USR_FIRST && TakesFrame(s, p, v, write)
    ensures Backed(s, p, v, Protection(s, p, v, write))
    ensures var t := Touch(s, p, v, f, k, write); f in t.used && !Mapped(t, f) && !t.sp[p].pte[v].p
  {
    assert CleanEntry(v, s.sp[p].pte[v]);
    FreeUnmapped(s, f);
    var t := Touch(s, p, v, f, k, write);
    forall q: Pid, w: nat ensures !Maps(t, q, w, f) {
      assert !Maps(s, q, w, f);
    }
  }

  lemma UnsafeRead(s: Vm, p: Pid, v: nat, f: Frame)
    requires Inv(s) && CanTouch(s, p, v, f, false) && !SafeTouch(s, p, v, false)
    ensures Backed(s, p, v, Protection(s, p, v, false)) && !Inv(Touch(s, p, v, f, NoPage(), false))
  {
    LowFrameLost(s, p, v, f, NoPage(), false);
  }

  // A write that needs a copy while the process has a page at the window: that page goes.
  lemma CopyTakesWindow(s: Vm, p: Pid, v: nat, f: Frame, k: Page)
    requires Inv(s) && CanTouch(s, p, v, f, true) && !SafeTouch(s, p, v, true) && v >= USR_FIRST
    ensures Backed(s, p, v, Protection(s, p, v, true)) && v != TEMP && GiveIfAsked(s, p, v, f) == []
    ensures s.sp[p].pte[TEMP].p && !Touch(s, p, v, f, k, true).sp[p].pte[TEMP].p
  {
    BackedAt(s, p, v);
    assert CleanEntry(v, s.sp[p].pte[v]);
    TouchIs(s, p, v, f, k, true);
    hide Touch;
  }

  lemma UnsafeWrite(s: Vm, m: Eager, p: Pid, v: nat, off: nat, b: bv8, f: Frame, k: Page)
    requires Right(s, m) && off < PAGE_SIZE && CanTouch(s, p, v, f, true) && !SafeTouch(s, p, v, true)
    ensures !Right(UserWrite(s, p, v, off, b, f, k), DoAll(m, GiveIfAsked(s, p, v, f) + [Put(p, v, off, b)]))
  {
    if v < USR_FIRST {
      LowFrameLost(s, p, v, f, k, true);
      hide Touch;
      assert UserWrite(s, p, v, off, b, f, k) == Touch(s, p, v, f, k, true);
    } else {
      CopyTakesWindow(s, p, v, f, k);
      WriteTables(s, p, v, off, b, f, k);
      hide Touch, TakesFrame, UserWrite, Inv;
      assert GiveIfAsked(s, p, v, f) + [Put(p, v, off, b)] == [Put(p, v, off, b)];
      DoOne(m, Put(p, v, off, b));
      SlotKept(m, Put(p, v, off, b), p);
      WindowLost(s, m, UserWrite(s, p, v, off, b, f, k), Do(m, Put(p, v, off, b)), p);
    }
  }

  // A store changes no table.
  lemma WriteTables(s: Vm, p: Pid, v: nat, off: nat, b: bv8, f: Frame, k: Page)
    requires Inv(s) && off < PAGE_SIZE && CanTouch(s, p, v, f, true)
    ensures Backed(s, p, v, Protection(s, p, v, true))
    ensures var t := UserWrite(s, p, v, off, b, f, k); Shape(t) && t.sp == Touch(s, p, v, f, k, true).sp
  {
    BackedAt(s, p, v);
    TouchBase(s, p, v, f, k, true);
    hide Touch;
  }

  // Actions that leave the window of p alone.
  lemma SlotKept(m: Eager, a: Action, p: Pid)
    requires Formed(m) && p in m.spaces && (a.Copy? || a.Load? ==> a.c != p) && (a.Put? ==> a.v != TEMP)
    requires a.Copy? || a.Load? || a.Put?
    ensures var n := Do(m, a); p in n.spaces && n.spaces[p][TEMP] == m.spaces[p][TEMP]
  {}

  // The other unsafe events.
  lemma UnsafeTask(s: Vm, m: Eager, e: Event)
    requires Right(s, m) && Enabled(s, e) && !Safe(s, e) && !e.Read? && !e.Write?
    ensures !Right(Step(s, e), DoAll(m, Label(s, e)))
  {
    if e.Share? {
      ShareInvExactly(s, e.p, e.v);
    } else {
      var a := Label(s, e)[0];
      DoOne(m, a);
      SlotKept(m, a, e.p);
      WindowTaken(s, e);
      hide Inv, Step, Refines, Do;
      WindowLost(s, m, Step(s, e), Do(m, a), e.p);
    }
  }

  lemma WindowTaken(s: Vm, e: Event)
    requires Inv(s) && Enabled(s, e) && (e.Fork? || e.Spawn?)
    ensures var t := Step(s, e); Shape(t) && e.p in t.sp && !t.sp[e.p].pte[TEMP].p
  {
    BackedAt(s, e.p, STACK_3);
    match e
    case Fork(p, c, f3, f0, k0) => ForkTakesWindow(s, p, c, f3, f0, k0);
    case Spawn(p, c, v, fc, f3, f0, code, k0) =>
      TempSet(s.sp[p], TempLeft(fc, true), TEMP);
      hide Inv, SetEntry;
      assert Step(s, e).sp[p] == SetEntry(s.sp[p], TEMP, TempLeft(fc, true));
  }

  lemma ForkTakesWindow(s: Vm, p: Pid, c: Pid, f3: Frame, f0: Frame, k0: Page)
    requires Shape(s) && p in s.sp && c !in s.sp && f3 < |s.ram| && f0 < |s.ram| && s.sp[p].pte[STACK_3].base < |s.ram|
    ensures var t := VirtualMemory.Fork(s, p, c, f3, f0, k0); Shape(t) && p in t.sp && !t.sp[p].pte[TEMP].p
  {
    assert ForkParent(s.sp[p], f3).pte[TEMP] == TempLeft(f3, false);
  }

  // A step keeps the invariant and shows the processes what eager copying would exactly when
  // it is safe; then what it reads is the same as well (StepRefines).
  lemma StepExact(s: Vm, m: Eager, e: Event)
    requires Right(s, m) && Enabled(s, e)
    ensures Right(Step(s, e), DoAll(m, Label(s, e))) <==> Safe(s, e)
  {
    if Safe(s, e) {
      StepInv(s, e);
      StepRefines(s, m, e);
    } else {
      hide Inv, Refines, UserWrite, Touch, SafeTouch, DoAll, TakesFrame;
      match e
      case Read(p, v, off, f) => UnsafeRead(s, p, v, f);
      case Write(p, v, off, b, f, k) => UnsafeWrite(s, m, p, v, off, b, f, k);
      case _ => UnsafeTask(s, m, e);
    }
  }

  // ---------------------------------------------------------------- whole runs

  ghost function Labels(s: Vm, es: seq<Event>): seq<Action>
    requires Inv(s) && Runs(s, es)
    decreases |es|
  {
    if es == [] then [] else (StepInv(s, es[0]); Label(s, es[0]) + Labels(Step(s, es[0]), es[1..]))
  }

  ghost function Observations(s: Vm, es: seq<Event>): seq<Seen>
    requires Inv(s) && Runs(s, es)
    decreases |es|
  {
    if es == [] then [] else (StepInv(s, es[0]); Observed(s, es[0]) + Observations(Step(s, es[0]), es[1..]))
  }

  // Copy-on-write refines eager copying: along any run the tables show every process what
  // the eager machine holds, and every read returns the same byte on both.
  lemma {:induction false} CowRefinesEager(s: Vm, m: Eager, es: seq<Event>)
    requires Inv(s) && Refines(s, m) && Runs(s, es)
    ensures Refines(Run(s, es), DoAll(m, Labels(s, es)))
    ensures Observations(s, es) == Seens(m, Labels(s, es))
    decreases |es|
  {
    if es != [] {
      StepInv(s, es[0]);
      StepRefines(s, m, es[0]);
      var t, n := Step(s, es[0]), DoAll(m, Label(s, es[0]));
      CowRefinesEager(t, n, es[1..]);
      DoAllConcat(m, Label(s, es[0]), Labels(t, es[1..]));
    }
  }

  // The invariant holds and the processes see what they should, at the start and after every
  // event of the run.
  ghost predicate StaysRight(s: Vm, m: Eager, es: seq<Event>)
    decreases |es|
  {
    Right(s, m) && (es == [] || (Enabled(s, es[0]) && StaysRight(Step(s, es[0]), DoAll(m, Label(s, es[0])), es[1..])))
  }

  // A whole run stays right exactly when each of its steps is safe.
  lemma {:induction false} RunExact(s: Vm, m: Eager, es: seq<Event>)
    requires Right(s, m)
    ensures StaysRight(s, m, es) <==> Runs(s, es)
    decreases |es|
  {
    if es != [] && Enabled(s, es[0]) {
      StepExact(s, m, es[0]);
      if Safe(s, es[0]) {
        StepInv(s, es[0]);
        hide Inv, Refines, Enabled, Safe, Step;
        RunExact(Step(s, es[0]), DoAll(m, Label(s, es[0])), es[1..]);
      }
    }
  }

  // The eager machine at boot: the idle task, with nothing of its own.
  ghost function EagerBoot(): Eager { Eager(map[0 := seq(NPAGES, i => Nothing)], map[]) }

  lemma BootRefines(ram: seq<Page>, low: seq<Entry>)
    requires CleanLow(low, |ram|)
    ensures Right(Boot(ram, low), EagerBoot())
  {}

  // The discipline of mm_share_page: the shared mark outlives the sharer's next write
  // exactly when the page was not copy-on-write, or had no other mapper.
  lemma ShareSurvivesExactly(s: Vm, p: Pid, v: nat, f: Frame)
    requires Inv(s) && p in s.sp && UserPage(v) && s.sp[p].pte[v].p && s.sp[p].pte[v].us && f < |s.ram|
    ensures s.sp[p].pte[v].base < |s.ram|
    ensures var t := Touch(VirtualMemory.Share(s, p, v), p, v, f, NoPage(), true);
      Shape(t) && p in t.sp && (t.sp[p].pte[v].sh <==> !s.sp[p].pte[v].cow || |Counted(s, s.sp[p].pte[v].base, v)| == 1)
  {
    BackedAt(s, p, v);
    MarkedAt(s, p, v);
    hide Touch, Inv, Counted;
    SharedTouched(VirtualMemory.Share(s, p, v), p, v, f);
  }

  // What the mark leaves.
  lemma MarkedAt(s: Vm, p: Pid, v: nat)
    requires Inv(s) && p in s.sp && UserPage(v) && s.sp[p].pte[v].p
    ensures var u, e := VirtualMemory.Share(s, p, v), s.sp[p].pte[v];
      && Shape(u) && p in u.sp && |u.ram| == |s.ram| && u.sp[p].pte[v] == e.(sh := true)
      && Counted(u, e.base, v) == Counted(s, e.base, v) && u.sp[p].pde[v / 1024] == Table && (e.cow != e.rw)
  {
    assert GoodEntry(v, s.sp[p].pte[v]);
  }

  // The write on a shared page.
  lemma SharedTouched(u: Vm, p: Pid, v: nat, f: Frame)
    requires Shape(u) && p in u.sp && UserPage(v) && f < |u.ram|
    requires var e := u.sp[p].pte[v]; e.p && e.us && e.sh && (e.cow != e.rw) && e.base < |u.ram| && u.sp[p].pde[v / 1024] == Table
    ensures var t := Touch(u, p, v, f, NoPage(), true);
      Shape(t) && p in t.sp && (t.sp[p].pte[v].sh <==> !u.sp[p].pte[v].cow || |Counted(u, u.sp[p].pte[v].base, v)| == 1)
  {}
}
