// Two-level page tables in kernel memory: directories and tables are 1024-entry lines in
// frames below 4 MB. The lemmas say what one write to a line does to the address spaces.
module Tables {
  import opened PageEntries
  import opened VirtualMemory

  const KRN_FIRST := 256               // KRN_MEM_START / PAGE_SIZE

  type Line = s: seq<Entry> | |s| == 1024 witness seq(1024, i => ZERO)
  type Memory = s: seq<Line> | |s| == USR_FIRST witness seq(USR_FIRST, i => seq(1024, j => ZERO))

  function ZeroLine(): Line { seq(1024, i => ZERO) }

  // What mm_dir_new writes to entry 0: the 4 MB identity mapping (mm.c:178).
  const IDENTITY := Entry(0, true, false, false, false, false)

  // What an allocated kernel frame of the paging structures is used for. The directories of
  // user processes are marked: their tables are open to unprivileged accesses.
  datatype Owner = Directory(user: bool) | TableOf(dir: nat, index: nat)

  type Owners = map<nat, Owner>

  predicate IsDir(own: Owners, d: nat) { d in own && own[d].Directory? }
  predicate IsUser(own: Owners, d: nat) { d in own && own[d] == Directory(true) }

  // Nothing that had a use got another.
  ghost predicate Extends(own: Owners, more: Owners) { forall f | f in own :: f in more && more[f] == own[f] }

  // The structure invariant: directories and tables are distinct kernel frames, entry 0 of
  // a directory is the identity mapping, every other present entry points at a table of its
  // own, and absent entries at frame 0.
  ghost predicate GoodEntryOf(own: Owners, d: nat, i: nat, e: Entry) {
    if e.p then e.base in own && own[e.base] == TableOf(d, i) && (IsUser(own, d) ==> e.us && e.rw) else e.base == 0
  }

  ghost predicate GoodDir(mem: Memory, own: Owners, d: nat)
    requires d < USR_FIRST
  {
    mem[d][0] == IDENTITY && forall i | 1 <= i < 1024 :: GoodEntryOf(own, d, i, mem[d][i])
  }

  ghost predicate InKernel(own: Owners) { forall f <- own :: KRN_FIRST <= f < USR_FIRST }

  ghost predicate WellFormed(mem: Memory, own: Owners) {
    InKernel(own) && forall d: nat | IsDir(own, d) :: GoodDir(mem, own, d)
  }

  // ---------------------------------------------------------------- translation

  function PteAt(mem: Memory, d: nat, v: nat): Entry
    requires d < USR_FIRST && v < NPAGES
  {
    var e := mem[d][v / 1024];
    if v >= USR_FIRST && e.p && e.base < USR_FIRST then mem[e.base][v % 1024] else ZERO
  }

  function PdeAt(mem: Memory, d: nat, i: nat): Pde
    requires d < USR_FIRST && i < 1024
  {
    if i == 0 then Absent else if mem[d][i].p then Table else if mem[d][i].Requested() then Asked else Absent
  }

  ghost function SpaceOf(mem: Memory, d: nat): (r: Space)
    requires d < USR_FIRST
    ensures |r.pte| == NPAGES && |r.pde| == 1024
  {
    Space(seq(NPAGES, v requires 0 <= v < NPAGES => PteAt(mem, d, v)),
          seq(1024, i requires 0 <= i < 1024 => PdeAt(mem, d, i)))
  }

  // What mm_times_mapped reads for a directory: the base of the directory entry is
  // followed without a look at its present bit (mm.c:220-222).
  function RawPte(mem: Memory, d: nat, i: nat, j: nat): Entry
    requires d < USR_FIRST && i < 1024 && j < 1024
  {
    if mem[d][i].base < USR_FIRST then mem[mem[d][i].base][j] else ZERO
  }

  // ---------------------------------------------------------------- single writes

  function WriteLine(mem: Memory, f: nat, i: nat, e: Entry): Memory
    requires f < USR_FIRST && i < 1024
  {
    mem[f := mem[f][i := e]]
  }

  // A write to a table changes one translation of one directory.
  lemma WriteTable(mem: Memory, own: Owners, d: nat, v: nat, e: Entry)
    requires WellFormed(mem, own) && IsDir(own, d) && USR_FIRST <= v < NPAGES && mem[d][v / 1024].p
    ensures var t := mem[d][v / 1024].base; t < USR_FIRST
    ensures var next := WriteLine(mem, mem[d][v / 1024].base, v % 1024, e);
      WellFormed(next, own) &&
      (forall c: nat, w: nat | IsDir(own, c) && 0 <= w < NPAGES ::
        PteAt(next, c, w) == if c == d && w == v then e else PteAt(mem, c, w)) &&
      (forall c: nat, i: nat | IsDir(own, c) && 0 <= i < 1024 :: PdeAt(next, c, i) == PdeAt(mem, c, i))
  {
    var t := mem[d][v / 1024].base;
    assert GoodEntryOf(own, d, v / 1024, mem[d][v / 1024]);
    var next := WriteLine(mem, t, v % 1024, e);
    forall c: nat | IsDir(own, c) ensures next[c] == mem[c] {}
    assert WellFormed(next, own) by {
      forall c: nat | IsDir(own, c) ensures GoodDir(next, own, c) { assert GoodDir(mem, own, c); }
    }
    forall c: nat, w: nat | IsDir(own, c) && USR_FIRST <= w < NPAGES
      ensures PteAt(next, c, w) == if c == d && w == v then e else PteAt(mem, c, w)
    {
      var i := w / 1024;
      assert GoodDir(mem, own, c);
      assert GoodEntryOf(own, c, i, mem[c][i]);
      assert w == 1024 * i + w % 1024;
      assert v == 1024 * (v / 1024) + v % 1024;
    }
  }

  // A fresh cleared table put where a directory had none changes no translation.
  lemma AddTable(mem: Memory, own: Owners, d: nat, i: nat, t: nat, e: Entry)
    requires WellFormed(mem, own) && IsDir(own, d) && 1 <= i < 1024 && !mem[d][i].p
    requires t !in own && KRN_FIRST <= t < USR_FIRST && mem[t] == ZeroLine() && e.p && e.base == t
    requires IsUser(own, d) ==> e.us && e.rw
    ensures var next, nown := WriteLine(mem, d, i, e), own[t := TableOf(d, i)];
      WellFormed(next, nown) &&
      (forall c: nat, w: nat | IsDir(own, c) && 0 <= w < NPAGES :: PteAt(next, c, w) == PteAt(mem, c, w)) &&
      (forall c: nat, k: nat | IsDir(own, c) && 0 <= k < 1024 ::
        PdeAt(next, c, k) == if c == d && k == i then Table else PdeAt(mem, c, k))
  {
    var next, nown := WriteLine(mem, d, i, e), own[t := TableOf(d, i)];
    forall c: nat | IsDir(nown, c) ensures GoodDir(next, nown, c) {
      assert GoodDir(mem, own, c);
      forall k | 1 <= k < 1024 ensures GoodEntryOf(nown, c, k, next[c][k]) {
        assert GoodEntryOf(own, c, k, mem[c][k]);
      }
    }
    forall c: nat, w: nat | IsDir(own, c) && USR_FIRST <= w < NPAGES ensures PteAt(next, c, w) == PteAt(mem, c, w) {
      assert GoodDir(mem, own, c);
      assert GoodEntryOf(own, c, w / 1024, mem[c][w / 1024]);
    }
  }

  // The same for whole spaces.
  lemma AddedSpaces(mem: Memory, own: Owners, d: nat, i: nat, e: Entry)
    requires WellFormed(mem, own) && IsDir(own, d) && 1 <= i < 1024 && InKernel(own)
    requires var next := WriteLine(mem, d, i, e);
      (forall c: nat, w: nat | IsDir(own, c) && 0 <= w < NPAGES :: PteAt(next, c, w) == PteAt(mem, c, w)) &&
      (forall c: nat, k: nat | IsDir(own, c) && 0 <= k < 1024 ::
        PdeAt(next, c, k) == if c == d && k == i then Table else PdeAt(mem, c, k))
    ensures var next := WriteLine(mem, d, i, e);
      SpaceOf(next, d) == SpaceOf(mem, d).(pde := SpaceOf(mem, d).pde[i := Table]) &&
      forall c: nat | IsDir(own, c) && c != d :: SpaceOf(next, c) == SpaceOf(mem, c)
  {
    var next := WriteLine(mem, d, i, e);
    assert SpaceOf(next, d).pte == SpaceOf(mem, d).pte;
    assert SpaceOf(next, d).pde == SpaceOf(mem, d).pde[i := Table];
    forall c: nat | IsDir(own, c) && c != d ensures SpaceOf(next, c) == SpaceOf(mem, c) {
      assert SpaceOf(next, c).pte == SpaceOf(mem, c).pte && SpaceOf(next, c).pde == SpaceOf(mem, c).pde;
    }
  }

  // A fresh directory is an empty space and leaves the others alone.
  lemma AddDirectory(mem: Memory, own: Owners, d: nat, user: bool)
    requires WellFormed(mem, own) && d !in own && KRN_FIRST <= d < USR_FIRST
    ensures var next, nown := mem[d := ZeroLine()[0 := IDENTITY]], own[d := Directory(user)];
      WellFormed(next, nown) && SpaceOf(next, d) == NoSpace() &&
      (forall c: nat | IsDir(own, c) :: SpaceOf(next, c) == SpaceOf(mem, c))
  {
    var next, nown := mem[d := ZeroLine()[0 := IDENTITY]], own[d := Directory(user)];
    forall c: nat | IsDir(nown, c) ensures GoodDir(next, nown, c) {
      if c != d { assert GoodDir(mem, own, c); }
      forall k | 1 <= k < 1024 ensures GoodEntryOf(nown, c, k, next[c][k]) {
        if c != d { assert GoodEntryOf(own, c, k, mem[c][k]); }
      }
    }
    forall c: nat, w: nat | IsDir(own, c) && USR_FIRST <= w < NPAGES ensures PteAt(next, c, w) == PteAt(mem, c, w) {
      assert GoodDir(mem, own, c);
      assert GoodEntryOf(own, c, w / 1024, mem[c][w / 1024]);
    }
  }

  // A write to a frame that is neither a directory nor a table.
  lemma WriteElsewhere(mem: Memory, own: Owners, f: nat, line: Line)
    requires WellFormed(mem, own) && f !in own && f < USR_FIRST
    ensures WellFormed(mem[f := line], own)
    ensures forall c: nat | IsDir(own, c) :: SpaceOf(mem[f := line], c) == SpaceOf(mem, c)
  {
    var next := mem[f := line];
    forall c: nat | IsDir(own, c) ensures GoodDir(next, own, c) { assert GoodDir(mem, own, c); }
    forall c: nat, w: nat | IsDir(own, c) && USR_FIRST <= w < NPAGES ensures PteAt(next, c, w) == PteAt(mem, c, w) {
      assert GoodDir(mem, own, c);
      assert GoodEntryOf(own, c, w / 1024, mem[c][w / 1024]);
    }
  }

  // The word that mm.c finds for page v: that of the table, or else one of physical page 0.
  lemma RawIsWord(mem: Memory, own: Owners, d: nat, v: nat)
    requires WellFormed(mem, own) && IsDir(own, d) && v < NPAGES
    ensures mem[d][v / 1024].base < USR_FIRST
    ensures RawPte(mem, d, v / 1024, v % 1024) == mem[mem[d][v / 1024].base][v % 1024]
    ensures RawPte(mem, d, v / 1024, v % 1024) ==
      if v >= USR_FIRST && mem[d][v / 1024].p then PteAt(mem, d, v) else mem[0][v % 1024]
  {
    assert GoodDir(mem, own, d);
    if v >= USR_FIRST { assert GoodEntryOf(own, d, v / 1024, mem[d][v / 1024]); }
  }

  // The test of mm_times_mapped agrees with the translation for user frames, except that
  // without a table it looks at physical page 0.
  lemma RawIsPte(mem: Memory, own: Owners, d: nat, i: nat, j: nat, f: nat)
    requires WellFormed(mem, own) && IsDir(own, d) && 1 <= i < 1024 && j < 1024 && f >= USR_FIRST
    ensures RawPte(mem, d, i, j).base == f <==>
      PteAt(mem, d, 1024 * i + j).base == f || (!mem[d][i].p && mem[0][j].base == f)
  {
    assert GoodDir(mem, own, d);
    assert GoodEntryOf(own, d, i, mem[d][i]);
    assert (1024 * i + j) / 1024 == i && (1024 * i + j) % 1024 == j;
  }

  // Process p is live and its entry at (i, j) has base f.
  ghost predicate Hit(mem: Memory, cr3: seq<nat>, f: nat, i: nat, j: nat, p: nat)
    requires i < 1024 && j < 1024
  {
    p < |cr3| && 0 < cr3[p] < USR_FIRST && RawPte(mem, cr3[p], i, j).base == f
  }

  // The processes below n that mm_times_mapped counts.
  ghost function RawCounted(mem: Memory, cr3: seq<nat>, f: nat, i: nat, j: nat, n: nat): set<nat>
    requires i < 1024 && j < 1024
  {
    if n == 0 then {} else RawCounted(mem, cr3, f, i, j, n - 1) + if Hit(mem, cr3, f, i, j, n - 1) then {n - 1} else {}
  }

  lemma {:induction false} InRawCounted(mem: Memory, cr3: seq<nat>, f: nat, i: nat, j: nat, n: nat, p: nat)
    requires i < 1024 && j < 1024
    ensures p in RawCounted(mem, cr3, f, i, j, n) <==> p < n && Hit(mem, cr3, f, i, j, p)
  {
    if n > 0 { InRawCounted(mem, cr3, f, i, j, n - 1, p); }
  }

  lemma {:induction false} RawCountedIn(mem: Memory, cr3: seq<nat>, f: nat, i: nat, j: nat, n: nat)
    requires i < 1024 && j < 1024
    ensures forall p <- RawCounted(mem, cr3, f, i, j, n) :: 0 <= p < n
  {
    if n > 0 { RawCountedIn(mem, cr3, f, i, j, n - 1); }
  }

  // ---------------------------------------------------------------- all spaces

  ghost predicate InRange(cr3: seq<nat>) { forall p | 0 <= p < |cr3| :: cr3[p] < USR_FIRST }

  ghost function SpacesOf(mem: Memory, cr3: seq<nat>): map<Pid, Space>
    requires InRange(cr3)
  {
    map p: nat | p < |cr3| && cr3[p] != 0 :: SpaceOf(mem, cr3[p])
  }

  // The live processes whose entry for page v has base f.
  ghost function Mappers(mem: Memory, cr3: seq<nat>, f: nat, v: nat): set<Pid>
    requires InRange(cr3) && v < NPAGES
  {
    set p: nat | p < |cr3| && cr3[p] != 0 && PteAt(mem, cr3[p], v).base == f
  }

  // mm_times_mapped counts those exactly when physical page 0 holds no word naming f where
  // a live directory has no table.
  lemma CountExactly(mem: Memory, own: Owners, cr3: seq<nat>, f: nat, v: nat)
    requires WellFormed(mem, own) && InRange(cr3) && USR_FIRST <= v < NPAGES && f >= USR_FIRST
    requires forall p | 0 <= p < |cr3| && cr3[p] != 0 :: IsDir(own, cr3[p])
    ensures RawCounted(mem, cr3, f, v / 1024, v % 1024, |cr3|) == Mappers(mem, cr3, f, v) <==>
      forall p | 0 <= p < |cr3| && cr3[p] != 0 :: mem[cr3[p]][v / 1024].p || mem[0][v % 1024].base != f
  {
    var i, j := v / 1024, v % 1024;
    var raw, mappers := RawCounted(mem, cr3, f, i, j, |cr3|), Mappers(mem, cr3, f, v);
    forall p: nat ensures p in raw <==> p in mappers || (p < |cr3| && cr3[p] != 0 && !mem[cr3[p]][i].p && mem[0][j].base == f) {
      InRawCounted(mem, cr3, f, i, j, |cr3|, p);
      if p < |cr3| && cr3[p] != 0 { RawIsPte(mem, own, cr3[p], i, j, f); }
    }
    forall p: nat | p < |cr3| && cr3[p] != 0 && !mem[cr3[p]][i].p && mem[0][j].base == f ensures p in raw && p !in mappers {
      assert PteAt(mem, cr3[p], v) == ZERO;
    }
    RawCountedIn(mem, cr3, f, i, j, |cr3|);
    forall p <- raw ensures p in mappers || (0 <= p < |cr3| && cr3[p] != 0 && !mem[cr3[p]][i].p && mem[0][j].base == f) {}
  }

  lemma SpacesUpdate(mem: Memory, next: Memory, cr3: seq<nat>, p: nat)
    requires InRange(cr3) && p < |cr3| && cr3[p] != 0
    requires forall q: nat | q < |cr3| && cr3[q] != 0 && q != p :: SpaceOf(next, cr3[q]) == SpaceOf(mem, cr3[q])
    ensures SpacesOf(next, cr3) == SpacesOf(mem, cr3)[p := SpaceOf(next, cr3[p])]
  {}

  // A directory entry without a table marked requested.
  lemma AskTable(mem: Memory, own: Owners, d: nat, i: nat)
    requires WellFormed(mem, own) && IsDir(own, d) && 1 <= i < 1024 && !mem[d][i].p
    ensures var next := WriteLine(mem, d, i, AskedEntry(mem[d][i]));
      WellFormed(next, own) &&
      SpaceOf(next, d) == SpaceOf(mem, d).(pde := SpaceOf(mem, d).pde[i := Asked]) &&
      (forall c: nat | IsDir(own, c) && c != d :: SpaceOf(next, c) == SpaceOf(mem, c))
  {
    var next := WriteLine(mem, d, i, AskedEntry(mem[d][i]));
    forall c: nat | IsDir(own, c) ensures GoodDir(next, own, c) {
      assert GoodDir(mem, own, c);
      forall k | 1 <= k < 1024 ensures GoodEntryOf(own, c, k, next[c][k]) {
        assert GoodEntryOf(own, c, k, mem[c][k]);
      }
    }
    forall c: nat, w: nat | IsDir(own, c) && USR_FIRST <= w < NPAGES ensures PteAt(next, c, w) == PteAt(mem, c, w) {
      assert GoodDir(mem, own, c);
      assert GoodEntryOf(own, c, w / 1024, mem[c][w / 1024]);
    }
  }

  lemma TableEntryAt(mem: Memory, own: Owners, d: nat, i: nat, j: nat)
    requires WellFormed(mem, own) && IsDir(own, d) && 1 <= i < 1024 && j < 1024 && mem[d][i].p
    ensures mem[d][i].base < USR_FIRST
    ensures SpaceOf(mem, d).pte[1024 * i + j] == mem[mem[d][i].base][j] && SpaceOf(mem, d).pde[i] == Table
  {
    assert GoodDir(mem, own, d);
    assert GoodEntryOf(own, d, i, mem[d][i]);
    assert (1024 * i + j) / 1024 == i && (1024 * i + j) % 1024 == j;
  }

  // ---------------------------------------------------------------- fork

  // What mm_page_fork leaves in the parent's table and in the child's.
  function MarkLine(t: Line): Line { seq(1024, j requires 0 <= j < 1024 => if t[j].p then ForkMark(t[j]) else t[j]) }
  function CopyLine(t: Line, n: Line): Line {
    seq(1024, j requires 0 <= j < 1024 => if t[j].p then ForkMark(t[j]) else n[j])
  }

  // The parent's space with the pages below n marked, and the child's with them copied.
  ghost function MarkedTo(sp: Space, n: nat): Space
    requires |sp.pte| == NPAGES && |sp.pde| == 1024
  {
    sp.(pte := seq(NPAGES, v requires 0 <= v < NPAGES => if v < n && sp.pte[v].p then ForkMark(sp.pte[v]) else sp.pte[v]))
  }

  ghost function CopiedTo(sp: Space, n: nat): Space
    requires |sp.pte| == NPAGES && |sp.pde| == 1024
  {
    Space(seq(NPAGES, v requires 0 <= v < NPAGES => if v < n && sp.pte[v].p then ForkMark(sp.pte[v]) else ZERO),
          seq(1024, i requires 0 <= i < 1024 =>
            if 1024 * i < n && sp.pde[i] == Table then Table else Absent))
  }

  // Lines of tables rewritten: well-formedness and directory entries stay.
  lemma RewriteTables(mem: Memory, next: Memory, own: Owners)
    requires WellFormed(mem, own)
    requires forall f | 0 <= f < USR_FIRST && (f !in own || own[f].Directory?) :: next[f] == mem[f]
    ensures WellFormed(next, own)
    ensures forall c: nat, i: nat | IsDir(own, c) && i < 1024 :: PdeAt(next, c, i) == PdeAt(mem, c, i)
  {
    forall c: nat | IsDir(own, c) ensures GoodDir(next, own, c) && next[c] == mem[c] { assert GoodDir(mem, own, c); }
  }

  // One table forked: only the pages under it change, in the two directories.
  lemma ForkTables(mem: Memory, own: Owners, d: nat, nd: nat, i: nat)
    requires WellFormed(mem, own) && IsDir(own, d) && IsDir(own, nd) && d != nd && 1 <= i < 1024
    requires mem[d][i].p && mem[nd][i].p
    ensures mem[d][i].base < USR_FIRST && mem[nd][i].base < USR_FIRST && mem[d][i].base != mem[nd][i].base
    ensures var t, nt := mem[d][i].base, mem[nd][i].base;
      var next := mem[t := MarkLine(mem[t])][nt := CopyLine(mem[t], mem[nt])];
      WellFormed(next, own) &&
      (forall c: nat, k: nat | IsDir(own, c) && k < 1024 :: PdeAt(next, c, k) == PdeAt(mem, c, k)) &&
      (forall c: nat, w: nat | IsDir(own, c) && w < NPAGES && (w / 1024 != i || (c != d && c != nd)) ::
        PteAt(next, c, w) == PteAt(mem, c, w)) &&
      (forall w: nat | w < NPAGES && w / 1024 == i ::
        var e := PteAt(mem, d, w);
        PteAt(next, d, w) == (if e.p then ForkMark(e) else e) &&
        PteAt(next, nd, w) == (if e.p then ForkMark(e) else PteAt(mem, nd, w)))
  {
    var t, nt := mem[d][i].base, mem[nd][i].base;
    assert GoodDir(mem, own, d) && GoodDir(mem, own, nd);
    assert GoodEntryOf(own, d, i, mem[d][i]) && GoodEntryOf(own, nd, i, mem[nd][i]);
    var next := mem[t := MarkLine(mem[t])][nt := CopyLine(mem[t], mem[nt])];
    RewriteTables(mem, next, own);
    forall c: nat, w: nat | IsDir(own, c) && w < NPAGES && (w / 1024 != i || (c != d && c != nd))
      ensures PteAt(next, c, w) == PteAt(mem, c, w)
    {
      if w >= USR_FIRST {
        assert GoodDir(mem, own, c);
        assert GoodEntryOf(own, c, w / 1024, mem[c][w / 1024]);
      }
    }
  }

  // The memory after one directory entry was forked into the fresh cleared frame n.
  function ForkedAt(mem: Memory, d: nat, nd: nat, i: nat, n: nat): Memory
    requires d < USR_FIRST && nd < USR_FIRST && n < USR_FIRST && i < 1024 && mem[d][i].base < USR_FIRST
  {
    var added := WriteLine(mem, nd, i, mem[d][i].(base := n));
    var t := mem[d][i].base;
    added[t := MarkLine(added[t])][n := CopyLine(added[t], added[n])]
  }

  // Directories keep their present entries, and page 0 stays.
  lemma ForkKeepsTables(mem: Memory, own: Owners, d: nat, nd: nat, i: nat, n: nat)
    requires WellFormed(mem, own) && IsDir(own, d) && IsDir(own, nd) && d != nd && 1 <= i < 1024 && mem[d][i].p
    requires n !in own && KRN_FIRST <= n < USR_FIRST && mem[d][i].base < USR_FIRST
    ensures var next := ForkedAt(mem, d, nd, i, n);
      next[0] == mem[0] && forall c: nat, k: nat | IsDir(own, c) && k < 1024 && mem[c][k].p :: next[c][k].p
  {
    assert GoodDir(mem, own, d);
    assert GoodEntryOf(own, d, i, mem[d][i]);
  }

  lemma ForkStep(mem: Memory, own: Owners, d: nat, nd: nat, i: nat, n: nat, sp: Space)
    requires WellFormed(mem, own) && IsDir(own, d) && IsDir(own, nd) && d != nd && 1 <= i < 1024 && mem[d][i].p
    requires n !in own && KRN_FIRST <= n < USR_FIRST && mem[n] == ZeroLine() && !mem[nd][i].p
    requires IsUser(own, nd) ==> IsUser(own, d)
    requires |sp.pte| == NPAGES && |sp.pde| == 1024
    requires SpaceOf(mem, d) == MarkedTo(sp, 1024 * i) && SpaceOf(mem, nd) == CopiedTo(sp, 1024 * i)
    ensures mem[d][i].base < USR_FIRST && mem[d][i].base != n && mem[d][i].base in own
    ensures var next, nown := ForkedAt(mem, d, nd, i, n), own[n := TableOf(nd, i)];
      && WellFormed(next, nown) && next[d] == mem[d]
      && SpaceOf(next, d) == MarkedTo(sp, 1024 * (i + 1))
      && SpaceOf(next, nd) == CopiedTo(sp, 1024 * (i + 1))
      && forall c: nat | IsDir(own, c) && c != d && c != nd :: SpaceOf(next, c) == SpaceOf(mem, c)
  {
    var e, nown := mem[d][i].(base := n), own[n := TableOf(nd, i)];
    assert GoodDir(mem, own, d);
    assert GoodEntryOf(own, d, i, mem[d][i]);
    AddTable(mem, own, nd, i, n, e);
    var added := WriteLine(mem, nd, i, e);
    ForkTables(added, nown, d, nd, i);
    var next := ForkedAt(mem, d, nd, i, n);
    assert next == added[added[d][i].base := MarkLine(added[added[d][i].base])][n := CopyLine(added[added[d][i].base], added[n])];
    ForkStepSpaces(mem, next, d, nd, i, sp);
    forall c: nat | IsDir(own, c) && c != d && c != nd ensures SpaceOf(next, c) == SpaceOf(mem, c) {
      assert IsDir(nown, c);
    }
  }

  // The spaces of parent and child from the entries that one step changes.
  lemma ForkStepSpaces(mem: Memory, next: Memory, d: nat, nd: nat, i: nat, sp: Space)
    requires d < USR_FIRST && nd < USR_FIRST && 1 <= i < 1024 && mem[d][i].p
    requires |sp.pte| == NPAGES && |sp.pde| == 1024
    requires SpaceOf(mem, d) == MarkedTo(sp, 1024 * i) && SpaceOf(mem, nd) == CopiedTo(sp, 1024 * i)
    requires forall k: nat | k < 1024 ::
      PdeAt(next, d, k) == PdeAt(mem, d, k) && PdeAt(next, nd, k) == if k == i then Table else PdeAt(mem, nd, k)
    requires forall w: nat | w < NPAGES && w / 1024 != i ::
      PteAt(next, d, w) == PteAt(mem, d, w) && PteAt(next, nd, w) == PteAt(mem, nd, w)
    requires forall w: nat | w < NPAGES && w / 1024 == i ::
      var e := PteAt(mem, d, w);
      PteAt(next, d, w) == (if e.p then ForkMark(e) else e) &&
      PteAt(next, nd, w) == (if e.p then ForkMark(e) else PteAt(mem, nd, w))
    ensures SpaceOf(next, d) == MarkedTo(sp, 1024 * (i + 1))
    ensures SpaceOf(next, nd) == CopiedTo(sp, 1024 * (i + 1))
  {
    forall w: nat | w < NPAGES
      ensures PteAt(next, d, w) == MarkedTo(sp, 1024 * (i + 1)).pte[w]
      ensures PteAt(next, nd, w) == CopiedTo(sp, 1024 * (i + 1)).pte[w]
    {
      assert SpaceOf(mem, d).pte[w] == PteAt(mem, d, w) && SpaceOf(mem, nd).pte[w] == PteAt(mem, nd, w);
    }
    forall k: nat | k < 1024
      ensures PdeAt(next, d, k) == MarkedTo(sp, 1024 * (i + 1)).pde[k]
      ensures PdeAt(next, nd, k) == CopiedTo(sp, 1024 * (i + 1)).pde[k]
    {
      assert SpaceOf(mem, d).pde[k] == PdeAt(mem, d, k) && SpaceOf(mem, nd).pde[k] == PdeAt(mem, nd, k);
    }
  }

  // An absent directory entry is skipped.
  lemma ForkSkip(mem: Memory, own: Owners, d: nat, nd: nat, i: nat, sp: Space)
    requires WellFormed(mem, own) && IsDir(own, d) && IsDir(own, nd) && i < 1024 && (i == 0 || !mem[d][i].p)
    requires |sp.pte| == NPAGES && |sp.pde| == 1024
    requires SpaceOf(mem, d) == MarkedTo(sp, 1024 * i) && SpaceOf(mem, nd) == CopiedTo(sp, 1024 * i)
    ensures SpaceOf(mem, d) == MarkedTo(sp, 1024 * (i + 1))
    ensures SpaceOf(mem, nd) == CopiedTo(sp, 1024 * (i + 1))
  {
    forall w: nat | w < NPAGES && w / 1024 == i ensures sp.pte[w] == ZERO {
      assert SpaceOf(mem, d).pte[w] == PteAt(mem, d, w) == ZERO;
    }
    assert SpaceOf(mem, d).pde[i] == PdeAt(mem, d, i);
    assert MarkedTo(sp, 1024 * i).pte == MarkedTo(sp, 1024 * (i + 1)).pte;
    assert CopiedTo(sp, 1024 * i).pte == CopiedTo(sp, 1024 * (i + 1)).pte;
    assert CopiedTo(sp, 1024 * i).pde == CopiedTo(sp, 1024 * (i + 1)).pde;
  }

  lemma ForkStart(mem: Memory, d: nat, nd: nat)
    requires d < USR_FIRST && nd < USR_FIRST && SpaceOf(mem, nd) == NoSpace()
    ensures SpaceOf(mem, d) == MarkedTo(SpaceOf(mem, d), 0) && SpaceOf(mem, nd) == CopiedTo(SpaceOf(mem, d), 0)
  {
    assert MarkedTo(SpaceOf(mem, d), 0).pte == SpaceOf(mem, d).pte;
    assert CopiedTo(SpaceOf(mem, d), 0).pte == NoSpace().pte && CopiedTo(SpaceOf(mem, d), 0).pde == NoSpace().pde;
  }

  // The mappings sys_fork adds to a copied directory, and to the parent's.
  lemma ForkSpaces(sp: Space, f3: Frame, f0: Frame)
    requires |sp.pte| == NPAGES && |sp.pde| == 1024
    ensures SetEntry(SetEntry(CopiedTo(sp, NPAGES), STACK_3, UserEntry(f3)), STACK_0, SystemEntry(f0)) == ForkChild(sp, f3, f0)
    ensures SetEntry(MarkedTo(sp, NPAGES), TEMP, TempLeft(f3, false)) == ForkParent(sp, f3)
  {
    var child := SetEntry(SetEntry(CopiedTo(sp, NPAGES), STACK_3, UserEntry(f3)), STACK_0, SystemEntry(f0));
    assert child.pte == ForkChild(sp, f3, f0).pte && child.pde == ForkChild(sp, f3, f0).pde;
    var parent := SetEntry(MarkedTo(sp, NPAGES), TEMP, TempLeft(f3, false));
    assert parent.pte == ForkParent(sp, f3).pte;
  }

  lemma SetEntryTwice(sp: Space, v: nat, e: Entry, g: Entry)
    requires v < |sp.pte| && v / 1024 < |sp.pde|
    ensures SetEntry(SetEntry(sp, v, e), v, g) == SetEntry(sp, v, g)
  {
    assert sp.pte[v := e][v := g] == sp.pte[v := g];
    assert SetEntry(SetEntry(sp, v, e), v, g).pde == SetEntry(sp, v, g).pde;
  }

  // A new process registered in the task table, p's own space changed.
  lemma SpacesAdd(mem: Memory, next: Memory, cr3: seq<nat>, p: nat, c: nat, nd: nat)
    requires InRange(cr3) && p < |cr3| && cr3[p] != 0 && c < |cr3| && cr3[c] == 0 && 0 < nd < USR_FIRST
    requires forall q: nat | q < |cr3| && cr3[q] != 0 && q != p :: SpaceOf(next, cr3[q]) == SpaceOf(mem, cr3[q])
    ensures InRange(cr3[c := nd])
    ensures SpacesOf(next, cr3[c := nd]) == SpacesOf(mem, cr3)[p := SpaceOf(next, cr3[p])][c := SpaceOf(next, nd)]
  {}

  // ---------------------------------------------------------------- exit

  // The two memories differ in present bits at most.
  ghost predicate SameBases(mem: Memory, mem0: Memory) {
    forall f, k | 0 <= f < USR_FIRST && 0 <= k < 1024 :: mem[f][k].base == mem0[f][k].base
  }

  // Every registered directory has a kernel frame at index i, present or not.
  ghost predicate BasesAt(mem: Memory, cr3: seq<nat>, i: nat)
    requires i < 1024
  {
    InRange(cr3) && forall p | 0 <= p < |cr3| && cr3[p] != 0 :: mem[cr3[p]][i].base < USR_FIRST
  }

  lemma BasesInRange(mem: Memory, own: Owners, cr3: seq<nat>, i: nat)
    requires WellFormed(mem, own) && 1 <= i < 1024
    requires forall p | 0 <= p < |cr3| && cr3[p] != 0 :: IsDir(own, cr3[p])
    ensures BasesAt(mem, cr3, i)
  {
    forall p | 0 <= p < |cr3| && cr3[p] != 0 ensures mem[cr3[p]][i].base < USR_FIRST {
      assert GoodDir(mem, own, cr3[p]);
      assert GoodEntryOf(own, cr3[p], i, mem[cr3[p]][i]);
    }
  }

  lemma {:induction false} SameCounted(mem: Memory, mem0: Memory, cr3: seq<nat>, f: nat, i: nat, j: nat, n: nat)
    requires SameBases(mem, mem0) && i < 1024 && j < 1024
    ensures RawCounted(mem, cr3, f, i, j, n) == RawCounted(mem0, cr3, f, i, j, n)
  {
    if n > 0 {
      SameCounted(mem, mem0, cr3, f, i, j, n - 1);
      assert Hit(mem, cr3, f, i, j, n - 1) == Hit(mem0, cr3, f, i, j, n - 1);
    }
  }

  // mm_table_free releases the frame of page v of directory d.
  ghost predicate Releases(mem: Memory, cr3: seq<nat>, d: nat, v: nat)
    requires d < USR_FIRST && v < NPAGES
  {
    var e := PteAt(mem, d, v);
    e.p && !((e.sh || e.cow) && |RawCounted(mem, cr3, e.base, v / 1024, v % 1024, |cr3|)| > 1)
  }

  // The frame released for page v of directory d, if any.
  ghost function Gone(mem: Memory, cr3: seq<nat>, d: nat, v: nat): set<Frame>
    requires d < USR_FIRST && v < NPAGES
  {
    if Releases(mem, cr3, d, v) then {PteAt(mem, d, v).base} else {}
  }

  lemma GoneAt(mem: Memory, cr3: seq<nat>, d: nat, i: nat, j: nat, v: nat)
    requires v == 1024 * i + j && d < USR_FIRST && 1 <= i < 1024 && j < 1024 && mem[d][i].p && mem[d][i].base < USR_FIRST
    ensures var e := mem[mem[d][i].base][j];
      Gone(mem, cr3, d, v) ==
        if e.p && !((e.sh || e.cow) && |RawCounted(mem, cr3, e.base, i, j, |cr3|)| > 1) then {e.base} else {}
  {
    assert v / 1024 == i && v % 1024 == j;
  }

  // What is released page by page, and what is left of a set of frames below page hi.
  ghost function Plan(mem: Memory, cr3: seq<nat>, d: nat): (r: seq<set<Frame>>)
    requires d < USR_FIRST
    ensures |r| == NPAGES && forall v | 0 <= v < NPAGES :: r[v] == Gone(mem, cr3, d, v)
  {
    seq(NPAGES, v requires 0 <= v < NPAGES => Gone(mem, cr3, d, v))
  }

  ghost function Left(frames: set<Frame>, plan: seq<set<Frame>>, hi: nat): set<Frame>
    requires hi <= |plan|
  {
    if hi == 0 then frames else Left(frames, plan, hi - 1) - plan[hi - 1]
  }

  lemma LeftStep(frames: set<Frame>, plan: seq<set<Frame>>, n: nat)
    requires n < |plan|
    ensures Left(frames, plan, n + 1) == Left(frames, plan, n) - plan[n]
  {}

  lemma {:induction false} InLeft(frames: set<Frame>, plan: seq<set<Frame>>, hi: nat, f: Frame)
    requires hi <= |plan|
    ensures f in Left(frames, plan, hi) <==> f in frames && forall v | 0 <= v < hi :: f !in plan[v]
  {
    if 0 < hi { InLeft(frames, plan, hi - 1, f); }
  }

  lemma {:induction false} NothingGone(frames: set<Frame>, plan: seq<set<Frame>>, lo: nat, hi: nat)
    requires lo <= hi <= |plan| && forall v | lo <= v < hi :: plan[v] == {}
    ensures Left(frames, plan, hi) == Left(frames, plan, lo)
  {
    if lo < hi { NothingGone(frames, plan, lo, hi - 1); }
  }

  // Pages without a table release nothing.
  lemma NoTableNothingGone(mem: Memory, cr3: seq<nat>, d: nat, i: nat)
    requires d < USR_FIRST && i < 1024 && (i == 0 || !mem[d][i].p)
    ensures forall v | 1024 * i <= v < 1024 * (i + 1) :: Gone(mem, cr3, d, v) == {}
  {
    assert forall v | 1024 * i <= v < 1024 * (i + 1) :: v / 1024 == i;
  }

  // The table frames of directory d.
  ghost function TableFrames(mem: Memory, d: nat): set<Frame>
    requires d < USR_FIRST
  {
    set i | 1 <= i < 1024 && mem[d][i].p :: mem[d][i].base
  }

  // The table of each directory index, if any.
  ghost function TablePlan(mem: Memory, d: nat): (r: seq<set<Frame>>)
    requires d < USR_FIRST
    ensures |r| == 1024
    ensures forall i | 0 <= i < 1024 :: r[i] == if i > 0 && mem[d][i].p then {mem[d][i].base} else {}
  {
    seq(1024, i requires 0 <= i < 1024 => if i > 0 && mem[d][i].p then {mem[d][i].base} else {})
  }

  lemma AllTablesLeft(frames: set<Frame>, mem: Memory, d: nat)
    requires d < USR_FIRST
    ensures Left(frames, TablePlan(mem, d), 1024) == frames - TableFrames(mem, d)
  {
    forall f ensures f in Left(frames, TablePlan(mem, d), 1024) <==> f in frames && f !in TableFrames(mem, d) {
      InLeft(frames, TablePlan(mem, d), 1024, f);
    }
  }

  // The owners left when directory d is gone.
  ghost function Without(own: Owners, d: nat): Owners {
    map f | f in own && f != d && (own[f].TableOf? ==> own[f].dir != d) :: own[f]
  }

  // With d and its tables given up, the other directories are as they were.
  lemma GiveUp(mem: Memory, mem0: Memory, own: Owners, d: nat)
    requires WellFormed(mem0, own) && IsDir(own, d)
    requires forall f | 0 <= f < USR_FIRST && f != d && !(f in own && own[f].TableOf? && own[f].dir == d) :: mem[f] == mem0[f]
    ensures WellFormed(mem, Without(own, d))
    ensures forall c: nat | IsDir(own, c) && c != d :: IsDir(Without(own, d), c) && SpaceOf(mem, c) == SpaceOf(mem0, c)
  {
    var nown := Without(own, d);
    forall c: nat | IsDir(nown, c) ensures GoodDir(mem, nown, c) {
      assert GoodDir(mem0, own, c);
      forall k | 1 <= k < 1024 ensures GoodEntryOf(nown, c, k, mem[c][k]) {
        assert GoodEntryOf(own, c, k, mem0[c][k]);
      }
    }
    forall c: nat, w: nat | IsDir(own, c) && c != d && USR_FIRST <= w < NPAGES ensures PteAt(mem, c, w) == PteAt(mem0, c, w) {
      assert GoodDir(mem0, own, c);
      assert GoodEntryOf(own, c, w / 1024, mem0[c][w / 1024]);
    }
  }

  // A process removed from the task table with its directory.
  lemma SpacesRemove(mem: Memory, mem0: Memory, cr3: seq<nat>, p: nat)
    requires InRange(cr3) && p < |cr3|
    requires forall q: nat | q < |cr3| && cr3[q] != 0 && q != p :: SpaceOf(mem, cr3[q]) == SpaceOf(mem0, cr3[q])
    ensures InRange(cr3[p := 0]) && SpacesOf(mem, cr3[p := 0]) == SpacesOf(mem0, cr3) - {p}
  {}
}
