// FAT12 (fat12.c): the table entry of a cluster as the kernel and the boot loader decode
// it, the loading of the first seven sectors of a file, and reads from them. Clusters are
// one sector long.
module Fat12 {
  import opened Words

  type Byte = bv8

  const SECTOR := 512                  // FAT12_SECT_SIZE
  const FIRST := 3584 // seven sectors

  // ---------------------------------------------------------------- the two decoders

  // The two fields of 12 bits packed in three bytes, from the bytes they lie in.
  function EvenField(x: Byte, y: Byte): bv16 { (x as bv16) | (((y as bv16) & 0xF) << 8) }

  function OddField(x: Byte, y: Byte): bv16 { ((x as bv16) >> 4) | ((y as bv16) << 4) }

  // fat12_next_sector.
  function NextSector(fat: seq<Byte>, index: nat): bv16
    requires 3 * (index / 2) + 2 < |fat|
  {
    var o := 3 * (index / 2);
    if index % 2 == 1 then OddField(fat[o + 1], fat[o + 2]) else EvenField(fat[o], fat[o + 1])
  }

  // The kernel load loop of the boot loader: a 16-bit address, the word there, shifted down
  // for odd clusters, and the top four bits cleared.
  function BootAddress(index: nat): nat { (index + index / 2) % 0x1_0000 }

  function BootField(x: Byte, y: Byte, odd: bool): bv16 {
    var word := (x as bv16) | ((y as bv16) << 8);
    (if odd then word >> 4 else word) & 0xFFF
  }

  function BootNext(fat: seq<Byte>, index: nat): bv16
    requires BootAddress(index) + 1 < |fat|
  {
    var a := BootAddress(index);
    BootField(fat[a], fat[a + 1], index % 2 == 1)
  }

  lemma Halves(index: nat)
    ensures index + index / 2 == 3 * (index / 2) + index % 2
  {
  }

  lemma FieldsAgree(x: Byte, y: Byte)
    ensures EvenField(x, y) == BootField(x, y, false) && OddField(x, y) == BootField(x, y, true)
  {
  }

  // They agree on every table.
  lemma DecodersAgree(fat: seq<Byte>, index: nat)
    requires index + index / 2 < 0x1_0000 && 3 * (index / 2) + 2 < |fat|
    ensures NextSector(fat, index) == BootNext(fat, index)
  {
    Halves(index);
    hide EvenField, OddField, BootField;
    var o := 3 * (index / 2);
    FieldsAgree(fat[o], fat[o + 1]);
    FieldsAgree(fat[o + 1], fat[o + 2]);
  }

  // Two entries in three bytes, low bits first.
  function Low(a: bv16): Byte { (a & 0xFF) as Byte }

  function Middle(a: bv16, b: bv16): Byte { ((a >> 8) & 0xF) as Byte | ((b & 0xF) << 4) as Byte }

  function High(b: bv16): Byte { ((b >> 4) & 0xFF) as Byte }

  function Packed(es: seq<bv16>): (fat: seq<Byte>)
    requires |es| % 2 == 0
    ensures 2 * |fat| == 3 * |es|
  {
    if es == [] then [] else [Low(es[0]), Middle(es[0], es[1]), High(es[1])] + Packed(es[2..])
  }

  lemma FieldsBack(a: bv16, b: bv16)
    requires a < 0x1000 && b < 0x1000
    ensures EvenField(Low(a), Middle(a, b)) == a && OddField(Middle(a, b), High(b)) == b
  {
  }

  // The entry of a cluster is read back from the table.
  lemma {:induction false} EntryBack(es: seq<bv16>, index: nat)
    requires |es| % 2 == 0 && index < |es| && forall i | 0 <= i < |es| :: es[i] < 0x1000
    ensures 3 * (index / 2) + 2 < |Packed(es)| && NextSector(Packed(es), index) == es[index]
    decreases |es|
  {
    FieldsBack(es[0], es[1]);
    hide EvenField, OddField, Low, Middle, High;
    if index >= 2 {
      EntryBack(es[2..], index - 2);
      assert (index - 2) / 2 == index / 2 - 1;
    }
  }

  // All the bytes of memory that a 16-bit cluster number can reach from the table.
  const REACH := 0x1_8000

  // A table of zeros with three bytes set.
  function Probe(o: nat): seq<Byte> {
    seq(REACH, i => if o <= i < o + 3 then 0xFF as Byte else 0)
  }

  // For any 16-bit cluster number: the decoders agree on all tables exactly when the boot
  // loader's address does not wrap around. Cluster numbers of FAT12 are far below that.
  lemma AgreeExactly(index: nat)
    requires index < 0x1_0000
    ensures (forall fat: seq<Byte> | |fat| >= REACH :: NextSector(fat, index) == BootNext(fat, index)) <==>
            index + index / 2 < 0x1_0000
  {
    Halves(index);
    if index + index / 2 < 0x1_0000 {
      forall fat: seq<Byte> | |fat| >= REACH ensures NextSector(fat, index) == BootNext(fat, index) {
        DecodersAgree(fat, index);
      }
    } else {
      var o := 3 * (index / 2);
      var fat := Probe(o);
      assert BootAddress(index) == index + index / 2 - 0x1_0000;
      assert fat[BootAddress(index)] == 0 && fat[BootAddress(index) + 1] == 0;
      assert fat[o] == 0xFF && fat[o + 1] == 0xFF && fat[o + 2] == 0xFF;
      AllOnes();
      hide EvenField, OddField, BootField;
      assert NextSector(fat, index) != BootNext(fat, index);
    }
  }

  lemma AllOnes()
    ensures OddField(0xFF, 0xFF) != 0 && EvenField(0xFF, 0xFF) != 0
    ensures forall odd :: BootField(0, 0, odd) == 0
  {
  }

  // ---------------------------------------------------------------- opening a file

  // The fields of the boot sector that place the data area.
  datatype BootSector = BootSector(reserved: nat, fatCount: nat, sectorsPerFat: nat, maxRootEntries: nat)

  // dataStart is a uint16.
  function DataStart(b: BootSector): nat {
    (b.reserved + b.fatCount * b.sectorsPerFat + b.maxRootEntries * 32 / SECTOR - 2) % 0x1_0000
  }

  function NextCluster(fat: seq<Byte>, sector: nat): (next: nat)
    requires sector < 0x1_0000 && |fat| >= REACH
    ensures next < 0x1_0000
  {
    NextSector(fat, sector) as nat
  }

  // The first n clusters of the chain that starts at sector.
  function Chain(fat: seq<Byte>, sector: nat, n: nat): (c: seq<nat>)
    requires sector < 0x1_0000 && |fat| >= REACH
    ensures |c| == n
    decreases n
  {
    if n == 0 then [] else [sector] + Chain(fat, NextCluster(fat, sector), n - 1)
  }

  // The sectors loaded for a file of the given size.
  function SectorCount(size: nat): nat {
    if size > 7 * SECTOR then 7 else size / SECTOR + (if size % SECTOR > 0 then 1 else 0)
  }

  // The sector behind the reserved ones, the tables and the root directory, which holds 16
  // entries in a sector.
  function BehindRoot(b: BootSector): nat { b.reserved + b.fatCount * b.sectorsPerFat + b.maxRootEntries / 16 }

  // Cluster 2 is that sector exactly when it has a number a uint16 can be off by 2.
  lemma DataStartExactly(b: BootSector)
    ensures DataStart(b) + 2 == BehindRoot(b) <==> 2 <= BehindRoot(b) < 0x1_0002
  {
    assert b.maxRootEntries * 32 / SECTOR == b.maxRootEntries / 16;
    var x: int := BehindRoot(b) - 2;
    assert x % 0x1_0000 == x <==> 0 <= x < 0x1_0000;
  }

  // The sectors are as few as hold the size, but seven if those do not hold it.
  lemma SectorCountLeast(size: nat, n: nat)
    ensures if size > FIRST then SectorCount(size) == 7 else SECTOR * n >= size <==> n >= SectorCount(size)
  {
  }

  // A disk of sectors; reading past its end is an error.
  predicate IsDisk(disk: seq<seq<Byte>>) { forall i | 0 <= i < |disk| :: |disk[i]| == SECTOR }

  // The contents of a list of clusters.
  function Contents(disk: seq<seq<Byte>>, start: nat, c: seq<nat>): (r: seq<Byte>)
    requires IsDisk(disk) && forall i | 0 <= i < |c| :: start + c[i] < |disk|
    ensures |r| == SECTOR * |c|
  {
    if c == [] then [] else disk[start + c[0]] + Contents(disk, start, c[1..])
  }

  ghost predicate OnDisk(disk: seq<seq<Byte>>, start: nat, c: seq<nat>) {
    forall i | 0 <= i < |c| :: start + c[i] < |disk|
  }

  // The bytes of a file of at most seven sectors: its chain, cut at its size.
  function FileBytes(disk: seq<seq<Byte>>, fat: seq<Byte>, b: BootSector, first: nat, size: nat): (r: seq<Byte>)
    requires IsDisk(disk) && first < 0x1_0000 && |fat| >= REACH && size <= FIRST
    requires OnDisk(disk, DataStart(b), Chain(fat, first, SectorCount(size)))
    ensures |r| == size
  {
    Contents(disk, DataStart(b), Chain(fat, first, SectorCount(size)))[..size]
  }

  lemma {:induction false} ContentsSnoc(disk: seq<seq<Byte>>, start: nat, c: seq<nat>, i: nat)
    requires IsDisk(disk) && OnDisk(disk, start, c) && i < |c|
    ensures Contents(disk, start, c[..i + 1]) == Contents(disk, start, c[..i]) + disk[start + c[i]]
    decreases i
  {
    if i == 0 {
      assert c[..1] == [c[0]] && c[..1][1..] == [];
    } else {
      assert c[..i + 1][1..] == c[1..][..i] && c[..i][1..] == c[1..][..i - 1];
      ContentsSnoc(disk, start, c[1..], i - 1);
    }
  }

  // ---------------------------------------------------------------- reads

  function Min(a: int, b: int): int { if a < b then a else b }

  // What a read of n bytes at a cursor should give: the next bytes, cut at the end.
  function Next(content: seq<Byte>, cursor: nat, n: nat): seq<Byte>
    requires cursor <= |content|
  {
    content[cursor..Min(cursor + n, |content|)]
  }

  function Sum(ns: seq<UInt32>): nat { if ns == [] then 0 else ns[0] + Sum(ns[1..]) }

  // Successive reads, joined.
  function Successive(content: seq<Byte>, cursor: nat, ns: seq<UInt32>): seq<Byte>
    requires cursor <= |content|
    decreases |ns|
  {
    if ns == [] then [] else Next(content, cursor, ns[0]) + Successive(content, Min(cursor + ns[0], |content|), ns[1..])
  }

  lemma NextJoin(content: seq<Byte>, cursor: nat, n: nat, m: nat)
    requires cursor <= |content|
    ensures Next(content, cursor, n) + Next(content, Min(cursor + n, |content|), m) == Next(content, cursor, n + m)
  {
    var a, z := Min(cursor + n, |content|), Min(cursor + n + m, |content|);
    assert content[cursor..a] + content[a..z] == content[cursor..z];
  }

  // They are consecutive: together they are one read of all the bytes asked for.
  lemma {:induction false} ReadsAreConsecutive(content: seq<Byte>, cursor: nat, ns: seq<UInt32>)
    requires cursor <= |content|
    ensures Successive(content, cursor, ns) == Next(content, cursor, Sum(ns))
    decreases |ns|
  {
    if ns == [] {
      assert Next(content, cursor, 0) == [];
    } else {
      hide Next;
      var c := Min(cursor + ns[0], |content|);
      assert Successive(content, cursor, ns) == Next(content, cursor, ns[0]) + Successive(content, c, ns[1..]);
      hide Successive;
      ReadsAreConsecutive(content, c, ns[1..]);
      NextJoin(content, cursor, ns[0], Sum(ns[1..]));
    }
  }

  // No sum of a size asked for and a cursor wraps around.
  predicate Unwrapped(cursor: nat, size: nat, ns: seq<UInt32>)
    decreases |ns|
  {
    ns == [] || (ns[0] + cursor < TWO_32 && Unwrapped(Min(cursor + ns[0], size), size, ns[1..]))
  }

  // That holds whenever no single size is within 3584 bytes of 2^32.
  lemma {:induction false} ModestSizes(cursor: nat, size: nat, ns: seq<UInt32>)
    requires cursor <= size <= FIRST && forall i | 0 <= i < |ns| :: ns[i] < TWO_32 - FIRST
    ensures Unwrapped(cursor, size, ns)
    decreases |ns|
  {
    if ns != [] { ModestSizes(Min(cursor + ns[0], size), size, ns[1..]); }
  }

  // The count after lines 58-61 with 32-bit arithmetic.
  function Cut(n: UInt32, cursor: UInt32, size: UInt32): UInt32 {
    if ToUInt32(n + cursor) > size then ToUInt32(size - cursor) else n
  }

  lemma CutIsExact(n: UInt32, cursor: UInt32, size: UInt32)
    requires cursor <= FIRST && size <= FIRST
    ensures cursor <= size && n + cursor < TWO_32 ==> cursor + Cut(n, cursor, size) == Min(cursor + n, size)
    ensures cursor > size || n + cursor >= TWO_32 ==> Cut(n, cursor, size) > FIRST
  {
  }

  // The k-th of the reads left.
  lemma TakeOne(cursor: nat, size: nat, ns: seq<UInt32>, k: nat)
    requires k < |ns|
    ensures Sum(ns[k..]) == ns[k] + Sum(ns[k + 1..])
    ensures Unwrapped(cursor, size, ns[k..]) <==> ns[k] + cursor < TWO_32 && Unwrapped(Min(cursor + ns[k], size), size, ns[k + 1..])
  {
    assert ns[k..][1..] == ns[k + 1..];
  }

  // Bytes of the data before the end of the file are bytes of the file.
  lemma Slice(data: seq<Byte>, size: nat, cursor: nat, n: nat)
    requires cursor <= size <= |data|
    ensures data[cursor..Min(cursor + n, size)] == Next(data[..size], cursor, n)
  {
  }

  // How a read ends: with a count, or in the page tables behind the seventh sector.
  datatype Outcome = Done(count: nat) | InPages

  class ChardevFile {
    var cursor: UInt32
    var size: UInt32
    const data: array<Byte> // the seven sectors behind the structure

    constructor (fileSize: UInt32, page: array<Byte>)
      ensures cursor == 0 && size == fileSize && data == page
    {
      cursor, size, data := 0, fileSize, page;
    }

    // fat12_open once the directory entry is found; a disk error leaves no file.
    static method Open(disk: seq<seq<Byte>>, fat: seq<Byte>, b: BootSector, first: nat, fileSize: UInt32)
      returns (file: ChardevFile?)
      requires IsDisk(disk) && first < 0x1_0000 && |fat| >= REACH
      ensures file == null <==> !OnDisk(disk, DataStart(b), Chain(fat, first, SectorCount(fileSize)))
      ensures file != null ==> fresh(file) && file.cursor == 0 && file.size == fileSize && file.data.Length == FIRST
      ensures file != null && fileSize <= FIRST ==>
        file.Valid() && file.data[..fileSize] == FileBytes(disk, fat, b, first, fileSize)
    {
      var page := new Byte[FIRST](_ => 0);
      var sectCount := SectorCount(fileSize);
      var ok := LoadSectors(page, disk, fat, DataStart(b), first, sectCount);
      if !ok { return null; }
      file := new ChardevFile(fileSize, page);
    }

    ghost predicate Valid()
      reads this
    {
      data.Length == FIRST && cursor <= FIRST && size <= FIRST
    }

    // chardev_file_seek within the first seven sectors, beyond the end of the file as well.
    method Seek(pos: UInt32) returns (st: UInt32)
      requires Valid() && pos < FIRST
      modifies `cursor
      ensures Valid() && cursor == st == pos
    {
      cursor := pos;
      st := pos;
    }

    // The part of chardev_file_mov (to the buffer) for files of at most seven sectors. With
    // 32-bit arithmetic the cut at the end of the file works exactly while the cursor is not
    // behind the end and size + cursor does not wrap around; otherwise the whole seven sectors
    // are read, past the end of the file, before the page tables, even for no bytes.
    method Read(n: UInt32) returns (r: Outcome, got: seq<Byte>)
      requires Valid()
      modifies `cursor
      ensures r.Done? <==> old(cursor) <= size && n + old(cursor) < TWO_32
      ensures r.Done? ==> got == Next(data[..size], old(cursor), n) && r.count == |got|
      ensures Valid() && (r.Done? ==> cursor == Min(old(cursor) + n, size))
      ensures r.InPages? ==> got == data[old(cursor)..] && cursor == FIRST
    {
      CutIsExact(n, cursor, size);
      if cursor <= size { Slice(data[..], size, cursor, n); }
      assert data[..][..size] == data[..size];
      var count := n;
      if ToUInt32(n + cursor) > size {
        count := ToUInt32(size - cursor);
      }
      assert count == Cut(n, cursor, size);
      hide Cut, Next, ToUInt32;
      var i := 0;
      got := [];
      if cursor < FIRST {
        i, got := FirstSectors(count);
        if i == count { return Done(count), got; }
        return InPages, got;
      }
      if i == count { return Done(count), got; }
      return InPages, got;
    }

    // Lines 64-79.
    method FirstSectors(count: UInt32) returns (i: nat, got: seq<Byte>)
      requires data.Length == FIRST && cursor <= FIRST
      modifies `cursor
      ensures i == Min(count, FIRST - old(cursor)) && cursor == old(cursor) + i && got == data[old(cursor)..cursor]
    {
      ghost var start := cursor;
      i, got := 0, [];
      while i < count && cursor < FIRST
        invariant 0 <= i <= count && cursor == start + i <= FIRST
        invariant got == data[start..cursor]
      {
        got := got + [data[cursor]];
        cursor := cursor + 1;
        i := i + 1;
      }
    }

    // Reads of these sizes one after the other.
    method ReadAll(ns: seq<UInt32>) returns (ok: bool, got: seq<Byte>)
      requires Valid() && cursor <= size
      modifies `cursor
      ensures ok <==> Unwrapped(old(cursor), size, ns)
      ensures ok ==> Valid() && got == Next(data[..size], old(cursor), Sum(ns))
    {
      ghost var content, start: nat, total: nat := data[..size], cursor, 0;
      got := [];
      assert ns[0..] == ns;
      for k := 0 to |ns|
        invariant Valid() && cursor == Min(start + total, size) && got == Next(content, start, total)
        invariant total + Sum(ns[k..]) == Sum(ns)
        invariant Unwrapped(cursor, size, ns[k..]) <==> Unwrapped(start, size, ns)
      {
        TakeOne(cursor, size, ns, k);
        NextJoin(content, start, total, ns[k]);
        hide Next, Sum, Unwrapped;
        var r, bytes := Read(ns[k]);
        if r.InPages? { return false, got; }
        got, total := got + bytes, total + ns[k];
      }
      ok := true;
    }

    // A file of at most seven sectors opened and read: the bytes are those of its chain.
    static method OpenAndRead(disk: seq<seq<Byte>>, fat: seq<Byte>, b: BootSector, first: nat, fileSize: UInt32, ns: seq<UInt32>)
      returns (ok: bool, got: seq<Byte>)
      requires IsDisk(disk) && first < 0x1_0000 && |fat| >= REACH && fileSize <= FIRST
      ensures ok <==> OnDisk(disk, DataStart(b), Chain(fat, first, SectorCount(fileSize))) && Unwrapped(0, fileSize, ns)
      ensures ok ==> got == Next(FileBytes(disk, fat, b, first, fileSize), 0, Sum(ns))
    {
      got := [];
      var file := Open(disk, fat, b, first, fileSize);
      if file == null { return false, got; }
      ok, got := file.ReadAll(ns);
    }
  }

  // One step along the chain c.
  lemma ChainHead(fat: seq<Byte>, sector: nat, c: seq<nat>, i: nat)
    requires sector < 0x1_0000 && |fat| >= REACH && i < |c| && Chain(fat, sector, |c| - i) == c[i..]
    ensures c[i] == sector && Chain(fat, NextCluster(fat, sector), |c| - i - 1) == c[i + 1..]
  {
    var rest := Chain(fat, NextCluster(fat, sector), |c| - i - 1);
    assert c[i..] == [sector] + rest;
    assert c[i] == c[i..][0] && c[i + 1..] == c[i..][1..] == rest;
  }

  lemma ContentsNext(disk: seq<seq<Byte>>, start: nat, c: seq<nat>, i: nat)
    requires IsDisk(disk) && i < |c| && OnDisk(disk, start, c[..i]) && start + c[i] < |disk|
    ensures OnDisk(disk, start, c[..i + 1])
    ensures Contents(disk, start, c[..i + 1]) == Contents(disk, start, c[..i]) + disk[start + c[i]]
  {
    assert c[..i + 1][..i] == c[..i] && c[..i + 1][..i + 1] == c[..i + 1];
    assert forall j | 0 <= j < i :: c[..i + 1][j] == c[..i][j];
    ContentsSnoc(disk, start, c[..i + 1], i);
  }

  lemma EmptyContents(disk: seq<seq<Byte>>, start: nat, c: seq<nat>)
    requires IsDisk(disk)
    ensures c[..0] == [] && c[0..] == c && Contents(disk, start, []) == [] && OnDisk(disk, start, [])
  {
  }

  // The loop of fat12_open over the first sectors (lines 233-241).
  method LoadSectors(page: array<Byte>, disk: seq<seq<Byte>>, fat: seq<Byte>, dataStart: nat, first: nat, count: nat)
    returns (ok: bool)
    requires IsDisk(disk) && first < 0x1_0000 && |fat| >= REACH && SECTOR * count <= page.Length
    modifies page
    ensures ok <==> OnDisk(disk, dataStart, Chain(fat, first, count))
    ensures ok ==> page[..SECTOR * count] == Contents(disk, dataStart, Chain(fat, first, count))
  {
    var sector, at := first, 0;
    ghost var c := Chain(fat, first, count);
    hide Contents, Chain, OnDisk, NextCluster;
    EmptyContents(disk, dataStart, c);
    for i := 0 to count
      invariant sector < 0x1_0000 && at == SECTOR * i && Chain(fat, sector, count - i) == c[i..]
      invariant OnDisk(disk, dataStart, c[..i]) && page[..at] == Contents(disk, dataStart, c[..i])
    {
      ChainHead(fat, sector, c, i);
      ok := LoadSector(page, at, disk, dataStart, sector, c, i);
      if !ok { return; }
      sector, at := NextCluster(fat, sector), at + SECTOR;
    }
    assert c[..count] == c;
    ok := true;
  }

  // Lines 234-238.
  method LoadSector(page: array<Byte>, at: nat, disk: seq<seq<Byte>>, dataStart: nat, sector: nat, ghost c: seq<nat>, ghost i: nat)
    returns (ok: bool)
    requires IsDisk(disk) && i < |c| && c[i] == sector && at + SECTOR <= page.Length
    requires OnDisk(disk, dataStart, c[..i]) && page[..at] == Contents(disk, dataStart, c[..i])
    modifies page
    ensures if ok then OnDisk(disk, dataStart, c[..i + 1]) && page[..at + SECTOR] == Contents(disk, dataStart, c[..i + 1])
            else !OnDisk(disk, dataStart, c)
  {
    hide Contents;
    if dataStart + sector >= |disk| {
      OffDisk(disk, dataStart, c, i);
      return false;
    }
    CopySector(page, at, disk[dataStart + sector]);
    ContentsNext(disk, dataStart, c, i);
    ok := true;
  }

  lemma OffDisk(disk: seq<seq<Byte>>, start: nat, c: seq<nat>, i: nat)
    requires i < |c| && start + c[i] >= |disk|
    ensures !OnDisk(disk, start, c)
  {
  }

  // One sector from the disk into the page.
  method CopySector(page: array<Byte>, at: nat, sector: seq<Byte>)
    requires at + |sector| <= page.Length
    modifies page
    ensures page[..] == old(page[..at]) + sector + old(page[at + |sector|..])
    ensures page[..at + |sector|] == old(page[..at]) + sector
  {
    ghost var before := page[..];
    for k := 0 to |sector|
      invariant forall j | 0 <= j < page.Length :: page[j] == if at <= j < at + k then sector[j - at] else before[j]
    {
      page[at + k] := sector[k];
    }
  }
}
