// The memory below 4 MB that holds directories and tables, as the words mm.c reads and
// writes. `mem` is the same memory as records; every method is one store of mm.c with its
// masks.
module PageWords {
  import opened PageEntries
  import opened VirtualMemory
  import opened Tables

  type WordLine = s: seq<bv32> | |s| == 1024 witness seq(1024, i => 0 as bv32)
  type WordMemory = s: seq<WordLine> | |s| == USR_FIRST witness seq(USR_FIRST, i => seq(1024, j => 0 as bv32))

  function ZeroWords(): WordMemory { seq(USR_FIRST, i => seq(1024, j => 0 as bv32)) }

  // The records of a memory of words.
  ghost function Decoded(words: WordMemory): Memory {
    seq(USR_FIRST, f requires 0 <= f < USR_FIRST => seq(1024, i requires 0 <= i < 1024 => EntryOf(words[f][i])))
  }

  ghost function LineOf(words: WordLine): Line { seq(1024, i requires 0 <= i < 1024 => EntryOf(words[i])) }

  lemma FirstLine(low: WordLine)
    ensures Decoded(ZeroWords()[0 := low])[0] == LineOf(low)
  {
    hide EntryOf;
  }

  class PageWords {
    var words: WordMemory
    ghost var mem: Memory

    ghost predicate Ok()
      reads this
    {
      forall f, i {:trigger words[f][i]} | 0 <= f < USR_FIRST && 0 <= i < 1024 :: mem[f][i] == EntryOf(words[f][i])
    }

    // Physical page 0 as given, zeros elsewhere.
    constructor (low: WordLine)
      ensures Ok() && mem == Decoded(ZeroWords()[0 := low])
    {
      var start := ZeroWords()[0 := low];
      words := start;
      mem := Decoded(start);
    }

    method Get(f: nat, i: nat) returns (e: Entry)
      requires Ok() && f < USR_FIRST && i < 1024
      ensures e == mem[f][i]
    {
      e := EntryOf(words[f][i]);
    }

    // A store of word w, whose record is e.
    method Put(f: nat, i: nat, w: bv32, ghost e: Entry)
      requires Ok() && f < USR_FIRST && i < 1024 && EntryOf(w) == e
      modifies this
      ensures Ok() && mem == WriteLine(old(mem), f, i, e)
    {
      hide EntryOf;
      words := words[f := words[f][i := w]];
      mem := WriteLine(mem, f, i, e);
    }

    method Clear(f: nat, i: nat)
      requires Ok() && f < USR_FIRST && i < 1024
      modifies this
      ensures Ok() && mem == WriteLine(old(mem), f, i, ZERO)
    {
      FixedWords();
      hide EntryOf;
      Put(f, i, 0, ZERO);
    }

    // mm.c:178 with physical address 0.
    method MapIdentity(f: nat)
      requires Ok() && f < USR_FIRST
      modifies this
      ensures Ok() && mem == WriteLine(old(mem), f, 0, IDENTITY)
    {
      FixedWords();
      hide EntryOf;
      Put(f, 0, 0x081, IDENTITY);
    }

    // Frame n with the standard attributes, or without MM_ATTR_US (mm.c:186-191, 399).
    method Map(f: nat, i: nat, n: nat, us: bool)
      requires Ok() && f < USR_FIRST && i < 1024 && n < 0x10_0000
      modifies this
      ensures Ok() && mem == WriteLine(old(mem), f, i, Entry(n, true, true, us, false, false))
    {
      AddressOfFrame(n);
      hide EntryOf, Address;
      var a := Address(n);
      MappedWord(a, n);
      if us {
        Put(f, i, (a & !ATTR_MASK) | USR_STD_ATTR | ATTR_P, UserEntry(n));
      } else {
        Put(f, i, (a & !ATTR_MASK) | ATTR_RW | ATTR_P, SystemEntry(n));
      }
    }

    // mm.c:110 and 209.
    method Absent(f: nat, i: nat)
      requires Ok() && f < USR_FIRST && i < 1024
      modifies this
      ensures Ok() && mem == WriteLine(old(mem), f, i, old(mem)[f][i].(p := false))
    {
      hide EntryOf;
      var w := words[f][i];
      AbsentWord(w);
      Put(f, i, w & !ATTR_P, mem[f][i].(p := false));
    }

    // mm.c:338 and 350.
    method Ask(f: nat, i: nat)
      requires Ok() && f < USR_FIRST && i < 1024
      modifies this
      ensures Ok() && mem == WriteLine(old(mem), f, i, AskedEntry(old(mem)[f][i]))
    {
      hide EntryOf;
      var w := words[f][i];
      AskedWord(w);
      Put(f, i, (w & !ATTR_MASK) | ATTR_REQ, AskedEntry(mem[f][i]));
    }

    // mm.c:375.
    method Share(f: nat, i: nat)
      requires Ok() && f < USR_FIRST && i < 1024
      modifies this
      ensures Ok() && mem == WriteLine(old(mem), f, i, old(mem)[f][i].(sh := true))
    {
      hide EntryOf;
      var w := words[f][i];
      SharedWord(w);
      Put(f, i, w | ATTR_SH, mem[f][i].(sh := true));
    }

    // mm.c:385-386.
    method TakeOver(f: nat, i: nat)
      requires Ok() && f < USR_FIRST && i < 1024
      modifies this
      ensures Ok() && mem == WriteLine(old(mem), f, i, old(mem)[f][i].(cow := false, rw := true))
    {
      hide EntryOf;
      var w := words[f][i];
      OwnedWord(w);
      Put(f, i, (w & !ATTR_COW) | ATTR_RW, mem[f][i].(cow := false, rw := true));
    }

    // mm.c:249-250.
    method Mark(f: nat, i: nat)
      requires Ok() && f < USR_FIRST && i < 1024
      modifies this
      ensures Ok() && mem == WriteLine(old(mem), f, i, old(mem)[f][i].(cow := true, rw := false))
    {
      hide EntryOf;
      var w := words[f][i];
      MarkedWord(w);
      Put(f, i, (w | ATTR_COW) & !ATTR_RW, mem[f][i].(cow := true, rw := false));
    }

    // mm.c:254.
    method Copy(f: nat, g: nat, i: nat)
      requires Ok() && f < USR_FIRST && g < USR_FIRST && i < 1024
      modifies this
      ensures Ok() && mem == WriteLine(old(mem), g, i, old(mem)[f][i])
    {
      hide EntryOf;
      Put(g, i, words[f][i], mem[f][i]);
    }

    // mm.c:285: entry i of directory g points to frame n with the attributes of that of f.
    method CopyOnto(f: nat, g: nat, i: nat, n: nat)
      requires Ok() && f < USR_FIRST && g < USR_FIRST && i < 1024 && n < 0x10_0000
      modifies this
      ensures Ok() && mem == WriteLine(old(mem), g, i, old(mem)[f][i].(base := n))
    {
      AddressOfFrame(n);
      hide EntryOf, Address;
      var a := Address(n);
      var w := words[f][i];
      RebasedWord(w, a, n);
      Put(g, i, (a & !ATTR_MASK) | (w & ATTR_MASK), mem[f][i].(base := n));
    }
  }
}
