// Page-table and page-directory words of mm.h: a 20-bit base and twelve attribute
// bits. The kernel manipulates them with masks on a uint_32; the specification uses the
// record Entry, and the lemmas below show that every mask used by mm.c is a record update.
// Class PageWords.PageWords keeps the words.
module PageEntries {
  import opened Digits

  // Attribute bits that mm.c reads or writes. MM_ATTR_REQ (mm.h:10) is the same bit
  // as MM_ATTR_RW (mm.h:16): an absent entry with that bit set is "requested".
  datatype Entry = Entry(base: nat, p: bool, rw: bool, us: bool, sh: bool, cow: bool)
  {
    predicate Requested() { rw }
  }

  const ZERO := Entry(0, false, false, false, false, false)

  const ATTR_P: bv32 := 0x001
  const ATTR_RW: bv32 := 0x002
  const ATTR_REQ: bv32 := 0x002
  const ATTR_US: bv32 := 0x004
  const ATTR_SH: bv32 := 0x200
  const ATTR_COW: bv32 := 0x400
  const ATTR_MASK: bv32 := 0xFFF
  const USR_STD_ATTR: bv32 := ATTR_RW | ATTR_US

  // base | USR_STD_ATTR | 1
  function UserEntry(f: nat): Entry { Entry(f, true, true, true, false, false) }

  // base | MM_ATTR_RW | MM_ATTR_US_S | 1
  function SystemEntry(f: nat): Entry { Entry(f, true, true, false, false, false) }

  // The attribute bits of an entry set to MM_ATTR_REQ, the base field untouched.
  function AskedEntry(e: Entry): Entry { Entry(e.base, false, true, false, false, false) }

  // What mm_page_fork leaves in a present entry of the parent and copies to the child.
  function ForkMark(e: Entry): Entry { if e.sh then e else e.(cow := true, rw := false) }

  // ---------------------------------------------------------------- words

  // The bits of a word that hold its frame number, and the record of a word: Decode takes
  // the number as given, EntryOf reads it from the word.
  function FrameBits(w: bv32): bv32 { w >> 12 }

  function Decode(w: bv32, f: nat): Entry {
    Entry(f, w & ATTR_P != 0, w & ATTR_RW != 0, w & ATTR_US != 0, w & ATTR_SH != 0, w & ATTR_COW != 0)
  }

  function EntryOf(w: bv32): Entry { Decode(w, FrameBits(w) as nat) }

  // The address of frame f, from its directory and table indices.
  function Address(f: nat): bv32
    requires f < 0x10_0000
  {
    (Ten(f / 1024) as bv32 << 22) | (Ten(f % 1024) as bv32 << 12)
  }

  lemma AddressOfFrame(f: nat)
    requires f < 0x10_0000
    ensures FrameBits(Address(f)) as int == f
  {
    AddressParts(f);
    hide Ten, Address, FrameBits;
    TenIs(f / 1024);
    TenIs(f % 1024);
  }

  lemma AddressParts(f: int)
    requires 0 <= f < 0x10_0000
    ensures FrameBits(Address(f)) as int == Ten(f / 1024) as int * 1024 + Ten(f % 1024) as int
  {
    hide Ten;
    Composed(Ten(f / 1024), Ten(f % 1024));
  }

  // mm.c:110 and 209, `&= ~MM_ATTR_P`.
  lemma DecodeAbsent(w: bv32, f: nat)
    ensures Decode(w & !ATTR_P, f) == Decode(w, f).(p := false)
    ensures FrameBits(w & !ATTR_P) == FrameBits(w)
  {}

  lemma AbsentWord(w: bv32)
    ensures EntryOf(w & !ATTR_P) == EntryOf(w).(p := false)
  {
    DecodeAbsent(w, FrameBits(w) as nat);
    hide Decode, FrameBits;
  }

  // mm.c:385-386, drop COW and restore RW.
  lemma DecodeOwned(w: bv32, f: nat)
    ensures Decode((w & !ATTR_COW) | ATTR_RW, f) == Decode(w, f).(cow := false, rw := true)
    ensures FrameBits((w & !ATTR_COW) | ATTR_RW) == FrameBits(w)
  {}

  lemma OwnedWord(w: bv32)
    ensures EntryOf((w & !ATTR_COW) | ATTR_RW) == EntryOf(w).(cow := false, rw := true)
  {
    DecodeOwned(w, FrameBits(w) as nat);
    hide Decode, FrameBits;
  }

  // mm.c:375, `|= MM_ATTR_SH`.
  lemma DecodeShared(w: bv32, f: nat)
    ensures Decode(w | ATTR_SH, f) == Decode(w, f).(sh := true)
    ensures FrameBits(w | ATTR_SH) == FrameBits(w)
  {}

  lemma SharedWord(w: bv32)
    ensures EntryOf(w | ATTR_SH) == EntryOf(w).(sh := true)
  {
    DecodeShared(w, FrameBits(w) as nat);
    hide Decode, FrameBits;
  }

  // mm.c:338 and 350, the attribute field set to MM_ATTR_REQ.
  lemma DecodeAsked(w: bv32, f: nat)
    ensures Decode((w & !ATTR_MASK) | ATTR_REQ, f) == AskedEntry(Decode(w, f))
    ensures FrameBits((w & !ATTR_MASK) | ATTR_REQ) == FrameBits(w)
  {}

  lemma AskedWord(w: bv32)
    ensures EntryOf((w & !ATTR_MASK) | ATTR_REQ) == AskedEntry(EntryOf(w))
  {
    DecodeAsked(w, FrameBits(w) as nat);
    hide Decode, FrameBits;
  }

  // mm.c:249-250, the copy-on-write mark.
  lemma DecodeForkMark(w: bv32, f: nat)
    ensures Decode((w | ATTR_COW) & !ATTR_RW, f) == Decode(w, f).(cow := true, rw := false)
    ensures FrameBits((w | ATTR_COW) & !ATTR_RW) == FrameBits(w)
  {}

  lemma MarkedWord(w: bv32)
    ensures EntryOf((w | ATTR_COW) & !ATTR_RW) == EntryOf(w).(cow := true, rw := false)
  {
    DecodeForkMark(w, FrameBits(w) as nat);
    hide Decode, FrameBits;
  }

  // mm.c:170, 186-191 and 399: a mapped word built from a page address and an attribute set.
  lemma DecodeMapped(address: bv32, f: nat)
    ensures Decode((address & !ATTR_MASK) | USR_STD_ATTR | ATTR_P, f) == UserEntry(f)
    ensures FrameBits((address & !ATTR_MASK) | USR_STD_ATTR | ATTR_P) == FrameBits(address)
  {}

  lemma DecodeSystem(address: bv32, f: nat)
    ensures Decode((address & !ATTR_MASK) | ATTR_RW | ATTR_P, f) == SystemEntry(f)
    ensures FrameBits((address & !ATTR_MASK) | ATTR_RW | ATTR_P) == FrameBits(address)
  {}

  lemma MappedWord(a: bv32, f: nat)
    requires FrameBits(a) as nat == f
    ensures EntryOf((a & !ATTR_MASK) | USR_STD_ATTR | ATTR_P) == UserEntry(f)
    ensures EntryOf((a & !ATTR_MASK) | ATTR_RW | ATTR_P) == SystemEntry(f)
  {
    hide Decode, FrameBits;
    DecodeMapped(a, f);
    DecodeSystem(a, f);
  }

  // mm.c:285, the attributes of one word on the address of another frame.
  lemma DecodeRebased(w: bv32, address: bv32, f: nat)
    ensures Decode((address & !ATTR_MASK) | (w & ATTR_MASK), f) == Decode(w, f)
    ensures FrameBits((address & !ATTR_MASK) | (w & ATTR_MASK)) == FrameBits(address)
  {}

  lemma RebasedWord(w: bv32, a: bv32, f: nat)
    requires FrameBits(a) as nat == f
    ensures EntryOf((a & !ATTR_MASK) | (w & ATTR_MASK)) == EntryOf(w).(base := f)
  {
    DecodeBase(w, FrameBits(w) as nat, f);
    hide Decode, FrameBits;
    DecodeRebased(w, a, f);
  }

  lemma DecodeBase(w: bv32, f: nat, g: nat)
    ensures Decode(w, f).(base := g) == Decode(w, g)
  {}

  // A cleared word, and mm.c:178 for the 4 MB identity mapping.
  lemma FixedWords()
    ensures EntryOf(0) == ZERO && EntryOf(0x081) == ZERO.(p := true)
  {}
}
