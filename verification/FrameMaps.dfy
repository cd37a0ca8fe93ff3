// The page-frame bitmaps of mm.c: an array of uint_32 words, one bit per frame, searched
// for its lowest clear bit.
module FrameMaps {
  import opened FrameWords

  // ---------------------------------------------------------------- the bitmap as a set

  predicate Taken(words: seq<bv32>, k: nat)
    requires k < 32 * |words|
  {
    Bit(words[k / 32], k % 32)
  }

  // The frames in use among the first n of a bitmap whose first frame is `first`.
  ghost function TakenBelow(words: seq<bv32>, first: nat, n: nat): set<nat>
    requires n <= 32 * |words|
  {
    if n == 0 then {} else TakenBelow(words, first, n - 1) + if Taken(words, n - 1) then {first + (n - 1)} else {}
  }

  ghost function FramesOf(words: seq<bv32>, first: nat): set<nat> { TakenBelow(words, first, 32 * |words|) }

  lemma {:induction false} InTakenBelow(words: seq<bv32>, first: nat, n: nat, f: nat)
    requires n <= 32 * |words|
    ensures f in TakenBelow(words, first, n) <==> first <= f < first + n && Taken(words, f - first)
  {
    if n > 0 { InTakenBelow(words, first, n - 1, f); }
  }

  // SET_BIT and UNSET_BIT on bit k of the bitmap: one frame enters or leaves the set.
  lemma FramesUpdate(words: seq<bv32>, first: nat, k: nat, w: bv32, bit: bool)
    requires k < 32 * |words|
    requires forall i | 0 <= i < 32 :: Bit(w, i) == if i == k % 32 then bit else Bit(words[k / 32], i)
    ensures FramesOf(words[k / 32 := w], first) ==
      if bit then FramesOf(words, first) + {first + k} else FramesOf(words, first) - {first + k}
  {
    hide Bit;
    var next := words[k / 32 := w];
    var now, after := FramesOf(words, first), FramesOf(next, first);
    forall f: nat ensures f in after <==> if f == first + k then bit else f in now {
      InTakenBelow(words, first, 32 * |words|, f);
      InTakenBelow(next, first, 32 * |words|, f);
      if first <= f < first + 32 * |words| {
        var j := f - first;
        assert j == 32 * (j / 32) + j % 32 && k == 32 * (k / 32) + k % 32;
      }
    }
  }

  // Frame f is the one page_frame_info_alloc hands out under the given limit, in words:
  // the lowest free one, provided it is not in the last word.
  ghost predicate NextFree(taken: set<nat>, first: nat, limit: nat, f: nat) {
    f >= first && f !in taken && f + 32 < first + 32 * limit && forall g: nat | first <= g < f :: g in taken
  }

  // All frames are taken but those of the last word below the limit, which
  // page_frame_info_alloc never hands out.
  ghost predicate Exhausted(taken: set<nat>, first: nat, limit: nat) {
    forall g: nat | first <= g && g + 32 < first + 32 * limit :: g in taken
  }

  // How many frames page_frame_info_alloc can still hand out.
  ghost function Available(taken: set<nat>, first: nat, limit: nat): nat {
    |Spare(taken, first, limit)|
  }

  ghost function Spare(taken: set<nat>, first: nat, limit: nat): set<nat> {
    set g | first <= g < first + 32 * limit && g + 32 < first + 32 * limit && g !in taken
  }

  lemma TakenOne(taken: set<nat>, first: nat, limit: nat, f: nat)
    requires NextFree(taken, first, limit, f)
    ensures Available(taken, first, limit) == Available(taken + {f}, first, limit) + 1
  {
    assert Spare(taken, first, limit) == Spare(taken + {f}, first, limit) + {f};
  }

  lemma NoneAvailable(taken: set<nat>, first: nat, limit: nat)
    requires Exhausted(taken, first, limit)
    ensures Available(taken, first, limit) == 0
  {
    assert Spare(taken, first, limit) == {};
  }

  // The two bitmaps of mm.c, kernel_pf_info and usr_pf_info, are objects of this class;
  // its state is the word array, updated in place.
  class FrameMap {
    const words: array<bv32>
    const first: nat                   // mem_offset / PAGE_SIZE

    constructor (n: nat, first: nat)
      ensures fresh(words) && words.Length == n && this.first == first && Frames() == {}
    {
      words := new bv32[n](i => 0);
      this.first := first;
      new;
      Empty(words[..], first);
    }

    ghost function Frames(): set<nat>
      reads words
    {
      FramesOf(words[..], first)
    }

    // page_frame_info_alloc (mm.c:14-31): a frame, or none when all but the last of the
    // first `limit` words are full. Only the bit of the frame changes.
    method Alloc(limit: nat) returns (ok: bool, f: nat)
      requires limit <= words.Length
      modifies words
      ensures ok ==> NextFree(old(Frames()), first, limit, f) && f < first + 32 * words.Length && Frames() == old(Frames()) + {f}
      ensures !ok ==> Exhausted(old(Frames()), first, limit) && Frames() == old(Frames())
    {
      hide Bit;
      var i, found := 0, false;
      f := 0;
      while i < limit && !found
        invariant 0 <= i <= limit && (found ==> 0 < i && words[i - 1] != PFI_OCCUPIED)
        invariant forall j: nat | j < (if found then i - 1 else i) :: words[j] == PFI_OCCUPIED
      {
        found := words[i] != PFI_OCCUPIED;
        i := i + 1;
      }
      FullPrefix(words[..], first, if found then i - 1 else i);
      if i >= limit {
        return false, 0;
      }
      var j := i - 1;
      var b := LowestClear(words[j]);
      f := first + (j * 32 + b);
      forall g: nat | first <= g <= f ensures g in Frames() <==> g < f {
        InTakenBelow(words[..], first, 32 * words.Length, g);
        if g - first >= 32 * j { assert (g - first) / 32 == j && (g - first) % 32 == g - first - 32 * j; }
      }
      SetBit(j * 32 + b);
      return true, f;
    }

    // SET_BIT(pfi[k / pfi_size], k % pfi_size).
    method SetBit(k: nat)
      requires k < 32 * words.Length
      modifies words
      ensures Frames() == old(Frames()) + {first + k}
    {
      hide Bit, Set, Unset;
      forall i: nat | i < 32 { SetTouchesOneBit(words[k / 32], k % 32, i); }
      FramesUpdate(words[..], first, k, Set(words[k / 32], k % 32), true);
      words[k / 32] := Set(words[k / 32], k % 32);
      assert words[..] == old(words[..])[k / 32 := words[k / 32]];
    }

    // UNSET_BIT(pfi[index / pfi_size], index % pfi_size) (mm.c:127-129).
    method Free(k: nat)
      requires k < 32 * words.Length
      modifies words
      ensures Frames() == old(Frames()) - {first + k}
    {
      hide Bit, Set, Unset;
      forall i: nat | i < 32 { UnsetTouchesOneBit(words[k / 32], k % 32, i); }
      FramesUpdate(words[..], first, k, Unset(words[k / 32], k % 32), false);
      words[k / 32] := Unset(words[k / 32], k % 32);
      assert words[..] == old(words[..])[k / 32 := words[k / 32]];
    }

    lemma InFrames(f: nat)
      ensures f in Frames() ==> first <= f < first + 32 * words.Length
    {
      InTakenBelow(words[..], first, 32 * words.Length, f);
    }
  }

  // The lowest clear bit of a word that is not full (mm.c:24-26).
  method LowestClear(w: bv32) returns (b: nat)
    requires w != PFI_OCCUPIED
    ensures b < 32 && !Bit(w, b) && forall c: nat | c < b :: Bit(w, c)
  {
    OccupiedIsFull(w);
    hide Bit;
    b := 0;
    while Bit(w, b)
      invariant b < 32 && forall c: nat | c < b :: Bit(w, c)
      invariant exists c: nat :: b <= c < 32 && !Bit(w, c)
      decreases 32 - b
    {
      b := b + 1;
    }
  }

  lemma Empty(words: seq<bv32>, first: nat)
    requires forall j: nat | j < |words| :: words[j] == 0
    ensures FramesOf(words, first) == {}
  {
    hide Bit;
    forall k | 0 <= k < 32 ensures !Bit(0, k) { EmptyWord(k); }
    forall f: nat ensures f !in FramesOf(words, first) { InTakenBelow(words, first, 32 * |words|, f); }
  }

  lemma FullPrefix(words: seq<bv32>, first: nat, n: nat)
    requires n <= |words| && forall j: nat | j < n :: words[j] == PFI_OCCUPIED
    ensures forall g: nat | first <= g < first + 32 * n :: g in FramesOf(words, first)
  {
    hide Bit;
    OccupiedIsFull(PFI_OCCUPIED);
    forall g: nat | first <= g < first + 32 * n ensures g in FramesOf(words, first) {
      InTakenBelow(words, first, 32 * |words|, g);
      assert words[(g - first) / 32] == PFI_OCCUPIED;
    }
  }
}
