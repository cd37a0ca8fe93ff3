// The words of the page-frame bitmaps: the macros of mm.h on a uint_32.
module FrameWords {
  import opened Digits

  const PFI_OCCUPIED: bv32 := 0xFFFF_FFFF

  // CHECK_BIT at position x, and at position k.
  predicate At(w: bv32, x: bv5) { w & ((1 as bv32) << (x as bv32)) != 0 }

  predicate Bit(w: bv32, k: nat)
    requires k < 32
  {
    At(w, k as bv5)
  }

  // SET_BIT and UNSET_BIT at position x, and at position k.
  function SetAt(w: bv32, x: bv5): bv32 { w | ((1 as bv32) << (x as bv32)) }
  function UnsetAt(w: bv32, x: bv5): bv32 { w & !((1 as bv32) << (x as bv32)) }

  function Set(w: bv32, k: nat): bv32
    requires k < 32
  {
    SetAt(w, k as bv5)
  }

  function Unset(w: bv32, k: nat): bv32
    requires k < 32
  {
    UnsetAt(w, k as bv5)
  }

  // Positions and their binary form.
  lemma PositionOf(x: bv5)
    ensures (x as nat) < 32 && (x as nat) as bv5 == x
  {}

  lemma Positions(i: nat, k: nat)
    requires i < 32 && k < 32
    ensures i as bv5 == k as bv5 <==> i == k
  {
    Digit(i);
    Digit(k);
  }

  // They touch one bit.
  lemma SetMask(w: bv32, x: bv5, y: bv5)
    ensures At(w | ((1 as bv32) << (x as bv32)), y) == (x == y || At(w, y))
  {}

  lemma UnsetMask(w: bv32, x: bv5, y: bv5)
    ensures At(w & !((1 as bv32) << (x as bv32)), y) == (x != y && At(w, y))
  {}

  lemma SetOne(w: bv32, x: bv5, y: bv5)
    ensures At(SetAt(w, x), y) == (x == y || At(w, y))
  {
    hide At;
    SetMask(w, x, y);
  }

  lemma UnsetOne(w: bv32, x: bv5, y: bv5)
    ensures At(UnsetAt(w, x), y) == (x != y && At(w, y))
  {
    hide At;
    UnsetMask(w, x, y);
  }

  lemma SetTouchesOneBit(w: bv32, i: nat, k: nat)
    requires i < 32 && k < 32
    ensures Bit(Set(w, i), k) == (k == i || Bit(w, k))
  {
    hide At, SetAt, UnsetAt;
    Positions(i, k);
    SetOne(w, i as bv5, k as bv5);
  }

  lemma UnsetTouchesOneBit(w: bv32, i: nat, k: nat)
    requires i < 32 && k < 32
    ensures Bit(Unset(w, i), k) == (k != i && Bit(w, k))
  {
    hide At, SetAt, UnsetAt;
    Positions(i, k);
    UnsetOne(w, i as bv5, k as bv5);
  }

  lemma FullWord(w: bv32)
    requires forall x: bv5 :: At(w, x)
    ensures w == PFI_OCCUPIED
  {
    assert At(w, 0) && At(w, 1) && At(w, 2) && At(w, 3);
    assert At(w, 4) && At(w, 5) && At(w, 6) && At(w, 7);
    assert At(w, 8) && At(w, 9) && At(w, 10) && At(w, 11);
    assert At(w, 12) && At(w, 13) && At(w, 14) && At(w, 15);
    assert At(w, 16) && At(w, 17) && At(w, 18) && At(w, 19);
    assert At(w, 20) && At(w, 21) && At(w, 22) && At(w, 23);
    assert At(w, 24) && At(w, 25) && At(w, 26) && At(w, 27);
    assert At(w, 28) && At(w, 29) && At(w, 30) && At(w, 31);
  }

  lemma AllSet(x: bv5)
    ensures At(PFI_OCCUPIED, x)
  {}

  lemma NoneSet(x: bv5)
    ensures !At(0, x)
  {}

  // A word is PFI_OCCUPIED exactly when all its bits are set.
  lemma OccupiedIsFull(w: bv32)
    ensures w == PFI_OCCUPIED <==> forall k | 0 <= k < 32 :: Bit(w, k)
  {
    hide At;
    if forall k | 0 <= k < 32 :: Bit(w, k) {
      forall x: bv5 ensures At(w, x) {
        PositionOf(x);
        assert Bit(w, x as nat);
      }
      FullWord(w);
    }
    forall x: bv5 { AllSet(x); }
  }

  lemma EmptyWord(k: nat)
    requires k < 32
    ensures !Bit(0, k)
  {
    NoneSet(k as bv5);
  }
}
