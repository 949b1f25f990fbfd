/** The packed words of the port map (src/kern/npf_portmap.c): five 12-bit values in one word. */
module PortWords {

  const ONES: bv64 := 0x1001001001001
  const TOPS: bv64 := 0x800800800800800

  /** The five packed values, from the least significant one; zero marks an empty slot. */
  function Value(x: bv64, k: nat): bv64 {
    if k == 0 then (x >> 4) & 0xfff
    else if k == 1 then (x >> 16) & 0xfff
    else if k == 2 then (x >> 28) & 0xfff
    else if k == 3 then (x >> 40) & 0xfff
    else (x >> 52) & 0xfff
  }

  predicate Holds(x: bv64, e: bv64) {
    Value(x, 0) == e || Value(x, 1) == e || Value(x, 2) == e || Value(x, 3) == e || Value(x, 4) == e
  }

  /** bitmap_word_isset: all five values are compared at once. */
  predicate IsSet(x: bv64, bit: bv64) {
    Borrows(Mixed(x, bit + 1))
  }

  function Mixed(x: bv64, b: bv64): bv64 {
    Xor(x >> 4, ONES * b)
  }

  function Xor(a: bv64, b: bv64): bv64 { a ^ b }

  /** Mixed without the multiplication. */
  function MixedSpread(x: bv64, b: bv64): bv64 {
    Xor(x >> 4, Spread(b))
  }

  lemma MixedIsSpread(x: bv64, b: bv64)
    requires b < 0x1000
    ensures Mixed(x, b) == MixedSpread(x, b)
  {
    hide Xor;
    ProductSpreads(b);
  }

  predicate Borrows(m: bv64) {
    (m - ONES) & ((!m) & TOPS) != 0
  }

  function Part(m: bv64, k: nat): bv64 {
    if k == 0 then m & 0xfff
    else if k == 1 then (m >> 12) & 0xfff
    else if k == 2 then (m >> 24) & 0xfff
    else if k == 3 then (m >> 36) & 0xfff
    else (m >> 48) & 0xfff
  }

  predicate Zero(m: bv64, k: nat) {
    Part(m, k) == 0
  }

  /** A borrow into a top bit that is not itself set means that some value is zero. */
  lemma BorrowMeansZero(m: bv64)
    requires m >> 60 == 0
    ensures Borrows(m) <==> Zero(m, 0) || Zero(m, 1) || Zero(m, 2) || Zero(m, 3) || Zero(m, 4)
  {
  }

  lemma ProductSpreads(b: bv64)
    requires b < 0x1000
    ensures ONES * b == Spread(b)
  {
  }

  lemma MixedFits(x: bv64, b: bv64)
    requires b < 0x1000
    ensures Mixed(x, b) >> 60 == 0
  {
  }

  function Spread(b: bv64): bv64 {
    b | (b << 12) | (b << 24) | (b << 36) | (b << 48)
  }

  lemma Part0(x: bv64, b: bv64)
    requires b < 0x1000
    ensures Part(MixedSpread(x, b), 0) == Xor(Value(x, 0), b)
  {
  }

  lemma Part1(x: bv64, b: bv64)
    requires b < 0x1000
    ensures Part(MixedSpread(x, b), 1) == Xor(Value(x, 1), b)
  {
  }

  lemma Part2(x: bv64, b: bv64)
    requires b < 0x1000
    ensures Part(MixedSpread(x, b), 2) == Xor(Value(x, 2), b)
  {
  }

  lemma Part3(x: bv64, b: bv64)
    requires b < 0x1000
    ensures Part(MixedSpread(x, b), 3) == Xor(Value(x, 3), b)
  {
  }

  lemma Part4(x: bv64, b: bv64)
    requires b < 0x1000
    ensures Part(MixedSpread(x, b), 4) == Xor(Value(x, 4), b)
  {
  }

  lemma XorZero(a: bv64, b: bv64)
    ensures Xor(a, b) == 0 <==> a == b
  {
  }

  lemma PartOfMixed(x: bv64, b: bv64, k: nat)
    requires b < 0x1000 && k < 5
    ensures Part(MixedSpread(x, b), k) == Xor(Value(x, k), b)
  {
    hide Value, Part, MixedSpread, Xor;
    if k == 0 {
      Part0(x, b);
    } else if k == 1 {
      Part1(x, b);
    } else if k == 2 {
      Part2(x, b);
    } else if k == 3 {
      Part3(x, b);
    } else {
      Part4(x, b);
    }
  }

  lemma MixedZero(x: bv64, b: bv64, k: nat)
    requires b < 0x1000 && k < 5
    ensures Zero(Mixed(x, b), k) <==> Value(x, k) == b
  {
    hide Value, Part, MixedSpread, Mixed, Xor;
    MixedIsSpread(x, b);
    PartOfMixed(x, b, k);
    XorZero(Value(x, k), b);
  }

  /** The parallel comparison finds a value exactly when it is packed in the word. */
  lemma IsSetExact(x: bv64, bit: bv64)
    requires bit < 1024
    ensures IsSet(x, bit) <==> Holds(x, bit + 1)
  {
    hide Borrows, Zero, Mixed, Value;
    var m := Mixed(x, bit + 1);
    MixedFits(x, bit + 1);
    BorrowMeansZero(m);
    MixedZero(x, bit + 1, 0);
    MixedZero(x, bit + 1, 1);
    MixedZero(x, bit + 1, 2);
    MixedZero(x, bit + 1, 3);
    MixedZero(x, bit + 1, 4);
  }

  /** The word with the value in one slot xor-ed with v. */
  function Flip(x: bv64, v: bv64, k: nat): bv64 {
    if k == 0 then x ^ (v << 4)
    else if k == 1 then x ^ (v << 16)
    else if k == 2 then x ^ (v << 28)
    else if k == 3 then x ^ (v << 40)
    else x ^ (v << 52)
  }

  function Cleared(x: bv64): bool { x & 0xf == 0 }

  lemma Flip0(x: bv64, v: bv64)
    requires v < 0x1000
    ensures Value(Flip(x, v, 0), 0) == Xor(Value(x, 0), v)
    ensures Value(Flip(x, v, 0), 1) == Value(x, 1)
    ensures Value(Flip(x, v, 0), 2) == Value(x, 2)
    ensures Value(Flip(x, v, 0), 3) == Value(x, 3)
    ensures Value(Flip(x, v, 0), 4) == Value(x, 4)
    ensures Cleared(Flip(x, v, 0)) == Cleared(x)
  {
  }

  lemma Flip1(x: bv64, v: bv64)
    requires v < 0x1000
    ensures Value(Flip(x, v, 1), 1) == Xor(Value(x, 1), v)
    ensures Value(Flip(x, v, 1), 0) == Value(x, 0)
    ensures Value(Flip(x, v, 1), 2) == Value(x, 2)
    ensures Value(Flip(x, v, 1), 3) == Value(x, 3)
    ensures Value(Flip(x, v, 1), 4) == Value(x, 4)
    ensures Cleared(Flip(x, v, 1)) == Cleared(x)
  {
  }

  lemma Flip2(x: bv64, v: bv64)
    requires v < 0x1000
    ensures Value(Flip(x, v, 2), 2) == Xor(Value(x, 2), v)
    ensures Value(Flip(x, v, 2), 0) == Value(x, 0)
    ensures Value(Flip(x, v, 2), 1) == Value(x, 1)
    ensures Value(Flip(x, v, 2), 3) == Value(x, 3)
    ensures Value(Flip(x, v, 2), 4) == Value(x, 4)
    ensures Cleared(Flip(x, v, 2)) == Cleared(x)
  {
  }

  lemma Flip3(x: bv64, v: bv64)
    requires v < 0x1000
    ensures Value(Flip(x, v, 3), 3) == Xor(Value(x, 3), v)
    ensures Value(Flip(x, v, 3), 0) == Value(x, 0)
    ensures Value(Flip(x, v, 3), 1) == Value(x, 1)
    ensures Value(Flip(x, v, 3), 2) == Value(x, 2)
    ensures Value(Flip(x, v, 3), 4) == Value(x, 4)
    ensures Cleared(Flip(x, v, 3)) == Cleared(x)
  {
  }

  lemma Flip4(x: bv64, v: bv64)
    requires v < 0x1000
    ensures Value(Flip(x, v, 4), 4) == Xor(Value(x, 4), v)
    ensures Value(Flip(x, v, 4), 0) == Value(x, 0)
    ensures Value(Flip(x, v, 4), 1) == Value(x, 1)
    ensures Value(Flip(x, v, 4), 2) == Value(x, 2)
    ensures Value(Flip(x, v, 4), 3) == Value(x, 3)
    ensures Cleared(Flip(x, v, 4)) == Cleared(x)
  {
  }

  lemma Flipped(x: bv64, v: bv64, k: nat, j: nat)
    requires v < 0x1000 && k < 5 && j < 5
    ensures Value(Flip(x, v, k), j) == if j == k then Xor(Value(x, k), v) else Value(x, j)
    ensures Cleared(Flip(x, v, k)) == Cleared(x)
  {
    hide Value, Flip, Xor, Cleared;
    if k == 0 {
      Flip0(x, v);
    } else if k == 1 {
      Flip1(x, v);
    } else if k == 2 {
      Flip2(x, v);
    } else if k == 3 {
      Flip3(x, v);
    } else {
      Flip4(x, v);
    }
  }

  /** A packed word: no tag bits, values up to 1024, and no value in two slots. */
  predicate WordOk(x: bv64) {
    && Cleared(x)
    && (forall k: nat :: k < 5 ==> Value(x, k) <= 1024)
    && (forall j: nat, k: nat :: j < k < 5 && Value(x, j) != 0 ==> Value(x, j) != Value(x, k))
  }

  lemma HeldSlot(x: bv64, e: bv64) returns (k: nat)
    requires Holds(x, e)
    ensures k < 5 && Value(x, k) == e
  {
    hide Value;
    k := if Value(x, 0) == e then 0 else if Value(x, 1) == e then 1
         else if Value(x, 2) == e then 2 else if Value(x, 3) == e then 3 else 4;
  }

  lemma SlotHeld(x: bv64, e: bv64, k: nat)
    requires k < 5 && Value(x, k) == e
    ensures Holds(x, e)
  {
  }

  lemma XorFacts(v: bv64)
    ensures Xor(0, v) == v && Xor(v, v) == 0
  {
  }

  /** Filling an empty slot adds one value. */
  lemma FilledSlot(x: bv64, v: bv64, k: nat)
    requires WordOk(x) && k < 5 && Value(x, k) == 0 && 0 < v <= 1024 && !Holds(x, v)
    ensures WordOk(Flip(x, v, k)) && Holds(Flip(x, v, k), v)
    ensures forall e: bv64 :: e != 0 && e != v ==> (Holds(Flip(x, v, k), e) <==> Holds(x, e))
  {
    hide Value, Flip, Xor, Cleared, Holds;
    XorFacts(v);
    var y := Flip(x, v, k);
    forall j: nat | j < 5
      ensures Value(y, j) == (if j == k then v else Value(x, j)) && Cleared(y) && (Value(x, j) != v)
    {
      Flipped(x, v, k, j);
      if Value(x, j) == v { SlotHeld(x, v, j); }
    }
    assert Cleared(y) by { Flipped(x, v, k, 0); }
    SlotHeld(y, v, k);
    forall e: bv64 | e != 0 && e != v ensures Holds(y, e) <==> Holds(x, e) {
      OtherValue(x, y, e, k);
    }
  }

  /** Emptying the slot of a value removes that value only. */
  lemma EmptiedSlot(x: bv64, v: bv64, k: nat)
    requires WordOk(x) && k < 5 && Value(x, k) == v && 0 < v <= 1024
    ensures WordOk(Flip(x, v, k)) && !Holds(Flip(x, v, k), v)
    ensures forall e: bv64 :: e != 0 && e != v ==> (Holds(Flip(x, v, k), e) <==> Holds(x, e))
  {
    hide Value, Flip, Xor, Cleared, Holds;
    XorFacts(v);
    var y := Flip(x, v, k);
    forall j: nat | j < 5 ensures Value(y, j) == (if j == k then 0 else Value(x, j)) && Cleared(y) {
      Flipped(x, v, k, j);
    }
    assert Cleared(y) by { Flipped(x, v, k, 0); }
    if Holds(y, v) {
      var j := HeldSlot(y, v);
    }
    forall e: bv64 | e != 0 && e != v ensures Holds(y, e) <==> Holds(x, e) {
      OtherValue(x, y, e, k);
    }
  }

  lemma OtherValue(x: bv64, y: bv64, e: bv64, k: nat)
    requires k < 5 && Value(x, k) != e && Value(y, k) != e
    requires forall j: nat :: j < 5 && j != k ==> Value(x, j) == Value(y, j)
    ensures Holds(x, e) <==> Holds(y, e)
  {
    hide Value, Holds;
    if Holds(x, e) {
      var j := HeldSlot(x, e);
      SlotHeld(y, e, j);
    }
    if Holds(y, e) {
      var j := HeldSlot(y, e);
      SlotHeld(x, e, j);
    }
  }

  /** bitmap_word_cax: xor b into the topmost slot holding e, or zero when no slot does. */
  function Cax(x: bv64, e: bv64, b: bv64): bv64 {
    if Value(x, 4) == e then Flip(x, b, 4)
    else if Value(x, 3) == e then Flip(x, b, 3)
    else if Value(x, 2) == e then Flip(x, b, 2)
    else if Value(x, 1) == e then Flip(x, b, 1)
    else if Value(x, 0) == e then Flip(x, b, 0)
    else 0
  }

  lemma CaxSlot(x: bv64, e: bv64, b: bv64) returns (k: nat)
    requires Holds(x, e)
    ensures k < 5 && Value(x, k) == e && Cax(x, e, b) == Flip(x, b, k)
  {
    hide Value, Flip;
    k := if Value(x, 4) == e then 4 else if Value(x, 3) == e then 3
         else if Value(x, 2) == e then 2 else if Value(x, 1) == e then 1 else 0;
  }

  /** Two words with the same contents up to one value. */
  ghost predicate SameBut(x: bv64, y: bv64, v: bv64) {
    forall e: bv64 :: e != 0 && e != v ==> (Holds(y, e) <==> Holds(x, e))
  }

  lemma ZeroIsEmpty(e: bv64)
    ensures Holds(0, e) <==> e == 0
  {
  }

  /** Taking a free slot: zero means the word is full, otherwise exactly the value is added. */
  lemma CaxAdds(x: bv64, v: bv64)
    requires WordOk(x) && 0 < v <= 1024 && !Holds(x, v)
    ensures Cax(x, 0, v) == 0 <==> !Holds(x, 0)
    ensures Holds(x, 0) ==> WordOk(Cax(x, 0, v)) && Holds(Cax(x, 0, v), v) && SameBut(x, Cax(x, 0, v), v)
  {
    hide Value, Flip, WordOk, Cleared;
    if Holds(x, 0) {
      hide Holds;
      var k := CaxSlot(x, 0, v);
      FilledSlot(x, v, k);
      ZeroIsEmpty(v);
    }
  }

  /** Dropping a packed value: exactly the value is removed. */
  lemma CaxDrops(x: bv64, v: bv64)
    requires WordOk(x) && 0 < v <= 1024 && Holds(x, v)
    ensures WordOk(Cax(x, v, v)) && !Holds(Cax(x, v, v), v) && SameBut(x, Cax(x, v, v), v)
  {
    hide Value, Flip, WordOk, Cleared, Holds;
    var k := CaxSlot(x, v, v);
    EmptiedSlot(x, v, k);
  }
}
