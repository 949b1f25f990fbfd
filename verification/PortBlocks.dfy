/** The level-1 blocks of the port map: one bit per port of a 1024-port chunk, in sixteen words. */
module PortBlocks {
  import opened PortWords

  type Block = seq<bv64>

  const L1_WORDS := 16

  predicate BlockOk(b: Block) { |b| == L1_WORDS }

  function Index(c: bv64): nat { c as nat }

  function FromIndex(n: nat): bv64
    requires n < 0x1_0000_0000_0000_0000
  {
    n as bv64
  }

  lemma IndexBack(c: bv64)
    ensures Index(c) < 0x1_0000_0000_0000_0000 && FromIndex(Index(c)) == c
  {
  }

  lemma IndexInjective(c: bv64, d: bv64)
    ensures Index(c) == Index(d) <==> c == d
  {
    hide Index, FromIndex;
    IndexBack(c);
    IndexBack(d);
  }

  function Offset(c: bv64): nat { Index(c >> 6) }

  function Mask(c: bv64): bv64 { 1 << (c & 63) }

  function Both(a: bv64, b: bv64): bv64 { a & b }

  function Either(a: bv64, b: bv64): bv64 { a | b }

  function Without(a: bv64, b: bv64): bv64 { a & !b }

  predicate Bit(w: bv64, c: bv64) { Both(w, Mask(c)) != 0 }

  predicate SameBit(c: bv64, d: bv64) { c & 63 == d & 63 }

  lemma OffsetInRange(c: bv64)
    requires c < 1024
    ensures Offset(c) < L1_WORDS
  {
  }

  lemma Masks(c: bv64, d: bv64)
    ensures Mask(c) != 0
    ensures SameBit(c, d) ==> Mask(c) == Mask(d)
    ensures !SameBit(c, d) ==> Both(Mask(c), Mask(d)) == 0
  {
  }

  lemma OrSame(w: bv64, m: bv64)
    requires m != 0
    ensures Both(Either(w, m), m) != 0
  {
  }

  lemma OrOther(w: bv64, m: bv64, n: bv64)
    requires Both(m, n) == 0
    ensures Both(Either(w, m), n) == Both(w, n)
  {
  }

  lemma BitSet(w: bv64, c: bv64, d: bv64)
    ensures Bit(Either(w, Mask(c)), d) <==> Bit(w, d) || SameBit(c, d)
  {
    hide Mask, SameBit, Both, Either;
    Masks(c, d);
    if SameBit(c, d) {
      OrSame(w, Mask(c));
    } else {
      OrOther(w, Mask(c), Mask(d));
    }
  }

  lemma WithoutSame(w: bv64, m: bv64)
    ensures Both(Without(w, m), m) == 0
  {
  }

  lemma WithoutOther(w: bv64, m: bv64, n: bv64)
    requires Both(m, n) == 0
    ensures Both(Without(w, m), n) == Both(w, n)
  {
  }

  lemma BitCleared(w: bv64, c: bv64, d: bv64)
    ensures Bit(Without(w, Mask(c)), d) <==> Bit(w, d) && !SameBit(c, d)
  {
    hide Mask, SameBit, Both, Without;
    Masks(c, d);
    if SameBit(c, d) {
      WithoutSame(w, Mask(c));
    } else {
      WithoutOther(w, Mask(c), Mask(d));
    }
  }

  lemma ZeroBit(c: bv64)
    ensures !Bit(0, c)
  {
  }

  /** A port of a chunk is known by its word and its bit. */
  lemma SamePlace(c: bv64, d: bv64)
    ensures Offset(c) == Offset(d) && SameBit(c, d) <==> c == d
  {
    hide SameBit, Index;
    IndexInjective(c >> 6, d >> 6);
    SameParts(c, d);
  }

  lemma SameParts(c: bv64, d: bv64)
    ensures c >> 6 == d >> 6 && SameBit(c, d) <==> c == d
  {
  }

  predicate InBlock(b: Block, c: bv64) {
    Offset(c) < |b| && Bit(b[Offset(c)], c)
  }

  function WithBit(b: Block, c: bv64): Block
    requires Offset(c) < |b|
  {
    b[Offset(c) := Either(b[Offset(c)], Mask(c))]
  }

  function WithoutBit(b: Block, c: bv64): Block
    requires Offset(c) < |b|
  {
    b[Offset(c) := Without(b[Offset(c)], Mask(c))]
  }

  lemma WithBitHolds(b: Block, c: bv64, d: bv64)
    requires Offset(c) < |b| && Offset(d) < |b|
    ensures InBlock(WithBit(b, c), d) <==> InBlock(b, d) || d == c
  {
    hide Offset, Mask, Bit, Either, SameBit;
    SamePlace(c, d);
    BitSet(b[Offset(c)], c, d);
  }

  lemma WithoutBitHolds(b: Block, c: bv64, d: bv64)
    requires Offset(c) < |b| && Offset(d) < |b|
    ensures InBlock(WithoutBit(b, c), d) <==> InBlock(b, d) && d != c
  {
    hide Offset, Mask, Bit, Without, SameBit;
    SamePlace(c, d);
    BitCleared(b[Offset(c)], c, d);
  }

  const EMPTY: Block := [0, 0, 0, 0, 0, 0, 0, 0, 0, 0, 0, 0, 0, 0, 0, 0]

  /** bitmap_word_unpack: the ports packed in a word, topmost slot first. */
  function Unpack(x: bv64): seq<bv64> {
    Taken(x, 4) + Taken(x, 3) + Taken(x, 2) + Taken(x, 1) + Taken(x, 0)
  }

  function Taken(x: bv64, k: nat): seq<bv64> {
    if Value(x, k) != 0 then [Value(x, k) - 1] else []
  }

  lemma UnpackExact(x: bv64, c: bv64)
    requires c < 1024
    ensures c in Unpack(x) <==> Holds(x, c + 1)
  {
    hide Value, Taken;
    TakenExact(x, 0, c);
    TakenExact(x, 1, c);
    TakenExact(x, 2, c);
    TakenExact(x, 3, c);
    TakenExact(x, 4, c);
  }

  lemma TakenExact(x: bv64, k: nat, c: bv64)
    requires c < 1024
    ensures c in Taken(x, k) <==> Value(x, k) == c + 1
  {
    hide Value;
    MinusOne(Value(x, k), c);
  }

  lemma MinusOne(v: bv64, c: bv64)
    requires c < 1024
    ensures v != 0 && v - 1 == c <==> v == c + 1
  {
  }

  predicate Chunked(vals: seq<bv64>) {
    forall i :: 0 <= i < |vals| ==> vals[i] < 1024
  }

  /** The block that promotion builds from a list of ports. */
  function Filled(vals: seq<bv64>): (b: Block)
    requires Chunked(vals)
    ensures BlockOk(b)
  {
    if vals == [] then EMPTY
    else OffsetInRange(vals[0]); WithBit(Filled(vals[1..]), vals[0])
  }

  lemma {:induction false} FilledHolds(vals: seq<bv64>, c: bv64)
    requires c < 1024 && Chunked(vals)
    ensures InBlock(Filled(vals), c) <==> c in vals
  {
    hide Offset, Bit, WithBit;
    OffsetInRange(c);
    if vals == [] {
      ZeroBit(c);
    } else {
      OffsetInRange(vals[0]);
      FilledHolds(vals[1..], c);
      WithBitHolds(Filled(vals[1..]), vals[0], c);
      assert vals == [vals[0]] + vals[1..];
    }
  }

  lemma UnpackBounded(x: bv64)
    requires WordOk(x)
    ensures Chunked(Unpack(x))
  {
    hide Value;
    forall k: nat | k < 5 ensures Chunked(Taken(x, k)) {
      BoundMinusOne(Value(x, k));
    }
  }

  lemma BoundMinusOne(v: bv64)
    requires v <= 1024
    ensures v != 0 ==> v - 1 < 1024
  {
  }

  function PromotedFrom(x: bv64): (b: Block)
    requires WordOk(x)
    ensures BlockOk(b)
  {
    UnpackBounded(x);
    Filled(Unpack(x))
  }

  /** A promoted block holds the ports of the packed word and no others. */
  lemma PromotionKeeps(x: bv64, c: bv64)
    requires WordOk(x) && c < 1024
    ensures InBlock(PromotedFrom(x), c) <==> Holds(x, c + 1)
  {
    hide Unpack, Filled, InBlock, WordOk, Holds, BlockOk;
    UnpackBounded(x);
    UnpackExact(x, c);
    FilledHolds(Unpack(x), c);
  }

  /** The promotion loop of bitmap_set: the unpacked ports are put into a zeroed block, last one first. */
  method Promote(x: bv64) returns (b: Block)
    requires WordOk(x)
    ensures b == PromotedFrom(x)
  {
    hide Value, WordOk, Unpack, WithBit, Offset;
    var bitvals := Unpack(x);
    UnpackBounded(x);
    b := EMPTY;
    var n := |bitvals|;
    while n != 0
      invariant 0 <= n <= |bitvals|
      invariant b == Filled(bitvals[n..])
    {
      n := n - 1;
      assert bitvals[n..][1..] == bitvals[n + 1..];
      OffsetInRange(bitvals[n]);
      b := WithBit(b, bitvals[n]);
    }
    assert bitvals[0..] == bitvals;
  }
}
