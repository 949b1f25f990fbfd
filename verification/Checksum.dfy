/** Internet checksums and their incremental update (src/kern/npf_inet.c, RFC 1071 and RFC 1624). */
module Checksum {
  import opened Words

  const ONES := 0xffff

  /** One's complement folding of a sum to sixteen bits. */
  function Fold(x: nat): (r: nat)
    ensures r <= ONES && r % ONES == x % ONES && (r == 0 <==> x == 0)
    decreases x
  {
    if x <= ONES then x
    else
      FoldStep(x);
      Fold(x / 0x10000 + x % 0x10000)
  }

  /** Adding the carries back keeps the residue and makes the number smaller. */
  lemma FoldStep(x: nat)
    requires x > ONES
    ensures var y := x / 0x10000 + x % 0x10000; 0 < y < x && y % ONES == x % ONES
  {
  }

  lemma Residue(x: int, q: int)
    ensures (x + ONES * q) % ONES == x % ONES
  {
  }

  /** The checksum of data whose sixteen-bit words add up to total. */
  function FromScratch(total: nat): (c: nat)
    ensures c <= ONES
  {
    ONES - Fold(total)
  }

  /** What a receiver checks: the words and the checksum add up to all ones. */
  predicate Verifies(c: nat, total: nat) {
    c <= ONES && (c + total) % ONES == 0
  }

  lemma FromScratchVerifies(total: nat)
    ensures Verifies(FromScratch(total), total)
  {
    var f := Fold(total);
    ResidueAdd(ONES - f, total, f);
  }

  /** Residues add up. */
  lemma ResidueAdd(a: int, x: int, y: int)
    requires x % ONES == y % ONES
    ensures (a + x) % ONES == (a + y) % ONES && (a - x) % ONES == (a - y) % ONES
  {
  }

  /** npf_fixup16_cksum, with its two foldings. */
  function Fixup16(c: nat, o: nat, n: nat): (r: nat)
    requires c <= ONES && o <= ONES && n <= ONES
    ensures r <= ONES
  {
    FoldTwice(ONES - c + (ONES - o) + n);
    ONES - Folded(ONES - c + (ONES - o) + n)
  }

  function Folded(sum: nat): nat {
    var s := sum / 0x10000 + sum % 0x10000;
    (s + s / 0x10000) % 0x10000
  }

  lemma FoldUnfold(x: nat)
    ensures Fold(x) == if x <= ONES then x else Fold(x / 0x10000 + x % 0x10000)
  {
  }

  /** Two foldings are enough for the sum of a few words. */
  lemma FoldTwice(sum: nat)
    requires sum <= 5 * ONES
    ensures Folded(sum) == Fold(sum) <= ONES
  {
    hide Fold;
    var h, l := DivMod(sum, 0x10000);
    var s := h + l;
    FoldUnfold(sum);
    FoldUnfold(s);
    if sum <= ONES {
      FoldedSmall(sum, 0);
    } else if s <= ONES {
      FoldedSmall(s, 0);
    } else {
      FoldedSmall(s, 1);
      FoldUnfold(s - 0x10000 + 1);
    }
  }

  lemma FoldedSmall(s: nat, h: nat)
    requires 0x10000 * h <= s < 0x10000 * (h + 1) && h <= 1 && s <= ONES + 5
    ensures s / 0x10000 == h && s % 0x10000 == s - 0x10000 * h
    ensures (s + s / 0x10000) % 0x10000 == s - 0x10000 * h + h
  {
  }

  /** npf_fixup32_cksum: both halves at once. */
  function Fixup32(c: nat, o: nat, n: nat): (r: nat)
    requires c <= ONES && o < W32 && n < W32
    ensures r <= ONES
  {
    var sum := ONES - c + (ONES - o % 0x10000) + n % 0x10000 + (ONES - o / 0x10000) + n / 0x10000;
    Halves(o);
    Halves(n);
    FoldTwice(sum);
    ONES - Folded(sum)
  }

  lemma Halves(x: nat)
    requires x < W32
    ensures x % 0x10000 <= ONES && x / 0x10000 <= ONES
  {
  }

  /** The sum of the two halves of a word. */
  function Halved(x: nat): nat { x % 0x10000 + x / 0x10000 }

  /** One's complement of the complements: what a fixup adds up to. */
  lemma FixupVerifies(c: nat, sum: nat, total: nat, total': nat, gone: nat, come: nat, k: nat)
    requires c <= ONES && sum == ONES - c + (k * ONES - gone) + come && total + come == total' + gone
    ensures Verifies(c, total) <==> Verifies(ONES - Fold(sum), total')
  {
    var r := ONES - Fold(sum);
    // r + total' and c + total have the same residue
    ResidueAdd(ONES + total', Fold(sum), sum);
    assert ONES + total' - sum == c + total + ONES * (0 - k);
    Residue(c + total, 0 - k);
  }

  /** The incremental update verifies exactly when the checksum verified before. */
  lemma Fixup16Exact(c: nat, o: nat, n: nat, total: nat, total': nat)
    requires c <= ONES && o <= ONES && n <= ONES && total + n == total' + o
    ensures Verifies(c, total) <==> Verifies(Fixup16(c, o, n), total')
    ensures c < ONES ==> Fixup16(c, o, n) < ONES
  {
    var sum := ONES - c + (ONES - o) + n;
    FoldTwice(sum);
    FixupVerifies(c, sum, total, total', o, n, 1);
  }

  /**
   * A checksum that verifies is the one computed from scratch exactly when it is all ones for words that
   * are all zero and not all ones for others.
   */
  lemma ScratchExactly(c: nat, total: nat)
    requires Verifies(c, total)
    ensures c == FromScratch(total) <==> (c == ONES <==> total == 0)
  {
    var f := Fold(total);
    FromScratchVerifies(total);
    SameUpToOnes(c, ONES - f, total);
  }

  lemma SameUpToOnes(c: nat, d: nat, total: nat)
    requires Verifies(c, total) && Verifies(d, total)
    ensures c == d || (c == 0 && d == ONES) || (c == ONES && d == 0)
  {
  }

  /** A checksum of all ones stays that only when all ones go and zero comes. */
  lemma OnesStay16(c: nat, o: nat, n: nat)
    requires c <= ONES && o <= ONES && n <= ONES
    ensures Fixup16(c, o, n) == ONES <==> c == ONES && o == ONES && n == 0
  {
    FoldTwice(ONES - c + (ONES - o) + n);
  }

  lemma OnesStay32(c: nat, o: nat, n: nat)
    requires c <= ONES && o < W32 && n < W32
    ensures Fixup32(c, o, n) == ONES <==> c == ONES && o == W32 - 1 && n == 0
  {
    Halves(o);
    Halves(n);
    FoldTwice(ONES - c + (ONES - o % 0x10000) + n % 0x10000 + (ONES - o / 0x10000) + n / 0x10000);
    HalvesOf(o);
    HalvesOf(n);
  }

  lemma HalvesOf(x: nat)
    requires x < W32
    ensures x == 0x10000 * (x / 0x10000) + x % 0x10000
    ensures x == W32 - 1 <==> x / 0x10000 == ONES && x % 0x10000 == ONES
  {
  }

  lemma Fixup32Exact(c: nat, o: nat, n: nat, total: nat, total': nat)
    requires c <= ONES && o < W32 && n < W32 && total + Halved(n) == total' + Halved(o)
    ensures Verifies(c, total) <==> Verifies(Fixup32(c, o, n), total')
    ensures c < ONES ==> Fixup32(c, o, n) < ONES
  {
    Halves(o);
    Halves(n);
    var sum := ONES - c + (ONES - o % 0x10000) + n % 0x10000 + (ONES - o / 0x10000) + n / 0x10000;
    FoldTwice(sum);
    FixupVerifies(c, sum, total, total', Halved(o), Halved(n), 2);
  }

  // ----- addresses

  function SumWords(a: seq<nat>): nat {
    if a == [] then 0 else SumWords(a[..|a| - 1]) + Halved(a[|a| - 1])
  }

  predicate WordsOk(a: seq<nat>) {
    forall i :: 0 <= i < |a| ==> a[i] < W32
  }

  /** The address of all ones is replaced by that of all zeros. */
  predicate OnesToZeros(o: seq<nat>, n: seq<nat>) {
    (forall i :: 0 <= i < |o| ==> o[i] == W32 - 1) && forall i :: 0 <= i < |n| ==> n[i] == 0
  }

  /** npf_addr_cksum: every word of the old address out, every word of the new one in. */
  method AddrCksum(c: nat, o: seq<nat>, n: seq<nat>) returns (r: nat)
    requires c <= ONES && |o| == |n| > 0 && WordsOk(o) && WordsOk(n)
    ensures r <= ONES && (r == ONES <==> c == ONES && OnesToZeros(o, n))
    ensures Updates(c, r, SumWords(o), SumWords(n))
  {
    r := c;
    var i := 0;
    while i < |o|
      invariant 0 <= i <= |o| && r <= ONES && (r == ONES <==> c == ONES && OnesToZeros(o[..i], n[..i]))
      invariant Updates(c, r, SumWords(o[..i]), SumWords(n[..i]))
    {
      SumNext(o, i);
      SumNext(n, i);
      UpdatesMore(c, r, SumWords(o[..i]), SumWords(n[..i]), o[i], n[i]);
      OnesStay32(r, o[i], n[i]);
      OnesNext(o, n, i);
      r := Fixup32(r, o[i], n[i]);
      i := i + 1;
    }
    assert o[..i] == o && n[..i] == n;
  }

  lemma OnesNext(o: seq<nat>, n: seq<nat>, i: nat)
    requires i < |o| == |n|
    ensures OnesToZeros(o[..i + 1], n[..i + 1]) <==> OnesToZeros(o[..i], n[..i]) && o[i] == W32 - 1 && n[i] == 0
  {
    var o', n' := o[..i + 1], n[..i + 1];
    assert forall k :: 0 <= k < i ==> o'[k] == o[..i][k] && n'[k] == n[..i][k];
    assert o'[i] == o[i] && n'[i] == n[i];
  }

  lemma SumNext(a: seq<nat>, i: nat)
    requires i < |a|
    ensures SumWords(a[..i + 1]) == SumWords(a[..i]) + Halved(a[i])
  {
    assert a[..i + 1][..i] == a[..i];
  }

  /** A checksum r is c brought up to date for data that lost some words and gained others. */
  ghost predicate Updates(c: nat, r: nat, gone: nat, come: nat) {
    forall total: nat, total': nat :: total + come == total' + gone ==> (Verifies(c, total) <==> Verifies(r, total'))
  }

  lemma UpdatesMore(c: nat, r: nat, gone: nat, come: nat, o: nat, n: nat)
    requires c <= ONES && r <= ONES && o < W32 && n < W32 && Updates(c, r, gone, come)
    ensures Updates(c, Fixup32(r, o, n), gone + Halved(o), come + Halved(n))
    ensures r < ONES ==> Fixup32(r, o, n) < ONES
  {
    hide Verifies, Fixup32, Halved;
    forall total: nat, total': nat | total + come + Halved(n) == total' + gone + Halved(o)
      ensures Verifies(c, total) <==> Verifies(Fixup32(r, o, n), total')
    {
      // enough common words on both sides to take the steps one after the other
      var big := ONES * (gone + Halved(n));
      MoreWords(c, total, gone + Halved(n));
      MoreWords(Fixup32(r, o, n), total', gone + Halved(n));
      var mid := total + come + big - gone;
      assert Verifies(c, total + big) <==> Verifies(r, mid);
      Fixup32Exact(r, o, n, mid, total' + big);
    }
    Fixup32Exact(r, o, n, Halved(o), Halved(n));
  }

  lemma MoreWords(c: nat, total: nat, k: nat)
    ensures Verifies(c, total + ONES * k) <==> Verifies(c, total)
  {
  }

  lemma UpdatesMore16(c: nat, r: nat, gone: nat, come: nat, o: nat, n: nat)
    requires c <= ONES && r <= ONES && o <= ONES && n <= ONES && Updates(c, r, gone, come)
    ensures Updates(c, Fixup16(r, o, n), gone + o, come + n)
    ensures r < ONES ==> Fixup16(r, o, n) < ONES
  {
    hide Verifies, Fixup16;
    forall total: nat, total': nat | total + come + n == total' + gone + o
      ensures Verifies(c, total) <==> Verifies(Fixup16(r, o, n), total')
    {
      var big := ONES * (gone + n);
      MoreWords(c, total, gone + n);
      MoreWords(Fixup16(r, o, n), total', gone + n);
      var mid := total + come + big - gone;
      assert Verifies(c, total + big) <==> Verifies(r, mid);
      Fixup16Exact(r, o, n, mid, total' + big);
    }
    Fixup16Exact(r, o, n, o, n);
  }
}
