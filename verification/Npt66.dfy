/** IPv6 prefix translation (src/kern/npf_inet.c, src/npfctl/npf_data.c), as in RFC 6296. */
module Npt66 {
  import opened Words
  import opened Checksum

  /** An address is eight sixteen-bit words. */
  predicate AddressOk(a: seq<nat>) {
    |a| == 8 && forall i :: 0 <= i < 8 ==> a[i] <= ONES
  }

  function Total(a: seq<nat>): nat
    requires |a| == 8
  {
    a[0] + a[1] + a[2] + a[3] + a[4] + a[5] + a[6] + a[7]
  }

  /** The low bits of one word joined to the other bits of another. */
  function Blend(p: nat, a: nat, bits: nat): nat {
    DivMod1(a, Pow2(bits));
    a - a % Pow2(bits) + p % Pow2(bits)
  }

  lemma DivMod1(a: nat, p: nat)
    requires p > 0
    ensures a % p <= a
  {
  }

  /**
   * The address with its first words replaced by those of the prefix and, when len is within a word, the
   * low bits of that word: the mask of the code counts from the other end than the prefix length does.
   */
  function Replaced(a: seq<nat>, pref: seq<nat>, len: nat): (r: seq<nat>)
    requires |a| == 8 && |pref| == 8
    ensures |r| == 8
  {
    seq(8, i requires 0 <= i < 8 => ReplacedWord(a[i], pref[i], len, i))
  }

  function ReplacedWord(a: nat, p: nat, len: nat, i: nat): nat {
    if i < len / 16 then p else if i == len / 16 && len % 16 != 0 then Blend(p, a, len % 16) else a
  }

  /** The part of a word that the rewriting covers. */
  function Covered(a: nat, len: nat, i: nat): nat {
    if i < len / 16 then a else if i == len / 16 && len % 16 != 0 then a % Pow2(len % 16) else 0
  }

  function PrefixSum(a: seq<nat>, len: nat): nat
    requires |a| == 8
  {
    Covered(a[0], len, 0) + Covered(a[1], len, 1) + Covered(a[2], len, 2) + Covered(a[3], len, 3)
    + Covered(a[4], len, 4) + Covered(a[5], len, 5) + Covered(a[6], len, 6) + Covered(a[7], len, 7)
  }

  /** One's complement addition, all ones becoming zero. */
  function Adjusted(w: nat, adj: nat): (r: nat)
    ensures r < ONES && r % ONES == (w + adj) % ONES
  {
    var s := Fold(w + adj);
    if s == ONES then 0 else s
  }

  /** The word to adjust: the subnet for prefixes up to 48 bits, else the first host word not all ones. */
  function AdjustedIndex(a: seq<nat>, len: nat): (w: nat)
    requires |a| == 8
    ensures w <= 8 && (len <= 48 ==> w == 3) && (len > 48 ==> w >= 4)
    ensures len > 48 && w < 8 ==> a[w] != ONES
    ensures forall i :: 4 <= i < w ==> a[i] == ONES
  {
    if len <= 48 then 3
    else if a[4] != ONES then 4
    else if a[5] != ONES then 5
    else if a[6] != ONES then 6
    else if a[7] != ONES then 7
    else 8
  }

  /** Addresses that cannot be translated. */
  predicate Refused(a: seq<nat>, len: nat)
    requires |a| == 8
  {
    if len <= 48 then a[3] == ONES
    else (a[4] == a[5] == a[6] == a[7] == 0) || (a[4] == a[5] == a[6] == a[7] == ONES)
  }

  function Translated(a: seq<nat>, pref: seq<nat>, len: nat, adj: nat): (r: Option<seq<nat>>)
    requires |a| == 8 && |pref| == 8
    ensures r.Some? ==> |r.value| == 8
  {
    if Refused(a, len) then None
    else
      var w := AdjustedIndex(a, len);
      var b := Replaced(a, pref, len);
      Some(b[w := Adjusted(b[w], adj)])
  }

  /** npf_npt66_rwr on an address in a packet. */
  method Rewrite(addr: array<nat>, pref: seq<nat>, len: nat, adj: nat) returns (ok: bool)
    requires addr.Length == 8 && AddressOk(addr[..]) && AddressOk(pref) && len <= 128 && adj <= ONES
    modifies addr
    ensures ok <==> Translated(old(addr[..]), pref, len, adj).Some?
    ensures addr[..] == if ok then Translated(old(addr[..]), pref, len, adj).value else old(addr[..])
  {
    hide Adjusted, Blend;
    ghost var a := addr[..];
    var preflen := len / 16;
    var word := 3;
    if len <= 48 {
      if addr[word] == ONES {
        return false;
      }
    } else {
      if (addr[4] == 0 && addr[5] == 0 && addr[6] == 0 && addr[7] == 0)
         || (addr[4] == ONES && addr[5] == ONES && addr[6] == ONES && addr[7] == ONES) {
        return false;
      }
      word := 4;
      while word < 8 && addr[word] == ONES
        invariant 4 <= word <= 8 && forall i :: 4 <= i < word ==> addr[i] == ONES
      {
        word := word + 1;
      }
    }
    assert word == AdjustedIndex(a, len);
    var i := 0;
    while i < preflen
      invariant 0 <= i <= preflen
      invariant forall j :: 0 <= j < 8 ==> addr[j] == if j < i then pref[j] else a[j]
    {
      addr[i] := pref[i];
      i := i + 1;
    }
    var remnant := len - preflen * 16;
    if remnant != 0 {
      addr[i] := Blend(pref[i], addr[i], remnant);
    }
    assert addr[..] == Replaced(a, pref, len);
    var sum := AddFold(addr[word], adj);
    addr[word] := sum;
    ok := true;
  }

  /** The folding loop. */
  method AddFold(w: nat, adj: nat) returns (sum: nat)
    ensures sum == Adjusted(w, adj)
  {
    sum := w + adj;
    while sum / 0x10000 != 0
      invariant Fold(sum) == Fold(w + adj)
      decreases sum
    {
      FoldStep(sum);
      sum := sum / 0x10000 + sum % 0x10000;
    }
    if sum == ONES {
      sum := 0;
    }
  }

  // ----- checksum neutrality

  lemma WordChange(a: nat, p: nat, len: nat, i: nat)
    ensures ReplacedWord(a, p, len, i) + Covered(a, len, i) == a + Covered(p, len, i)
  {
  }

  /** Replacing the prefix changes the sum of the words by the difference of the prefix sums. */
  lemma ReplacedTotal(a: seq<nat>, pref: seq<nat>, len: nat)
    requires |a| == 8 && |pref| == 8
    ensures Total(Replaced(a, pref, len)) + PrefixSum(a, len) == Total(a) + PrefixSum(pref, len)
  {
    hide ReplacedWord, Covered;
    WordChange(a[0], pref[0], len, 0);
    WordChange(a[1], pref[1], len, 1);
    WordChange(a[2], pref[2], len, 2);
    WordChange(a[3], pref[3], len, 3);
    WordChange(a[4], pref[4], len, 4);
    WordChange(a[5], pref[5], len, 5);
    WordChange(a[6], pref[6], len, 6);
    WordChange(a[7], pref[7], len, 7);
  }

  lemma UpdatedTotal(b: seq<nat>, w: nat, x: nat)
    requires |b| == 8 && w < 8
    ensures Total(b[w := x]) + b[w] == Total(b) + x
  {
  }

  /** Whenever the host part is not all ones there is a word to adjust. */
  lemma IndexFound(a: seq<nat>, len: nat)
    requires |a| == 8 && !Refused(a, len)
    ensures AdjustedIndex(a, len) < 8
  {
  }

  /**
   * The translation keeps the one's complement sum of the address exactly when the adjustment makes up
   * for the difference between the prefix it replaces and the new one.
   */
  lemma Neutral(a: seq<nat>, pref: seq<nat>, len: nat, adj: nat)
    requires AddressOk(a) && AddressOk(pref) && Translated(a, pref, len, adj).Some?
    ensures var b := Translated(a, pref, len, adj).value;
      Total(b) % ONES == Total(a) % ONES <==> adj % ONES == (PrefixSum(a, len) - PrefixSum(pref, len)) % ONES
  {
    hide Adjusted, Replaced, PrefixSum, Total;
    IndexFound(a, len);
    var w := AdjustedIndex(a, len);
    var m := Replaced(a, pref, len);
    var x := Adjusted(m[w], adj);
    ReplacedTotal(a, pref, len);
    UpdatedTotal(m, w, x);
    var b := m[w := x];
    // Total(b) is Total(a) + prefix difference + adj, up to multiples of 0xffff
    ResidueAdd(Total(m) - m[w], x, m[w] + adj);
    var d := PrefixSum(a, len) - PrefixSum(pref, len);
    assert Total(m) + adj == Total(a) + (adj - d);
    ModDifference(Total(a), adj - d);
    ModDifference2(adj, d);
  }

  lemma ModDifference(t: int, e: int)
    ensures (t + e) % ONES == t % ONES <==> e % ONES == 0
  {
  }

  lemma ModDifference2(x: int, y: int)
    ensures (x - y) % ONES == 0 <==> x % ONES == y % ONES
  {
  }

  // ----- the way back

  /** The value of a word in network byte order, when words are loaded little-endian or not. */
  function NetWord(w: nat, little: bool): nat {
    if little then (w % 256) * 256 + w / 256 else w
  }

  function HighPart(w: nat, n: nat): nat
    requires n > 0
  {
    w / n
  }

  /** The bits of a word that belong to a prefix, which are the leading ones. */
  function Leading(w: nat, len: nat, i: nat, little: bool): nat {
    if i < len / 16 then w
    else if i == len / 16 && len % 16 != 0 then HighPart(NetWord(w, little), Pow2(16 - len % 16))
    else 0
  }

  /** An address lies within a prefix. */
  predicate Within(a: seq<nat>, pref: seq<nat>, len: nat, little: bool)
    requires |a| == 8 && |pref| == 8
  {
    forall i: nat :: i < 8 ==> Leading(a[i], len, i, little) == Leading(pref[i], len, i, little)
  }

  /** Lengths for which the mask selects the leading bits. */
  predicate GoodLen(len: nat, little: bool) {
    len % 16 == 0 || (little && len % 16 == 8)
  }

  predicate SameCovered(a: seq<nat>, pref: seq<nat>, len: nat)
    requires |a| == 8 && |pref| == 8
  {
    forall i: nat :: i < 8 ==> Covered(a[i], len, i) == Covered(pref[i], len, i)
  }

  lemma GoodWithin(a: seq<nat>, pref: seq<nat>, len: nat, little: bool)
    requires AddressOk(a) && AddressOk(pref) && GoodLen(len, little) && Within(a, pref, len, little)
    ensures SameCovered(a, pref, len)
  {
    hide Pow2, Within;
    forall i: nat | i < 8
      ensures Covered(a[i], len, i) == Covered(pref[i], len, i)
    {
      LeadingAt(a, pref, len, little, i);
      assert Pow2(8) == 256 by { Pow2Of8(); }
      FirstByte(a[i]);
      FirstByte(pref[i]);
    }
  }

  lemma LeadingAt(a: seq<nat>, pref: seq<nat>, len: nat, little: bool, i: nat)
    requires |a| == 8 && |pref| == 8 && i < 8 && Within(a, pref, len, little)
    ensures Leading(a[i], len, i, little) == Leading(pref[i], len, i, little)
  {
  }

  lemma Pow2Of8()
    ensures Pow2(8) == 256
  {
    assert Pow2(4) == 16;
    assert Pow2(6) == 64;
  }

  lemma FirstByte(w: nat)
    requires w <= ONES
    ensures NetWord(w, true) / 256 == w % 256
  {
  }

  lemma BackAndForth(a: nat, p: nat, q: nat, len: nat, i: nat)
    requires Covered(a, len, i) == Covered(q, len, i)
    ensures ReplacedWord(ReplacedWord(a, p, len, i), q, len, i) == a
  {
    if i == len / 16 && len % 16 != 0 {
      BlendBack(a, p, q, len % 16);
    }
  }

  lemma BlendBack(a: nat, p: nat, q: nat, bits: nat)
    requires a % Pow2(bits) == q % Pow2(bits)
    ensures Blend(q, Blend(p, a, bits), bits) == a
  {
    var n := Pow2(bits);
    var h, l := DivMod(a, n);
    ModUnique(Blend(p, a, bits), n, h, p % n);
  }

  /** Adding an adjustment and then its complement gives back every word but all ones. */
  lemma AdjustBack(w: nat, adj: nat)
    requires w < ONES && adj <= ONES
    ensures Adjusted(Adjusted(w, adj), ONES - adj) == w
  {
    var x := Adjusted(w, adj);
    ResidueAdd(ONES - adj, x, w + adj);
    Residue(w, 1);
    var y := Adjusted(x, ONES - adj);
    ModUnique(w, ONES, 0, w);
    ModUnique(y, ONES, 0, y);
  }

  lemma Untouched(a: seq<nat>, pref: seq<nat>, len: nat, i: nat)
    requires |a| == 8 && |pref| == 8 && len <= 64 && i < 8 && (if len <= 48 then i >= 3 else i >= 4)
    ensures Replaced(a, pref, len)[i] == a[i]
  {
  }

  /** What goes out cannot come back: the only host word that is not zero becomes zero. */
  predicate NoWayBack(a: seq<nat>, len: nat, adj: nat)
    requires |a| == 8
  {
    len > 48 && a[4] != ONES && a[5] == a[6] == a[7] == 0 && (a[4] + adj) % ONES == 0
  }

  /**
   * Out with an adjustment and in again with its complement: the address is refused only if its host part
   * became zero, which cannot happen up to 48 bits; otherwise it is the same as before.
   */
  lemma RoundTrip(a: seq<nat>, inner: seq<nat>, outer: seq<nat>, len: nat, little: bool, adj: nat)
    requires AddressOk(a) && AddressOk(inner) && AddressOk(outer) && adj <= ONES && Within(a, inner, len, little)
    requires len <= 64 && GoodLen(len, little) && Translated(a, outer, len, adj).Some?
    ensures var back := Translated(Translated(a, outer, len, adj).value, inner, len, ONES - adj);
      back == if NoWayBack(a, len, adj) then None else Some(a)
  {
    hide Adjusted, Replaced, Covered, Within;
    GoodWithin(a, inner, len, little);
    IndexFound(a, len);
    var w := AdjustedIndex(a, len);
    var m := Replaced(a, outer, len);
    var b := Translated(a, outer, len, adj).value;
    assert b == m[w := Adjusted(m[w], adj)];
    forall i: nat | i < 8 && (if len <= 48 then i >= 3 else i >= 4)
      ensures m[i] == a[i]
    {
      Untouched(a, outer, len, i);
    }
    ZeroWord(Adjusted(a[w], adj));
    assert Refused(b, len) <==> NoWayBack(a, len, adj);
    if !NoWayBack(a, len, adj) {
      assert AdjustedIndex(b, len) == w;
      Restored(a, inner, outer, len, adj, w, b);
    }
  }

  lemma ZeroWord(w: nat)
    requires w < ONES
    ensures w == 0 <==> w % ONES == 0
  {
  }

  lemma Restored(a: seq<nat>, inner: seq<nat>, outer: seq<nat>, len: nat, adj: nat, w: nat, b: seq<nat>)
    requires AddressOk(a) && |inner| == 8 && |outer| == 8 && len <= 64 && adj <= ONES && SameCovered(a, inner, len)
    requires w < 8 && (if len <= 48 then w >= 3 else w >= 4) && a[w] < ONES && |b| == 8
    requires b == Replaced(a, outer, len)[w := Adjusted(a[w], adj)] && !Refused(b, len) && AdjustedIndex(b, len) == w
    ensures Translated(b, inner, len, ONES - adj) == Some(a)
  {
    hide Adjusted, Replaced, Covered;
    var n := Replaced(b, inner, len);
    var c := Translated(b, inner, len, ONES - adj).value;
    assert c == n[w := Adjusted(n[w], ONES - adj)];
    Untouched(b, inner, len, w);
    AdjustBack(a[w], adj);
    forall i: nat | i < 8 ensures c[i] == a[i] {
      if i != w { RestoredWord(a, inner, outer, len, b, i); }
    }
    assert c == a;
  }

  lemma RestoredWord(a: seq<nat>, inner: seq<nat>, outer: seq<nat>, len: nat, b: seq<nat>, i: nat)
    requires |a| == 8 && |inner| == 8 && |outer| == 8 && |b| == 8 && i < 8 && SameCovered(a, inner, len)
    requires b[i] == Replaced(a, outer, len)[i]
    ensures Replaced(b, inner, len)[i] == a[i]
  {
    hide Covered, Blend;
    BackAndForth(a[i], outer[i], inner[i], len, i);
  }

  /** Whether every address of every prefix of a length that goes out and comes back is the same as before. */
  ghost predicate RoundTripsAlways(len: nat, little: bool) {
    forall a: seq<nat>, inner: seq<nat>, outer: seq<nat>, adj: nat ::
      AddressOk(a) && AddressOk(inner) && AddressOk(outer) && adj <= ONES && Within(a, inner, len, little) ==>
        ComesBack(a, inner, outer, len, adj)
  }

  predicate ComesBack(a: seq<nat>, inner: seq<nat>, outer: seq<nat>, len: nat, adj: nat)
    requires |a| == 8 && |inner| == 8 && |outer| == 8 && adj <= ONES
  {
    var out := Translated(a, outer, len, adj);
    out.Some? ==> (var back := Translated(out.value, inner, len, ONES - adj); back.Some? ==> back.value == a)
  }

  const ZERO: seq<nat> := [0, 0, 0, 0, 0, 0, 0, 0]

  /** A word that is zero in its leading bits and not in its low ones. */
  function Stray(bits: nat, little: bool): nat {
    if little && bits > 8 then 256 else 1
  }

  lemma StrayWord(bits: nat, little: bool)
    requires 0 < bits < 16 && !(little && bits == 8)
    ensures HighPart(NetWord(Stray(bits, little), little), Pow2(16 - bits)) == 0
    ensures 0 < Stray(bits, little) % Pow2(bits) == Stray(bits, little) < ONES
    ensures HighPart(NetWord(0, little), Pow2(16 - bits)) == 0
  {
    Pow2Of8();
    if little && bits > 8 {
      Pow2Monotone(9, bits);
      assert Pow2(9) == 2 * Pow2(8);
      Pow2Monotone(1, 16 - bits);
      Small(1, Pow2(16 - bits));
      Small(256, Pow2(bits));
    } else {
      if little { Pow2Monotone(9, 16 - bits); assert Pow2(9) == 2 * Pow2(8); }
      Pow2Monotone(1, 16 - bits);
      Pow2Monotone(1, bits);
      Small(if little then 256 else 1, Pow2(16 - bits));
      Small(1, Pow2(bits));
    }
    Small(0, Pow2(16 - bits));
  }

  lemma Small(x: nat, n: nat)
    requires x < n
    ensures x / n == 0 && x % n == x
  {
  }

  /** An address of the zero prefix that differs from it in the low bits of the partial word. */
  function StrayAddress(len: nat, little: bool): (a: seq<nat>)
    requires 0 < len < 128
    ensures |a| == 8
  {
    ZERO[7 := 1][len / 16 := Stray(len % 16, little)]
  }

  lemma StrayWithin(len: nat, little: bool)
    requires len < 128 && !GoodLen(len, little)
    ensures var a := StrayAddress(len, little);
      AddressOk(a) && Within(a, ZERO, len, little) && !Refused(a, len)
  {
    hide NetWord, Stray, Pow2;
    StrayWord(len % 16, little);
    var a := StrayAddress(len, little);
    forall i: nat | i < 8
      ensures Leading(a[i], len, i, little) == Leading(ZERO[i], len, i, little)
    {
    }
  }

  lemma StrayIsLost(len: nat, little: bool)
    requires len <= 64 && !GoodLen(len, little)
    ensures AddressOk(ZERO) && !ComesBack(StrayAddress(len, little), ZERO, ZERO, len, 0)
  {
    hide NetWord, Stray, Pow2, Adjusted, Within;
    StrayWithin(len, little);
    StrayWord(len % 16, little);
    var a, n := StrayAddress(len, little), len / 16;
    var w := AdjustedIndex(a, len);
    assert w == (if len <= 48 then 3 else 4) && w != n && a[w] == 0;
    var b := Translated(a, ZERO, len, 0).value;
    assert Replaced(a, ZERO, len)[n] == Blend(0, a[n], len % 16) == 0 by { Small(0, Pow2(len % 16)); }
    assert b[n] == 0;
    assert Adjusted(0, 0) == 0 by { ZeroWord(Adjusted(0, 0)); }
    Untouched(a, ZERO, len, w);
    if len > 48 { Untouched(a, ZERO, len, 7); }
    assert !Refused(b, len);
    var c := Translated(b, ZERO, len, ONES).value;
    assert AdjustedIndex(b, len) == w;
    assert Replaced(b, ZERO, len)[n] == Blend(0, 0, len % 16) == 0 by { Small(0, Pow2(len % 16)); }
    assert c[n] == 0 != a[n];
  }

  const LAST: seq<nat> := [0, 0, 0, 0, 0, 0, 0, 1]

  /** Beyond 64 bits the adjusted word belongs to the prefix, and the way back loses the adjustment. */
  lemma LongIsLost(len: nat)
    requires 64 < len <= 128
    ensures AddressOk(LAST) && !ComesBack(LAST, LAST, LAST, len, 1)
  {
    hide Adjusted, Pow2, Blend;
    assert Adjusted(0, 1) == 1 by { ModUnique(Adjusted(0, 1), ONES, 0, Adjusted(0, 1)); }
    assert Adjusted(0, ONES - 1) == ONES - 1 by { ModUnique(Adjusted(0, ONES - 1), ONES, 0, Adjusted(0, ONES - 1)); }
    forall i: nat | i < 8
      ensures ReplacedWord(LAST[i], LAST[i], len, i) == LAST[i]
    {
      BlendSelf(LAST[i], len % 16);
    }
    var m := Replaced(LAST, LAST, len);
    assert m == LAST;
    var b := LAST[4 := 1];
    assert Translated(LAST, LAST, len, 1) == Some(b);
    assert Replaced(b, LAST, len)[4] == 0 by { LowBit(len % 16); }
    assert Translated(b, LAST, len, ONES - 1).value[4] == ONES - 1;
  }

  lemma BlendSelf(w: nat, bits: nat)
    ensures Blend(w, w, bits) == w
  {
  }

  lemma LowBit(bits: nat)
    ensures bits > 0 ==> Blend(0, 1, bits) == 0
  {
    if bits > 0 {
      Pow2Monotone(1, bits);
      Small(1, Pow2(bits));
      Small(0, Pow2(bits));
    }
  }

  /** The prefix lengths for which no address is ever changed by going out and coming back. */
  lemma RoundTripsExactly(len: nat, little: bool)
    requires len <= 128
    ensures RoundTripsAlways(len, little) <==> len <= 64 && GoodLen(len, little)
  {
    hide Translated, Within;
    if len <= 64 && GoodLen(len, little) {
      forall a: seq<nat>, inner: seq<nat>, outer: seq<nat>, adj: nat |
        AddressOk(a) && AddressOk(inner) && AddressOk(outer) && adj <= ONES && Within(a, inner, len, little)
        ensures ComesBack(a, inner, outer, len, adj)
      {
        if Translated(a, outer, len, adj).Some? { RoundTrip(a, inner, outer, len, little, adj); }
      }
    } else if len > 64 {
      LongIsLost(len);
      assert Within(LAST, LAST, len, little) by { WithinItself(LAST, len, little); }
    } else {
      StrayIsLost(len, little);
      StrayWithin(len, little);
    }
  }

  lemma WithinItself(a: seq<nat>, len: nat, little: bool)
    requires |a| == 8
    ensures Within(a, a, len, little)
  {
  }

  /** An address of ::/64 that goes out with an adjustment of 0xfffe and is refused on the way back. */
  lemma WayBackRefused()
    ensures var a := ZERO[4 := 1];
      && Within(a, ZERO, 64, false) && Translated(a, ZERO, 64, 0xfffe).Some?
      && Translated(Translated(a, ZERO, 64, 0xfffe).value, ZERO, 64, ONES - 0xfffe) == None
  {
    hide Translated;
    assert Translated(ZERO[4 := 1], ZERO, 64, 0xfffe).Some? by { NotRefused(ZERO[4 := 1], ZERO, 64, 0xfffe); }
    RoundTrip(ZERO[4 := 1], ZERO, ZERO, 64, false, 0xfffe);
  }

  lemma NotRefused(a: seq<nat>, pref: seq<nat>, len: nat, adj: nat)
    requires |a| == 8 && |pref| == 8 && !Refused(a, len)
    ensures Translated(a, pref, len, adj).Some?
  {
  }

  /** An address of fd00:1:2:3450::/60 that comes back as another one. */
  lemma SubnetBitsLost()
    ensures var inner: seq<nat> := [0xfd00, 1, 2, 0x3450, 0, 0, 0, 0];
      var outer: seq<nat> := [0x2001, 0xdb8, 2, 0x1230, 0, 0, 0, 0];
      var a: seq<nat> := [0xfd00, 1, 2, 0x3457, 0, 0, 0, 1];
      && Within(a, inner, 60, false)
      && Translated(a, outer, 60, 0) == Some([0x2001, 0xdb8, 2, 0x3230, 0, 0, 0, 1])
      && Translated([0x2001, 0xdb8, 2, 0x3230, 0, 0, 0, 1], inner, 60, ONES) == Some([0xfd00, 1, 2, 0x3450, 0, 0, 0, 1])
  {
    hide Adjusted, Pow2;
    assert Pow2(4) == 16 && Pow2(12) == 4096 by { Pow2Of12(); }
    assert Adjusted(0, 0) == 0 && Adjusted(0, ONES) == 0 by {
      ZeroWord(Adjusted(0, 0));
      ZeroWord(Adjusted(0, ONES));
    }
    var inner: seq<nat> := [0xfd00, 1, 2, 0x3450, 0, 0, 0, 0];
    var outer: seq<nat> := [0x2001, 0xdb8, 2, 0x1230, 0, 0, 0, 0];
    var a: seq<nat> := [0xfd00, 1, 2, 0x3457, 0, 0, 0, 1];
    var b: seq<nat> := [0x2001, 0xdb8, 2, 0x3230, 0, 0, 0, 1];
    var c: seq<nat> := [0xfd00, 1, 2, 0x3450, 0, 0, 0, 1];
    assert Replaced(a, outer, 60) == b && Replaced(b, inner, 60) == c;
    assert b[4 := 0] == b && c[4 := 0] == c;
    assert AdjustedIndex(a, 60) == 4 && AdjustedIndex(b, 60) == 4;
  }

  lemma Pow2Of12()
    ensures Pow2(4) == 16 && Pow2(12) == 4096
  {
    Pow2Of8();
    assert Pow2(10) == 1024;
  }

  // ----- the adjustment

  /** The sum of a prefix, folded, as npfctl_npt66_calcadj does it. */
  method SumPrefix(a: seq<nat>, len: nat) returns (sum: nat)
    requires AddressOk(a) && len < 128
    ensures sum == Fold(PrefixSum(a, len))
  {
    var preflen, i := len / 16, 0;
    sum := 0;
    while i < preflen
      invariant 0 <= i <= preflen && sum == Head(a, i)
    {
      sum := sum + a[i];
      i := i + 1;
    }
    sum := sum + a[i] % Pow2(len % 16);
    PrefixHead(a, len);
    while sum / 0x10000 != 0
      invariant Fold(sum) == Fold(PrefixSum(a, len))
      decreases sum
    {
      FoldStep(sum);
      sum := sum / 0x10000 + sum % 0x10000;
    }
  }

  function Head(a: seq<nat>, n: nat): nat
    requires n <= |a|
  {
    if n == 0 then 0 else Head(a, n - 1) + a[n - 1]
  }

  lemma PrefixHead(a: seq<nat>, len: nat)
    requires AddressOk(a) && len < 128
    ensures PrefixSum(a, len) == Head(a, len / 16) + a[len / 16] % Pow2(len % 16)
  {
    var n := len / 16;
    assert Head(a, 0) == 0 && Head(a, 1) == a[0] && Head(a, 2) == a[0] + a[1] && Head(a, 3) == a[0] + a[1] + a[2];
    assert Head(a, 4) == Head(a, 3) + a[3] && Head(a, 5) == Head(a, 4) + a[4];
    assert Head(a, 6) == Head(a, 5) + a[5] && Head(a, 7) == Head(a, 6) + a[6];
    if len % 16 == 0 { assert Pow2(0) == 1; }
  }

  /** npfctl_npt66_calcadj: the complement is taken on 32 bits. */
  method CalcAdj(len: nat, inner: seq<nat>, outer: seq<nat>) returns (adj: nat)
    requires AddressOk(inner) && AddressOk(outer) && len < 128
    ensures adj <= ONES
    ensures adj == Adjustment(Fold(PrefixSum(inner, len)), Fold(PrefixSum(outer, len)))
  {
    var isum := SumPrefix(inner, len);
    var osum := SumPrefix(outer, len);
    adj := (isum + (W32 - 1 - osum)) % W32;
    ghost var start := adj;
    while adj / 0x10000 != 0
      invariant Fold(adj) == Fold(start)
      decreases adj
    {
      FoldStep(adj);
      adj := adj / 0x10000 + adj % 0x10000;
    }
  }

  function Adjustment(isum: nat, osum: nat): nat
    requires osum <= ONES
  {
    Fold((isum + (W32 - 1 - osum)) % W32)
  }

  /**
   * The adjustment is the one's complement difference exactly when the inner sum is not larger than the
   * outer one; otherwise it is one less.
   */
  lemma AdjustmentExact(isum: nat, osum: nat)
    requires isum <= ONES && osum <= ONES
    ensures Adjustment(isum, osum) % ONES == (isum - osum) % ONES <==> isum <= osum
    ensures isum > osum ==> Adjustment(isum, osum) == isum - osum - 1
  {
    if isum <= osum {
      var x := isum + (W32 - 1 - osum);
      ModUnique(x, W32, 0, x);
      assert W32 - 1 == ONES * 0x10001;
      Residue(isum - osum, 0x10001);
    } else {
      ModUnique(isum + (W32 - 1 - osum), W32, 1, isum - osum - 1);
      ModDifference(isum - osum, -1);
    }
  }

  /** Whether translating with the computed adjustment keeps the one's complement sum of an address. */
  predicate KeepsSum(a: seq<nat>, inner: seq<nat>, outer: seq<nat>, len: nat)
    requires |a| == 8 && |inner| == 8 && |outer| == 8
  {
    var out := Translated(a, outer, len, Adjustment(Fold(PrefixSum(inner, len)), Fold(PrefixSum(outer, len))));
    out.Some? ==> Total(out.value) % ONES == Total(a) % ONES
  }

  /**
   * Whether it depends only on the prefixes, in the same way for every address: the sum is kept exactly
   * when the folded inner prefix sum is not larger than the outer one.
   */
  ghost predicate NeutralByPrefixes(len: nat, little: bool) {
    forall a: seq<nat>, inner: seq<nat>, outer: seq<nat> ::
      AddressOk(a) && AddressOk(inner) && AddressOk(outer) && Within(a, inner, len, little) && !Refused(a, len) ==>
        (KeepsSum(a, inner, outer, len) <==> Fold(PrefixSum(inner, len)) <= Fold(PrefixSum(outer, len)))
  }

  lemma NeutralForGoodLen(a: seq<nat>, inner: seq<nat>, outer: seq<nat>, len: nat, little: bool)
    requires AddressOk(a) && AddressOk(inner) && AddressOk(outer) && GoodLen(len, little)
    requires Within(a, inner, len, little) && !Refused(a, len)
    ensures KeepsSum(a, inner, outer, len) <==> Fold(PrefixSum(inner, len)) <= Fold(PrefixSum(outer, len))
  {
    hide Total, Adjustment, Covered, Within;
    GoodWithin(a, inner, len, little);
    assert PrefixSum(a, len) == PrefixSum(inner, len);
    var x, y := PrefixSum(inner, len), PrefixSum(outer, len);
    hide PrefixSum;
    var adj := Adjustment(Fold(x), Fold(y));
    Neutral(a, outer, len, adj);
    AdjustmentExact(Fold(x), Fold(y));
    ResidueAdd(x, Fold(y), y);
    ResidueAdd(0 - Fold(y), Fold(x), x);
  }

  lemma StraySum(len: nat, little: bool)
    requires len < 128 && !GoodLen(len, little)
    ensures PrefixSum(ZERO, len) == 0 && PrefixSum(StrayAddress(len, little), len) == Stray(len % 16, little)
  {
    hide Pow2, Stray, NetWord;
    StrayWord(len % 16, little);
    Small(0, Pow2(len % 16));
    var a := StrayAddress(len, little);
    forall i: nat | i < 8
      ensures Covered(ZERO[i], len, i) == 0
      ensures Covered(a[i], len, i) == if i == len / 16 then Stray(len % 16, little) else 0
    {
    }
  }

  lemma StrayNotNeutral(len: nat, little: bool)
    requires len < 128 && !GoodLen(len, little)
    ensures AddressOk(ZERO) && PrefixSum(ZERO, len) == 0 && !KeepsSum(StrayAddress(len, little), ZERO, ZERO, len)
  {
    hide Total, Adjustment, Within, Pow2, Stray, NetWord, Replaced;
    StrayWithin(len, little);
    StrayWord(len % 16, little);
    var a := StrayAddress(len, little);
    StraySum(len, little);
    hide PrefixSum;
    AdjustmentExact(0, 0);
    Neutral(a, ZERO, len, Adjustment(0, 0));
    ZeroWord(Stray(len % 16, little));
  }

  /** The prefix lengths for which neutrality depends on the prefixes alone. */
  lemma NeutralExactly(len: nat, little: bool)
    requires len < 128
    ensures NeutralByPrefixes(len, little) <==> GoodLen(len, little)
  {
    hide Within, Refused, KeepsSum, PrefixSum;
    if GoodLen(len, little) {
      forall a: seq<nat>, inner: seq<nat>, outer: seq<nat> |
        AddressOk(a) && AddressOk(inner) && AddressOk(outer) && Within(a, inner, len, little) && !Refused(a, len)
        ensures KeepsSum(a, inner, outer, len) <==> Fold(PrefixSum(inner, len)) <= Fold(PrefixSum(outer, len))
      {
        NeutralForGoodLen(a, inner, outer, len, little);
      }
    } else {
      StrayNotNeutral(len, little);
      StrayWithin(len, little);
    }
  }

  /** An address of 2::/16 whose sum changes when it is translated to 1::/16: the adjustment is one too small. */
  lemma NotNeutral()
    ensures var inner, outer, a: seq<nat> := ZERO[0 := 2], ZERO[0 := 1], LAST[0 := 2];
      && Within(a, inner, 16, false) && Adjustment(Fold(PrefixSum(inner, 16)), Fold(PrefixSum(outer, 16))) == 0
      && Translated(a, outer, 16, 0) == Some(LAST[0 := 1]) && Total(a) == 3 && Total(LAST[0 := 1]) == 2
  {
    AdjustmentExact(2, 1);
    hide Adjusted, Adjustment;
    assert Adjusted(0, 0) == 0 by { ZeroWord(Adjusted(0, 0)); }
    assert Replaced(LAST[0 := 2], ZERO[0 := 1], 16) == LAST[0 := 1];
    assert LAST[0 := 1][3 := 0] == LAST[0 := 1];
    assert PrefixSum(ZERO[0 := 2], 16) == 2 && PrefixSum(ZERO[0 := 1], 16) == 1;
  }

  const INNER60: seq<nat> := [1, 0, 0, 0x3450, 0, 0, 0, 0]
  const OUTER60: seq<nat> := [2, 0, 0, 0x3450, 0, 0, 0, 0]
  const INSIDE60: seq<nat> := [1, 0, 0, 0x3457, 0, 0, 0, 1]

  lemma Sums60()
    ensures PrefixSum(INNER60, 60) == 0x451 && PrefixSum(OUTER60, 60) == 0x452 && PrefixSum(INSIDE60, 60) == 0x458
    ensures Within(INSIDE60, INNER60, 60, false)
  {
    hide Pow2;
    Pow2Of12();
  }

  /** An address of 1:0:0:3450::/60 whose sum changes though the inner prefix sum is the smaller one. */
  lemma NotNeutralWithinWord()
    ensures Within(INSIDE60, INNER60, 60, false) && Fold(PrefixSum(INNER60, 60)) < Fold(PrefixSum(OUTER60, 60))
    ensures !Refused(INSIDE60, 60) && !KeepsSum(INSIDE60, INNER60, OUTER60, 60)
  {
    hide PrefixSum, Adjustment, Replaced, Total, Adjusted, Within;
    Sums60();
    AdjustmentExact(0x451, 0x452);
    Neutral(INSIDE60, OUTER60, 60, Adjustment(0x451, 0x452));
  }
}
