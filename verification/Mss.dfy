/** MSS clamping: the option scans of src/kern/npf_inet.c and their use in src/kern/npf_ext_normalize.c. */
module Mss {
  import opened Words
  import opened Checksum

  const EOL := 0
  const NOP := 1
  const MAXSEG := 2
  const MAXSEG_LEN := 4

  predicate BytesOk(b: seq<nat>) {
    forall i :: 0 <= i < |b| ==> b[i] < 256
  }

  /** Two bytes as a word, in network byte order. */
  function Word(hi: nat, lo: nat): nat { 256 * hi + lo }

  /** The length of the option at an offset, or none where the scan stops. */
  function OptionLen(b: seq<nat>, i: nat): (r: Option<nat>)
    requires i < |b|
    ensures r.Some? ==> 1 <= r.value <= |b| - i
  {
    if b[i] == EOL then None
    else if b[i] == NOP then Some(1)
    else if i + 1 >= |b| || b[i + 1] < 2 || b[i + 1] > |b| - i then None
    else Some(b[i + 1])
  }

  predicate IsMss(b: seq<nat>, i: nat)
    requires i < |b|
  {
    b[i] == MAXSEG && OptionLen(b, i) == Some(MAXSEG_LEN)
  }

  /** The offsets of the MSS options that the scan reaches from an offset on. */
  function MssOffsets(b: seq<nat>, i: nat): seq<nat>
    requires i <= |b|
    decreases |b| - i
  {
    if i == |b| || OptionLen(b, i).None? then []
    else (if IsMss(b, i) then [i] else []) + MssOffsets(b, i + OptionLen(b, i).value)
  }

  predicate AllFit(ps: seq<nat>, n: nat) {
    forall k :: 0 <= k < |ps| ==> ps[k] + 4 <= n
  }

  lemma OffsetsStep(b: seq<nat>, i: nat)
    requires i <= |b|
    ensures i == |b| || OptionLen(b, i).None? ==> MssOffsets(b, i) == []
    ensures i < |b| && OptionLen(b, i).Some? ==>
      MssOffsets(b, i) == (if IsMss(b, i) then [i] else []) + MssOffsets(b, i + OptionLen(b, i).value)
  {
  }

  lemma {:induction false} OffsetsFit(b: seq<nat>, i: nat)
    requires i <= |b|
    ensures AllFit(MssOffsets(b, i), |b|)
    decreases |b| - i
  {
    if i < |b| && OptionLen(b, i).Some? {
      OffsetsFit(b, i + OptionLen(b, i).value);
    }
  }

  function LastValue(b: seq<nat>, ps: seq<nat>): nat
    requires AllFit(ps, |b|)
  {
    if ps == [] then 0 else Word(b[ps[|ps| - 1] + 2], b[ps[|ps| - 1] + 3])
  }

  function MssValue(b: seq<nat>): nat {
    OffsetsFit(b, 0);
    LastValue(b, MssOffsets(b, 0))
  }

  /** npf_fetch_tcpopts: the value of the last MSS option, or zero. */
  method Fetch(b: seq<nat>) returns (mss: nat)
    ensures mss == MssValue(b)
  {
    hide MssOffsets, Word;
    mss := 0;
    var i := 0;
    ghost var seen: seq<nat> := [];
    OffsetsFit(b, 0);
    while i < |b|
      invariant 0 <= i <= |b|
      invariant MssOffsets(b, 0) == seen + MssOffsets(b, i)
      invariant AllFit(seen, |b|)
      invariant mss == LastValue(b, seen)
    {
      OffsetsStep(b, i);
      var len := OptionLen(b, i);
      if len.None? {
        break;
      }
      if IsMss(b, i) {
        mss := Word(b[i + 2], b[i + 3]);
        seen := seen + [i];
      }
      i := i + len.value;
    }
    OffsetsStep(b, i);
    assert MssOffsets(b, 0) == seen;
  }

  /** The bytes with one MSS option rewritten. */
  function SetAt(b: seq<nat>, p: nat, hi: nat, lo: nat): (r: seq<nat>)
    requires p + 4 <= |b|
    ensures |r| == |b|
  {
    b[p + 2 := hi][p + 3 := lo]
  }

  /** All bytes with every listed option rewritten. */
  function SetAll(b: seq<nat>, ps: seq<nat>, hi: nat, lo: nat): (r: seq<nat>)
    requires AllFit(ps, |b|)
    ensures |r| == |b|
  {
    if ps == [] then b else SetAt(SetAll(b, ps[..|ps| - 1], hi, lo), ps[|ps| - 1], hi, lo)
  }

  /** What npf_set_mss reports for the checksum: the words around an option that is not aligned. */
  datatype Report = Report(mid: bool, old0: nat, old1: nat, new0: nat, new1: nat)

  /** An unaligned option always has a byte behind it, since the options end on a four-byte boundary. */
  lemma ByteBehind(n: nat, p: nat)
    requires n % 4 == 0 && p + 4 <= n && p % 2 == 1
    ensures p + 4 < n
  {
  }

  function ReportAt(b: seq<nat>, p: nat, hi: nat, lo: nat): Report
    requires p + 4 <= |b| && |b| % 4 == 0
  {
    if p % 2 == 0 then Report(false, 0, 0, 0, 0)
    else
      ByteBehind(|b|, p);
      Report(true, Word(b[p + 1], b[p + 2]), Word(b[p + 3], b[p + 4]), Word(b[p + 1], hi), Word(lo, b[p + 4]))
  }

  /** The report on the last of several options, which is made when the others have been rewritten. */
  function LastReport(b: seq<nat>, ps: seq<nat>, hi: nat, lo: nat): Report
    requires AllFit(ps, |b|) && ps != [] && |b| % 4 == 0
  {
    ReportAt(SetAll(b, ps[..|ps| - 1], hi, lo), ps[|ps| - 1], hi, lo)
  }

  /** npf_set_mss on the option at an offset. */
  method SetOne(opts: array<nat>, i: nat, hi: nat, lo: nat) returns (r: Report)
    requires opts.Length % 4 == 0 && i + 4 <= opts.Length
    modifies opts
    ensures opts[..] == SetAt(old(opts[..]), i, hi, lo) && r == ReportAt(old(opts[..]), i, hi, lo)
    ensures BytesOk(old(opts[..])) && hi < 256 && lo < 256 ==> ReportFits(r) && BytesOk(opts[..])
  {
    if i % 2 != 0 {
      ByteBehind(opts.Length, i);
      r := Report(true, Word(opts[i + 1], opts[i + 2]), Word(opts[i + 3], opts[i + 4]), 0, 0);
      opts[i + 2], opts[i + 3] := hi, lo;
      r := r.(new0 := Word(opts[i + 1], opts[i + 2]), new1 := Word(opts[i + 3], opts[i + 4]));
    } else {
      r := Report(false, 0, 0, 0, 0);
      opts[i + 2], opts[i + 3] := hi, lo;
    }
  }

  /** npf_set_mss: rewrite every MSS option the scan finds, and report on the last one. */
  method SetMss(opts: array<nat>, hi: nat, lo: nat) returns (r: Report)
    requires opts.Length % 4 == 0
    modifies opts
    ensures AllFit(MssOffsets(old(opts[..]), 0), opts.Length)
    ensures opts[..] == SetAll(old(opts[..]), MssOffsets(old(opts[..]), 0), hi, lo)
    ensures var b := old(opts[..]); var ps := MssOffsets(b, 0);
      ps != [] ==> r == LastReport(b, ps, hi, lo)
    ensures BytesOk(old(opts[..])) && hi < 256 && lo < 256 ==> ReportFits(r)
  {
    hide MssOffsets, ReportAt, SetAll, SetAt, BytesOk, ReportFits, OptionLen, IsMss;
    ghost var b := opts[..];
    OffsetsFit(b, 0);
    SetNone(b, hi, lo);
    r := Report(false, 0, 0, 0, 0);
    var i := 0;
    ghost var seen: seq<nat> := [];
    while i < opts.Length
      invariant 0 <= i <= opts.Length
      invariant MssOffsets(b, 0) == seen + MssOffsets(b, i)
      invariant AllFit(seen, i) && opts[..] == SetAll(b, seen, hi, lo)
      invariant forall j :: i <= j < opts.Length ==> opts[j] == b[j]
      invariant seen != [] ==> r == LastReport(b, seen, hi, lo)
      invariant BytesOk(b) && hi < 256 && lo < 256 ==> ReportFits(r) && BytesOk(opts[..])
    {
      OffsetsStep(b, i);
      SameOption(b, opts[..], i);
      var len := OptionLen(opts[..], i);
      if len.None? {
        break;
      }
      if IsMss(opts[..], i) {
        MssLen(opts[..], i);
        SetNext(b, seen, i, hi, lo);
        r := SetOne(opts, i, hi, lo);
        assert (seen + [i])[..|seen|] == seen;
        seen := seen + [i];
      }
      i := i + len.value;
    }
    OffsetsStep(b, i);
    assert MssOffsets(b, 0) == seen;
  }

  lemma MssLen(b: seq<nat>, i: nat)
    requires i < |b| && IsMss(b, i)
    ensures i + 4 <= |b| && OptionLen(b, i) == Some(4)
  {
  }

  lemma SetNone(b: seq<nat>, hi: nat, lo: nat)
    ensures SetAll(b, [], hi, lo) == b && ReportFits(Report(false, 0, 0, 0, 0))
  {
  }

  lemma SetNext(b: seq<nat>, seen: seq<nat>, i: nat, hi: nat, lo: nat)
    requires AllFit(seen, |b|) && i + 4 <= |b|
    ensures AllFit(seen + [i], |b|) && SetAll(b, seen + [i], hi, lo) == SetAt(SetAll(b, seen, hi, lo), i, hi, lo)
    ensures forall j :: i + 4 <= j < |b| ==> SetAt(SetAll(b, seen, hi, lo), i, hi, lo)[j] == SetAll(b, seen, hi, lo)[j]
    ensures seen == [] ==> SetAll(b, seen, hi, lo) == b
  {
  }

  lemma SameOption(b: seq<nat>, c: seq<nat>, i: nat)
    requires i < |b| == |c| && (forall j :: i <= j < |b| ==> b[j] == c[j])
    ensures OptionLen(b, i) == OptionLen(c, i) && IsMss(b, i) == IsMss(c, i)
  {
  }

  // ----- checksums

  /** The sum of the words that an even number of bytes make up. */
  function SumBytes(b: seq<nat>): nat
    requires |b| % 2 == 0
  {
    if b == [] then 0 else Word(b[0], b[1]) + SumBytes(b[2..])
  }

  function Weight(i: nat): nat { if i % 2 == 0 then 256 else 1 }

  /** Changing one byte changes the sum by its weight. */
  lemma {:induction false} ByteChange(b: seq<nat>, i: nat, x: nat)
    requires |b| % 2 == 0 && i < |b|
    ensures SumBytes(b[i := x]) + Weight(i) * b[i] == SumBytes(b) + Weight(i) * x
  {
    var c := b[i := x];
    if i < 2 {
      assert c[2..] == b[2..];
    } else {
      assert c[2..] == b[2..][i - 2 := x];
      ByteChange(b[2..], i - 2, x);
    }
  }

  lemma SetChange(b: seq<nat>, p: nat, hi: nat, lo: nat)
    requires |b| % 2 == 0 && p + 4 <= |b|
    ensures SumBytes(SetAt(b, p, hi, lo)) + Weight(p) * b[p + 2] + Weight(p + 1) * b[p + 3]
         == SumBytes(b) + Weight(p) * hi + Weight(p + 1) * lo
  {
    hide SumBytes;
    ByteChange(b, p + 2, hi);
    ByteChange(b[p + 2 := hi], p + 3, lo);
  }

  lemma {:induction false} OffsetsFrom(b: seq<nat>, i: nat)
    requires i <= |b|
    ensures forall k :: 0 <= k < |MssOffsets(b, i)| ==> MssOffsets(b, i)[k] >= i
    decreases |b| - i
  {
    if i < |b| && OptionLen(b, i).Some? {
      OffsetsFrom(b, i + OptionLen(b, i).value);
    }
  }

  /** Options do not overlap. */
  predicate Spaced(ps: seq<nat>) {
    forall k, l :: 0 <= k < l < |ps| ==> ps[k] + 4 <= ps[l]
  }

  lemma {:induction false} OffsetsSpaced(b: seq<nat>, i: nat)
    requires i <= |b|
    ensures Spaced(MssOffsets(b, i))
    decreases |b| - i
  {
    if i < |b| && OptionLen(b, i).Some? {
      OffsetsSpaced(b, i + OptionLen(b, i).value);
      OffsetsFrom(b, i + OptionLen(b, i).value);
    }
  }

  /** Two option areas that differ in the values of MSS options of the first at most. */
  ghost predicate ValuesDiffer(b: seq<nat>, c: seq<nat>, i: nat, ps: seq<nat>) {
    |b| == |c| && forall j :: i <= j < |b| && b[j] != c[j] ==> exists k :: 0 <= k < |ps| && ps[k] + 2 <= j <= ps[k] + 3
  }

  /** Scan and rewrite agree: the rewritten options have their MSS options at the same places. */
  lemma {:induction false} SameOffsets(b: seq<nat>, c: seq<nat>, i: nat)
    requires i <= |b| && ValuesDiffer(b, c, i, MssOffsets(b, i))
    ensures MssOffsets(c, i) == MssOffsets(b, i)
    decreases |b| - i
  {
    OffsetsFrom(b, i);
    if i < |b| {
      SameStart(b, c, i);
      if OptionLen(b, i).Some? {
        var rest := MssOffsets(b, i + OptionLen(b, i).value);
        assert IsMss(b, i) ==> MssOffsets(b, i) == [i] + rest;
        SameOffsets(b, c, i + OptionLen(b, i).value);
      }
    }
  }

  lemma SameStart(b: seq<nat>, c: seq<nat>, i: nat)
    requires i < |b| && ValuesDiffer(b, c, i, MssOffsets(b, i))
    ensures OptionLen(c, i) == OptionLen(b, i) && IsMss(c, i) == IsMss(b, i)
  {
    hide MssOffsets;
    OffsetsFrom(b, i);
  }

  lemma {:induction false} SetAllValues(b: seq<nat>, ps: seq<nat>, hi: nat, lo: nat)
    requires AllFit(ps, |b|) && Spaced(ps)
    ensures ValuesDiffer(b, SetAll(b, ps, hi, lo), 0, ps)
    ensures forall j :: 0 <= j < |b| && (ps == [] || ps[|ps| - 1] + 4 <= j) ==> SetAll(b, ps, hi, lo)[j] == b[j]
  {
    if ps != [] {
      var front := ps[..|ps| - 1];
      SetAllValues(b, front, hi, lo);
      var c := SetAll(b, ps, hi, lo);
      forall j | 0 <= j < |b| && b[j] != c[j]
        ensures exists k :: 0 <= k < |ps| && ps[k] + 2 <= j <= ps[k] + 3
      {
        if SetAll(b, front, hi, lo)[j] != b[j] {
          var k :| 0 <= k < |front| && front[k] + 2 <= j <= front[k] + 3;
          assert ps[k] == front[k];
        } else {
          assert ps[|ps| - 1] + 2 <= j <= ps[|ps| - 1] + 3;
        }
      }
    }
  }

  /** What rewriting the options at some offsets adds to the sum, where each byte has the weight of its place. */
  function Change(b: seq<nat>, ps: seq<nat>, hi: nat, lo: nat): int
    requires AllFit(ps, |b|)
  {
    if ps == [] then 0
    else
      var p := ps[|ps| - 1];
      Change(b, ps[..|ps| - 1], hi, lo) + Weight(p) * (hi - b[p + 2]) + Weight(p + 1) * (lo - b[p + 3])
  }

  lemma {:induction false} SetAllChange(b: seq<nat>, ps: seq<nat>, hi: nat, lo: nat)
    requires AllFit(ps, |b|) && Spaced(ps) && |b| % 2 == 0
    ensures SumBytes(SetAll(b, ps, hi, lo)) == SumBytes(b) + Change(b, ps, hi, lo)
  {
    hide SumBytes, SetAt;
    if ps != [] {
      var p := ps[|ps| - 1];
      SetAllChange(b, ps[..|ps| - 1], hi, lo);
      SetAllValues(b, ps[..|ps| - 1], hi, lo);
      SetChange(SetAll(b, ps[..|ps| - 1], hi, lo), p, hi, lo);
    }
  }

  // ----- clamping

  lemma WordFits(hi: nat, lo: nat)
    requires hi < 256 && lo < 256
    ensures Word(hi, lo) <= ONES
  {
  }

  lemma AlignedChange(b: seq<nat>, p: nat, hi: nat, lo: nat)
    requires |b| % 2 == 0 && p + 4 <= |b| && p % 2 == 0
    ensures SumBytes(SetAt(b, p, hi, lo)) + Word(b[p + 2], b[p + 3]) == SumBytes(b) + Word(hi, lo)
  {
    hide SumBytes, SetAt;
    SetChange(b, p, hi, lo);
  }

  lemma UnalignedChange(b: seq<nat>, p: nat, hi: nat, lo: nat)
    requires |b| % 2 == 0 && p + 4 < |b| && p % 2 == 1
    ensures SumBytes(SetAt(b, p, hi, lo)) + Word(b[p + 1], b[p + 2]) + Word(b[p + 3], b[p + 4])
         == SumBytes(b) + Word(b[p + 1], hi) + Word(lo, b[p + 4])
  {
    hide SumBytes, SetAt;
    SetChange(b, p, hi, lo);
  }

  lemma TwoFixups(sum: nat, o0: nat, n0: nat, o1: nat, n1: nat, total: nat, total': nat)
    requires sum <= ONES && o0 <= ONES && n0 <= ONES && o1 <= ONES && n1 <= ONES
    requires total + n0 + n1 == total' + o0 + o1
    ensures Verifies(sum, total) <==> Verifies(Fixup16(Fixup16(sum, o0, n0), o1, n1), total')
  {
    hide Verifies, Fixup16;
    var mid := total + ONES + n0 - o0;
    MoreWords(sum, total, 1);
    Fixup16Exact(sum, o0, n0, total + ONES, mid);
    Fixup16Exact(Fixup16(sum, o0, n0), o1, n1, mid, total' + ONES);
    MoreWords(Fixup16(Fixup16(sum, o0, n0), o1, n1), total', 1);
  }

  /** Both ways of reporting a change bring the checksum up to date. */
  lemma ReportUpdates(b: seq<nat>, p: nat, hi: nat, lo: nat, sum: nat, rest: nat)
    requires BytesOk(b) && |b| % 4 == 0 && p + 4 <= |b| && hi < 256 && lo < 256 && sum <= ONES
    ensures WordsFit(b, p, hi, lo)
    ensures var b' := SetAt(b, p, hi, lo);
      Verifies(sum, rest + SumBytes(b)) <==> Verifies(FixedBy(b, p, hi, lo, sum), rest + SumBytes(b'))
  {
    hide SumBytes, Verifies, Fixup16, SetAt, Word;
    WordFits(b[p + 2], b[p + 3]);
    WordFits(hi, lo);
    if p % 2 == 0 {
      AlignedChange(b, p, hi, lo);
      Fixup16Exact(sum, Word(b[p + 2], b[p + 3]), Word(hi, lo),
                   rest + SumBytes(b), rest + SumBytes(SetAt(b, p, hi, lo)));
    } else {
      ByteBehind(|b|, p);
      UnalignedChange(b, p, hi, lo);
      WordFits(b[p + 1], b[p + 2]);
      WordFits(b[p + 1], hi);
      WordFits(b[p + 3], b[p + 4]);
      WordFits(lo, b[p + 4]);
      TwoFixups(sum, Word(b[p + 1], b[p + 2]), Word(b[p + 1], hi), Word(b[p + 3], b[p + 4]), Word(lo, b[p + 4]),
                rest + SumBytes(b), rest + SumBytes(SetAt(b, p, hi, lo)));
    }
  }

  /** The words that the update of the checksum is made with are sixteen bits wide. */
  predicate WordsFit(b: seq<nat>, p: nat, hi: nat, lo: nat)
    requires |b| % 4 == 0 && p + 4 <= |b|
  {
    && Word(b[p + 2], b[p + 3]) <= ONES && Word(hi, lo) <= ONES
    && var r := ReportAt(b, p, hi, lo); r.old0 <= ONES && r.old1 <= ONES && r.new0 <= ONES && r.new1 <= ONES
  }

  function FixedBy(b: seq<nat>, p: nat, hi: nat, lo: nat, sum: nat): nat
    requires |b| % 4 == 0 && p + 4 <= |b| && sum <= ONES && WordsFit(b, p, hi, lo)
  {
    var r := ReportAt(b, p, hi, lo);
    if r.mid then Fixup16(Fixup16(sum, r.old0, r.new0), r.old1, r.new1)
    else Fixup16(sum, Word(b[p + 2], b[p + 3]), Word(hi, lo))
  }

  /**
   * Lowering every MSS option of b, and the checksum with the last of them: all the options have the
   * new value, and a right checksum stays right exactly when what the others add to the sum is zero.
   */
  ghost predicate Lowered(b: seq<nat>, b': seq<nat>, maxmss: nat, sum: nat, sum': nat, rest: nat)
    requires |b| % 4 == 0 && |b'| == |b|
  {
    var ps := MssOffsets(b, 0);
    var hi, lo := maxmss / 256, maxmss % 256;
    && ps != [] && AllFit(ps, |b|) && b' == SetAll(b, ps, hi, lo)
    && MssOffsets(b', 0) == ps && MssValue(b') == maxmss
    && (Verifies(sum, rest + SumBytes(b)) ==>
          (Verifies(sum', rest + SumBytes(b')) <==> Change(b, ps[..|ps| - 1], hi, lo) % ONES == 0))
  }

  /** The value after a rewrite of all the options. */
  lemma LoweredOffsets(b: seq<nat>, maxmss: nat)
    requires MssOffsets(b, 0) != [] && maxmss <= ONES
    ensures AllFit(MssOffsets(b, 0), |b|)
    ensures var b' := SetAll(b, MssOffsets(b, 0), maxmss / 256, maxmss % 256);
      MssOffsets(b', 0) == MssOffsets(b, 0) && MssValue(b') == maxmss
  {
    var ps := MssOffsets(b, 0);
    OffsetsFit(b, 0);
    OffsetsSpaced(b, 0);
    SetAllValues(b, ps, maxmss / 256, maxmss % 256);
    SameOffsets(b, SetAll(b, ps, maxmss / 256, maxmss % 256), 0);
  }

  /** The last option still has its old value when the others have been rewritten. */
  lemma LastUntouched(b: seq<nat>, hi: nat, lo: nat)
    requires MssOffsets(b, 0) != []
    ensures var ps := MssOffsets(b, 0);
      && AllFit(ps, |b|)
      && var c, p := SetAll(b, ps[..|ps| - 1], hi, lo), ps[|ps| - 1];
        Word(c[p + 2], c[p + 3]) == MssValue(b) && SetAll(b, ps, hi, lo) == SetAt(c, p, hi, lo)
  {
    var ps := MssOffsets(b, 0);
    OffsetsFit(b, 0);
    OffsetsSpaced(b, 0);
    SetAllValues(b, ps[..|ps| - 1], hi, lo);
  }

  lemma {:induction false} SetAllBytes(b: seq<nat>, ps: seq<nat>, hi: nat, lo: nat)
    requires BytesOk(b) && AllFit(ps, |b|) && hi < 256 && lo < 256
    ensures BytesOk(SetAll(b, ps, hi, lo))
  {
    if ps != [] { SetAllBytes(b, ps[..|ps| - 1], hi, lo); }
  }

  /** Brought up to date for the last option only, the checksum is off by what the others add to the sum. */
  lemma FixedExactly(b: seq<nat>, hi: nat, lo: nat, sum: nat, rest: nat)
    requires BytesOk(b) && |b| % 4 == 0 && MssOffsets(b, 0) != [] && hi < 256 && lo < 256 && sum <= ONES
    requires Verifies(sum, rest + SumBytes(b))
    ensures var ps := MssOffsets(b, 0);
      && AllFit(ps, |b|)
      && var c, p := SetAll(b, ps[..|ps| - 1], hi, lo), ps[|ps| - 1];
        && WordsFit(c, p, hi, lo)
        && (Verifies(FixedBy(c, p, hi, lo, sum), rest + SumBytes(SetAll(b, ps, hi, lo)))
            <==> Change(b, ps[..|ps| - 1], hi, lo) % ONES == 0)
  {
    hide SumBytes, Verifies, SetAt, MssOffsets, Change, FixedBy, WordsFit, MssValue;
    OffsetsFit(b, 0);
    OffsetsSpaced(b, 0);
    LastUntouched(b, hi, lo);
    var ps := MssOffsets(b, 0);
    var front := ps[..|ps| - 1];
    var c, p := SetAll(b, front, hi, lo), ps[|ps| - 1];
    SetAllChange(b, front, hi, lo);
    SetAllBytes(b, front, hi, lo);
    ReportUpdates(c, p, hi, lo, sum, rest);
    ShiftedVerifies(sum, rest + SumBytes(b), rest + SumBytes(c));
  }

  lemma ShiftedVerifies(sum: nat, total: nat, total': nat)
    requires Verifies(sum, total)
    ensures Verifies(sum, total') <==> (total' - total) % ONES == 0
  {
  }

  predicate ReportFits(r: Report) {
    r.old0 <= ONES && r.old1 <= ONES && r.new0 <= ONES && r.new1 <= ONES
  }

  /**
   * The MSS part of npf_normalize. Nothing changes unless the last MSS option is above the maximum; then
   * every MSS option is lowered to it, nothing else in the options changes, and the TCP checksum, which
   * also covers the rest of the segment, stays right under the condition of Lowered.
   */
  method Clamp(syn: bool, opts: array<nat>, sum: nat, maxmss: nat, ghost rest: nat) returns (newSum: nat)
    requires opts.Length % 4 == 0 && BytesOk(opts[..]) && maxmss <= ONES && sum <= ONES
    modifies opts
    ensures !syn || maxmss == 0 || MssValue(old(opts[..])) <= maxmss ==> opts[..] == old(opts[..]) && newSum == sum
    ensures syn && 0 < maxmss < MssValue(old(opts[..])) ==> Lowered(old(opts[..]), opts[..], maxmss, sum, newSum, rest)
  {
    hide SumBytes, Verifies, Fixup16, MssOffsets, ReportAt, Word, SetAt, SetAll, Change;
    if maxmss == 0 || !syn {
      return sum;
    }
    ghost var b := opts[..];
    var mss := Fetch(opts[..]);
    if mss <= maxmss {
      return sum;
    }
    var hi, lo := maxmss / 256, maxmss % 256;
    MssFits(b);
    LoweredOffsets(b, maxmss);
    LastUntouched(b, hi, lo);
    assert Word(hi, lo) == maxmss by { WholeWord(maxmss); }
    if Verifies(sum, rest + SumBytes(b)) {
      FixedExactly(b, hi, lo, sum, rest);
    }
    var r := SetMss(opts, hi, lo);
    if r.mid {
      newSum := Fixup16(sum, r.old0, r.new0);
      newSum := Fixup16(newSum, r.old1, r.new1);
    } else {
      newSum := Fixup16(sum, mss, maxmss);
    }
  }

  lemma WholeWord(w: nat)
    ensures Word(w / 256, w % 256) == w
  {
  }

  lemma MssFits(b: seq<nat>)
    requires BytesOk(b)
    ensures MssValue(b) <= ONES && (MssValue(b) > 0 ==> MssOffsets(b, 0) != [])
  {
    OffsetsFit(b, 0);
  }

  const DOUBLED: seq<nat> := [2, 4, 255, 255, 2, 4, 255, 255]

  lemma DoubledOffsets()
    ensures MssOffsets(DOUBLED, 0) == [0, 4]
  {
    hide MssOffsets;
    OffsetsStep(DOUBLED, 0);
    OffsetsStep(DOUBLED, 4);
    OffsetsStep(DOUBLED, 8);
  }

  /**
   * A segment with two MSS options: both are rewritten but the checksum follows the last one only, and a
   * right checksum becomes wrong.
   */
  lemma DuplicateOptionBreaks(b': seq<nat>, sum: nat, sum': nat, rest: nat)
    requires |b'| == |DOUBLED| && Lowered(DOUBLED, b', 1, sum, sum', rest) && Verifies(sum, rest + SumBytes(DOUBLED))
    ensures MssOffsets(DOUBLED, 0) == [0, 4] && !Verifies(sum', rest + SumBytes(b'))
  {
    hide SumBytes, Verifies, SetAll, MssOffsets, MssValue;
    DoubledOffsets();
    assert [0, 4][..1] == [0] && [0][..0] == [];
    assert Change(DOUBLED, [0], 0, 1) == 0 - 65534;
  }
}
