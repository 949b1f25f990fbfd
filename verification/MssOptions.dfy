/** The scan for the MSS option, said from the options that an option area is made of (src/kern/npf_inet.c). */
module MssOptions {
  import opened Words
  import opened Mss

  /** One option: a filler, a maximum segment size, or any other kind with its data. */
  datatype TcpOption = Filler | SegmentSize(hi: nat, lo: nat) | Other(kind: nat, data: seq<nat>)

  predicate OptionOk(o: TcpOption) {
    o.Other? ==> o.kind != 0 && o.kind != 1 && !(o.kind == 2 && |o.data| == 2)
  }

  /** The bytes of an option; the length counts the kind and itself. */
  function Encode(o: TcpOption): seq<nat> {
    match o
    case Filler => [1]
    case SegmentSize(hi, lo) => [2, 4, hi, lo]
    case Other(kind, data) => [kind, |data| + 2] + data
  }

  function EncodeAll(os: seq<TcpOption>): seq<nat> {
    if os == [] then [] else Encode(os[0]) + EncodeAll(os[1..])
  }

  /** Where the options end: at the end of the area, at the end-of-list option, or at a bad length. */
  predicate Ends(tail: seq<nat>) {
    tail == [] || tail[0] == 0 || (tail[0] != 1 && (|tail| == 1 || tail[1] < 2 || tail[1] > |tail|))
  }

  /** The value of the last maximum segment size among the options, or a default. */
  function LastSize(os: seq<TcpOption>, default: nat): nat {
    if os == [] then default
    else LastSize(os[1..], if os[0].SegmentSize? then 256 * os[0].hi + os[0].lo else default)
  }

  /** The offsets of the maximum segment sizes, for options that start at some offset. */
  function Places(os: seq<TcpOption>, at: nat): seq<nat> {
    if os == [] then []
    else (if os[0].SegmentSize? then [at] else []) + Places(os[1..], at + |Encode(os[0])|)
  }

  /** The first option of an area, wherever the area starts. */
  lemma FirstOption(b: seq<nat>, at: nat, o: TcpOption, rest: seq<nat>)
    requires at <= |b| && b[at..] == Encode(o) + rest && OptionOk(o)
    ensures at < |b| && OptionLen(b, at) == Some(|Encode(o)|)
    ensures IsMss(b, at) <==> o.SegmentSize?
    ensures b[at + |Encode(o)|..] == rest
  {
    var s := b[at..];
    assert s[0] == Encode(o)[0] && s[0] == b[at];
    if !o.Filler? {
      assert s[1] == Encode(o)[1] && s[1] == b[at + 1];
    }
    assert b[at + |Encode(o)|..] == s[|Encode(o)|..];
  }

  lemma NoOption(b: seq<nat>, at: nat)
    requires at <= |b| && Ends(b[at..])
    ensures MssOffsets(b, at) == []
  {
    var s := b[at..];
    if s != [] {
      assert s[0] == b[at];
      assert |s| > 1 ==> s[1] == b[at + 1];
    }
  }

  /** The scan finds the maximum segment sizes of the options where they are, and the value of the last one. */
  lemma {:induction false} ScanFinds(b: seq<nat>, at: nat, os: seq<TcpOption>, tail: seq<nat>, default: nat)
    requires at <= |b| && b[at..] == EncodeAll(os) + tail && Ends(tail) && forall o :: o in os ==> OptionOk(o)
    ensures MssOffsets(b, at) == Places(os, at) && AllFit(Places(os, at), |b|)
    ensures LastSize(os, default) == if Places(os, at) == [] then default else LastValue(b, Places(os, at))
    decreases |os|
  {
    hide OptionLen, IsMss, Encode, MssOffsets, Ends, OptionOk;
    if os == [] {
      assert EncodeAll(os) + tail == tail;
      NoOption(b, at);
    } else {
      var o := os[0];
      assert o in os;
      var rest := EncodeAll(os[1..]) + tail;
      assert b[at..] == Encode(o) + rest by { assert EncodeAll(os) == Encode(o) + EncodeAll(os[1..]); }
      FirstOption(b, at, o, rest);
      OffsetsStep(b, at);
      SizeBytes(b, at, o, rest);
      ScanFinds(b, at + |Encode(o)|, os[1..], tail, if o.SegmentSize? then 256 * o.hi + o.lo else default);
    }
  }

  lemma SizeBytes(b: seq<nat>, at: nat, o: TcpOption, rest: seq<nat>)
    requires at <= |b| && b[at..] == Encode(o) + rest
    ensures |Encode(o)| >= 1 && at + |Encode(o)| <= |b|
    ensures o.SegmentSize? ==> at + 4 <= |b| && b[at + 2] == o.hi && b[at + 3] == o.lo
  {
    var s := b[at..];
    if o.SegmentSize? {
      assert s[2] == b[at + 2] && s[3] == b[at + 3];
    }
  }

  /** The maximum segment size of an option area is the last one among its options. */
  lemma ValueOfOptions(os: seq<TcpOption>, tail: seq<nat>)
    requires Ends(tail) && forall o :: o in os ==> OptionOk(o)
    ensures MssValue(EncodeAll(os) + tail) == LastSize(os, 0)
  {
    var b := EncodeAll(os) + tail;
    assert b[0..] == b;
    ScanFinds(b, 0, os, tail, 0);
  }

  lemma FirstOf(b: seq<nat>) returns (o: TcpOption)
    requires !Ends(b)
    ensures OptionOk(o) && 1 <= |Encode(o)| <= |b| && b == Encode(o) + b[|Encode(o)|..]
  {
    o := if b[0] == 1 then Filler
         else if b[0] == 2 && b[1] == 4 then SegmentSize(b[2], b[3])
         else Other(b[0], b[2..b[1]]);
  }

  /** Every option area is made of options and an end, so this covers all of them. */
  lemma {:induction false} EveryArea(b: seq<nat>) returns (os: seq<TcpOption>, tail: seq<nat>)
    ensures b == EncodeAll(os) + tail && Ends(tail) && forall o :: o in os ==> OptionOk(o)
    decreases |b|
  {
    if Ends(b) {
      os, tail := [], b;
    } else {
      var o := FirstOf(b);
      hide Encode, OptionOk, Ends;
      var more, end := EveryArea(b[|Encode(o)|..]);
      os, tail := [o] + more, end;
      assert os[0] == o && os[1..] == more;
      assert Encode(o) + EncodeAll(more) + end == Encode(o) + (EncodeAll(more) + end);
    }
  }
}
