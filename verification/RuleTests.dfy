/**
  * What the program of a rule tests, one verdict for every jump that the compiler counts, and that the
  * program accepts a packet exactly when these tests say so.
  */
module RuleTests {
  import opened Words
  import opened BpfMachine
  import opened BpfCode
  import opened BpfMeaning
  import opened RuleCompiler
  import opened RuleCriteria

  // ----- the tests of a rule -----------------------------------------------------------------

  /** The flags under the mask; a mask equal to the flags compares the whole byte. */
  function FlagsTest(npc: Npc, flags: u8, fmask: u8): Verdict {
    var b := ByteAt(npc, npc.l4off, 13);
    if b.None? then Short
    else Decide(if fmask != flags then And(b.value, fmask) == flags else b.value == flags)
  }

  /** The words of the address at `off`, masked, are those of `addr`, one after the other. */
  function AddressTest(npc: Npc, off: nat, addr: seq<u32>, length: nat): Verdict
    decreases |addr|
  {
    if addr == [] || length == 0 then Yes
    else
      var v := LoadWord(npc.pkt, off);
      var n := if length >= 32 then 32 else length;
      if v.None? then Short
      else if !MaskAgrees(v.value, n, addr[0]) then No
      else AddressTest(npc, off + 4, addr[1..], length - n)
  }

  /** The counted tests of a call, in order; whether TCP flags test the protocol depends on `l4`. */
  function CallTests(npc: Npc, c: Call, l4: bool): seq<Verdict>
    requires CallOk(c)
  {
    match c
    case IpVer(_) => []
    case Cidr(src, af, addr, mask) =>
      [AddressTest(npc, AddrOffset(src, af), AddrWords(af, addr), MaskLength(af, mask))]
    case TcpFlags(flags, fmask) => [if !l4 && npc.proto != IPPROTO_TCP then Yes else FlagsTest(npc, flags, fmask)]
    case Icmp(itype, icode) =>
      (if itype.Some? then [ByteVerdict(npc, 0, itype.value)] else []) +
      (if icode.Some? then [ByteVerdict(npc, 1, icode.value)] else [])
    case _ => [CallVerdict(npc, c)]
  }

  function GroupTests(npc: Npc, cs: seq<Call>, l4: bool): seq<Verdict>
    requires forall c :: c in cs ==> CallOk(c)
  {
    if cs == [] then [] else CallTests(npc, cs[0], l4) + GroupTests(npc, cs[1..], l4 || cs[0].Proto?)
  }

  /** Outside of groups all the tests of a call have to succeed, in a group one of them. */
  function ItemTest(npc: Npc, item: Item, l4: bool): Verdict
    requires ItemOk(item)
  {
    match item
    case Single(c) => AllOf(CallTests(npc, c, l4))
    case Alternatives(invert, cs) =>
      var vs := GroupTests(npc, cs, l4);
      if vs == [] then Yes else if invert then Negate(AnyOf(vs)) else AnyOf(vs)
  }

  predicate HasProto(cs: seq<Call>) { exists c :: c in cs && c.Proto? }

  predicate TestsHold(npc: Npc, items: seq<Item>, l4: bool)
    requires forall i :: i in items ==> ItemOk(i)
  {
    items == [] ||
    (ItemTest(npc, items[0], l4).Yes? && TestsHold(npc, items[1..], l4 || HasProto(Calls(items[0]))))
  }

  predicate TestsMatch(npc: Npc, items: seq<Item>)
    requires forall i :: i in items ==> ItemOk(i)
  {
    VersionHolds(npc, items) && TestsHold(npc, items, false)
  }

  // ----- building a rule ---------------------------------------------------------------------

  predicate CallsFit(g: Gen, cs: seq<Call>)
    decreases |cs|
  {
    cs == [] ||
    (CallOk(cs[0]) && CallFits(g, cs[0]) &&
     var h := Apply(g, cs[0]); h.Some? ==> CallsFit(h.value, cs[1..]))
  }

  function BuildCalls(g: Gen, cs: seq<Call>): Option<Gen>
    requires forall c :: c in cs ==> CallOk(c)
    decreases |cs|
  {
    if cs == [] then Some(g)
    else
      var h := Apply(g, cs[0]);
      if h.None? then None else BuildCalls(h.value, cs[1..])
  }

  // ----- verdicts of code and of criteria ----------------------------------------------------

  lemma {:induction false} EvalConcat(npc: Npc, cs: seq<Piece>, ds: seq<Piece>, x: u32)
    requires forall c :: c in cs + ds ==> PieceOk(c)
    ensures (forall c :: c in cs ==> PieceOk(c)) && (forall c :: c in ds ==> PieceOk(c))
    ensures EvalPieces(npc, cs + ds, x)
         == (var v := EvalPieces(npc, cs, x); if v.None? then None else EvalPieces(npc, ds, v.value))
  {
    forall c | c in cs || c in ds ensures PieceOk(c) { assert c in cs + ds; }
    if cs == [] {
      assert cs + ds == ds;
    } else {
      assert (cs + ds)[0] == cs[0] && (cs + ds)[1..] == cs[1..] + ds;
      var v := EvalPiece(npc, cs[0], x);
      if v.Some? {
        EvalConcat(npc, cs[1..], ds, v.value);
      }
    }
  }

  /** The tests of a fragment in sequence, outside of groups. */
  function RunPlain(npc: Npc, es: seq<Elem>, x: u32): Option<u32>
    requires forall e :: e in es ==> ElemOk(e)
  {
    if es == [] then Some(x)
    else if es[0].LoadX? then RunPlain(npc, es[1..], npc.l4off)
    else
      assert ElemOk(es[0]);
      if EvalAtom(npc, es[0].atom, x).Yes? then RunPlain(npc, es[1..], x) else None
  }

  lemma {:induction false} PlainsRun(npc: Npc, es: seq<Elem>, x: u32)
    requires forall e :: e in es ==> ElemOk(e)
    ensures EvalPieces(npc, Plains(es), x) == RunPlain(npc, es, x)
  {
    hide EvalAtom;
    if es != [] {
      assert ElemOk(es[0]);
      var v := EvalPiece(npc, Plain(es[0]), x);
      assert Plains(es)[1..] == Plains(es[1..]);
      if v.Some? {
        PlainsRun(npc, es[1..], v.value);
      }
    }
  }

  lemma {:induction false} CidrRun(npc: Npc, off: nat, addr: seq<u32>, length: nat, x: u32)
    requires off + 4 * |addr| < W16
    requires forall e :: e in CidrElems(off, addr, length) ==> ElemOk(e)
    ensures RunPlain(npc, CidrElems(off, addr, length), x)
         == if AddressTest(npc, off, addr, length).Yes? then Some(x) else None
    decreases |addr|
  {
    if addr != [] && length != 0 {
      var n := if length >= 32 then 32 else length;
      CidrElemsOk(off + 4, addr[1..], length - n);
      CidrRun(npc, off + 4, addr[1..], length - n, x);
      var es := CidrElems(off, addr, length);
      assert es[0] == Test(AWord(off, n, addr[0])) && es[1..] == CidrElems(off + 4, addr[1..], length - n);
    }
  }

  /** A call outside of groups: all its criteria have to hold. */
  lemma CallRun(npc: Npc, c: Call, l4: bool, x: u32)
    requires CallOk(c) && (UsesX(c) ==> x == npc.l4off)
    ensures forall e :: e in CallElems(c, l4) ==> ElemOk(e)
    ensures RunPlain(npc, CallElems(c, l4), x)
         == if AllOf(CallTests(npc, c, l4)).Yes? then Some(x) else None
  {
    CallElemsOk(c, l4);
    var es := CallElems(c, l4);
    if c.Cidr? {
      CidrRun(npc, AddrOffset(c.src, c.family), AddrWords(c.family, c.addr), MaskLength(c.family, c.mask), x);
      assert AllOf(CallTests(npc, c, l4)[1..]) == Yes;
    } else if c.Icmp? && c.itype.Some? && c.icode.Some? {
      assert es[1..] == [Test(AByte(1, None, c.icode.value))];
      assert CallTests(npc, c, l4)[1..] == [ByteVerdict(npc, 1, c.icode.value)];
      assert AllOf(CallTests(npc, c, l4)[1..][1..]) == Yes;
      assert RunPlain(npc, es[1..][1..], x) == Some(x);
    } else if !c.IpVer? {
      assert AllOf(CallTests(npc, c, l4)[1..]) == Yes;
      assert RunPlain(npc, es[1..], x) == Some(x);
    }
  }

  // ----- tests inside groups -----------------------------------------------------------------

  /** Calls whose every criterion is decided by one magic conditional jump. */
  predicate OneJump(c: Call) {
    match c
    case Cidr(_, af, _, mask) => af == Inet || MaskLength(af, mask) <= 32
    case Ports(_, from, to) => from == to
    case Icmp(itype, icode) => itype.None? || icode.None?
    case _ => true
  }

  function ScanOf(v: Verdict, x: u32): Scan {
    match v
    case Yes => Hit(x)
    case No => Past(x)
    case Short => Cut
  }

  lemma CallScan(npc: Npc, c: Call, l4: bool, x: u32)
    requires CallOk(c) && OneJump(c) && (UsesX(c) ==> x == npc.l4off) && (c.TcpFlags? ==> l4)
    ensures forall e :: e in CallElems(c, l4) ==> ElemOk(e)
    ensures ScanGroup(npc, CallElems(c, l4), x) == ScanOf(AnyOf(CallTests(npc, c, l4)), x)
  {
    CallElemsOk(c, l4);
    var es, vs := CallElems(c, l4), CallTests(npc, c, l4);
    if !c.IpVer? {
      if c.Cidr? {
        OneWord(npc, AddrOffset(c.src, c.family), AddrWords(c.family, c.addr), MaskLength(c.family, c.mask));
      }
      assert AnyOf(vs[1..]) == No;
      assert ScanGroup(npc, es[1..], x) == Past(x);
    }
  }

  lemma OneWord(npc: Npc, off: nat, addr: seq<u32>, length: nat)
    requires off + 4 * |addr| < W16 && addr != [] && length > 0 && (|addr| == 1 || length <= 32)
    ensures var n := if length >= 32 then 32 else length;
            && CidrElems(off, addr, length) == [Test(AWord(off, n, addr[0]))]
            && AddressTest(npc, off, addr, length) == EvalAtom(npc, AWord(off, n, addr[0]), 0)
  {
  }

  lemma {:induction false} ScanConcat(npc: Npc, es: seq<Elem>, fs: seq<Elem>, x: u32)
    requires (forall e :: e in es ==> ElemOk(e)) && (forall e :: e in fs ==> ElemOk(e))
    ensures ScanGroup(npc, es + fs, x)
         == (var s := ScanGroup(npc, es, x); if s.Past? then ScanGroup(npc, fs, s.x) else s)
  {
    hide EvalSwapped;
    if es == [] {
      assert es + fs == fs;
    } else {
      assert (es + fs)[0] == es[0] && (es + fs)[1..] == es[1..] + fs;
      assert ElemOk(es[0]);
      ScanConcat(npc, es[1..], fs, npc.l4off);
      ScanConcat(npc, es[1..], fs, x);
    }
  }

  lemma {:induction false} RunConcat(npc: Npc, es: seq<Elem>, fs: seq<Elem>, x: u32)
    requires (forall e :: e in es ==> ElemOk(e)) && (forall e :: e in fs ==> ElemOk(e))
    ensures RunPlain(npc, es + fs, x)
         == (var v := RunPlain(npc, es, x); if v.Some? then RunPlain(npc, fs, v.value) else None)
  {
    hide EvalAtom;
    if es == [] {
      assert es + fs == fs;
    } else {
      assert (es + fs)[0] == es[0] && (es + fs)[1..] == es[1..] + fs;
      assert ElemOk(es[0]);
      RunConcat(npc, es[1..], fs, npc.l4off);
      RunConcat(npc, es[1..], fs, x);
    }
  }

  lemma {:induction false} AnyOfConcat(us: seq<Verdict>, vs: seq<Verdict>)
    ensures AnyOf(us + vs) == if AnyOf(us).No? then AnyOf(vs) else AnyOf(us)
  {
    if us == [] {
      assert us + vs == vs;
    } else {
      assert (us + vs)[0] == us[0] && (us + vs)[1..] == us[1..] + vs;
      AnyOfConcat(us[1..], vs);
    }
  }

  // ----- the shape of what a call adds -------------------------------------------------------

  function VersionPieces(g: Gen, c: Call): seq<Piece> {
    if UsesL3(c) && NeedsVersion(g, Family(c)) then
      (if g.group.Some? && g.group.value.invert then [Grouped(true, [])] else [])
      + [Plain(Test(AVersion(Version(Family(c)))))]
    else []
  }

  function LoadElems(g: Gen, c: Call): seq<Elem> {
    if UsesX(c) && !g.xset then [LoadX] else []
  }

  lemma PlainsConcat(es: seq<Elem>, fs: seq<Elem>)
    ensures Plains(es + fs) == Plains(es) + Plains(fs)
  {
    if es == [] {
      assert es + fs == fs;
    } else {
      assert (es + fs)[0] == es[0] && (es + fs)[1..] == es[1..] + fs;
      PlainsConcat(es[1..], fs);
    }
  }

  lemma FetchShape(g: Gen, c: Call)
    requires UsesL3(c) && FetchL3(g, Family(c), UsesX(c)).Some? && (g.af != Unspec ==> g.fetched)
    ensures var h, ld := FetchL3(g, Family(c), UsesX(c)).value, LoadElems(g, c);
            && h.pieces == g.pieces + VersionPieces(g, c) + (if g.group.None? then Plains(ld) else [])
            && (if g.group.None? then h.group.None?
                else h.group == Some(g.group.value.(elems := g.group.value.elems + ld)))
            && h.xset == (g.xset || UsesX(c)) && h.l4 == g.l4 && h.fetched
            && h.af == (if Family(c) != Unspec then Family(c) else g.af)
  {
    assert Plains([]) == [];
    hide Plains;
    var vp := VersionPieces(g, c);
    assert g.group.Some? ==> g.group.value.elems + [] == g.group.value.elems;
    assert g.pieces + vp + [] == g.pieces + vp;
  }

  lemma ApplyShape(g: Gen, c: Call)
    requires CallOk(c) && Apply(g, c).Some? && (g.af != Unspec ==> g.fetched)
    ensures var h, es := Apply(g, c).value, LoadElems(g, c) + CallElems(c, g.l4);
            && h.group.Some? == g.group.Some?
            && h.pieces == g.pieces + VersionPieces(g, c) + (if g.group.None? then Plains(es) else [])
            && (g.group.Some? ==>
                  var grp := g.group.value;
                  h.group.value == Group(grp.invert, grp.elems + es, grp.blocks + CallBlocks(c)))
            && h.xset == (g.xset || UsesX(c)) && h.l4 == (g.l4 || c.Proto?)
            && h.fetched == (g.fetched || UsesL3(c))
            && h.af == (if Family(c) != Unspec then Family(c) else g.af)
  {
    hide CallElems, Plains, FetchL3;
    var vp, ld, es := VersionPieces(g, c), LoadElems(g, c), CallElems(c, g.l4);
    if UsesL3(c) {
      FetchShape(g, c);
      PlainsConcat(ld, es);
      assert g.pieces + vp + Plains(ld) + Plains(es) == g.pieces + vp + (Plains(ld) + Plains(es));
      assert g.group.Some? ==> g.group.value.elems + ld + es == g.group.value.elems + (ld + es);
    } else {
      assert ld + es == es && g.pieces + vp == g.pieces;
    }
  }

  // ----- the version tests -------------------------------------------------------------------

  /** The version tests emitted so far hold. */
  predicate VersionSoFar(npc: Npc, g: Gen) {
    (g.fetched ==> npc.ipver != 0) && (g.af != Unspec ==> npc.ipver == Version(g.af))
  }

  lemma VersionStep(npc: Npc, g: Gen, c: Call, x: u32)
    requires CallOk(c) && Apply(g, c).Some? && (g.af != Unspec ==> g.fetched)
    ensures forall p :: p in VersionPieces(g, c) ==> PieceOk(p) && PieceFits(p)
    ensures VersionSoFar(npc, Apply(g, c).value) <==> VersionSoFar(npc, g) && CallVersionHolds(npc, c)
    ensures VersionSoFar(npc, g) ==>
              EvalPieces(npc, VersionPieces(g, c), x)
              == if VersionSoFar(npc, Apply(g, c).value) then Some(x) else None
  {
    ApplyShape(g, c);
    var ps := VersionPieces(g, c);
    if ps != [] {
      var v := Plain(Test(AVersion(Version(Family(c)))));
      assert EvalPieces(npc, [v][1..], x) == Some(x);
      if |ps| == 2 {
        assert ps[1..] == [v];
        assert EvalPiece(npc, ps[0], x) == Some(x);
      } else {
        assert ps == [v];
      }
    }
  }

  // ----- one item ----------------------------------------------------------------------------

  /**
    * Between items: the pieces evaluate to the version tests and what the items so far ask for,
    * and X holds the layer 4 offset wherever the generator believes so.
    */
  ghost predicate Means(npc: Npc, g: Gen, holds: bool) {
    && GenOk(g) && (g.af != Unspec ==> g.fetched)
    && var v := EvalPieces(npc, g.pieces, 0);
    && (v.Some? <==> VersionSoFar(npc, g) && holds)
    && (v.Some? && g.xset && g.group.None? ==> v.value == npc.l4off)
  }

  function Bind(npc: Npc, v: Option<u32>, cs: seq<Piece>): Option<u32>
    requires forall c :: c in cs ==> PieceOk(c)
  {
    if v.Some? then EvalPieces(npc, cs, v.value) else None
  }

  /** Appending version tests and further pieces to a rule. */
  lemma Appended(npc: Npc, cs: seq<Piece>, ps: seq<Piece>, qs: seq<Piece>)
    requires PiecesOk(cs) && PiecesOk(ps) && PiecesOk(qs)
    ensures PiecesOk(cs + ps + qs)
    ensures EvalPieces(npc, cs + ps + qs, 0) == Bind(npc, Bind(npc, EvalPieces(npc, cs, 0), ps), qs)
  {
    EvalConcat(npc, cs + ps, qs, 0);
    EvalConcat(npc, cs, ps, 0);
  }

  lemma SingleMeaning(npc: Npc, g: Gen, c: Call, holds: bool)
    requires Means(npc, g, holds) && g.group.None? && CallOk(c) && Apply(g, c).Some?
    ensures var h := Apply(g, c).value;
            h.group.None? && Means(npc, h, holds && ItemTest(npc, Single(c), g.l4).Yes?)
  {
    hide EvalPieces, CallElems, CallTests, AllOf, Plains, RunPlain, Apply;
    var v := EvalPieces(npc, g.pieces, 0);
    var x := if v.Some? then v.value else npc.l4off;
    var ps, ld, es := VersionPieces(g, c), LoadElems(g, c), CallElems(c, g.l4);
    ApplyShape(g, c);
    CallElemsOk(c, g.l4);
    VersionStep(npc, g, c, x);
    Appended(npc, g.pieces, ps, Plains(ld + es));
    PlainsRun(npc, ld + es, x);
    RunConcat(npc, ld, es, x);
    LoadRun(npc, ld, x);
    CallRun(npc, c, g.l4, if ld != [] then npc.l4off else x);
  }

  lemma LoadRun(npc: Npc, ld: seq<Elem>, x: u32)
    requires ld == [] || ld == [LoadX]
    ensures RunPlain(npc, ld, x) == Some(if ld != [] then npc.l4off else x)
  {
  }

  // ----- groups ------------------------------------------------------------------------------

  /**
    * A group whose swapped jumps mean a choice: each criterion is one magic jump, and unless the
    * group is inverted X is not loaded behind a criterion that may already have left the group.
    */
  predicate Disciplined(invert: bool, xset: bool, blocks: nat, cs: seq<Call>)
    decreases |cs|
  {
    cs == [] ||
    (OneJump(cs[0]) && (!invert && UsesX(cs[0]) && !xset ==> blocks == 0) &&
     Disciplined(invert, xset || UsesX(cs[0]), blocks + CallBlocks(cs[0]), cs[1..]))
  }

  function Blocks(cs: seq<Call>): nat {
    if cs == [] then 0 else CallBlocks(cs[0]) + Blocks(cs[1..])
  }

  /** Groups of at most one positive criterion are left alone, whatever they hold. */
  predicate GroupGood(xset: bool, invert: bool, cs: seq<Call>) {
    invert || Blocks(cs) >= 2 ==> Disciplined(invert, xset, 0, cs)
  }

  function XNow(npc: Npc, es: seq<Elem>, x0: u32): u32 {
    if LoadX in es then npc.l4off else x0
  }

  predicate PlainPart(npc: Npc, es: seq<Elem>, vs: seq<Verdict>, x0: u32)
    requires forall e :: e in es ==> ElemOk(e)
  {
    RunPlain(npc, es, x0) == if AllOf(vs).Yes? then Some(XNow(npc, es, x0)) else None
  }

  predicate ScanPart(npc: Npc, es: seq<Elem>, vs: seq<Verdict>, x0: u32, invert: bool)
    requires forall e :: e in es ==> ElemOk(e)
  {
    var s := ScanGroup(npc, es, x0);
    match AnyOf(vs)
    case Yes => s.Hit? && (invert || s.x == XNow(npc, es, x0))
    case No => s == Past(XNow(npc, es, x0))
    case Short => s.Cut?
  }

  lemma TestCount(npc: Npc, c: Call, l4: bool)
    requires CallOk(c)
    ensures |CallTests(npc, c, l4)| == CallBlocks(c)
  {
  }

  lemma ScanLoad(npc: Npc, ld: seq<Elem>, x: u32)
    requires ld == [] || ld == [LoadX]
    ensures ScanGroup(npc, ld, x) == Past(if ld != [] then npc.l4off else x)
  {
  }

  lemma {:induction false} NoLoadInCidr(off: nat, addr: seq<u32>, length: nat)
    requires off + 4 * |addr| < W16
    ensures LoadX !in CidrElems(off, addr, length)
    decreases |addr|
  {
    if addr != [] && length != 0 {
      NoLoadInCidr(off + 4, addr[1..], length - if length >= 32 then 32 else length);
    }
  }

  lemma NoLoadInCall(c: Call, l4: bool)
    requires CallOk(c)
    ensures LoadX !in CallElems(c, l4)
  {
    if c.Cidr? {
      NoLoadInCidr(AddrOffset(c.src, c.family), AddrWords(c.family, c.addr), MaskLength(c.family, c.mask));
    }
  }

  /** A further call in a disciplined group. */
  lemma ScanStep(npc: Npc, es: seq<Elem>, ld: seq<Elem>, c: Call, l4: bool, vs: seq<Verdict>, x0: u32, invert: bool)
    requires (forall e :: e in es ==> ElemOk(e)) && CallOk(c) && OneJump(c) && (c.TcpFlags? ==> l4)
    requires ScanPart(npc, es, vs, x0, invert) && (ld == [] || ld == [LoadX])
    requires UsesX(c) ==> ld == [LoadX] || XNow(npc, es, x0) == npc.l4off
    requires !invert && ld != [] ==> vs == []
    ensures forall e :: e in es + (ld + CallElems(c, l4)) ==> ElemOk(e)
    ensures ScanPart(npc, es + (ld + CallElems(c, l4)), vs + CallTests(npc, c, l4), x0, invert)
  {
    hide ScanGroup, CallElems, CallTests, AnyOf;
    var cs := CallElems(c, l4);
    CallElemsOk(c, l4);
    NoLoadInCall(c, l4);
    AnyOfConcat(vs, CallTests(npc, c, l4));
    EmptyTests();
    ScanConcat(npc, es, ld + cs, x0);
    var x := XNow(npc, es, x0);
    ScanConcat(npc, ld, cs, x);
    ScanLoad(npc, ld, x);
    CallScan(npc, c, l4, if ld != [] then npc.l4off else x);
  }

  lemma EmptyTests()
    ensures AnyOf([]) == No && AllOf([]) == Yes
  {
  }

  /** The first criterion of a group, read as a plain one. */
  lemma PlainStep(npc: Npc, ld: seq<Elem>, c: Call, l4: bool, x0: u32)
    requires CallOk(c) && (ld == [] || ld == [LoadX])
    requires UsesX(c) ==> ld == [LoadX] || x0 == npc.l4off
    ensures forall e :: e in ld + CallElems(c, l4) ==> ElemOk(e)
    ensures PlainPart(npc, ld + CallElems(c, l4), CallTests(npc, c, l4), x0)
  {
    hide RunPlain, CallElems, CallTests, AllOf;
    CallElemsOk(c, l4);
    NoLoadInCall(c, l4);
    RunConcat(npc, ld, CallElems(c, l4), x0);
    LoadRun(npc, ld, x0);
    CallRun(npc, c, l4, if ld != [] then npc.l4off else x0);
  }

  /** Inside a group: the pieces before it, and what its tests mean in either reading. */
  ghost predicate InGroup(npc: Npc, g: Gen, holds: bool, vs: seq<Verdict>, x0: u32, good: bool) {
    && Means(npc, g, holds) && g.group.Some? && Settled(g)
    && (var v := EvalPieces(npc, g.pieces, 0); v.Some? ==> v.value == x0)
    && var grp := g.group.value;
    && grp.blocks == |vs|
    && (|vs| <= 1 ==> PlainPart(npc, grp.elems, vs, x0))
    && (good ==> ScanPart(npc, grp.elems, vs, x0, grp.invert))
    && (g.xset ==> XNow(npc, grp.elems, x0) == npc.l4off)
  }

  lemma PiecesInGroup(npc: Npc, g: Gen, c: Call, holds: bool, x0: u32)
    requires Means(npc, g, holds) && g.group.Some? && Settled(g)
    requires var v := EvalPieces(npc, g.pieces, 0); v.Some? ==> v.value == x0
    requires CallOk(c) && Apply(g, c).Some?
    ensures var h := Apply(g, c).value;
            && Means(npc, h, holds) && Settled(h)
            && (var v := EvalPieces(npc, h.pieces, 0); v.Some? ==> v.value == x0)
  {
    hide EvalPieces, CallElems, Apply;
    ApplyShape(g, c);
    CallElemsOk(c, g.l4);
    VersionStep(npc, g, c, x0);
    var ps := VersionPieces(g, c);
    Appended(npc, g.pieces, ps, []);
    assert g.pieces + ps + [] == g.pieces + ps;
    NoPieces(npc, x0);
    BlocksAndElems(c, g.l4);
  }

  lemma NoPieces(npc: Npc, x: u32)
    ensures EvalPieces(npc, [], x) == Some(x)
  {
  }

  lemma BlocksAndElems(c: Call, l4: bool)
    requires CallOk(c)
    ensures CallBlocks(c) == 0 ==> CallElems(c, l4) == [] && !UsesX(c)
  {
  }

  lemma GroupStep(npc: Npc, g: Gen, c: Call, holds: bool, vs: seq<Verdict>, x0: u32, good: bool)
    requires InGroup(npc, g, holds, vs, x0, good) && CallOk(c) && CallFits(g, c) && Apply(g, c).Some?
    requires good ==> OneJump(c) && (!g.group.value.invert && UsesX(c) && !g.xset ==> vs == [])
    ensures InGroup(npc, Apply(g, c).value, holds, vs + CallTests(npc, c, g.l4), x0, good)
  {
    hide EvalPieces, CallElems, CallTests, Apply, ScanPart, PlainPart, Means;
    WellMeant(npc, g, holds);
    PiecesInGroup(npc, g, c, holds, x0);
    ApplyShape(g, c);
    TestCount(npc, c, g.l4);
    BlocksAndElems(c, g.l4);
    NoLoadInCall(c, g.l4);
    var ld, es := LoadElems(g, c), g.group.value.elems;
    if good {
      ScanStep(npc, es, ld, c, g.l4, vs, x0, g.group.value.invert);
    }
    if vs == [] {
      PlainStep(npc, ld, c, g.l4, x0);
      assert es + (ld + CallElems(c, g.l4)) == ld + CallElems(c, g.l4);
      assert vs + CallTests(npc, c, g.l4) == CallTests(npc, c, g.l4);
    } else if CallBlocks(c) == 0 {
      assert es + (ld + CallElems(c, g.l4)) == es;
      assert vs + CallTests(npc, c, g.l4) == vs;
    }
  }

  lemma WellMeant(npc: Npc, g: Gen, holds: bool)
    requires Means(npc, g, holds)
    ensures GenOk(g) && (g.af != Unspec ==> g.fetched)
  {
  }

  lemma {:induction false} GroupFold(npc: Npc, g: Gen, cs: seq<Call>, holds: bool, vs: seq<Verdict>, x0: u32,
                                     good: bool)
    requires (forall c :: c in cs ==> CallOk(c)) && BuildCalls(g, cs).Some? && CallsFit(g, cs)
    requires InGroup(npc, g, holds, vs, x0, good)
    requires good ==> Disciplined(g.group.value.invert, g.xset, |vs|, cs)
    ensures var h := BuildCalls(g, cs).value;
            && InGroup(npc, h, holds, vs + GroupTests(npc, cs, g.l4), x0, good)
            && h.group.value.invert == g.group.value.invert
            && h.l4 == (g.l4 || HasProto(cs))
            && (VersionSoFar(npc, h) <==> VersionSoFar(npc, g) && forall c :: c in cs ==> CallVersionHolds(npc, c))
    decreases |cs|
  {
    hide InGroup, Apply, CallTests;
    if cs == [] {
      assert vs + [] == vs;
    } else {
      var h := Apply(g, cs[0]).value;
      assert InGroup(npc, g, holds, vs, x0, good);
      GroupShape(npc, g, holds, vs, x0, good);
      ApplyShape(g, cs[0]);
      VersionStep(npc, g, cs[0], 0);
      TestCount(npc, cs[0], g.l4);
      GroupStep(npc, g, cs[0], holds, vs, x0, good);
      GroupFold(npc, h, cs[1..], holds, vs + CallTests(npc, cs[0], g.l4), x0, good);
      assert vs + GroupTests(npc, cs, g.l4)
          == vs + CallTests(npc, cs[0], g.l4) + GroupTests(npc, cs[1..], h.l4);
      assert cs == [cs[0]] + cs[1..];
    }
  }

  lemma GroupShape(npc: Npc, g: Gen, holds: bool, vs: seq<Verdict>, x0: u32, good: bool)
    requires InGroup(npc, g, holds, vs, x0, good)
    ensures GenOk(g) && (g.af != Unspec ==> g.fetched) && g.group.Some? && g.group.value.blocks == |vs|
  {
  }

  lemma {:induction false} GroupTestCount(npc: Npc, cs: seq<Call>, l4: bool)
    requires forall c :: c in cs ==> CallOk(c)
    ensures |GroupTests(npc, cs, l4)| == Blocks(cs)
  {
    if cs != [] {
      TestCount(npc, cs[0], l4);
      GroupTestCount(npc, cs[1..], l4 || cs[0].Proto?);
    }
  }

  /** Leaving a group: the rule so far and the choice, or its negation. */
  lemma CloseMeaning(npc: Npc, g: Gen, holds: bool, vs: seq<Verdict>, x0: u32, good: bool)
    requires InGroup(npc, g, holds, vs, x0, good) && CloseGroup(g).Some?
    requires !Transparent(g.group.value) ==> good
    ensures var h := CloseGroup(g).value;
            var v := if vs == [] then Yes else if g.group.value.invert then Negate(AnyOf(vs)) else AnyOf(vs);
            h.group.None? && Means(npc, h, holds && v.Yes?)
  {
    hide EvalPieces, ScanGroup, RunPlain, AllOf, AnyOf;
    var grp := g.group.value;
    var q := if Transparent(grp) then Plains(grp.elems) else [Grouped(grp.invert, grp.elems)];
    Appended(npc, g.pieces, [], q);
    NoPieces(npc, x0);
    assert g.pieces + [] + q == g.pieces + q;
    if Transparent(grp) {
      PlainsRun(npc, grp.elems, x0);
      OneVerdict(vs);
    } else {
      EmptyTests();
      OnePiece(npc, q[0], x0);
    }
  }

  lemma OneVerdict(vs: seq<Verdict>)
    requires |vs| <= 1
    ensures AllOf(vs).Yes? <==> vs == [] || AnyOf(vs).Yes?
  {
  }

  lemma OnePiece(npc: Npc, c: Piece, x: u32)
    requires PieceOk(c)
    ensures EvalPieces(npc, [c], x) == EvalPiece(npc, c, x)
  {
  }

  // ----- whole rules -------------------------------------------------------------------------

  /** A rule item after the other; None is a generation error. */
  function BuildItem(g: Gen, item: Item): Option<Gen>
    requires ItemOk(item) && GenOk(g)
  {
    match item
    case Single(c) => Apply(g, c)
    case Alternatives(invert, cs) =>
      var h := BuildCalls(OpenGroup(g, invert), cs);
      if h.None? then None
      else
        BuildKeepsOk(OpenGroup(g, invert), cs);
        CloseGroup(h.value)
  }

  lemma ApplyKeepsOk(g: Gen, c: Call)
    requires GenOk(g) && CallOk(c) && Apply(g, c).Some?
    ensures GenOk(Apply(g, c).value) && Apply(g, c).value.group.Some? == g.group.Some?
  {
    hide CallElems, Emit, FetchL3, GenCode;
    if UsesL3(c) {
      FetchKeepsOk(g, Family(c), UsesX(c));
    }
    var h := if UsesL3(c) then FetchL3(g, Family(c), UsesX(c)).value else g;
    CallElemsOk(c, g.l4);
    EmitCode(h, CallElems(c, g.l4), CallBlocks(c));
    EmitGroup(h, CallElems(c, g.l4), CallBlocks(c));
  }

  lemma EmitGroup(g: Gen, es: seq<Elem>, blocks: nat)
    ensures Emit(g, es, blocks).group.Some? == g.group.Some?
  {
  }

  lemma FetchKeepsOk(g: Gen, af: Af, wantX: bool)
    requires GenOk(g) && FetchL3(g, af, wantX).Some?
    ensures GenOk(FetchL3(g, af, wantX).value)
    ensures FetchL3(g, af, wantX).value.group.Some? == g.group.Some?
  {
    hide Emit, GenCode;
    EmptyGroupCode();
    var h := if NeedsVersion(g, af) then AddVersion(g, af) else g;
    assert GenOk(h);
    EmitCode(h, [LoadX], 0);
    EmitGroup(h, [LoadX], 0);
  }

  lemma {:induction false} BuildKeepsOk(g: Gen, cs: seq<Call>)
    requires GenOk(g) && (forall c :: c in cs ==> CallOk(c)) && BuildCalls(g, cs).Some?
    ensures GenOk(BuildCalls(g, cs).value) && BuildCalls(g, cs).value.group.Some? == g.group.Some?
    decreases |cs|
  {
    if cs != [] {
      ApplyKeepsOk(g, cs[0]);
      BuildKeepsOk(Apply(g, cs[0]).value, cs[1..]);
    }
  }

  function Build(g: Gen, items: seq<Item>): (h: Option<Gen>)
    requires GenOk(g) && forall i :: i in items ==> ItemOk(i)
    ensures h.Some? ==> GenOk(h.value)
    decreases |items|
  {
    if items == [] then Some(g)
    else
      var h := BuildItem(g, items[0]);
      if h.None? then None
      else
        BuildItemKeepsOk(g, items[0]);
        Build(h.value, items[1..])
  }

  lemma BuildItemKeepsOk(g: Gen, item: Item)
    requires GenOk(g) && ItemOk(item) && BuildItem(g, item).Some?
    ensures GenOk(BuildItem(g, item).value)
  {
    match item
    case Single(c) => ApplyKeepsOk(g, c);
    case Alternatives(invert, cs) =>
      BuildKeepsOk(OpenGroup(g, invert), cs);
      CloseGroupCode(BuildCalls(OpenGroup(g, invert), cs).value);
  }

  /** The emitters' assertions hold along the rule. */
  predicate Callable(g: Gen, items: seq<Item>)
    requires GenOk(g) && forall i :: i in items ==> ItemOk(i)
    decreases |items|
  {
    items == [] ||
    (ItemFits(g, items[0]) &&
     var h := BuildItem(g, items[0]);
     h.Some? ==> (BuildItemKeepsOk(g, items[0]); Callable(h.value, items[1..])))
  }

  predicate ItemFits(g: Gen, item: Item) {
    match item
    case Single(c) => CallFits(g, c)
    case Alternatives(invert, cs) => CallsFit(OpenGroup(g, invert), cs)
  }

  predicate ItemGood(xset: bool, item: Item) {
    item.Alternatives? ==> GroupGood(xset, item.invert, item.calls)
  }

  /** The emitters' assertions hold along the rule, and its groups are good ones. */
  predicate Compilable(g: Gen, items: seq<Item>)
    requires GenOk(g) && forall i :: i in items ==> ItemOk(i)
    decreases |items|
  {
    items == [] ||
    (ItemFits(g, items[0]) && ItemGood(g.xset, items[0]) &&
     var h := BuildItem(g, items[0]);
     h.Some? ==> (BuildItemKeepsOk(g, items[0]); Compilable(h.value, items[1..])))
  }

  lemma ItemMeaning(npc: Npc, g: Gen, item: Item, holds: bool)
    requires Means(npc, g, holds) && g.group.None? && ItemOk(item) && Compilable(g, [item])
    requires BuildItem(g, item).Some?
    ensures var h := BuildItem(g, item).value;
            && h.group.None? && Means(npc, h, holds && ItemTest(npc, item, g.l4).Yes?)
            && h.l4 == (g.l4 || HasProto(Calls(item)))
            && (VersionSoFar(npc, h) <==>
                  VersionSoFar(npc, g) && forall c :: c in Calls(item) ==> CallVersionHolds(npc, c))
  {
    match item
    case Single(c) =>
      hide Apply;
      SingleMeaning(npc, g, c, holds);
      VersionStep(npc, g, c, 0);
      ApplyShape(g, c);
      assert c in Calls(item);
    case Alternatives(invert, cs) =>
      AlternativesMeaning(npc, g, invert, cs, holds);
  }

  /** The value X has where a group starts. */
  function StartX(npc: Npc, g: Gen): u32
    requires GenOk(g)
  {
    var v := EvalPieces(npc, g.pieces, 0);
    if v.Some? then v.value else npc.l4off
  }

  lemma Opened(npc: Npc, g: Gen, invert: bool, holds: bool, good: bool)
    requires Means(npc, g, holds) && g.group.None?
    ensures InGroup(npc, OpenGroup(g, invert), holds, [], StartX(npc, g), good)
  {
    hide EvalPieces;
    EmptyTests();
  }

  lemma AlternativesMeaning(npc: Npc, g: Gen, invert: bool, cs: seq<Call>, holds: bool)
    requires Means(npc, g, holds) && g.group.None? && (forall c :: c in cs ==> CallOk(c))
    requires CallsFit(OpenGroup(g, invert), cs) && GroupGood(g.xset, invert, cs)
    requires BuildItem(g, Alternatives(invert, cs)).Some?
    ensures var item := Alternatives(invert, cs);
            var h := BuildItem(g, item).value;
            && h.group.None? && Means(npc, h, holds && ItemTest(npc, item, g.l4).Yes?)
            && h.l4 == (g.l4 || HasProto(cs))
            && (VersionSoFar(npc, h) <==> VersionSoFar(npc, g) && forall c :: c in cs ==> CallVersionHolds(npc, c))
  {
    hide EvalPieces, GroupTests, Means, InGroup, PlainPart, ScanPart;
    var o, good := OpenGroup(g, invert), invert || Blocks(cs) >= 2;
    WellMeant(npc, g, holds);
    var x0 := StartX(npc, g);
    Opened(npc, g, invert, holds, good);
    GroupFold(npc, o, cs, holds, [], x0, good);
    GroupTestCount(npc, cs, g.l4);
    var vs := GroupTests(npc, cs, g.l4);
    assert [] + vs == vs;
    GroupShape(npc, BuildCalls(o, cs).value, holds, vs, x0, good);
    CloseMeaning(npc, BuildCalls(o, cs).value, holds, vs, x0, good);
  }

  lemma {:induction false} ItemsMeaning(npc: Npc, g: Gen, items: seq<Item>, holds: bool)
    requires Means(npc, g, holds) && g.group.None? && (forall i :: i in items ==> ItemOk(i))
    requires Compilable(g, items) && Build(g, items).Some?
    ensures var h := Build(g, items).value;
            && h.group.None? && Means(npc, h, holds && TestsHold(npc, items, g.l4))
            && (VersionSoFar(npc, h) <==> VersionSoFar(npc, g) && VersionHolds(npc, items))
    decreases |items|
  {
    hide Means, VersionSoFar, ItemTest, BuildItem;
    if items != [] {
      WellMeant(npc, g, holds);
      BuildItemKeepsOk(g, items[0]);
      var h := BuildItem(g, items[0]).value;
      FirstCompilable(g, items);
      ItemMeaning(npc, g, items[0], holds);
      ItemsMeaning(npc, h, items[1..], holds && ItemTest(npc, items[0], g.l4).Yes?);
      assert items == [items[0]] + items[1..];
    }
  }

  lemma FirstCallable(g: Gen, items: seq<Item>)
    requires GenOk(g) && (forall i :: i in items ==> ItemOk(i)) && items != [] && Callable(g, items)
    ensures Callable(g, [items[0]])
  {
  }

  lemma {:induction false} CompilableIsCallable(g: Gen, items: seq<Item>)
    requires GenOk(g) && (forall i :: i in items ==> ItemOk(i)) && Compilable(g, items)
    ensures Callable(g, items)
    decreases |items|
  {
    if items != [] && BuildItem(g, items[0]).Some? {
      BuildItemKeepsOk(g, items[0]);
      CompilableIsCallable(BuildItem(g, items[0]).value, items[1..]);
    }
  }

  lemma FirstCompilable(g: Gen, items: seq<Item>)
    requires GenOk(g) && (forall i :: i in items ==> ItemOk(i)) && items != [] && Compilable(g, items)
    ensures Compilable(g, [items[0]])
  {
  }

  /**
    * A rule whose calls respect the emitters' assertions, whose groups are good and that compiles without
    * a generation error yields a program that returns success exactly when the tests say so.
    */
  lemma ProgramTests(npc: Npc, items: seq<Item>)
    requires |npc.pkt| < W32 && (forall i :: i in items ==> ItemOk(i))
    requires Compilable(EMPTY, items) && Build(EMPTY, items).Some?
    requires |PiecesCode(Build(EMPTY, items).value.pieces)| < MAGIC
    ensures FilterOutcome(NpfEnv(npc), CompleteCode(PiecesCode(Build(EMPTY, items).value.pieces)), Prepared(npc))
         == Value(if TestsMatch(npc, items) then MAX32 else 0)
  {
    hide FilterOutcome, CompleteCode, PiecesCode, TestsHold, VersionHolds;
    assert Means(npc, EMPTY, true);
    ItemsMeaning(npc, EMPTY, items, true);
    ProgramMeaning(npc, Build(EMPTY, items).value.pieces);
  }
}
