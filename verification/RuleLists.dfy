/**
  * Whole lists with swapped jumps (src/npfctl/npf_build.c, src/npfctl/npf_bpf_comp.c): exactly which of
  * them get a program that is right on every packet.
  */
module RuleLists {
  import opened Words
  import opened BpfMachine
  import opened BpfCode
  import opened BpfMeaning
  import opened RuleCompiler
  import opened RuleCriteria
  import opened RuleTests
  import opened RuleMeaning
  import opened RuleLimits
  import opened RuleDriver

  // ----- lists of ports ----------------------------------------------------------------------

  /** "proto tcp" and a list of ports. */
  function PortRule(src: bool, ranges: seq<(u16, u16)>): seq<Item> {
    [Single(Proto(IPPROTO_TCP)), Alternatives(false, PortCalls(src, ranges))]
  }

  /** A port is in one of the ranges; a port is one of the single ports. */
  predicate InRange(ranges: seq<(u16, u16)>, port: nat) {
    exists k :: 0 <= k < |ranges| && ranges[k].0 <= port <= ranges[k].1
  }

  predicate IsSingle(ranges: seq<(u16, u16)>, port: nat) {
    exists k :: 0 <= k < |ranges| && ranges[k].0 == port == ranges[k].1
  }

  function PortTest(src: bool, r: (u16, u16)): Elem {
    var off: u16 := if src then 0 else 2;
    Test(if r.0 == r.1 then APort(off, r.0) else ARange(off, r.0, r.1))
  }

  function PortTests(src: bool, ranges: seq<(u16, u16)>): seq<Elem> {
    seq(|ranges|, i requires 0 <= i < |ranges| => PortTest(src, ranges[i]))
  }

  function PortPieces(src: bool, ranges: seq<(u16, u16)>): seq<Piece> {
    [Plain(Test(AProto(IPPROTO_TCP))), Plain(Test(AVersion(0))), Grouped(false, [LoadX] + PortTests(src, ranges))]
  }

  lemma {:induction false} MorePorts(g: Gen, src: bool, ranges: seq<(u16, u16)>)
    requires g.group.Some? && g.fetched && g.xset
    ensures var grp := g.group.value;
      var grp' := grp.(elems := grp.elems + PortTests(src, ranges), blocks := grp.blocks + |ranges|);
      BuildCalls(g, PortCalls(src, ranges)) == Some(g.(group := Some(grp')))
    decreases |ranges|
  {
    var grp := g.group.value;
    if ranges == [] {
      assert grp.elems + PortTests(src, ranges) == grp.elems;
    } else {
      var c, t := Ports(src, ranges[0].0, ranges[0].1), PortTest(src, ranges[0]);
      var h := g.(group := Some(Group(grp.invert, grp.elems + [t], grp.blocks + 1)));
      assert Apply(g, c) == Some(h);
      assert PortCalls(src, ranges)[1..] == PortCalls(src, ranges[1..]);
      MorePorts(h, src, ranges[1..]);
      assert grp.elems + [t] + PortTests(src, ranges[1..]) == grp.elems + PortTests(src, ranges);
    }
  }

  /** After the protocol, and inside the group after its last port. */
  function PortGen(src: bool, ranges: seq<(u16, u16)>, inside: bool): Gen {
    var ps := PortPieces(src, ranges);
    if !inside then EMPTY.(pieces := ps[..1], l4 := true)
    else EMPTY.(pieces := ps[..2], group := Some(Group(false, ps[2].elems, |ranges|)),
                l4 := true, fetched := true, xset := true)
  }

  lemma FirstPort(src: bool, ranges: seq<(u16, u16)>, h: Gen)
    requires ranges != []
    requires h == PortGen(src, ranges, true).(group := Some(Group(false, [LoadX] + [PortTest(src, ranges[0])], 1)))
    ensures Apply(EMPTY, Proto(IPPROTO_TCP)) == Some(PortGen(src, ranges, false))
    ensures Apply(OpenGroup(PortGen(src, ranges, false), false), Ports(src, ranges[0].0, ranges[0].1)) == Some(h)
  {
    var ps := PortPieces(src, ranges);
    assert Plains([ps[0].elem]) == ps[..1] && [] + ps[..1] == ps[..1];
    assert ps[..1] + [] + [Plain(Test(AVersion(0)))] == ps[..2];
    assert [] + [LoadX] + [PortTest(src, ranges[0])] == [LoadX] + [PortTest(src, ranges[0])];
  }

  lemma PortGroup(src: bool, ranges: seq<(u16, u16)>)
    requires ranges != []
    ensures BuildCalls(OpenGroup(PortGen(src, ranges, false), false), PortCalls(src, ranges))
         == Some(PortGen(src, ranges, true))
  {
    var h := PortGen(src, ranges, true).(group := Some(Group(false, [LoadX] + [PortTest(src, ranges[0])], 1)));
    FirstPort(src, ranges, h);
    MorePorts(h, src, ranges[1..]);
    hide Apply;
    var cs := PortCalls(src, ranges);
    assert cs[0] == Ports(src, ranges[0].0, ranges[0].1) && cs[1..] == PortCalls(src, ranges[1..]);
    assert [LoadX] + [PortTest(src, ranges[0])] + PortTests(src, ranges[1..]) == [LoadX] + PortTests(src, ranges);
  }

  lemma PortsOk(src: bool, ranges: seq<(u16, u16)>)
    ensures forall i :: i in PortRule(src, ranges) ==> ItemOk(i)
  {
  }

  lemma PortBuild(src: bool, ranges: seq<(u16, u16)>)
    requires |ranges| >= 2 && Compiles(PortRule(src, ranges))
    ensures Build(EMPTY, PortRule(src, ranges)).value.pieces == PortPieces(src, ranges)
  {
    PortsOk(src, ranges);
    var items, ps, g := PortRule(src, ranges), PortPieces(src, ranges), PortGen(src, ranges, false);
    var first := Group(false, [LoadX] + [PortTest(src, ranges[0])], 1);
    FirstPort(src, ranges, PortGen(src, ranges, true).(group := Some(first)));
    PortGroup(src, ranges);
    BuildKeepsOk(OpenGroup(g, false), items[1].calls);
    hide Apply, BuildCalls;
    assert items[1..] == [items[1]] && items[1..][1..] == [];
    assert BuildItem(EMPTY, items[0]) == Some(g);
    BuildItemKeepsOk(EMPTY, items[0]);
    assert Build(g, items[1..]).Some?;
    assert ps[..2] + [ps[2]] == ps;
  }

  // ----- what the list tests and what it means

  lemma {:induction false} PortScan(npc: Npc, src: bool, ranges: seq<(u16, u16)>)
    ensures var half := HalfAt(npc, npc.l4off, if src then 0 else 2);
      ScanGroup(npc, PortTests(src, ranges), npc.l4off) ==
        if ranges == [] then Past(npc.l4off) else if half.None? then Cut
        else if IsSingle(ranges, half.value) then Hit(npc.l4off) else Past(npc.l4off)
  {
    if ranges != [] {
      PortScan(npc, src, ranges[1..]);
      assert PortTests(src, ranges)[1..] == PortTests(src, ranges[1..]);
      var half := HalfAt(npc, npc.l4off, if src then 0 else 2);
      if half.Some? { SingleCons(ranges, half.value); }
    }
  }

  lemma SingleCons(ranges: seq<(u16, u16)>, port: nat)
    requires ranges != []
    ensures IsSingle(ranges, port) <==> ranges[0].0 == port == ranges[0].1 || IsSingle(ranges[1..], port)
    ensures InRange(ranges, port) <==> ranges[0].0 <= port <= ranges[0].1 || InRange(ranges[1..], port)
  {
    var rest := ranges[1..];
    if k :| 0 <= k < |rest| && rest[k].0 == port == rest[k].1 { assert ranges[k + 1] == rest[k]; }
    if k :| 0 <= k < |rest| && rest[k].0 <= port <= rest[k].1 { assert ranges[k + 1] == rest[k]; }
    if k :| 0 < k < |ranges| && ranges[k].0 == port == ranges[k].1 { assert ranges[k] == rest[k - 1]; }
    if k :| 0 < k < |ranges| && ranges[k].0 <= port <= ranges[k].1 { assert ranges[k] == rest[k - 1]; }
  }

  lemma {:induction false} PortChoice(npc: Npc, src: bool, ranges: seq<(u16, u16)>)
    ensures |ChoiceVerdicts(npc, PortCalls(src, ranges))| == |ranges|
    ensures var half := HalfAt(npc, npc.l4off, if src then 0 else 2);
      AnyOf(ChoiceVerdicts(npc, PortCalls(src, ranges))) ==
        if ranges == [] then No else if half.None? then Short else Decide(InRange(ranges, half.value))
  {
    if ranges != [] {
      PortChoice(npc, src, ranges[1..]);
      assert PortCalls(src, ranges)[1..] == PortCalls(src, ranges[1..]);
      var vs := ChoiceVerdicts(npc, PortCalls(src, ranges));
      assert vs[1..] == ChoiceVerdicts(npc, PortCalls(src, ranges[1..]));
      var half := HalfAt(npc, npc.l4off, if src then 0 else 2);
      if half.Some? { SingleCons(ranges, half.value); }
    }
  }

  /** The part of both readings that is the same: TCP, some IP version, and a packet that has the port. */
  predicate HasPort(npc: Npc, src: bool) {
    npc.proto == IPPROTO_TCP && npc.ipver != 0 && HalfAt(npc, npc.l4off, if src then 0 else 2).Some?
  }

  function PortOf(npc: Npc, src: bool): nat
    requires HasPort(npc, src)
  {
    HalfAt(npc, npc.l4off, if src then 0 else 2).value
  }

  lemma PortEval(npc: Npc, src: bool, ranges: seq<(u16, u16)>)
    requires ranges != []
    ensures EvalPieces(npc, PortPieces(src, ranges), 0).Some? <==>
      HasPort(npc, src) && IsSingle(ranges, PortOf(npc, src))
  {
    hide IsSingle;
    var ps, es := PortPieces(src, ranges), [LoadX] + PortTests(src, ranges);
    PortScan(npc, src, ranges);
    assert es[0] == LoadX && es[1..] == PortTests(src, ranges);
    hide PortTests;
    assert ScanGroup(npc, es, 0) == ScanGroup(npc, es[1..], npc.l4off);
    OnePiece(npc, ps[2], 0);
    assert ps[1..] == [ps[1], ps[2]] && ps[1..][1..] == [ps[2]];
  }

  lemma PortMatches(npc: Npc, src: bool, ranges: seq<(u16, u16)>)
    requires ranges != []
    ensures (forall i :: i in PortRule(src, ranges) ==> ItemOk(i))
    ensures RuleMatches(npc, PortRule(src, ranges)) <==> HasPort(npc, src) && InRange(ranges, PortOf(npc, src))
  {
    hide InRange, ChoiceVerdicts, AnyOf;
    PortsOk(src, ranges);
    PortChoice(npc, src, ranges);
    var items := PortRule(src, ranges);
    var c := items[1].calls[0];
    assert items[0] in items && items[1] in items && c in Calls(items[1]);
    assert CallVersionHolds(npc, c) <==> npc.ipver != 0;
    assert forall i, d :: i in items && d in Calls(i) ==> d.Ports? || d == Proto(IPPROTO_TCP);
    assert VersionHolds(npc, items) <==> npc.ipver != 0;
    assert ItemVerdict(npc, items[0]).Yes? <==> npc.proto == IPPROTO_TCP;
    assert ItemVerdict(npc, items[1]) == AnyOf(ChoiceVerdicts(npc, PortCalls(src, ranges)));
  }

  /**
    * A list of two or more ports and ranges gets a program that is right on every packet exactly when
    * every port of its ranges is also listed by itself.
    */
  lemma PortListsExactly(src: bool, ranges: seq<(u16, u16)>)
    requires |ranges| >= 2 && Compiles(PortRule(src, ranges))
    ensures RightAlways(PortRule(src, ranges)) <==> forall p: u16 :: InRange(ranges, p) ==> IsSingle(ranges, p)
  {
    hide InRange, IsSingle;
    var items := PortRule(src, ranges);
    forall npc: Npc | |npc.pkt| < W32
      ensures (Filtered(npc, items) == Value(if RuleMatches(npc, items) then MAX32 else 0)) <==>
        (HasPort(npc, src) ==> (InRange(ranges, PortOf(npc, src)) <==> IsSingle(ranges, PortOf(npc, src))))
    {
      PortFiltered(npc, src, ranges);
    }
    forall p: nat | IsSingle(ranges, p) ensures InRange(ranges, p) { SingleInRange(ranges, p); }
    if p: u16 :| InRange(ranges, p) && !IsSingle(ranges, p) {
      var npc := PortPacket(p);
      assert HasPort(npc, src) && PortOf(npc, src) == p by { PortPacketPort(p, src); }
    } else {
      forall npc: Npc | HasPort(npc, src) ensures PortOf(npc, src) < W16 { PortIsSmall(npc, src); }
    }
  }

  lemma SingleInRange(ranges: seq<(u16, u16)>, p: nat)
    requires IsSingle(ranges, p)
    ensures InRange(ranges, p)
  {
  }

  lemma PortIsSmall(npc: Npc, src: bool)
    requires HasPort(npc, src)
    ensures PortOf(npc, src) < W16
  {
  }

  lemma PortPacketPort(p: u16, src: bool)
    ensures HasPort(PortPacket(p), src) && PortOf(PortPacket(p), src) == p
  {
  }

  lemma PortFiltered(npc: Npc, src: bool, ranges: seq<(u16, u16)>)
    requires |npc.pkt| < W32 && |ranges| >= 2 && Compiles(PortRule(src, ranges))
    ensures var items := PortRule(src, ranges);
      (Filtered(npc, items) == Value(if RuleMatches(npc, items) then MAX32 else 0)) <==>
      (HasPort(npc, src) ==> (InRange(ranges, PortOf(npc, src)) <==> IsSingle(ranges, PortOf(npc, src))))
  {
    PortMatches(npc, src, ranges);
    PortEval(npc, src, ranges);
    PortBuild(src, ranges);
    hide Build, EvalPieces, RuleMatches, InRange, IsSingle, HasPort, FilterOutcome, PiecesCode, CompleteCode;
    ProgramMeaning(npc, PortPieces(src, ranges));
  }

  // ----- a network that is not to match ------------------------------------------------------

  /** "! network". */
  function NotRule(c: Call): seq<Item> {
    [Alternatives(true, [c])]
  }

  function NotPieces(c: Call): seq<Piece>
    requires CallOk(c) && c.Cidr?
  {
    [Grouped(true, []), Plain(Test(AVersion(Version(c.family)))), Grouped(true, CallElems(c, false))]
  }

  lemma NotStep(c: Call)
    requires CallOk(c) && c.Cidr?
    ensures var h := Apply(OpenGroup(EMPTY, true), c);
      && h.Some? && h.value.pieces == NotPieces(c)[..2] && h.value.group == Some(Group(true, CallElems(c, false), 1))
      && |CallElems(c, false)| <= 4 && forall e :: e in CallElems(c, false) ==> ElemOk(e)
  {
    var o := OpenGroup(EMPTY, true);
    assert Apply(o, c).Some?;
    ApplyShape(o, c);
    NetElems(c);
    CallElemsOk(c, false);
    hide Apply, CallElems;
    var es := CallElems(c, false);
    assert [] + ([] + es) == es;
    assert [] + VersionPieces(o, c) + [] == NotPieces(c)[..2];
  }

  lemma NotBuild(c: Call)
    requires CallOk(c) && c.Cidr?
    ensures (forall i :: i in NotRule(c) ==> ItemOk(i))
    ensures var b := Build(EMPTY, NotRule(c)); b.Some? && b.value.pieces == NotPieces(c) && Size(NotPieces(c)) <= 29
    ensures OneJump(c) ==> Compilable(EMPTY, NotRule(c))
  {
    NotStep(c);
    hide Apply, CallElems;
    var o, cs, ps := OpenGroup(EMPTY, true), [c], NotPieces(c);
    var h := Apply(o, c).value;
    assert cs[1..] == [];
    assert BuildCalls(h, []) == Some(h) && BuildCalls(o, cs) == Some(h);
    BuildKeepsOk(o, cs);
    ElemsBound(CallElems(c, false));
    assert ps[..2] + [ps[2]] == ps;
    var k := CloseGroup(h);
    assert k.Some? && k.value.pieces == ps;
    assert BuildItem(EMPTY, NotRule(c)[0]) == k;
    BuildItemKeepsOk(EMPTY, NotRule(c)[0]);
    assert NotRule(c)[1..] == [];
    assert Build(k.value, []) == k;
    assert Size(ps) == 7 + 5 * |CallElems(c, false)| + 2 by {
      assert ps[1..][1..] == [ps[2]] && ps[1..][1..][1..] == [];
      assert Size(ps[1..][1..]) == 5 * |CallElems(c, false)| + 2;
      assert Size(ps[1..]) == 5 + Size(ps[1..][1..]);
    }
    if OneJump(c) {
      assert CallsFit(h, []) && CallsFit(o, cs);
      assert Disciplined(true, false, 0, cs) by { assert Disciplined(true, false, 1, cs[1..]); }
      assert Compilable(k.value, []);
    }
  }

  lemma NotEval(npc: Npc, c: Call)
    requires CallOk(c) && c.Cidr? && npc.ipver == Version(c.family)
    ensures forall e :: e in CallElems(c, false) ==> ElemOk(e)
    ensures var s := ScanGroup(npc, CallElems(c, false), 0);
      EvalPieces(npc, NotPieces(c), 0).Some? <==> s.Past?
  {
    CallElemsOk(c, false);
    hide CallElems;
    var ps := NotPieces(c);
    OnePiece(npc, ps[2], 0);
    assert ps[1..] == [ps[1], ps[2]] && ps[1..][1..] == [ps[2]];
    assert EvalPiece(npc, ps[0], 0) == Some(0) && EvalPiece(npc, ps[1], 0) == Some(0);
  }

  lemma NotMatches(npc: Npc, c: Call)
    requires CallOk(c) && c.Cidr? && npc.ipver == Version(c.family)
    ensures (forall i :: i in NotRule(c) ==> ItemOk(i))
    ensures RuleMatches(npc, NotRule(c)) <==> CallVerdict(npc, c) == No
  {
    hide CallVerdict;
    var items := NotRule(c);
    assert ChoiceVerdicts(npc, [c]) == [CallVerdict(npc, c)] by { assert [c][1..] == []; }
    assert AnyOf([CallVerdict(npc, c)]) == CallVerdict(npc, c) by { assert [CallVerdict(npc, c)][1..] == []; }
    assert items[0] in items && c in Calls(items[0]);
    assert ItemVerdict(npc, items[0]) == Negate(CallVerdict(npc, c));
  }

  /** A packet on which the program of an inverted network is wrong. */
  lemma NotWrong(npc: Npc, c: Call)
    requires CallOk(c) && c.Cidr? && npc.ipver == Version(c.family) && |npc.pkt| < W32 && Compiles(NotRule(c))
    requires forall e :: e in CallElems(c, false) ==> ElemOk(e)
    requires ScanGroup(npc, CallElems(c, false), 0).Past? != (CallVerdict(npc, c) == No)
    ensures !RightAlways(NotRule(c))
  {
    NotBuild(c);
    NotEval(npc, c);
    NotMatches(npc, c);
    hide Build, EvalPieces, RuleMatches, Size, ScanGroup, CallElems, CallVerdict, Compilable;
    ByPieces(npc, NotRule(c));
  }

  /** A network that is not to match is compiled rightly exactly when it is one jump without host bits. */
  lemma NotExactly(c: Call)
    requires CallOk(c) && c.Cidr?
    ensures Compiles(NotRule(c)) && (RightAlways(NotRule(c)) <==> OneJump(c) && NetExact(c))
  {
    var items := NotRule(c);
    NotBuild(c);
    CallElemsOk(c, false);
    hide Build, EvalPieces, Size, ScanGroup, CallElems, CallVerdict, CallTests, Compilable, NetExact, AddressPacket;
    assert |AddressPacket(c).pkt| < W32 by { ShortPacket(c); }
    ByPieces(AddressPacket(c), items);
    if !OneJump(c) {
      var npc := HalfAddressPacket(c);
      HalfAddress(npc, c, false);
      AnyX(npc, c);
      hide HalfAddressPacket;
      NotWrong(npc, c);
    } else if !NetExact(c) {
      var npc := AddressPacket(c);
      AddressPacketVerdicts(c, false);
      CallScan(npc, c, false, 0);
      assert AnyOf([No]) == No by { assert [No][1..] == []; }
      assert npc.ipver == Version(c.family) by { PacketVersion(c); }
      NotWrong(npc, c);
    } else {
      assert Exact(items, false, false) by { NotExact(c); }
      hide Exact, Compiles, Filtered, RuleMatches;
      forall npc: Npc | |npc.pkt| < W32
        ensures Filtered(npc, items) == Value(if RuleMatches(npc, items) then MAX32 else 0)
      {
        CompilerCorrect(npc, items);
      }
    }
  }

  lemma PacketVersion(c: Call)
    requires CallOk(c) && c.Cidr?
    ensures AddressPacket(c).ipver == Version(c.family)
  {
  }

  lemma NotExact(c: Call)
    requires CallOk(c) && c.Cidr? && NetExact(c)
    ensures Exact(NotRule(c), false, false)
  {
    OneCallExact(c, false, false);
    hide NetExact, CallsExact;
    assert NotRule(c)[1..] == [];
  }

  /** Addresses do not depend on X. */
  lemma AnyX(npc: Npc, c: Call)
    requires CallOk(c) && c.Cidr? && (forall e :: e in CallElems(c, false) ==> ElemOk(e))
    ensures ScanGroup(npc, CallElems(c, false), npc.l4off).Past? == ScanGroup(npc, CallElems(c, false), 0).Past?
  {
    AnyXWords(npc, AddrOffset(c.src, c.family), AddrWords(c.family, c.addr), MaskLength(c.family, c.mask),
              npc.l4off, 0);
  }

  lemma {:induction false} AnyXWords(npc: Npc, off: nat, addr: seq<u32>, length: nat, x: u32, y: u32)
    requires off + 4 * |addr| < W16 && forall e :: e in CidrElems(off, addr, length) ==> ElemOk(e)
    ensures var es := CidrElems(off, addr, length); ScanGroup(npc, es, x).Past? == ScanGroup(npc, es, y).Past?
    decreases |addr|
  {
    if addr != [] && length != 0 {
      var n := if length >= 32 then 32 else length;
      var es := CidrElems(off, addr, length);
      assert es[0] == Test(AWord(off, n, addr[0])) && es[1..] == CidrElems(off + 4, addr[1..], length - n);
      CidrElemsOk(off + 4, addr[1..], length - n);
      AnyXWords(npc, off + 4, addr[1..], length - n, x, y);
    }
  }
}
