/**
  * From filters to packets: the rule that npfctl_build_code makes of a filter (src/npfctl/npf_build.c) matches
  * exactly the packets the filter is meant for, and so does its program, as long as no network is dropped
  * from a list where it matters.
  */
module FilterMeaning {
  import opened Words
  import opened BpfMachine
  import opened BpfCode
  import opened BpfMeaning
  import opened BpfValidator
  import opened BpfAccept
  import BpfOpcodes
  import opened RuleCompiler
  import opened RuleCriteria
  import opened RuleTests
  import opened RuleMeaning
  import opened RuleBuild
  import opened RuleLimits
  import opened Filters
  import opened NetMeaning
  import opened RuleDriver

  // ----- rules in parts ----------------------------------------------------------------------

  predicate VersionsHold(npc: Npc, cs: seq<Call>) {
    forall c :: c in cs ==> CallVersionHolds(npc, c)
  }

  predicate ItemHolds(npc: Npc, item: Item)
    requires ItemOk(item)
  {
    VersionsHold(npc, Calls(item)) && ItemVerdict(npc, item).Yes?
  }

  predicate AllOk(items: seq<Item>) { forall i :: i in items ==> ItemOk(i) }

  lemma MatchesByItem(npc: Npc, items: seq<Item>)
    requires AllOk(items)
    ensures RuleMatches(npc, items) <==> forall i :: i in items ==> ItemOk(i) && ItemHolds(npc, i)
  {
    hide ItemVerdict, CallVersionHolds, ItemOk;
    if forall i :: i in items ==> ItemOk(i) && ItemHolds(npc, i) {
      forall i, c | i in items && c in Calls(i) ensures CallVersionHolds(npc, c) {
        assert ItemHolds(npc, i);
      }
      forall i | i in items ensures ItemVerdict(npc, i).Yes? {
        assert ItemHolds(npc, i);
      }
    }
  }

  lemma MatchesConcat(npc: Npc, xs: seq<Item>, ys: seq<Item>)
    requires AllOk(xs) && AllOk(ys)
    ensures AllOk(xs + ys)
    ensures RuleMatches(npc, xs + ys) <==> RuleMatches(npc, xs) && RuleMatches(npc, ys)
  {
    hide RuleMatches, ItemHolds, ItemOk;
    MatchesByItem(npc, xs);
    MatchesByItem(npc, ys);
    assert forall i :: i in xs + ys <==> i in xs || i in ys;
    MatchesByItem(npc, xs + ys);
  }

  lemma MatchesOne(npc: Npc, item: Item)
    requires ItemOk(item)
    ensures AllOk([item]) && (RuleMatches(npc, [item]) <==> ItemHolds(npc, item))
  {
    hide RuleMatches, ItemHolds, ItemOk;
    MatchesByItem(npc, [item]);
    assert item in [item];
  }

  lemma MatchesNone(npc: Npc)
    ensures AllOk([]) && RuleMatches(npc, [])
  {
  }

  /** A group none of whose criteria runs out of the packet. */
  lemma {:induction false} Choices(npc: Npc, cs: seq<Call>)
    requires forall c :: c in cs ==> CallOk(c) && !c.IpVer? && CallVerdict(npc, c) != Short
    ensures |ChoiceVerdicts(npc, cs)| == |cs|
    ensures AnyOf(ChoiceVerdicts(npc, cs)) == Decide(exists c :: c in cs && CallOk(c) && CallVerdict(npc, c) == Yes)
  {
    hide CallVerdict;
    if cs != [] {
      assert cs[0] in cs && forall c :: c in cs <==> c == cs[0] || c in cs[1..];
      Choices(npc, cs[1..]);
      var vs := ChoiceVerdicts(npc, cs);
      assert vs[0] == CallVerdict(npc, cs[0]) && vs[1..] == ChoiceVerdicts(npc, cs[1..]);
    }
  }

  lemma GroupHolds(npc: Npc, invert: bool, cs: seq<Call>)
    requires forall c :: c in cs ==> CallOk(c) && !c.IpVer? && CallVerdict(npc, c) != Short
    ensures ItemHolds(npc, Alternatives(invert, cs)) <==>
      VersionsHold(npc, cs) &&
      (cs == [] || (invert != exists c :: c in cs && CallOk(c) && CallVerdict(npc, c) == Yes))
  {
    hide CallVerdict, CallVersionHolds;
    Choices(npc, cs);
  }

  // ----- the version, the protocols and the flags --------------------------------------------

  lemma VersionPart(npc: Npc, f: Filter)
    ensures AllOk(VersionItems(f))
    ensures RuleMatches(npc, VersionItems(f)) <==> IsVersion(npc.ipver, f.family)
  {
    if f.family == Unspec {
      MatchesNone(npc);
    } else {
      MatchesOne(npc, Single(IpVer(f.family)));
      assert IpVer(f.family) in Calls(Single(IpVer(f.family)));
      assert VersionsHold(npc, Calls(Single(IpVer(f.family)))) <==> CallVersionHolds(npc, IpVer(f.family));
    }
  }

  lemma SingleHolds(npc: Npc, c: Call)
    requires CallOk(c)
    ensures ItemHolds(npc, Single(c)) <==> CallVersionHolds(npc, c) && CallVerdict(npc, c).Yes?
  {
    hide CallVerdict, CallVersionHolds;
    assert c in Calls(Single(c));
  }

  /** A byte behind the headers. */
  lemma ByteOf(npc: Npc, h: Header, off: u16)
    requires IsPacket(npc, h)
    ensures ByteAt(npc, npc.l4off, off) == if off < |h.payload| then Some(h.payload[off]) else None
  {
  }

  lemma FlagsVerdicts(npc: Npc, h: Header, flags: u8, fmask: u8)
    requires IsPacket(npc, h)
    ensures FlagsVerdict(npc, flags, fmask).Yes? <==> FlagsMatch(h.payload, flags, fmask)
  {
    hide And, IsPacket, ByteAt;
    ByteOf(npc, h, 13);
  }

  lemma IcmpVerdicts(npc: Npc, h: Header, itype: Option<u32>, icode: Option<u32>)
    requires IsPacket(npc, h) && CallOk(Icmp(itype, icode))
    ensures CallVerdict(npc, Icmp(itype, icode)).Yes? <==> IcmpMatches(h.payload, itype, icode)
  {
    hide IsPacket, ByteAt;
    ByteOf(npc, h, 0);
    ByteOf(npc, h, 1);
    var s := if itype.Some? then [ByteVerdict(npc, 0, itype.value)] else [];
    var t := if icode.Some? then [ByteVerdict(npc, 1, icode.value)] else [];
    BothYes(s, t);
  }

  lemma BothYes(s: seq<Verdict>, t: seq<Verdict>)
    requires |s| <= 1 && |t| <= 1
    ensures AllOf(s + t).Yes? <==> (s == [] || s[0].Yes?) && (t == [] || t[0].Yes?)
  {
    if s == [] {
      assert s + t == t;
      assert t != [] ==> t[1..] == [];
    } else {
      assert (s + t)[0] == s[0] && (s + t)[1..] == t;
      assert t != [] ==> t[1..] == [];
    }
  }

  lemma OptionPart(npc: Npc, h: Header, p: Protocol)
    requires IsPacket(npc, h)
    requires p.options.IcmpOptions? ==> p.options.itype.Some? || p.options.icode.Some?
    ensures AllOk(OptionItems(p))
    ensures h.proto == p.proto ==>
      (RuleMatches(npc, OptionItems(p)) <==> (Asks(p) ==> npc.ipver != 0) && ProtocolMatches(p, h))
  {
    hide RuleMatches, FlagsMatch, IcmpMatches, CallVerdict, FlagsVerdict;
    MatchesNone(npc);
    if Asks(p) {
      var item := OptionItems(p)[0];
      assert OptionItems(p) == [item];
      MatchesOne(npc, item);
      SingleHolds(npc, item.call);
      if p.options.FlagOptions? {
        FlagsCall(npc, h, p.options.flags, p.options.fmask);
      } else {
        IcmpVerdicts(npc, h, p.options.itype, p.options.icode);
      }
    }
  }

  lemma FlagsCall(npc: Npc, h: Header, flags: u8, fmask: u8)
    requires IsPacket(npc, h)
    ensures CallVerdict(npc, TcpFlags(flags, fmask)).Yes? <==> (h.proto == 6 ==> FlagsMatch(h.payload, flags, fmask))
  {
    hide FlagsMatch, FlagsVerdict;
    FlagsVerdicts(npc, h, flags, fmask);
  }

  lemma ProtoCall(npc: Npc, proto: u32)
    ensures CallVersionHolds(npc, Proto(proto))
    ensures CallVerdict(npc, Proto(proto)) == Decide(npc.proto == proto)
  {
  }

  /** Several protocols, none of them with options. */
  lemma ProtocolGroup(npc: Npc, numbers: seq<u32>)
    requires numbers != []
    ensures ItemOk(Alternatives(false, Protocols(numbers)))
    ensures ItemHolds(npc, Alternatives(false, Protocols(numbers))) <==> npc.proto in numbers
  {
    var cs := Protocols(numbers);
    assert forall k :: 0 <= k < |numbers| ==> cs[k] == Proto(numbers[k]);
    GroupHolds(npc, false, cs);
    assert VersionsHold(npc, cs);
    if npc.proto in numbers {
      var k :| 0 <= k < |numbers| && numbers[k] == npc.proto;
      assert cs[k] in cs && CallVerdict(npc, cs[k]) == Yes;
    } else {
      forall c | c in cs ensures CallVerdict(npc, c) == No {
        var k :| 0 <= k < |cs| && cs[k] == c;
        assert numbers[k] in numbers;
      }
    }
  }

  lemma ProtoPartMeans(npc: Npc, h: Header, ps: seq<Protocol>)
    requires IsPacket(npc, h) && ProtoItems(ps).Some?
    requires forall p :: p in ps ==> p.options.IcmpOptions? ==> p.options.itype.Some? || p.options.icode.Some?
    ensures AllOk(ProtoItems(ps).value)
    ensures RuleMatches(npc, ProtoItems(ps).value) <==>
      ((exists p :: p in ps && Asks(p)) ==> npc.ipver != 0) &&
      (ps == [] || exists p :: p in ps && ProtocolMatches(p, h))
  {
    hide RuleMatches, ProtocolMatches, ItemHolds;
    if ps == [] {
      MatchesNone(npc);
    } else if |ps| == 1 {
      OneProtocol(npc, h, ps[0]);
      assert ps[0] in ps && forall p :: p in ps ==> p == ps[0];
    } else {
      var item := Alternatives(false, Protocols(Numbers(ps)));
      ProtocolGroup(npc, Numbers(ps));
      MatchesOne(npc, item);
      NumberOf(npc, h, ps);
    }
  }

  lemma OneProtocol(npc: Npc, h: Header, p: Protocol)
    requires IsPacket(npc, h)
    requires p.options.IcmpOptions? ==> p.options.itype.Some? || p.options.icode.Some?
    ensures AllOk([Single(Proto(p.proto))] + OptionItems(p))
    ensures RuleMatches(npc, [Single(Proto(p.proto))] + OptionItems(p)) <==>
      (Asks(p) ==> npc.ipver != 0) && ProtocolMatches(p, h)
  {
    hide RuleMatches, ItemHolds, OptionItems, CallVerdict, FlagsMatch, IcmpMatches;
    OptionPart(npc, h, p);
    MatchesOne(npc, Single(Proto(p.proto)));
    SingleHolds(npc, Proto(p.proto));
    ProtoCall(npc, p.proto);
    MatchesConcat(npc, [Single(Proto(p.proto))], OptionItems(p));
  }

  lemma NumberOf(npc: Npc, h: Header, ps: seq<Protocol>)
    requires IsPacket(npc, h) && forall p :: p in ps ==> p.options.NoOptions?
    ensures npc.proto in Numbers(ps) <==> exists p :: p in ps && ProtocolMatches(p, h)
    ensures !exists p :: p in ps && Asks(p)
  {
    if npc.proto in Numbers(ps) {
      var k :| 0 <= k < |ps| && Numbers(ps)[k] == npc.proto;
      assert ps[k] in ps && ProtocolMatches(ps[k], h);
    } else {
      forall p | p in ps ensures p.proto != h.proto {
        var k :| 0 <= k < |ps| && ps[k] == p;
        assert Numbers(ps)[k] == p.proto;
      }
    }
  }

  /** Where the protocols have been accepted, the last mention of TCP is as good as any. */
  lemma {:induction false} TcpMentioned(ps: seq<Protocol>)
    requires |ps| <= 1 || forall p :: p in ps ==> p.options.NoOptions?
    ensures TcpWithoutFlags(ps) <==> Protocol(6, NoOptions) in ps
    decreases |ps|
  {
    if ps != [] {
      var init, last := ps[..|ps| - 1], ps[|ps| - 1];
      assert last in ps && forall p :: p in ps <==> p in init || p == last;
      TcpMentioned(init);
    }
  }

  lemma StatePart(npc: Npc, h: Header, f: Filter)
    requires IsPacket(npc, h) && ProtoItems(f.protos).Some?
    ensures AllOk(StateItems(f))
    ensures RuleMatches(npc, StateItems(f)) <==>
      (SynOnly(f) ==> npc.ipver != 0 && (h.proto == 6 ==> FlagsMatch(h.payload, 0x02, 0x17)))
  {
    hide RuleMatches, FlagsMatch, CallVerdict, TcpWithoutFlags;
    TcpMentioned(f.protos);
    MatchesNone(npc);
    var c := TcpFlags(STATE_FLAGS, STATE_MASK);
    MatchesOne(npc, Single(c));
    SingleHolds(npc, c);
    FlagsCall(npc, h, STATE_FLAGS, STATE_MASK);
  }

  // ----- ports -------------------------------------------------------------------------------

  lemma ImpliedPartMeans(npc: Npc, f: Filter)
    ensures AllOk(ImpliedItems(f))
    ensures RuleMatches(npc, ImpliedItems(f)) <==>
      ((f.sports != [] || f.dports != []) && f.protos == [] ==> npc.proto == 6 || npc.proto == 17)
  {
    hide RuleMatches, ItemHolds, Protocols;
    MatchesNone(npc);
    ProtocolGroup(npc, [IPPROTO_TCP, IPPROTO_UDP]);
    MatchesOne(npc, Alternatives(false, Protocols([IPPROTO_TCP, IPPROTO_UDP])));
  }

  lemma PortOf(npc: Npc, h: Header, at: u16)
    requires IsPacket(npc, h)
    ensures at + 2 <= |h.payload| ==> HalfAt(npc, npc.l4off, at) == Some(BigEndian(h.payload[at..at + 2]))
    ensures at + 2 > |h.payload| ==> HalfAt(npc, npc.l4off, at) == None
  {
    hide BigEndian;
    if at + 2 <= |h.payload| {
      assert h.payload[at..at + 2] == npc.pkt[npc.l4off + at..npc.l4off + at + 2];
      BpfOpcodes.TwoBytes(h.payload[at..at + 2]);
    }
  }

  lemma PortCall(npc: Npc, h: Header, src: bool, range: (u16, u16))
    requires IsPacket(npc, h)
    ensures var at := if src then 0 else 2;
      CallVerdict(npc, Ports(src, range.0, range.1))
      == if at + 2 <= |h.payload| then Decide(range.0 <= BigEndian(h.payload[at..at + 2]) <= range.1) else Short
  {
    hide BigEndian, IsPacket, HalfAt;
    PortOf(npc, h, if src then 0 else 2);
  }

  predicate InRange(payload: seq<u8>, at: nat, r: (u16, u16))
    requires at + 2 <= |payload|
  {
    r.0 <= BigEndian(payload[at..at + 2]) <= r.1
  }

  /** The criteria of a list of ranges, one by one. */
  lemma PortChoices(npc: Npc, h: Header, src: bool, ranges: seq<(u16, u16)>, at: nat)
    requires IsPacket(npc, h) && at == (if src then 0 else 2) && at + 2 <= |h.payload|
    ensures forall c :: c in PortCalls(src, ranges) ==> CallOk(c) && c.Ports? && CallVerdict(npc, c) != Short
    ensures (exists c :: c in PortCalls(src, ranges) && CallOk(c) && CallVerdict(npc, c) == Yes) <==>
      (exists r :: r in ranges && InRange(h.payload, at, r))
  {
    hide CallVerdict, IsPacket, BigEndian;
    var cs := PortCalls(src, ranges);
    forall k | 0 <= k < |ranges|
      ensures cs[k] == Ports(src, ranges[k].0, ranges[k].1)
      ensures CallVerdict(npc, cs[k]) == Decide(InRange(h.payload, at, ranges[k]))
    {
      PortCall(npc, h, src, ranges[k]);
    }
    hide InRange;
    if c :| c in cs && CallOk(c) && CallVerdict(npc, c) == Yes {
      var k :| 0 <= k < |cs| && cs[k] == c;
      assert ranges[k] in ranges && InRange(h.payload, at, ranges[k]);
    }
    if r :| r in ranges && InRange(h.payload, at, r) {
      var k :| 0 <= k < |ranges| && ranges[k] == r;
      assert cs[k] in cs && CallVerdict(npc, cs[k]) == Yes;
    }
  }

  lemma ShortPorts(npc: Npc, h: Header, src: bool, ranges: seq<(u16, u16)>)
    requires IsPacket(npc, h) && ranges != [] && (if src then 0 else 2) + 2 > |h.payload|
    ensures !ItemHolds(npc, Alternatives(false, PortCalls(src, ranges)))
  {
    hide IsPacket, BigEndian, CallVerdict;
    var cs := PortCalls(src, ranges);
    PortCall(npc, h, src, ranges[0]);
    assert cs[0] == Ports(src, ranges[0].0, ranges[0].1);
    assert ChoiceVerdicts(npc, cs)[0] == Short;
  }

  lemma PortPartMeans(npc: Npc, h: Header, src: bool, ranges: seq<(u16, u16)>)
    requires IsPacket(npc, h)
    ensures ItemOk(Alternatives(false, PortCalls(src, ranges)))
    ensures RuleMatches(npc, [Alternatives(false, PortCalls(src, ranges))]) <==>
      (ranges != [] ==> npc.ipver != 0) && PortMatches(ranges, h.payload, if src then 0 else 2)
  {
    hide RuleMatches, CallVerdict, IsPacket, BigEndian, ItemHolds;
    var cs := PortCalls(src, ranges);
    var at: nat := if src then 0 else 2;
    MatchesOne(npc, Alternatives(false, cs));
    if ranges == [] {
      GroupHolds(npc, false, cs);
    } else if at + 2 > |h.payload| {
      ShortPorts(npc, h, src, ranges);
    } else {
      PortChoices(npc, h, src, ranges, at);
      GroupHolds(npc, false, cs);
      assert cs[0] in cs;
      assert VersionsHold(npc, cs) <==> npc.ipver != 0;
      assert PortMatches(ranges, h.payload, at) <==> exists r :: r in ranges && InRange(h.payload, at, r);
    }
  }

  // ----- address lists -----------------------------------------------------------------------

  /** The members of a list that are tested; networks of length 0 and interface networks of another family are not. */
  predicate Tested(family: Af, a: Address) {
    a.Tab? || ((family == Unspec || family == a.family) && a.mask != 0)
  }

  predicate Everything(family: Af, a: Address) {
    a.Net? && (family == Unspec || family == a.family) && a.mask == 0
  }

  function CallOf(src: bool, a: Address): Call {
    match a
    case Tab(tid) => Table(src, tid)
    case Net(af, addr, mask, _) => Cidr(src, af, addr, mask)
  }

  /** The criteria of a list are those of its tested members. */
  ghost predicate ListCalls(family: Af, src: bool, list: seq<Address>, cs: seq<Call>) {
    && (forall c :: c in cs ==> exists a :: a in list && Tested(family, a) && c == CallOf(src, a))
    && (forall a :: a in list && Tested(family, a) ==> CallOf(src, a) in cs)
  }

  predicate Familiar(family: Af, a: Address) {
    a.Net? && (Tested(family, a) || Everything(family, a)) ==> a.family != Unspec
  }

  lemma CallOfMember(family: Af, src: bool, a: Address)
    requires AddressCall(family, src, a).Some?
    ensures AddressCall(family, src, a).value == if Tested(family, a) then [CallOf(src, a)] else []
    ensures Familiar(family, a)
  {
  }

  lemma {:induction false} CallsOfList(family: Af, src: bool, list: seq<Address>)
    requires AddressCalls(family, src, list).Some?
    ensures ListCalls(family, src, list, AddressCalls(family, src, list).value)
    ensures forall a :: a in list ==> Familiar(family, a)
  {
    hide AddressCall, Tested, CallOf, Familiar;
    if list != [] {
      CallOfMember(family, src, list[0]);
      CallsOfList(family, src, list[1..]);
      var one, rest := AddressCall(family, src, list[0]).value, AddressCalls(family, src, list[1..]).value;
      var cs := one + rest;
      assert AddressCalls(family, src, list).value == cs;
      assert forall a :: a in list <==> a == list[0] || a in list[1..];
      assert forall c :: c in cs <==> c in one || c in rest;
      forall c | c in cs ensures exists a :: a in list && Tested(family, a) && c == CallOf(src, a) {
        if c in one {
          assert list[0] in list && Tested(family, list[0]) && c == CallOf(src, list[0]);
        } else {
          var a :| a in list[1..] && Tested(family, a) && c == CallOf(src, a);
          assert a in list;
        }
      }
    }
  }

  predicate Holds(h: Header, src: bool, lookup: (bool, u32) -> bool, a: Address)
    requires AddressOk(a)
  {
    Contains(a, h.version, if src then h.src else h.dst, src, lookup)
  }

  predicate VersionOfMember(a: Address, version: u32) {
    a.Net? ==> IsVersion(version, a.family)
  }

  /** The criterion of a member asks for its version, and then says whether it holds. */
  predicate Faithful(npc: Npc, h: Header, src: bool, a: Address)
    requires AddressOk(a)
  {
    var c := CallOf(src, a);
    && CallOk(c) && !c.IpVer? && (CallVersionHolds(npc, c) <==> VersionOfMember(a, h.version))
    && (VersionOfMember(a, h.version) ==> CallVerdict(npc, c) == Decide(Holds(h, src, npc.lookup, a)))
  }

  lemma MemberVerdict(npc: Npc, h: Header, src: bool, family: Af, a: Address)
    requires IsPacket(npc, h) && AddressOk(a) && Tested(family, a) && (a.Net? ==> a.family != Unspec)
    ensures Faithful(npc, h, src, a)
  {
    hide SameLeadingBits, BigEndian, Number;
    if a.Net? && IsVersion(h.version, a.family) {
      hide CallVerdict;
      NetVerdict(npc, h, CallOf(src, a));
    }
  }

  predicate ListOk(list: seq<Address>) { forall a :: a in list ==> AddressOk(a) }

  /** The IP version that the tested networks of a list ask for. */
  predicate ListVersion(family: Af, list: seq<Address>, version: u32) {
    forall a :: a in list && Tested(family, a) ==> VersionOfMember(a, version)
  }

  predicate AnyTested(family: Af, list: seq<Address>) { exists a :: a in list && Tested(family, a) }

  predicate AnyHolds(family: Af, list: seq<Address>, h: Header, src: bool, lookup: (bool, u32) -> bool)
    requires ListOk(list)
  {
    exists a :: a in list && Tested(family, a) && AddressOk(a) && Holds(h, src, lookup, a)
  }

  lemma ListVersions(npc: Npc, h: Header, family: Af, src: bool, list: seq<Address>, cs: seq<Call>)
    requires ListOk(list) && ListCalls(family, src, list, cs)
    requires forall a :: a in list && Tested(family, a) ==> AddressOk(a) && Faithful(npc, h, src, a)
    ensures forall c :: c in cs ==> CallOk(c) && !c.IpVer?
    ensures VersionsHold(npc, cs) <==> ListVersion(family, list, h.version)
    ensures cs == [] <==> !AnyTested(family, list)
  {
    hide CallVerdict, AddressOk, Tested, CallOk, Holds, CallVersionHolds, VersionOfMember, CallOf;
    if cs != [] {
      assert cs[0] in cs;
    }
    if VersionsHold(npc, cs) {
      forall a | a in list && Tested(family, a) ensures VersionOfMember(a, h.version) {
        assert CallOf(src, a) in cs && Faithful(npc, h, src, a);
      }
    }
  }

  lemma ListChoice(npc: Npc, h: Header, family: Af, src: bool, list: seq<Address>, cs: seq<Call>)
    requires ListOk(list) && ListCalls(family, src, list, cs) && ListVersion(family, list, h.version)
    requires forall a :: a in list && Tested(family, a) ==> AddressOk(a) && Faithful(npc, h, src, a)
    ensures forall c :: c in cs ==> CallOk(c) && !c.IpVer? && CallVerdict(npc, c) != Short
    ensures (exists c :: c in cs && CallOk(c) && CallVerdict(npc, c) == Yes)
       <==> AnyHolds(family, list, h, src, npc.lookup)
  {
    hide CallVerdict, AddressOk, Tested, CallOk, Holds, CallVersionHolds, VersionOfMember, CallOf;
    if a :| a in list && Tested(family, a) && AddressOk(a) && Holds(h, src, npc.lookup, a) {
      assert Faithful(npc, h, src, a) && CallOf(src, a) in cs;
    }
    if c :| c in cs && CallOk(c) && CallVerdict(npc, c) == Yes {
      var a :| a in list && Tested(family, a) && c == CallOf(src, a);
      assert Faithful(npc, h, src, a) && Holds(h, src, npc.lookup, a);
    }
  }

  lemma AddressPartMeans(npc: Npc, h: Header, family: Af, src: bool, invert: bool, list: seq<Address>)
    requires IsPacket(npc, h) && ListOk(list) && AddressCalls(family, src, list).Some?
    ensures var item := Alternatives(invert, AddressCalls(family, src, list).value);
      ItemOk(item) &&
      (RuleMatches(npc, [item]) <==>
         ListVersion(family, list, h.version) &&
         (AnyTested(family, list) ==> (invert != AnyHolds(family, list, h, src, npc.lookup))))
  {
    hide RuleMatches, CallVerdict, AddressCalls, AddressOk, Tested, CallOk, Holds, CallOf, IsPacket, VersionsHold;
    hide AnyHolds, ListVersion, Faithful, ChoiceVerdicts, AnyTested;
    var cs := AddressCalls(family, src, list).value;
    CallsOfList(family, src, list);
    assert ListCalls(family, src, list, cs);
    forall a | a in list && Tested(family, a) ensures AddressOk(a) && Faithful(npc, h, src, a) {
      assert Familiar(family, a);
      MemberVerdict(npc, h, src, family, a);
    }
    ListVersions(npc, h, family, src, list, cs);
    MatchesOne(npc, Alternatives(invert, cs));
    if ListVersion(family, list, h.version) {
      ListChoice(npc, h, family, src, list, cs);
      GroupHolds(npc, invert, cs);
    }
  }

  // ----- dropped networks --------------------------------------------------------------------

  predicate AnyEverything(family: Af, list: seq<Address>) { exists a :: a in list && Everything(family, a) }

  /** The packet is of the version that all networks of the list ask for, dropped ones of the right family included. */
  predicate AllVersions(family: Af, list: seq<Address>, version: u32) {
    forall a :: a in list && (Tested(family, a) || Everything(family, a)) ==> VersionOfMember(a, version)
  }

  /** What is left of the list decides as the whole list: see `ListExactly`. */
  predicate DropsRight(family: Af, list: seq<Address>, invert: bool, anyHolds: bool) {
    if AnyEverything(family, list) then (if AnyTested(family, list) then anyHolds else !invert)
    else AnyTested(family, list) || list == [] || invert
  }

  lemma DroppedMember(h: Header, family: Af, src: bool, lookup: (bool, u32) -> bool, a: Address)
    requires AddressOk(a) && Familiar(family, a) && IsVersion(h.version, family)
    requires h.version == 4 ==> |h.src| == 4 && |h.dst| == 4
    requires h.version == 6 ==> |h.src| == 16 && |h.dst| == 16
    ensures Everything(family, a) && VersionOfMember(a, h.version) ==> Holds(h, src, lookup, a)
    ensures !Everything(family, a) && !Tested(family, a) ==> !Holds(h, src, lookup, a)
  {
    hide BigEndian, Number, Pow2;
    if Everything(family, a) && VersionOfMember(a, h.version) {
      var address := if src then h.src else h.dst;
      BigEndianBound(address);
      NumberBound(a.addr);
      WordBound(a.addr[0]);
      if a.family == Inet {
        NoBits(BigEndian(address), a.addr[0], 32);
      } else {
        NoBits(BigEndian(address), Number(a.addr), 128);
      }
    }
  }

  lemma WordBound(w: u32)
    ensures w < Pow2(32)
  {
    Pow2At32();
  }

  lemma SomeHolds(h: Header, family: Af, src: bool, lookup: (bool, u32) -> bool, list: seq<Address>)
    requires ListOk(list)
    requires forall a :: a in list && AddressOk(a) ==>
      && (Everything(family, a) ==> Holds(h, src, lookup, a))
      && (!Everything(family, a) && !Tested(family, a) ==> !Holds(h, src, lookup, a))
    ensures (exists a :: a in list && AddressOk(a) && Holds(h, src, lookup, a)) <==>
      AnyEverything(family, list) || AnyHolds(family, list, h, src, lookup)
  {
    hide AddressOk, Holds, Tested, Everything;
    if a :| a in list && AddressOk(a) && Holds(h, src, lookup, a) {
      assert Everything(family, a) || Tested(family, a);
    }
    if a :| a in list && Everything(family, a) {
      assert AddressOk(a) && Holds(h, src, lookup, a);
    }
  }

  lemma ListByMember(h: Header, src: bool, lookup: (bool, u32) -> bool, invert: bool, list: seq<Address>)
    requires ListOk(list)
    ensures ListMatches(list, invert, h.version, if src then h.src else h.dst, src, lookup) <==>
      list == [] || (invert != exists a :: a in list && AddressOk(a) && Holds(h, src, lookup, a))
  {
    hide Contains;
    var address := if src then h.src else h.dst;
    if a :| a in list && Contains(a, h.version, address, src, lookup) {
      assert AddressOk(a) && Holds(h, src, lookup, a);
    }
    if a :| a in list && AddressOk(a) && Holds(h, src, lookup, a) {
      assert Contains(a, h.version, address, src, lookup);
    }
  }

  /**
    * On a packet of the versions asked for, the tested members decide as the whole list exactly when a dropped
    * network of length 0 stands alone and is not negated, or a tested member holds as well; and, without
    * such a network, when something is tested, or the list is empty or negated.
    */
  lemma ListExactly(h: Header, family: Af, src: bool, lookup: (bool, u32) -> bool, invert: bool, list: seq<Address>)
    requires ListOk(list) && (forall a :: a in list ==> Familiar(family, a)) && IsVersion(h.version, family)
    requires AllVersions(family, list, h.version)
    requires h.version == 4 ==> |h.src| == 4 && |h.dst| == 4
    requires h.version == 6 ==> |h.src| == 16 && |h.dst| == 16
    ensures var left := AnyTested(family, list) ==> (invert != AnyHolds(family, list, h, src, lookup));
      var whole := ListMatches(list, invert, h.version, if src then h.src else h.dst, src, lookup);
      (left <==> whole) <==> DropsRight(family, list, invert, AnyHolds(family, list, h, src, lookup))
  {
    hide AddressOk, Holds, Tested, Everything, IsVersion, Familiar, VersionOfMember, ListMatches;
    forall a | a in list && AddressOk(a)
      ensures Everything(family, a) ==> Holds(h, src, lookup, a)
      ensures !Everything(family, a) && !Tested(family, a) ==> !Holds(h, src, lookup, a)
    {
      assert Familiar(family, a);
      DroppedMember(h, family, src, lookup, a);
    }
    SomeHolds(h, family, src, lookup, list);
    ListByMember(h, src, lookup, invert, list);
    NothingTested(family, list, h, src, lookup);
  }

  lemma NothingTested(family: Af, list: seq<Address>, h: Header, src: bool, lookup: (bool, u32) -> bool)
    requires ListOk(list)
    ensures AnyHolds(family, list, h, src, lookup) ==> AnyTested(family, list)
    ensures AnyEverything(family, list) || AnyTested(family, list) ==> list != []
  {
  }

  /** The IP version of a dropped network is known: it is that of the filter or of a tested network. */
  predicate VersionKnown(f: Filter, af: Af) {
    f.family == af || exists a :: a in f.from + f.to && a.Net? && Tested(f.family, a) && a.family == af
  }

  /** Networks of length 0 stand in lists of their own, not negated; an interface list does not run empty. */
  predicate ListFine(f: Filter, list: seq<Address>, invert: bool) {
    if AnyEverything(f.family, list) then
      !invert && !AnyTested(f.family, list) &&
      forall a :: a in list && Everything(f.family, a) ==> VersionKnown(f, a.family)
    else AnyTested(f.family, list) || list == [] || invert
  }

  predicate DropsFine(f: Filter) {
    ListFine(f, f.from, f.notFrom) && ListFine(f, f.to, f.notTo)
  }

  // ----- the whole filter --------------------------------------------------------------------

  predicate LeftMatches(f: Filter, h: Header, src: bool, lookup: (bool, u32) -> bool)
    requires ListOk(f.from) && ListOk(f.to)
  {
    var list, invert := if src then f.from else f.to, if src then f.notFrom else f.notTo;
    ListVersion(f.family, list, h.version) &&
    (AnyTested(f.family, list) ==> (invert != AnyHolds(f.family, list, h, src, lookup)))
  }

  predicate ProtocolsMatch(f: Filter, h: Header) {
    ((exists p :: p in f.protos && Asks(p)) ==> h.version != 0) &&
    (f.protos == [] || exists p :: p in f.protos && ProtocolMatches(p, h))
  }

  predicate StateMatches(f: Filter, h: Header) {
    SynOnly(f) ==> h.version != 0 && (h.proto == 6 ==> FlagsMatch(h.payload, 0x02, 0x17))
  }

  predicate PortsMatch(f: Filter, h: Header) {
    && ((f.sports != [] || f.dports != []) && f.protos == [] ==> h.proto == 6 || h.proto == 17)
    && (f.sports != [] ==> h.version != 0) && PortMatches(f.sports, h.payload, 0)
    && (f.dports != [] ==> h.version != 0) && PortMatches(f.dports, h.payload, 2)
  }

  /** What the parts of the rule ask for. */
  predicate PartsMatch(f: Filter, h: Header, lookup: (bool, u32) -> bool)
    requires ListOk(f.from) && ListOk(f.to)
  {
    && IsVersion(h.version, f.family) && ProtocolsMatch(f, h) && StateMatches(f, h)
    && LeftMatches(f, h, true, lookup) && LeftMatches(f, h, false, lookup) && PortsMatch(f, h)
  }

  lemma BackMeans(f: Filter, npc: Npc, h: Header, from: seq<Call>, to: seq<Call>)
    requires IsPacket(npc, h) && ListOk(f.from) && ListOk(f.to)
    requires AddressCalls(f.family, true, f.from) == Some(from) && AddressCalls(f.family, false, f.to) == Some(to)
    ensures AllOk(Back(f, from, to))
    ensures RuleMatches(npc, Back(f, from, to)) <==>
      LeftMatches(f, h, true, npc.lookup) && LeftMatches(f, h, false, npc.lookup) && PortsMatch(f, h)
  {
    hide RuleMatches, AddressCalls, AnyTested, AnyHolds, ListVersion, PortMatches, PortCalls, AllOk, ListOk;
    var a, b := Alternatives(f.notFrom, from), Alternatives(f.notTo, to);
    var c, d := Alternatives(false, PortCalls(true, f.sports)), Alternatives(false, PortCalls(false, f.dports));
    AddressPartMeans(npc, h, f.family, true, f.notFrom, f.from);
    AddressPartMeans(npc, h, f.family, false, f.notTo, f.to);
    PortPartMeans(npc, h, true, f.sports);
    PortPartMeans(npc, h, false, f.dports);
    ImpliedPartMeans(npc, f);
    MatchesFour(npc, a, b, ImpliedItems(f), c, d);
  }

  lemma MatchesFour(npc: Npc, a: Item, b: Item, im: seq<Item>, c: Item, d: Item)
    requires ItemOk(a) && ItemOk(b) && AllOk(im) && ItemOk(c) && ItemOk(d)
    ensures AllOk([a]) && AllOk([b]) && AllOk([c]) && AllOk([d]) && AllOk([a, b] + im + [c, d])
    ensures RuleMatches(npc, [a, b] + im + [c, d]) <==>
      RuleMatches(npc, [a]) && RuleMatches(npc, [b]) && RuleMatches(npc, im) && RuleMatches(npc, [c])
      && RuleMatches(npc, [d])
  {
    hide RuleMatches, ItemOk;
    assert [a, b] == [a] + [b] && [c, d] == [c] + [d];
    MatchesConcat(npc, [a], [b]);
    MatchesConcat(npc, [c], [d]);
    MatchesConcat(npc, [a, b], im);
    MatchesConcat(npc, [a, b] + im, [c, d]);
  }

  lemma ListsOk(f: Filter)
    requires FilterOk(f)
    ensures ListOk(f.from) && ListOk(f.to)
  {
    assert forall a :: a in f.from || a in f.to ==> a in f.from + f.to;
  }

  lemma RuleMeansParts(f: Filter, npc: Npc, h: Header)
    requires FilterOk(f) && RuleOf(f).Some? && AnyCriteria(f) && IsPacket(npc, h)
    ensures ListOk(f.from) && ListOk(f.to)
    ensures AllOk(RuleOf(f).value) && (RuleMatches(npc, RuleOf(f).value) <==> PartsMatch(f, h, npc.lookup))
  {
    hide RuleMatches, AddressCalls, LeftMatches, PortsMatch, AllOk, ProtoItems, IsVersion, StateItems, Back, ListOk;
    hide VersionItems, FlagsMatch, ProtocolMatches, SynOnly;
    ListsOk(f);
    var from, to := AddressCalls(f.family, true, f.from).value, AddressCalls(f.family, false, f.to).value;
    var vs, ps, ss := VersionItems(f), ProtoItems(f.protos).value, StateItems(f);
    VersionPart(npc, f);
    ProtoPartMeans(npc, h, f.protos);
    StatePart(npc, h, f);
    BackMeans(f, npc, h, from, to);
    MatchesConcat(npc, vs, ps);
    MatchesConcat(npc, vs + ps, ss);
    MatchesConcat(npc, vs + ps + ss, Back(f, from, to));
  }

  predicate NetVersions(f: Filter, version: u32) {
    f.family == Unspec ==> forall a :: a in f.from + f.to && a.Net? ==> IsVersion(version, a.family)
  }

  /** The tested networks ask for the version that all networks of the filter ask for. */
  lemma VersionsAgree(f: Filter, version: u32)
    requires DropsFine(f) && IsVersion(version, f.family)
    ensures ListVersion(f.family, f.from, version) && ListVersion(f.family, f.to, version) <==> NetVersions(f, version)
    ensures NetVersions(f, version) ==>
      AllVersions(f.family, f.from, version) && AllVersions(f.family, f.to, version)
  {
    assert forall a :: a in f.from || a in f.to <==> a in f.from + f.to;
    hide IsVersion;
    if ListVersion(f.family, f.from, version) && ListVersion(f.family, f.to, version) {
      forall a | a in f.from + f.to && Everything(f.family, a) ensures IsVersion(version, a.family) {
        assert VersionKnown(f, a.family);
      }
    }
  }

  lemma ListAgrees(f: Filter, npc: Npc, h: Header, src: bool)
    requires FilterOk(f) && IsPacket(npc, h) && ListOk(f.from) && ListOk(f.to) && DropsFine(f)
    requires IsVersion(h.version, f.family) && NetVersions(f, h.version)
    requires forall a :: a in (if src then f.from else f.to) ==> Familiar(f.family, a)
    ensures var list, invert := if src then f.from else f.to, if src then f.notFrom else f.notTo;
      LeftMatches(f, h, src, npc.lookup) <==>
      ListMatches(list, invert, h.version, if src then h.src else h.dst, src, npc.lookup)
  {
    hide ListMatches, AnyHolds, AnyTested, AnyEverything, AllVersions, ListVersion, IsVersion, NetVersions, Familiar;
    var list, invert := if src then f.from else f.to, if src then f.notFrom else f.notTo;
    VersionsAgree(f, h.version);
    ListExactly(h, f.family, src, npc.lookup, invert, list);
  }

  lemma PartsMeanFilter(f: Filter, npc: Npc, h: Header)
    requires FilterOk(f) && RuleOf(f).Some? && AnyCriteria(f) && IsPacket(npc, h) && DropsFine(f)
    ensures ListOk(f.from) && ListOk(f.to)
    ensures PartsMatch(f, h, npc.lookup) <==> FilterMatches(f, h, npc.lookup)
  {
    hide LeftMatches, ListMatches, DropsFine, AddressCalls, ListOk, IsVersion, SynOnly, PortMatches, FlagsMatch;
    hide NetVersions, ProtoItems, FilterOk;
    ListsOk(f);
    CallsOfList(f.family, true, f.from);
    CallsOfList(f.family, false, f.to);
    if IsVersion(h.version, f.family) {
      VersionsAgree(f, h.version);
      if NetVersions(f, h.version) {
        ListAgrees(f, npc, h, true);
        ListAgrees(f, npc, h, false);
      }
      ByVersion(f, npc, h);
    }
  }

  lemma ByVersion(f: Filter, npc: Npc, h: Header)
    requires ListOk(f.from) && ListOk(f.to) && IsVersion(h.version, f.family)
    ensures PartsMatch(f, h, npc.lookup) ==>
      ListVersion(f.family, f.from, h.version) && ListVersion(f.family, f.to, h.version)
    ensures VersionMatches(f, h.version) ==> NetVersions(f, h.version)
  {
  }

  /** The rule of a filter matches exactly the packets the filter is meant for. */
  lemma RuleMeansFilter(f: Filter, npc: Npc, h: Header)
    requires FilterOk(f) && RuleOf(f).Some? && IsPacket(npc, h) && DropsFine(f)
    ensures ListOk(f.from) && ListOk(f.to) && AllOk(RuleOf(f).value)
    ensures RuleMatches(npc, RuleOf(f).value) <==> FilterMatches(f, h, npc.lookup)
  {
    hide PartsMatch;
    ListsOk(f);
    if AnyCriteria(f) {
      hide RuleMatches, FilterMatches, RuleOf, DropsFine;
      RuleMeansParts(f, npc, h);
      PartsMeanFilter(f, npc, h);
    }
  }

  /** A filter on nothing but a family and source addresses. */
  function SourceFilter(family: Af, list: seq<Address>, invert: bool): Filter {
    Filter(family, [], false, list, invert, [], false, [], [])
  }

  /** The rule of such a filter is right on a packet of the family exactly when what is left of the list is. */
  lemma SourceListExactly(npc: Npc, h: Header, family: Af, list: seq<Address>, invert: bool)
    requires IsPacket(npc, h) && family != Unspec && IsVersion(h.version, family) && ListOk(list)
    requires AddressCalls(family, true, list).Some?
    ensures var f := SourceFilter(family, list, invert);
      && FilterOk(f) && RuleOf(f).Some? && AllOk(RuleOf(f).value)
      && (RuleMatches(npc, RuleOf(f).value) <==>
            AnyTested(family, list) ==> (invert != AnyHolds(family, list, h, true, npc.lookup)))
      && ((RuleMatches(npc, RuleOf(f).value) <==> FilterMatches(f, h, npc.lookup)) <==>
            DropsRight(family, list, invert, AnyHolds(family, list, h, true, npc.lookup)))
  {
    hide AnyHolds, ListMatches, AnyTested, DropsRight, RuleMatches;
    var f := SourceFilter(family, list, invert);
    assert f.from + f.to == list;
    assert AddressCalls(family, false, []) == Some([]);
    CallsOfList(family, true, list);
    ListExactly(h, family, true, npc.lookup, invert, list);
    assert !AnyTested(family, []) by { EmptyList(family); }
    RuleMeansParts(f, npc, h);
    SourceOnly(h, f, npc.lookup);
  }

  lemma EmptyList(family: Af)
    ensures !AnyTested(family, [])
  {
  }

  lemma SourceOnly(h: Header, f: Filter, lookup: (bool, u32) -> bool)
    requires f == SourceFilter(f.family, f.from, f.notFrom) && f.family != Unspec && IsVersion(h.version, f.family)
    requires FilterOk(f) && ListOk(f.from) && ListOk(f.to)
    ensures PartsMatch(f, h, lookup) <==>
      AnyTested(f.family, f.from) ==> (f.notFrom != AnyHolds(f.family, f.from, h, true, lookup))
    ensures FilterMatches(f, h, lookup) <==> ListMatches(f.from, f.notFrom, h.version, h.src, true, lookup)
  {
    hide AnyHolds, Contains;
    EmptyList(f.family);
    assert forall a :: a in f.from <==> a in f.from + f.to;
  }

  /** A network of length 0 beside another one: 10.0.0.2 is missed although 0.0.0.0/0 is in the list. */
  lemma DroppedNetwork(npc: Npc, h: Header)
    requires IsPacket(npc, h) && h.version == 4 && h.src == [10, 0, 0, 2]
    ensures var list := [Net(Inet, [0, 0, 0, 0], 0, false), Net(Inet, [0x0a000001, 0, 0, 0], 32, false)];
      var f := SourceFilter(Inet, list, false);
      && FilterOk(f) && RuleOf(f).Some? && AllOk(RuleOf(f).value)
      && FilterMatches(f, h, npc.lookup) && !RuleMatches(npc, RuleOf(f).value)
  {
    var all, one := Net(Inet, [0, 0, 0, 0], 0, false), Net(Inet, [0x0a000001, 0, 0, 0], 32, false);
    var list := [all, one];
    assert list[0] in list && list[1] in list;
    TwoNetworks(all, one);
    NotHolds(npc, h, one);
    assert Tested(Inet, one) && Everything(Inet, all) && !Tested(Inet, all);
    hide AddressCalls, Holds, RuleMatches, FilterMatches, FilterOk, RuleOf;
    SourceListExactly(npc, h, Inet, list, false);
  }

  lemma NotHolds(npc: Npc, h: Header, one: Address)
    requires h.src == [10, 0, 0, 2] && one == Net(Inet, [0x0a000001, 0, 0, 0], 32, false)
    ensures AddressOk(one) && !Holds(h, true, npc.lookup, one)
  {
    BpfOpcodes.FourBytes(h.src);
    assert Pow2(0) == 1;
  }

  lemma TwoNetworks(a: Address, b: Address)
    requires a == Net(Inet, [0, 0, 0, 0], 0, false) && b.Net? && b.family == Inet && b.mask != 0
    ensures AddressCalls(Inet, true, [a, b]).Some?
  {
    assert [a, b][1..] == [b] && [b][1..] == [];
    assert AddressCalls(Inet, true, [b]).Some?;
  }

  /** An interface list whose networks are all of another family: every packet of the family passes. */
  lemma EmptyInterfaceList(npc: Npc, h: Header, a: Address)
    requires IsPacket(npc, h) && h.version == 6 && AddressOk(a) && a.Net? && a.family == Inet && a.ifnet
    ensures var f := SourceFilter(Inet6, [a], false);
      && FilterOk(f) && RuleOf(f).Some? && AllOk(RuleOf(f).value)
      && !FilterMatches(f, h, npc.lookup) && RuleMatches(npc, RuleOf(f).value)
  {
    assert [a][1..] == [] && forall b :: b in [a] ==> b == a;
    assert AddressCall(Inet6, true, a) == Some([]) && AddressCalls(Inet6, true, [a][1..]) == Some([]);
    assert AddressCalls(Inet6, true, [a]).Some?;
    assert !Tested(Inet6, a) && !Everything(Inet6, a);
    hide AddressCalls, Holds, RuleMatches, FilterMatches, FilterOk, RuleOf;
    SourceListExactly(npc, h, Inet6, [a], false);
  }

  // ----- the whole compilation ---------------------------------------------------------------

  /** A program accepts a packet exactly when the filter is meant for it. */
  predicate Delivers(npc: Npc, h: Header, f: Filter, code: seq<Insn>)
    requires IsPacket(npc, h) && FilterOk(f)
  {
    FilterOutcome(NpfEnv(npc), code, Prepared(npc)) == Value(if FilterMatches(f, h, npc.lookup) then MAX32 else 0)
  }

  /** The empty rule. */
  lemma EmptyRule()
    ensures Callable(EMPTY, []) && Compilable(EMPTY, []) && Exact([], false, false)
  {
  }

  /**
    * npfctl_build_code: for every filter that is no configuration error and whose version is tested in
    * time, the program of its rule, which the kernel's validator accepts; and when its lists swap and
    * its networks and flags are fine, the program accepts exactly the packets the rule matches, which are
    * those the filter is meant for when no network is dropped where it matters.
    */
  method BuildCode(f: Filter) returns (r: Option<seq<Insn>>)
    requires FilterOk(f) && (RuleOf(f).Some? && AnyCriteria(f) ==> VersionInTime(f))
    ensures RuleOf(f).Some? ==> forall i :: i in RuleOf(f).value ==> ItemOk(i)
    ensures r.Some? <==> RuleOf(f).Some? && Compiles(RuleOf(f).value)
    ensures r.Some? ==> r.value == Program(RuleOf(f).value)
    ensures r.Some? && r.value != [] ==> Acceptable(NpfCtx(), r.value) && AllPatched(r.value)
    ensures r.Some? && (AnyCriteria(f) ==> ListsSwap(f) && FlagsFine(f) && NetsFine(f)) ==>
      forall npc: Npc :: |npc.pkt| < W32 ==> RightOn(npc, RuleOf(f).value, r.value)
    ensures r.Some? && (AnyCriteria(f) ==> ListsSwap(f) && FlagsFine(f) && NetsFine(f)) && DropsFine(f) ==>
      forall npc: Npc, h: Header :: IsPacket(npc, h) ==> Delivers(npc, h, f, r.value)
  {
    hide Build, FilterOutcome, RuleMatches, Acceptable, AllPatched, Exact;
    hide Compilable, Callable, Compiles, Program, Fits, Good, FilterMatches, DropsFine;
    var rule := RuleOf(f);
    if rule.None? {
      return None;
    }
    EmptyRule();
    if AnyCriteria(f) {
      DriverFits(f);
      DriverExact(f);
      FitsCallable(EMPTY, rule.value);
    }
    var ok, code := CompileCode(rule.value);
    if !ok {
      return None;
    }
    r := Some(code);
    if AnyCriteria(f) ==> ListsSwap(f) && FlagsFine(f) && NetsFine(f) {
      forall npc: Npc | |npc.pkt| < W32
        ensures RightOn(npc, rule.value, code)
      {
        CompilerCorrect(npc, rule.value);
      }
      if DropsFine(f) {
        forall npc: Npc, h: Header | IsPacket(npc, h)
          ensures Delivers(npc, h, f, code)
        {
          assert RightOn(npc, rule.value, code);
          RuleMeansFilter(f, npc, h);
        }
      }
    }
  }
}
