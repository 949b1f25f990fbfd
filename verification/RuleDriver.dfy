/**
  * The calls that npfctl_build_code makes for a filter (src/npfctl/npf_build.c), in their order, and what
  * that order guarantees: no emitter is called without a tested protocol, and X is never loaded late.
  */
module RuleDriver {
  import opened Words
  import opened BpfMachine
  import opened BpfCode
  import opened BpfMeaning
  import opened RuleCompiler
  import opened RuleCriteria
  import opened RuleTests
  import opened RuleMeaning
  import opened RuleLimits
  import opened Filters

  // ----- filters -----------------------------------------------------------------------------

  const IPPROTO_UDP: u32 := 17
  const NO_PROTO: u32 := 0xffff_ffff

  /** SYN, among SYN, ACK, FIN and RST. */
  const STATE_FLAGS: u8 := 0x02
  const STATE_MASK: u8 := 0x17

  /** What the parser makes sure of. */
  predicate FilterOk(f: Filter) {
    && (forall a :: a in f.from + f.to ==> AddressOk(a))
    && (forall p :: p in f.protos ==> p.options.IcmpOptions? ==> p.options.itype.Some? || p.options.icode.Some?)
  }

  predicate AddressOk(a: Address) {
    match a
    case Net(_, addr, mask, _) => |addr| == 4 && (mask <= 128 || mask == NO_NETMASK)
    case Tab(tid) => tid < SRC_FLAG
  }

  // ----- the calls ---------------------------------------------------------------------------

  /** npfctl_build_fam and the tables; None is a configuration error. */
  function AddressCall(family: Af, src: bool, a: Address): Option<seq<Call>> {
    match a
    case Tab(tid) => Some([Table(src, tid)])
    case Net(af, addr, mask, ifnet) =>
      if family != Unspec && family != af then (if ifnet then Some([]) else None)
      else if af == Unspec then None
      else if mask == 0 then (if forall w :: w in addr ==> w == 0 then Some([]) else None)
      else Some([Cidr(src, af, addr, mask)])
  }

  function AddressCalls(family: Af, src: bool, list: seq<Address>): Option<seq<Call>> {
    if list == [] then Some([])
    else
      var c, cs := AddressCall(family, src, list[0]), AddressCalls(family, src, list[1..]);
      if c.None? || cs.None? then None else Some(c.value + cs.value)
  }

  function PortCalls(src: bool, ranges: seq<(u16, u16)>): seq<Call> {
    seq(|ranges|, i requires 0 <= i < |ranges| => Ports(src, ranges[i].0, ranges[i].1))
  }

  /** npfctl_build_proto_block: the options of a single protocol. */
  function OptionItems(p: Protocol): seq<Item> {
    match p.options
    case NoOptions => []
    case FlagOptions(flags, fmask) => if p.proto == IPPROTO_TCP then [Single(TcpFlags(flags, fmask))] else []
    case IcmpOptions(itype, icode) => if p.proto == 1 || p.proto == 58 then [Single(Icmp(itype, icode))] else []
  }

  function Numbers(ps: seq<Protocol>): seq<u32> {
    seq(|ps|, i requires 0 <= i < |ps| => ps[i].proto)
  }

  /** npfctl_build_proto: options are not supported for several protocols. */
  function ProtoItems(ps: seq<Protocol>): Option<seq<Item>> {
    if ps == [] then Some([])
    else if |ps| == 1 then Some([Single(Proto(ps[0].proto))] + OptionItems(ps[0]))
    else if exists p :: p in ps && !p.options.NoOptions? then None
    else Some([Alternatives(false, Protocols(Numbers(ps)))])
  }

  /** npfctl_check_proto: the last mention of TCP is one without flags. */
  predicate TcpWithoutFlags(ps: seq<Protocol>) {
    ps != [] &&
    var last := ps[|ps| - 1];
    if last.proto == IPPROTO_TCP then last.options.NoOptions? else TcpWithoutFlags(ps[..|ps| - 1])
  }

  /** Stateful rules get a test of the TCP flags, unless flags or other protocols were asked for. */
  function StateItems(f: Filter): seq<Item> {
    if f.stateful && (f.protos == [] || TcpWithoutFlags(f.protos))
    then [Single(TcpFlags(STATE_FLAGS, STATE_MASK))]
    else []
  }

  function VersionItems(f: Filter): seq<Item> {
    if f.family != Unspec then [Single(IpVer(f.family))] else []
  }

  predicate AnyPorts(f: Filter) { f.sports != [] || f.dports != [] }

  /** Ports without a protocol are those of TCP and UDP. */
  function ImpliedItems(f: Filter): seq<Item> {
    if AnyPorts(f) && f.protos == [] then [Alternatives(false, Protocols([IPPROTO_TCP, IPPROTO_UDP]))] else []
  }

  predicate AnyCriteria(f: Filter) {
    f.family != Unspec || f.protos != [] || f.from != [] || f.to != [] || AnyPorts(f) || f.stateful
  }

  predicate OnlyPortProtocols(ps: seq<Protocol>) {
    forall p :: p in ps ==> p.proto == IPPROTO_TCP || p.proto == IPPROTO_UDP || p.proto == NO_PROTO
  }

  /** npfctl_build_code: the rule a filter comes to; None is a configuration error. */
  function RuleOf(f: Filter): Option<seq<Item>> {
    if !AnyCriteria(f) then Some([])
    else if AnyPorts(f) && !OnlyPortProtocols(f.protos) then None
    else
      var ps := ProtoItems(f.protos);
      var from, to := AddressCalls(f.family, true, f.from), AddressCalls(f.family, false, f.to);
      if ps.None? || from.None? || to.None? then None
      else Some(VersionItems(f) + ps.value + StateItems(f) + Back(f, from.value, to.value))
  }

  /** The addresses and the ports, source before destination. */
  function Back(f: Filter, from: seq<Call>, to: seq<Call>): seq<Item> {
    [Alternatives(f.notFrom, from), Alternatives(f.notTo, to)] + ImpliedItems(f)
    + [Alternatives(false, PortCalls(true, f.sports)), Alternatives(false, PortCalls(false, f.dports))]
  }

  // ----- what the emitters' assertions depend on ---------------------------------------------

  datatype Flags = Flags(fetched: bool, af: Af, l4: bool, xset: bool)

  const START := Flags(false, Unspec, false, false)

  function FlagsOf(g: Gen): Flags {
    Flags(g.fetched, g.af, g.l4, g.xset)
  }

  function AfterCall(st: Flags, c: Call): Flags {
    Flags(st.fetched || UsesL3(c), if Family(c) != Unspec then Family(c) else st.af,
          st.l4 || c.Proto?, st.xset || UsesX(c))
  }

  function AfterCalls(st: Flags, cs: seq<Call>): Flags
    decreases |cs|
  {
    if cs == [] then st else AfterCalls(AfterCall(st, cs[0]), cs[1..])
  }

  function AfterItems(st: Flags, items: seq<Item>): Flags
    decreases |items|
  {
    if items == [] then st else AfterItems(AfterCalls(st, Calls(items[0])), items[1..])
  }

  predicate FitsAt(st: Flags, grouped: bool, blocks: nat, c: Call) {
    && (c.Ports? || c.Icmp? ==> st.l4)
    && (c.TcpFlags? && !st.l4 ==> !grouped)
    && (UsesL3(c) && (!st.fetched || (Family(c) != Unspec && st.af == Unspec)) && grouped ==> blocks == 0)
  }

  predicate GroupFits(st: Flags, blocks: nat, cs: seq<Call>)
    decreases |cs|
  {
    cs == [] ||
    (FitsAt(st, true, blocks, cs[0]) && GroupFits(AfterCall(st, cs[0]), blocks + CallBlocks(cs[0]), cs[1..]))
  }

  predicate FitsIn(st: Flags, item: Item) {
    match item
    case Single(c) => FitsAt(st, false, 0, c)
    case Alternatives(_, cs) => GroupFits(st, 0, cs)
  }

  /** The assertions along a rule, and the goodness of its groups. */
  predicate Fits(st: Flags, items: seq<Item>)
    decreases |items|
  {
    items == [] || (FitsIn(st, items[0]) && Fits(AfterCalls(st, Calls(items[0])), items[1..]))
  }

  predicate Good(st: Flags, items: seq<Item>)
    decreases |items|
  {
    items == [] || (ItemGood(st.xset, items[0]) && Good(AfterCalls(st, Calls(items[0])), items[1..]))
  }

  lemma {:induction false} CallsFitFlags(g: Gen, cs: seq<Call>)
    requires g.group.Some? && (g.af != Unspec ==> g.fetched) && forall c :: c in cs ==> CallOk(c)
    ensures GroupFits(FlagsOf(g), g.group.value.blocks, cs) ==> CallsFit(g, cs)
    ensures BuildCalls(g, cs).Some? && CallsFit(g, cs) ==> GroupFits(FlagsOf(g), g.group.value.blocks, cs)
    ensures BuildCalls(g, cs).Some? ==>
      var h := BuildCalls(g, cs).value; FlagsOf(h) == AfterCalls(FlagsOf(g), cs) && (h.af != Unspec ==> h.fetched)
    decreases |cs|
  {
    hide Apply, CallElems;
    if cs != [] {
      if Apply(g, cs[0]).Some? {
        ApplyShape(g, cs[0]);
        CallsFitFlags(Apply(g, cs[0]).value, cs[1..]);
      }
    }
  }

  lemma ItemFitsFlags(g: Gen, item: Item)
    requires GenOk(g) && g.group.None? && (g.af != Unspec ==> g.fetched) && ItemOk(item)
    ensures FitsIn(FlagsOf(g), item) ==> ItemFits(g, item)
    ensures BuildItem(g, item).Some? && ItemFits(g, item) ==> FitsIn(FlagsOf(g), item)
    ensures BuildItem(g, item).Some? ==>
      var h := BuildItem(g, item).value;
      FlagsOf(h) == AfterCalls(FlagsOf(g), Calls(item)) && h.group.None? && (h.af != Unspec ==> h.fetched)
  {
    hide Apply, CallElems, BuildCalls, CallsFit, GroupFits;
    match item
    case Single(c) =>
      if Apply(g, c).Some? { ApplyShape(g, c); }
      assert AfterCalls(AfterCall(FlagsOf(g), c), [c][1..]) == AfterCall(FlagsOf(g), c);
    case Alternatives(invert, cs) =>
      CallsFitFlags(OpenGroup(g, invert), cs);
      if BuildCalls(OpenGroup(g, invert), cs).Some? { BuildKeepsOk(OpenGroup(g, invert), cs); }
  }

  lemma {:induction false} FitsCallable(g: Gen, items: seq<Item>)
    requires GenOk(g) && g.group.None? && (g.af != Unspec ==> g.fetched) && forall i :: i in items ==> ItemOk(i)
    ensures Fits(FlagsOf(g), items) ==> Callable(g, items)
    ensures Build(g, items).Some? && Callable(g, items) ==> Fits(FlagsOf(g), items)
    ensures Fits(FlagsOf(g), items) && Good(FlagsOf(g), items) ==> Compilable(g, items)
    decreases |items|
  {
    hide BuildItem, FitsIn, ItemFits, ItemGood;
    if items != [] {
      ItemFitsFlags(g, items[0]);
      if BuildItem(g, items[0]).Some? {
        BuildItemKeepsOk(g, items[0]);
        FitsCallable(BuildItem(g, items[0]).value, items[1..]);
      }
    }
  }

  lemma {:induction false} FitsConcat(st: Flags, xs: seq<Item>, ys: seq<Item>)
    ensures AfterItems(st, xs + ys) == AfterItems(AfterItems(st, xs), ys)
    ensures Fits(st, xs + ys) <==> Fits(st, xs) && Fits(AfterItems(st, xs), ys)
    ensures Good(st, xs + ys) <==> Good(st, xs) && Good(AfterItems(st, xs), ys)
    decreases |xs|
  {
    hide FitsIn, ItemGood;
    if xs == [] {
      assert xs + ys == ys;
    } else {
      assert (xs + ys)[0] == xs[0] && (xs + ys)[1..] == xs[1..] + ys;
      FitsConcat(AfterCalls(st, Calls(xs[0])), xs[1..], ys);
    }
  }

  // ----- groups of one kind ------------------------------------------------------------------

  predicate AllOneJump(cs: seq<Call>) {
    forall c :: c in cs ==> OneJump(c)
  }

  /** A group whose jumps are swapped holds only criteria of one jump. */
  predicate Swaps(invert: bool, cs: seq<Call>) {
    invert || |cs| >= 2 ==> AllOneJump(cs)
  }

  predicate Addresses(cs: seq<Call>) {
    forall c :: c in cs ==> c.Cidr? || c.Table?
  }

  predicate AllPorts(cs: seq<Call>) {
    forall c :: c in cs ==> c.Ports?
  }

  predicate AllProtos(cs: seq<Call>) {
    forall c :: c in cs ==> c.Proto?
  }

  predicate HasNet(cs: seq<Call>) {
    exists c :: c in cs && c.Cidr?
  }

  /** X is never loaded late: in a group of one kind only the number of jumps matters. */
  lemma {:induction false} NeverLate(invert: bool, xset: bool, blocks: nat, cs: seq<Call>)
    requires Addresses(cs) || AllProtos(cs) || (AllPorts(cs) && (xset || blocks == 0))
    ensures Disciplined(invert, xset, blocks, cs) <==> AllOneJump(cs)
    ensures Blocks(cs) == |cs|
    decreases |cs|
  {
    if cs != [] {
      assert cs[0] in cs && forall c :: c in cs <==> c == cs[0] || c in cs[1..];
      NeverLate(invert, xset || UsesX(cs[0]), blocks + 1, cs[1..]);
    }
  }

  lemma KindGood(invert: bool, xset: bool, cs: seq<Call>)
    requires Addresses(cs) || AllProtos(cs) || AllPorts(cs)
    ensures GroupGood(xset, invert, cs) <==> Swaps(invert, cs)
  {
    NeverLate(invert, xset, 0, cs);
  }

  /** The version can be tested before the first network only at the start of a group. */
  predicate NetFirst(cs: seq<Call>) {
    cs == [] || cs[0].Cidr? || !HasNet(cs)
  }

  lemma {:induction false} AddressesFit(st: Flags, blocks: nat, cs: seq<Call>)
    requires Addresses(cs) && (forall c :: c in cs ==> CallOk(c)) && (st.af != Unspec ==> st.fetched)
    ensures GroupFits(st, blocks, cs) <==> st.af != Unspec || !HasNet(cs) || (blocks == 0 && NetFirst(cs))
    ensures var e := AfterCalls(st, cs);
      && e.l4 == st.l4 && e.xset == st.xset && (e.af != Unspec <==> st.af != Unspec || HasNet(cs))
      && (e.af != Unspec ==> e.fetched)
    decreases |cs|
  {
    if cs != [] {
      assert cs[0] in cs && forall c :: c in cs <==> c == cs[0] || c in cs[1..];
      AddressesFit(AfterCall(st, cs[0]), blocks + 1, cs[1..]);
    }
  }

  lemma {:induction false} PortsFit(st: Flags, blocks: nat, cs: seq<Call>)
    requires AllPorts(cs) && (cs == [] || st.l4) && (st.fetched || blocks == 0)
    ensures GroupFits(st, blocks, cs) && AfterCalls(st, cs).l4 == st.l4
    decreases |cs|
  {
    if cs != [] {
      assert cs[0] in cs && forall c :: c in cs[1..] ==> c in cs;
      PortsFit(AfterCall(st, cs[0]), blocks + 1, cs[1..]);
    }
  }

  lemma {:induction false} ProtosFit(st: Flags, blocks: nat, cs: seq<Call>)
    requires AllProtos(cs)
    ensures GroupFits(st, blocks, cs) && AfterCalls(st, cs) == st.(l4 := st.l4 || cs != [])
    decreases |cs|
  {
    if cs != [] {
      assert cs[0] in cs && forall c :: c in cs[1..] ==> c in cs;
      ProtosFit(AfterCall(st, cs[0]), blocks + 1, cs[1..]);
    }
  }

  // ----- the driver's rules ------------------------------------------------------------------

  lemma AddressKind(family: Af, src: bool, a: Address)
    requires AddressOk(a) && AddressCall(family, src, a).Some?
    ensures var cs := AddressCall(family, src, a).value; Addresses(cs) && forall c :: c in cs ==> CallOk(c)
  {
  }

  lemma {:induction false} AddressKinds(family: Af, src: bool, list: seq<Address>)
    requires (forall a :: a in list ==> AddressOk(a)) && AddressCalls(family, src, list).Some?
    ensures var cs := AddressCalls(family, src, list).value; Addresses(cs) && forall c :: c in cs ==> CallOk(c)
  {
    hide AddressCall, AddressOk;
    if list != [] {
      AddressKind(family, src, list[0]);
      AddressKinds(family, src, list[1..]);
    }
  }

  /** What comes before the addresses. */
  function Front(f: Filter): seq<Item>
    requires ProtoItems(f.protos).Some?
  {
    VersionItems(f) + ProtoItems(f.protos).value + StateItems(f)
  }

  lemma OneItem(st: Flags, item: Item)
    ensures Fits(st, [item]) <==> FitsIn(st, item)
    ensures Good(st, [item]) <==> ItemGood(st.xset, item)
    ensures AfterItems(st, [item]) == AfterCalls(st, Calls(item))
  {
    assert [item][1..] == [];
  }

  lemma NoItems(st: Flags)
    ensures Fits(st, []) && Good(st, []) && AfterItems(st, []) == st
  {
  }

  lemma OneCall(st: Flags, c: Call)
    ensures AfterCalls(st, [c]) == AfterCall(st, c)
  {
    assert [c][1..] == [];
  }

  lemma ProtoPart(f: Filter, st: Flags)
    requires FilterOk(f) && ProtoItems(f.protos).Some? && !st.l4
    ensures var items, e := ProtoItems(f.protos).value, AfterItems(st, ProtoItems(f.protos).value);
      && (forall i :: i in items ==> ItemOk(i))
      && Fits(st, items) && Good(st, items)
      && e.af == st.af && e.l4 == (f.protos != []) && (st.fetched ==> e.fetched)
  {
    var ps, items := f.protos, ProtoItems(f.protos).value;
    if ps == [] {
      NoItems(st);
    } else if |ps| == 1 {
      assert ps[0] in ps;
      var c, os := Proto(ps[0].proto), OptionItems(ps[0]);
      OneItem(st, Single(c));
      OneCall(st, c);
      FitsConcat(st, [Single(c)], os);
      var e := AfterCall(st, c);
      if os == [] {
        NoItems(e);
      } else {
        OneItem(e, os[0]);
        OneCall(e, os[0].call);
      }
    } else {
      var cs := Protocols(Numbers(ps));
      assert AllProtos(cs) && AllOneJump(cs);
      OneItem(st, items[0]);
      ProtosFit(st, 0, cs);
      KindGood(false, st.xset, cs);
    }
  }

  lemma FrontFits(f: Filter)
    requires FilterOk(f) && ProtoItems(f.protos).Some?
    ensures var e := AfterItems(START, Front(f));
      && (forall i :: i in Front(f) ==> ItemOk(i))
      && Fits(START, Front(f)) && Good(START, Front(f))
      && e.af == f.family && (e.af != Unspec ==> e.fetched) && e.l4 == (f.protos != [])
  {
    hide ProtoItems, TcpWithoutFlags, Fits, Good, AfterItems;
    var vs, ps, ss := VersionItems(f), ProtoItems(f.protos).value, StateItems(f);
    FitsConcat(START, vs + ps, ss);
    FitsConcat(START, vs, ps);
    NoItems(START);
    OneItem(START, Single(IpVer(f.family)));
    OneCall(START, IpVer(f.family));
    var a := AfterItems(START, vs);
    ProtoPart(f, a);
    var b := AfterItems(a, ps);
    NoItems(b);
    OneItem(b, Single(TcpFlags(STATE_FLAGS, STATE_MASK)));
    OneCall(b, TcpFlags(STATE_FLAGS, STATE_MASK));
  }

  /** The version of an unspecified family is tested in time. */
  predicate VersionInTime(f: Filter)
    requires AddressCalls(f.family, true, f.from).Some? && AddressCalls(f.family, false, f.to).Some?
  {
    var from, to := AddressCalls(f.family, true, f.from).value, AddressCalls(f.family, false, f.to).value;
    f.family != Unspec || (NetFirst(from) && (HasNet(from) || NetFirst(to)))
  }

  /** No list whose jumps are swapped holds a criterion of several jumps. */
  predicate ListsSwap(f: Filter)
    requires AddressCalls(f.family, true, f.from).Some? && AddressCalls(f.family, false, f.to).Some?
  {
    && Swaps(f.notFrom, AddressCalls(f.family, true, f.from).value)
    && Swaps(f.notTo, AddressCalls(f.family, false, f.to).value)
    && Swaps(false, PortCalls(true, f.sports)) && Swaps(false, PortCalls(false, f.dports))
  }

  lemma AddressPart(st: Flags, invert: bool, cs: seq<Call>)
    requires Addresses(cs) && (forall c :: c in cs ==> CallOk(c)) && (st.af != Unspec ==> st.fetched)
    ensures var item, e := Alternatives(invert, cs), AfterItems(st, [Alternatives(invert, cs)]);
      && (Fits(st, [item]) <==> st.af != Unspec || NetFirst(cs)) && (Good(st, [item]) <==> Swaps(invert, cs))
      && e.l4 == st.l4 && (e.af != Unspec <==> st.af != Unspec || HasNet(cs)) && (e.af != Unspec ==> e.fetched)
  {
    OneItem(st, Alternatives(invert, cs));
    AddressesFit(st, 0, cs);
    KindGood(invert, st.xset, cs);
  }

  lemma PortPart(st: Flags, src: bool, ranges: seq<(u16, u16)>)
    requires ranges == [] || st.l4
    ensures var item := Alternatives(false, PortCalls(src, ranges));
      && ItemOk(item) && Fits(st, [item]) && (Good(st, [item]) <==> Swaps(false, PortCalls(src, ranges)))
      && AfterItems(st, [item]).l4 == st.l4
  {
    var cs := PortCalls(src, ranges);
    OneItem(st, Alternatives(false, cs));
    PortsFit(st, 0, cs);
    KindGood(false, st.xset, cs);
  }

  lemma ImpliedPart(f: Filter, st: Flags)
    requires st.l4 == (f.protos != [])
    ensures var items := ImpliedItems(f);
      && (forall i :: i in items ==> ItemOk(i)) && Fits(st, items) && Good(st, items)
      && (AnyPorts(f) ==> AfterItems(st, items).l4)
  {
    if AnyPorts(f) && f.protos == [] {
      var cs := Protocols([IPPROTO_TCP, IPPROTO_UDP]);
      assert AllProtos(cs) && AllOneJump(cs);
      OneItem(st, Alternatives(false, cs));
      ProtosFit(st, 0, cs);
      KindGood(false, st.xset, cs);
    } else {
      NoItems(st);
    }
  }

  /** The rest of the rule, from the addresses on. */
  lemma BackFits(f: Filter, st: Flags, from: seq<Call>, to: seq<Call>)
    requires Addresses(from) && Addresses(to) && (forall c :: c in from ==> CallOk(c))
    requires (forall c :: c in to ==> CallOk(c))
    requires st.l4 == (f.protos != []) && (st.af != Unspec ==> st.fetched)
    ensures var items := Back(f, from, to);
      && (forall i :: i in items ==> ItemOk(i))
      && (Fits(st, items) <==> st.af != Unspec || (NetFirst(from) && (HasNet(from) || NetFirst(to))))
      && (Good(st, items) <==> Swaps(f.notFrom, from) && Swaps(f.notTo, to)
                               && Swaps(false, PortCalls(true, f.sports)) && Swaps(false, PortCalls(false, f.dports)))
  {
    hide Fits, Good, AfterItems, Swaps, NetFirst, HasNet, Addresses, PortCalls;
    var a, b := Alternatives(f.notFrom, from), Alternatives(f.notTo, to);
    var c, d := Alternatives(false, PortCalls(true, f.sports)), Alternatives(false, PortCalls(false, f.dports));
    var im := ImpliedItems(f);
    assert Back(f, from, to) == [a] + ([b] + (im + ([c] + [d])));
    FitsConcat(st, [a], [b] + (im + ([c] + [d])));
    AddressPart(st, f.notFrom, from);
    var s1 := AfterItems(st, [a]);
    FitsConcat(s1, [b], im + ([c] + [d]));
    AddressPart(s1, f.notTo, to);
    var s2 := AfterItems(s1, [b]);
    FitsConcat(s2, im, [c] + [d]);
    ImpliedPart(f, s2);
    var s3 := AfterItems(s2, im);
    FitsConcat(s3, [c], [d]);
    PortPart(s3, true, f.sports);
    PortPart(AfterItems(s3, [c]), false, f.dports);
  }

  /**
    * The rule that npfctl_build_code makes of a filter respects the emitters' assertions exactly when the
    * version is tested in time, and its groups are good exactly when their lists are: protocols have
    * always been tested where they must be, and X is never loaded late.
    */
  lemma DriverFits(f: Filter)
    requires FilterOk(f) && RuleOf(f).Some? && AnyCriteria(f)
    ensures forall i :: i in RuleOf(f).value ==> ItemOk(i)
    ensures Fits(START, RuleOf(f).value) <==> VersionInTime(f)
    ensures Good(START, RuleOf(f).value) <==> ListsSwap(f)
  {
    hide Fits, Good, AfterItems, Swaps, NetFirst, HasNet, Addresses, AddressCalls, ProtoItems, AddressOk;
    var from, to := AddressCalls(f.family, true, f.from).value, AddressCalls(f.family, false, f.to).value;
    assert forall a :: a in f.from || a in f.to ==> a in f.from + f.to;
    AddressKinds(f.family, true, f.from);
    AddressKinds(f.family, false, f.to);
    var back := Back(f, from, to);
    assert RuleOf(f).value == Front(f) + back;
    FrontFits(f);
    FitsConcat(START, Front(f), back);
    BackFits(f, AfterItems(START, Front(f)), from, to);
  }

  /** A table in front of a network, of no particular family: fetch_l3 asserts in vain that the group is empty. */
  lemma TableBeforeNet()
    ensures var list := [Tab(1), Net(Inet, [0x0a000000, 0, 0, 0], 8, false)];
      var f := Filter(Unspec, [], false, list, false, [], false, [], []);
      && FilterOk(f) && RuleOf(f).Some? && (forall i :: i in RuleOf(f).value ==> ItemOk(i))
      && !Callable(EMPTY, RuleOf(f).value)
  {
    var list := [Tab(1), Net(Inet, [0x0a000000, 0, 0, 0], 8, false)];
    var f := Filter(Unspec, [], false, list, false, [], false, [], []);
    var net := Cidr(true, Inet, [0x0a000000, 0, 0, 0], 8);
    var cs := [Table(true, 1), net];
    assert list[1..] == [list[1]] && list[1..][1..] == [];
    assert [net] + [] == [net] && [Table(true, 1)] + [net] == cs;
    assert AddressCall(Unspec, true, list[1]) == Some([net]);
    assert AddressCalls(Unspec, true, list[1..]) == Some([net]);
    assert AddressCalls(Unspec, true, list) == Some(cs);
    assert AddressCalls(Unspec, false, []) == Some([]);
    assert PortCalls(true, []) == [] && PortCalls(false, []) == [];
    assert RuleOf(f).value[0] == Alternatives(false, cs);
    LateVersion(net);
    hide CallsFit, BuildItem, AddressCalls;
    assert !ItemFits(EMPTY, RuleOf(f).value[0]);
  }

  lemma LateVersion(net: Call)
    requires CallOk(net) && net.Cidr?
    ensures !CallsFit(OpenGroup(EMPTY, false), [Table(true, 1), net])
  {
    var cs, o := [Table(true, 1), net], OpenGroup(EMPTY, false);
    assert cs[1..] == [net];
    assert Apply(o, cs[0]).value.group.value.blocks == 1;
    assert !CallsFit(Apply(o, cs[0]).value, cs[1..]);
  }

  // ----- exact criteria ----------------------------------------------------------------------

  /** The flags asked for are exact, and those of a stateful rule are tested on TCP packets only. */
  predicate FlagsFine(f: Filter) {
    && (|f.protos| == 1 && f.protos[0].proto == IPPROTO_TCP && f.protos[0].options.FlagOptions? ==>
          FlagsExact(f.protos[0].options.flags, f.protos[0].options.fmask))
    && (f.stateful && TcpWithoutFlags(f.protos) ==> forall p :: p in f.protos ==> p.proto == IPPROTO_TCP)
  }

  /** No address that is tested has bits below its mask. */
  predicate NetsFine(f: Filter) {
    forall a :: a in f.from + f.to ==> AddressMasked(f.family, a)
  }

  predicate AddressMasked(family: Af, a: Address) {
    a.Net? && (family == Unspec || family == a.family) && a.mask != 0 && |a.addr| == 4 ==>
      NoHostBits(AddrWords(a.family, a.addr), MaskLength(a.family, a.mask))
  }

  predicate CallsMasked(cs: seq<Call>)
    requires forall c :: c in cs ==> CallOk(c)
  {
    forall c :: c in cs ==> NetExact(c)
  }

  lemma AddressExact(family: Af, src: bool, a: Address)
    requires AddressOk(a) && AddressCall(family, src, a).Some?
    ensures forall c :: c in AddressCall(family, src, a).value ==> CallOk(c)
    ensures CallsMasked(AddressCall(family, src, a).value) <==> AddressMasked(family, a)
  {
    hide NoHostBits;
    AddressKind(family, src, a);
    var cs := AddressCall(family, src, a).value;
    if cs != [] { assert cs[0] in cs; }
  }

  lemma {:induction false} AddressesExact(family: Af, src: bool, list: seq<Address>)
    requires (forall a :: a in list ==> AddressOk(a)) && AddressCalls(family, src, list).Some?
    ensures forall c :: c in AddressCalls(family, src, list).value ==> CallOk(c)
    ensures CallsMasked(AddressCalls(family, src, list).value) <==> forall a :: a in list ==> AddressMasked(family, a)
  {
    hide AddressCall, AddressOk, AddressMasked, NetExact;
    AddressKinds(family, src, list);
    if list != [] {
      AddressExact(family, src, list[0]);
      AddressesExact(family, src, list[1..]);
      assert forall a :: a in list <==> a == list[0] || a in list[1..];
    }
  }

  predicate ProtoSeen(items: seq<Item>) {
    exists i :: i in items && HasProto(Calls(i))
  }

  predicate TcpSeen(items: seq<Item>) {
    exists i :: i in items && OnlyTcp(i)
  }

  lemma {:induction false} ExactConcat(xs: seq<Item>, ys: seq<Item>, l4: bool, tcp: bool)
    requires (forall i :: i in xs ==> ItemOk(i)) && (forall i :: i in ys ==> ItemOk(i))
    ensures Exact(xs + ys, l4, tcp) <==> Exact(xs, l4, tcp) && Exact(ys, l4 || ProtoSeen(xs), tcp || TcpSeen(xs))
  {
    hide CallsExact, HasProto, OnlyTcp;
    if xs == [] {
      assert xs + ys == ys;
    } else {
      assert (xs + ys)[0] == xs[0] && (xs + ys)[1..] == xs[1..] + ys;
      assert forall i :: i in xs <==> i == xs[0] || i in xs[1..];
      ExactConcat(xs[1..], ys, l4 || HasProto(Calls(xs[0])), tcp || OnlyTcp(xs[0]));
    }
  }

  predicate FlagFree(item: Item) {
    forall c :: c in Calls(item) ==> !c.TcpFlags?
  }

  predicate ItemsMasked(items: seq<Item>)
    requires forall i :: i in items ==> ItemOk(i)
  {
    forall i :: i in items ==> (assert ItemOk(i); CallsMasked(Calls(i)))
  }

  lemma {:induction false} FlagFreeExact(items: seq<Item>, l4: bool, tcp: bool)
    requires forall i :: i in items ==> ItemOk(i) && FlagFree(i)
    ensures Exact(items, l4, tcp) <==> ItemsMasked(items)
  {
    hide CallsMasked, CallsExact;
    if items != [] {
      assert ItemOk(items[0]) && FlagFree(items[0]);
      assert forall i :: i in items <==> i == items[0] || i in items[1..];
      FlagFreeCalls(Calls(items[0]), l4, tcp);
      FlagFreeExact(items[1..], l4 || HasProto(Calls(items[0])), tcp || OnlyTcp(items[0]));
    }
  }

  lemma {:induction false} FlagFreeCalls(cs: seq<Call>, l4: bool, tcp: bool)
    requires forall c :: c in cs ==> CallOk(c) && !c.TcpFlags?
    ensures CallsExact(cs, l4, tcp) <==> CallsMasked(cs)
  {
    hide NetExact;
    if cs != [] {
      assert cs[0] in cs && forall c :: c in cs <==> c == cs[0] || c in cs[1..];
      FlagFreeCalls(cs[1..], l4 || cs[0].Proto?, tcp);
    }
  }

  /** The protocols of a filter: what they ask of the flags, and whether TCP is the only one. */
  lemma ProtoExact(ps: seq<Protocol>)
    requires ProtoItems(ps).Some?
    requires forall p :: p in ps ==> p.options.IcmpOptions? ==> p.options.itype.Some? || p.options.icode.Some?
    ensures var items := ProtoItems(ps).value;
      && (forall i :: i in items ==> ItemOk(i))
      && (Exact(items, false, false) <==>
            (|ps| == 1 && ps[0].proto == IPPROTO_TCP && ps[0].options.FlagOptions? ==>
               FlagsExact(ps[0].options.flags, ps[0].options.fmask)))
      && (ProtoSeen(items) <==> ps != [])
      && (TcpSeen(items) <==> ps != [] && forall p :: p in ps ==> p.proto == IPPROTO_TCP)
  {
    hide NoHostBits;
    var items := ProtoItems(ps).value;
    if |ps| == 1 {
      assert ps[0] in ps;
      var one, os := Single(Proto(ps[0].proto)), OptionItems(ps[0]);
      assert items == [one] + os;
      ExactConcat([one], os, false, false);
      OneExact(Proto(ps[0].proto), false, false);
      assert one.call in Calls(one) && one in items;
      assert forall i :: i in os ==> !OnlyTcp(i);
      assert forall i :: i in items ==> i == one || i in os;
      assert OnlyTcp(one) <==> ps[0].proto == IPPROTO_TCP;
      if os != [] {
        assert os == [os[0]];
        OneExact(os[0].call, true, ps[0].proto == IPPROTO_TCP);
      }
      assert ps[0] in ps && forall p :: p in ps ==> p == ps[0];
    } else if ps != [] {
      GroupExact(ps, items[0]);
      assert items == [items[0]] && items[0] in items;
      FlagFreeExact(items, false, false);
    }
  }

  lemma GroupExact(ps: seq<Protocol>, item: Item)
    requires ps != [] && item == Alternatives(false, Protocols(Numbers(ps)))
    ensures FlagFree(item) && HasProto(Calls(item))
    ensures OnlyTcp(item) <==> forall p :: p in ps ==> p.proto == IPPROTO_TCP
  {
    var cs := Protocols(Numbers(ps));
    assert forall k :: 0 <= k < |ps| ==> cs[k] == Proto(ps[k].proto);
    assert cs[0] in cs;
    if OnlyTcp(item) {
      forall p | p in ps ensures p.proto == IPPROTO_TCP {
        var k :| 0 <= k < |ps| && ps[k] == p;
        assert cs[k] in cs;
      }
    } else {
      var c :| c in cs && c != Proto(IPPROTO_TCP);
      var k :| 0 <= k < |cs| && cs[k] == c;
      assert ps[k] in ps && ps[k].proto != IPPROTO_TCP;
    }
  }

  lemma BackFlagFree(f: Filter, from: seq<Call>, to: seq<Call>)
    requires Addresses(from) && Addresses(to) && (forall c :: c in from ==> CallOk(c))
    requires (forall c :: c in to ==> CallOk(c))
    ensures forall i :: i in Back(f, from, to) ==> ItemOk(i) && FlagFree(i)
    ensures ItemsMasked(Back(f, from, to)) <==> CallsMasked(from) && CallsMasked(to)
  {
    hide NoHostBits;
    var items := Back(f, from, to);
    assert Calls(items[0]) == from && Calls(items[1]) == to && items[0] in items && items[1] in items;
  }

  lemma StateExact(l4: bool, tcp: bool)
    ensures CallOk(TcpFlags(STATE_FLAGS, STATE_MASK))
    ensures Exact([Single(TcpFlags(STATE_FLAGS, STATE_MASK))], l4, tcp) <==> (l4 ==> tcp)
  {
    StateCallExact(l4, tcp);
    hide Exact, CallExact, CallOk;
    OneExact(TcpFlags(STATE_FLAGS, STATE_MASK), l4, tcp);
  }

  lemma StateCallExact(l4: bool, tcp: bool)
    ensures CallOk(TcpFlags(STATE_FLAGS, STATE_MASK))
    ensures CallExact(TcpFlags(STATE_FLAGS, STATE_MASK), l4, tcp) <==> (l4 ==> tcp)
  {
  }

  /** From the flags of a stateful rule on. */
  lemma TailExact(f: Filter, from: seq<Call>, to: seq<Call>, l4: bool, tcp: bool)
    requires Addresses(from) && Addresses(to) && (forall c :: c in from ==> CallOk(c))
    requires (forall c :: c in to ==> CallOk(c))
    ensures forall i :: i in StateItems(f) + Back(f, from, to) ==> ItemOk(i)
    ensures Exact(StateItems(f) + Back(f, from, to), l4, tcp) <==>
      (StateItems(f) != [] && l4 ==> tcp) && CallsMasked(from) && CallsMasked(to)
  {
    hide Exact, CallsMasked, Addresses, TcpWithoutFlags, FlagFree;
    hide ItemsMasked, ProtoSeen, TcpSeen, Back, ItemOk, CallOk;
    StateExact(l4, tcp);
    NoneExact(l4, tcp);
    BackFlagFree(f, from, to);
    var ss, back := StateItems(f), Back(f, from, to);
    assert forall i :: i in ss ==> ItemOk(i) by { StateOk(f); }
    ExactConcat(ss, back, l4, tcp);
    FlagFreeExact(back, l4 || ProtoSeen(ss), tcp || TcpSeen(ss));
  }

  lemma StateOk(f: Filter)
    ensures forall i :: i in StateItems(f) ==> ItemOk(i)
  {
    hide TcpWithoutFlags;
  }

  /** The driver's rules are exact exactly when the networks and the TCP flags of the filter are fine. */
  lemma DriverExact(f: Filter)
    requires FilterOk(f) && RuleOf(f).Some? && AnyCriteria(f)
    ensures forall i :: i in RuleOf(f).value ==> ItemOk(i)
    ensures Exact(RuleOf(f).value, false, false) <==> FlagsFine(f) && NetsFine(f)
  {
    hide Exact, Addresses, AddressCalls, ProtoItems, AddressOk, AddressMasked, CallsMasked, ItemOk, CallOk;
    hide TcpWithoutFlags, OptionItems, ProtoSeen, TcpSeen, FlagsExact, Back;
    var from, to := AddressCalls(f.family, true, f.from).value, AddressCalls(f.family, false, f.to).value;
    assert forall a :: a in f.from || a in f.to <==> a in f.from + f.to;
    AddressKinds(f.family, true, f.from);
    AddressKinds(f.family, false, f.to);
    AddressesExact(f.family, true, f.from);
    AddressesExact(f.family, false, f.to);
    var vs, ps, tail := VersionItems(f), ProtoItems(f.protos).value, StateItems(f) + Back(f, from, to);
    ProtoExact(f.protos);
    TailExact(f, from, to, ProtoSeen(ps), TcpSeen(ps));
    assert RuleOf(f).value == vs + (ps + tail);
    ExactConcat(ps, tail, false, false);
    VersionExact(f, ps + tail);
    NoProtocols(f);
  }

  lemma NoneExact(l4: bool, tcp: bool)
    ensures Exact([], l4, tcp)
  {
  }

  lemma VersionExact(f: Filter, rest: seq<Item>)
    requires forall i :: i in rest ==> ItemOk(i)
    ensures forall i :: i in VersionItems(f) ==> ItemOk(i)
    ensures Exact(VersionItems(f) + rest, false, false) <==> Exact(rest, false, false)
  {
    hide Exact;
    var vs := VersionItems(f);
    ExactConcat(vs, rest, false, false);
    FlagFreeExact(vs, false, false);
    assert ItemsMasked(vs);
    assert !ProtoSeen(vs) && !TcpSeen(vs);
  }

  lemma NoProtocols(f: Filter)
    ensures TcpWithoutFlags(f.protos) ==> f.protos != []
  {
  }
}
