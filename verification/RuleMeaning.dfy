/**
  * Compiler correctness: the program of a rule accepts a packet exactly when the rule matches it, as long
  * as what the program tests is what the rule asks for.
  */
module RuleMeaning {
  import opened Words
  import opened BpfMachine
  import opened BpfCode
  import opened BpfMeaning
  import opened RuleCompiler
  import opened RuleCriteria
  import opened RuleTests

  // ----- where tests and criteria agree ------------------------------------------------------

  /** Flags whose comparison means what it should: there is a real mask, or one that covers everything. */
  predicate FlagsExact(flags: u8, fmask: u8) {
    fmask != flags || fmask == 0xff
  }

  /** No bits below the mask in any word that it reaches. */
  predicate NoHostBits(addr: seq<u32>, length: nat)
    decreases |addr|
  {
    addr == [] || length == 0 ||
    var n := if length >= 32 then 32 else length;
    addr[0] % Pow2(32 - n) == 0 && NoHostBits(addr[1..], length - n)
  }

  /** Networks whose comparison means what it should: written without host bits. */
  predicate NetExact(c: Call)
    requires CallOk(c)
  {
    c.Cidr? ==> NoHostBits(AddrWords(c.family, c.addr), MaskLength(c.family, c.mask))
  }

  /**
    * Networks have no host bits, and TCP flags are compared rightly and only on TCP packets: either the
    * code says so or the rule does.
    */
  predicate CallExact(c: Call, l4: bool, tcp: bool)
    requires CallOk(c)
  {
    NetExact(c) && (c.TcpFlags? ==> FlagsExact(c.flags, c.fmask) && (l4 ==> tcp))
  }

  predicate CallsExact(cs: seq<Call>, l4: bool, tcp: bool)
    requires forall c :: c in cs ==> CallOk(c)
  {
    cs == [] || (CallExact(cs[0], l4, tcp) && CallsExact(cs[1..], l4 || cs[0].Proto?, tcp))
  }

  /** Does the item let only TCP packets through? */
  predicate OnlyTcp(item: Item) {
    match item
    case Single(c) => c == Proto(IPPROTO_TCP)
    case Alternatives(invert, cs) => !invert && cs != [] && forall c :: c in cs ==> c == Proto(IPPROTO_TCP)
  }

  /** Along the rule: whether the protocol has been tested, and whether it can only be TCP. */
  predicate Exact(items: seq<Item>, l4: bool, tcp: bool)
    requires forall i :: i in items ==> ItemOk(i)
  {
    items == [] ||
    (assert ItemOk(items[0]); CallsExact(Calls(items[0]), l4, tcp) &&
     Exact(items[1..], l4 || HasProto(Calls(items[0])), tcp || OnlyTcp(items[0])))
  }

  lemma OneCallExact(c: Call, l4: bool, tcp: bool)
    requires CallOk(c)
    ensures CallsExact([c], l4, tcp) <==> CallExact(c, l4, tcp)
  {
    hide NetExact, FlagsExact;
    assert [c][1..] == [] && CallsExact([], l4 || c.Proto?, tcp);
  }

  lemma OneExact(c: Call, l4: bool, tcp: bool)
    requires CallOk(c)
    ensures Exact([Single(c)], l4, tcp) <==> CallExact(c, l4, tcp)
  {
    OneCallExact(c, l4, tcp);
    hide CallsExact, CallExact;
    assert [Single(c)][1..] == [] && Exact([], l4 || HasProto([c]), tcp || OnlyTcp(Single(c)));
  }

  lemma TwoExact(c: Call, d: Call, l4: bool, tcp: bool)
    requires CallOk(c) && CallOk(d)
    ensures Exact([Single(c), Single(d)], l4, tcp) <==>
      CallExact(c, l4, tcp) && CallExact(d, l4 || c.Proto?, tcp || c == Proto(IPPROTO_TCP))
  {
    OneCallExact(c, l4, tcp);
    OneExact(d, l4 || c.Proto?, tcp || c == Proto(IPPROTO_TCP));
    hide CallsExact, CallExact;
    var items := [Single(c), Single(d)];
    assert items[1..] == [Single(d)] && c in Calls(items[0]) && Calls(items[0]) == [c];
  }

  lemma AndAll(b: nat)
    requires b < 256
    ensures And(b, 0xff) == b
  {
    assert Pow2(8) == 256 by { assert Pow2(4) == 16; }
    AndOnes(8, b);
  }

  lemma FlagsAgree(npc: Npc, flags: u8, fmask: u8)
    requires FlagsExact(flags, fmask)
    ensures FlagsTest(npc, flags, fmask) == FlagsVerdict(npc, flags, fmask)
  {
    var b := ByteAt(npc, npc.l4off, 13);
    if b.Some? && fmask == flags { AndAll(b.value); }
  }

  lemma {:induction false} AddressAgrees(npc: Npc, off: nat, addr: seq<u32>, length: nat)
    requires NoHostBits(addr, length)
    ensures AddressTest(npc, off, addr, length) == AddressVerdict(npc, off, addr, length)
    decreases |addr|
  {
    if addr != [] && length != 0 {
      AddressAgrees(npc, off + 4, addr[1..], length - if length >= 32 then 32 else length);
    }
  }

  /** A call of at most one counted test tests its criterion. */
  lemma OneTest(npc: Npc, c: Call, l4: bool, tcp: bool)
    requires CallOk(c) && CallExact(c, l4, tcp) && (tcp ==> npc.proto == IPPROTO_TCP) && CallBlocks(c) <= 1
    ensures CallTests(npc, c, l4) == if c.IpVer? then [] else [CallVerdict(npc, c)]
  {
    hide FlagsTest, FlagsVerdict, AddressTest, AddressVerdict, NoHostBits;
    if c.Cidr? {
      AddressAgrees(npc, AddrOffset(c.src, c.family), AddrWords(c.family, c.addr), MaskLength(c.family, c.mask));
    }
    if c.TcpFlags? { FlagsAgree(npc, c.flags, c.fmask); }
    if c.Icmp? { assert AllOf(CallTests(npc, c, l4)[1..]) == Yes; }
  }

  lemma SingleAgrees(npc: Npc, c: Call, l4: bool, tcp: bool)
    requires CallOk(c) && CallExact(c, l4, tcp) && (tcp ==> npc.proto == IPPROTO_TCP)
    ensures AllOf(CallTests(npc, c, l4)) == CallVerdict(npc, c)
  {
    if CallBlocks(c) <= 1 {
      OneTest(npc, c, l4, tcp);
      assert !c.IpVer? ==> AllOf([CallVerdict(npc, c)][1..]) == Yes;
    }
  }

  lemma {:induction false} GroupAgrees(npc: Npc, cs: seq<Call>, l4: bool, tcp: bool)
    requires (forall c :: c in cs ==> CallOk(c) && CallBlocks(c) <= 1)
    requires CallsExact(cs, l4, tcp) && (tcp ==> npc.proto == IPPROTO_TCP)
    ensures GroupTests(npc, cs, l4) == ChoiceVerdicts(npc, cs)
  {
    hide CallTests, CallVerdict;
    if cs != [] {
      OneTest(npc, cs[0], l4, tcp);
      GroupAgrees(npc, cs[1..], l4 || cs[0].Proto?, tcp);
    }
  }

  lemma {:induction false} DisciplinedBlocks(invert: bool, xset: bool, blocks: nat, cs: seq<Call>)
    requires Disciplined(invert, xset, blocks, cs)
    ensures forall c :: c in cs ==> CallBlocks(c) <= 1
    decreases |cs|
  {
    if cs != [] {
      DisciplinedBlocks(invert, xset || UsesX(cs[0]), blocks + CallBlocks(cs[0]), cs[1..]);
    }
  }

  lemma {:induction false} FewBlocks(cs: seq<Call>)
    ensures forall c :: c in cs ==> CallBlocks(c) <= Blocks(cs)
  {
    if cs != [] { FewBlocks(cs[1..]); }
  }

  lemma ItemAgrees(npc: Npc, item: Item, xset: bool, l4: bool, tcp: bool)
    requires ItemOk(item) && CallsExact(Calls(item), l4, tcp) && (tcp ==> npc.proto == IPPROTO_TCP)
    requires item.Alternatives? ==> GroupGood(xset, item.invert, item.calls)
    ensures ItemTest(npc, item, l4) == ItemVerdict(npc, item)
  {
    hide CallTests, CallVerdict, GroupTests, ChoiceVerdicts;
    match item
    case Single(c) => SingleAgrees(npc, c, l4, tcp);
    case Alternatives(invert, cs) =>
      if invert || Blocks(cs) >= 2 {
        DisciplinedBlocks(invert, xset, 0, cs);
      } else {
        FewBlocks(cs);
      }
      GroupAgrees(npc, cs, l4, tcp);
  }

  /** An item that lets only TCP packets through. */
  lemma TcpItem(npc: Npc, item: Item)
    requires ItemOk(item) && OnlyTcp(item) && ItemVerdict(npc, item).Yes?
    ensures npc.proto == IPPROTO_TCP
  {
    if item.Alternatives? && npc.proto != IPPROTO_TCP {
      TcpChoices(npc, item.calls);
    }
  }

  lemma {:induction false} TcpChoices(npc: Npc, cs: seq<Call>)
    requires (forall c :: c in cs ==> c == Proto(IPPROTO_TCP)) && npc.proto != IPPROTO_TCP
    ensures AnyOf(ChoiceVerdicts(npc, cs)) == No && (cs != [] ==> ChoiceVerdicts(npc, cs) != [])
  {
    if cs != [] {
      assert cs[0] in cs && forall c :: c in cs[1..] ==> c in cs;
      TcpChoices(npc, cs[1..]);
      assert ChoiceVerdicts(npc, cs)[1..] == ChoiceVerdicts(npc, cs[1..]);
    }
  }

  lemma {:induction false} TestsAgree(npc: Npc, g: Gen, items: seq<Item>, tcp: bool)
    requires GenOk(g) && (forall i :: i in items ==> ItemOk(i)) && Compilable(g, items) && Build(g, items).Some?
    requires g.group.None? && Exact(items, g.l4, tcp) && (tcp ==> npc.proto == IPPROTO_TCP)
    ensures TestsHold(npc, items, g.l4) <==> forall i :: i in items ==> ItemVerdict(npc, i).Yes?
    decreases |items|
  {
    hide ItemTest, ItemVerdict, BuildItem, CallsExact, OnlyTcp, HasProto;
    if items != [] {
      var item, h := items[0], BuildItem(g, items[0]).value;
      BuildItemKeepsOk(g, item);
      ItemAgrees(npc, item, g.xset, g.l4, tcp);
      ItemFlags(g, item);
      assert forall i :: i in items <==> i == item || i in items[1..];
      if ItemVerdict(npc, item).Yes? {
        if OnlyTcp(item) { TcpItem(npc, item); }
        TestsAgree(npc, h, items[1..], tcp || OnlyTcp(item));
      }
    }
  }

  /** What an item does to the flags of the generator. */
  lemma ItemFlags(g: Gen, item: Item)
    requires GenOk(g) && g.group.None? && ItemOk(item) && BuildItem(g, item).Some?
    ensures BuildItem(g, item).value.group.None? && BuildItem(g, item).value.l4 == (g.l4 || HasProto(Calls(item)))
  {
    hide Apply;
    match item
    case Single(c) =>
      ApplyKeepsOk(g, c);
      ApplyL4(g, c);
      assert c in Calls(item);
    case Alternatives(invert, cs) =>
      BuildKeepsOk(OpenGroup(g, invert), cs);
      CallsL4(OpenGroup(g, invert), cs);
  }

  lemma ApplyL4(g: Gen, c: Call)
    requires CallOk(c) && Apply(g, c).Some?
    ensures Apply(g, c).value.l4 == (g.l4 || c.Proto?)
  {
  }

  lemma {:induction false} CallsL4(g: Gen, cs: seq<Call>)
    requires (forall c :: c in cs ==> CallOk(c)) && BuildCalls(g, cs).Some?
    ensures BuildCalls(g, cs).value.l4 == (g.l4 || HasProto(cs))
    decreases |cs|
  {
    hide Apply;
    if cs != [] {
      ApplyL4(g, cs[0]);
      CallsL4(Apply(g, cs[0]).value, cs[1..]);
      assert cs == [cs[0]] + cs[1..];
    }
  }

  // ----- compiler correctness ----------------------------------------------------------------

  /** The program of a rule that compiles. */
  function Program(items: seq<Item>): seq<Insn>
    requires (forall i :: i in items ==> ItemOk(i)) && Compiles(items)
  {
    CompleteCode(PiecesCode(Build(EMPTY, items).value.pieces))
  }

  predicate Compiles(items: seq<Item>)
    requires forall i :: i in items ==> ItemOk(i)
  {
    Build(EMPTY, items).Some? && |PiecesCode(Build(EMPTY, items).value.pieces)| < MAGIC
  }

  function Filtered(npc: Npc, items: seq<Item>): Outcome
    requires |npc.pkt| < W32 && (forall i :: i in items ==> ItemOk(i)) && Compiles(items)
  {
    FilterOutcome(NpfEnv(npc), Program(items), Prepared(npc))
  }

  /**
    * A rule whose calls respect the emitters' assertions, whose groups are good, whose networks and flags
    * are exact and that compiles without a generation error yields a program that, run on any packet,
    * returns success exactly when the rule matches the packet, and failure otherwise.
    */
  lemma CompilerCorrect(npc: Npc, items: seq<Item>)
    requires |npc.pkt| < W32 && (forall i :: i in items ==> ItemOk(i)) && Compiles(items)
    requires Compilable(EMPTY, items) && Exact(items, false, false)
    ensures Filtered(npc, items) == Value(if RuleMatches(npc, items) then MAX32 else 0)
  {
    hide FilterOutcome, CompleteCode, PiecesCode, TestsHold, VersionHolds, Exact, Compilable, ItemVerdict;
    ProgramTests(npc, items);
    TestsAgree(npc, EMPTY, items, false);
  }
}
