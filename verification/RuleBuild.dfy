/** Compiling a whole rule with the generator object, as npfctl_build_code does call by call. */
module RuleBuild {
  import opened Words
  import opened BpfMachine
  import opened BpfCode
  import opened BpfMeaning
  import opened BpfValidator
  import opened BpfAccept
  import opened RuleCompiler
  import opened RuleCriteria
  import opened RuleTests
  import opened RuleMeaning

  method EmitCall(rc: RuleCode, c: Call) returns (ok: bool)
    requires rc.Valid() && Settled(rc.gen) && CallOk(c) && CallFits(rc.gen, c)
    modifies rc
    ensures ok <==> Apply(old(rc.gen), c).Some?
    ensures ok ==> rc.Valid() && Settled(rc.gen) && rc.gen == Apply(old(rc.gen), c).value
  {
    hide CallElems, PiecesCode, ElemsCode, FetchL3;
    match c
    case IpVer(family) => ok := rc.IpVersionBlock(family);
    case Proto(proto) => rc.ProtoBlock(proto); ok := true;
    case Cidr(src, family, addr, mask) => ok := rc.CidrBlock(src, family, addr, mask);
    case Ports(src, from, to) => ok := rc.PortsBlock(src, from, to);
    case TcpFlags(flags, fmask) => ok := rc.TcpFlagsBlock(flags, fmask);
    case Icmp(itype, icode) => ok := rc.IcmpBlock(itype, icode);
    case Table(src, tid) => rc.TableBlock(src, tid); ok := true;
  }

  method EmitCalls(rc: RuleCode, cs: seq<Call>) returns (ok: bool)
    requires rc.Valid() && Settled(rc.gen) && (forall c :: c in cs ==> CallOk(c)) && CallsFit(rc.gen, cs)
    modifies rc
    ensures ok <==> BuildCalls(old(rc.gen), cs).Some?
    ensures ok ==> rc.Valid() && Settled(rc.gen) && rc.gen == BuildCalls(old(rc.gen), cs).value
  {
    hide Apply, PiecesCode, ElemsCode;
    ghost var g := rc.gen;
    var i := 0;
    while i < |cs|
      invariant 0 <= i <= |cs| && rc.Valid() && Settled(rc.gen)
      invariant CallsFit(rc.gen, cs[i..]) && BuildCalls(rc.gen, cs[i..]) == BuildCalls(g, cs)
    {
      assert cs[i..][0] == cs[i] && cs[i..][1..] == cs[i + 1..];
      ok := EmitCall(rc, cs[i]);
      if !ok {
        return;
      }
      i := i + 1;
    }
    ok := true;
  }

  method EmitItem(rc: RuleCode, item: Item) returns (ok: bool)
    requires rc.Valid() && rc.gen.group.None? && ItemOk(item) && Callable(rc.gen, [item])
    modifies rc
    ensures ok <==> BuildItem(old(rc.gen), item).Some?
    ensures ok ==> rc.Valid() && rc.gen.group.None? && rc.gen == BuildItem(old(rc.gen), item).value
  {
    hide Apply, BuildCalls, CallsFit, PiecesCode, ElemsCode;
    match item
    case Single(c) =>
      ghost var g := rc.gen;
      ok := EmitCall(rc, c);
      if ok {
        ApplyKeepsOk(g, c);
      }
    case Alternatives(invert, cs) =>
      rc.GroupEnter(invert);
      ghost var o := rc.gen;
      ok := EmitCalls(rc, cs);
      if ok {
        BuildKeepsOk(o, cs);
        ok := rc.GroupExit();
      }
  }

  /** The whole compilation gives the program of the rule, which the kernel's validator accepts. */
  method CompileCode(items: seq<Item>) returns (ok: bool, code: seq<Insn>)
    requires (forall i :: i in items ==> ItemOk(i)) && Callable(EMPTY, items)
    ensures ok <==> Compiles(items)
    ensures ok ==> code == Program(items)
    ensures ok && code != [] ==> Acceptable(NpfCtx(), code) && AllPatched(code)
  {
    hide BuildItem, PiecesCode, CompleteCode, Acceptable, AllPatched;
    var rc := new RuleCode();
    var i := 0;
    while i < |items|
      invariant 0 <= i <= |items| && rc.Valid() && rc.gen.group.None? && fresh(rc)
      invariant Callable(rc.gen, items[i..]) && Build(rc.gen, items[i..]) == Build(EMPTY, items)
    {
      ghost var g := rc.gen;
      assert items[i..][0] == items[i] && items[i..][1..] == items[i + 1..];
      FirstCallable(g, items[i..]);
      ok := EmitItem(rc, items[i]);
      if !ok {
        return false, [];
      }
      BuildItemKeepsOk(g, items[i]);
      i := i + 1;
    }
    ghost var ps := rc.gen.pieces;
    ok, code := rc.Complete();
    if ok {
      if PiecesCode(ps) != [] {
        CompletedIsAcceptable(ps);
      } else {
        NoCode();
      }
    }
  }

  /** A program accepts a packet exactly when a rule matches it. */
  predicate RightOn(npc: Npc, items: seq<Item>, code: seq<Insn>)
    requires |npc.pkt| < W32 && forall i :: i in items ==> ItemOk(i)
  {
    FilterOutcome(NpfEnv(npc), code, Prepared(npc)) == Value(if RuleMatches(npc, items) then MAX32 else 0)
  }

  /** The returned program accepts exactly the packets the rule matches. */
  method CompileRule(items: seq<Item>) returns (ok: bool, code: seq<Insn>)
    requires (forall i :: i in items ==> ItemOk(i)) && Compilable(EMPTY, items) && Exact(items, false, false)
    ensures ok <==> Compiles(items)
    ensures ok ==> forall npc: Npc :: |npc.pkt| < W32 ==> RightOn(npc, items, code)
    ensures ok && code != [] ==> Acceptable(NpfCtx(), code) && AllPatched(code)
  {
    hide Build, FilterOutcome, RuleMatches, Acceptable, AllPatched, Exact, Compilable, Compiles, Program;
    CompilableIsCallable(EMPTY, items);
    ok, code := CompileCode(items);
    if ok {
      forall npc: Npc | |npc.pkt| < W32
        ensures RightOn(npc, items, code)
      {
        CompilerCorrect(npc, items);
      }
    }
  }

  lemma NoCode()
    ensures CompleteCode([]) == []
  {
  }
}
