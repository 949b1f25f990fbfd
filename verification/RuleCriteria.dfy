/** What the rules of npfctl ask of a packet (src/npfctl/npf_bpf_comp.c), without jumps, registers or code. */
module RuleCriteria {
  import opened Words
  import opened BpfMachine
  import opened BpfCode
  import opened BpfMeaning
  import opened RuleCompiler

  /** A rule: single criteria and groups, all of which have to hold. */
  datatype Item = Single(call: Call) | Alternatives(invert: bool, calls: seq<Call>)

  /** In order, the first verdict other than Yes; in order, the first verdict other than No. */
  function AllOf(vs: seq<Verdict>): Verdict {
    if vs == [] then Yes else if vs[0].Yes? then AllOf(vs[1..]) else vs[0]
  }

  function AnyOf(vs: seq<Verdict>): Verdict {
    if vs == [] then No else if vs[0].No? then AnyOf(vs[1..]) else vs[0]
  }

  function Negate(v: Verdict): Verdict {
    match v
    case Yes => No
    case No => Yes
    case Short => Short
  }

  /** Two words have the same leading bits. */
  predicate PrefixAgrees(v: u32, len: nat, word: u32)
    requires 1 <= len <= 32
  {
    v / Pow2(32 - len) == word / Pow2(32 - len)
  }

  /** The leading `length` bits of the address at `off` agree with `addr`, word by word. */
  function AddressVerdict(npc: Npc, off: nat, addr: seq<u32>, length: nat): Verdict
    decreases |addr|
  {
    if addr == [] || length == 0 then Yes
    else
      var v := LoadWord(npc.pkt, off);
      var n := if length >= 32 then 32 else length;
      if v.None? then Short
      else if !PrefixAgrees(v.value, n, addr[0]) then No
      else AddressVerdict(npc, off + 4, addr[1..], length - n)
  }

  function PortVerdict(npc: Npc, src: bool, from: u16, to: u16): Verdict {
    var port := HalfAt(npc, npc.l4off, if src then 0 else 2);
    if port.None? then Short else Decide(from <= port.value <= to)
  }

  function ByteVerdict(npc: Npc, off: u16, value: u32): Verdict {
    var b := ByteAt(npc, npc.l4off, off);
    if b.None? then Short else Decide(b.value == value)
  }

  /** Of the TCP flags under the mask exactly the given ones are set. */
  function FlagsVerdict(npc: Npc, flags: u8, fmask: u8): Verdict {
    var b := ByteAt(npc, npc.l4off, 13);
    if b.None? then Short else Decide(And(b.value, fmask) == flags)
  }

  /** One criterion: an ICMP criterion wants both its parts, and TCP flags say nothing of other protocols. */
  function CallVerdict(npc: Npc, c: Call): Verdict
    requires CallOk(c)
  {
    match c
    case IpVer(_) => Yes
    case Proto(proto) => Decide(npc.proto == proto)
    case Cidr(src, af, addr, mask) =>
      AddressVerdict(npc, AddrOffset(src, af), AddrWords(af, addr), MaskLength(af, mask))
    case Ports(src, from, to) => PortVerdict(npc, src, from, to)
    case TcpFlags(flags, fmask) => if npc.proto != IPPROTO_TCP then Yes else FlagsVerdict(npc, flags, fmask)
    case Icmp(itype, icode) =>
      AllOf((if itype.Some? then [ByteVerdict(npc, 0, itype.value)] else []) +
            (if icode.Some? then [ByteVerdict(npc, 1, icode.value)] else []))
    case Table(src, tid) => Decide(npc.lookup(src, tid))
  }

  /** The criteria of a group, except those on the IP version alone, which are not choices. */
  function ChoiceVerdicts(npc: Npc, cs: seq<Call>): seq<Verdict>
    requires forall c :: c in cs ==> CallOk(c)
  {
    if cs == [] then []
    else (if cs[0].IpVer? then [] else [CallVerdict(npc, cs[0])]) + ChoiceVerdicts(npc, cs[1..])
  }

  predicate ItemOk(item: Item) {
    match item
    case Single(c) => CallOk(c)
    case Alternatives(_, cs) => forall c :: c in cs ==> CallOk(c)
  }

  /** A group wants one of its criteria, an inverted group none, and an empty group nothing. */
  function ItemVerdict(npc: Npc, item: Item): Verdict
    requires ItemOk(item)
  {
    match item
    case Single(c) => CallVerdict(npc, c)
    case Alternatives(invert, cs) =>
      var vs := ChoiceVerdicts(npc, cs);
      if vs == [] then Yes else if invert then Negate(AnyOf(vs)) else AnyOf(vs)
  }

  function Calls(item: Item): seq<Call> {
    match item
    case Single(c) => [c]
    case Alternatives(_, cs) => cs
  }

  /** The IP version every layer 3 criterion of the rule asks for. */
  predicate VersionHolds(npc: Npc, items: seq<Item>) {
    forall i, c :: i in items && c in Calls(i) ==> CallVersionHolds(npc, c)
  }

  predicate CallVersionHolds(npc: Npc, c: Call) {
    (UsesL3(c) ==> npc.ipver != 0) && (Family(c) != Unspec ==> npc.ipver == Version(Family(c)))
  }

  predicate RuleMatches(npc: Npc, items: seq<Item>)
    requires forall i :: i in items ==> ItemOk(i)
  {
    VersionHolds(npc, items) && forall i :: i in items ==> ItemVerdict(npc, i).Yes?
  }
}
