/**
  * Filters as they are written in npf.conf, and the packets they are meant for, said from the fields of the
  * packet's headers.
  */
module Filters {
  import opened Words
  import opened BpfCode
  import opened RuleCompiler

  /** A network, perhaps taken from an interface, or a table. */
  datatype Address = Net(family: Af, addr: seq<u32>, mask: u8, ifnet: bool) | Tab(tid: u32)

  datatype Options = NoOptions | FlagOptions(flags: u8, fmask: u8) | IcmpOptions(itype: Option<u32>, icode: Option<u32>)

  datatype Protocol = Protocol(proto: u32, options: Options)

  datatype Filter = Filter(family: Af, protos: seq<Protocol>, stateful: bool,
                           from: seq<Address>, notFrom: bool, to: seq<Address>, notTo: bool,
                           sports: seq<(u16, u16)>, dports: seq<(u16, u16)>)

  // ----- packets -----------------------------------------------------------------------------

  /** The fields of a packet: version (0 if it is no IP packet), addresses, protocol and what follows the headers. */
  datatype Header = Header(version: u32, src: seq<u8>, dst: seq<u8>, proto: u32, payload: seq<u8>)

  /** A packet with these fields: an IPv4 header has its addresses behind 12 bytes, an IPv6 header behind 8. */
  predicate IsPacket(npc: Npc, h: Header) {
    && |npc.pkt| < W32 && npc.ipver == h.version && npc.proto == h.proto
    && (h.version == 4 ==>
          |h.src| == 4 && |h.dst| == 4 && |npc.pkt| >= 20 && npc.pkt[12..16] == h.src && npc.pkt[16..20] == h.dst)
    && (h.version == 6 ==>
          |h.src| == 16 && |h.dst| == 16 && |npc.pkt| >= 40 && npc.pkt[8..24] == h.src && npc.pkt[24..40] == h.dst)
    && h.payload == if npc.l4off <= |npc.pkt| then npc.pkt[npc.l4off..] else []
  }

  // ----- addresses ---------------------------------------------------------------------------

  /** The number that 32-bit words stand for, the first one the highest. */
  function Number(ws: seq<u32>): nat {
    if ws == [] then 0 else ws[0] * Pow2(32 * (|ws| - 1)) + Number(ws[1..])
  }

  /** Two numbers of some width have the same first `len` bits, or are equal when there are not that many. */
  predicate SameLeadingBits(a: nat, b: nat, width: nat, len: nat) {
    var rest := if len >= width then 0 else width - len;
    a / Pow2(rest) == b / Pow2(rest)
  }

  /** An address of a packet is in a network of its version, or found in a table. */
  predicate Contains(a: Address, version: u32, address: seq<u8>, src: bool, lookup: (bool, u32) -> bool)
    requires a.Net? ==> |a.addr| == 4
  {
    match a
    case Tab(tid) => lookup(src, tid)
    case Net(Inet, addr, mask, _) => version == 4 && SameLeadingBits(BigEndian(address), addr[0], 32, mask)
    case Net(Inet6, addr, mask, _) => version == 6 && SameLeadingBits(BigEndian(address), Number(addr), 128, mask)
    case Net(Unspec, _, _, _) => false
  }

  predicate ListMatches(list: seq<Address>, invert: bool, version: u32, address: seq<u8>, src: bool,
                        lookup: (bool, u32) -> bool)
    requires forall a :: a in list && a.Net? ==> |a.addr| == 4
  {
    list == [] || (invert != exists a :: a in list && Contains(a, version, address, src, lookup))
  }

  predicate IsVersion(version: u32, family: Af) {
    (family == Inet ==> version == 4) && (family == Inet6 ==> version == 6)
  }

  // ----- protocols and ports -----------------------------------------------------------------

  /** The TCP flags under a mask, in byte 13 of the TCP header. */
  predicate FlagsMatch(payload: seq<u8>, flags: u8, fmask: u8) {
    |payload| > 13 && And(payload[13], fmask) == flags
  }

  /** The type is the first byte of an ICMP message, the code the second. */
  predicate IcmpMatches(payload: seq<u8>, itype: Option<u32>, icode: Option<u32>) {
    && (itype.Some? ==> |payload| > 0 && payload[0] == itype.value)
    && (icode.Some? ==> |payload| > 1 && payload[1] == icode.value)
  }

  /** Flags are options of TCP, types and codes of ICMP and ICMPv6. */
  predicate Asks(p: Protocol) {
    (p.options.FlagOptions? && p.proto == 6) || (p.options.IcmpOptions? && (p.proto == 1 || p.proto == 58))
  }

  predicate ProtocolMatches(p: Protocol, h: Header) {
    h.proto == p.proto &&
    (Asks(p) ==>
       if p.options.FlagOptions? then FlagsMatch(h.payload, p.options.flags, p.options.fmask)
       else IcmpMatches(h.payload, p.options.itype, p.options.icode))
  }

  /** A port of the packet is in one of the ranges. */
  predicate PortMatches(ranges: seq<(u16, u16)>, payload: seq<u8>, at: nat) {
    ranges == [] ||
    (at + 2 <= |payload| && exists r :: r in ranges && r.0 <= BigEndian(payload[at..at + 2]) <= r.1)
  }

  // ----- filters -----------------------------------------------------------------------------

  /** A stateful filter takes only the first packet of a TCP connection, unless it asks for flags itself. */
  predicate SynOnly(f: Filter) {
    f.stateful && (f.protos == [] || Protocol(6, NoOptions) in f.protos)
  }

  /** Filters on ports, options or state are about IP packets. */
  predicate LooksInside(f: Filter) {
    f.sports != [] || f.dports != [] || SynOnly(f) || exists p :: p in f.protos && Asks(p)
  }

  /** A filter of no given family that names networks is about their IP version. */
  predicate VersionMatches(f: Filter, version: u32) {
    && IsVersion(version, f.family)
    && (f.family == Unspec ==> forall a :: a in f.from + f.to && a.Net? ==> IsVersion(version, a.family))
    && (LooksInside(f) ==> version != 0)
  }

  /** The packets a filter is meant for; `lookup` says which of its two addresses are in which tables. */
  predicate FilterMatches(f: Filter, h: Header, lookup: (bool, u32) -> bool)
    requires forall a :: a in f.from + f.to && a.Net? ==> |a.addr| == 4
  {
    && VersionMatches(f, h.version)
    && (f.protos == [] || exists p :: p in f.protos && ProtocolMatches(p, h))
    && (SynOnly(f) && h.proto == 6 ==> FlagsMatch(h.payload, 0x02, 0x17))
    && (assert forall a :: a in f.from ==> a in f.from + f.to;
        ListMatches(f.from, f.notFrom, h.version, h.src, true, lookup))
    && (assert forall a :: a in f.to ==> a in f.from + f.to;
        ListMatches(f.to, f.notTo, h.version, h.dst, false, lookup))
    && ((f.sports != [] || f.dports != []) && f.protos == [] ==> h.proto == 6 || h.proto == 17)
    && PortMatches(f.sports, h.payload, 0)
    && PortMatches(f.dports, h.payload, 2)
  }
}
