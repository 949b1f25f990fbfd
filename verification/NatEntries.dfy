/** NAT entries (src/kern/npf_nat.c): what they are made from and what they do to packets. */
module NatEntries {
  import opened ConnKeys

  const TCP: bv32 := 6
  const UDP: bv32 := 17

  /** Packet directions, which are also the NAT types. */
  const IN: bv32 := 1
  const OUT: bv32 := 2

  /** A packet as the connections and NAT see it: its tuple, its interface and its direction. */
  datatype Packet = Packet(tuple: Tuple, ifid: bv32, di: bv32)

  predicate PacketOk(q: Packet) {
    TupleOk(q.tuple) && PlaceOk(q.ifid, q.di) && q.ifid != 0 && (q.di == IN || q.di == OUT)
  }

  function PacketKey(p: Params, q: Packet): seq<bv32> {
    KeyOf(p, q.tuple, q.ifid, q.di)
  }

  datatype NatEntry =
    NatEntry(ntype: bv32, ifid: bv32, taddr: seq<bv32>, tport: bv32, oaddr: seq<bv32>, oport: bv32)

  /** npf_nat_which: whether the destination is the end to rewrite. */
  predicate RewritesDst(ntype: bv32, back: bool) {
    if ntype == OUT then back else !back
  }

  /** npf_nat_create for a policy with or without port translation, of the type of the packet's direction. */
  function Create(q: Packet, ports: bool, taddr: seq<bv32>, tport: bv32): NatEntry {
    var t := q.tuple;
    var oaddr := if q.di == OUT then t.src else t.dst;
    if !ports || (t.proto != TCP && t.proto != UDP) then NatEntry(q.di, q.ifid, taddr, 0, oaddr, 0)
    else NatEntry(q.di, q.ifid, taddr, tport, oaddr, if q.di == OUT then t.sport else t.dport)
  }

  /** npf_dnat_translate: what happens to the addresses and ports of a packet. */
  function Translate(nt: NatEntry, t: Tuple, back: bool): Tuple {
    Rewritten(t, RewritesDst(nt.ntype, back), if back then nt.oaddr else nt.taddr, if back then nt.oport else nt.tport)
  }

  /** The answer to a packet after its translation, as it comes back to the interface of the NAT policy. */
  function Reply(nt: NatEntry, t: Tuple): Packet {
    Packet(Mirror(Translate(nt, t, false)), nt.ifid, nt.ntype ^ 3)
  }

  /** The backwards key that npf_conn_establish makes for the connection of a packet. */
  function MirrorKey(p: Params, q: Packet): seq<bv32> {
    KeyOf(p, Mirror(q.tuple), q.ifid, q.di ^ 3)
  }

  /** npf_conn_setnat: the backwards key with the translation put in. */
  function WithNat(bk: seq<bv32>, nt: NatEntry): seq<bv32> {
    if |bk| < 2 + 2 * |nt.taddr| then bk else Adjusted(bk, nt.taddr, nt.tport, nt.ntype == OUT)
  }

  lemma OtherDirection(di: bv32)
    requires di == IN || di == OUT
    ensures di ^ 3 != di && (di ^ 3 == IN || di ^ 3 == OUT) && (di ^ 3) ^ 3 == di
  {
  }

  /**
   * An entry that belongs to the connection of a packet: made from a packet of the same tuple, and on
   * the same interface or in the same direction where those are part of the keys.
   */
  predicate EntryOf(p: Params, q: Packet, nt: NatEntry) {
    && (nt.ntype == IN || nt.ntype == OUT) && nt.ifid < 0x40000 && nt.ifid != 0
    && |nt.taddr| == |q.tuple.src| && nt.tport < 0x10000
    && nt.oaddr == (if nt.ntype == OUT then q.tuple.src else q.tuple.dst)
    && (nt.oport == (if nt.ntype == OUT then q.tuple.sport else q.tuple.dport) || (nt.oport == 0 && nt.tport == 0))
    && (p.useInterface ==> nt.ifid == q.ifid) && (p.useDirection ==> nt.ntype == q.di)
  }

  /** What is made from a packet with the forwards key of a connection belongs to the connection. */
  lemma CreatedEntry(p: Params, q: Packet, q': Packet, ports: bool, taddr: seq<bv32>, tport: bv32)
    requires PacketOk(q) && PacketOk(q') && PacketKey(p, q') == PacketKey(p, q)
    requires |taddr| == |q'.tuple.src| && tport < 0x10000
    ensures q'.tuple == q.tuple && EntryOf(p, q, Create(q', ports, taddr, tport))
  {
    hide KeyOf;
    KeyInjective(p, q.tuple, q.ifid, q.di, q'.tuple, q'.ifid, q'.di);
  }

  /** The adjusted backwards key is the key of the reply to the translated packet. */
  lemma BackKeyOfReply(p: Params, q: Packet, nt: NatEntry)
    requires PacketOk(q) && EntryOf(p, q, nt)
    ensures PacketOk(Reply(nt, q.tuple))
    ensures WithNat(MirrorKey(p, q), nt) == PacketKey(p, Reply(nt, q.tuple))
  {
    OtherDirection(nt.ntype);
    KeyPlace(p, Mirror(Translate(nt, q.tuple, false)), q.ifid, q.di ^ 3, nt.ifid, nt.ntype ^ 3);
    AdjustedIsKey(p, Mirror(q.tuple), q.ifid, q.di ^ 3, nt.taddr, nt.tport, nt.ntype == OUT);
    assert Rewritten(Mirror(q.tuple), nt.ntype == OUT, nt.taddr, nt.tport) == Mirror(Translate(nt, q.tuple, false));
  }

  /** The interface and the direction matter only as far as they are part of the key. */
  lemma KeyPlace(p: Params, t: Tuple, ifid: bv32, di: bv32, ifid': bv32, di': bv32)
    requires (p.useInterface ==> ifid == ifid') && (p.useDirection ==> di == di')
    ensures KeyOf(p, t, ifid, di) == KeyOf(p, t, ifid', di')
  {
  }

  /** A packet from port zero that is given a port: zero later means that nothing is to be rewritten. */
  predicate PortLost(nt: NatEntry) {
    nt.oport == 0 && nt.tport != 0
  }

  /** The reply to a translated packet is rewritten to the exact mirror of the original, unless its port is lost. */
  lemma ReplyRestored(p: Params, q: Packet, nt: NatEntry)
    requires PacketOk(q) && EntryOf(p, q, nt)
    ensures Translate(nt, Reply(nt, q.tuple).tuple, true) == Mirror(q.tuple) <==> !PortLost(nt)
  {
  }

  /**
   * Outbound NAT shows the translation address as the source of a packet and takes it as the destination of
   * the reply, inbound NAT the other way round; the other end is left alone both ways.
   */
  lemma EndsRewritten(p: Params, q: Packet, nt: NatEntry)
    requires PacketOk(q) && EntryOf(p, q, nt)
    ensures var t, out, reply := q.tuple, Translate(nt, q.tuple, false), Reply(nt, q.tuple).tuple;
      var back := Translate(nt, reply, true);
      && out.proto == reply.proto == back.proto == t.proto
      && (nt.ntype == OUT ==>
            out.src == nt.taddr == reply.dst && back.dst == t.src &&
            out.dst == reply.src == back.src == t.dst && out.dport == reply.sport == back.sport == t.dport)
      && (nt.ntype == IN ==>
            out.dst == nt.taddr == reply.src && back.src == t.dst &&
            out.src == reply.dst == back.dst == t.src && out.sport == reply.dport == back.dport == t.sport)
  {
  }

  /** A concrete packet whose port is lost. */
  lemma PortZeroIsNotRestored()
    ensures var t := Tuple([1], [2], 0, 80, UDP);
      var nt := Create(Packet(t, 1, OUT), true, [3], 5000);
      Translate(nt, Reply(nt, t).tuple, true) == Tuple([2], [1], 80, 5000, UDP) != Mirror(t)
  {
  }

  /**
   * npf_conn_setnat takes the packet for a forwards one. When the entry is made from a backwards packet
   * of the connection instead, the adjusted key is the key of its reply only for a connection whose two
   * ends are the same, with keys that leave the direction out.
   */
  lemma BackwardsNatExactly(p: Params, q: Packet, ports: bool, taddr: seq<bv32>, tport: bv32)
    requires PacketOk(q) && |taddr| == |q.tuple.src| && tport < 0x10000
    ensures var back := Packet(Mirror(q.tuple), q.ifid, q.di ^ 3);
      var nt := Create(back, ports, taddr, tport);
      var key := PacketKey(p, Reply(nt, back.tuple));
      WithNat(MirrorKey(p, q), nt) == key <==> q.tuple == Mirror(q.tuple) && !p.useDirection
  {
    hide KeyOf, WithNat;
    OtherDirection(q.di);
    var back := Packet(Mirror(q.tuple), q.ifid, q.di ^ 3);
    var nt := Create(back, ports, taddr, tport);
    var a, b := Rewritten(back.tuple, nt.ntype == OUT, taddr, nt.tport), Reply(nt, back.tuple).tuple;
    BackwardsKey(p, back, nt);
    SameEnds(q.tuple, nt);
    RewrittenOk(back.tuple, nt.ntype == OUT, taddr, nt.tport);
    RewrittenOk(back.tuple, RewritesDst(nt.ntype, false), taddr, nt.tport);
    hide Create, Rewritten;
    KeysAgree(p, a, b, q.ifid, q.di ^ 3, q.di);
  }

  lemma KeysAgree(p: Params, a: Tuple, b: Tuple, ifid: bv32, di: bv32, di': bv32)
    requires TupleOk(a) && TupleOk(b) && PlaceOk(ifid, di) && PlaceOk(ifid, di') && di != di'
    ensures (KeyOf(p, a, ifid, di) == KeyOf(p, b, ifid, di')) <==> (a == b && !p.useDirection)
  {
    hide KeyOf;
    if KeyOf(p, a, ifid, di) == KeyOf(p, b, ifid, di') {
      KeyInjective(p, a, ifid, di, b, ifid, di');
    } else if !p.useDirection {
      KeyPlace(p, a, ifid, di, ifid, di');
    }
  }

  lemma SameEnds(t: Tuple, nt: NatEntry)
    requires nt.ntype == IN || nt.ntype == OUT
    ensures var t' := Rewritten(Mirror(t), nt.ntype == OUT, nt.taddr, nt.tport);
      t' == Mirror(Translate(nt, Mirror(t), false)) <==> t == Mirror(t)
  {
  }

  lemma RewrittenOk(t: Tuple, dst: bool, addr: seq<bv32>, port: bv32)
    requires TupleOk(t) && |addr| == |t.src| && port < 0x10000
    ensures TupleOk(Rewritten(t, dst, addr, port)) && TupleOk(Mirror(Rewritten(t, dst, addr, port)))
  {
  }

  lemma BackwardsKey(p: Params, back: Packet, nt: NatEntry)
    requires TupleOk(back.tuple) && |nt.taddr| == |back.tuple.src| && nt.tport < 0x10000
    ensures WithNat(PacketKey(p, back), nt)
      == KeyOf(p, Rewritten(back.tuple, nt.ntype == OUT, nt.taddr, nt.tport), back.ifid, back.di)
  {
    AdjustedIsKey(p, back.tuple, back.ifid, back.di, nt.taddr, nt.tport, nt.ntype == OUT);
  }
}
