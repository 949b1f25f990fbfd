/** Rewriting packets in place with their checksums (src/kern/npf_inet.c, src/kern/npf_alg_icmp.c). */
module Napt {
  import opened Words
  import opened Checksum
  import opened ConnKeys
  import opened NatEntries

  datatype Proto = Tcp | Udp | Icmp | Other

  /** The protocol numbers, of ICMP for both versions of IP. */
  function ProtoOf(proto: bv32): Proto {
    if proto == TCP then Tcp else if proto == UDP then Udp else if proto == 1 || proto == 58 then Icmp else Other
  }

  /** The words of an address as numbers. */
  function AddrWords(a: seq<bv32>): (w: seq<nat>)
    ensures |w| == |a| && WordsOk(w)
  {
    seq(|a|, i requires 0 <= i < |a| => a[i] as nat)
  }

  /**
   * The headers of a packet. The constants stand for everything else that a checksum covers: the rest
   * of the IPv4 header, and the rest of the pseudo-header, of the TCP or UDP header and of the data.
   */
  class Headers {
    const v4: bool
    const proto: Proto
    const ipRest: nat
    const l4Rest: nat
    var src: seq<nat>
    var dst: seq<nat>
    var sport: nat
    var dport: nat
    var ipSum: nat
    var l4Sum: nat

    constructor (v4: bool, proto: Proto, ipRest: nat, l4Rest: nat, src: seq<nat>, dst: seq<nat>,
                 sport: nat, dport: nat, ipSum: nat, l4Sum: nat)
      ensures this.v4 == v4 && this.proto == proto && this.ipRest == ipRest && this.l4Rest == l4Rest
      ensures this.src == src && this.dst == dst && this.sport == sport && this.dport == dport
      ensures this.ipSum == ipSum && this.l4Sum == l4Sum
    {
      this.v4, this.proto, this.ipRest, this.l4Rest := v4, proto, ipRest, l4Rest;
      this.src, this.dst, this.sport, this.dport := src, dst, sport, dport;
      this.ipSum, this.l4Sum := ipSum, l4Sum;
    }

    ghost predicate Valid()
      reads this
    {
      && |src| == |dst| > 0 && WordsOk(src) && WordsOk(dst)
      && sport <= ONES && dport <= ONES && ipSum <= ONES && l4Sum <= ONES
    }

    function IpTotal(): nat
      reads this
    {
      SumWords(src) + SumWords(dst) + ipRest
    }

    function L4Total(): nat
      reads this
    {
      SumWords(src) + SumWords(dst) + sport + dport + l4Rest
    }

    /** The address to rewrite, and the port that a new one replaces. */
    function End(which: bool): seq<nat>
      reads this
    {
      if which then dst else src
    }

    function Replaceable(which: bool, port: nat): nat
      reads this
    {
      if port == 0 then 0 else if which then dport else sport
    }

    /** Whether the packet carries a checksum of its ports and data. */
    predicate HasL4Sum()
      reads this
    {
      proto.Tcp? || (proto.Udp? && l4Sum != 0)
    }

    predicate HasPorts() { proto.Tcp? || proto.Udp? }

    /** npf_rwrcksum: bring the checksums up to date before the rewrite. */
    method RwrCksum(which: bool, addr: seq<nat>, port: nat)
      requires Valid() && |addr| == |src| && WordsOk(addr) && port <= ONES
      modifies this`ipSum, this`l4Sum
      ensures Valid()
      ensures v4 ==>
        && Updates(old(ipSum), ipSum, SumWords(End(which)), SumWords(addr))
        && (ipSum == ONES <==> old(ipSum) == ONES && OnesToZeros(End(which), addr))
      ensures !v4 ==> ipSum == old(ipSum)
      ensures old(HasL4Sum()) ==>
        && Updates(old(l4Sum), l4Sum, SumWords(End(which)) + Replaceable(which, port), SumWords(addr) + port)
        && (l4Sum == ONES <==> old(l4Sum) == ONES && port == 0 && OnesToZeros(End(which), addr))
      ensures !old(HasL4Sum()) ==> l4Sum == old(l4Sum)
    {
      hide Updates, SumWords, Fixup16, WordsOk, OnesToZeros;
      var oaddr := if which then dst else src;
      if v4 {
        ipSum := AddrCksum(ipSum, oaddr, addr);
      }
      if !HasL4Sum() {
        return;
      }
      var oport := if which then dport else sport;
      var cksum := AddrCksum(l4Sum, oaddr, addr);
      if port != 0 {
        UpdatesMore16(l4Sum, cksum, SumWords(oaddr), SumWords(addr), oport, port);
        OnesStay16(cksum, oport, port);
        cksum := Fixup16(cksum, oport, port);
      }
      l4Sum := cksum;
    }

    /** npf_napt_rwr: the checksums first, then the address, then the port unless it is zero. */
    method NaptRwr(which: bool, addr: seq<nat>, port: nat) returns (ok: bool)
      requires Valid() && |addr| == |src| && WordsOk(addr) && port <= ONES
      modifies this
      ensures Valid()
      ensures ok <==> port == 0 || HasPorts() || proto.Icmp?
      ensures if which then dst == addr && src == old(src) else src == addr && dst == old(dst)
      ensures sport == (if !which && port != 0 && HasPorts() then port else old(sport))
      ensures dport == (if which && port != 0 && HasPorts() then port else old(dport))
      ensures v4 ==>
        && Kept(old(ipSum), old(IpTotal()), ipSum, IpTotal())
        && (ipSum == ONES <==> old(ipSum) == ONES && OnesToZeros(old(End(which)), addr))
      ensures !v4 ==> ipSum == old(ipSum)
      ensures old(HasL4Sum()) ==>
        && Kept(old(l4Sum), old(L4Total()), l4Sum, L4Total())
        && (l4Sum == ONES <==> old(l4Sum) == ONES && port == 0 && OnesToZeros(old(End(which)), addr))
      ensures !old(HasL4Sum()) ==> l4Sum == old(l4Sum)
      // a UDP checksum is lost, since zero means none
      ensures proto.Udp? && old(HasL4Sum()) && Verifies(old(l4Sum), old(L4Total())) ==>
        (HasL4Sum() <==>
         L4Total() % ONES != 0 || (old(l4Sum) == ONES && port == 0 && OnesToZeros(old(End(which)), addr)))
      // an ICMPv6 checksum, which covers the addresses, is left alone
      ensures proto.Icmp? && !v4 && Verifies(old(l4Sum), old(L4Total())) ==>
        (Verifies(l4Sum, L4Total()) <==> SumWords(addr) % ONES == old(SumWords(End(which))) % ONES)
    {
      hide Updates, SumWords, WordsOk, Kept, OnesToZeros, Verifies;
      RwrCksum(which, addr, port);
      if which { dst := addr; } else { src := addr; }
      ok := true;
      if port != 0 {
        if HasPorts() {
          if which { dport := port; } else { sport := port; }
        } else if !proto.Icmp? {
          ok := false;
        }
      }
      L4Result(old(HasL4Sum()), old(l4Sum), old(SumWords(End(which)) + Replaceable(which, port)), SumWords(addr) + port,
               old(L4Total()), old(SumWords(End(which))), SumWords(addr));
      if v4 {
        KeptBy(old(ipSum), ipSum, old(SumWords(End(which))), SumWords(addr), old(IpTotal()), IpTotal());
      }
    }

    /** What an update of the checksum, or none, means for the new headers. */
    lemma L4Result(had: bool, c: nat, gone: nat, come: nat, total: nat, oldAddr: nat, newAddr: nat)
      requires had ==> Updates(c, l4Sum, gone, come) && total + come == L4Total() + gone
      requires !had ==> l4Sum == c
      requires proto.Icmp? ==> !had && total + newAddr == L4Total() + oldAddr
      ensures had ==> Kept(c, total, l4Sum, L4Total())
      ensures had && Verifies(c, total) ==> (l4Sum == 0 || l4Sum == ONES <==> L4Total() % ONES == 0)
      ensures proto.Icmp? && Verifies(c, total) ==> (Verifies(l4Sum, L4Total()) <==> newAddr % ONES == oldAddr % ONES)
    {
      hide Verifies, Updates;
      if had {
        KeptBy(c, l4Sum, gone, come, total, L4Total());
        if Verifies(c, total) { ZeroOrOnes(l4Sum, L4Total()); }
      } else if proto.Icmp? && Verifies(c, total) {
        WordsExchanged(c, total, L4Total(), oldAddr, newAddr);
      }
    }
  }

  /**
   * The checksum afterwards is right exactly when it was right before, and then it is the one computed
   * from scratch, provided it is all ones for words that are all zero and for no others.
   */
  ghost predicate Kept(c: nat, total: nat, c': nat, total': nat) {
    && (Verifies(c', total') <==> Verifies(c, total))
    && (Verifies(c, total) ==> (c' == FromScratch(total') <==> (c' == ONES <==> total' == 0)))
  }

  lemma KeptBy(c: nat, c': nat, gone: nat, come: nat, total: nat, total': nat)
    requires Updates(c, c', gone, come) && total + come == total' + gone
    ensures Kept(c, total, c', total')
  {
    hide Verifies;
    if Verifies(c, total) {
      ScratchExactly(c', total');
    }
  }

  /** A right checksum is zero or all ones exactly for words that add up to nothing. */
  lemma ZeroOrOnes(c: nat, total: nat)
    requires Verifies(c, total)
    ensures c == 0 || c == ONES <==> total % ONES == 0
  {
  }

  /** A checksum that is left alone stays right exactly when the exchanged words add up to the same. */
  lemma WordsExchanged(c: nat, total: nat, total': nat, gone: nat, come: nat)
    requires Verifies(c, total) && total + come == total' + gone
    ensures Verifies(c, total') <==> come % ONES == gone % ONES
  {
  }

  /** A UDP packet from 10.0.0.1, with a right checksum, that goes out from 192.168.47.87 without one. */
  method UdpSumLost() returns (p: Headers, right: bool)
    ensures right && p.proto.Udp? && p.src == [0xc0a82f57] && !p.HasL4Sum()
  {
    p := new Headers(true, Udp, 0, 0x1000 - 53 - 1, [0x0a000001], [0], 1, 53, 0, ONES - 6657);
    assert SumWords([0]) == 0 && SumWords([0x0a000001]) == 2561 && SumWords([0xc0a82f57]) == 61439 by {
      OneWordSum(0);
      OneWordSum(0x0a000001);
      OneWordSum(0xc0a82f57);
    }
    right := p.HasL4Sum() && Verifies(p.l4Sum, p.L4Total());
    hide SumWords, Kept;
    var ok := p.NaptRwr(false, [0xc0a82f57], 0);
  }

  lemma OneWordSum(w: nat)
    ensures SumWords([w]) == Halved(w)
  {
    assert [w][..0] == [];
  }

  /** An ICMPv6 checksum that is right for an address ending in ::1 and wrong once it ends in ::2. */
  lemma Icmp6SumBreaks(rest: nat)
    ensures Verifies(FromScratch(1 + rest), 1 + rest) && !Verifies(FromScratch(1 + rest), 2 + rest)
  {
    hide Verifies, FromScratch;
    FromScratchVerifies(1 + rest);
    WordsExchanged(FromScratch(1 + rest), 1 + rest, 2 + rest, 1, 2);
  }

  /** An ICMPv4 error with the embedded packet it complains about; rest is what else its checksum covers. */
  class IcmpError {
    const inner: Headers
    const rest: nat
    var cksum: nat

    constructor (inner: Headers, rest: nat, cksum: nat)
      ensures this.inner == inner && this.rest == rest && this.cksum == cksum
    {
      this.inner := inner;
      this.rest := rest;
      this.cksum := cksum;
    }

    ghost predicate Valid()
      reads this, inner
    {
      inner.Valid() && cksum <= ONES
    }

    /** Everything that the outer checksum covers, the embedded checksums included. */
    function Total(): nat
      reads inner
    {
      SumWords(inner.src) + SumWords(inner.dst) + (if inner.v4 then inner.ipSum else 0)
      + (if inner.HasPorts() then inner.sport + inner.dport + inner.l4Sum else 0) + rest
    }

    /**
     * npfa_icmp_nat: translate the embedded packet and bring the outer checksum up to date. For an
     * embedded ICMP packet, which has no port to rewrite, a port would be counted all the same.
     */
    method Translate(addr: seq<nat>, port: nat) returns (ok: bool)
      requires Valid() && |addr| == |inner.src| && WordsOk(addr) && port <= ONES
      modifies this, inner
      ensures Valid()
      ensures ok <==> !inner.proto.Other?
      ensures !ok ==> cksum == old(cksum) && Total() == old(Total())
      ensures ok ==> inner.src == addr && inner.dst == old(inner.dst) && inner.dport == old(inner.dport)
      ensures ok ==> inner.sport == if port != 0 && inner.HasPorts() then port else old(inner.sport)
      ensures ok ==>
        (Verifies(cksum, Total() + if inner.proto.Icmp? then port else 0) <==> Verifies(old(cksum), old(Total())))
    {
      hide Updates, SumWords, WordsOk, Kept, Fixup16, Verifies;
      if inner.proto.Other? {
        return false;
      }
      ghost var c, total := cksum, Total();
      var ipcksum, l4cksum, oldPort := inner.ipSum, inner.l4Sum, if inner.HasPorts() then inner.sport else 0;
      ghost var gone, come := SumWords(inner.src), SumWords(addr);
      var sum := AddrCksum(cksum, inner.src, addr);
      if port != 0 {
        UpdatesMore16(c, sum, gone, come, oldPort, port);
        sum := Fixup16(sum, oldPort, port);
        gone, come := gone + oldPort, come + port;
      }
      ok := inner.NaptRwr(false, addr, port);
      if inner.v4 {
        UpdatesMore16(c, sum, gone, come, ipcksum, inner.ipSum);
        sum := Fixup16(sum, ipcksum, inner.ipSum);
        gone, come := gone + ipcksum, come + inner.ipSum;
      }
      if inner.proto.Tcp? || (inner.proto.Udp? && l4cksum != 0) {
        UpdatesMore16(c, sum, gone, come, l4cksum, inner.l4Sum);
        sum := Fixup16(sum, l4cksum, inner.l4Sum);
        gone, come := gone + l4cksum, come + inner.l4Sum;
      }
      cksum := sum;
      if inner.HasPorts() {
        assert total + come == Total() + gone;
        UpdatedVerifies(c, cksum, gone, come, total, Total());
      } else {
        assert total + come == Total() + port + gone;
        UpdatedVerifies(c, cksum, gone, come, total, Total() + port);
      }
    }

    /**
     * npfa_icmp_nat with the entry of the embedded packet's connection: the entry of a protocol without
     * ports has port zero, so the outer checksum is right exactly when it was right before, whatever
     * protocol is embedded.
     */
    method TranslateByEntry(q: Packet, ports: bool, taddr: seq<bv32>, tport: bv32) returns (ok: bool)
      requires Valid() && PacketOk(q) && ProtoOf(q.tuple.proto) == inner.proto && |inner.src| == |q.tuple.src|
      modifies this, inner
      ensures Valid()
      ensures ok <==> !inner.proto.Other?
      ensures ok ==> inner.src == AddrWords(Create(q, ports, taddr, tport).oaddr)
      ensures ok ==> (Verifies(cksum, Total()) <==> Verifies(old(cksum), old(Total())))
    {
      hide Verifies, WordsOk;
      var nt := Create(q, ports, taddr, tport);
      ok := Translate(AddrWords(nt.oaddr), nt.oport as nat);
    }
  }

  lemma UpdatedVerifies(c: nat, c': nat, gone: nat, come: nat, total: nat, total': nat)
    requires Updates(c, c', gone, come) && total + come == total' + gone
    ensures Verifies(c, total) <==> Verifies(c', total')
  {
  }
}
