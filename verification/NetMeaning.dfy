/**
  * Networks on whole addresses: comparing the masked words of an address one after the other, as the
  * byte-code does, is comparing the leading bits of the address as one number.
  */
module NetMeaning {
  import opened Words
  import opened BpfMachine
  import opened BpfCode
  import opened BpfMeaning
  import BpfOpcodes
  import opened RuleCompiler
  import opened RuleCriteria
  import opened RuleTests
  import opened RuleMeaning
  import opened RuleLimits
  import opened Filters

  // ----- numbers of several words ------------------------------------------------------------

  lemma MulAssoc(a: int, b: int, c: int)
    ensures a * b * c == a * (b * c)
  {
  }

  lemma MulAdd(a: int, b: int, c: int)
    ensures (a + b) * c == a * c + b * c
  {
  }

  /** The bytes in front count for more. */
  lemma {:induction false} BigEndianConcat(a: seq<u8>, b: seq<u8>)
    ensures BigEndian(a + b) == BigEndian(a) * Pow2(8 * |b|) + BigEndian(b)
    decreases |b|
  {
    if b == [] {
      assert a + b == a;
    } else {
      var c, last := b[..|b| - 1], b[|b| - 1];
      assert (a + b)[..|a + b| - 1] == a + c && (a + b)[|a + b| - 1] == last;
      BigEndianConcat(a, c);
      EightMore(8 * |c|);
      MulAssoc(BigEndian(a), Pow2(8 * |c|), 256);
    }
  }

  lemma EightMore(n: nat)
    ensures Pow2(n + 8) == 256 * Pow2(n)
  {
    Pow2Add(n, 8);
    Pow2At32();
  }

  lemma {:induction false} BigEndianBound(bs: seq<u8>)
    ensures BigEndian(bs) < Pow2(8 * |bs|)
  {
    if bs != [] {
      BigEndianBound(bs[..|bs| - 1]);
      EightMore(8 * (|bs| - 1));
    }
  }

  lemma {:induction false} NumberBound(ws: seq<u32>)
    ensures Number(ws) < Pow2(32 * |ws|)
  {
    if ws != [] {
      var p := Pow2(32 * (|ws| - 1));
      NumberBound(ws[1..]);
      Pow2At32();
      Pow2Add(32, 32 * (|ws| - 1));
      MulMonotone(p, ws[0], W32 - 1);
      Distribute(p, W32);
    }
  }

  /** Cutting inside the lower part: the upper parts and what is left of the lower ones. */
  lemma CutLow(a: nat, x: nat, q: nat, r: nat)
    requires r > 0 && x < q * r
    ensures (a * (q * r) + x) / r == a * q + x / r && x / r < q
  {
    var h, l := DivMod(x, r);
    MulAssoc(a, q, r);
    MulAdd(a * q, h, r);
    ModUnique(a * (q * r) + x, r, a * q + h, l);
    if h >= q {
      MulMonotone(r, q, h);
    }
  }

  /** Cutting inside the upper part: the lower one is gone. */
  lemma CutHigh(a: nat, x: nat, p: nat, s: nat)
    requires p > 0 && s > 0 && x < p
    ensures (a * p + x) / (p * s) == a / s
  {
    var h, l := DivMod(a, s);
    assert a * p + x == (s * h + l) * p + x;
    MulAdd(s * h, l, p);
    MulAssoc(p, s, h);
    assert (s * h) * p == (p * s) * h by { MulAssoc(p, s, h); MulAssoc(h, s, p); }
    MulMonotone(p, l + 1, s);
    MulAdd(l, 1, p);
    ModUnique(a * p + x, p * s, h, l * p + x);
  }

  lemma Digits(a: nat, b: nat, x: nat, y: nat, q: nat)
    requires x < q && y < q
    ensures a * q + x == b * q + y <==> a == b && x == y
  {
    if a * q + x == b * q + y {
      ModUnique(a * q + x, q, a, x);
      ModUnique(b * q + y, q, b, y);
    }
  }

  lemma CutBoth(a: nat, b: nat, x: nat, y: nat, t: nat, q: nat, r: nat)
    requires r > 0 && t == q * r && x < t && y < t
    ensures (a * t + x) / r == (b * t + y) / r <==> a == b && x / r == y / r
  {
    CutLow(a, x, q, r);
    CutLow(b, y, q, r);
    Digits(a, b, x / r, y / r, q);
  }

  /** The leading bits of numbers with one more word in front. */
  lemma LeadingSplit(a: u32, b: u32, x: nat, y: nat, w: nat, len: nat)
    requires x < Pow2(w) && y < Pow2(w) && len > 0
    ensures SameLeadingBits(a * Pow2(w) + x, b * Pow2(w) + y, w + 32, len) <==>
      PrefixAgrees(a, if len >= 32 then 32 else len, b) &&
      (len > 32 ==> SameLeadingBits(x, y, w, len - 32))
  {
    hide Pow2;
    if len >= 32 {
      LeadingLow(a, b, x, y, w, len);
    } else {
      Pow2Add(w, 32 - len);
      CutHigh(a, x, Pow2(w), Pow2(32 - len));
      CutHigh(b, y, Pow2(w), Pow2(32 - len));
    }
  }

  lemma LeadingLow(a: u32, b: u32, x: nat, y: nat, w: nat, len: nat)
    requires x < Pow2(w) && y < Pow2(w) && len >= 32
    ensures SameLeadingBits(a * Pow2(w) + x, b * Pow2(w) + y, w + 32, len) <==>
      PrefixAgrees(a, 32, b) && (len > 32 ==> SameLeadingBits(x, y, w, len - 32))
  {
    hide Pow2;
    var r := if len >= w + 32 then 0 else w + 32 - len;
    Pow2Add(w - r, r);
    CutBoth(a, b, x, y, Pow2(w), Pow2(w - r), Pow2(r));
    WholeWord(a, b);
    if len == 32 {
      SmallQuotient(x, Pow2(w));
      SmallQuotient(y, Pow2(w));
    }
  }

  lemma WholeWord(a: u32, b: u32)
    ensures PrefixAgrees(a, 32, b) <==> a == b
  {
    assert Pow2(0) == 1;
  }

  lemma SmallQuotient(x: nat, p: nat)
    requires x < p
    ensures x / p == 0
  {
    ModUnique(x, p, 0, x);
  }

  // ----- verdicts on addresses ---------------------------------------------------------------

  /** The words of a packet, compared one after the other, are its bytes, compared as one number. */
  lemma {:induction false} AddressBits(npc: Npc, off: nat, ws: seq<u32>, len: nat)
    requires off + 4 * |ws| <= |npc.pkt|
    ensures AddressVerdict(npc, off, ws, len)
      == Decide(SameLeadingBits(BigEndian(npc.pkt[off..off + 4 * |ws|]), Number(ws), 32 * |ws|, len))
    decreases |ws|
  {
    hide Pow2, BigEndian, Number, LoadWord, SameLeadingBits, PrefixAgrees;
    var bytes := npc.pkt[off..off + 4 * |ws|];
    BigEndianBound(bytes);
    NumberBound(ws);
    if ws == [] {
      NoWords(bytes, ws, len);
    } else if len == 0 {
      NoBits(BigEndian(bytes), Number(ws), 32 * |ws|);
    } else {
      var n := if len >= 32 then 32 else len;
      AddressBits(npc, off + 4, ws[1..], len - n);
      FirstWord(npc, off, ws);
      FirstOfNumber(ws);
      var head, rest, tail := npc.pkt[off..off + 4], npc.pkt[off + 4..off + 4 * |ws|], ws[1..];
      BigEndianBound(rest);
      NumberBound(tail);
      LeadingSplit(BigEndian(head), ws[0], BigEndian(rest), Number(tail), 32 * |tail|, len);
      if len <= 32 {
        NoBits(BigEndian(rest), Number(tail), 32 * |tail|);
      }
    }
  }

  lemma NoWords(bytes: seq<u8>, ws: seq<u32>, len: nat)
    requires bytes == [] && ws == []
    ensures SameLeadingBits(BigEndian(bytes), Number(ws), 0, len)
  {
  }

  lemma FirstWord(npc: Npc, off: nat, ws: seq<u32>)
    requires off + 4 * |ws| <= |npc.pkt| && ws != []
    ensures BigEndian(npc.pkt[off..off + 4]) < W32
    ensures LoadWord(npc.pkt, off) == Some(BigEndian(npc.pkt[off..off + 4]))
    ensures BigEndian(npc.pkt[off..off + 4 * |ws|])
      == BigEndian(npc.pkt[off..off + 4]) * Pow2(32 * |ws[1..]|) + BigEndian(npc.pkt[off + 4..off + 4 * |ws|])
  {
    var head, rest := npc.pkt[off..off + 4], npc.pkt[off + 4..off + 4 * |ws|];
    assert npc.pkt[off..off + 4 * |ws|] == head + rest;
    BigEndianConcat(head, rest);
    BpfOpcodes.FourBytes(head);
  }

  lemma FirstOfNumber(ws: seq<u32>)
    requires ws != []
    ensures Number(ws) == ws[0] * Pow2(32 * |ws[1..]|) + Number(ws[1..])
  {
  }

  lemma NoBits(x: nat, y: nat, w: nat)
    requires x < Pow2(w) && y < Pow2(w)
    ensures SameLeadingBits(x, y, w, 0)
  {
    SmallQuotient(x, Pow2(w));
    SmallQuotient(y, Pow2(w));
  }

  lemma OneNumber(w: u32)
    ensures Number([w]) == w
  {
    assert [w][1..] == [] && Pow2(0) == 1;
    MulAssoc(w, 1, 1);
  }

  /** On a packet of its version, a network criterion says whether the network contains the address. */
  lemma NetVerdict(npc: Npc, h: Header, c: Call)
    requires CallOk(c) && c.Cidr? && IsPacket(npc, h) && IsVersion(h.version, c.family)
    ensures CallVerdict(npc, c)
      == Decide(Contains(Net(c.family, c.addr, c.mask, false), h.version, if c.src then h.src else h.dst, c.src,
                         npc.lookup))
  {
    hide AddressVerdict, BigEndian, Number, SameLeadingBits;
    var off, ws, len := AddrOffset(c.src, c.family), AddrWords(c.family, c.addr), MaskLength(c.family, c.mask);
    AddressBits(npc, off, ws, len);
    if c.family == Inet {
      assert ws == [c.addr[0]];
      OneNumber(c.addr[0]);
    }
    MaskWidth(BigEndian(npc.pkt[off..off + 4 * |ws|]), Number(ws), 32 * |ws|, c.mask, len);
  }

  /** A mask longer than the address is the whole address. */
  lemma MaskWidth(a: nat, b: nat, width: nat, mask: nat, len: nat)
    requires len == mask || (len >= width && mask >= width)
    ensures SameLeadingBits(a, b, width, len) <==> SameLeadingBits(a, b, width, mask)
  {
  }

  /** A rule on one network without host bits accepts exactly the packets whose address the network contains. */
  lemma NetworkExact(npc: Npc, h: Header, c: Call)
    requires CallOk(c) && c.Cidr? && NetExact(c) && IsPacket(npc, h)
    ensures Compiles([Single(c)])
    ensures Filtered(npc, [Single(c)])
      == Value(if Contains(Net(c.family, c.addr, c.mask, false), h.version, if c.src then h.src else h.dst, c.src,
                           npc.lookup) then MAX32 else 0)
  {
    hide NetExact, CallVerdict, Contains, Filtered, Compiles;
    NetsExactly(c);
    assert RightAlways([Single(c)]);
    assert Filtered(npc, [Single(c)]) == Value(if RuleMatches(npc, [Single(c)]) then MAX32 else 0);
    NetRule(npc, h, c);
  }

  lemma NetRule(npc: Npc, h: Header, c: Call)
    requires CallOk(c) && c.Cidr? && IsPacket(npc, h)
    ensures RuleMatches(npc, [Single(c)]) <==>
      Contains(Net(c.family, c.addr, c.mask, false), h.version, if c.src then h.src else h.dst, c.src, npc.lookup)
  {
    hide CallVerdict, SameLeadingBits, BigEndian, Number;
    var items := [Single(c)];
    assert Single(c) in items && c in Calls(items[0]);
    assert forall i, d :: i in items && d in Calls(i) ==> d == c;
    assert VersionHolds(npc, items) <==> CallVersionHolds(npc, c);
    if IsVersion(h.version, c.family) {
      NetVerdict(npc, h, c);
    }
  }

  /**
    * The same with the header written out: of an IPv4 packet, 12 bytes, source, destination and anything;
    * of an IPv6 packet, 8 bytes, source, destination and anything.
    */
  lemma NetworkOfParts(npc: Npc, src: bool, family: Af, addr: seq<u32>, mask: u8, head: seq<u8>, source: seq<u8>,
                       destination: seq<u8>, rest: seq<u8>)
    requires CallOk(Cidr(src, family, addr, mask)) && NetExact(Cidr(src, family, addr, mask))
    requires |npc.pkt| < W32 && npc.pkt == head + source + destination + rest
    requires (family == Inet && npc.ipver == 4 && |head| == 12 && |source| == 4 && |destination| == 4)
          || (family == Inet6 && npc.ipver == 6 && |head| == 8 && |source| == 16 && |destination| == 16)
    ensures Compiles([Single(Cidr(src, family, addr, mask))])
    ensures var address := BigEndian(if src then source else destination);
      var same := if family == Inet then SameLeadingBits(address, addr[0], 32, mask)
                  else SameLeadingBits(address, Number(addr), 128, mask);
      Filtered(npc, [Single(Cidr(src, family, addr, mask))]) == Value(if same then MAX32 else 0)
  {
    hide NetExact, SameLeadingBits, BigEndian, Number, Filtered;
    var h := PacketOfParts(npc, head, source, destination, rest);
    NetworkExact(npc, h, Cidr(src, family, addr, mask));
  }

  lemma PacketOfParts(npc: Npc, head: seq<u8>, source: seq<u8>, destination: seq<u8>, rest: seq<u8>)
    returns (h: Header)
    requires |npc.pkt| < W32 && npc.pkt == head + source + destination + rest
    requires (npc.ipver == 4 && |head| == 12 && |source| == 4 && |destination| == 4)
          || (npc.ipver == 6 && |head| == 8 && |source| == 16 && |destination| == 16)
    ensures IsPacket(npc, h) && h.version == npc.ipver && h.src == source && h.dst == destination
  {
    var payload := if npc.l4off <= |npc.pkt| then npc.pkt[npc.l4off..] else [];
    h := Header(npc.ipver, source, destination, npc.proto, payload);
    var a, b := |head|, |head| + |source|;
    assert npc.pkt[a..b] == source && npc.pkt[b..b + |destination|] == destination;
  }
}
