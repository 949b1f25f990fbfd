/**
  * Where the compiler does not keep the meaning of a rule: criteria of several jumps inside swapped
  * groups, TCP flags compared without their mask or on other protocols, and X loaded behind a criterion
  * that may leave the group.
  */
module RuleLimits {
  import opened Words
  import opened BpfMachine
  import opened BpfCode
  import opened BpfMeaning
  import opened RuleCompiler
  import opened RuleCriteria
  import opened RuleTests
  import opened RuleMeaning

  // ----- criteria in swapped groups ----------------------------------------------------------

  /** On every packet the swapped code of a call finds what its criterion says; TCP flags on TCP packets. */
  ghost predicate SwapsWell(c: Call, l4: bool)
    requires CallOk(c)
  {
    (forall e :: e in CallElems(c, l4) ==> ElemOk(e)) &&
    forall npc: Npc :: (c.TcpFlags? ==> npc.proto == IPPROTO_TCP) ==>
      ScanGroup(npc, CallElems(c, l4), npc.l4off) == ScanOf(CallVerdict(npc, c), npc.l4off)
  }

  /** The criterion is one jump, and networks and flags are exact; or it is a range that no port can be in. */
  predicate Swappable(c: Call)
    requires CallOk(c)
  {
    (OneJump(c) && NetExact(c) && (c.TcpFlags? ==> FlagsExact(c.flags, c.fmask))) || (c.Ports? && c.from > c.to)
  }

  /** Exactly the swappable calls keep their meaning inside a group whose jumps are swapped. */
  lemma SwapsWellExactly(c: Call, l4: bool)
    requires CallOk(c) && !c.IpVer? && (c.TcpFlags? ==> l4)
    ensures SwapsWell(c, l4) <==> Swappable(c)
  {
    CallElemsOk(c, l4);
    if c.Ports? && !OneJump(c) {
      RangeSwaps(c, l4);
    } else if Swappable(c) {
      forall npc: Npc | c.TcpFlags? ==> npc.proto == IPPROTO_TCP
        ensures ScanGroup(npc, CallElems(c, l4), npc.l4off) == ScanOf(CallVerdict(npc, c), npc.l4off)
      {
        JumpScan(npc, c, l4);
      }
    } else if c.Cidr? {
      if OneJump(c) {
        HostBitsScan(c, l4);
      } else {
        HalfAddress(HalfAddressPacket(c), c, l4);
      }
    } else if c.TcpFlags? {
      AllFlags(c, l4);
    } else {
      BothParts(c, l4);
    }
  }

  lemma JumpScan(npc: Npc, c: Call, l4: bool)
    requires CallOk(c) && !c.IpVer? && (c.TcpFlags? ==> l4 && npc.proto == IPPROTO_TCP)
    requires OneJump(c) && NetExact(c) && (c.TcpFlags? ==> FlagsExact(c.flags, c.fmask))
    ensures forall e :: e in CallElems(c, l4) ==> ElemOk(e)
    ensures ScanGroup(npc, CallElems(c, l4), npc.l4off) == ScanOf(CallVerdict(npc, c), npc.l4off)
  {
    hide ScanGroup, CallElems, CallVerdict, CallTests;
    CallScan(npc, c, l4, npc.l4off);
    OneTest(npc, c, l4, c.TcpFlags?);
    assert AnyOf([CallVerdict(npc, c)][1..]) == No;
  }

  lemma RangeSwaps(c: Call, l4: bool)
    requires CallOk(c) && c.Ports? && !OneJump(c)
    ensures SwapsWell(c, l4) <==> c.from > c.to
  {
    CallElemsOk(c, l4);
    forall npc: Npc
      ensures ScanGroup(npc, CallElems(c, l4), npc.l4off)
           == if HalfAt(npc, npc.l4off, if c.src then 0 else 2).None? then Cut else Past(npc.l4off)
    {
      RangeScan(npc, c, l4);
    }
    if c.from < c.to {
      var npc := PortPacket(c.from);
      assert PortVerdict(npc, c.src, c.from, c.to) == Yes;
      assert ScanGroup(npc, CallElems(c, l4), npc.l4off) == Past(npc.l4off);
    }
  }

  /** A TCP packet whose flags are all set or all clear. */
  function FlagsPacket(proto: u32, byte: u8): Npc {
    Npc([0, 0, 0, 0, 0, 0, 0, 0, 0, 0, 0, 0, 0, byte], 4, 0, proto, (s, t) => false, 0)
  }

  lemma AndFrom255(a: u8)
    ensures And(0xff, a) == a && And(0, a) == 0
  {
    AndSame(0xff, a);
    AndAll(a);
  }

  lemma {:induction false} AndSame(a: nat, b: nat)
    ensures And(a, b) == And(b, a)
  {
    if a != 0 && b != 0 { AndSame(a / 2, b / 2); }
  }

  lemma AllFlags(c: Call, l4: bool)
    requires c.TcpFlags? && l4 && !FlagsExact(c.flags, c.fmask)
    ensures !SwapsWell(c, l4)
  {
    var npc := FlagsPacket(IPPROTO_TCP, 0xff);
    AndFrom255(c.fmask);
    assert ByteAt(npc, npc.l4off, 13) == Some(0xff);
    assert CallVerdict(npc, c) == Yes;
    assert CallElems(c, l4) == [Test(AByte(13, None, c.flags))];
    assert ScanGroup(npc, CallElems(c, l4), npc.l4off) != Hit(npc.l4off);
  }

  /** A packet of one part or of both parts that an ICMP criterion asks for. */
  function IcmpPacket(itype: u32, icode: u32): Npc {
    Npc(if itype <= 255 then [itype, if icode == 0 then 1 else 0] else if icode <= 255 then [0, icode] else [0],
        4, 0, 1, (s, t) => false, 0)
  }

  /** A criterion on ICMP type and code is left by its first test alone, or by its second. */
  lemma BothParts(c: Call, l4: bool)
    requires c.Icmp? && c.itype.Some? && c.icode.Some?
    ensures !SwapsWell(c, l4)
  {
    var npc := IcmpPacket(c.itype.value, c.icode.value);
    var es := CallElems(c, l4);
    assert es == [Test(AByte(0, None, c.itype.value)), Test(AByte(1, None, c.icode.value))];
    assert es[1..] == [Test(AByte(1, None, c.icode.value))] && es[1..][1..] == [];
    var vs := [ByteVerdict(npc, 0, c.itype.value)] + [ByteVerdict(npc, 1, c.icode.value)];
    assert vs[1..] == [ByteVerdict(npc, 1, c.icode.value)] && vs[1..][1..] == [];
    assert CallVerdict(npc, c) == AllOf(vs) == No;
    assert ScanGroup(npc, es, npc.l4off) != Past(npc.l4off);
  }

  lemma RangeScan(npc: Npc, c: Call, l4: bool)
    requires c.Ports? && !OneJump(c)
    ensures forall e :: e in CallElems(c, l4) ==> ElemOk(e)
    ensures ScanGroup(npc, CallElems(c, l4), npc.l4off)
         == if HalfAt(npc, npc.l4off, if c.src then 0 else 2).None? then Cut else Past(npc.l4off)
  {
  }

  /** A packet with both ports equal to a given one. */
  function PortPacket(port: u16): Npc {
    Npc([port / 256, port % 256, port / 256, port % 256], 4, 0, 6, (s, t) => false, 0)
  }

  function Bytes(w: u32): seq<u8> {
    [w / 0x100_0000, w / 0x1_0000 % 256, w / 256 % 256, w % 256]
  }

  lemma BytesLoad(pkt: seq<u8>, k: nat, w: u32)
    requires k + 4 <= |pkt| && pkt[k..k + 4] == Bytes(w)
    ensures LoadWord(pkt, k) == Some(w)
  {
    var s := pkt[k..k + 4];
    assert s[0] == pkt[k] && s[1] == pkt[k + 1] && s[2] == pkt[k + 2] && s[3] == pkt[k + 3];
    ByteSum(w);
  }

  lemma ByteSum(w: u32)
    ensures var b := Bytes(w);
            W16 * Be16(b[0], b[1]) + Be16(b[2], b[3]) == w
  {
    var h, m := w / 256, w / 0x1_0000;
    assert w == 256 * h + w % 256;
    assert h / 256 == m && h == 256 * m + h % 256;
    assert m / 256 == w / 0x100_0000 && m == 256 * (m / 256) + m % 256;
  }

  /** A packet whose address has the first word of a CIDR and another top bit in the second. */
  function HalfAddressPacket(c: Call): Npc
    requires CallOk(c) && c.Cidr?
  {
    var other: u32 := if c.addr[1] >= 0x8000_0000 then 0 else 0x8000_0000;
    Npc(seq(AddrOffset(c.src, c.family), i => 0) + Bytes(c.addr[0]) + Bytes(other), 6, 40, 0, (s, t) => false, 0)
  }

  lemma HalfAddress(npc: Npc, c: Call, l4: bool)
    requires CallOk(c) && c.Cidr? && !OneJump(c) && npc == HalfAddressPacket(c)
    ensures forall e :: e in CallElems(c, l4) ==> ElemOk(e)
    ensures ScanGroup(npc, CallElems(c, l4), npc.l4off) == Hit(npc.l4off)
    ensures CallVerdict(npc, c) == No
  {
    CallElemsOk(c, l4);
    var off, len := AddrOffset(c.src, c.family), MaskLength(c.family, c.mask);
    var other: u32 := if c.addr[1] >= 0x8000_0000 then 0 else 0x8000_0000;
    BytesLoad(npc.pkt, off, c.addr[0]);
    BytesLoad(npc.pkt, off + 4, other);
    assert Pow2(0) == 1;
    var n := if len - 32 >= 32 then 32 else len - 32;
    TopBitDiffers(other, n, c.addr[1]);
    assert CallElems(c, l4)[0] == Test(AWord(off, 32, c.addr[0]));
    assert AddressVerdict(npc, off + 4, c.addr[1..], len - 32) == No;
    assert AddressVerdict(npc, off, c.addr, len) == No;
  }

  lemma TopBitDiffers(v: u32, len: nat, w: u32)
    requires 1 <= len <= 32 && (v >= 0x8000_0000) != (w >= 0x8000_0000)
    ensures !PrefixAgrees(v, len, w)
  {
    var p, q := Pow2(32 - len), Pow2(len - 1);
    Pow2At32();
    Pow2Add(32 - len, len - 1);
    assert p * q == 0x8000_0000 by { assert Pow2(32) == 2 * Pow2(31); }
    QuotientSplit(v, p, q);
    QuotientSplit(w, p, q);
  }

  lemma QuotientSplit(v: nat, p: nat, q: nat)
    requires p > 0
    ensures v / p >= q <==> v >= p * q
  {
    var h, l := DivMod(v, p);
    if h >= q {
      MulMonotone(p, q, h);
    } else {
      MulMonotone(p, h + 1, q);
    }
  }

  // ----- networks with host bits -------------------------------------------------------------

  function AllBytes(ws: seq<u32>): (b: seq<u8>)
    ensures |b| == 4 * |ws|
  {
    if ws == [] then [] else Bytes(ws[0]) + AllBytes(ws[1..])
  }

  /** A packet that holds given words at an offset. */
  ghost predicate WordsAt(pkt: seq<u8>, off: nat, ws: seq<u32>) {
    forall k :: 0 <= k < |ws| ==> LoadWord(pkt, off + 4 * k) == Some(ws[k])
  }

  lemma SliceSplit(pkt: seq<u8>, off: nat, a: seq<u8>, b: seq<u8>)
    requires off + |a| + |b| <= |pkt| && pkt[off..off + |a| + |b|] == a + b
    ensures pkt[off..off + |a|] == a && pkt[off + |a|..off + |a| + |b|] == b
  {
    var s := pkt[off..off + |a| + |b|];
    assert pkt[off..off + |a|] == s[..|a|] && pkt[off + |a|..off + |a| + |b|] == s[|a|..];
  }

  lemma {:induction false} BytesAt(pkt: seq<u8>, off: nat, ws: seq<u32>)
    requires off + 4 * |ws| <= |pkt| && pkt[off..off + 4 * |ws|] == AllBytes(ws)
    ensures WordsAt(pkt, off, ws)
    decreases |ws|
  {
    hide LoadWord, Bytes;
    if ws != [] {
      SliceSplit(pkt, off, Bytes(ws[0]), AllBytes(ws[1..]));
      hide AllBytes;
      BytesLoad(pkt, off, ws[0]);
      BytesAt(pkt, off + 4, ws[1..]);
      forall k | 0 < k < |ws| ensures LoadWord(pkt, off + 4 * k) == Some(ws[k]) {
        assert off + 4 + 4 * (k - 1) == off + 4 * k && ws[1..][k - 1] == ws[k];
      }
    }
  }

  /** The very address of a network is in it, but passes its test only without host bits. */
  lemma {:induction false} OwnAddress(npc: Npc, off: nat, ws: seq<u32>, length: nat)
    requires WordsAt(npc.pkt, off, ws)
    ensures AddressVerdict(npc, off, ws, length) == Yes
    ensures AddressTest(npc, off, ws, length) == if NoHostBits(ws, length) then Yes else No
    decreases |ws|
  {
    if ws != [] && length != 0 {
      assert LoadWord(npc.pkt, off + 4 * 0) == Some(ws[0]);
      forall k | 0 <= k < |ws[1..]| ensures LoadWord(npc.pkt, off + 4 + 4 * k) == Some(ws[1..][k]) {
        assert off + 4 + 4 * k == off + 4 * (k + 1);
      }
      OwnAddress(npc, off + 4, ws[1..], length - if length >= 32 then 32 else length);
    }
  }

  /** A packet from or to the address of a network as it is written. */
  function AddressPacket(c: Call): Npc
    requires CallOk(c) && c.Cidr?
  {
    Npc(seq(AddrOffset(c.src, c.family), i => 0) + AllBytes(AddrWords(c.family, c.addr)), Version(c.family), 40, 0,
        (s, t) => false, 0)
  }

  lemma PacketWords(c: Call)
    requires CallOk(c) && c.Cidr?
    ensures WordsAt(AddressPacket(c).pkt, AddrOffset(c.src, c.family), AddrWords(c.family, c.addr))
  {
    hide AllBytes, WordsAt;
    var pkt, off, ws := AddressPacket(c).pkt, AddrOffset(c.src, c.family), AddrWords(c.family, c.addr);
    var z: seq<u8> := seq(off, i => 0);
    assert pkt == z + AllBytes(ws);
    assert (z + AllBytes(ws))[off..off + 4 * |ws|] == AllBytes(ws);
    BytesAt(pkt, off, ws);
  }

  lemma AddressPacketVerdicts(c: Call, l4: bool)
    requires CallOk(c) && c.Cidr?
    ensures CallVerdict(AddressPacket(c), c) == Yes
    ensures CallTests(AddressPacket(c), c, l4) == [if NetExact(c) then Yes else No]
  {
    hide AllBytes, AddressVerdict, AddressTest, NoHostBits;
    var npc, off, ws := AddressPacket(c), AddrOffset(c.src, c.family), AddrWords(c.family, c.addr);
    PacketWords(c);
    OwnAddress(npc, off, ws, MaskLength(c.family, c.mask));
  }

  lemma HostBitsScan(c: Call, l4: bool)
    requires CallOk(c) && c.Cidr? && OneJump(c) && !NetExact(c)
    ensures !SwapsWell(c, l4)
  {
    hide ScanGroup, CallElems, CallVerdict, CallTests, NetExact, AddressPacket;
    var npc := AddressPacket(c);
    AddressPacketVerdicts(c, l4);
    CallScan(npc, c, l4, npc.l4off);
    assert AnyOf([No]) == No by { assert AnyOf([No][1..]) == No; }
    assert ScanGroup(npc, CallElems(c, l4), npc.l4off) != ScanOf(CallVerdict(npc, c), npc.l4off);
  }

  // ----- whole programs ----------------------------------------------------------------------

  /** Is the program of the rule right on every packet? */
  ghost predicate RightAlways(items: seq<Item>)
    requires (forall i :: i in items ==> ItemOk(i)) && Compiles(items)
  {
    forall npc: Npc :: |npc.pkt| < W32 ==> Filtered(npc, items) == Value(if RuleMatches(npc, items) then MAX32 else 0)
  }

  lemma WrongOn(npc: Npc, items: seq<Item>)
    requires |npc.pkt| < W32 && (forall i :: i in items ==> ItemOk(i)) && Compiles(items) && Compilable(EMPTY, items)
    requires RuleMatches(npc, items) && !TestsMatch(npc, items)
    ensures Filtered(npc, items) == Value(0) && !RightAlways(items)
  {
    hide FilterOutcome, CompleteCode, PiecesCode, Build, Compilable, RuleMatches, TestsMatch;
    ProgramTests(npc, items);
  }

  /** At most so many instructions. */
  function Size(cs: seq<Piece>): nat {
    if cs == [] then 0 else (if cs[0].Plain? then 5 else 5 * |cs[0].elems| + 2) + Size(cs[1..])
  }

  lemma {:induction false} ElemsBound(es: seq<Elem>)
    requires forall e :: e in es ==> ElemOk(e)
    ensures |ElemsCode(es)| <= 5 * |es|
  {
    if es != [] { ElemsBound(es[1..]); }
  }

  lemma {:induction false} PiecesBound(cs: seq<Piece>)
    requires PiecesOk(cs)
    ensures |PiecesCode(cs)| <= Size(cs)
  {
    if cs != [] {
      assert PieceOk(cs[0]);
      if cs[0].Grouped? { ElemsBound(cs[0].elems); }
      PiecesBound(cs[1..]);
    }
  }

  /** A short program, by its pieces. */
  lemma ByPieces(npc: Npc, items: seq<Item>)
    requires |npc.pkt| < W32 && (forall i :: i in items ==> ItemOk(i))
    requires Build(EMPTY, items).Some? && Size(Build(EMPTY, items).value.pieces) < MAGIC
    ensures Compiles(items)
    ensures var ps := Build(EMPTY, items).value.pieces;
      Filtered(npc, items) == Value(if EvalPieces(npc, ps, 0).Some? then MAX32 else 0)
  {
    hide FilterOutcome, CompleteCode, PiecesCode, Build, Size, EvalPieces;
    PiecesBound(Build(EMPTY, items).value.pieces);
    ProgramMeaning(npc, Build(EMPTY, items).value.pieces);
  }

  // ----- rules on one network ----------------------------------------------------------------

  lemma {:induction false} CidrCount(off: nat, addr: seq<u32>, length: nat)
    requires off + 4 * |addr| < W16
    ensures |CidrElems(off, addr, length)| <= |addr|
    decreases |addr|
  {
    if addr != [] && length != 0 {
      CidrCount(off + 4, addr[1..], length - if length >= 32 then 32 else length);
    }
  }

  lemma {:induction false} PlainSize(es: seq<Elem>)
    ensures Size(Plains(es)) == 5 * |es|
  {
    if es != [] { PlainSize(es[1..]); }
  }

  lemma NetBuild(c: Call)
    requires CallOk(c) && c.Cidr?
    ensures Build(EMPTY, [Single(c)]).Some? && Size(Build(EMPTY, [Single(c)]).value.pieces) <= 25
    ensures Compilable(EMPTY, [Single(c)])
  {
    assert Apply(EMPTY, c).Some?;
    ApplyShape(EMPTY, c);
    ApplyKeepsOk(EMPTY, c);
    hide Apply, CallElems;
    var g, es := Apply(EMPTY, c).value, CallElems(c, false);
    assert BuildItem(EMPTY, Single(c)) == Some(g);
    assert [Single(c)][1..] == [];
    assert Build(g, []) == Some(g) && Compilable(g, []);
    var v := Plain(Test(AVersion(Version(c.family))));
    assert g.pieces == [v] + Plains(es) by { assert [] + es == es; }
    assert |es| <= 4 by { NetElems(c); }
    PlainSize(es);
    assert ([v] + Plains(es))[1..] == Plains(es);
  }

  lemma NetElems(c: Call)
    requires CallOk(c) && c.Cidr?
    ensures |CallElems(c, false)| <= 4
  {
    CidrCount(AddrOffset(c.src, c.family), AddrWords(c.family, c.addr), MaskLength(c.family, c.mask));
  }

  /** A rule on one network is compiled rightly exactly when the network has no host bits. */
  lemma NetsExactly(c: Call)
    requires CallOk(c) && c.Cidr?
    ensures Compiles([Single(c)]) && (RightAlways([Single(c)]) <==> NetExact(c))
  {
    hide Build, Compilable, EvalPieces, Size, NetExact;
    var items, npc := [Single(c)], AddressPacket(c);
    NetBuild(c);
    ByPieces(npc, items);
    if NetExact(c) {
      assert Exact(items, false, false) by { OneNetExact(c); }
      hide Exact, Compiles, Filtered, RuleMatches;
      forall npc: Npc | |npc.pkt| < W32
        ensures Filtered(npc, items) == Value(if RuleMatches(npc, items) then MAX32 else 0)
      {
        CompilerCorrect(npc, items);
      }
    } else {
      NetMissed(c);
      hide Compiles, RuleMatches, TestsMatch;
      WrongOn(npc, items);
    }
  }

  lemma OneNetExact(c: Call)
    requires CallOk(c) && c.Cidr? && NetExact(c)
    ensures Exact([Single(c)], false, false)
  {
    hide NetExact;
    assert [Single(c)][1..] == [] && CallsExact([c][1..], false, false);
  }

  lemma NetMissed(c: Call)
    requires CallOk(c) && c.Cidr? && !NetExact(c)
    ensures RuleMatches(AddressPacket(c), [Single(c)]) && !TestsMatch(AddressPacket(c), [Single(c)])
  {
    hide CallVerdict, CallTests, NetExact;
    AddressPacketVerdicts(c, false);
    assert AllOf([No]) == No;
    assert ItemTest(AddressPacket(c), Single(c), false) == No;
  }

  /** "from 10.1.2.3/8" and a packet from 10.1.2.3. */
  lemma HostBitsMissed()
    ensures var c := Cidr(true, Inet, [0x0a010203, 0, 0, 0], 8);
      && CallOk(c) && Compiles([Single(c)]) && LoadWord(AddressPacket(c).pkt, 12) == Some(0x0a010203)
      && RuleMatches(AddressPacket(c), [Single(c)]) && Filtered(AddressPacket(c), [Single(c)]) == Value(0)
  {
    hide Build, Compilable, Compiles, RuleMatches, TestsMatch, Filtered;
    var c := Cidr(true, Inet, [0x0a010203, 0, 0, 0], 8);
    assert !NetExact(c) by { Pow2Of24(); }
    assert LoadWord(AddressPacket(c).pkt, 12) == Some(0x0a010203) by { FirstWordAt(c); }
    hide NetExact, AddressPacket;
    NetsExactly(c);
    NetBuild(c);
    NetMissed(c);
    assert |AddressPacket(c).pkt| < W32 by { ShortPacket(c); }
    WrongOn(AddressPacket(c), [Single(c)]);
  }

  lemma Pow2Of24()
    ensures Pow2(24) == 0x100_0000
  {
    Pow2Add(12, 12);
    assert Pow2(12) == 4096 by { assert Pow2(6) == 64; Pow2Add(6, 6); }
  }

  lemma ShortPacket(c: Call)
    requires CallOk(c) && c.Cidr?
    ensures |AddressPacket(c).pkt| <= 40
  {
  }

  lemma FirstWordAt(c: Call)
    requires CallOk(c) && c.Cidr?
    ensures LoadWord(AddressPacket(c).pkt, AddrOffset(c.src, c.family)) == Some(c.addr[0])
  {
    PacketWords(c);
    hide LoadWord, AddressPacket;
    assert LoadWord(AddressPacket(c).pkt, AddrOffset(c.src, c.family) + 4 * 0) == Some(AddrWords(c.family, c.addr)[0]);
  }

  // ----- TCP flags ---------------------------------------------------------------------------

  function FlagsRule(flags: u8, fmask: u8): seq<Item> {
    [Single(Proto(IPPROTO_TCP)), Single(TcpFlags(flags, fmask))]
  }

  function FlagsPieces(flags: u8, fmask: u8): seq<Piece> {
    [Plain(Test(AProto(IPPROTO_TCP))), Plain(Test(AVersion(0))), Plain(LoadX),
     Plain(Test(AByte(13, if fmask != flags then Some(fmask) else None, flags)))]
  }

  function FlagsGen(flags: u8, fmask: u8, n: nat): Gen
    requires n <= 2
  {
    if n == 0 then EMPTY
    else if n == 1 then EMPTY.(pieces := FlagsPieces(flags, fmask)[..1], l4 := true)
    else EMPTY.(pieces := FlagsPieces(flags, fmask), l4 := true, fetched := true, xset := true)
  }

  lemma FlagsSteps(flags: u8, fmask: u8)
    ensures Apply(EMPTY, Proto(IPPROTO_TCP)) == Some(FlagsGen(flags, fmask, 1))
    ensures Apply(FlagsGen(flags, fmask, 1), TcpFlags(flags, fmask)) == Some(FlagsGen(flags, fmask, 2))
  {
    var ps := FlagsPieces(flags, fmask);
    assert Plains([ps[0].elem]) == ps[..1] && [] + ps[..1] == ps[..1];
    assert Plains([LoadX]) == [Plain(LoadX)] && Plains([ps[3].elem]) == [ps[3]];
    assert ps[..1] + [] + [Plain(Test(AVersion(0)))] + [Plain(LoadX)] + [ps[3]] == ps;
  }

  lemma FlagsBuild(flags: u8, fmask: u8)
    ensures Build(EMPTY, FlagsRule(flags, fmask)).Some?
    ensures Build(EMPTY, FlagsRule(flags, fmask)).value.pieces == FlagsPieces(flags, fmask)
    ensures Compilable(EMPTY, FlagsRule(flags, fmask))
  {
    hide Apply;
    FlagsSteps(flags, fmask);
    var items, g1, g2 := FlagsRule(flags, fmask), FlagsGen(flags, fmask, 1), FlagsGen(flags, fmask, 2);
    assert items[1..] == [items[1]] && items[1..][1..] == [];
    assert BuildItem(EMPTY, items[0]) == Some(g1) && BuildItem(g1, items[1]) == Some(g2);
    assert Build(g2, []) == Some(g2) && Build(g1, items[1..]) == Some(g2);
    assert Compilable(g2, []) && Compilable(g1, items[1..]);
  }

  lemma FlagsSize(flags: u8, fmask: u8)
    ensures Size(FlagsPieces(flags, fmask)) < MAGIC
  {
    var ps := FlagsPieces(flags, fmask);
    assert Size(ps[1..][1..][1..]) == 5;
    assert Size(ps[1..][1..]) == 10;
    assert Size(ps[1..]) == 15;
  }

  /** A rule on TCP flags is compiled rightly exactly when its mask is a real one or covers everything. */
  lemma FlagsExactly(flags: u8, fmask: u8)
    ensures Compiles(FlagsRule(flags, fmask)) && (RightAlways(FlagsRule(flags, fmask)) <==> FlagsExact(flags, fmask))
  {
    var items := FlagsRule(flags, fmask);
    FlagsBuild(flags, fmask);
    FlagsSize(flags, fmask);
    hide Build, Compilable, EvalPieces, Size;
    ByPieces(FlagsPacket(6, 0), items);
    if FlagsExact(flags, fmask) {
      assert Exact(items, false, false) by { FlagsRuleExact(flags, fmask); }
      hide Exact, Compiles, Filtered, RuleMatches;
      forall npc: Npc | |npc.pkt| < W32
        ensures Filtered(npc, items) == Value(if RuleMatches(npc, items) then MAX32 else 0)
      {
        CompilerCorrect(npc, items);
      }
    } else {
      var npc := FlagsPacket(6, 0xff);
      AndFrom255(flags);
      FlagsMissed(npc, flags, fmask, 0xff);
      WrongOn(npc, items);
    }
  }

  lemma FlagsRuleExact(flags: u8, fmask: u8)
    requires FlagsExact(flags, fmask)
    ensures Exact(FlagsRule(flags, fmask), false, false)
  {
    FlagCalls(flags, fmask);
    hide Exact, CallExact, CallOk;
    var c, d := Proto(IPPROTO_TCP), TcpFlags(flags, fmask);
    TwoExact(c, d, false, false);
    assert FlagsRule(flags, fmask) == [Single(c), Single(d)];
  }

  lemma FlagCalls(flags: u8, fmask: u8)
    requires FlagsExact(flags, fmask)
    ensures CallOk(Proto(IPPROTO_TCP)) && CallOk(TcpFlags(flags, fmask))
    ensures CallExact(Proto(IPPROTO_TCP), false, false) && CallExact(TcpFlags(flags, fmask), true, true)
  {
  }

  /** Flags that are set beside the ones asked for are no reason not to match, but the whole byte is compared. */
  lemma FlagsMissed(npc: Npc, flags: u8, fmask: u8, byte: u8)
    requires npc == FlagsPacket(6, byte) && fmask == flags != byte && And(byte, flags) == flags
    ensures RuleMatches(npc, FlagsRule(flags, fmask)) && !TestsMatch(npc, FlagsRule(flags, fmask))
  {
    var items := FlagsRule(flags, fmask);
    assert ByteAt(npc, npc.l4off, 13) == Some(byte);
    assert items[1..] == [items[1]];
    assert CallTests(npc, items[1].call, true) == [No];
    assert ItemTest(npc, items[1], true) == No;
    assert items[0].call in Calls(items[0]);
    assert !TestsHold(npc, items[1..], true);
  }

  /** "flags S/S" and a packet with SYN and ACK set. */
  lemma SynAckMissed()
    ensures var npc, items := FlagsPacket(6, 0x12), FlagsRule(2, 2);
      Compiles(items) && RuleMatches(npc, items) && Filtered(npc, items) == Value(0)
  {
    FlagsExactly(2, 2);
    FlagsBuild(2, 2);
    FlagsMissed(FlagsPacket(6, 0x12), 2, 2, 0x12);
    hide Build, Compilable, Compiles, RuleMatches, TestsMatch;
    WrongOn(FlagsPacket(6, 0x12), FlagsRule(2, 2));
  }

  // ----- TCP flags behind several protocols --------------------------------------------------

  function Protocols(ps: seq<u32>): seq<Call> {
    seq(|ps|, i requires 0 <= i < |ps| => Proto(ps[i]))
  }

  /** What a stateful rule on some protocols comes to. */
  function StatefulRule(ps: seq<u32>, flags: u8, fmask: u8): seq<Item> {
    [Alternatives(false, Protocols(ps)), Single(TcpFlags(flags, fmask))]
  }

  lemma {:induction false} ProtocolsFit(g: Gen, ps: seq<u32>, invert: bool, xset: bool, blocks: nat)
    ensures CallsFit(g, Protocols(ps)) && Disciplined(invert, xset, blocks, Protocols(ps))
    decreases |ps|
  {
    if ps != [] {
      assert Protocols(ps)[1..] == Protocols(ps[1..]);
      ProtocolsFit(Apply(g, Proto(ps[0])).value, ps[1..], invert, xset, blocks + 1);
    }
  }

  lemma {:induction false} ProtocolChoice(npc: Npc, ps: seq<u32>)
    ensures |ChoiceVerdicts(npc, Protocols(ps))| == |ps|
    ensures AnyOf(ChoiceVerdicts(npc, Protocols(ps))) == if npc.proto in ps then Yes else No
  {
    if ps != [] {
      assert Protocols(ps)[1..] == Protocols(ps[1..]);
      ProtocolChoice(npc, ps[1..]);
      assert ChoiceVerdicts(npc, Protocols(ps))[1..] == ChoiceVerdicts(npc, Protocols(ps[1..]));
    }
  }

  lemma StatefulCompilable(ps: seq<u32>, flags: u8, fmask: u8)
    ensures Compilable(EMPTY, StatefulRule(ps, flags, fmask))
  {
    hide Build, BuildItem;
    var items := StatefulRule(ps, flags, fmask);
    ProtocolsFit(OpenGroup(EMPTY, false), ps, false, false, 0);
    assert items[1..] == [items[1]] && items[1..][1..] == [];
    var h := BuildItem(EMPTY, items[0]);
    if h.Some? {
      BuildItemKeepsOk(EMPTY, items[0]);
      ItemFlags(EMPTY, items[0]);
      assert CallFits(h.value, items[1].call);
      assert Compilable(h.value, items[1..]);
    }
  }

  lemma StatefulExact(ps: seq<u32>, flags: u8, fmask: u8)
    requires FlagsExact(flags, fmask) && ps != [] && forall p :: p in ps ==> p == IPPROTO_TCP
    ensures Exact(StatefulRule(ps, flags, fmask), false, false)
  {
    var items := StatefulRule(ps, flags, fmask);
    assert items[1..] == [items[1]] && items[1..][1..] == [];
    ProtocolsExact(ps, false, false);
    assert OnlyTcp(items[0]) by {
      forall c | c in Protocols(ps) ensures c == Proto(IPPROTO_TCP) {
        var k :| 0 <= k < |ps| && Protocols(ps)[k] == c;
        assert ps[k] in ps;
      }
    }
    assert CallsExact(Calls(items[1])[1..], true, true);
    assert Exact(items[1..], true, true);
    assert items[0].calls[0] in Calls(items[0]);
  }

  lemma {:induction false} ProtocolsExact(ps: seq<u32>, l4: bool, tcp: bool)
    ensures CallsExact(Protocols(ps), l4, tcp)
  {
    if ps != [] {
      assert Protocols(ps)[1..] == Protocols(ps[1..]);
      ProtocolsExact(ps[1..], true, tcp);
    }
  }

  /** A byte that is not what the flags ask for. */
  function OtherByte(flags: u8): u8 { if flags != 0 then 0 else 0xff }

  lemma StatefulMissed(ps: seq<u32>, flags: u8, fmask: u8, p: u32)
    requires FlagsExact(flags, fmask) && p in ps && p != IPPROTO_TCP
    ensures var npc := FlagsPacket(p, OtherByte(flags));
      RuleMatches(npc, StatefulRule(ps, flags, fmask)) && !TestsMatch(npc, StatefulRule(ps, flags, fmask))
  {
    var items, npc := StatefulRule(ps, flags, fmask), FlagsPacket(p, OtherByte(flags));
    AndFrom255(fmask);
    assert ByteAt(npc, npc.l4off, 13) == Some(OtherByte(flags));
    ProtocolChoice(npc, ps);
    assert ItemVerdict(npc, items[0]) == Yes;
    var k :| 0 <= k < |ps| && ps[k] == p;
    assert Protocols(ps)[k] in Calls(items[0]);
    assert items[1..] == [items[1]];
    assert FlagsTest(npc, flags, fmask) == No;
    assert ItemTest(npc, items[1], true) == No;
    assert !TestsHold(npc, items[1..], true);
    forall c | c in Protocols(ps) ensures c.Proto? { }
  }

  /** A stateful rule on some protocols is compiled rightly exactly when TCP is the only one. */
  lemma StatefulExactly(ps: seq<u32>, flags: u8, fmask: u8)
    requires FlagsExact(flags, fmask) && ps != [] && Compiles(StatefulRule(ps, flags, fmask))
    ensures RightAlways(StatefulRule(ps, flags, fmask)) <==> forall p :: p in ps ==> p == IPPROTO_TCP
  {
    var items := StatefulRule(ps, flags, fmask);
    StatefulCompilable(ps, flags, fmask);
    hide Build, Compilable, Compiles, Filtered, RuleMatches, TestsMatch, Exact;
    if p :| p in ps && p != IPPROTO_TCP {
      StatefulMissed(ps, flags, fmask, p);
      WrongOn(FlagsPacket(p, OtherByte(flags)), items);
    } else {
      StatefulExact(ps, flags, fmask);
      forall npc: Npc | |npc.pkt| < W32
        ensures Filtered(npc, items) == Value(if RuleMatches(npc, items) then MAX32 else 0)
      {
        CompilerCorrect(npc, items);
      }
    }
  }

  function ProtoTests(ps: seq<u32>): seq<Elem> {
    seq(|ps|, i requires 0 <= i < |ps| => Test(AProto(ps[i])))
  }

  lemma {:induction false} ProtocolsBuild(g: Gen, ps: seq<u32>)
    requires g.group.Some?
    ensures var grp := g.group.value;
      var grp' := grp.(elems := grp.elems + ProtoTests(ps), blocks := grp.blocks + |ps|);
      BuildCalls(g, Protocols(ps)) == Some(g.(group := Some(grp'), l4 := g.l4 || ps != []))
    decreases |ps|
  {
    var grp := g.group.value;
    if ps == [] {
      assert grp.elems + ProtoTests(ps) == grp.elems;
    } else {
      var h := g.(group := Some(Group(grp.invert, grp.elems + [Test(AProto(ps[0]))], grp.blocks + 1)), l4 := true);
      assert Apply(g, Proto(ps[0])) == Some(h);
      assert Protocols(ps)[1..] == Protocols(ps[1..]);
      ProtocolsBuild(h, ps[1..]);
      assert grp.elems + [Test(AProto(ps[0]))] + ProtoTests(ps[1..]) == grp.elems + ProtoTests(ps);
    }
  }

  /** The pieces of a stateful rule on several protocols. */
  function StatefulPieces(ps: seq<u32>, flags: u8, fmask: u8): seq<Piece> {
    [Grouped(false, ProtoTests(ps)), Plain(Test(AVersion(0))), Plain(LoadX),
     Plain(Test(AByte(13, if fmask != flags then Some(fmask) else None, flags)))]
  }

  lemma StatefulGroup(ps: seq<u32>, g: Gen)
    requires 2 <= |ps| <= 40 && g == EMPTY.(pieces := [Grouped(false, ProtoTests(ps))], l4 := true)
    ensures BuildItem(EMPTY, Alternatives(false, Protocols(ps))) == Some(g)
  {
    hide BuildCalls;
    var o := OpenGroup(EMPTY, false);
    ProtocolsBuild(o, ps);
    BuildKeepsOk(o, Protocols(ps));
    assert [] + ProtoTests(ps) == ProtoTests(ps);
    ElemsBound(ProtoTests(ps));
    assert [] + [Grouped(false, ProtoTests(ps))] == [Grouped(false, ProtoTests(ps))];
  }

  lemma StatefulLast(g: Gen, h: Gen, ps: seq<u32>, flags: u8, fmask: u8)
    requires g == EMPTY.(pieces := [Grouped(false, ProtoTests(ps))], l4 := true)
    requires h == g.(pieces := StatefulPieces(ps, flags, fmask), fetched := true, xset := true)
    ensures Apply(g, TcpFlags(flags, fmask)) == Some(h)
  {
    var qs := StatefulPieces(ps, flags, fmask);
    assert Plains([LoadX]) == [Plain(LoadX)] && Plains([qs[3].elem]) == [qs[3]];
    assert [qs[0]] + [] + [Plain(Test(AVersion(0)))] + [Plain(LoadX)] + [qs[3]] == qs;
  }

  lemma StatefulBuild(ps: seq<u32>, flags: u8, fmask: u8)
    requires 2 <= |ps| <= 40
    ensures var b := Build(EMPTY, StatefulRule(ps, flags, fmask));
      b.Some? && b.value.pieces == StatefulPieces(ps, flags, fmask)
  {
    var items, qs := StatefulRule(ps, flags, fmask), StatefulPieces(ps, flags, fmask);
    var g := EMPTY.(pieces := [qs[0]], l4 := true);
    var h := g.(pieces := qs, fetched := true, xset := true);
    StatefulGroup(ps, g);
    BuildItemKeepsOk(EMPTY, items[0]);
    StatefulLast(g, h, ps, flags, fmask);
    ApplyKeepsOk(g, items[1].call);
    hide Apply, BuildCalls, GenOk, PiecesOk;
    assert items[1..] == [items[1]] && items[1..][1..] == [];
    assert BuildItem(g, items[1]) == Some(h);
    assert Build(h, []) == Some(h) && Build(g, items[1..]) == Some(h);
  }

  /** Rules on two or more protocols compile, unless there are very many. */
  lemma StatefulCompiles(ps: seq<u32>, flags: u8, fmask: u8)
    requires 2 <= |ps| <= 40
    ensures Compiles(StatefulRule(ps, flags, fmask))
  {
    var items, qs := StatefulRule(ps, flags, fmask), StatefulPieces(ps, flags, fmask);
    StatefulBuild(ps, flags, fmask);
    hide Build;
    assert Size(qs) == 5 * |ps| + 17 by {
      assert Size(qs[1..][1..][1..]) == 5;
      assert Size(qs[1..][1..]) == 10;
      assert Size(qs[1..]) == 15;
    }
    hide Size;
    ByPieces(FlagsPacket(6, 0), items);
  }

  /** "stateful ... proto { tcp, udp }" and a UDP packet whose fourteenth byte is zero. */
  lemma UdpMissed()
    ensures var npc, items := FlagsPacket(17, 0), StatefulRule([6, 17], 2, 0x17);
      Compiles(items) && RuleMatches(npc, items) && Filtered(npc, items) == Value(0)
  {
    hide Build, Compilable, Compiles, RuleMatches, TestsMatch;
    StatefulCompiles([6, 17], 2, 0x17);
    StatefulCompilable([6, 17], 2, 0x17);
    StatefulMissed([6, 17], 2, 0x17, 17);
    WrongOn(FlagsPacket(17, 0), StatefulRule([6, 17], 2, 0x17));
  }

  // ----- ICMP type and code in a group -------------------------------------------------------

  /** "ICMP, and type 8 with code 0" with the second criterion in a group. */
  function IcmpRule(): seq<Item> {
    [Single(Proto(1)), Alternatives(false, [Icmp(Some(8), Some(0))])]
  }

  function IcmpPieces(): seq<Piece> {
    [Plain(Test(AProto(1))), Plain(Test(AVersion(0))),
     Grouped(false, [LoadX, Test(AByte(0, None, 8)), Test(AByte(1, None, 0))])]
  }

  lemma IcmpSteps(g: Gen, o: Gen)
    requires g == EMPTY.(pieces := IcmpPieces()[..1], l4 := true)
    requires o == g.(pieces := IcmpPieces()[..2], group := Some(Group(false, IcmpPieces()[2].elems, 2)),
                     fetched := true, xset := true)
    ensures Apply(EMPTY, Proto(1)) == Some(g)
    ensures Apply(OpenGroup(g, false), Icmp(Some(8), Some(0))) == Some(o)
  {
    var ps := IcmpPieces();
    assert Plains([ps[0].elem]) == ps[..1] && [] + ps[..1] == ps[..1];
    assert ps[..1] + [] + [Plain(Test(AVersion(0)))] == ps[..2];
    assert [] + [LoadX] + ([Test(AByte(0, None, 8))] + [Test(AByte(1, None, 0))]) == ps[2].elems;
  }

  lemma IcmpBuild()
    ensures Build(EMPTY, IcmpRule()).Some? && Build(EMPTY, IcmpRule()).value.pieces == IcmpPieces()
    ensures Size(IcmpPieces()) < MAGIC
  {
    var items, ps := IcmpRule(), IcmpPieces();
    var g := EMPTY.(pieces := ps[..1], l4 := true);
    var o := g.(pieces := ps[..2], group := Some(Group(false, ps[2].elems, 2)), fetched := true, xset := true);
    var h := o.(pieces := ps, group := None);
    IcmpSteps(g, o);
    hide Apply;
    assert BuildCalls(o, []) == Some(o) && BuildCalls(OpenGroup(g, false), items[1].calls) == Some(o) by {
      assert items[1].calls[1..] == [];
    }
    BuildKeepsOk(OpenGroup(g, false), items[1].calls);
    ElemsBound(ps[2].elems);
    assert ps[..2] + [ps[2]] == ps;
    assert CloseGroup(o) == Some(h);
    assert BuildItem(EMPTY, items[0]) == Some(g) && BuildItem(g, items[1]) == Some(h);
    assert items[1..] == [items[1]] && items[1..][1..] == [];
    assert Build(h, []) == Some(h) && Build(g, items[1..]) == Some(h);
    assert Size(ps[1..][1..][1..]) == 0;
    assert Size(ps[1..][1..]) == 17;
    assert Size(ps[1..]) == 22;
  }

  /** An echo request with another code does not match, but the program accepts it. */
  lemma IcmpGroupAccepts()
    ensures var npc, items := Npc([8, 5], 4, 0, 1, (s, t) => false, 0), IcmpRule();
      Compiles(items) && !RuleMatches(npc, items) && Filtered(npc, items) == Value(MAX32)
  {
    var npc, items, ps := Npc([8, 5], 4, 0, 1, (s, t) => false, 0), IcmpRule(), IcmpPieces();
    IcmpBuild();
    assert IcmpHit(npc) by { IcmpEval(npc); }
    hide Build, EvalPieces, Size;
    ByPieces(npc, items);
  }

  predicate IcmpHit(npc: Npc) {
    EvalPieces(npc, IcmpPieces(), 0).Some? && !RuleMatches(npc, IcmpRule())
  }

  lemma IcmpEval(npc: Npc)
    requires npc.pkt == [8, 5] && npc.ipver == 4 && npc.l4off == 0 && npc.proto == 1
    ensures IcmpHit(npc)
  {
    var ps, items := IcmpPieces(), IcmpRule();
    assert ps[2].elems[1..][0] == Test(AByte(0, None, 8));
    assert ScanGroup(npc, ps[2].elems[1..], 0) == Hit(0);
    assert EvalPiece(npc, ps[2], 0) == Some(0);
    assert EvalPieces(npc, ps[1..][1..], 0) == Some(0);
    assert EvalPieces(npc, ps[1..], 0) == Some(0);
    var vs := [ByteVerdict(npc, 0, 8)] + [ByteVerdict(npc, 1, 0)];
    assert vs == [Yes, No] && vs[1..] == [No];
    assert AllOf(vs[1..]) == No && AllOf(vs) == No;
    assert CallVerdict(npc, Icmp(Some(8), Some(0))) == No;
    assert ChoiceVerdicts(npc, items[1].calls) == [No];
    assert AnyOf([No][1..]) == No;
    assert items[1] in items && ItemVerdict(npc, items[1]) == No;
  }

  // ----- X loaded too late -------------------------------------------------------------------

  /** "IPv4, TCP or source port 80, destination port 443": X is first loaded by the second choice. */
  function LateLoadRule(): seq<Item> {
    [Single(IpVer(Inet)), Alternatives(false, LateLoadChoice()), Single(Ports(false, 443, 443))]
  }

  function LateLoadPieces(): seq<Piece> {
    [Plain(Test(AVersion(4))),
     Grouped(false, [Test(AProto(6)), LoadX, Test(APort(0, 80))]),
     Plain(Test(APort(2, 443)))]
  }

  function LateLoadGen(n: nat): Gen
    requires n <= 3
  {
    Gen(LateLoadPieces()[..n], None, Inet, true, n >= 2, n >= 2)
  }

  function LateLoadChoice(): seq<Call> { [Proto(6), Ports(true, 80, 80)] }

  lemma LateLoadEnds()
    ensures Apply(EMPTY, IpVer(Inet)) == Some(LateLoadGen(1))
    ensures Apply(LateLoadGen(2), Ports(false, 443, 443)) == Some(LateLoadGen(3))
  {
    assert Plains([]) == [];
    assert LateLoadPieces()[..1] == [] + [] + [Plain(Test(AVersion(4)))] + [];
    assert Plains([Test(APort(2, 443))]) == [Plain(Test(APort(2, 443)))];
    assert LateLoadPieces()[..2] + [Plain(Test(APort(2, 443)))] == LateLoadPieces()[..3];
  }

  lemma LateLoadCalls(o: Gen)
    requires o == OpenGroup(LateLoadGen(1), false)
    ensures BuildCalls(o, LateLoadChoice())
         == Some(o.(group := Some(Group(false, LateLoadPieces()[1].elems, 2)), l4 := true, xset := true))
    ensures !GroupGood(false, false, LateLoadChoice())
  {
    var cs := LateLoadChoice();
    var o1 := o.(group := Some(Group(false, [Test(AProto(6))], 1)), l4 := true);
    assert [] + [Test(AProto(6))] == [Test(AProto(6))];
    assert Apply(o, cs[0]) == Some(o1);
    var o2 := o1.(group := Some(Group(false, LateLoadPieces()[1].elems, 2)), xset := true);
    assert [Test(AProto(6))] + [LoadX] + [Test(APort(0, 80))] == o2.group.value.elems;
    assert Apply(o1, cs[1]) == Some(o2);
    assert cs[1..] == [Ports(true, 80, 80)] && cs[1..][1..] == [];
    assert BuildCalls(o1, cs[1..]) == Some(o2);
    assert Blocks(cs[1..]) == 1;
    assert !Disciplined(false, false, 1, cs[1..]);
  }

  lemma LateLoadGroup()
    ensures BuildItem(LateLoadGen(1), Alternatives(false, LateLoadChoice())) == Some(LateLoadGen(2))
  {
    hide BuildCalls;
    var o := OpenGroup(LateLoadGen(1), false);
    LateLoadCalls(o);
    BuildKeepsOk(o, LateLoadChoice());
    LateLoadFits();
    assert LateLoadPieces()[..1] + [LateLoadPieces()[1]] == LateLoadPieces()[..2];
  }

  /** The rule compiles, to these pieces; its group is not a good one. */
  lemma LateLoadBuild()
    ensures (forall i :: i in LateLoadRule() ==> ItemOk(i))
    ensures Build(EMPTY, LateLoadRule()).Some? && Build(EMPTY, LateLoadRule()).value.pieces == LateLoadPieces()
    ensures !GroupGood(false, false, LateLoadChoice())
  {
    hide Apply, GroupGood;
    var items := LateLoadRule();
    LateLoadEnds();
    LateLoadGroup();
    LateLoadCalls(OpenGroup(LateLoadGen(1), false));
    assert items[1..][1..][1..] == [];
    assert LateLoadPieces()[..3] == LateLoadPieces();
    assert BuildItem(LateLoadGen(2), items[1..][1..][0]) == Some(LateLoadGen(3));
    assert Build(LateLoadGen(2), items[1..][1..]) == Some(LateLoadGen(3));
    assert Build(LateLoadGen(1), items[1..]) == Some(LateLoadGen(3));
  }

  lemma LateLoadFits()
    ensures |ElemsCode([Test(AProto(6)), LoadX, Test(APort(0, 80))])| < MAGIC
  {
  }

  /** A TCP packet to port 443 matches the rule, but its program looks for the port at offset 2. */
  lemma LateLoadMisses(npc: Npc)
    requires npc.ipver == 4 && npc.proto == 6 && |npc.pkt| < W32
    requires HalfAt(npc, npc.l4off, 2) == Some(443) && HalfAt(npc, 0, 2) != Some(443)
    ensures (forall i :: i in LateLoadRule() ==> ItemOk(i)) && Compiles(LateLoadRule())
    ensures RuleMatches(npc, LateLoadRule()) && Filtered(npc, LateLoadRule()) == Value(0)
  {
    LateLoadBuild();
    LateLoadSize();
    hide Build, EvalPieces, Size;
    ByPieces(npc, LateLoadRule());
    LateLoadMatches(npc);
    LateLoadFails(npc);
  }

  lemma LateLoadSize()
    ensures Size(LateLoadPieces()) < MAGIC
  {
    var ps := LateLoadPieces();
    assert Size(ps[1..][1..][1..]) == 0;
    assert Size(ps[1..][1..]) == 5;
    assert Size(ps[1..]) == 22;
  }

  lemma LateLoadMatches(npc: Npc)
    requires npc.ipver == 4 && npc.proto == 6 && HalfAt(npc, npc.l4off, 2) == Some(443)
    ensures RuleMatches(npc, LateLoadRule())
  {
    var items := LateLoadRule();
    var vs := ChoiceVerdicts(npc, items[1].calls);
    assert vs[0] == Yes;
    assert ItemVerdict(npc, items[1]) == Yes;
  }

  lemma LateLoadFails(npc: Npc)
    requires npc.ipver == 4 && npc.proto == 6 && HalfAt(npc, 0, 2) != Some(443)
    ensures EvalPieces(npc, LateLoadPieces(), 0).None?
  {
    var ps := LateLoadPieces();
    assert EvalPiece(npc, ps[0], 0) == Some(0);
    assert ScanGroup(npc, ps[1].elems, 0) == Hit(0);
    assert EvalPiece(npc, ps[1], 0) == Some(0);
    assert EvalPieces(npc, ps[1..][1..], 0) == None;
    assert EvalPieces(npc, ps[1..], 0) == None;
  }
}
