/**
  * The rule compiler of src/npfctl/npf_bpf_comp.c: the calls that build a rule, what each of them
  * adds to the rule, and the generator object that writes and patches the byte-code.
  */
module RuleCompiler {
  import opened Words
  import opened BpfMachine
  import opened BpfCode

  datatype Af = Unspec | Inet | Inet6

  const NO_NETMASK: u8 := 0xff

  /** The emitting calls: npfctl_bpf_ipver, _proto, _cidr, _ports, _tcpfl, _icmp and _table. */
  datatype Call =
    | IpVer(family: Af)
    | Proto(proto: u32)
    | Cidr(src: bool, family: Af, addr: seq<u32>, mask: u8)
    | Ports(src: bool, from: u16, to: u16)
    | TcpFlags(flags: u8, fmask: u8)
    | Icmp(itype: Option<u32>, icode: Option<u32>)
    | Table(src: bool, tid: u32)

  /** An open group: its polarity, the tests emitted so far and the number of counted blocks. */
  datatype Group = Group(invert: bool, elems: seq<Elem>, blocks: nat)

  /** The rule built so far. */
  datatype Gen = Gen(pieces: seq<Piece>, group: Option<Group>, af: Af, fetched: bool, l4: bool, xset: bool)

  const EMPTY := Gen([], None, Unspec, false, false, false)

  function Version(af: Af): u32 {
    match af
    case Inet => 4
    case Inet6 => 6
    case Unspec => 0
  }

  // ----- what each call adds -----------------------------------------------------------------

  function Emit(g: Gen, es: seq<Elem>, blocks: nat): Gen {
    match g.group
    case None => g.(pieces := g.pieces + Plains(es))
    case Some(Group(invert, elems, n)) => g.(group := Some(Group(invert, elems + es, n + blocks)))
  }

  function OpenGroup(g: Gen, invert: bool): Gen {
    g.(group := Some(Group(invert, [], 0)))
  }

  /** Does leaving the group keep its tests as they are?  True for at most one positive block. */
  predicate Transparent(grp: Group) {
    !grp.invert && grp.blocks <= 1
  }

  /** None is the generation error for too many instructions. */
  function CloseGroup(g: Gen): Option<Gen>
    requires GenOk(g) && g.group.Some?
  {
    var grp := g.group.value;
    if Transparent(grp) then Some(g.(pieces := g.pieces + Plains(grp.elems), group := None))
    else if |ElemsCode(grp.elems)| >= MAGIC then None
    else Some(g.(pieces := g.pieces + [Grouped(grp.invert, grp.elems)], group := None))
  }

  /** Must fetch_l3 add a test of the IP version? */
  predicate NeedsVersion(g: Gen, af: Af) {
    !g.fetched || (af != Unspec && g.af == Unspec)
  }

  /** The version test goes in front of the group, whose start moves behind it. */
  function AddVersion(g: Gen, af: Af): Gen {
    var reopened := if g.group.Some? && g.group.value.invert then [Grouped(true, [])] else [];
    g.(pieces := g.pieces + reopened + [Plain(Test(AVersion(Version(af))))], af := af, fetched := true)
  }

  function FetchL3(g: Gen, af: Af, wantX: bool): Option<Gen> {
    var h := if NeedsVersion(g, af) then Some(AddVersion(g, af))
             else if af != Unspec && af != g.af then None
             else Some(g);
    if h.Some? && wantX && !h.value.xset then Some(Emit(h.value, [LoadX], 0).(xset := true)) else h
  }

  function CidrElems(off: nat, addr: seq<u32>, length: nat): seq<Elem>
    requires off + 4 * |addr| < W16
    decreases |addr|
  {
    if addr == [] || length == 0 then []
    else
      var n := if length >= 32 then 32 else length;
      [Test(AWord(off, n, addr[0]))] + CidrElems(off + 4, addr[1..], length - n)
  }

  function AddrOffset(src: bool, af: Af): u16 {
    match af
    case Inet6 => if src then 8 else 24
    case _ => if src then 12 else 16
  }

  function MaskLength(af: Af, mask: u8): nat {
    if mask == NO_NETMASK then (if af == Inet6 then 128 else 32) else mask
  }

  function AddrWords(af: Af, addr: seq<u32>): seq<u32>
    requires |addr| == 4
  {
    if af == Inet6 then addr else addr[..1]
  }

  /** The tests of a call; whether TCP flags need their own protocol test depends on `l4`. */
  function CallElems(c: Call, l4: bool): seq<Elem>
    requires CallOk(c)
  {
    match c
    case IpVer(_) => []
    case Proto(proto) => [Test(AProto(proto))]
    case Cidr(src, af, addr, mask) =>
      CidrElems(AddrOffset(src, af), AddrWords(af, addr), MaskLength(af, mask))
    case Ports(src, from, to) =>
      var off: u16 := if src then 0 else 2;
      [Test(if from == to then APort(off, from) else ARange(off, from, to))]
    case TcpFlags(flags, fmask) =>
      var mask := if fmask != flags then Some(fmask) else None;
      [Test(if l4 then AByte(13, mask, flags) else ATcpFlags(mask, flags))]
    case Icmp(itype, icode) =>
      (if itype.Some? then [Test(AByte(0, None, itype.value))] else []) +
      (if icode.Some? then [Test(AByte(1, None, icode.value))] else [])
    case Table(src, tid) => [Test(ATable(src, tid))]
  }

  function CallBlocks(c: Call): nat {
    match c
    case IpVer(_) => 0
    case Icmp(itype, icode) => (if itype.Some? then 1 else 0) + (if icode.Some? then 1 else 0)
    case _ => 1
  }

  predicate UsesL3(c: Call) { !c.Proto? && !c.Table? }
  predicate UsesX(c: Call) { c.Ports? || c.TcpFlags? || c.Icmp? }
  function Family(c: Call): Af { if c.IpVer? || c.Cidr? then c.family else Unspec }

  /** The assertions of the emitters on their arguments. */
  predicate CallOk(c: Call) {
    match c
    case Cidr(_, af, addr, mask) => af != Unspec && |addr| == 4 && (1 <= mask <= 128 || mask == NO_NETMASK)
    case Icmp(itype, icode) => itype.Some? || icode.Some?
    case Table(_, tid) => tid < SRC_FLAG
    case _ => true
  }

  /** The assertions of the emitters on the state they are called in. */
  predicate CallFits(g: Gen, c: Call) {
    && (c.Ports? || c.Icmp? ==> g.l4)
    && (c.TcpFlags? && !g.l4 ==> g.group.None?)
    && (UsesL3(c) && NeedsVersion(g, Family(c)) && g.group.Some? ==> g.group.value.blocks == 0)
  }

  /** One call; None is the error of mixed address families. */
  function Apply(g: Gen, c: Call): Option<Gen>
    requires CallOk(c)
  {
    var h := if UsesL3(c) then FetchL3(g, Family(c), UsesX(c)) else Some(g);
    if h.None? then None
    else Some(Emit(h.value, CallElems(c, g.l4), CallBlocks(c)).(l4 := g.l4 || c.Proto?))
  }

  // ----- well-formed generator states --------------------------------------------------------

  predicate GenOk(g: Gen) {
    PiecesOk(g.pieces) && (g.group.Some? ==> forall e :: e in g.group.value.elems ==> ElemOk(e))
  }

  /** Between calls a group without blocks has no tests either. */
  predicate Settled(g: Gen) {
    g.group.Some? && g.group.value.blocks == 0 ==> g.group.value.elems == []
  }

  function GenCode(g: Gen): seq<Insn>
    requires GenOk(g)
  {
    PiecesCode(g.pieces) + if g.group.Some? then ElemsCode(g.group.value.elems) else []
  }

  lemma EmitCode(g: Gen, es: seq<Elem>, blocks: nat)
    requires GenOk(g) && forall e :: e in es ==> ElemOk(e)
    ensures GenOk(Emit(g, es, blocks)) && GenCode(Emit(g, es, blocks)) == GenCode(g) + ElemsCode(es)
  {
    if g.group.None? {
      PiecesConcat(g.pieces, Plains(es));
      PlainsCode(es);
    } else {
      ElemsConcat(g.group.value.elems, es);
    }
  }

  lemma {:induction false} CidrElemsOk(off: nat, addr: seq<u32>, length: nat)
    requires off + 4 * |addr| < W16
    ensures forall e :: e in CidrElems(off, addr, length) ==> ElemOk(e)
    ensures (addr == [] || length == 0) <==> CidrElems(off, addr, length) == []
    decreases |addr|
  {
    if addr != [] && length != 0 {
      CidrElemsOk(off + 4, addr[1..], length - if length >= 32 then 32 else length);
    }
  }

  lemma CallElemsOk(c: Call, l4: bool)
    requires CallOk(c)
    ensures forall e :: e in CallElems(c, l4) ==> ElemOk(e)
    ensures CallBlocks(c) == 0 ==> CallElems(c, l4) == []
  {
    if c.Cidr? {
      CidrElemsOk(AddrOffset(c.src, c.family), AddrWords(c.family, c.addr), MaskLength(c.family, c.mask));
    }
  }

  lemma PushCode(cs: seq<Piece>, c: Piece)
    requires PiecesOk(cs) && PieceOk(c) && PieceFits(c)
    ensures PiecesOk(cs + [c]) && PiecesCode(cs + [c]) == PiecesCode(cs) + PieceCode(c)
  {
    hide PieceCode;
    PiecesConcat(cs, [c]);
    assert [c][1..] == [];
  }

  lemma EmptyGroupCode()
    ensures PieceCode(Grouped(true, [])) == FailurePath(true)
  {
  }

  /** Leaving a group: nothing changes in the code, or the tests are swapped and the path added. */
  lemma CloseGroupCode(g: Gen)
    requires GenOk(g) && g.group.Some? && CloseGroup(g).Some?
    ensures var grp, h := g.group.value, CloseGroup(g).value;
            && GenOk(h)
            && (Transparent(grp) ==> GenCode(h) == GenCode(g))
            && (!Transparent(grp) ==>
                  GenCode(h) == PiecesCode(g.pieces) + Patch(ElemsCode(grp.elems), true) + FailurePath(grp.invert))
  {
    hide ElemsCode, PieceCode, PiecesCode, Plains, PiecesOk, ElemOk;
    var grp := g.group.value;
    if Transparent(grp) {
      TransparentCode(g.pieces, grp.elems);
    } else {
      SwappedCode(g.pieces, grp.invert, grp.elems);
    }
  }

  lemma TransparentCode(cs: seq<Piece>, es: seq<Elem>)
    requires PiecesOk(cs) && forall e :: e in es ==> ElemOk(e)
    ensures PiecesOk(cs + Plains(es)) && PiecesCode(cs + Plains(es)) == PiecesCode(cs) + ElemsCode(es)
  {
    hide ElemsCode, PieceCode, PiecesCode, Plains, ElemOk, PieceOk, PieceFits;
    PlainsCode(es);
    JoinCode(cs, Plains(es));
  }

  lemma SwappedCode(cs: seq<Piece>, invert: bool, es: seq<Elem>)
    requires PiecesOk(cs) && (forall e :: e in es ==> ElemOk(e)) && |ElemsCode(es)| < MAGIC
    ensures PiecesOk(cs + [Grouped(invert, es)])
    ensures PiecesCode(cs + [Grouped(invert, es)]) == PiecesCode(cs) + Patch(ElemsCode(es), true) + FailurePath(invert)
  {
    hide ElemsCode, PiecesCode, ElemOk, PiecesOk;
    PushCode(cs, Grouped(invert, es));
  }

  lemma JoinCode(xs: seq<Piece>, ys: seq<Piece>)
    requires PiecesOk(xs) && PiecesOk(ys)
    ensures PiecesOk(xs + ys) && PiecesCode(xs + ys) == PiecesCode(xs) + PiecesCode(ys)
  {
    hide PieceCode, PiecesCode, PieceOk, PieceFits;
    PiecesConcat(xs, ys);
  }

  lemma LoadXCode(g: Gen)
    requires GenOk(g)
    ensures GenOk(Emit(g, [LoadX], 0)) && GenCode(Emit(g, [LoadX], 0)) == GenCode(g) + [Stmt(0x61, MW_L4OFF)]
  {
    EmitCode(g, [LoadX], 0);
    hide GenCode, Emit;
    assert ElemsCode([LoadX][1..]) == [];
  }

  /** What a call adds to the code, after its layer 3 part. */
  lemma CallCode(g: Gen, c: Call, l4: bool)
    requires GenOk(g) && CallOk(c)
    requires g.group.Some? && CallBlocks(c) == 0 ==> Settled(g)
    ensures (forall e :: e in CallElems(c, l4) ==> ElemOk(e))
    ensures var h := Emit(g, CallElems(c, l4), CallBlocks(c));
            GenOk(h) && Settled(h) && GenCode(h) == GenCode(g) + ElemsCode(CallElems(c, l4))
  {
    CallElemsOk(c, l4);
    EmitCode(g, CallElems(c, l4), CallBlocks(c));
  }

  lemma OneElemCode(e: Elem)
    requires ElemOk(e)
    ensures ElemsCode([e]) == ElemCode(e)
  {
  }

  // ----- the generator object ----------------------------------------------------------------

  class RuleCode {
    var prog: seq<Insn>
    var nblocks: nat
    var af: Af
    var fetchedL3: bool
    var checkedL4: bool
    var xEqL4off: bool
    var ingroup: bool
    var invert: bool
    var goff: nat
    var gblock: nat
    ghost var gen: Gen

    /** The code in the buffer is the code of the rule built so far. */
    ghost predicate Valid()
      reads this
    {
      && GenOk(gen) && prog == GenCode(gen)
      && af == gen.af && fetchedL3 == gen.fetched && checkedL4 == gen.l4 && xEqL4off == gen.xset
      && ingroup == gen.group.Some?
      && (if ingroup then
            && invert == gen.group.value.invert && goff == |PiecesCode(gen.pieces)|
            && nblocks - gblock == gen.group.value.blocks
          else goff == gblock == 0)
    }

    constructor ()
      ensures Valid() && gen == EMPTY
    {
      prog, nblocks, af := [], 0, Unspec;
      fetchedL3, checkedL4, xEqL4off := false, false, false;
      ingroup, invert, goff, gblock := false, false, 0, 0;
      gen := EMPTY;
    }

    /** fixup_jumps: patches the instructions of a range in place; false when it is too long. */
    method FixupJumps(start: nat, end: nat, swap: bool) returns (ok: bool)
      requires start <= end <= |prog|
      modifies this`prog
      ensures ok <==> end - start < MAGIC
      ensures ok ==> prog == old(prog)[..start] + Patch(old(prog)[start..end], swap) + old(prog)[end..]
    {
      ghost var p := prog;
      var i := start;
      while i < end
        invariant start <= i <= end && |prog| == |p|
        invariant i > start ==> end - start < MAGIC
        invariant forall j :: 0 <= j < |p| ==>
          prog[j] == if start <= j < i then PatchInsn(p[j], end - j, swap) else p[j]
      {
        var failOff := end - i;
        if failOff >= MAGIC {
          return false;
        }
        var f := prog[i];
        if IsJump(f) {
          if IsAlways(f) {
            if f.k == MAGIC {
              f := f.(k := if swap then 0 else failOff);
            }
          } else {
            var seenMagic := false;
            if f.jt == MAGIC {
              f, seenMagic := f.(jt := failOff), true;
            }
            if f.jf == MAGIC {
              f, seenMagic := f.(jf := failOff), true;
            }
            if seenMagic && swap {
              f := f.(jt := f.jf, jf := f.jt);
            }
          }
        }
        prog := prog[i := f];
        i := i + 1;
      }
      return true;
    }

    /** npfctl_bpf_group_enter. */
    method GroupEnter(inv: bool)
      requires Valid() && !ingroup
      modifies this
      ensures Valid() && gen == OpenGroup(old(gen), inv)
    {
      goff, gblock, invert := |prog|, nblocks, inv;
      ingroup := true;
      gen := OpenGroup(gen, inv);
    }

    /** npfctl_bpf_group_exit; false is the generation error. */
    method GroupExit() returns (ok: bool)
      requires Valid() && ingroup
      modifies this
      ensures ok <==> CloseGroup(old(gen)).Some?
      ensures ok ==> Valid() && gen == CloseGroup(old(gen)).value
    {
      hide PiecesCode, ElemsCode, PiecesOk;
      ghost var pieces, grp := gen.pieces, gen.group.value;
      var curoff := |prog|;
      ingroup := false;
      if !invert && nblocks - gblock <= 1 {
        goff, gblock := 0, 0;
        CloseGroupCode(gen);
        gen := CloseGroup(gen).value;
        return true;
      }
      if invert {
        prog := prog + [Stmt(0x05, 1)];
      }
      prog := prog + [Stmt(0x06, 0)];
      ghost var body := ElemsCode(grp.elems);
      assert prog == PiecesCode(pieces) + body + FailurePath(grp.invert);
      assert prog[goff..curoff] == body && prog[..goff] == PiecesCode(pieces);
      ok := FixupJumps(goff, curoff, true);
      if !ok {
        return;
      }
      CloseGroupCode(gen);
      goff, gblock := 0, 0;
      gen := CloseGroup(gen).value;
    }

    /** fetch_l3; false is the error of mixed address families. */
    method FetchLayer3(family: Af, wantX: bool) returns (ok: bool)
      requires Valid() && Settled(gen)
      requires NeedsVersion(gen, family) && ingroup ==> nblocks == gblock
      modifies this
      ensures ok <==> FetchL3(old(gen), family, wantX).Some?
      ensures ok ==> Valid() && gen == FetchL3(old(gen), family, wantX).value
    {
      hide PiecesCode, ElemsCode, PiecesOk;
      if !fetchedL3 || (family != Unspec && af == Unspec) {
        InsertVersion(family);
      } else if family != Unspec && family != af {
        return false;
      }
      if wantX && !xEqL4off {
        prog := prog + [Stmt(0x61, MW_L4OFF)];
        xEqL4off := true;
        LoadXCode(gen);
        gen := Emit(gen, [LoadX], 0).(xset := true);
      }
      return true;
    }

    /** The first half of fetch_l3: leave the still empty group, test the version, start it again. */
    method InsertVersion(family: Af)
      requires Valid() && Settled(gen) && (ingroup ==> nblocks == gblock)
      modifies this
      ensures Valid() && gen == AddVersion(old(gen), family)
    {
      var wasIn, inv := ingroup, invert;
      if wasIn {
        var _ := GroupExit();
      }
      var ver := Version(family);
      prog := prog + [Stmt(0x60, MW_IPVER),
                      Insn(0x15, if ver != 0 then 0 else MAGIC, if ver != 0 then MAGIC else 0, ver)];
      fetchedL3, af := true, family;
      ghost var e := Test(AVersion(ver));
      EmitCode(gen, [e], 0);
      assert Plains([e]) == [Plain(e)];
      gen := Emit(gen, [e], 0).(fetched := true, af := family);
      if wasIn {
        GroupEnter(inv);
      }
    }

    /** npfctl_bpf_ipver. */
    method IpVersionBlock(family: Af) returns (ok: bool)
      requires Valid() && Settled(gen) && CallFits(gen, IpVer(family))
      modifies this
      ensures ok <==> Apply(old(gen), IpVer(family)).Some?
      ensures ok ==> Valid() && Settled(gen) && gen == Apply(old(gen), IpVer(family)).value
    {
      hide PiecesCode, ElemsCode, PiecesOk;
      ok := FetchLayer3(family, false);
      if ok {
        CallCode(gen, IpVer(family), checkedL4);
        NoElems(gen);
      }
    }

    /** add_insns and done_block: the instructions of a call go to the end of the buffer. */
    method AddBlock(code: seq<Insn>, ghost c: Call, blocks: nat)
      requires Valid() && CallOk(c) && blocks == CallBlocks(c) > 0
      requires (forall e :: e in CallElems(c, checkedL4) ==> ElemOk(e)) && code == ElemsCode(CallElems(c, checkedL4))
      modifies this`prog, this`nblocks, this`gen
      ensures Valid() && Settled(gen) && gen == Emit(old(gen), CallElems(c, checkedL4), CallBlocks(c))
    {
      hide PiecesCode, ElemsCode, PiecesOk, CallElems;
      prog := prog + code;
      nblocks := nblocks + blocks;
      CallCode(gen, c, checkedL4);
      gen := Emit(gen, CallElems(c, checkedL4), CallBlocks(c));
    }

    /** npfctl_bpf_proto. */
    method ProtoBlock(proto: u32)
      requires Valid() && Settled(gen)
      modifies this
      ensures Valid() && Settled(gen) && Apply(old(gen), Proto(proto)) == Some(gen)
    {
      hide PiecesCode, ElemsCode, PiecesOk;
      OneElemCode(Test(AProto(proto)));
      AddBlock([Stmt(0x60, MW_L4PROTO), Insn(0x15, 0, MAGIC, proto)], Proto(proto), 1);
      checkedL4 := true;
      gen := gen.(l4 := true);
    }

    /** npfctl_bpf_cidr: one comparison for every address word the mask covers. */
    method CidrBlock(src: bool, family: Af, addr: seq<u32>, mask: u8) returns (ok: bool)
      requires Valid() && Settled(gen)
      requires CallOk(Cidr(src, family, addr, mask)) && CallFits(gen, Cidr(src, family, addr, mask))
      modifies this
      ensures ok <==> Apply(old(gen), Cidr(src, family, addr, mask)).Some?
      ensures ok ==> Valid() && Settled(gen) && gen == Apply(old(gen), Cidr(src, family, addr, mask)).value
    {
      hide PiecesCode, ElemsCode, PiecesOk;
      ok := FetchLayer3(family, false);
      if ok {
        var code := CidrCode(AddrOffset(src, family), AddrWords(family, addr), MaskLength(family, mask));
        AddBlock(code, Cidr(src, family, addr, mask), 1);
      }
    }

    /** npfctl_bpf_ports. */
    method PortsBlock(src: bool, from: u16, to: u16) returns (ok: bool)
      requires Valid() && Settled(gen) && CallFits(gen, Ports(src, from, to))
      modifies this
      ensures ok <==> Apply(old(gen), Ports(src, from, to)).Some?
      ensures ok ==> Valid() && Settled(gen) && gen == Apply(old(gen), Ports(src, from, to)).value
    {
      hide PiecesCode, ElemsCode, PiecesOk;
      ok := FetchLayer3(Unspec, true);
      if ok {
        var code := PortsCode(src, from, to, checkedL4);
        AddBlock(code, Ports(src, from, to), 1);
      }
    }

    /** npfctl_bpf_tcpfl. */
    method TcpFlagsBlock(flags: u8, fmask: u8) returns (ok: bool)
      requires Valid() && Settled(gen) && CallFits(gen, TcpFlags(flags, fmask))
      modifies this
      ensures ok <==> Apply(old(gen), TcpFlags(flags, fmask)).Some?
      ensures ok ==> Valid() && Settled(gen) && gen == Apply(old(gen), TcpFlags(flags, fmask)).value
    {
      hide PiecesCode, ElemsCode, PiecesOk;
      ok := FetchLayer3(Unspec, true);
      if ok {
        var code := TcpFlagsCode(flags, fmask, checkedL4);
        AddBlock(code, TcpFlags(flags, fmask), 1);
      }
    }

    /** npfctl_bpf_icmp. */
    method IcmpBlock(itype: Option<u32>, icode: Option<u32>) returns (ok: bool)
      requires Valid() && Settled(gen) && CallOk(Icmp(itype, icode)) && CallFits(gen, Icmp(itype, icode))
      modifies this
      ensures ok <==> Apply(old(gen), Icmp(itype, icode)).Some?
      ensures ok ==> Valid() && Settled(gen) && gen == Apply(old(gen), Icmp(itype, icode)).value
    {
      hide PiecesCode, ElemsCode, PiecesOk;
      ok := FetchLayer3(Unspec, true);
      if ok {
        var code, blocks := IcmpCode(itype, icode, checkedL4);
        AddBlock(code, Icmp(itype, icode), blocks);
      }
    }

    /** npfctl_bpf_table. */
    method TableBlock(src: bool, tid: u32)
      requires Valid() && Settled(gen) && CallOk(Table(src, tid))
      modifies this
      ensures Valid() && Settled(gen) && Apply(old(gen), Table(src, tid)) == Some(gen)
    {
      hide PiecesCode, ElemsCode, PiecesOk;
      OneElemCode(Test(ATable(src, tid)));
      AddBlock([Stmt(0x00, if src then SRC_FLAG + tid else tid), Stmt(0x27, COP_TABLE),
                Insn(0x15, MAGIC, 0, 0)], Table(src, tid), 1);
    }

    /** npfctl_bpf_complete; false is the generation error, no code means no program. */
    method Complete() returns (ok: bool, code: seq<Insn>)
      requires Valid() && !ingroup
      modifies this`prog
      ensures ok <==> |PiecesCode(gen.pieces)| < MAGIC
      ensures ok ==> code == prog == CompleteCode(PiecesCode(gen.pieces))
    {
      hide PiecesCode;
      ghost var p := PiecesCode(gen.pieces);
      assert prog == p;
      var retoff := |prog|;
      if retoff == 0 {
        return true, [];
      }
      prog := prog + [Stmt(0x06, MAX32), Stmt(0x06, 0)];
      ok := FixupJumps(0, retoff, false);
      assert ok ==> prog == [] + Patch(p, false) + [Stmt(0x06, MAX32), Stmt(0x06, 0)];
      code := prog;
    }
  }

  lemma NoElems(g: Gen)
    requires GenOk(g)
    ensures Emit(g, [], 0) == g
  {
    if g.group.None? {
      assert g.pieces + Plains([]) == g.pieces;
    } else {
      assert g.group.value.elems + [] == g.group.value.elems;
    }
  }

  method PortsCode(src: bool, from: u16, to: u16, l4: bool) returns (code: seq<Insn>)
    ensures forall e :: e in CallElems(Ports(src, from, to), l4) ==> ElemOk(e)
    ensures code == ElemsCode(CallElems(Ports(src, from, to), l4))
  {
    hide ElemsCode;
    OneElemCode(CallElems(Ports(src, from, to), l4)[0]);
    code := [Stmt(0x48, if src then 0 else 2)];
    if from == to {
      code := code + [Insn(0x15, 0, MAGIC, from)];
    } else {
      code := code + [Insn(0x35, 0, 1, from), Insn(0x25, 0, 1, to), Stmt(0x05, MAGIC)];
    }
  }

  method TcpFlagsCode(flags: u8, fmask: u8, l4: bool) returns (code: seq<Insn>)
    ensures forall e :: e in CallElems(TcpFlags(flags, fmask), l4) ==> ElemOk(e)
    ensures code == ElemsCode(CallElems(TcpFlags(flags, fmask), l4))
  {
    hide ElemsCode;
    OneElemCode(CallElems(TcpFlags(flags, fmask), l4)[0]);
    var usingMask := fmask != flags;
    code := [];
    if !l4 {
      code := code + [Stmt(0x60, MW_L4PROTO), Insn(0x15, 0, if usingMask then 3 else 2, IPPROTO_TCP)];
    }
    code := code + [Stmt(0x50, 13)];
    if usingMask {
      code := code + [Stmt(0x54, fmask)];
    }
    code := code + [Insn(0x15, 0, MAGIC, flags)];
  }

  method IcmpCode(itype: Option<u32>, icode: Option<u32>, l4: bool) returns (code: seq<Insn>, blocks: nat)
    requires CallOk(Icmp(itype, icode))
    ensures forall e :: e in CallElems(Icmp(itype, icode), l4) ==> ElemOk(e)
    ensures code == ElemsCode(CallElems(Icmp(itype, icode), l4)) && blocks == CallBlocks(Icmp(itype, icode))
  {
    ghost var ts := if itype.Some? then [Test(AByte(0, None, itype.value))] else [];
    ghost var cs := if icode.Some? then [Test(AByte(1, None, icode.value))] else [];
    ElemsConcat(ts, cs);
    code, blocks := [], 0;
    if itype.Some? {
      OneElemCode(ts[0]);
      code := code + [Stmt(0x50, 0), Insn(0x15, 0, MAGIC, itype.value)];
      blocks := blocks + 1;
    }
    assert code == ElemsCode(ts);
    if icode.Some? {
      OneElemCode(cs[0]);
      code := code + [Stmt(0x50, 1), Insn(0x15, 0, MAGIC, icode.value)];
      blocks := blocks + 1;
    }
  }

  lemma NoElemsCode()
    ensures ElemsCode([]) == []
  {
  }

  lemma ElemsCons(es: seq<Elem>)
    requires es != [] && forall e :: e in es ==> ElemOk(e)
    ensures ElemsCode(es) == ElemCode(es[0]) + ElemsCode(es[1..])
  {
  }

  /** The loop of npfctl_bpf_cidr over the address words. */
  method CidrCode(off: nat, addr: seq<u32>, mask: nat) returns (code: seq<Insn>)
    requires off + 4 * |addr| < W16
    ensures forall e :: e in CidrElems(off, addr, mask) ==> ElemOk(e)
    ensures code == ElemsCode(CidrElems(off, addr, mask))
  {
    hide ElemsCode;
    CidrElemsOk(off, addr, mask);
    NoElemsCode();
    code := [];
    var length, i := mask, 0;
    while i < |addr|
      invariant 0 <= i <= |addr|
      invariant forall e :: e in CidrElems(off + 4 * i, addr[i..], length) ==> ElemOk(e)
      invariant code + ElemsCode(CidrElems(off + 4 * i, addr[i..], length)) == ElemsCode(CidrElems(off, addr, mask))
    {
      if length == 0 {
        break;
      }
      ghost var rest := CidrElems(off + 4 * i, addr[i..], length);
      var woff: u16 := off + 4 * i;
      assert addr[i..][0] == addr[i] && addr[i..][1..] == addr[i + 1..];
      assert off + 4 * i + 4 == off + 4 * (i + 1);
      var word := [Stmt(0x20, woff)];
      if length >= 32 {
        length := length - 32;
      } else {
        word := word + [Stmt(0x54, WordMask(length))];
        length := 0;
      }
      word := word + [Insn(0x15, 0, MAGIC, addr[i])];
      assert rest[1..] == CidrElems(off + 4 * (i + 1), addr[i + 1..], length);
      ElemsCons(rest);
      code := code + word;
      i := i + 1;
    }
  }
}
