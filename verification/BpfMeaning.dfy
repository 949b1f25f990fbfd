/**
  * The meaning of generated byte-code: running the completed program on any packet, short ones
  * included, evaluates the pieces it was generated from.
  */
module BpfMeaning {
  import opened Words
  import opened BpfMachine
  import opened BpfCode

  /** The outcome of one test; a load past the end of the packet ends the whole program. */
  datatype Verdict = Yes | No | Short

  function Decide(b: bool): Verdict { if b then Yes else No }

  /** The leading bits of a word, with the others cleared, are the wanted word. */
  predicate MaskAgrees(v: u32, len: nat, word: u32)
    requires 1 <= len <= 32
  {
    v / Pow2(32 - len) == word / Pow2(32 - len) && word % Pow2(32 - len) == 0
  }

  function HalfAt(npc: Npc, x: u32, off: u16): Option<u32> {
    if x + off < W32 then LoadHalf(npc.pkt, x + off) else None
  }

  function ByteAt(npc: Npc, x: u32, off: u16): Option<u32> {
    if x + off < W32 then LoadByte(npc.pkt, x + off) else None
  }

  function Masked(v: u32, mask: Option<u8>): u32 {
    if mask.Some? then And(v, mask.value) else v
  }

  function EvalByte(npc: Npc, x: u32, off: u16, mask: Option<u8>, value: u32): Verdict {
    var b := ByteAt(npc, x, off);
    if b.None? then Short else Decide(Masked(b.value, mask) == value)
  }

  /** A test on a packet, given the current value of X. */
  function EvalAtom(npc: Npc, a: Atom, x: u32): Verdict
    requires AtomOk(a)
  {
    match a
    case AVersion(ver) => Decide(if ver != 0 then npc.ipver == ver else npc.ipver != 0)
    case AProto(proto) => Decide(npc.proto == proto)
    case AWord(off, len, word) =>
      var v := LoadWord(npc.pkt, off);
      if v.None? then Short else Decide(MaskAgrees(v.value, len, word))
    case APort(off, port) =>
      var v := HalfAt(npc, x, off);
      if v.None? then Short else Decide(v.value == port)
    case ARange(off, from, to) =>
      var v := HalfAt(npc, x, off);
      if v.None? then Short else Decide(from <= v.value <= to)
    case AByte(off, mask, value) => EvalByte(npc, x, off, mask, value)
    case ATcpFlags(mask, value) =>
      if npc.proto != IPPROTO_TCP then Yes else EvalByte(npc, x, 13, mask, value)
    case ATable(src, tid) => Decide(npc.lookup(src, tid))
  }

  /** A test whose jumps have been swapped: the range loses its only magic jump. */
  function EvalSwapped(npc: Npc, a: Atom, x: u32): Verdict
    requires AtomOk(a)
  {
    match a
    case ARange(off, _, _) => if HalfAt(npc, x, off).None? then Short else No
    case ATcpFlags(mask, value) =>
      if npc.proto != IPPROTO_TCP then No else EvalByte(npc, x, 13, mask, value)
    case _ => EvalAtom(npc, a, x)
  }

  // ----- running the code of one test --------------------------------------------------------

  function CopOf(npc: Npc): (u32, u32, map<nat, u32>) -> CopResult {
    (f: u32, a: u32, mem: map<nat, u32>) =>
      if f == COP_TABLE then CopResult(if npc.lookup(a >= SRC_FLAG, a % SRC_FLAG) then 1 else 0, map[])
      else CopResult(npc.ipver, Prepared(npc))
  }

  /** The scratch words as npf_bpf_prepare fills them. */
  function Prepared(npc: Npc): map<nat, u32> {
    map[MW_IPVER := npc.ipver, MW_L4OFF := npc.l4off, MW_L4PROTO := npc.proto]
  }

  function NpfEnv(npc: Npc): Env
    requires |npc.pkt| < W32
  {
    Env(npc.pkt, |npc.pkt|, 3, Some(2), CopOf(npc), npc.undefinedShift)
  }

  predicate Ready(npc: Npc, r: Regs) {
    |npc.pkt| < W32 && r.mem == Prepared(npc)
  }

  /** The exit a verdict asks for; only A may have changed when the fragment goes on. */
  predicate Agrees(e: Exit, v: Verdict, swap: bool, x: u32, mem: map<nat, u32>) {
    match v
    case Short => e == Ret(0)
    case Yes => (if swap then e.Leave? else e.Fall?) && e.r.x == x && e.r.mem == mem
    case No => (if swap then e.Fall? else e.Leave?) && e.r.x == x && e.r.mem == mem
  }

  function EvalIn(npc: Npc, swap: bool, a: Atom, x: u32): Verdict
    requires AtomOk(a)
  {
    if swap then EvalSwapped(npc, a, x) else EvalAtom(npc, a, x)
  }

  /** One step of a raw fragment. */
  lemma GoStep(env: Env, swap: bool, p: seq<Insn>, i: nat, r: Regs)
    requires i < |p|
    ensures var act := Exec(env, p[i], r);
            && (act.Next? ==>
                  var t := Turn(p[i], act.off, swap);
                  Go(env, swap, p, i, r) == if t.Some? then Go(env, swap, p, i + 1 + t.value, act.r) else Leave(act.r))
            && (act.Return? ==> Go(env, swap, p, i, r) == Ret(act.v))
  {
  }

  lemma GoEnd(env: Env, swap: bool, p: seq<Insn>, r: Regs)
    ensures Go(env, swap, p, |p|, r) == Fall(r)
  {
  }

  /** A step over an AND with a constant. */
  lemma AndStep(env: Env, swap: bool, p: seq<Insn>, i: nat, r: Regs)
    requires i < |p| && p[i].code == 0x54
    ensures Go(env, swap, p, i, r) == Go(env, swap, p, i + 1, r.(a := And(r.a, p[i].k)))
  {
    hide Go;
    GoStep(env, swap, p, i, r);
  }

  /** A step over a conditional jump without a magic side. */
  lemma JumpStep(env: Env, swap: bool, p: seq<Insn>, i: nat, r: Regs)
    requires i < |p| && p[i].code in {0x25, 0x35} && p[i].jt != MAGIC && p[i].jf != MAGIC
    ensures var taken := if p[i].code == 0x25 then r.a > p[i].k else r.a >= p[i].k;
            Go(env, swap, p, i, r) == Go(env, swap, p, i + 1 + (if taken then p[i].jt else p[i].jf), r)
  {
    hide Go;
    GoStep(env, swap, p, i, r);
  }

  /** A load of A from the packet. */
  lemma LoadStep(env: Env, swap: bool, p: seq<Insn>, i: nat, r: Regs, v: Option<u32>)
    requires i < |p| && !IsJump(p[i]) && Exec(env, p[i], r) == LoadA(v, r)
    ensures Go(env, swap, p, i, r) == if v.Some? then Go(env, swap, p, i + 1, r.(a := v.value)) else Ret(0)
  {
  }

  /** The final comparison of a test. */
  lemma FinalJump(env: Env, swap: bool, p: seq<Insn>, i: nat, r: Regs)
    requires i + 1 == |p| && p[i].code == 0x15
    requires (p[i].jt == 0 && p[i].jf == MAGIC) || (p[i].jt == MAGIC && p[i].jf == 0)
    ensures Agrees(Go(env, swap, p, i, r), Decide((r.a == p[i].k) == (p[i].jt == 0)), swap, r.x, r.mem)
  {
  }

  lemma MaskTest(v: u32, len: nat, word: u32)
    requires 1 <= len <= 32
    ensures And(v, WordMask(len)) == word <==> MaskAgrees(v, len, word)
  {
    hide And, Pow2;
    Pow2At32();
    AndHighMask(32, 32 - len, v);
    Cleared(v, word, Pow2(32 - len));
  }

  lemma Cleared(v: nat, word: nat, p: nat)
    requires p > 0
    ensures v - v % p == word <==> v / p == word / p && word % p == 0
  {
    var h, l := DivMod(v, p);
    var h', l' := DivMod(word, p);
    if v - l == word {
      ModUnique(word, p, h, 0);
    }
  }

  lemma WordMeaning(npc: Npc, swap: bool, a: Atom, r: Regs)
    requires AtomOk(a) && a.AWord? && Ready(npc, r)
    ensures Agrees(Go(NpfEnv(npc), swap, AtomCode(a), 0, r), EvalIn(npc, swap, a, r.x), swap, r.x, r.mem)
  {
    hide Go;
    var env, c := NpfEnv(npc), AtomCode(a);
    var v := LoadWord(npc.pkt, a.off);
    LoadStep(env, swap, c, 0, r, v);
    if v.Some? {
      var r1 := r.(a := v.value);
      MaskTest(v.value, a.len, a.word);
      if a.len == 32 {
        FinalJump(env, swap, c, 1, r1);
        assert Pow2(0) == 1;
      } else {
        AndStep(env, swap, c, 1, r1);
        FinalJump(env, swap, c, 2, r1.(a := And(v.value, WordMask(a.len))));
      }
    }
  }

  /** The loaded byte, an optional mask and the comparison, from index i of a fragment on. */
  lemma ByteMeaning(npc: Npc, swap: bool, c: seq<Insn>, i: nat, off: u16, mask: Option<u8>, value: u32, r: Regs)
    requires Ready(npc, r) && i <= |c|
    requires c[i..] == [Stmt(0x50, off)] + MaskCode(mask) + [Insn(0x15, 0, MAGIC, value)]
    ensures Agrees(Go(NpfEnv(npc), swap, c, i, r), EvalByte(npc, r.x, off, mask, value), swap, r.x, r.mem)
  {
    hide Go;
    var env := NpfEnv(npc);
    assert c[i] == c[i..][0] && c[i + 1] == c[i..][1];
    var b := ByteAt(npc, r.x, off);
    LoadStep(env, swap, c, i, r, b);
    if b.Some? {
      var r1 := r.(a := b.value);
      if mask.Some? {
        assert c[i + 2] == c[i..][2];
        AndStep(env, swap, c, i + 1, r1);
        FinalJump(env, swap, c, i + 2, r1.(a := And(b.value, mask.value)));
      } else {
        FinalJump(env, swap, c, i + 1, r1);
      }
    }
  }

  lemma TcpFlagsMeaning(npc: Npc, swap: bool, a: Atom, r: Regs)
    requires a.ATcpFlags? && Ready(npc, r)
    ensures Agrees(Go(NpfEnv(npc), swap, AtomCode(a), 0, r), EvalIn(npc, swap, a, r.x), swap, r.x, r.mem)
  {
    hide Go;
    var env, c := NpfEnv(npc), AtomCode(a);
    var r1 := r.(a := npc.proto);
    GoStep(env, swap, c, 0, r);
    GoStep(env, swap, c, 1, r1);
    if npc.proto == IPPROTO_TCP {
      assert c[2..] == [Stmt(0x50, 13)] + MaskCode(a.mask) + [Insn(0x15, 0, MAGIC, a.value)];
      ByteMeaning(npc, swap, c, 2, 13, a.mask, a.value, r1);
    } else {
      GoEnd(env, swap, c, r1);
    }
  }

  lemma RangeMeaning(npc: Npc, swap: bool, a: Atom, r: Regs)
    requires a.ARange? && Ready(npc, r)
    ensures Agrees(Go(NpfEnv(npc), swap, AtomCode(a), 0, r), EvalIn(npc, swap, a, r.x), swap, r.x, r.mem)
  {
    hide Go;
    var env, c := NpfEnv(npc), AtomCode(a);
    var v := HalfAt(npc, r.x, a.off);
    LoadStep(env, swap, c, 0, r, v);
    if v.Some? {
      var r1 := r.(a := v.value);
      GoEnd(env, swap, c, r1);
      GoStep(env, swap, c, 3, r1);
      JumpStep(env, swap, c, 2, r1);
      JumpStep(env, swap, c, 1, r1);
    }
  }

  lemma TableMeaning(npc: Npc, swap: bool, a: Atom, r: Regs)
    requires a.ATable? && AtomOk(a) && Ready(npc, r)
    ensures Agrees(Go(NpfEnv(npc), swap, AtomCode(a), 0, r), EvalIn(npc, swap, a, r.x), swap, r.x, r.mem)
  {
    var env, c := NpfEnv(npc), AtomCode(a);
    GoStep(env, swap, c, 0, r);
    var r1 := r.(a := c[0].k);
    GoStep(env, swap, c, 1, r1);
    var r2 := r.(a := if npc.lookup(a.src, a.tid) then 1 else 0);
    assert r.mem + map[] == r.mem;
    FinalJump(env, swap, c, 2, r2);
  }

  /** Every test, plain or swapped, does what its evaluation says. */
  lemma AtomMeaning(npc: Npc, swap: bool, a: Atom, r: Regs)
    requires AtomOk(a) && Ready(npc, r)
    ensures Agrees(Go(NpfEnv(npc), swap, AtomCode(a), 0, r), EvalIn(npc, swap, a, r.x), swap, r.x, r.mem)
  {
    var env, c := NpfEnv(npc), AtomCode(a);
    match a
    case AVersion(_) =>
      GoStep(env, swap, c, 0, r);
      FinalJump(env, swap, c, 1, r.(a := npc.ipver));
    case AProto(_) =>
      GoStep(env, swap, c, 0, r);
      FinalJump(env, swap, c, 1, r.(a := npc.proto));
    case APort(off, _) =>
      GoStep(env, swap, c, 0, r);
      var v := HalfAt(npc, r.x, off);
      if v.Some? {
        FinalJump(env, swap, c, 1, r.(a := v.value));
      }
    case AWord(_, _, _) => WordMeaning(npc, swap, a, r);
    case ARange(_, _, _) => RangeMeaning(npc, swap, a, r);
    case AByte(off, mask, value) =>
      assert c[0..] == c;
      ByteMeaning(npc, swap, c, 0, off, mask, value, r);
    case ATcpFlags(_, _) => TcpFlagsMeaning(npc, swap, a, r);
    case ATable(_, _) => TableMeaning(npc, swap, a, r);
  }

  // ----- groups and whole programs -----------------------------------------------------------

  /** The tests of a group in order: the first that holds decides, a short packet cuts. */
  datatype Scan = Hit(x: u32) | Past(x: u32) | Cut

  function ScanGroup(npc: Npc, es: seq<Elem>, x: u32): Scan
    requires forall e :: e in es ==> ElemOk(e)
  {
    if es == [] then Past(x)
    else if es[0].LoadX? then ScanGroup(npc, es[1..], npc.l4off)
    else
      assert ElemOk(es[0]);
      match EvalSwapped(npc, es[0].atom, x)
      case Yes => Hit(x)
      case No => ScanGroup(npc, es[1..], x)
      case Short => Cut
  }

  /** A piece on a packet: the value X has afterwards, or None when the rule does not match. */
  function EvalPiece(npc: Npc, c: Piece, x: u32): Option<u32>
    requires PieceOk(c)
  {
    match c
    case Plain(LoadX) => Some(npc.l4off)
    case Plain(Test(a)) => if EvalAtom(npc, a, x).Yes? then Some(x) else None
    case Grouped(invert, es) =>
      var scan := ScanGroup(npc, es, x);
      if scan.Cut? || scan.Hit? == invert then None else Some(scan.x)
  }

  function EvalPieces(npc: Npc, cs: seq<Piece>, x: u32): Option<u32>
    requires forall c :: c in cs ==> PieceOk(c)
  {
    if cs == [] then Some(x)
    else
      var v := EvalPiece(npc, cs[0], x);
      if v.None? then None else EvalPieces(npc, cs[1..], v.value)
  }

  lemma ElemWithin(e: Elem)
    requires ElemOk(e)
    ensures Within(ElemCode(e))
  {
  }

  lemma {:induction false} ElemsWithin(es: seq<Elem>)
    requires forall e :: e in es ==> ElemOk(e)
    ensures Within(ElemsCode(es))
  {
    if es != [] {
      ElemWithin(es[0]);
      ElemsWithin(es[1..]);
      WithinAppend(ElemCode(es[0]), ElemsCode(es[1..]));
    }
  }

  predicate ScanAgrees(e: Exit, s: Scan, mem: map<nat, u32>) {
    match s
    case Cut => e == Ret(0)
    case Hit(x) => e.Leave? && e.r.x == x && e.r.mem == mem
    case Past(x) => e.Fall? && e.r.x == x && e.r.mem == mem
  }

  lemma LoadXMeaning(npc: Npc, swap: bool, r: Regs)
    requires Ready(npc, r)
    ensures Go(NpfEnv(npc), swap, ElemCode(LoadX), 0, r) == Fall(r.(x := npc.l4off))
  {
  }

  lemma {:induction false} ScanMeaning(npc: Npc, es: seq<Elem>, r: Regs)
    requires Ready(npc, r) && forall e :: e in es ==> ElemOk(e)
    ensures ScanAgrees(Go(NpfEnv(npc), true, ElemsCode(es), 0, r), ScanGroup(npc, es, r.x), r.mem)
  {
    hide Go, EvalSwapped, EvalAtom;
    var env := NpfEnv(npc);
    if es == [] {
      GoEnd(env, true, [], r);
    } else {
      var c := ElemCode(es[0]);
      ElemWithin(es[0]);
      GoAppend(env, true, c, ElemsCode(es[1..]), 0, r);
      if es[0].LoadX? {
        LoadXMeaning(npc, true, r);
      } else {
        AtomMeaning(npc, true, es[0].atom, r);
      }
      var e := Go(env, true, c, 0, r);
      if e.Fall? {
        ScanMeaning(npc, es[1..], e.r);
      }
    }
  }

  lemma PieceWithin(c: Piece)
    requires PieceOk(c) && PieceFits(c)
    ensures Within(PieceCode(c))
  {
    match c
    case Plain(e) => ElemWithin(e);
    case Grouped(invert, es) =>
      ElemsWithin(es);
      PatchWithin(ElemsCode(es), invert);
  }

  /** After the swap no magic is left, and the patched jumps reach into the failure path. */
  lemma PatchWithin(p: seq<Insn>, invert: bool)
    requires |p| < MAGIC && Within(p)
    ensures Within(Patch(p, true) + FailurePath(invert))
  {
  }

  predicate PieceAgrees(e: Exit, v: Option<u32>, mem: map<nat, u32>) {
    if v.Some? then e.Fall? && e.r.x == v.value && e.r.mem == mem else e.Leave? || e == Ret(0)
  }

  lemma PieceMeaning(npc: Npc, c: Piece, r: Regs)
    requires PieceOk(c) && PieceFits(c) && Ready(npc, r)
    ensures PieceAgrees(Go(NpfEnv(npc), false, PieceCode(c), 0, r), EvalPiece(npc, c, r.x), r.mem)
  {
    hide Go, EvalSwapped, EvalAtom;
    match c
    case Plain(LoadX) => LoadXMeaning(npc, false, r);
    case Plain(Test(a)) => AtomMeaning(npc, false, a, r);
    case Grouped(invert, es) =>
      ElemsWithin(es);
      GroupMeaning(NpfEnv(npc), invert, ElemsCode(es), 0, r);
      ScanMeaning(npc, es, r);
  }

  lemma {:induction false} PiecesWithin(cs: seq<Piece>)
    requires PiecesOk(cs)
    ensures Within(PiecesCode(cs))
  {
    if cs != [] {
      PieceWithin(cs[0]);
      PiecesWithin(cs[1..]);
      WithinAppend(PieceCode(cs[0]), PiecesCode(cs[1..]));
    }
  }

  lemma {:induction false} PiecesMeaning(npc: Npc, cs: seq<Piece>, r: Regs)
    requires PiecesOk(cs) && Ready(npc, r)
    ensures PieceAgrees(Go(NpfEnv(npc), false, PiecesCode(cs), 0, r), EvalPieces(npc, cs, r.x), r.mem)
  {
    hide Go, EvalPiece;
    var env := NpfEnv(npc);
    if cs == [] {
      GoEnd(env, false, [], r);
    } else {
      PieceWithin(cs[0]);
      GoAppend(env, false, PieceCode(cs[0]), PiecesCode(cs[1..]), 0, r);
      PieceMeaning(npc, cs[0], r);
      var e := Go(env, false, PieceCode(cs[0]), 0, r);
      if e.Fall? {
        PiecesMeaning(npc, cs[1..], e.r);
      }
    }
  }

  /** The completed program returns success exactly when its pieces match the packet. */
  lemma ProgramMeaning(npc: Npc, cs: seq<Piece>)
    requires PiecesOk(cs) && |PiecesCode(cs)| < MAGIC && |npc.pkt| < W32
    ensures FilterOutcome(NpfEnv(npc), CompleteCode(PiecesCode(cs)), Prepared(npc))
         == Value(if EvalPieces(npc, cs, 0).Some? then MAX32 else 0)
  {
    var p, r := PiecesCode(cs), Regs(0, 0, Prepared(npc));
    PiecesMeaning(npc, cs, r);
    if p == [] {
      GoEnd(NpfEnv(npc), false, p, r);
    } else {
      PiecesWithin(cs);
      CompleteMeaning(NpfEnv(npc), p, 0, r);
    }
  }
}
