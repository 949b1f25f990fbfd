/**
  * The byte-code fragments of src/npfctl/npf_bpf_comp.c and their patching.
  *
  * A rule is a sequence of pieces.  A plain piece is one test (or the load of X); a grouped piece
  * is a list of tests whose jumps have been swapped by fixup_jumps, followed by the failure path.
  */
module BpfCode {
  import opened Words
  import opened BpfMachine

  const MAGIC: u8 := 0xff

  const MW_IPVER := 0
  const MW_L4OFF := 1
  const MW_L4PROTO := 2
  const COP_TABLE := 1
  const SRC_FLAG := 0x8000_0000
  const IPPROTO_TCP: u32 := 6

  /** One test; every test but the range and the lenient TCP test has a single jump, a magic one. */
  datatype Atom =
    | AVersion(ver: u32)                                // IP version, zero means any
    | AProto(proto: u32)
    | AWord(off: u16, len: nat, word: u32)              // leading `len` bits of a packet word
    | APort(off: u16, port: u16)
    | ARange(off: u16, from: u16, to: u16)
    | AByte(off: u16, mask: Option<u8>, value: u32)
    | ATcpFlags(mask: Option<u8>, value: u32)           // passes every other protocol
    | ATable(src: bool, tid: u32)

  datatype Elem = LoadX | Test(atom: Atom)

  datatype Piece = Plain(elem: Elem) | Grouped(invert: bool, elems: seq<Elem>)

  /** What npf_bpf_prepare and the coprocessor know of a packet. */
  datatype Npc = Npc(pkt: seq<u8>, ipver: u32, l4off: u32, proto: u32,
                     lookup: (bool, u32) -> bool, undefinedShift: u32)

  predicate AtomOk(a: Atom) {
    match a
    case AWord(_, len, _) => 1 <= len <= 32
    case ATable(_, tid) => tid < SRC_FLAG
    case _ => true
  }

  predicate ElemOk(e: Elem) {
    e.Test? ==> AtomOk(e.atom)
  }

  predicate PieceOk(c: Piece) {
    match c
    case Plain(e) => ElemOk(e)
    case Grouped(_, es) => forall e :: e in es ==> ElemOk(e)
  }

  // ----- code generation ---------------------------------------------------------------------

  function Stmt(code: u16, k: u32): Insn { Insn(code, 0, 0, k) }

  function WordMask(len: nat): u32
    requires 1 <= len <= 32
  {
    Pow2At32();
    Pow2Monotone(32 - len, 32);
    W32 - Pow2(32 - len)
  }

  function MaskCode(mask: Option<u8>): seq<Insn> {
    if mask.Some? then [Stmt(0x54, mask.value)] else []
  }

  function AtomCode(a: Atom): (c: seq<Insn>)
    requires AtomOk(a)
    ensures 2 <= |c| <= 5
  {
    match a
    case AVersion(ver) =>
      [Stmt(0x60, MW_IPVER), if ver != 0 then Insn(0x15, 0, MAGIC, ver) else Insn(0x15, MAGIC, 0, 0)]
    case AProto(proto) => [Stmt(0x60, MW_L4PROTO), Insn(0x15, 0, MAGIC, proto)]
    case AWord(off, len, word) =>
      if len == 32 then [Stmt(0x20, off), Insn(0x15, 0, MAGIC, word)]
      else [Stmt(0x20, off), Stmt(0x54, WordMask(len)), Insn(0x15, 0, MAGIC, word)]
    case APort(off, port) => [Stmt(0x48, off), Insn(0x15, 0, MAGIC, port)]
    case ARange(off, from, to) =>
      [Stmt(0x48, off), Insn(0x35, 0, 1, from), Insn(0x25, 0, 1, to), Stmt(0x05, MAGIC)]
    case AByte(off, mask, value) =>
      [Stmt(0x50, off)] + MaskCode(mask) + [Insn(0x15, 0, MAGIC, value)]
    case ATcpFlags(mask, value) =>
      [Stmt(0x60, MW_L4PROTO), Insn(0x15, 0, if mask.Some? then 3 else 2, IPPROTO_TCP),
       Stmt(0x50, 13)] + MaskCode(mask) + [Insn(0x15, 0, MAGIC, value)]
    case ATable(src, tid) =>
      [Stmt(0x00, if src then SRC_FLAG + tid else tid), Stmt(0x27, COP_TABLE), Insn(0x15, MAGIC, 0, 0)]
  }

  function ElemCode(e: Elem): (c: seq<Insn>)
    requires ElemOk(e)
    ensures 1 <= |c| <= 5
  {
    match e
    case LoadX => [Stmt(0x61, MW_L4OFF)]
    case Test(a) => AtomCode(a)
  }

  function ElemsCode(es: seq<Elem>): seq<Insn>
    requires forall e :: e in es ==> ElemOk(e)
  {
    if es == [] then [] else ElemCode(es[0]) + ElemsCode(es[1..])
  }

  predicate IsJump(f: Insn) { f.code % 8 == 5 }
  predicate IsAlways(f: Insn) { f.code % 8 == 5 && f.code / 16 % 16 == 0 }

  /** The body of the loop of fixup_jumps, for an instruction that is `fail` short of the target. */
  function PatchInsn(f: Insn, fail: u8, swap: bool): Insn {
    if !IsJump(f) then f
    else if IsAlways(f) then
      if f.k == MAGIC then f.(k := if swap then 0 else fail) else f
    else
      var jt := if f.jt == MAGIC then fail else f.jt;
      var jf := if f.jf == MAGIC then fail else f.jf;
      if (f.jt == MAGIC || f.jf == MAGIC) && swap then f.(jt := jf, jf := jt)
      else f.(jt := jt, jf := jf)
  }

  /** The whole loop over a fragment: jumps land one past the end of the fragment. */
  function Patch(p: seq<Insn>, swap: bool): (r: seq<Insn>)
    requires |p| < MAGIC
    ensures |r| == |p|
  {
    seq(|p|, i requires 0 <= i < |p| => PatchInsn(p[i], |p| - i, swap))
  }

  function FailurePath(invert: bool): seq<Insn> {
    if invert then [Stmt(0x05, 1), Stmt(0x06, 0)] else [Stmt(0x06, 0)]
  }

  predicate PieceFits(c: Piece)
    requires PieceOk(c)
  {
    c.Grouped? ==> |ElemsCode(c.elems)| < MAGIC
  }

  function PieceCode(c: Piece): seq<Insn>
    requires PieceOk(c) && PieceFits(c)
  {
    match c
    case Plain(e) => ElemCode(e)
    case Grouped(invert, es) => Patch(ElemsCode(es), true) + FailurePath(invert)
  }

  predicate PiecesOk(cs: seq<Piece>) {
    forall c :: c in cs ==> PieceOk(c) && PieceFits(c)
  }

  function PiecesCode(cs: seq<Piece>): seq<Insn>
    requires PiecesOk(cs)
  {
    if cs == [] then [] else PieceCode(cs[0]) + PiecesCode(cs[1..])
  }

  lemma {:induction false} PiecesConcat(xs: seq<Piece>, ys: seq<Piece>)
    requires PiecesOk(xs + ys)
    ensures PiecesOk(xs) && PiecesOk(ys)
    ensures PiecesCode(xs + ys) == PiecesCode(xs) + PiecesCode(ys)
  {
    hide PieceCode, PieceOk, PieceFits;
    assert PiecesOk(xs) by {
      forall c | c in xs ensures PieceOk(c) && PieceFits(c) { assert c in xs + ys; }
    }
    assert PiecesOk(ys) by {
      forall c | c in ys ensures PieceOk(c) && PieceFits(c) { assert c in xs + ys; }
    }
    if xs == [] {
      assert xs + ys == ys;
    } else {
      assert (xs + ys)[0] == xs[0] && (xs + ys)[1..] == xs[1..] + ys;
      PiecesConcat(xs[1..], ys);
    }
  }

  lemma {:induction false} ElemsConcat(xs: seq<Elem>, ys: seq<Elem>)
    requires (forall e :: e in xs ==> ElemOk(e)) && (forall e :: e in ys ==> ElemOk(e))
    ensures ElemsCode(xs + ys) == ElemsCode(xs) + ElemsCode(ys)
  {
    hide ElemCode, ElemOk;
    if xs == [] {
      assert xs + ys == ys;
    } else {
      assert (xs + ys)[0] == xs[0] && (xs + ys)[1..] == xs[1..] + ys;
      ElemsConcat(xs[1..], ys);
    }
  }

  /** Tests outside of any group. */
  function Plains(es: seq<Elem>): (cs: seq<Piece>)
    ensures (forall e :: e in es ==> ElemOk(e)) ==> PiecesOk(cs)
  {
    if es == [] then [] else [Plain(es[0])] + Plains(es[1..])
  }

  lemma {:induction false} PlainsCode(es: seq<Elem>)
    requires forall e :: e in es ==> ElemOk(e)
    ensures PiecesCode(Plains(es)) == ElemsCode(es)
  {
    if es != [] {
      PlainsCode(es[1..]);
    }
  }

  /** npfctl_bpf_complete: nothing for no code, else both returns and the main patch. */
  function CompleteCode(p: seq<Insn>): seq<Insn>
    requires |p| < MAGIC
  {
    if p == [] then [] else Patch(p, false) + [Stmt(0x06, MAX32), Stmt(0x06, 0)]
  }

  // ----- the meaning of a fragment before it is patched --------------------------------------

  /** How a fragment is left: past its end, through a magic jump, or with a return. */
  datatype Exit = Fall(r: Regs) | Leave(r: Regs) | Ret(v: u32) | Wrong

  /**
    * Runs a raw fragment.  With `swap` the magic jumps mean what they mean inside a group: the
    * magic side goes on, the other side leaves, and a magic BPF_JA goes on.
    */
  function Go(env: Env, swap: bool, p: seq<Insn>, i: nat, r: Regs): Exit
    decreases |p| - i
  {
    if i > |p| then Wrong
    else if i == |p| then Fall(r)
    else
      match Exec(env, p[i], r)
      case Next(off, r') =>
        var t := Turn(p[i], off, swap);
        if t.Some? then Go(env, swap, p, i + 1 + t.value, r') else Leave(r')
      case Return(v) => Ret(v)
      case Undecoded => Wrong
      case Fault(_) => Wrong
  }

  /** The offset really taken, or None for leaving the fragment. */
  function Turn(f: Insn, off: nat, swap: bool): Option<nat> {
    if !IsJump(f) then Some(off)
    else if IsAlways(f) then
      if f.k != MAGIC then Some(off) else if swap then Some(0) else None
    else if f.jt != MAGIC && f.jf != MAGIC then Some(off)
    else if !swap then if off == MAGIC then None else Some(off)
    else if off == MAGIC then Some(if f.jt == MAGIC then f.jf else f.jt)
    else None
  }

  /** Every offset that is not magic stays within the fragment or ends exactly at its end. */
  predicate Within(p: seq<Insn>) {
    forall i :: 0 <= i < |p| && IsJump(p[i]) ==> InsnWithin(p[i], |p| - i - 1)
  }

  predicate InsnWithin(f: Insn, room: nat) {
    if IsAlways(f) then f.k == MAGIC || f.k <= room
    else (f.jt == MAGIC || f.jt <= room) && (f.jf == MAGIC || f.jf <= room) && !(f.jt == MAGIC == f.jf)
  }

  /** The machine takes the offset its instruction allows. */
  lemma ExecOffset(env: Env, f: Insn, r: Regs)
    ensures var act := Exec(env, f, r);
            act.Next? ==>
              if !IsJump(f) then act.off == 0
              else if IsAlways(f) then act.off == f.k
              else act.off == f.jt || act.off == f.jf
  {
  }

  lemma TurnWithin(env: Env, swap: bool, f: Insn, r: Regs, room: nat)
    requires IsJump(f) ==> InsnWithin(f, room)
    requires Exec(env, f, r).Next?
    ensures var t := Turn(f, Exec(env, f, r).off, swap);
            t.Some? ==> t.value <= room
  {
  }

  /** A fragment means the same wherever it is placed. */
  lemma {:induction false} GoShift(env: Env, swap: bool, p: seq<Insn>, q: seq<Insn>, j: nat, r: Regs)
    requires j <= |q|
    ensures Go(env, swap, p + q, |p| + j, r) == Go(env, swap, q, j, r)
    decreases |q| - j
  {
    hide Exec, Turn;
    if j < |q| {
      assert (p + q)[|p| + j] == q[j];
      var act := Exec(env, q[j], r);
      if act.Next? {
        var t := Turn(q[j], act.off, swap);
        if t.Some? && j + 1 + t.value <= |q| {
          GoShift(env, swap, p, q, j + 1 + t.value, act.r);
        }
      }
    }
  }

  function Then(env: Env, swap: bool, e: Exit, q: seq<Insn>): Exit {
    if e.Fall? then Go(env, swap, q, 0, e.r) else e
  }

  /** Running two fragments after each other. */
  lemma {:induction false} GoAppend(env: Env, swap: bool, p: seq<Insn>, q: seq<Insn>, i: nat, r: Regs)
    requires i <= |p| && Within(p)
    ensures Go(env, swap, p + q, i, r) == Then(env, swap, Go(env, swap, p, i, r), q)
    decreases |p| - i
  {
    hide Exec, Turn;
    if i == |p| {
      GoShift(env, swap, p, q, 0, r);
    } else {
      assert (p + q)[i] == p[i];
      var act := Exec(env, p[i], r);
      if act.Next? {
        TurnWithin(env, swap, p[i], r, |p| - i - 1);
        var t := Turn(p[i], act.off, swap);
        if t.Some? {
          GoAppend(env, swap, p, q, i + 1 + t.value, act.r);
        }
      }
    }
  }

  lemma WithinAppend(p: seq<Insn>, q: seq<Insn>)
    requires Within(p) && Within(q)
    ensures Within(p + q)
  {
  }

  // ----- patching keeps the meaning ----------------------------------------------------------

  lemma JumpExec(env: Env, f: Insn, r: Regs)
    requires IsJump(f)
    ensures Exec(env, f, r)
         == if f.code == 0x05 then Next(f.k, r) else if f.code < 0x100 then ExecCondJump(f, r) else Undecoded
  {
  }

  lemma PatchedJump(env: Env, swap: bool, f: Insn, fail: u8, r: Regs)
    requires 1 <= fail < MAGIC && IsJump(f) && InsnWithin(f, fail - 1)
    ensures var f', act := PatchInsn(f, fail, swap), Exec(env, f, r);
            && (act.Next? ==>
                  var t := Turn(f, act.off, swap);
                  var off := if t.Some? then t.value else fail;
                  Exec(env, f', r) == Next(off, act.r) && Turn(f', off, false) == Some(off))
            && (!act.Next? ==> Exec(env, f', r) == act)
  {
    hide Exec;
    JumpExec(env, f, r);
    JumpExec(env, PatchInsn(f, fail, swap), r);
  }

  /** A patched jump lands where the magic one meant: one past the end of the fragment. */
  lemma PatchTurn(env: Env, swap: bool, f: Insn, fail: u8, r: Regs)
    requires 1 <= fail < MAGIC && (IsJump(f) ==> InsnWithin(f, fail - 1))
    ensures var f', act := PatchInsn(f, fail, swap), Exec(env, f, r);
            && (act.Next? ==>
                  var t := Turn(f, act.off, swap);
                  var off := if t.Some? then t.value else fail;
                  Exec(env, f', r) == Next(off, act.r) && Turn(f', off, false) == Some(off))
            && (!act.Next? ==> Exec(env, f', r) == act)
  {
    hide Exec;
    if IsJump(f) {
      PatchedJump(env, swap, f, fail, r);
    } else {
      ExecOffset(env, f, r);
    }
  }

  function Completed(e: Exit): Outcome {
    match e
    case Fall(_) => Value(MAX32)
    case Leave(_) => Value(0)
    case Ret(v) => Value(v)
    case Wrong => Abort
  }

  /** npfctl_bpf_complete keeps the meaning: falling through succeeds, a magic jump fails. */
  lemma {:induction false} CompleteMeaning(env: Env, p: seq<Insn>, i: nat, r: Regs)
    requires 0 < |p| < MAGIC && Within(p) && i <= |p|
    requires Go(env, false, p, i, r) != Wrong
    ensures Run(env, CompleteCode(p), i, r) == Completed(Go(env, false, p, i, r))
    decreases |p| - i
  {
    hide Exec, Turn, PatchInsn;
    var c := CompleteCode(p);
    if i == |p| {
      ReturnsAt(env, c, i, MAX32, r);
    } else {
      assert c[i] == PatchInsn(p[i], |p| - i, false);
      PatchTurn(env, false, p[i], |p| - i, r);
      var act := Exec(env, p[i], r);
      if act.Next? {
        TurnWithin(env, false, p[i], r, |p| - i - 1);
        var t := Turn(p[i], act.off, false);
        if t.Some? {
          CompleteMeaning(env, p, i + 1 + t.value, act.r);
        } else {
          ReturnsAt(env, c, |p| + 1, 0, act.r);
        }
      }
    }
  }

  lemma ReturnsAt(env: Env, c: seq<Insn>, j: nat, v: u32, r: Regs)
    requires j < |c| && c[j] == Stmt(0x06, v)
    ensures Run(env, c, j, r) == Value(v)
  {
  }

  /** How a group is left: out of the swapped tests means a match, past them means none. */
  function GroupExit(invert: bool, e: Exit): Exit {
    match e
    case Fall(r) => if invert then Fall(r) else Ret(0)
    case Leave(r) => if invert then Ret(0) else Fall(r)
    case _ => e
  }

  /** The failure path as reached past the tests and as reached by a patched jump. */
  lemma FailurePathMeaning(env: Env, invert: bool, p: seq<Insn>, r: Regs)
    ensures var c := p + FailurePath(invert);
            && Go(env, false, c, |p|, r) == (if invert then Fall(r) else Ret(0))
            && Go(env, false, c, |p| + 1, r) == (if invert then Ret(0) else Fall(r))
  {
  }

  lemma {:induction false} GroupMeaning(env: Env, invert: bool, p: seq<Insn>, i: nat, r: Regs)
    requires |p| < MAGIC && Within(p) && i <= |p|
    ensures Go(env, false, Patch(p, true) + FailurePath(invert), i, r)
         == GroupExit(invert, Go(env, true, p, i, r))
    decreases |p| - i
  {
    hide Exec, Turn, PatchInsn;
    var c := Patch(p, true) + FailurePath(invert);
    if i == |p| {
      FailurePathMeaning(env, invert, Patch(p, true), r);
    } else {
      assert c[i] == PatchInsn(p[i], |p| - i, true);
      PatchTurn(env, true, p[i], |p| - i, r);
      var act := Exec(env, p[i], r);
      if act.Next? {
        TurnWithin(env, true, p[i], r, |p| - i - 1);
        var t := Turn(p[i], act.off, true);
        if t.Some? {
          GroupMeaning(env, invert, p, i + 1 + t.value, act.r);
        } else {
          FailurePathMeaning(env, invert, Patch(p, true), act.r);
        }
      }
    }
  }
}
