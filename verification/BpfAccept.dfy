/** Every completed program passes the validator in the context NPF installs (src/kern/npf_bpf.c). */
module BpfAccept {
  import opened Words
  import opened BpfMachine
  import opened BpfCode
  import BpfMeaning
  import opened BpfValidator

  /** Two coprocessor functions and three scratch words, all of them initialised. */
  function NpfCtx(): Option<Ctx> {
    Some(Ctx(Some(2), 3, {MW_IPVER, MW_L4OFF, MW_L4PROTO}))
  }

  /** The instructions the generator uses. */
  predicate Sane(f: Insn) {
    match f.code
    case 0x60 => f.k < 3
    case 0x61 => f.k < 3
    case 0x27 => f.k < 2
    case _ => f.code in {0x20, 0x48, 0x50, 0x00, 0x54, 0x06, 0x05, 0x15, 0x25, 0x35}
  }

  predicate AllSane(p: seq<Insn>) {
    forall i :: 0 <= i < |p| ==> Sane(p[i])
  }

  /** No offset of the failure marker is left. */
  predicate NoMagic(f: Insn) {
    IsJump(f) ==> if IsAlways(f) then f.k != MAGIC else f.jt != MAGIC && f.jf != MAGIC
  }

  predicate AllPatched(p: seq<Insn>) {
    forall i :: 0 <= i < |p| ==> NoMagic(p[i])
  }

  lemma ElemSane(e: Elem)
    requires ElemOk(e)
    ensures AllSane(ElemCode(e))
  {
  }

  lemma {:induction false} ElemsSane(es: seq<Elem>)
    requires forall e :: e in es ==> ElemOk(e)
    ensures AllSane(ElemsCode(es))
  {
    if es != [] {
      ElemSane(es[0]);
      ElemsSane(es[1..]);
    }
  }

  lemma PatchSane(p: seq<Insn>, swap: bool)
    requires |p| < MAGIC && AllSane(p) && Within(p)
    ensures AllSane(Patch(p, swap)) && AllPatched(Patch(p, swap))
  {
    var q := Patch(p, swap);
    forall i | 0 <= i < |q|
      ensures Sane(q[i]) && NoMagic(q[i])
    {
      assert q[i] == PatchInsn(p[i], |p| - i, swap);
    }
  }

  /** What a group exit has patched is left alone by every later patch. */
  lemma PatchedOnce(f: Insn, fail: u8, swap: bool)
    requires NoMagic(f)
    ensures PatchInsn(f, fail, swap) == f
  {
  }

  lemma {:induction false} PiecesSane(cs: seq<Piece>)
    requires PiecesOk(cs)
    ensures AllSane(PiecesCode(cs))
  {
    if cs != [] {
      PiecesSane(cs[1..]);
      assert PieceOk(cs[0]) && PieceFits(cs[0]);
      match cs[0]
      case Plain(e) => ElemSane(e);
      case Grouped(_, es) =>
        ElemsSane(es);
        BpfMeaning.ElemsWithin(es);
        PatchSane(ElemsCode(es), true);
    }
  }

  lemma GroupNoMagic(group: Piece, i: nat)
    requires group.Grouped? && PieceOk(group) && PieceFits(group) && i < |PieceCode(group)|
    ensures NoMagic(PieceCode(group)[i])
  {
  }

  /** The code of a group in the finished program is the code its exit produced, jumps included. */
  lemma GroupPatchedOnce(before: seq<Piece>, group: Piece, after: seq<Piece>, i: nat)
    requires group.Grouped? && PiecesOk(before + ([group] + after)) && PiecesOk(before)
    requires PieceOk(group) && PieceFits(group) && i < |PieceCode(group)|
    requires |PiecesCode(before + ([group] + after))| < MAGIC
    ensures var c, start := CompleteCode(PiecesCode(before + ([group] + after))), |PiecesCode(before)|;
            start + i < |c| && c[start + i] == PieceCode(group)[i] && NoMagic(c[start + i])
  {
    hide PieceCode, PatchInsn, NoMagic;
    PiecesConcat(before, [group] + after);
    assert ([group] + after)[1..] == after;
    var p, j := PiecesCode(before + ([group] + after)), |PiecesCode(before)| + i;
    assert p[j] == PieceCode(group)[i];
    GroupNoMagic(group, i);
    PatchedOnce(p[j], |p| - j, false);
    assert CompleteCode(p)[j] == PatchInsn(p[j], |p| - j, false);
  }

  predicate LandsBefore(f: Insn, room: int) {
    IsJump(f) ==> if IsAlways(f) then f.k <= room else f.jt <= room && f.jf <= room
  }

  lemma SaneIsOk(f: Insn, i: nat, n: nat)
    requires Sane(f) && i < n && LandsBefore(f, n - i - 2)
    ensures InsnOk(NpfCtx(), f, i, n, AllWords() - {0, 1, 2}) && Class(f.code) !in {CLASS_ST, CLASS_STX}
  {
  }

  lemma PatchedLands(f: Insn, fail: u8)
    requires 1 <= fail < MAGIC && (IsJump(f) ==> InsnWithin(f, fail - 1))
    ensures LandsBefore(PatchInsn(f, fail, false), fail)
  {
  }

  /** An instruction of a completed program passes the check under the label of unset words. */
  lemma CompletedInsnOk(p: seq<Insn>, i: nat)
    requires 0 < |p| < MAGIC && Within(p) && AllSane(p) && i < |CompleteCode(p)|
    ensures var c := CompleteCode(p);
            InsnOk(NpfCtx(), c[i], i, |c|, AllWords() - {0, 1, 2}) && Class(c[i].code) !in {CLASS_ST, CLASS_STX}
  {
    hide InsnOk, InsnWithin;
    var c := CompleteCode(p);
    if i < |p| {
      PatchSane(p, false);
      assert c[i] == Patch(p, false)[i] == PatchInsn(p[i], |p| - i, false);
      PatchedLands(p[i], |p| - i);
      assert Sane(c[i]);
    }
    SaneIsOk(c[i], i, |c|);
  }

  /** Compiler output always validates, has no magic offset left and ends in both returns. */
  lemma CompletedIsAcceptable(cs: seq<Piece>)
    requires PiecesOk(cs) && 0 < |PiecesCode(cs)| < MAGIC
    ensures Acceptable(NpfCtx(), CompleteCode(PiecesCode(cs)))
    ensures AllPatched(CompleteCode(PiecesCode(cs)))
  {
    var p := PiecesCode(cs);
    var c := CompleteCode(p);
    PiecesSane(cs);
    BpfMeaning.PiecesWithin(cs);
    PatchSane(p, false);
    var lab := seq(|c|, i => AllWords() - {0, 1, 2});
    forall i | 0 <= i < |c|
      ensures InsnOk(NpfCtx(), c[i], i, |c|, lab[i]) && Out(c[i], lab[i]) == lab[i]
    {
      CompletedInsnOk(p, i);
    }
    assert Consistent(NpfCtx(), c, lab);
  }
}
