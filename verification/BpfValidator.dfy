/**
  * The one-pass data-flow validator bpf_validate_ext of src/kern/stand/bpf_filter.c.
  *
  * The validator is specified by labellings: a labelling gives every instruction a set of scratch
  * words that may be uninitialised there.  A program is acceptable when some labelling is closed
  * under the flow of control and passes the check of every instruction under its own label.
  */
module BpfValidator {
  import opened Words
  import opened BpfMachine

  const CLASS_LD := 0
  const CLASS_LDX := 1
  const CLASS_ST := 2
  const CLASS_STX := 3
  const CLASS_ALU := 4
  const CLASS_JMP := 5
  const CLASS_RET := 6

  const JA := 0

  /** A context: coprocessor functions (if set), external words and which of them are initialised. */
  datatype Ctx = Ctx(nfuncs: Option<nat>, extwords: nat, preinited: set<nat>)

  function Class(code: u16): nat { code % 8 }
  function Mode(code: u16): nat { code / 32 % 8 * 32 }
  function Op(code: u16): nat { code / 16 % 16 * 16 }
  function Src(code: u16): nat { code / 8 % 2 * 8 }
  function MiscOp(code: u16): nat { code / 8 % 32 * 8 }

  function Memwords(ctx: Option<Ctx>): nat {
    if ctx.Some? && ctx.value.extwords > 0 then ctx.value.extwords else BPF_MEMWORDS
  }

  function Preinited(ctx: Option<Ctx>): set<nat> {
    if ctx.Some? && ctx.value.extwords > 0 then ctx.value.preinited else {}
  }

  function Cops(ctx: Option<Ctx>): Option<nat> {
    if ctx.Some? then ctx.value.nfuncs else None
  }

  /** The bits of a bpf_memword_init_t. */
  function AllWords(): set<nat> {
    WordsBelow(32)
  }

  function WordsBelow(n: nat): (s: set<nat>)
    ensures forall w: nat :: w in s <==> w < n
  {
    if n == 0 then {} else WordsBelow(n - 1) + {n - 1}
  }

  predicate IsCondJump(code: u16) {
    Class(code) == CLASS_JMP && Op(code) in {0x10, 0x20, 0x30, 0x40}
  }

  predicate IsJa(code: u16) {
    Class(code) == CLASS_JMP && Op(code) == JA
  }

  /** The check of one instruction at index i of a program of length n, given its label. */
  predicate InsnOk(ctx: Option<Ctx>, f: Insn, i: nat, n: nat, unset: set<nat>) {
    var c := Class(f.code);
    if c == CLASS_LD || c == CLASS_LDX then
      if Mode(f.code) == 0x60 then f.k < Memwords(ctx) && f.k !in unset
      else Mode(f.code) in {0x20, 0x40, 0xa0, 0x00, 0x80}
    else if c == CLASS_ST || c == CLASS_STX then f.k < Memwords(ctx)
    else if c == CLASS_ALU then
      if Op(f.code) == 0x30 || Op(f.code) == 0x90 then Src(f.code) != 0 || f.k != 0
      else Op(f.code) in {0x00, 0x10, 0x20, 0x40, 0xa0, 0x50, 0x60, 0x70, 0x80}
    else if c == CLASS_JMP then
      if Op(f.code) == JA then i + 1 + f.k < n
      else IsCondJump(f.code) && i + 1 + f.jt < n && i + 1 + f.jf < n
    else if c == CLASS_RET then true
    else
      if MiscOp(f.code) == 0x20 then Cops(ctx).Some? && f.k < Cops(ctx).value
      else if MiscOp(f.code) == 0x40 then Cops(ctx).Some?
      else true
  }

  /** The label an instruction hands on. */
  function Out(f: Insn, unset: set<nat>): set<nat> {
    if Class(f.code) == CLASS_ST || Class(f.code) == CLASS_STX then unset - {f.k} else unset
  }

  /**
    * The flow of control as the validator sees it: jumps go to their targets, everything else,
    * a return included, goes on to the following instruction.
    */
  predicate Edge(p: seq<Insn>, i: nat, j: nat) {
    i < |p| && j < |p| &&
    if IsJa(p[i].code) then j == i + 1 + p[i].k
    else if Class(p[i].code) == CLASS_JMP then j == i + 1 + p[i].jt || j == i + 1 + p[i].jf
    else j == i + 1
  }

  ghost predicate Consistent(ctx: Option<Ctx>, p: seq<Insn>, lab: seq<set<nat>>) {
    && |lab| == |p| > 0
    && AllWords() - Preinited(ctx) <= lab[0]
    && (forall i :: 0 <= i < |p| ==> InsnOk(ctx, p[i], i, |p|, lab[i]))
    && (forall i: nat, j: nat :: Edge(p, i, j) ==> Out(p[i], lab[i]) <= lab[j])
  }

  predicate EndsInReturn(p: seq<Insn>) {
    0 < |p| <= BPF_MAXINSNS && p[|p| - 1].code in {0x06, 0x16}
  }

  ghost predicate Acceptable(ctx: Option<Ctx>, p: seq<Insn>) {
    EndsInReturn(p) && exists lab :: Consistent(ctx, p, lab)
  }

  /** Every labelling contains what the pass has worked out before instruction i. */
  ghost predicate Least(ctx: Option<Ctx>, p: seq<Insn>, i: nat, invalid: set<nat>, mem: seq<set<nat>>) {
    forall lab :: Consistent(ctx, p, lab) ==>
      && (i < |p| ==> invalid <= lab[i])
      && (forall t :: i <= t < |p| && t < |mem| ==> mem[t] <= lab[t])
  }

  ghost predicate Below(ctx: Option<Ctx>, p: seq<Insn>, i: nat, now: set<nat>)
    requires i < |p|
  {
    forall lab :: Consistent(ctx, p, lab) ==> now <= lab[i]
  }

  /** The labels of the instructions before i pass their checks and flow into each other. */
  ghost predicate Closed(ctx: Option<Ctx>, p: seq<Insn>, lab: seq<set<nat>>, i: nat,
                         invalid: set<nat>, mem: seq<set<nat>>) {
    && |mem| == |p| && |lab| == i <= |p|
    && (forall j :: 0 <= j < i ==> InsnOk(ctx, p[j], j, |p|, lab[j]))
    && (forall j: nat, t: nat :: j < i && Edge(p, j, t) ==>
          if t < i then Out(p[j], lab[j]) <= lab[t]
          else Out(p[j], lab[j]) <= (if t == i then invalid else {}) + mem[t])
  }

  /** The labels after the pass has handled a passing instruction i under label `now`. */
  function AfterInvalid(f: Insn, now: set<nat>): set<nat> {
    if Class(f.code) == CLASS_JMP then {} else Out(f, now)
  }

  function AfterMem(p: seq<Insn>, i: nat, now: set<nat>, mem: seq<set<nat>>): (r: seq<set<nat>>)
    requires |mem| == |p|
    ensures |r| == |p|
  {
    seq(|p|, t requires 0 <= t < |p| =>
      if i < |p| && Class(p[i].code) == CLASS_JMP && Edge(p, i, t) then mem[t] + now else mem[t])
  }

  lemma ClosedStep(ctx: Option<Ctx>, p: seq<Insn>, lab: seq<set<nat>>, i: nat,
                   invalid: set<nat>, mem: seq<set<nat>>)
    requires i < |p| && Closed(ctx, p, lab, i, invalid, mem)
    requires InsnOk(ctx, p[i], i, |p|, invalid + mem[i])
    ensures var now := invalid + mem[i];
            Closed(ctx, p, lab + [now], i + 1, AfterInvalid(p[i], now), AfterMem(p, i, now, mem))
  {
  }

  lemma LeastStep(ctx: Option<Ctx>, p: seq<Insn>, i: nat, invalid: set<nat>, mem: seq<set<nat>>)
    requires i < |p| == |mem| && Least(ctx, p, i, invalid, mem)
    ensures var now := invalid + mem[i];
            && Below(ctx, p, i, now)
            && Least(ctx, p, i + 1, AfterInvalid(p[i], now), AfterMem(p, i, now, mem))
  {
    var now := invalid + mem[i];
    forall lab | Consistent(ctx, p, lab)
      ensures now <= lab[i]
      ensures i + 1 < |p| ==> AfterInvalid(p[i], now) <= lab[i + 1]
      ensures forall t :: i + 1 <= t < |p| ==> AfterMem(p, i, now, mem)[t] <= lab[t]
    {
      assert InsnOk(ctx, p[i], i, |p|, lab[i]);
      if i + 1 < |p| && Class(p[i].code) != CLASS_JMP {
        assert Edge(p, i, i + 1);
      }
    }
  }

  /** A smaller label passes every check that a larger one passes. */
  lemma CheckIsMonotone(ctx: Option<Ctx>, f: Insn, i: nat, n: nat, small: set<nat>, large: set<nat>)
    requires small <= large && InsnOk(ctx, f, i, n, large)
    ensures InsnOk(ctx, f, i, n, small)
  {
  }

  lemma RejectionIsFinal(ctx: Option<Ctx>, p: seq<Insn>, i: nat, now: set<nat>)
    requires i < |p| && !InsnOk(ctx, p[i], i, |p|, now)
    requires Below(ctx, p, i, now)
    ensures !Acceptable(ctx, p)
  {
    forall lab | Consistent(ctx, p, lab)
      ensures false
    {
      CheckIsMonotone(ctx, p[i], i, |p|, now, lab[i]);
    }
  }

  /** bpf_validate_ext: accepts exactly the acceptable programs. */
  method Validate(ctx: Option<Ctx>, p: seq<Insn>) returns (ok: bool)
    ensures ok <==> Acceptable(ctx, p)
  {
    var len := |p|;
    if len < 1 || len > BPF_MAXINSNS {
      return false;
    }
    if p[len - 1].code != 0x06 && p[len - 1].code != 0x16 {
      return false;
    }
    hide Closed, Least, Below, InsnOk, AfterMem, AfterInvalid, Consistent, AllWords, Acceptable, Preinited;
    var mem: seq<set<nat>> := seq(len, t => {});
    var invalid: set<nat> := AllWords() - Preinited(ctx);
    ghost var lab: seq<set<nat>> := [];
    PassStarts(ctx, p, invalid, mem);
    var i := 0;
    while i < len
      invariant 0 <= i <= len == |mem| && |lab| == i
      invariant Closed(ctx, p, lab, i, invalid, mem) && Least(ctx, p, i, invalid, mem)
      invariant AllWords() - Preinited(ctx) <= if i == 0 then invalid else lab[0]
    {
      LeastStep(ctx, p, i, invalid, mem);
      ghost var before := invalid;
      invalid := invalid + mem[i];
      var pass := Check(ctx, p[i], i, len, invalid);
      if !pass {
        RejectionIsFinal(ctx, p, i, invalid);
        return false;
      }
      ClosedStep(ctx, p, lab, i, before, mem);
      lab := lab + [invalid];
      invalid, mem := Propagate(ctx, p, i, invalid, mem);
      i := i + 1;
    }
    PassEnds(ctx, p, lab, invalid, mem);
    return true;
  }

  lemma PassStarts(ctx: Option<Ctx>, p: seq<Insn>, invalid: set<nat>, mem: seq<set<nat>>)
    requires invalid == AllWords() - Preinited(ctx) && |mem| == |p| && forall t :: 0 <= t < |p| ==> mem[t] == {}
    ensures Closed(ctx, p, [], 0, invalid, mem) && Least(ctx, p, 0, invalid, mem)
  {
  }

  lemma PassEnds(ctx: Option<Ctx>, p: seq<Insn>, lab: seq<set<nat>>, invalid: set<nat>, mem: seq<set<nat>>)
    requires |p| == |lab| > 0 && Closed(ctx, p, lab, |p|, invalid, mem)
    requires AllWords() - Preinited(ctx) <= lab[0] && EndsInReturn(p)
    ensures Acceptable(ctx, p)
  {
    assert Consistent(ctx, p, lab);
  }

  /** What the pass does after a passed check: drop a stored word, or mark the jump targets. */
  method Propagate(ctx: Option<Ctx>, p: seq<Insn>, i: nat, now: set<nat>, marks: seq<set<nat>>)
    returns (invalid: set<nat>, mem: seq<set<nat>>)
    requires i < |p| == |marks| && InsnOk(ctx, p[i], i, |p|, now)
    ensures invalid == AfterInvalid(p[i], now) && mem == AfterMem(p, i, now, marks)
  {
    var f := p[i];
    invalid, mem := now, marks;
    if Class(f.code) == CLASS_ST || Class(f.code) == CLASS_STX {
      invalid := invalid - {f.k};
    } else if Class(f.code) == CLASS_JMP {
      var from := i + 1;
      if Op(f.code) == JA {
        mem := mem[from + f.k := mem[from + f.k] + invalid];
      } else {
        mem := mem[from + f.jt := mem[from + f.jt] + invalid];
        mem := mem[from + f.jf := mem[from + f.jf] + invalid];
      }
      invalid := {};
    }
  }

  /** The switch of the validator: 32-bit sums for the jump targets, the rest as in the source. */
  method Check(ctx: Option<Ctx>, f: Insn, i: nat, len: nat, invalid: set<nat>) returns (pass: bool)
    requires i < len <= BPF_MAXINSNS
    ensures pass <==> InsnOk(ctx, f, i, len, invalid)
  {
    var c := Class(f.code);
    if c == CLASS_LD || c == CLASS_LDX {
      if Mode(f.code) == 0x60 {
        return f.k < Memwords(ctx) && f.k !in invalid;
      }
      return Mode(f.code) in {0x20, 0x40, 0xa0, 0x00, 0x80};
    }
    if c == CLASS_ST || c == CLASS_STX {
      return f.k < Memwords(ctx);
    }
    if c == CLASS_ALU {
      if Op(f.code) == 0x30 || Op(f.code) == 0x90 {
        return !(Src(f.code) == 0 && f.k == 0);
      }
      return Op(f.code) in {0x00, 0x10, 0x20, 0x40, 0xa0, 0x50, 0x60, 0x70, 0x80};
    }
    if c == CLASS_JMP {
      var from := i + 1;
      if Op(f.code) == JA {
        var target := (from + f.k) % W32;
        return target < len && target >= from;
      }
      return IsCondJump(f.code) && from + f.jt < len && from + f.jf < len;
    }
    if c == CLASS_RET {
      return true;
    }
    if MiscOp(f.code) == 0x20 {
      return Cops(ctx).Some? && f.k < Cops(ctx).value;
    }
    return MiscOp(f.code) != 0x40 || Cops(ctx).Some?;
  }

  /** The environment an accepted program is run in: the context it was validated for. */
  predicate RunsIn(ctx: Option<Ctx>, env: Env, mem: map<nat, u32>) {
    && env.memwords == Memwords(ctx) <= 32
    && (Cops(ctx).Some? ==> env.nfuncs.Some?)
    && (forall w :: w in Preinited(ctx) && w < env.memwords ==> w in mem)
  }

  /** At instruction pc every in-range word outside the label has been initialised. */
  predicate Initialised(unset: set<nat>, env: Env, r: Regs) {
    forall w: nat :: w < env.memwords && w !in unset ==> w in r.mem
  }

  /** The offset taken agrees with the kind of instruction. */
  predicate OffsetOf(f: Insn, off: nat) {
    if IsJa(f.code) then off == f.k
    else if Class(f.code) == CLASS_JMP then off == f.jt || off == f.jf
    else off == 0
  }

  lemma AluIsSafe(ctx: Option<Ctx>, env: Env, f: Insn, i: nat, n: nat, unset: set<nat>, r: Regs)
    requires Class(f.code) == 4
    requires InsnOk(ctx, f, i, n, unset) && Initialised(unset, env, r)
    requires Cops(ctx).Some? ==> env.nfuncs.Some?
    requires env.memwords == Memwords(ctx)
    ensures match Exec(env, f, r)
            case Next(off, r') => OffsetOf(f, off) && Initialised(Out(f, unset), env, r')
            case Fault(_) => false
            case _ => true
  {
  }

  lemma JumpIsSafe(ctx: Option<Ctx>, env: Env, f: Insn, i: nat, n: nat, unset: set<nat>, r: Regs)
    requires Class(f.code) == CLASS_JMP
    requires InsnOk(ctx, f, i, n, unset) && Initialised(unset, env, r)
    requires Cops(ctx).Some? ==> env.nfuncs.Some?
    requires env.memwords == Memwords(ctx)
    ensures match Exec(env, f, r)
            case Next(off, r') => OffsetOf(f, off) && Initialised(Out(f, unset), env, r')
            case Fault(_) => false
            case _ => true
  {
  }

  lemma OtherIsSafe(ctx: Option<Ctx>, env: Env, f: Insn, i: nat, n: nat, unset: set<nat>, r: Regs)
    requires Class(f.code) != 4 && Class(f.code) != CLASS_JMP
    requires InsnOk(ctx, f, i, n, unset) && Initialised(unset, env, r)
    requires Cops(ctx).Some? ==> env.nfuncs.Some?
    requires env.memwords == Memwords(ctx)
    ensures match Exec(env, f, r)
            case Next(off, r') => OffsetOf(f, off) && Initialised(Out(f, unset), env, r')
            case Fault(_) => false
            case _ => true
  {
  }

  lemma ExecIsSafe(ctx: Option<Ctx>, env: Env, f: Insn, i: nat, n: nat, unset: set<nat>, r: Regs)
    requires InsnOk(ctx, f, i, n, unset) && Initialised(unset, env, r)
    requires Cops(ctx).Some? ==> env.nfuncs.Some?
    requires env.memwords == Memwords(ctx)
    ensures match Exec(env, f, r)
            case Next(off, r') => OffsetOf(f, off) && Initialised(Out(f, unset), env, r')
            case Fault(_) => false
            case _ => true
  {
    hide Exec, InsnOk, Initialised, OffsetOf, Out;
    if Class(f.code) == 4 {
      AluIsSafe(ctx, env, f, i, n, unset, r);
    } else if Class(f.code) == CLASS_JMP {
      JumpIsSafe(ctx, env, f, i, n, unset, r);
    } else {
      OtherIsSafe(ctx, env, f, i, n, unset, r);
    }
  }

  lemma ExecStaysSafe(ctx: Option<Ctx>, env: Env, p: seq<Insn>, lab: seq<set<nat>>, pc: nat, r: Regs)
    requires EndsInReturn(p) && Consistent(ctx, p, lab) && pc < |p|
    requires Cops(ctx).Some? ==> env.nfuncs.Some?
    requires env.memwords == Memwords(ctx) && Initialised(lab[pc], env, r)
    ensures match Exec(env, p[pc], r)
            case Next(off, r') => pc + 1 + off < |p| && Initialised(lab[pc + 1 + off], env, r')
            case Fault(_) => false
            case _ => true
  {
    assert InsnOk(ctx, p[pc], pc, |p|, lab[pc]);
    ExecIsSafe(ctx, env, p[pc], pc, |p|, lab[pc], r);
    var act := Exec(env, p[pc], r);
    if act.Next? {
      assert pc != |p| - 1;
      assert Edge(p, pc, pc + 1 + act.off);
    }
  }

  lemma {:induction false} RunStaysSafe(ctx: Option<Ctx>, env: Env, p: seq<Insn>, lab: seq<set<nat>>,
                                        pc: nat, r: Regs)
    requires EndsInReturn(p) && Consistent(ctx, p, lab) && pc < |p|
    requires Cops(ctx).Some? ==> env.nfuncs.Some?
    requires env.memwords == Memwords(ctx) && Initialised(lab[pc], env, r)
    ensures !Run(env, p, pc, r).Crash?
    decreases |p| - pc
  {
    hide Exec;
    ExecStaysSafe(ctx, env, p, lab, pc, r);
    match Exec(env, p[pc], r)
    case Next(off, r') => RunStaysSafe(ctx, env, p, lab, pc + 1 + off, r');
    case _ =>
  }

  /**
    * Validator soundness: on every packet an accepted program keeps its program counter inside the
    * program, touches scratch memory only in range and only where the path taken has initialised
    * it, and never divides by zero.
    */
  lemma ValidatorSound(ctx: Option<Ctx>, env: Env, p: seq<Insn>, mem: map<nat, u32>)
    requires Acceptable(ctx, p) && RunsIn(ctx, env, mem)
    ensures !FilterOutcome(env, p, mem).Crash?
  {
    var lab :| Consistent(ctx, p, lab);
    RunStaysSafe(ctx, env, p, lab, 0, Regs(0, 0, mem));
  }
}
