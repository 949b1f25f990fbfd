/**
  * What the validator accepts, said without labels: programs of decodable opcodes are accepted exactly when
  * their jumps stay inside, their constants are in range and their words are stored on every path to a load.
  */
module BpfComplete {
  import opened Words
  import opened BpfMachine
  import opened BpfValidator

  /** The opcodes of the machine, by class. */
  const LOADS: set<u16> := {0x00, 0x20, 0x28, 0x30, 0x40, 0x48, 0x50, 0x60, 0x80, 0x01, 0x61, 0x81, 0xb1}
  const STORES: set<u16> := {0x02, 0x03}
  const SUMS: set<u16> :=
    {0x04, 0x0c, 0x14, 0x1c, 0x24, 0x2c, 0x34, 0x3c, 0x44, 0x4c, 0x54, 0x5c, 0x64, 0x6c, 0x74, 0x7c, 0x84, 0x94, 0x9c,
     0xa4, 0xac}
  const TESTS: set<u16> := {0x15, 0x1d, 0x25, 0x2d, 0x35, 0x3d, 0x45, 0x4d}
  const OTHERS: set<u16> := {0x05, 0x06, 0x16, 0x07, 0x87, 0x27, 0x47}

  predicate IsOpcode(code: u16) {
    code in LOADS || code in STORES || code in SUMS || code in TESTS || code in OTHERS
  }

  /** These are the opcodes that the interpreter decodes. */
  lemma OpcodesExact(env: Env, f: Insn, r: Regs)
    ensures Exec(env, f, r) != Undecoded <==> IsOpcode(f.code)
  {
    hide Exec, IsOpcode;
    if f.code % 8 <= 3 {
      LoadOpcodes(env, f, r);
    } else if f.code % 8 == 4 {
      SumOpcodes(env, f, r);
    } else {
      OtherOpcodes(env, f, r);
    }
  }

  lemma LoadOpcodes(env: Env, f: Insn, r: Regs)
    requires f.code % 8 <= 3
    ensures Exec(env, f, r) != Undecoded <==> IsOpcode(f.code)
  {
  }

  lemma SumOpcodes(env: Env, f: Insn, r: Regs)
    requires f.code % 8 == 4
    ensures Exec(env, f, r) != Undecoded <==> IsOpcode(f.code)
  {
    hide Alu;
  }

  lemma OtherOpcodes(env: Env, f: Insn, r: Regs)
    requires f.code % 8 > 4
    ensures Exec(env, f, r) != Undecoded <==> IsOpcode(f.code)
  {
  }

  // ----- paths -------------------------------------------------------------------------------

  predicate Stores(f: Insn, w: nat) { f.code in STORES && f.k == w }

  /** A path of the flow of control from the start, along which a word is not stored before the last instruction. */
  predicate Bare(p: seq<Insn>, path: seq<nat>, w: nat) {
    && path != [] && path[0] == 0 < |p|
    && (forall k :: 0 <= k < |path| - 1 ==> Edge(p, path[k], path[k + 1]) && !Stores(p[path[k]], w))
  }

  ghost predicate Reached(p: seq<Insn>, i: nat, w: nat) {
    exists path :: Bare(p, path, w) && path[|path| - 1] == i
  }

  /** The word is initialised from outside or stored on every path to the instruction. */
  ghost predicate IsSet(ctx: Option<Ctx>, p: seq<Insn>, i: nat, w: nat) {
    w in Preinited(ctx) || !Reached(p, i, w)
  }

  /** What one instruction must look like. */
  ghost predicate WellFormed(ctx: Option<Ctx>, p: seq<Insn>, i: nat)
    requires i < |p|
  {
    var f := p[i];
    && (f.code == 0x60 || f.code == 0x61 ==> f.k < Memwords(ctx) && (f.k < 32 ==> IsSet(ctx, p, i, f.k)))
    && (f.code in STORES ==> f.k < Memwords(ctx))
    && (f.code == 0x34 || f.code == 0x94 ==> f.k != 0)
    && (f.code == 0x05 ==> i + 1 + f.k < |p|)
    && (f.code in TESTS ==> i + 1 + f.jt < |p| && i + 1 + f.jf < |p|)
    && (f.code == 0x27 ==> Cops(ctx).Some? && f.k < Cops(ctx).value)
    && (f.code == 0x47 ==> Cops(ctx).Some?)
  }

  /** The check of one instruction, when its label is the words not set. */
  lemma CheckExact(ctx: Option<Ctx>, p: seq<Insn>, i: nat, unset: set<nat>)
    requires i < |p| && IsOpcode(p[i].code)
    requires forall w :: w in unset <==> w < 32 && !IsSet(ctx, p, i, w)
    ensures InsnOk(ctx, p[i], i, |p|, unset) <==> WellFormed(ctx, p, i)
  {
    hide InsnOk, WellFormed, IsSet, IsOpcode;
    if p[i].code % 8 <= 3 {
      CheckLoad(ctx, p, i, unset);
    } else if p[i].code % 8 == 4 {
      CheckSum(ctx, p, i, unset);
    } else {
      CheckOther(ctx, p, i, unset);
    }
  }

  lemma CheckLoad(ctx: Option<Ctx>, p: seq<Insn>, i: nat, unset: set<nat>)
    requires i < |p| && IsOpcode(p[i].code) && p[i].code % 8 <= 3
    requires forall w :: w in unset <==> w < 32 && !IsSet(ctx, p, i, w)
    ensures InsnOk(ctx, p[i], i, |p|, unset) <==> WellFormed(ctx, p, i)
  {
    hide IsSet;
  }

  lemma CheckSum(ctx: Option<Ctx>, p: seq<Insn>, i: nat, unset: set<nat>)
    requires i < |p| && IsOpcode(p[i].code) && p[i].code % 8 == 4
    ensures InsnOk(ctx, p[i], i, |p|, unset) <==> WellFormed(ctx, p, i)
  {
    hide IsSet;
  }

  lemma CheckOther(ctx: Option<Ctx>, p: seq<Insn>, i: nat, unset: set<nat>)
    requires i < |p| && IsOpcode(p[i].code) && p[i].code % 8 > 4
    ensures InsnOk(ctx, p[i], i, |p|, unset) <==> WellFormed(ctx, p, i)
  {
    hide IsSet;
  }

  // ----- labels from paths -------------------------------------------------------------------

  ghost function PathLabel(ctx: Option<Ctx>, p: seq<Insn>, i: nat): (s: set<nat>)
    ensures forall w :: w in s <==> w < 32 && !IsSet(ctx, p, i, w)
  {
    set w | w in WordsBelow(32) && !IsSet(ctx, p, i, w)
  }

  ghost function PathLabels(ctx: Option<Ctx>, p: seq<Insn>): seq<set<nat>> {
    seq(|p|, (i: nat) => PathLabel(ctx, p, i))
  }

  /** An edge makes a path longer. */
  lemma PathOn(p: seq<Insn>, i: nat, j: nat, w: nat)
    requires Reached(p, i, w) && Edge(p, i, j) && !Stores(p[i], w)
    ensures Reached(p, j, w)
  {
    hide Edge;
    var path :| Bare(p, path, w) && path[|path| - 1] == i;
    assert Bare(p, path + [j], w);
    assert (path + [j])[|path + [j]| - 1] == j;
  }

  /** Every labelling holds the words that are bare on some path. */
  lemma {:induction false} PathLabelled(ctx: Option<Ctx>, p: seq<Insn>, lab: seq<set<nat>>, path: seq<nat>, w: nat)
    requires Consistent(ctx, p, lab) && |lab| == |p| && Bare(p, path, w) && w < 32 && w !in Preinited(ctx)
    requires forall i :: 0 <= i < |p| ==> IsOpcode(p[i].code)
    ensures path[|path| - 1] < |p| && w in lab[path[|path| - 1]]
    decreases |path|
  {
    hide Edge, IsOpcode, Consistent, Stores;
    var n := |path| - 1;
    if n == 0 {
      StartLabelled(ctx, p, lab, w);
    } else {
      var front := path[..n];
      assert Bare(p, front, w);
      PathLabelled(ctx, p, lab, front, w);
      assert front[|front| - 1] == path[n - 1];
      EdgeLabelled(ctx, p, lab, path[n - 1], path[n], w);
    }
  }

  lemma StartLabelled(ctx: Option<Ctx>, p: seq<Insn>, lab: seq<set<nat>>, w: nat)
    requires Consistent(ctx, p, lab) && w < 32 && w !in Preinited(ctx)
    ensures w in lab[0]
  {
    hide InsnOk, Edge;
  }

  lemma EdgeLabelled(ctx: Option<Ctx>, p: seq<Insn>, lab: seq<set<nat>>, i: nat, j: nat, w: nat)
    requires Consistent(ctx, p, lab) && i < |p| && w in lab[i] && Edge(p, i, j) && !Stores(p[i], w)
    requires IsOpcode(p[i].code)
    ensures j < |p| && w in lab[j]
  {
    hide InsnOk, Edge, IsOpcode, Stores, Out;
    EdgeInside(p, i, j);
    OutExact(p[i], lab[i], w);
  }

  lemma EdgeInside(p: seq<Insn>, i: nat, j: nat)
    requires Edge(p, i, j)
    ensures i < |p| && j < |p|
  {
  }

  lemma OutExact(f: Insn, unset: set<nat>, w: nat)
    requires IsOpcode(f.code)
    ensures w in Out(f, unset) <==> w in unset && !Stores(f, w)
  {
  }

  lemma PathEdge(ctx: Option<Ctx>, p: seq<Insn>, i: nat, j: nat)
    requires i < |p| && IsOpcode(p[i].code) && Edge(p, i, j)
    ensures Out(p[i], PathLabel(ctx, p, i)) <= PathLabel(ctx, p, j)
  {
    hide Edge, IsOpcode, Reached, Out, Stores;
    forall w | w in Out(p[i], PathLabel(ctx, p, i)) ensures w in PathLabel(ctx, p, j) {
      OutExact(p[i], PathLabel(ctx, p, i), w);
      PathOn(p, i, j, w);
    }
  }

  lemma PathsConsistent(ctx: Option<Ctx>, p: seq<Insn>)
    requires p != [] && forall i :: 0 <= i < |p| ==> IsOpcode(p[i].code)
    requires forall i :: 0 <= i < |p| ==> WellFormed(ctx, p, i)
    ensures Consistent(ctx, p, PathLabels(ctx, p))
  {
    hide InsnOk, WellFormed, Edge, IsOpcode, Reached, IsSet, Out, PathLabel;
    var lab := PathLabels(ctx, p);
    forall i | 0 <= i < |p| ensures InsnOk(ctx, p[i], i, |p|, lab[i]) {
      CheckExact(ctx, p, i, lab[i]);
    }
    forall i: nat, j: nat | Edge(p, i, j) ensures i < |p| && j < |p| && Out(p[i], lab[i]) <= lab[j] {
      EdgeInside(p, i, j);
      PathEdge(ctx, p, i, j);
    }
    StartBare(ctx, p);
  }

  lemma StartBare(ctx: Option<Ctx>, p: seq<Insn>)
    requires p != []
    ensures AllWords() - Preinited(ctx) <= PathLabel(ctx, p, 0)
  {
    forall w | w in AllWords() - Preinited(ctx) ensures w in PathLabel(ctx, p, 0) {
      assert Bare(p, [0], w);
      assert [0][|[0]| - 1] == 0;
    }
  }

  /**
    * Programs of decodable opcodes that end in a return are accepted exactly when every instruction is well
    * formed: jumps stay inside, constants are in range and words are set on every path to their loads.
    */
  lemma AcceptedExactly(ctx: Option<Ctx>, p: seq<Insn>)
    requires EndsInReturn(p) && forall i :: 0 <= i < |p| ==> IsOpcode(p[i].code)
    ensures Acceptable(ctx, p) <==> forall i :: 0 <= i < |p| ==> WellFormed(ctx, p, i)
  {
    hide InsnOk, WellFormed, Edge, IsOpcode, Reached;
    if forall i :: 0 <= i < |p| ==> WellFormed(ctx, p, i) {
      PathsConsistent(ctx, p);
    }
    if Acceptable(ctx, p) {
      var lab :| Consistent(ctx, p, lab);
      forall i | 0 <= i < |p| ensures WellFormed(ctx, p, i) {
        Labelled(ctx, p, lab, i);
        CheckIsMonotone(ctx, p[i], i, |p|, PathLabel(ctx, p, i), lab[i]);
        CheckExact(ctx, p, i, PathLabel(ctx, p, i));
      }
    }
  }

  lemma Labelled(ctx: Option<Ctx>, p: seq<Insn>, lab: seq<set<nat>>, i: nat)
    requires Consistent(ctx, p, lab) && |lab| == |p| && i < |p|
    requires forall i :: 0 <= i < |p| ==> IsOpcode(p[i].code)
    ensures PathLabel(ctx, p, i) <= lab[i]
  {
    hide InsnOk, Edge, IsOpcode, Consistent;
    forall w | w in PathLabel(ctx, p, i) ensures w in lab[i] {
      var path :| Bare(p, path, w) && path[|path| - 1] == i;
      PathLabelled(ctx, p, lab, path, w);
    }
  }
}
