/**
  * What each BPF opcode means, said from the fields of the opcode (class, size, mode, operation and source)
  * and from the bits and bytes of the operands, and the interpreter's switch measured against it.
  */
module BpfOpcodes {
  import opened Words
  import opened BpfMachine

  // ----- bits and bytes

  /** Bit k of a number. */
  predicate Bit(a: nat, k: nat)
    decreases k
  {
    if k == 0 then a % 2 == 1 else Bit(a / 2, k - 1)
  }

  lemma {:induction false} ZeroBits(k: nat)
    ensures !Bit(0, k)
  {
    if k > 0 {
      ZeroBits(k - 1);
    }
  }

  lemma {:induction false} AndBits(a: nat, b: nat, k: nat)
    ensures Bit(And(a, b), k) <==> Bit(a, k) && Bit(b, k)
    decreases k
  {
    if a == 0 || b == 0 {
      ZeroBits(k);
    } else if k > 0 {
      AndBits(a / 2, b / 2, k - 1);
    }
  }

  lemma {:induction false} OrBits(a: nat, b: nat, k: nat)
    ensures Bit(a + b - And(a, b), k) <==> Bit(a, k) || Bit(b, k)
    decreases k
  {
    if a == 0 || b == 0 {
      ZeroBits(k);
    } else if k > 0 {
      OrBits(a / 2, b / 2, k - 1);
      assert (a + b - And(a, b)) / 2 == a / 2 + b / 2 - And(a / 2, b / 2);
    }
  }

  lemma {:induction false} XorBits(a: nat, b: nat, k: nat)
    ensures a + b - 2 * And(a, b) >= 0
    ensures Bit(a + b - 2 * And(a, b), k) <==> Bit(a, k) != Bit(b, k)
    decreases k
  {
    if a == 0 || b == 0 {
      ZeroBits(k);
    } else if k > 0 {
      XorBits(a / 2, b / 2, k - 1);
      assert (a + b - 2 * And(a, b)) / 2 == a / 2 + b / 2 - 2 * And(a / 2, b / 2);
    }
  }

  lemma {:induction false} ShiftedUp(a: nat, n: nat, k: nat)
    ensures Bit(a * Pow2(n), k) <==> k >= n && Bit(a, k - n)
    decreases n
  {
    if n > 0 {
      DoubleProduct(Pow2(n - 1), a);
      assert a * Pow2(n) == 2 * (a * Pow2(n - 1));
      if k > 0 {
        ShiftedUp(a, n - 1, k - 1);
      }
    }
  }

  lemma {:induction false} ShiftedDown(a: nat, n: nat, q: nat, l: nat, k: nat)
    requires l < Pow2(n) && a == Pow2(n) * q + l
    ensures Bit(q, k) <==> Bit(a, k + n)
    decreases n
  {
    if n > 0 {
      DoubleProduct(Pow2(n - 1), q);
      assert a / 2 == Pow2(n - 1) * q + l / 2;
      ShiftedDown(a / 2, n - 1, q, l / 2, k);
    }
  }

  /** Cutting a number to w bits leaves those bits. */
  lemma {:induction false} LowBits(a: nat, w: nat, k: nat)
    ensures Bit(a % Pow2(w), k) <==> k < w && Bit(a, k)
    decreases w
  {
    if w == 0 {
      ZeroBits(k);
    } else {
      ModHalf(a, Pow2(w - 1));
      if k > 0 {
        LowBits(a / 2, w - 1, k - 1);
      }
    }
  }

  lemma ModHalf(a: nat, p: nat)
    requires p > 0
    ensures a % (2 * p) % 2 == a % 2 && a % (2 * p) / 2 == a / 2 % p
  {
    var h, l := DivMod(a / 2, p);
    assert a == 2 * (p * h + l) + a % 2;
    DoubleProduct(p, h);
    ModUnique(a, 2 * p, h, 2 * l + a % 2);
  }

  /** A 32-bit word has no bit from 32 on, and its bits make it. */
  lemma {:induction false} HighBits(a: nat, w: nat, k: nat)
    requires a < Pow2(w) && k >= w
    ensures !Bit(a, k)
  {
    if w == 0 {
      ZeroBits(k);
    } else {
      HighBits(a / 2, w - 1, k - 1);
    }
  }

  lemma {:induction false} BitsDetermine(a: nat, b: nat, w: nat)
    requires a < Pow2(w) && b < Pow2(w) && forall k: nat :: k < w ==> Bit(a, k) == Bit(b, k)
    ensures a == b
  {
    if w > 0 {
      assert Bit(a, 0) == Bit(b, 0);
      forall k: nat | k < w - 1 ensures Bit(a / 2, k) == Bit(b / 2, k) {
        assert Bit(a, k + 1) == Bit(b, k + 1);
      }
      BitsDetermine(a / 2, b / 2, w - 1);
    }
  }

  // ----- the fields of an opcode

  /** The low three bits. */
  function ClassOf(code: u16): nat { code % 8 }

  /** Bits 3 and 4 of a load: 4, 2 or 1 bytes. */
  function SizeOf(code: u16): nat {
    match code / 8 % 4
    case 0 => 4
    case 1 => 2
    case 2 => 1
    case _ => 0
  }

  /** Bits 5 to 7 of a load. */
  datatype Mode = Imm | Abs | Ind | Mem | Len | Msh | NoMode

  function ModeOf(code: u16): Mode {
    match code / 32 % 8
    case 0 => Imm
    case 1 => Abs
    case 2 => Ind
    case 3 => Mem
    case 4 => Len
    case 5 => Msh
    case _ => NoMode
  }

  /** Bits 4 to 7 of an ALU or jump opcode, and bit 3, which picks X or the constant. */
  function OpOf(code: u16): nat { code / 16 % 16 }

  predicate UsesX(code: u16) { code / 8 % 2 == 1 }

  // ----- what an opcode does

  /** The bytes of a load; nothing when the packet ends before them. */
  function Loaded(pkt: seq<u8>, at: nat, size: nat): Option<nat> {
    if at + size <= |pkt| then Some(BigEndian(pkt[at..at + size])) else None
  }

  /** A load of A from the packet, which ends the program with 0 when the packet is too short. */
  predicate LoadsA(pkt: seq<u8>, at: nat, size: nat, r: Regs, act: Act) {
    var v := Loaded(pkt, at, size);
    if v.None? then act == Return(0)
    else act.Next? && act.off == 0 && act.r.a == v.value && act.r.x == r.x && act.r.mem == r.mem
  }

  /** Y is the result of an arithmetic operation on 32-bit words. */
  ghost predicate Computes(op: nat, a: u32, v: u32, undefinedShift: u32, y: u32) {
    match op
    case 0 => (a + v - y) % W32 == 0
    case 1 => (a - v - y) % W32 == 0
    case 2 => (a * v - y) % W32 == 0
    case 3 => v * y <= a < v * y + v
    case 4 => forall k: nat :: k < 32 ==> (Bit(y, k) <==> Bit(a, k) || Bit(v, k))
    case 5 => forall k: nat :: k < 32 ==> (Bit(y, k) <==> Bit(a, k) && Bit(v, k))
    case 6 =>
      if v < 32 then forall k: nat :: k < 32 ==> (Bit(y, k) <==> k >= v && Bit(a, k - v))
      else y == undefinedShift
    case 7 =>
      if v < 32 then forall k: nat :: k < 32 ==> (Bit(y, k) <==> k + v < 32 && Bit(a, k + v))
      else y == undefinedShift
    case 9 => y < v && exists q: nat :: a == v * q + y
    case 10 => forall k: nat :: k < 32 ==> (Bit(y, k) <==> Bit(a, k) != Bit(v, k))
    case _ => false
  }

  /** The operations that exist: all but the unary negation. */
  predicate IsBinary(op: nat) { op <= 10 && op != 8 }

  ghost predicate AluDoes(env: Env, i: Insn, r: Regs, act: Act) {
    var op, v := OpOf(i.code), if UsesX(i.code) then r.x else i.k;
    if op == 8 && !UsesX(i.code) then
      act.Next? && act == Next(0, r.(a := act.r.a)) && (r.a + act.r.a) % W32 == 0
    else if !IsBinary(op) then act == Undecoded
    else if (op == 3 || op == 9) && v == 0 then act == if UsesX(i.code) then Return(0) else Fault(DivideByZero)
    else act.Next? && act == Next(0, r.(a := act.r.a)) && Computes(op, r.a, v, env.undefinedShift, act.r.a)
  }

  ghost predicate SharesBit(a: u32, v: u32) {
    exists k: nat :: k < 32 && Bit(a, k) && Bit(v, k)
  }

  /** The test of a conditional jump. */
  ghost predicate Taken(op: nat, a: u32, v: u32) {
    match op
    case 1 => a == v
    case 2 => a > v
    case 3 => a >= v
    case _ => SharesBit(a, v)
  }

  ghost predicate JumpDoes(i: Insn, r: Regs, act: Act) {
    var op, v := OpOf(i.code), if UsesX(i.code) then r.x else i.k;
    if op == 0 && !UsesX(i.code) then act == Next(i.k, r)
    else if op == 0 || op > 4 then act == Undecoded
    else act == Next(if Taken(op, r.a, v) then i.jt else i.jf, r)
  }

  /** A load from scratch memory, into X or A. */
  predicate RecallDoes(env: Env, i: Insn, r: Regs, toX: bool, act: Act) {
    if i.k >= env.memwords then act == Fault(MemRange)
    else if i.k !in r.mem then act == Fault(MemUninitialised)
    else act == Next(0, if toX then r.(x := r.mem[i.k]) else r.(a := r.mem[i.k]))
  }

  predicate LoadDoes(env: Env, i: Insn, r: Regs, act: Act) {
    var size := SizeOf(i.code);
    match ModeOf(i.code)
    case Abs => if size == 0 then act == Undecoded else LoadsA(env.pkt, i.k, size, r, act)
    case Ind =>
      if size == 0 then act == Undecoded
      else if r.x + i.k >= W32 then act == Return(0)
      else LoadsA(env.pkt, r.x + i.k, size, r, act)
    case Imm => act == if size == 4 then Next(0, r.(a := i.k)) else Undecoded
    case Mem => if size == 4 then RecallDoes(env, i, r, false, act) else act == Undecoded
    case Len => act == if size == 4 then Next(0, r.(a := env.wirelen)) else Undecoded
    case _ => act == Undecoded
  }

  /** Msh reads the length of an IPv4 header: bits 2 to 5 of X are the low half of a byte, the others 0. */
  ghost predicate LoadXDoes(env: Env, i: Insn, r: Regs, act: Act) {
    var size := SizeOf(i.code);
    match ModeOf(i.code)
    case Imm => act == if size == 4 then Next(0, r.(x := i.k)) else Undecoded
    case Mem => if size == 4 then RecallDoes(env, i, r, true, act) else act == Undecoded
    case Len => act == if size == 4 then Next(0, r.(x := env.wirelen)) else Undecoded
    case Msh =>
      if size != 1 then act == Undecoded
      else if i.k >= |env.pkt| then act == Return(0)
      else act.Next? && act == Next(0, r.(x := act.r.x)) &&
           forall k: nat :: k < 32 ==> (Bit(act.r.x, k) <==> 2 <= k < 6 && Bit(env.pkt[i.k], k - 2))
    case _ => act == Undecoded
  }

  predicate StoreDoes(env: Env, i: Insn, r: Regs, v: u32, act: Act) {
    if i.code / 8 != 0 then act == Undecoded
    else if i.k >= env.memwords then act == Fault(MemRange)
    else act == Next(0, r.(mem := r.mem[i.k := v]))
  }

  predicate CallDoes(env: Env, f: u32, r: Regs, act: Act) {
    if env.nfuncs.None? then act == Fault(NoCoprocessor)
    else if f >= env.nfuncs.value then act == Return(0)
    else
      var c := env.cop(f, r.a, r.mem);
      act == Next(0, Regs(c.a, r.x, r.mem + c.writes))
  }

  /** Bits 3 to 7: transfers between A and X, and the two coprocessor calls. */
  predicate MiscDoes(env: Env, i: Insn, r: Regs, act: Act) {
    match i.code / 8
    case 0 => act == Next(0, r.(x := r.a))
    case 16 => act == Next(0, r.(a := r.x))
    case 4 => CallDoes(env, i.k, r, act)
    case 8 => CallDoes(env, r.x, r, act)
    case _ => act == Undecoded
  }

  /** What instruction i does to the machine, by its class. */
  ghost predicate Does(env: Env, i: Insn, r: Regs, act: Act) {
    if i.code >= 0x100 then act == Undecoded
    else
      match ClassOf(i.code)
      case 0 => LoadDoes(env, i, r, act)
      case 1 => LoadXDoes(env, i, r, act)
      case 2 => StoreDoes(env, i, r, r.a, act)
      case 3 => StoreDoes(env, i, r, r.x, act)
      case 4 => AluDoes(env, i, r, act)
      case 5 => JumpDoes(i, r, act)
      case 6 => act == if i.code / 8 == 0 then Return(i.k) else if i.code / 8 == 2 then Return(r.a) else Undecoded
      case _ => MiscDoes(env, i, r, act)
  }

  // ----- the switch does that, and nothing else does

  lemma FourBytes(bs: seq<u8>)
    requires |bs| == 4
    ensures BigEndian(bs) == W16 * Be16(bs[0], bs[1]) + Be16(bs[2], bs[3])
  {
    TwoBytes(bs[..2]);
    assert bs[..3][..2] == bs[..2];
    assert BigEndian(bs[..3]) == 256 * BigEndian(bs[..2]) + bs[2];
  }

  lemma TwoBytes(bs: seq<u8>)
    requires |bs| == 2
    ensures BigEndian(bs) == Be16(bs[0], bs[1])
  {
    OneByte(bs[..1]);
  }

  lemma OneByte(bs: seq<u8>)
    requires |bs| == 1
    ensures BigEndian(bs) == bs[0]
  {
    assert bs[..0] == [];
  }

  lemma LoadsExact(env: Env, at: nat, r: Regs)
    ensures LoadsA(env.pkt, at, 4, r, LoadA(LoadWord(env.pkt, at), r))
    ensures LoadsA(env.pkt, at, 2, r, LoadA(LoadHalf(env.pkt, at), r))
    ensures LoadsA(env.pkt, at, 1, r, LoadA(LoadByte(env.pkt, at), r))
  {
    if at + 4 <= |env.pkt| {
      FourBytes(env.pkt[at..at + 4]);
    }
    if at + 2 <= |env.pkt| {
      TwoBytes(env.pkt[at..at + 2]);
    }
    if at + 1 <= |env.pkt| {
      OneByte(env.pkt[at..at + 1]);
    }
  }

  lemma {:induction false} SomeBit(a: nat, w: nat) returns (k: nat)
    requires 0 < a < Pow2(w)
    ensures k < w && Bit(a, k)
  {
    if a % 2 == 1 {
      k := 0;
    } else {
      k := SomeBit(a / 2, w - 1);
      k := k + 1;
    }
  }

  lemma TakenExact(a: u32, v: u32)
    ensures And(a, v) != 0 <==> SharesBit(a, v)
  {
    hide Bit, And;
    Pow2At32();
    if And(a, v) != 0 {
      var k := SomeBit(And(a, v), 32);
      AndBits(a, v, k);
    } else if k: nat :| k < 32 && Bit(a, k) && Bit(v, k) {
      AndBits(a, v, k);
      ZeroBits(k);
    }
  }

  lemma ShlExact(env: Env, a: u32, v: u32)
    requires v < 32
    ensures forall k: nat :: k < 32 ==> (Bit(Shl(env, a, v), k) <==> k >= v && Bit(a, k - v))
  {
    Pow2At32();
    forall k: nat | k < 32 ensures Bit(Shl(env, a, v), k) <==> k >= v && Bit(a, k - v) {
      LowBits(a * Pow2(v), 32, k);
      ShiftedUp(a, v, k);
    }
  }

  lemma ShrExact(env: Env, a: u32, v: u32)
    requires v < 32
    ensures forall k: nat :: k < 32 ==> (Bit(Shr(env, a, v), k) <==> k + v < 32 && Bit(a, k + v))
  {
    Pow2At32();
    var q, l := DivMod(a, Pow2(v));
    forall k: nat | k < 32 ensures Bit(Shr(env, a, v), k) <==> k + v < 32 && Bit(a, k + v) {
      ShiftedDown(a, v, q, l, k);
      if k + v >= 32 {
        HighBits(a, 32, k + v);
      }
    }
  }

  /** The low half of a byte, four times. */
  lemma MshExact(b: u8)
    ensures forall k: nat :: k < 32 ==> (Bit(b % 16 * 4, k) <==> 2 <= k < 6 && Bit(b, k - 2))
  {
    assert Pow2(4) == 16 && Pow2(2) == 4;
    forall k: nat | k < 32 ensures Bit(b % 16 * 4, k) <==> 2 <= k < 6 && Bit(b, k - 2) {
      ShiftedUp(b % 16, 2, k);
      if k >= 2 {
        LowBits(b, 4, k - 2);
      }
    }
  }

  /** The value that ExecAlu puts into A. */
  lemma ComputesExact(env: Env, op: nat, a: u32, v: u32)
    requires IsBinary(op) && ((op == 3 || op == 9) ==> v != 0)
    ensures Computes(op, a, v, env.undefinedShift, Alu(env, 16 * op, a, v) % W32)
  {
    hide Bit, Computes, Alu;
    if op <= 2 {
      SumExact(env, op, a, v);
    } else if op == 3 || op == 9 {
      DivisionExact(env, op, a, v);
    } else if op == 6 || op == 7 {
      ShiftExact(env, op, a, v);
    } else {
      LogicExact(env, op, a, v);
    }
  }

  lemma SumExact(env: Env, op: nat, a: u32, v: u32)
    requires op <= 2
    ensures Computes(op, a, v, env.undefinedShift, Alu(env, 16 * op, a, v) % W32)
  {
    hide Bit, And, Pow2;
    if op == 0 {
      Residue(a + v);
    } else if op == 1 {
      Residue(a - v);
    } else {
      ghost var z := a * v;
      Residue(z);
    }
  }

  lemma LogicExact(env: Env, op: nat, a: u32, v: u32)
    requires op == 4 || op == 5 || op == 10
    ensures Computes(op, a, v, env.undefinedShift, Alu(env, 16 * op, a, v) % W32)
  {
    hide Bit, And, Pow2, Or32, Xor32;
    U32Residue(Alu(env, 16 * op, a, v));
    BitwiseExact(a, v);
  }

  lemma DivisionExact(env: Env, op: nat, a: u32, v: u32)
    requires (op == 3 || op == 9) && v != 0
    ensures Computes(op, a, v, env.undefinedShift, Alu(env, 16 * op, a, v) % W32)
  {
    hide Bit, And, Pow2;
    var q, m := DivMod(a, v);
    if op == 3 {
      MulMonotone(q, 1, v);
      U32Residue(q);
    } else {
      U32Residue(m);
    }
  }

  lemma ShiftExact(env: Env, op: nat, a: u32, v: u32)
    requires op == 6 || op == 7
    ensures Computes(op, a, v, env.undefinedShift, Alu(env, 16 * op, a, v) % W32)
  {
    hide Bit, And, Pow2, Shl, Shr;
    U32Residue(Alu(env, 16 * op, a, v));
    if v >= 32 {
      LongShift(env, a, v);
    } else if op == 6 {
      ShlExact(env, a, v);
    } else {
      ShrExact(env, a, v);
    }
  }

  lemma LongShift(env: Env, a: u32, v: u32)
    requires v >= 32
    ensures Shl(env, a, v) == Shr(env, a, v) == env.undefinedShift
  {
  }

  lemma U32Residue(x: u32)
    ensures x % W32 == x
  {
  }

  lemma Residue(z: int)
    ensures (z - z % W32) % W32 == 0
  {
  }

  lemma BitwiseExact(a: u32, v: u32)
    ensures forall k: nat :: k < 32 ==> (Bit(Or32(a, v), k) <==> Bit(a, k) || Bit(v, k))
    ensures forall k: nat :: k < 32 ==> (Bit(And(a, v), k) <==> Bit(a, k) && Bit(v, k))
    ensures forall k: nat :: k < 32 ==> (Bit(Xor32(a, v), k) <==> Bit(a, k) != Bit(v, k))
  {
    forall k: nat | k < 32
      ensures Bit(Or32(a, v), k) <==> Bit(a, k) || Bit(v, k)
      ensures Bit(And(a, v), k) <==> Bit(a, k) && Bit(v, k)
      ensures Bit(Xor32(a, v), k) <==> Bit(a, k) != Bit(v, k)
    {
      OrBits(a, v, k);
      AndBits(a, v, k);
      XorBits(a, v, k);
    }
  }

  lemma AluExact(env: Env, i: Insn, r: Regs)
    requires i.code < 0x100 && ClassOf(i.code) == 4
    ensures AluDoes(env, i, r, Exec(env, i, r))
  {
    hide Computes, Alu, Pow2, And;
    var op, v := OpOf(i.code), Operand(i, r);
    assert i.code == 16 * op + i.code % 16 && UsesX(i.code) == (i.code % 16 >= 8);
    if IsBinary(op) && !((op == 3 || op == 9) && v == 0) {
      ComputesExact(env, op, r.a, v);
    }
  }

  lemma JumpExact(env: Env, i: Insn, r: Regs)
    requires i.code < 0x100 && ClassOf(i.code) == 5
    ensures JumpDoes(i, r, Exec(env, i, r))
  {
    hide SharesBit, And, Pow2;
    var op, v := OpOf(i.code), Operand(i, r);
    assert i.code == 16 * op + i.code % 16 && UsesX(i.code) == (i.code % 16 >= 8);
    TakenExact(r.a, v);
  }

  lemma LoadExact(env: Env, i: Insn, r: Regs)
    requires i.code < 0x100 && ClassOf(i.code) == 0
    ensures LoadDoes(env, i, r, Exec(env, i, r))
  {
    hide LoadsA, LoadWord, LoadHalf, LoadByte;
    LoadsExact(env, i.k, r);
    LoadsExact(env, r.x + i.k, r);
  }

  lemma LoadXExact(env: Env, i: Insn, r: Regs)
    requires i.code < 0x100 && ClassOf(i.code) == 1
    ensures LoadXDoes(env, i, r, Exec(env, i, r))
  {
    hide Bit;
    if i.k < |env.pkt| {
      MshExact(env.pkt[i.k]);
    }
  }

  /** The interpreter's switch does what the opcode means, for every opcode, operand, packet and memory. */
  lemma ExecMeans(env: Env, i: Insn, r: Regs)
    ensures Does(env, i, r, Exec(env, i, r))
  {
    hide AluDoes, JumpDoes, LoadDoes, LoadXDoes;
    if i.code < 0x100 {
      var c := ClassOf(i.code);
      if c == 0 {
        LoadExact(env, i, r);
      } else if c == 1 {
        LoadXExact(env, i, r);
      } else if c == 4 {
        AluExact(env, i, r);
      } else if c == 5 {
        JumpExact(env, i, r);
      }
    }
  }

  lemma SameBits(y: u32, z: u32)
    requires forall k: nat :: k < 32 ==> Bit(y, k) == Bit(z, k)
    ensures y == z
  {
    Pow2At32();
    BitsDetermine(y, z, 32);
  }

  lemma SameQuotient(a: nat, v: nat, y: nat, z: nat)
    requires v * y <= a < v * y + v && v * z <= a < v * z + v
    ensures y == z
  {
    ModUnique(a, v, y, a - v * y);
    ModUnique(a, v, z, a - v * z);
  }

  lemma SameRemainder(a: nat, v: nat, y: nat, z: nat)
    requires y < v && z < v
    requires (exists q: nat :: a == v * q + y) && (exists q: nat :: a == v * q + z)
    ensures y == z
  {
    var q: nat :| a == v * q + y;
    var q': nat :| a == v * q' + z;
    ModUnique(a, v, q, y);
    ModUnique(a, v, q', z);
  }

  /** Two words with the same sum, difference or product differ by a multiple of 2^32, so they are equal. */
  lemma SameResidue(s: int, y: u32, z: u32)
    requires (s - y) % W32 == 0 && (s - z) % W32 == 0
    ensures y == z
  {
  }

  /** A result of an operation is the only one. */
  lemma ComputesOnce(op: nat, a: u32, v: u32, undefinedShift: u32, y: u32, z: u32)
    requires Computes(op, a, v, undefinedShift, y) && Computes(op, a, v, undefinedShift, z)
    ensures y == z
  {
    hide Bit;
    if op == 0 {
      SameResidue(a + v, y, z);
    } else if op == 1 {
      SameResidue(a - v, y, z);
    } else if op == 2 {
      SameResidue(a * v, y, z);
    } else if op == 3 {
      SameQuotient(a, v, y, z);
    } else if op == 9 {
      SameRemainder(a, v, y, z);
    } else if !((op == 6 || op == 7) && v >= 32) {
      SameBits(y, z);
    }
  }

  lemma AluOnce(env: Env, i: Insn, r: Regs, act: Act, other: Act)
    requires AluDoes(env, i, r, act) && AluDoes(env, i, r, other)
    ensures act == other
  {
    hide Computes;
    var op, v := OpOf(i.code), if UsesX(i.code) then r.x else i.k;
    if act.Next? && IsBinary(op) {
      ComputesOnce(op, r.a, v, env.undefinedShift, act.r.a, other.r.a);
    } else if act.Next? {
      SameResidue(0 - r.a, act.r.a, other.r.a);
    }
  }

  lemma LoadXOnce(env: Env, i: Insn, r: Regs, act: Act, other: Act)
    requires LoadXDoes(env, i, r, act) && LoadXDoes(env, i, r, other)
    ensures act == other
  {
    hide Bit;
    if ModeOf(i.code) == Msh && act.Next? {
      SameBits(act.r.x, other.r.x);
    }
  }

  /** The meaning leaves one thing to do, so the switch is the only interpreter of it. */
  lemma MeaningExact(env: Env, i: Insn, r: Regs, act: Act)
    ensures Does(env, i, r, act) <==> act == Exec(env, i, r)
  {
    hide AluDoes, LoadXDoes, Exec, Taken;
    ExecMeans(env, i, r);
    if Does(env, i, r, act) && i.code < 0x100 {
      if ClassOf(i.code) == 1 {
        LoadXOnce(env, i, r, act, Exec(env, i, r));
      } else if ClassOf(i.code) == 4 {
        AluOnce(env, i, r, act, Exec(env, i, r));
      }
    }
  }

  // ----- a program over packets given by their headers

  /** Load the length of the IPv4 header, then the half-word two bytes behind that header, and compare. */
  function PortProgram(port: u16): seq<Insn> {
    [Insn(0xb1, 0, 0, 0), Insn(0x48, 0, 0, 2), Insn(0x15, 0, 1, port), Insn(0x06, 0, 0, MAX32), Insn(0x06, 0, 0, 0)]
  }

  /**
    * Over every IPv4 packet, with header of any length (5 to 15 words, the number in the low half of its
    * first byte) and anything behind the ports, the program accepts exactly the destination port.
    */
  lemma PortProgramExact(env: Env, mem: map<nat, u32>, port: u16, header: seq<u8>, words: nat, source: seq<u8>,
                         destination: u16, rest: seq<u8>)
    requires 5 <= words < 16 && |header| == 4 * words && header[0] == 0x40 + words && |source| == 2
    requires env.pkt == header + source + [destination / 256, destination % 256] + rest
    ensures FilterOutcome(env, PortProgram(port), mem) == Value(if destination == port then MAX32 else 0)
  {
    var p := PortProgram(port);
    var at := 4 * words + 2;
    assert env.pkt[0] == 0x40 + words && env.pkt[at] == destination / 256 && env.pkt[at + 1] == destination % 256;
    var r1 := Regs(0, 4 * words, mem);
    assert Exec(env, p[0], Regs(0, 0, mem)) == Next(0, r1);
    var r2 := Regs(destination, 4 * words, mem);
    assert Exec(env, p[1], r1) == Next(0, r2);
    assert Exec(env, p[2], r2) == Next(if destination == port then 0 else 1, r2);
    RunTail(env, p, mem, r1, r2, destination == port);
  }

  lemma RunTail(env: Env, p: seq<Insn>, mem: map<nat, u32>, r1: Regs, r2: Regs, hit: bool)
    requires |p| == 5 && p[3] == Insn(0x06, 0, 0, MAX32) && p[4] == Insn(0x06, 0, 0, 0)
    requires Exec(env, p[0], Regs(0, 0, mem)) == Next(0, r1) && Exec(env, p[1], r1) == Next(0, r2)
    requires Exec(env, p[2], r2) == Next(if hit then 0 else 1, r2)
    ensures Run(env, p, 0, Regs(0, 0, mem)) == Value(if hit then MAX32 else 0)
  {
    assert Run(env, p, 3, r2) == Value(MAX32) && Run(env, p, 4, r2) == Value(0);
    assert Run(env, p, 2, r2) == Value(if hit then MAX32 else 0);
    assert Run(env, p, 1, r1) == Run(env, p, 2, r2);
  }
}
