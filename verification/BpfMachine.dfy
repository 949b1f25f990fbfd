/** The BPF virtual machine of src/kern/stand/bpf_filter.c (standalone build). */
module BpfMachine {
  import opened Words

  const BPF_MEMWORDS := 16
  const BPF_MAXINSNS := 512
  const MAX32: u32 := 0xffff_ffff

  datatype Insn = Insn(code: u16, jt: u8, jf: u8, k: u32)

  /** What a coprocessor function leaves behind: the new accumulator and the words it stored. */
  datatype CopResult = CopResult(a: u32, writes: map<nat, u32>)

  /**
    * The arguments of one execution: packet bytes and length, number of scratch words, the
    * coprocessor (absent without a context) and the value an over-long shift happens to give.
    */
  datatype Env = Env(pkt: seq<u8>, wirelen: u32, memwords: nat, nfuncs: Option<nat>,
                     cop: (u32, u32, map<nat, u32>) -> CopResult, undefinedShift: u32)

  /** Registers; `mem` holds the scratch words that have been initialised. */
  datatype Regs = Regs(a: u32, x: u32, mem: map<nat, u32>)

  datatype Why = PcOutside | MemRange | MemUninitialised | DivideByZero | NoCoprocessor

  datatype Act = Next(off: nat, r: Regs) | Return(v: u32) | Undecoded | Fault(why: Why)

  datatype Outcome = Value(v: u32) | Abort | Crash(why: Why)

  function Shl(env: Env, a: u32, n: u32): u32 {
    if n < 32 then (a * Pow2(n)) % W32 else env.undefinedShift
  }

  function Shr(env: Env, a: u32, n: u32): (r: u32) {
    if n < 32 then ShrBound(a, Pow2(n)); a / Pow2(n) else env.undefinedShift
  }

  lemma ShrBound(a: u32, p: nat)
    requires p >= 1
    ensures 0 <= a / p < W32
  {
  }

  function Be16(hi: u8, lo: u8): u16 {
    256 * (hi as int) + lo
  }

  /** Big-endian loads; None when the packet is too short (`k` is already the final offset). */
  function LoadWord(pkt: seq<u8>, k: nat): Option<u32> {
    if k + 4 <= |pkt| then
      Some(W16 * Be16(pkt[k], pkt[k + 1]) + Be16(pkt[k + 2], pkt[k + 3]))
    else None
  }

  function LoadHalf(pkt: seq<u8>, k: nat): Option<u32> {
    if k + 2 <= |pkt| then Some(Be16(pkt[k], pkt[k + 1])) else None
  }

  function LoadByte(pkt: seq<u8>, k: nat): Option<u32> {
    if k < |pkt| then Some(pkt[k]) else None
  }

  /** A load into A: a short packet ends the program with zero. */
  function LoadA(v: Option<u32>, r: Regs): Act {
    if v.Some? then Next(0, r.(a := v.value)) else Return(0)
  }

  /** X-relative loads fail when the 32-bit sum of X and k wraps; the unbounded sum is then too far. */
  function Indexed(r: Regs, i: Insn): nat {
    r.x + i.k
  }

  function ReadMem(env: Env, r: Regs, k: u32): (v: Option<u32>)
    ensures v.Some? <==> k < env.memwords && k in r.mem
  {
    if k < env.memwords && k in r.mem then Some(r.mem[k]) else None
  }

  function MemFault(env: Env, k: u32): Act {
    Fault(if k < env.memwords then MemUninitialised else MemRange)
  }

  function Store(env: Env, r: Regs, k: u32, v: u32): Act {
    if k < env.memwords then Next(0, r.(mem := r.mem[k := v])) else Fault(MemRange)
  }

  function Branch(i: Insn, taken: bool, r: Regs): Act {
    Next(if taken then i.jt else i.jf, r)
  }

  function SetA(r: Regs, v: int): Act {
    Next(0, r.(a := v % W32))
  }

  function CallCop(env: Env, r: Regs, f: u32): Act {
    match env.nfuncs
    case None => Fault(NoCoprocessor)
    case Some(n) =>
      if f < n then
        var c := env.cop(f, r.a, r.mem);
        Next(0, r.(a := c.a, mem := r.mem + c.writes))
      else Return(0)
  }

  /** The operand chosen by the BPF_SRC bit. */
  function Operand(i: Insn, r: Regs): u32 {
    if i.code % 16 >= 8 then r.x else i.k
  }

  /** BPF_ALU operations by the high half of the opcode; division has a non-zero divisor. */
  function Alu(env: Env, op: int, a: u32, v: u32): int
    requires (op == 0x30 || op == 0x90) ==> v != 0
  {
    match op
    case 0x00 => a + v
    case 0x10 => a - v
    case 0x20 => a * v
    case 0x30 => a / v
    case 0x90 => a % v
    case 0x50 => And(a, v)
    case 0x40 => Or32(a, v)
    case 0xa0 => Xor32(a, v)
    case 0x60 => Shl(env, a, v)
    case 0x70 => Shr(env, a, v)
    case _ => 0
  }

  function ExecAlu(env: Env, i: Insn, r: Regs): Act {
    var op := i.code - i.code % 16;
    if i.code == 0x84 then SetA(r, 0 - r.a)
    else if op == 0x80 || op > 0xa0 then Undecoded
    else if (op == 0x30 || op == 0x90) && Operand(i, r) == 0 then
      if i.code % 16 >= 8 then Return(0) else Fault(DivideByZero)
    else SetA(r, Alu(env, op, r.a, Operand(i, r)))
  }

  function ExecCondJump(i: Insn, r: Regs): Act {
    var v := Operand(i, r);
    match i.code - i.code % 16
    case 0x10 => Branch(i, r.a == v, r)
    case 0x20 => Branch(i, r.a > v, r)
    case 0x30 => Branch(i, r.a >= v, r)
    case 0x40 => Branch(i, And(r.a, v) != 0, r)
    case _ => Undecoded
  }

  /** One iteration of the interpreter's switch. */
  function Exec(env: Env, i: Insn, r: Regs): Act {
    match i.code
    // BPF_RET
    case 0x06 => Return(i.k)
    case 0x16 => Return(r.a)
    // BPF_LD and BPF_LDX
    case 0x20 => LoadA(LoadWord(env.pkt, i.k), r)
    case 0x28 => LoadA(LoadHalf(env.pkt, i.k), r)
    case 0x30 => LoadA(LoadByte(env.pkt, i.k), r)
    case 0x80 => Next(0, r.(a := env.wirelen))
    case 0x81 => Next(0, r.(x := env.wirelen))
    case 0x40 => LoadA(if Indexed(r, i) < W32 then LoadWord(env.pkt, Indexed(r, i)) else None, r)
    case 0x48 => LoadA(if Indexed(r, i) < W32 then LoadHalf(env.pkt, Indexed(r, i)) else None, r)
    case 0x50 => LoadA(if Indexed(r, i) < W32 then LoadByte(env.pkt, Indexed(r, i)) else None, r)
    case 0xb1 =>
      if i.k < |env.pkt| then Next(0, r.(x := (env.pkt[i.k] % 16) * 4)) else Return(0)
    case 0x00 => Next(0, r.(a := i.k))
    case 0x01 => Next(0, r.(x := i.k))
    case 0x60 =>
      var v := ReadMem(env, r, i.k);
      if v.Some? then Next(0, r.(a := v.value)) else MemFault(env, i.k)
    case 0x61 =>
      var v := ReadMem(env, r, i.k);
      if v.Some? then Next(0, r.(x := v.value)) else MemFault(env, i.k)
    // BPF_ST and BPF_STX
    case 0x02 => Store(env, r, i.k, r.a)
    case 0x03 => Store(env, r, i.k, r.x)
    // BPF_JMP
    case 0x05 => Next(i.k, r)
    // BPF_MISC
    case 0x07 => Next(0, r.(x := r.a))
    case 0x87 => Next(0, r.(a := r.x))
    case 0x27 => CallCop(env, r, i.k)
    case 0x47 => CallCop(env, r, r.x)
    case _ =>
      if i.code < 0x100 && i.code % 8 == 4 then ExecAlu(env, i, r)
      else if i.code < 0x100 && i.code % 8 == 5 then ExecCondJump(i, r)
      else Undecoded
  }

  /** The run from `pc`; offsets are unsigned, so the program counter only grows. */
  function Run(env: Env, p: seq<Insn>, pc: nat, r: Regs): Outcome
    decreases |p| - pc
  {
    if pc >= |p| then Crash(PcOutside)
    else
      match Exec(env, p[pc], r)
      case Next(off, r') => Run(env, p, pc + 1 + off, r')
      case Return(v) => Value(v)
      case Undecoded => Abort
      case Fault(why) => Crash(why)
  }

  /** bpf_filter_ext: no program accepts everything, otherwise run from the start with A and X clear. */
  function FilterOutcome(env: Env, p: seq<Insn>, mem: map<nat, u32>): Outcome {
    if p == [] then Value(MAX32) else Run(env, p, 0, Regs(0, 0, mem))
  }

  /** The interpreter loop. */
  method Filter(env: Env, p: seq<Insn>, mem: map<nat, u32>) returns (o: Outcome)
    ensures o == FilterOutcome(env, p, mem)
  {
    if p == [] {
      return Value(MAX32);
    }
    var pc, r := 0, Regs(0, 0, mem);
    while pc < |p|
      invariant Run(env, p, pc, r) == FilterOutcome(env, p, mem)
      decreases |p| - pc
    {
      match Exec(env, p[pc], r)
      case Next(off, r') => pc, r := pc + 1 + off, r';
      case Return(v) => return Value(v);
      case Undecoded => return Abort;
      case Fault(why) => return Crash(why);
    }
    return Crash(PcOutside);
  }
}
