/** eBPF instructions, their field accessors and the value-level meaning of each operation. */
module BpfIsa {
  import opened Words

  const REG_COUNT: nat := 11
  const REG_FP: nat := 10
  const STACK_SIZE: nat := 512
  const MAX_INSNS: nat := 4096
  const MAX_STEPS: nat := 1_000_000

  const LD: nat := 0
  const LDX: nat := 1
  const ST: nat := 2
  const STX: nat := 3
  const ALU: nat := 4
  const JMP: nat := 5
  const JMP32: nat := 6
  const ALU64: nat := 7

  const ADD: nat := 0x00
  const SUB: nat := 0x10
  const MUL: nat := 0x20
  const DIV: nat := 0x30
  const OR: nat := 0x40
  const AND: nat := 0x50
  const LSH: nat := 0x60
  const RSH: nat := 0x70
  const NEG: nat := 0x80
  const MOD: nat := 0x90
  const XOR: nat := 0xa0
  const MOV: nat := 0xb0
  const ARSH: nat := 0xc0
  const END: nat := 0xd0

  const JA: nat := 0x00
  const JEQ: nat := 0x10
  const JGT: nat := 0x20
  const JGE: nat := 0x30
  const JSET: nat := 0x40
  const JNE: nat := 0x50
  const JSGT: nat := 0x60
  const JSGE: nat := 0x70
  const CALL: nat := 0x80
  const EXIT: nat := 0x90
  const JLT: nat := 0xa0
  const JLE: nat := 0xb0
  const JSLT: nat := 0xc0
  const JSLE: nat := 0xd0

  const W: nat := 0x00
  const H: nat := 0x08
  const B: nat := 0x10
  const DW: nat := 0x18

  /** One 64-bit instruction slot. The masks and shifts of the accessors are written as
      remainders and quotients of the opcode and register bytes. */
  datatype Insn = Insn(opcode: u8, regs: u8, off: i16, imm: i32) {
    function Dst(): nat { regs % 16 }
    function Src(): nat { regs / 16 }
    function Class(): nat { opcode % 8 }
    function Op(): nat { opcode - opcode % 16 }
    predicate SrcIsReg() { opcode / 8 % 2 == 1 }
    function MemSize(): nat { opcode / 8 % 4 * 8 }
    predicate IsLddw() { Class() == LD && MemSize() == DW }
    predicate IsExit() { Class() == JMP && Op() == EXIT }
    predicate IsBranch() { (Class() == JMP || Class() == JMP32) && Op() != EXIT && Op() != CALL }
  }

  datatype Reason = Empty | NoExit | TargetOutOfRange(pc: nat, target: int) | BackwardBranch(pc: nat, off: int) | LddwTruncated(pc: nat)

  datatype BpfError =
    | DivisionByZero
    | InvalidRegister(reg: nat)
    | StackOutOfBounds(addr: u64, size: nat)
    | InvalidOpcode(opcode: u8)
    | ExceededStepLimit
    | VerificationFailed(reason: Reason)
    | UnknownHelper(id: u32)
    | ReadOnlyRegister
    | UnreachableInstruction(pc: nat)
    | ProgramTooLarge(len: nat)
    | InvalidJumpTarget

  /** A result of the source, or the panic that an out-of-range array index raises. */
  datatype Outcome<+T> = Ok(value: T) | Err(error: BpfError) | Panic(index: nat) {
    predicate IsFailure() { !Ok? }
    function PropagateFailure<U>(): Outcome<U>
      requires IsFailure()
    { if Err? then Err(error) else Panic(index) }
    function Extract(): T
      requires !IsFailure()
    { value }
  }

  function Reverse(b: seq<u8>): (r: seq<u8>)
    ensures |r| == |b|
  { if b == [] then [] else Reverse(b[1..]) + [b[0]] }

  /** `swap_bytes` on the low n bytes of x. */
  function SwapBytes(x: u64, n: nat): (r: nat)
    ensures r < Pow256(n)
  {
    FromLeBound(Reverse(Le(x, n)));
    FromLe(Reverse(Le(x, n)))
  }

  lemma DivBound(d: nat, s: nat)
    requires s > 0
    ensures 0 <= d / s <= d && 0 <= d % s <= d
  {
    var q, r := d / s, d % s;
    assert d == s * q + r;
    if q < 0 { MulMono(s, q, -1); }
    MulMono(s, 0, if q < 0 then 0 else q);
    assert s * q == q + (s - 1) * q;
    if s > 1 && q >= 0 { MulMono(s - 1, 0, q); }
  }

  function Quotient(d: nat, s: nat): (r: nat)
    requires s > 0
    ensures r <= d
  {
    DivBound(d, s);
    d / s
  }

  function Remainder(d: nat, s: nat): (r: nat)
    requires s > 0
    ensures r <= d && r < s
  {
    DivBound(d, s);
    d % s
  }

  /** Result of a 64-bit ALU operation on destination d and source s. */
  function Alu64(insn: Insn, d: u64, s: u64): Outcome<u64>
  {
    var op := insn.Op();
    if op == ADD then Ok(U64(d + s))
    else if op == SUB then Ok(U64(d - s))
    else if op == MUL then Ok(U64(d * s))
    else if op == DIV then (if s == 0 then Err(DivisionByZero) else Ok(Quotient(d, s)))
    else if op == MOD then (if s == 0 then Err(DivisionByZero) else Ok(Remainder(d, s)))
    else if op == OR then Ok(Or64(d, s))
    else if op == AND then Ok(And64(d, s))
    else if op == XOR then Ok(Xor64(d, s))
    else if op == LSH then Ok(U64(d * Pow2(s % 64)))
    else if op == RSH then Ok(Quotient(d, Pow2(s % 64)))
    else if op == ARSH then Ok(U64(I64(d) / Pow2(s % 64)))
    else if op == NEG then Ok(U64(-I64(d)))
    else if op == MOV then Ok(s)
    else if op == END then
      Pow256Values();
      if insn.imm == 16 then Ok(SwapBytes(d, 2))
      else if insn.imm == 32 then Ok(SwapBytes(d, 4))
      else if insn.imm == 64 then Ok(SwapBytes(d, 8))
      else Err(InvalidOpcode(insn.opcode))
    else Err(InvalidOpcode(insn.opcode))
  }

  /** Result of a 32-bit ALU operation; byte swaps are not part of this class. */
  function Alu32(insn: Insn, d: u32, s: u32): Outcome<u32>
  {
    var op := insn.Op();
    if op == ADD then Ok(U32(d + s))
    else if op == SUB then Ok(U32(d - s))
    else if op == MUL then Ok(U32(d * s))
    else if op == DIV then (if s == 0 then Err(DivisionByZero) else Ok(Quotient(d, s)))
    else if op == MOD then (if s == 0 then Err(DivisionByZero) else Ok(Remainder(d, s)))
    else if op == OR then Ok(U32(Or64(d, s)))
    else if op == AND then Ok(U32(And64(d, s)))
    else if op == XOR then Ok(U32(Xor64(d, s)))
    else if op == LSH then Ok(U32(d * Pow2(s % 32)))
    else if op == RSH then Ok(Quotient(d, Pow2(s % 32)))
    else if op == ARSH then Ok(U32(I32(d) / Pow2(s % 32)))
    else if op == NEG then Ok(U32(-I32(d)))
    else if op == MOV then Ok(s)
    else Err(InvalidOpcode(insn.opcode))
  }

  /** Whether a conditional branch is taken; sd and ss are the signed readings of d and s. */
  function Taken(insn: Insn, d: u64, s: u64, sd: int, ss: int): Outcome<bool>
  {
    var op := insn.Op();
    if op == JEQ then Ok(d == s)
    else if op == JNE then Ok(d != s)
    else if op == JGT then Ok(d > s)
    else if op == JGE then Ok(d >= s)
    else if op == JLT then Ok(d < s)
    else if op == JLE then Ok(d <= s)
    else if op == JSGT then Ok(sd > ss)
    else if op == JSGE then Ok(sd >= ss)
    else if op == JSLT then Ok(sd < ss)
    else if op == JSLE then Ok(sd <= ss)
    else if op == JSET then Ok(And64(d, s) != 0)
    else Err(InvalidOpcode(insn.opcode))
  }
}
