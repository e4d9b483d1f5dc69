/** The x86-64 compiler: bytes emitted for each instruction, the compiler object and its
    branch fix-ups. */
module Jit {
  import opened Words
  import opened BpfIsa
  import opened X86

  const MAX_JIT_SIZE: nat := 65536
  const PROLOGUE_SIZE: nat := 18
  const FRAME_SIZE: nat := 512
  const SCRATCH: Gpr := 11

  /** Host register that holds an eBPF register. */
  function HostReg(r: nat): Gpr
  {
    if r == 0 then RAX else if r == 1 then RDI else if r == 2 then RSI else if r == 3 then RDX
    else if r == 4 then RCX else if r == 5 then 8 else if r == 6 then RBX else if r == 7 then R13
    else if r == 8 then R14 else if r == 9 then R15 else if r == 10 then RBP else RAX
  }

  // ----- encodings -----

  const REX_W: u8 := 0x48

  function RexRR(reg: Gpr, rm: Gpr): u8 { REX_W + (if reg >= 8 then 4 else 0) + (if rm >= 8 then 1 else 0) }

  function ModRM(mode: nat, reg: nat, rm: nat): u8
    requires mode < 4
  { mode * 64 + reg % 8 * 8 + rm % 8 }

  function Imm4(imm: i32): (b: seq<u8>)
    ensures |b| == 4
  { Le32(U32(imm)) }

  function PrefixRR(is64: bool, reg: Gpr, rm: Gpr): (b: seq<u8>)
    ensures |b| == if is64 then 1 else 0
  { if is64 then [RexRR(reg, rm)] else [] }
  function PrefixW(is64: bool): (b: seq<u8>)
    ensures |b| == if is64 then 1 else 0
  { if is64 then [REX_W] else [] }

  function AluRR(opcode: u8, dst: Gpr, src: Gpr, is64: bool): (b: seq<u8>)
    ensures |b| == if is64 then 3 else 2
  { PrefixRR(is64, src, dst) + [opcode, ModRM(3, src, dst)] }

  function AluRI(ext: nat, dst: Gpr, imm: i32, is64: bool): (b: seq<u8>)
    ensures |b| == if is64 then 7 else 6
  { PrefixW(is64) + [0x81, ModRM(3, ext, dst)] + Imm4(imm) }

  function MovRR(dst: Gpr, src: Gpr, is64: bool): (b: seq<u8>)
    ensures |b| == if is64 then 3 else 2
  { AluRR(0x89, dst, src, is64) }

  function MovRI(dst: Gpr, imm: i32, is64: bool): (b: seq<u8>)
    ensures |b| == if is64 then 7 else 5
  { if is64 then [REX_W, 0xC7, ModRM(3, 0, dst)] + Imm4(imm) else [0xB8 + dst % 8] + Imm4(imm) }

  function MovImm64(dst: Gpr, v: u64): (b: seq<u8>)
    ensures |b| == 10
  { [REX_W + (if dst >= 8 then 1 else 0), 0xB8 + dst % 8] + Le64(v) }

  function UnaryF7(ext: nat, dst: Gpr, is64: bool): (b: seq<u8>)
    ensures |b| == if is64 then 3 else 2
  { PrefixW(is64) + [0xF7, ModRM(3, ext, dst)] }

  function ShiftBytes(ext: nat, srcMode: bool, dst: Gpr, src: Gpr, imm: i32, is64: bool): (b: seq<u8>)
    ensures |b| <= 8
  {
    if srcMode then
      [0x51] + MovRR(RCX, src, is64) + (PrefixW(is64) + [0xD3, ModRM(3, ext, dst)]) + [0x59]
    else PrefixW(is64) + [0xC1, ModRM(3, ext, dst), U32(imm) % 256]
  }

  function MulBytes(srcMode: bool, dst: Gpr, src: Gpr, imm: i32, is64: bool): (b: seq<u8>)
    ensures |b| <= 7
  {
    if srcMode then PrefixRR(is64, dst, src) + [0x0F, 0xAF, ModRM(3, dst, src)]
    else PrefixRR(is64, dst, dst) + [0x69, ModRM(3, dst, dst)] + Imm4(imm)
  }

  function DivBytes(isDiv: bool, srcMode: bool, dst: Gpr, src: Gpr, imm: i32, is64: bool): (b: seq<u8>)
    ensures |b| <= 23
  {
    [0x52] + [0x50] + MovRR(RAX, dst, is64) + (PrefixW(is64) + [0x31, ModRM(3, RDX, RDX)])
    + (if srcMode then UnaryF7(6, src, is64) else MovRI(SCRATCH, imm, is64) + UnaryF7(6, SCRATCH, is64))
    + MovRR(dst, if isDiv then RAX else RDX, is64) + [0x58] + [0x5A]
  }

  function AluBytes(op: nat, srcMode: bool, dst: Gpr, src: Gpr, imm: i32, is64: bool): (b: seq<u8>)
    ensures |b| <= 23
  {
    if op == ADD then (if srcMode then AluRR(0x01, dst, src, is64) else AluRI(0, dst, imm, is64))
    else if op == SUB then (if srcMode then AluRR(0x29, dst, src, is64) else AluRI(5, dst, imm, is64))
    else if op == OR then (if srcMode then AluRR(0x09, dst, src, is64) else AluRI(1, dst, imm, is64))
    else if op == AND then (if srcMode then AluRR(0x21, dst, src, is64) else AluRI(4, dst, imm, is64))
    else if op == XOR then (if srcMode then AluRR(0x31, dst, src, is64) else AluRI(6, dst, imm, is64))
    else if op == MOV then (if srcMode then MovRR(dst, src, is64) else MovRI(dst, imm, is64))
    else if op == NEG then UnaryF7(3, dst, is64)
    else if op == LSH then ShiftBytes(4, srcMode, dst, src, imm, is64)
    else if op == RSH then ShiftBytes(5, srcMode, dst, src, imm, is64)
    else if op == ARSH then ShiftBytes(7, srcMode, dst, src, imm, is64)
    else if op == MUL then MulBytes(srcMode, dst, src, imm, is64)
    else if op == DIV || op == MOD then DivBytes(op == DIV, srcMode, dst, src, imm, is64)
    else []
  }

  function PushBytes(r: Gpr): (b: seq<u8>)
    ensures |b| == if r >= 8 then 2 else 1
  { (if r >= 8 then [0x41] else []) + [0x50 + r % 8] }
  function PopBytes(r: Gpr): (b: seq<u8>)
    ensures |b| == if r >= 8 then 2 else 1
  { (if r >= 8 then [0x41] else []) + [0x58 + r % 8] }

  function Prologue(): (b: seq<u8>)
    ensures |b| == PROLOGUE_SIZE
  {
    [0x55] + [REX_W, 0x89, ModRM(3, RSP, RBP)] + [0x53] + PushBytes(R13) + PushBytes(R14) + PushBytes(R15)
    + AluRI(5, RSP, FRAME_SIZE, true)
  }

  function Epilogue(): (b: seq<u8>)
    ensures |b| == 16
  {
    AluRI(0, RSP, FRAME_SIZE, true) + PopBytes(R15) + PopBytes(R14) + PopBytes(R13) + [0x5B] + [0x5D] + [0xC3]
  }

  predicate CondOp(op: nat) { op in {JEQ, JNE, JGT, JGE, JLT, JLE, JSGT, JSGE, JSET} }

  function CondCode(op: nat): u8
  {
    if op == JEQ then 0x84 else if op == JNE then 0x85 else if op == JGT then 0x87 else if op == JGE then 0x83
    else if op == JLT then 0x82 else if op == JLE then 0x86 else if op == JSGT then 0x8F else if op == JSGE then 0x8D
    else 0x85
  }

  function CompareBytes(op: nat, srcMode: bool, dst: Gpr, src: Gpr, imm: i32, is64: bool): (b: seq<u8>)
    ensures |b| <= 14
  {
    (if srcMode then AluRR(0x39, dst, src, is64) else AluRI(7, dst, imm, is64))
    + (if op != JSET then []
       else if srcMode then PrefixRR(is64, dst, src) + [0x85, ModRM(3, src, dst)]
       else UnaryF7(0, dst, is64) + Imm4(imm))
  }

  /** Bytes of a jump up to its rel32 field; HelperAddress stands for the helper table. */
  function JumpHead(op: nat, srcMode: bool, dst: Gpr, src: Gpr, imm: i32, is64: bool): (b: seq<u8>)
    ensures |b| <= 16
  {
    if op == JA then [0xE9] else CompareBytes(op, srcMode, dst, src, imm, is64) + [0x0F, CondCode(op)]
  }

  type HelperTable = u32 -> u64

  function JmpBytes(op: nat, srcMode: bool, dst: Gpr, src: Gpr, imm: i32, is64: bool, table: HelperTable): (b: seq<u8>)
    ensures |b| <= 20
  {
    if op == JA || CondOp(op) then JumpHead(op, srcMode, dst, src, imm, is64) + [0, 0, 0, 0]
    else if op == EXIT then Epilogue()
    else if op == CALL then MovImm64(RAX, table(U32(imm))) + [0xFF, 0xD0]
    else []
  }

  function MemDisp(reg: nat, base: Gpr, off: i16): (b: seq<u8>)
    ensures |b| <= 5
  {
    if off == 0 && base % 8 != 5 then [ModRM(0, reg, base)]
    else if -128 <= off <= 127 then [ModRM(1, reg, base), off % 256]
    else [ModRM(2, reg, base)] + Imm4(off)
  }

  function LdxBytes(size: nat, dst: Gpr, src: Gpr, off: i16): (b: seq<u8>)
    ensures |b| <= 7
  {
    if size == DW then [RexRR(dst, src), 0x8B] + MemDisp(dst, src, off)
    else if size == W then [0x8B] + MemDisp(dst, src, off)
    else if size == H then [0x0F, 0xB7] + MemDisp(dst, src, off)
    else [0x0F, 0xB6] + MemDisp(dst, src, off)
  }

  function StBytes(size: nat, dst: Gpr, off: i16, imm: i32): (b: seq<u8>)
    ensures |b| <= 11
  {
    if size == DW then [REX_W, 0xC7] + MemDisp(0, dst, off) + Imm4(imm)
    else if size == W then [0xC7] + MemDisp(0, dst, off) + Imm4(imm)
    else if size == H then [0x66, 0xC7] + MemDisp(0, dst, off) + Le(U32(imm), 2)
    else [0xC6] + MemDisp(0, dst, off) + Le(U32(imm), 1)
  }

  function StxBytes(size: nat, dst: Gpr, src: Gpr, off: i16): (b: seq<u8>)
    ensures |b| <= 7
  {
    if size == DW then [RexRR(src, dst), 0x89] + MemDisp(src, dst, off)
    else if size == W then [0x89] + MemDisp(src, dst, off)
    else if size == H then [0x66, 0x89] + MemDisp(src, dst, off)
    else [0x88] + MemDisp(src, dst, off)
  }

  /** Bytes emitted for one slot, with a zero rel32 field where it ends in a jump. */
  function Emit(insn: Insn, table: HelperTable): (b: seq<u8>)
    ensures |b| <= 23
    ensures HasFixup(insn) ==> |b| >= 5 && b[|b| - 4..] == [0, 0, 0, 0]
  {
    var c := insn.Class();
    var dst, src := HostReg(insn.Dst()), HostReg(insn.Src());
    if c == ALU64 || c == ALU then AluBytes(insn.Op(), insn.SrcIsReg(), dst, src, insn.imm, c == ALU64)
    else if c == JMP || c == JMP32 then JmpBytes(insn.Op(), insn.SrcIsReg(), dst, src, insn.imm, c == JMP, table)
    else if c == LDX then LdxBytes(insn.MemSize(), dst, src, insn.off)
    else if c == ST then StBytes(insn.MemSize(), dst, insn.off, insn.imm)
    else if c == STX then StxBytes(insn.MemSize(), dst, src, insn.off)
    else if insn.opcode == 0x18 then MovImm64(dst, U32(insn.imm))
    else []
  }

  /** The slot ends in a rel32 field to be fixed up. */
  predicate HasFixup(insn: Insn)
  {
    (insn.Class() == JMP || insn.Class() == JMP32) && (insn.Op() == JA || CondOp(insn.Op()))
  }

}
