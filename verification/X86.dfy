/** A decoder and an executor for the x86-64 instructions that the compiler emits: REX and
    ModR/M register forms (Intel SDM volume 2A, sections 2.1.3 and 2.2.1). Anything else is a fault. */
module X86 {
  import opened Words

  const RAX: nat := 0
  const RCX: nat := 1
  const RDX: nat := 2
  const RBX: nat := 3
  const RSP: nat := 4
  const RBP: nat := 5
  const RSI: nat := 6
  const RDI: nat := 7
  const R13: nat := 13
  const R14: nat := 14
  const R15: nat := 15

  datatype Op = Add | Or | And | Sub | Xor | Cmp | Mov | Test
  datatype Shift = Shl | Shr | Sar
  datatype Cond = E | Ne | A | Ae | Bl | Be | G | Ge

  type Gpr = r: int | 0 <= r < 16

  datatype Instr =
    | Rr(op: Op, w: bool, dst: Gpr, src: Gpr)
    | Ri(op: Op, w: bool, dst: Gpr, imm: i32)
    | ImulRr(w: bool, dst: Gpr, src: Gpr)
    | ImulRri(w: bool, dst: Gpr, src: Gpr, imm: i32)
    | Neg(w: bool, dst: Gpr)
    | Div(w: bool, src: Gpr)
    | ShiftImm(kind: Shift, w: bool, dst: Gpr, count: u8)
    | ShiftCl(kind: Shift, w: bool, dst: Gpr)
    | MovImm(dst: Gpr, val: u64)
    | Push(reg: Gpr)
    | Pop(reg: Gpr)
    | Jmp(rel: i32)
    | Jcc(cond: Cond, rel: i32)
    | Ret

  datatype Decoded = Bad | Good(instr: Instr, len: nat)

  // ----- decoding -----

  /** The byte at position p, or -1 past the end of the code. */
  function At(code: seq<u8>, p: nat): int { if p < |code| then code[p] else -1 }

  function Imm32(code: seq<u8>, p: nat): (r: i32)
  {
    if p + 4 <= |code| then
      FromLeBound(code[p..p + 4]);
      Pow256Values();
      I32(FromLe(code[p..p + 4]))
    else 0
  }

  function Imm64(code: seq<u8>, p: nat): (r: u64)
  {
    if p + 8 <= |code| then
      FromLeBound(code[p..p + 8]);
      Pow256Values();
      FromLe(code[p..p + 8])
    else 0
  }

  function RrOp(b: int): Op
  {
    if b == 0x01 then Add else if b == 0x09 then Or else if b == 0x21 then And else if b == 0x29 then Sub
    else if b == 0x31 then Xor else if b == 0x39 then Cmp else if b == 0x85 then Test else Mov
  }

  function ExtOp(ext: int): Op
  {
    if ext == 0 then Add else if ext == 1 then Or else if ext == 4 then And else if ext == 5 then Sub
    else if ext == 6 then Xor else Cmp
  }

  function ShiftKind(ext: int): Shift { if ext == 4 then Shl else if ext == 5 then Shr else Sar }

  /** The condition of the two-byte opcode 0F b. */
  function CondOf(b: int): Cond
  {
    if b == 0x84 then E else if b == 0x85 then Ne else if b == 0x87 then A else if b == 0x83 then Ae
    else if b == 0x82 then Bl else if b == 0x86 then Be else if b == 0x8F then G else Ge
  }

  /** The instruction at position p. */
  function Decode(code: seq<u8>, p: nat): Decoded
  {
    var b := At(code, p);
    if 0x40 <= b < 0x50 then DecodeBody(code, p + 1, b - 0x40, 1) else DecodeBody(code, p, 0, 0)
  }

  /** The instruction whose opcode is at p, after a REX prefix with low bits rex (0 if there is none). */
  function DecodeBody(code: seq<u8>, p: nat, rex: nat, n: nat): Decoded
    requires rex < 16
  {
    var w := rex / 8 == 1;
    var hiR, hiB := rex / 4 % 2 * 8, rex % 2 * 8;
    var op := At(code, p);
    if op < 0 || rex / 2 % 2 == 1 then Bad
    else if 0x50 <= op < 0x58 then Good(Push(hiB + op - 0x50), n + 1)
    else if 0x58 <= op < 0x60 then Good(Pop(hiB + op - 0x58), n + 1)
    else if op == 0xC3 then Good(Ret, n + 1)
    else if 0xB8 <= op < 0xC0 then
      if w then (if p + 9 <= |code| then Good(MovImm(hiB + op - 0xB8, Imm64(code, p + 1)), n + 9) else Bad)
      else if p + 5 <= |code| then Good(MovImm(hiB + op - 0xB8, U32(Imm32(code, p + 1))), n + 5) else Bad
    else if op == 0xE9 then
      if p + 5 <= |code| then Good(Jmp(Imm32(code, p + 1)), n + 5) else Bad
    else if op == 0x0F then DecodeTwoByte(code, p + 1, w, hiR, hiB, n + 1)
    else
      var modrm := At(code, p + 1);
      if modrm < 0xC0 then Bad else
      var ext := modrm / 8 % 8;
      var reg, rm := hiR + ext, hiB + modrm % 8;
      if op in {0x01, 0x09, 0x21, 0x29, 0x31, 0x39, 0x85, 0x89} then Good(Rr(RrOp(op), w, rm, reg), n + 2)
      else if op == 0xF7 && ext == 3 then Good(Neg(w, rm), n + 2)
      else if op == 0xF7 && ext == 6 then Good(Div(w, rm), n + 2)
      else if op == 0xD3 && ext in {4, 5, 7} then Good(ShiftCl(ShiftKind(ext), w, rm), n + 2)
      else if op == 0xC1 && ext in {4, 5, 7} && p + 3 <= |code| then Good(ShiftImm(ShiftKind(ext), w, rm, code[p + 2]), n + 3)
      else if p + 6 > |code| then Bad
      else if op == 0x81 && ext in {0, 1, 4, 5, 6, 7} then Good(Ri(ExtOp(ext), w, rm, Imm32(code, p + 2)), n + 6)
      else if op == 0xC7 && ext == 0 then Good(Ri(Mov, w, rm, Imm32(code, p + 2)), n + 6)
      else if op == 0xF7 && ext == 0 then Good(Ri(Test, w, rm, Imm32(code, p + 2)), n + 6)
      else if op == 0x69 then Good(ImulRri(w, reg, rm, Imm32(code, p + 2)), n + 6)
      else Bad
  }

  function DecodeTwoByte(code: seq<u8>, p: nat, w: bool, hiR: nat, hiB: nat, n: nat): Decoded
    requires hiR <= 8 && hiB <= 8
  {
    var op := At(code, p);
    var modrm := At(code, p + 1);
    if op == 0xAF && modrm >= 0xC0 then Good(ImulRr(w, hiR + modrm / 8 % 8, hiB + modrm % 8), n + 2)
    else if op in {0x82, 0x83, 0x84, 0x85, 0x86, 0x87, 0x8D, 0x8F} && p + 5 <= |code| then
      Good(Jcc(CondOf(op), Imm32(code, p + 1)), n + 5)
    else Bad
  }

  // ----- execution -----

  type File = r: seq<u64> | |r| == 16 witness seq(16, _ => 0)

  datatype Flags = Undefined | Flags(zf: bool, cf: bool, sf: bool, of: bool)

  /** Memory is word-granular: the modelled instructions only move whole words to and from the stack. */
  datatype Machine = Machine(regs: File, flags: Flags, mem: map<u64, u64>, rip: int)

  datatype Result = Next(m: Machine) | Returned(m: Machine) | Fault

  function Trunc(w: bool, x: int): u64 { if w then U64(x) else U32(x) }

  function Signed(w: bool, x: u64): int { if w then I64(x) else I32(U32(x)) }

  function Bits(w: bool): (n: nat)
    ensures n == 32 || n == 64
  { if w then 64 else 32 }

  predicate Negative(w: bool, x: u64) { Signed(w, x) < 0 }

  /** Result of a two-operand operation; a 32-bit result is zero-extended. */
  function Value(op: Op, w: bool, a: u64, b: u64): u64
  {
    var x, y := Trunc(w, a), Trunc(w, b);
    match op
    case Add => Trunc(w, x + y)
    case Or => Trunc(w, Or64(x, y))
    case And => Trunc(w, And64(x, y))
    case Test => Trunc(w, And64(x, y))
    case Xor => Trunc(w, Xor64(x, y))
    case Sub => Trunc(w, x - y)
    case Cmp => Trunc(w, x - y)
    case Mov => y
  }

  /** Flags after an operation; only the comparing and the testing operations are followed by a
      conditional jump, the others leave the flags undefined here. */
  function FlagsOf(op: Op, w: bool, a: u64, b: u64, before: Flags): Flags
  {
    var x, y, v := Trunc(w, a), Trunc(w, b), Value(op, w, a, b);
    match op
    case Cmp => Flags(v == 0, x < y, Negative(w, v), Negative(w, x) != Negative(w, y) && Negative(w, v) != Negative(w, x))
    case Test => Flags(v == 0, false, Negative(w, v), false)
    case Mov => before
    case _ => Undefined
  }

  predicate Holds(c: Cond, f: Flags)
    requires f.Flags?
  {
    match c
    case E => f.zf
    case Ne => !f.zf
    case A => !f.cf && !f.zf
    case Ae => !f.cf
    case Bl => f.cf
    case Be => f.cf || f.zf
    case G => !f.zf && f.sf == f.of
    case Ge => f.sf == f.of
  }

  function Shifted(k: Shift, w: bool, a: u64, count: u64): u64
  {
    var c := Pow2(count % Bits(w));
    match k
    case Shl => Trunc(w, Trunc(w, a) * c)
    case Shr => Trunc(w, Trunc(w, a) / c)
    case Sar => Trunc(w, Signed(w, a) / c)
  }

  function Arith(op: Op, w: bool, dst: Gpr, b: u64, m: Machine): Machine
  {
    var a := m.regs[dst];
    m.(regs := if op.Cmp? || op.Test? then m.regs else m.regs[dst := Value(op, w, a, b)],
       flags := FlagsOf(op, w, a, b, m.flags))
  }

  function Put(m: Machine, dst: Gpr, v: u64): Machine { m.(regs := m.regs[dst := v], flags := Undefined) }

  function DivStep(w: bool, src: Gpr, m: Machine): Result
  {
    var d := Trunc(w, m.regs[src]);
    var n := Trunc(w, m.regs[RDX]) * Pow2(Bits(w)) + Trunc(w, m.regs[RAX]);
    if d == 0 || n / d != Trunc(w, n / d) then Fault
    else Next(m.(regs := m.regs[RAX := Trunc(w, n / d)][RDX := Trunc(w, n % d)], flags := Undefined))
  }

  /** Effect of an instruction on a machine whose rip already points after it. */
  function Exec(i: Instr, m: Machine): Result
  {
    match i
    case Rr(op, w, dst, src) => Next(Arith(op, w, dst, m.regs[src], m))
    case Ri(op, w, dst, imm) => Next(Arith(op, w, dst, U64(imm), m))
    case ImulRr(w, dst, src) => Next(Put(m, dst, Trunc(w, Trunc(w, m.regs[dst]) * Trunc(w, m.regs[src]))))
    case ImulRri(w, dst, src, imm) => Next(Put(m, dst, Trunc(w, Trunc(w, m.regs[src]) * Trunc(w, imm))))
    case Neg(w, dst) => Next(Put(m, dst, Trunc(w, 0 - Trunc(w, m.regs[dst]) as int)))
    case Div(w, src) => DivStep(w, src, m)
    case ShiftImm(k, w, dst, count) => Next(Put(m, dst, Shifted(k, w, m.regs[dst], count)))
    case ShiftCl(k, w, dst) => Next(Put(m, dst, Shifted(k, w, m.regs[dst], m.regs[RCX] % 256)))
    case MovImm(dst, v) => Next(m.(regs := m.regs[dst := v]))
    case Push(r) =>
      var sp := U64(m.regs[RSP] as int - 8);
      Next(m.(regs := m.regs[RSP := sp], mem := m.mem[sp := m.regs[r]]))
    case Pop(r) =>
      var sp := m.regs[RSP];
      if sp !in m.mem then Fault else Next(m.(regs := m.regs[RSP := U64(sp as int + 8)][r := m.mem[sp]]))
    case Jmp(rel) => Next(m.(rip := m.rip + rel))
    case Jcc(c, rel) =>
      if m.flags.Undefined? then Fault else Next(if Holds(c, m.flags) then m.(rip := m.rip + rel) else m)
    case Ret =>
      var sp := m.regs[RSP];
      if sp !in m.mem then Fault else Returned(m.(regs := m.regs[RSP := U64(sp as int + 8)], rip := m.mem[sp]))
  }

  function Step(code: seq<u8>, m: Machine): Result
  {
    if m.rip < 0 then Fault
    else match Decode(code, m.rip)
      case Bad => Fault
      case Good(i, n) => Exec(i, m.(rip := m.rip + n))
  }

  /** At most n instructions, stopping at a return or a fault. */
  function Run(code: seq<u8>, m: Machine, n: nat): Result
    decreases n
  {
    if n == 0 then Next(m)
    else match Step(code, m)
      case Next(m') => Run(code, m', n - 1)
      case r => r
  }

  lemma {:induction false} RunAdd(code: seq<u8>, m: Machine, a: nat, b: nat)
    ensures Run(code, m, a + b) == match Run(code, m, a) case Next(m') => Run(code, m', b) case r => r
    decreases a
  {
    hide Step;
    if a > 0 {
      match Step(code, m)
      case Next(m') => RunAdd(code, m', a - 1, b);
      case _ =>
    }
  }
}
