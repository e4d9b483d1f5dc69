/** One eBPF instruction against the machine code emitted for it. */
module JitSim {
  import opened Words
  import opened BpfIsa
  import opened BpfVm
  import opened Jit
  import opened JitDecode
  import X86
  import opened X86Names = X86

  // ----- the forms whose emitted code matches the interpreter -----

  /** Registers whose host register is one of the low eight. */
  predicate Low(r: nat) { r <= 4 || r == 6 }

  predicate Usable(r: nat) { r < 10 }

  predicate FaithfulAlu(insn: Insn)
  {
    var op, d, s, x, wide := insn.Op(), insn.Dst(), insn.Src(), insn.SrcIsReg(), insn.Class() == ALU64;
    && Usable(d) && (x ==> Usable(s))
    && (!wide ==> Low(d) && (x ==> Low(s)))
    && (|| (op in {ADD, SUB, OR, AND, XOR, MOV} && (x || Low(d)))
        || op == MUL
        || (op == NEG && Low(d))
        || (op in {LSH, RSH, ARSH} && Low(d) && (x ==> d != 4))
        || (op in {DIV, MOD} && d != 0 && d != 3 && if x then Low(s) && s != 0 && s != 3 else d == 6))
  }

  predicate FaithfulBranch(insn: Insn)
  {
    var op, d, s, x, wide := insn.Op(), insn.Dst(), insn.Src(), insn.SrcIsReg(), insn.Class() == JMP;
    && CondOp(op) && Usable(d) && (x ==> Usable(s))
    && (!wide ==> Low(d) && (x ==> Low(s)))
    && (x || Low(d))
    && (op == JSET && x ==> (Low(d) <==> Low(s)))
  }

  // ----- matching register files -----

  ghost predicate RegsMatch(regs: Regs, file: File)
  {
    forall r | 0 <= r < 10 :: file[HostReg(r)] == regs[r]
  }

  lemma HostRegInjective(a: nat, b: nat)
    requires a < 10 && b < 10 && HostReg(a) == HostReg(b)
    ensures a == b
  {
  }

  lemma MatchUpdate(regs: Regs, file: File, d: nat, v: u64)
    requires RegsMatch(regs, file) && d < 10
    ensures RegsMatch(regs[d := v], file[HostReg(d) := v])
  {
    forall r | 0 <= r < 10 ensures file[HostReg(d) := v][HostReg(r)] == regs[d := v][r] {
      if HostReg(r) == HostReg(d) { HostRegInjective(r, d); }
    }
  }

  /** The stack pointer is back where it was and nothing at or above it has changed. */
  ghost predicate KeepsStack(m: Machine, m': Machine)
  {
    && m'.regs[RSP] == m.regs[RSP]
    && forall a | a in m.mem && a >= m.regs[RSP] :: a in m'.mem && m'.mem[a] == m.mem[a]
  }

  // ----- running the code -----

  lemma OneStep(code: seq<u8>, m: Machine, i: Instr, n: nat, m': Machine)
    requires m.rip >= 0 && Decode(code, m.rip) == Good(i, n) && Exec(i, m.(rip := m.rip + n)) == Next(m')
    ensures X86.Run(code, m, 1) == Next(m')
  {
    hide Decode, DecodeBody, Exec;
    assert X86.Run(code, m', 0) == Next(m');
  }

  lemma Then(code: seq<u8>, m: Machine, a: nat, m1: Machine, b: nat, m2: Machine)
    requires X86.Run(code, m, a) == Next(m1) && X86.Run(code, m1, b) == Next(m2)
    ensures X86.Run(code, m, a + b) == Next(m2)
  {
    RunAdd(code, m, a, b);
  }

  // ----- values -----

  function AluValue(insn: Insn, a: u64, b: u64): Outcome<u64>
  {
    if insn.Class() == ALU64 then Alu64(insn, a, b) else Alu32(insn, U32(a), U32(b))
  }

  predicate SimpleOp(op: nat) { op in {ADD, SUB, OR, AND, XOR, MOV} }

  function HostOp(op: nat): Op
  {
    if op == ADD then Add else if op == SUB then Sub else if op == OR then Or
    else if op == AND then And else if op == XOR then Xor else Mov
  }

  lemma TruncOfWord(x: u64)
    ensures Trunc(true, x) == x
  {
  }

  lemma SimpleValue(insn: Insn, a: u64, b: u64)
    requires SimpleOp(insn.Op())
    ensures AluValue(insn, a, b) == Ok(Value(HostOp(insn.Op()), insn.Class() == ALU64, a, b))
  {
    hide And64, Or64, Xor64;
    var op := insn.Op();
    TruncOfWord(a);
    TruncOfWord(b);
    TruncOfWord(Or64(a, b));
    TruncOfWord(And64(a, b));
    TruncOfWord(Xor64(a, b));
    if op == ADD { } else if op == SUB { } else if op == OR { } else if op == AND { } else if op == XOR { } else { }
  }

  lemma MulValue(insn: Insn, a: u64, b: u64)
    requires insn.Op() == MUL
    ensures var w := insn.Class() == ALU64; AluValue(insn, a, b) == Ok(Trunc(w, Trunc(w, a) * Trunc(w, b)))
  {
    hide U64, U32;
    WrapOnce(a);
    WrapOnce(b);
  }

  lemma NegateWord(a: u64)
    ensures U64(-I64(a)) == Trunc(true, 0 - Trunc(true, a) as int)
    ensures U32(-I32(U32(a))) == Trunc(false, 0 - Trunc(false, a) as int)
  {
    hide U64, U32;
    WrapOnce(a);
    WrapOnce(-I64(a));
    WrapOnce(0 - a);
    WrapOnce(-I32(U32(a)));
    WrapOnce(0 - U32(a));
  }

  lemma NegValue(insn: Insn, a: u64, b: u64)
    requires insn.Op() == NEG
    ensures var w := insn.Class() == ALU64; AluValue(insn, a, b) == Ok(Trunc(w, 0 - Trunc(w, a) as int))
  {
    NegateWord(a);
  }

  function HostShift(op: nat): Shift { if op == LSH then Shl else if op == RSH then Shr else Sar }

  lemma SameCount(b: u64, count: u64)
    requires count % 64 == b % 64
    ensures count % 32 == U32(b) % 32
  {
    ModMod(count, 32, 2);
    ModMod(b, 32, 2);
    ModMod(b, 32, 0x800_0000);
  }

  lemma ShrWord(w: bool, a: u64, c: nat)
    requires c > 0
    ensures Trunc(w, Trunc(w, a) / c) == Quotient(Trunc(w, a), c)
  {
    DivBound(Trunc(w, a), c);
  }

  lemma ShiftValue(insn: Insn, a: u64, b: u64, count: u64)
    requires insn.Op() in {LSH, RSH, ARSH} && count % 64 == b % 64
    ensures AluValue(insn, a, b) == Ok(Shifted(HostShift(insn.Op()), insn.Class() == ALU64, a, count))
  {
    hide And64, Or64, Xor64;
    var w := insn.Class() == ALU64;
    SameCount(b, count);
    TruncOfWord(a);
    ShrWord(w, a, Pow2(count % Bits(w)));
    if insn.Op() == LSH { } else if insn.Op() == RSH { } else { }
  }

  // ----- straight-line forms on the host -----

  /** Running k instructions from m writes v to dst, moves past n bytes and leaves everything else as it was. */
  ghost predicate Writes(code: seq<u8>, m: Machine, k: nat, m': Machine, dst: Gpr, v: u64, n: nat)
  {
    && X86.Run(code, m, k) == Next(m')
    && m'.regs == m.regs[dst := v]
    && m'.rip == m.rip + n
    && KeepsStack(m, m')
  }

  lemma RunAluRR(code: seq<u8>, m: Machine, opcode: u8, dst: Gpr, src: Gpr, w: bool) returns (m': Machine)
    requires m.rip >= 0 && Here(code, m.rip, AluRR(opcode, dst, src, w))
    requires opcode in RR_OPCODES && RrOp(opcode) !in {Cmp, Test} && dst != RSP && (w || (dst < 8 && src < 8))
    ensures Writes(code, m, 1, m', dst, Value(RrOp(opcode), w, m.regs[dst], m.regs[src]), |AluRR(opcode, dst, src, w)|)
    ensures m'.mem == m.mem
  {
    hide Decode, DecodeBody, Value, Shifted;
    DecodeAluRR(code, m.rip, opcode, dst, src, w);
    var n := |AluRR(opcode, dst, src, w)|;
    m' := Arith(RrOp(opcode), w, dst, m.regs[src], m.(rip := m.rip + n));
    OneStep(code, m, Rr(RrOp(opcode), w, dst, src), n, m');
  }

  lemma RunAluRI(code: seq<u8>, m: Machine, ext: nat, dst: Gpr, imm: i32, w: bool) returns (m': Machine)
    requires m.rip >= 0 && Here(code, m.rip, AluRI(ext, dst, imm, w))
    requires ext in {0, 1, 4, 5, 6} && dst < 8 && dst != RSP
    ensures Writes(code, m, 1, m', dst, Value(ExtOp(ext), w, m.regs[dst], U64(imm)), |AluRI(ext, dst, imm, w)|)
  {
    hide Decode, DecodeBody, Value, Shifted;
    DecodeAluRI(code, m.rip, ext, dst, imm, w);
    var n := |AluRI(ext, dst, imm, w)|;
    m' := Arith(ExtOp(ext), w, dst, U64(imm), m.(rip := m.rip + n));
    OneStep(code, m, Ri(ExtOp(ext), w, dst, imm), n, m');
  }

  lemma MovImm32(a: u64, imm: i32)
    ensures Value(Mov, false, a, U64(imm)) == U32(imm)
  {
  }

  lemma RunMovRI(code: seq<u8>, m: Machine, dst: Gpr, imm: i32, w: bool) returns (m': Machine)
    requires m.rip >= 0 && Here(code, m.rip, MovRI(dst, imm, w)) && dst < 8 && dst != RSP
    ensures Writes(code, m, 1, m', dst, Value(Mov, w, m.regs[dst], U64(imm)), |MovRI(dst, imm, w)|)
    ensures m'.mem == m.mem
  {
    hide Decode, DecodeBody, Value;
    DecodeMovRI(code, m.rip, dst, imm, w);
    var n := |MovRI(dst, imm, w)|;
    if w {
      m' := Arith(Mov, w, dst, U64(imm), m.(rip := m.rip + n));
      OneStep(code, m, Ri(Mov, true, dst, imm), n, m');
    } else {
      m' := m.(regs := m.regs[dst := U32(imm)], rip := m.rip + n);
      OneStep(code, m, MovImm(dst, U32(imm)), n, m');
      assert Value(Mov, false, m.regs[dst], U64(imm)) == U32(imm) by { MovImm32(m.regs[dst], imm); }
    }
  }

  lemma MulIgnores(dst: Gpr, src: Gpr, imm: i32, w: bool)
    ensures MulBytes(true, dst, src, imm, w) == MulBytes(true, dst, src, 0, w)
    ensures MulBytes(false, dst, src, imm, w) == MulBytes(false, dst, 0, imm, w)
  {
  }

  lemma RunMulRR(code: seq<u8>, m: Machine, dst: Gpr, src: Gpr, imm: i32, w: bool) returns (m': Machine)
    requires m.rip >= 0 && Here(code, m.rip, MulBytes(true, dst, src, imm, w))
    requires dst != RSP && (w || (dst < 8 && src < 8))
    ensures Writes(code, m, 1, m', dst, Trunc(w, Trunc(w, m.regs[dst]) * Trunc(w, m.regs[src])), |MulBytes(true, dst, src, imm, w)|)
  {
    hide Decode, DecodeBody, Trunc, Here, MulBytes;
    var n := |MulBytes(true, dst, src, imm, w)|;
    MulIgnores(dst, src, imm, w);
    DecodeMulRR(code, m.rip, dst, src, w);
    m' := Put(m.(rip := m.rip + n), dst, Trunc(w, Trunc(w, m.regs[dst]) * Trunc(w, m.regs[src])));
    OneStep(code, m, ImulRr(w, dst, src), n, m');
  }

  lemma TruncOfImm(w: bool, imm: i32)
    ensures Trunc(w, imm) == Trunc(w, U64(imm))
  {
  }

  lemma RunMulRI(code: seq<u8>, m: Machine, dst: Gpr, src: Gpr, imm: i32, w: bool) returns (m': Machine)
    requires m.rip >= 0 && Here(code, m.rip, MulBytes(false, dst, src, imm, w))
    requires dst != RSP && (w || dst < 8)
    ensures Writes(code, m, 1, m', dst, Trunc(w, Trunc(w, m.regs[dst]) * Trunc(w, U64(imm))), |MulBytes(false, dst, src, imm, w)|)
  {
    hide Decode, DecodeBody, Trunc, Here, MulBytes;
    var n := |MulBytes(false, dst, src, imm, w)|;
    MulIgnores(dst, src, imm, w);
    DecodeMulRI(code, m.rip, dst, imm, w);
    TruncOfImm(w, imm);
    m' := Put(m.(rip := m.rip + n), dst, Trunc(w, Trunc(w, m.regs[dst]) * Trunc(w, imm)));
    OneStep(code, m, ImulRri(w, dst, dst, imm), n, m');
  }

  lemma RunNeg(code: seq<u8>, m: Machine, dst: Gpr, w: bool) returns (m': Machine)
    requires m.rip >= 0 && Here(code, m.rip, UnaryF7(3, dst, w)) && dst < 8 && dst != RSP
    ensures Writes(code, m, 1, m', dst, Trunc(w, 0 - Trunc(w, m.regs[dst]) as int), |UnaryF7(3, dst, w)|)
  {
    hide Decode, DecodeBody, Value, Shifted;
    DecodeUnary(code, m.rip, 3, dst, w);
    var n := |UnaryF7(3, dst, w)|;
    m' := Put(m.(rip := m.rip + n), dst, Trunc(w, 0 - Trunc(w, m.regs[dst]) as int));
    OneStep(code, m, Neg(w, dst), n, m');
  }

  lemma RunShiftImm(code: seq<u8>, m: Machine, ext: nat, dst: Gpr, src: Gpr, imm: i32, w: bool) returns (m': Machine)
    requires m.rip >= 0 && Here(code, m.rip, ShiftBytes(ext, false, dst, src, imm, w))
    requires ext in {4, 5, 7} && dst < 8 && dst != RSP
    ensures Writes(code, m, 1, m', dst, Shifted(ShiftKind(ext), w, m.regs[dst], U32(imm) % 256), |ShiftBytes(ext, false, dst, src, imm, w)|)
  {
    hide Decode, DecodeBody, Value, Shifted;
    assert ShiftBytes(ext, false, dst, src, imm, w) == ShiftBytes(ext, false, dst, 0, imm, w);
    DecodeShiftImm(code, m.rip, ext, dst, imm, w);
    var n := |ShiftBytes(ext, false, dst, src, imm, w)|;
    m' := Put(m.(rip := m.rip + n), dst, Shifted(ShiftKind(ext), w, m.regs[dst], U32(imm) % 256));
    OneStep(code, m, ShiftImm(ShiftKind(ext), w, dst, U32(imm) % 256), n, m');
  }

  // ----- forms that borrow registers -----

  predicate StackRoom(m: Machine) { 4096 <= m.regs[RSP] < TWO64 - 4096 }

  lemma RunPush(code: seq<u8>, m: Machine, r: Gpr) returns (m': Machine)
    requires m.rip >= 0 && Here(code, m.rip, PushBytes(r)) && 8 <= m.regs[RSP]
    ensures X86.Run(code, m, 1) == Next(m')
    ensures m' == m.(regs := m.regs[RSP := m.regs[RSP] - 8], mem := m.mem[m.regs[RSP] - 8 := m.regs[r]], rip := m.rip + |PushBytes(r)|)
  {
    hide Decode, DecodeBody, Value, Shifted;
    DecodePush(code, m.rip, r);
    m' := m.(regs := m.regs[RSP := m.regs[RSP] - 8], mem := m.mem[m.regs[RSP] - 8 := m.regs[r]], rip := m.rip + |PushBytes(r)|);
    OneStep(code, m, Push(r), |PushBytes(r)|, m');
  }

  lemma RunPop(code: seq<u8>, m: Machine, r: Gpr) returns (m': Machine)
    requires m.rip >= 0 && Here(code, m.rip, PopBytes(r)) && m.regs[RSP] < TWO64 - 8 && m.regs[RSP] in m.mem
    ensures X86.Run(code, m, 1) == Next(m')
    ensures m' == m.(regs := m.regs[RSP := m.regs[RSP] + 8][r := m.mem[m.regs[RSP]]], rip := m.rip + |PopBytes(r)|)
  {
    hide Decode, DecodeBody, Value, Shifted;
    DecodePop(code, m.rip, r);
    m' := m.(regs := m.regs[RSP := m.regs[RSP] + 8][r := m.mem[m.regs[RSP]]], rip := m.rip + |PopBytes(r)|);
    OneStep(code, m, Pop(r), |PopBytes(r)|, m');
  }

  lemma RunShiftByCl(code: seq<u8>, m: Machine, ext: nat, dst: Gpr, w: bool) returns (m': Machine)
    requires m.rip >= 0 && Here(code, m.rip, PrefixW(w) + [0xD3, ModRM(3, ext, dst)])
    requires ext in {4, 5, 7} && dst < 8 && dst != RSP
    ensures X86.Run(code, m, 1) == Next(m')
    ensures m'.regs == m.regs[dst := Shifted(ShiftKind(ext), w, m.regs[dst], m.regs[RCX] % 256)]
    ensures m'.mem == m.mem && m'.rip == m.rip + if w then 3 else 2
  {
    hide Decode, DecodeBody, Shifted;
    DecodeShiftCl(code, m.rip, ext, dst, w);
    var n := if w then 3 else 2;
    m' := Put(m.(rip := m.rip + n), dst, Shifted(ShiftKind(ext), w, m.regs[dst], m.regs[RCX] % 256));
    OneStep(code, m, ShiftCl(ShiftKind(ext), w, dst), n, m');
  }

  lemma ShiftRegLayout(code: seq<u8>, p: nat, ext: nat, dst: Gpr, src: Gpr, imm: i32, w: bool)
    requires Here(code, p, ShiftBytes(ext, true, dst, src, imm, w))
    ensures var n := |AluRR(0x89, RCX, src, w)|; var k := if w then 3 else 2;
            && Here(code, p, PushBytes(RCX)) && |PushBytes(RCX)| == |PopBytes(RCX)| == 1
            && Here(code, p + 1, AluRR(0x89, RCX, src, w))
            && Here(code, p + 1 + n, PrefixW(w) + [0xD3, ModRM(3, ext, dst)])
            && Here(code, p + 1 + n + k, PopBytes(RCX))
            && |ShiftBytes(ext, true, dst, src, imm, w)| == n + k + 2
  {
    hide AluRR, ModRM;
    var mov, sh := MovRR(RCX, src, w), PrefixW(w) + [0xD3, ModRM(3, ext, dst)];
    HereSplit(code, p, [0x51] + mov + sh, [0x59]);
    HereSplit(code, p, [0x51] + mov, sh);
    HereSplit(code, p, [0x51], mov);
    assert PushBytes(RCX) == [0x51] && PopBytes(RCX) == [0x59];
  }

  lemma Chain4(code: seq<u8>, m: Machine, m1: Machine, m2: Machine, m3: Machine, m4: Machine)
    requires X86.Run(code, m, 1) == Next(m1) && X86.Run(code, m1, 1) == Next(m2)
    requires X86.Run(code, m2, 1) == Next(m3) && X86.Run(code, m3, 1) == Next(m4)
    ensures X86.Run(code, m, 4) == Next(m4)
  {
    hide X86.Run;
    Then(code, m, 1, m1, 1, m2);
    Then(code, m, 2, m2, 1, m3);
    Then(code, m, 3, m3, 1, m4);
  }

  lemma PopRestores(m: Machine, m3: Machine, dst: Gpr, v: u64, rcx: u64)
    requires StackRoom(m) && dst != RSP && dst != RCX
    requires m3.regs == m.regs[RSP := m.regs[RSP] - 8][RCX := rcx][dst := v]
    ensures m3.regs[RSP := m3.regs[RSP] + 8][RCX := m.regs[RCX]] == m.regs[dst := v]
  {
  }

  /** A register shift saves rcx, loads the count into it, shifts and restores it. */
  lemma RunShiftReg(code: seq<u8>, m: Machine, ext: nat, dst: Gpr, src: Gpr, imm: i32, w: bool) returns (m': Machine)
    requires m.rip >= 0 && Here(code, m.rip, ShiftBytes(ext, true, dst, src, imm, w)) && StackRoom(m)
    requires ext in {4, 5, 7} && dst < 8 && dst != RSP && dst != RCX && src != RSP && (w || src < 8)
    ensures Writes(code, m, 4, m', dst, Shifted(ShiftKind(ext), w, m.regs[dst], Value(Mov, w, m.regs[RCX], m.regs[src]) % 256),
                   |ShiftBytes(ext, true, dst, src, imm, w)|)
  {
    hide Shifted, Value, AluRR, MovRR, ModRM, Here, X86.Run, PushBytes, PopBytes, ShiftBytes, PrefixW, ShiftKind;
    ShiftRegLayout(code, m.rip, ext, dst, src, imm, w);
    var m1 := RunPush(code, m, RCX);
    var m2 := RunAluRR(code, m1, 0x89, RCX, src, w);
    var count := Value(Mov, w, m.regs[RCX], m.regs[src]);
    assert m2.regs == m1.regs[RCX := count];
    var m3 := RunShiftByCl(code, m2, ext, dst, w);
    m' := RunPop(code, m3, RCX);
    Chain4(code, m, m1, m2, m3, m');
    PopRestores(m, m3, dst, Shifted(ShiftKind(ext), w, m.regs[dst], count % 256), count);
  }

  // ----- division -----

  lemma TruncTwice(w: bool, a: u64)
    ensures Trunc(w, Trunc(w, a)) == Trunc(w, a) && Trunc(w, 0) == 0
    ensures forall v: u64 {:trigger Trunc(w, v)} | v <= Trunc(w, a) :: Trunc(w, v) == v
  {
  }

  lemma DivStepValue(w: bool, src: Gpr, m: Machine, a: u64, d: u64)
    requires m.regs[RDX] == 0 && m.regs[RAX] == Trunc(w, a) && d == Trunc(w, m.regs[src]) && d != 0
    ensures DivStep(w, src, m)
            == Next(m.(regs := m.regs[RAX := Quotient(Trunc(w, a), d)][RDX := Remainder(Trunc(w, a), d)], flags := Undefined))
  {
    hide Trunc, Pow2;
    TruncTwice(w, a);
    var n := Trunc(w, a);
    assert Trunc(w, m.regs[RDX]) * Pow2(Bits(w)) + Trunc(w, m.regs[RAX]) == n;
    DivBound(n, d);
  }

  lemma XorSelfValue(w: bool, a: u64)
    ensures Value(Xor, w, a, a) == 0
  {
    hide Xor64;
    XorSelf(Trunc(w, a));
  }

  /** Registers while a division is under way: rdx and rax are saved below the stack pointer. */
  ghost predicate DivFrame(m: Machine, m4: Machine, q: u64, r: u64)
  {
    && StackRoom(m)
    && m4.regs[RSP] == m.regs[RSP] - 16
    && m4.regs[RAX] == q && m4.regs[RDX] == r
    && (forall g | 0 <= g < 16 && g != RSP && g != RAX && g != RDX :: m4.regs[g] == m.regs[g])
    && m4.mem == m.mem[m.regs[RSP] - 8 := m.regs[RDX]][m.regs[RSP] - 16 := m.regs[RAX]]
  }

  function DivHead(dst: Gpr, w: bool): (b: seq<u8>)
    ensures |b| == if w then 8 else 6
  {
    [0x52] + [0x50] + MovRR(RAX, dst, w) + (PrefixW(w) + [0x31, ModRM(3, RDX, RDX)])
  }

  function DivTail(isDiv: bool, dst: Gpr, w: bool): (b: seq<u8>)
    ensures |b| == if w then 5 else 4
  {
    MovRR(dst, if isDiv then RAX else RDX, w) + [0x58] + [0x5A]
  }

  lemma DivLayout(code: seq<u8>, p: nat, isDiv: bool, x: bool, dst: Gpr, src: Gpr, imm: i32, w: bool)
    requires Here(code, p, DivBytes(isDiv, x, dst, src, imm, w))
    ensures var mid := if x then UnaryF7(6, src, w) else MovRI(SCRATCH, imm, w) + UnaryF7(6, SCRATCH, w);
            && |DivBytes(isDiv, x, dst, src, imm, w)| == |DivHead(dst, w)| + |mid| + |DivTail(isDiv, dst, w)|
            && Here(code, p, DivHead(dst, w))
            && Here(code, p + |DivHead(dst, w)|, mid)
            && Here(code, p + |DivHead(dst, w)| + |mid|, DivTail(isDiv, dst, w))
  {
    hide MovRR, ModRM, UnaryF7, MovRI, PrefixW;
    var mid := if x then UnaryF7(6, src, w) else MovRI(SCRATCH, imm, w) + UnaryF7(6, SCRATCH, w);
    var b := DivBytes(isDiv, x, dst, src, imm, w);
    assert b == DivHead(dst, w) + mid + DivTail(isDiv, dst, w);
    HereSplit(code, p, DivHead(dst, w) + mid, DivTail(isDiv, dst, w));
    HereSplit(code, p, DivHead(dst, w), mid);
  }

  lemma RunXorRdx(code: seq<u8>, m: Machine, w: bool) returns (m': Machine)
    requires m.rip >= 0 && Here(code, m.rip, PrefixW(w) + [0x31, ModRM(3, RDX, RDX)])
    ensures X86.Run(code, m, 1) == Next(m')
    ensures m'.regs == m.regs[RDX := 0] && m'.mem == m.mem && m'.rip == m.rip + if w then 3 else 2
  {
    hide Decode, DecodeBody, Value;
    DecodeXorRdx(code, m.rip, w);
    XorSelfValue(w, m.regs[RDX]);
    var n := if w then 3 else 2;
    m' := Arith(Xor, w, RDX, m.regs[RDX], m.(rip := m.rip + n));
    OneStep(code, m, Rr(Xor, w, RDX, RDX), n, m');
  }

  lemma DivHeadLayout(code: seq<u8>, p: nat, dst: Gpr, w: bool)
    requires Here(code, p, DivHead(dst, w))
    ensures Here(code, p, PushBytes(RDX)) && Here(code, p + 1, PushBytes(RAX)) && Here(code, p + 2, AluRR(0x89, RAX, dst, w))
    ensures |PushBytes(RDX)| == |PushBytes(RAX)| == 1
    ensures Here(code, p + 2 + |AluRR(0x89, RAX, dst, w)|, PrefixW(w) + [0x31, ModRM(3, RDX, RDX)])
  {
    hide AluRR, ModRM, PrefixW;
    var mov, xor := MovRR(RAX, dst, w), PrefixW(w) + [0x31, ModRM(3, RDX, RDX)];
    HereSplit(code, p, [0x52] + [0x50] + mov, xor);
    HereSplit(code, p, [0x52] + [0x50], mov);
    HereSplit(code, p, [0x52], [0x50]);
    assert PushBytes(RDX) == [0x52] && PushBytes(RAX) == [0x50];
  }

  lemma RunDivHead(code: seq<u8>, m: Machine, dst: Gpr, w: bool) returns (m4: Machine)
    requires m.rip >= 0 && Here(code, m.rip, DivHead(dst, w)) && StackRoom(m)
    requires dst != RSP && (w || dst < 8)
    ensures X86.Run(code, m, 4) == Next(m4) && m4.rip == m.rip + |DivHead(dst, w)|
    ensures DivFrame(m, m4, Value(Mov, w, m.regs[RAX], m.regs[dst]), 0)
  {
    hide Here, X86.Run, AluRR, PushBytes, PrefixW, ModRM, Value, DivHead;
    DivHeadLayout(code, m.rip, dst, w);
    var m1 := RunPush(code, m, RDX);
    var m2 := RunPush(code, m1, RAX);
    var m3 := RunAluRR(code, m2, 0x89, RAX, dst, w);
    m4 := RunXorRdx(code, m3, w);
    Chain4(code, m, m1, m2, m3, m4);
  }

  lemma DivTailLayout(code: seq<u8>, p: nat, isDiv: bool, dst: Gpr, w: bool)
    requires Here(code, p, DivTail(isDiv, dst, w))
    ensures var src := if isDiv then RAX else RDX; var n := |AluRR(0x89, dst, src, w)|;
            && Here(code, p, AluRR(0x89, dst, src, w))
            && Here(code, p + n, PopBytes(RAX)) && Here(code, p + n + 1, PopBytes(RDX))
            && |PopBytes(RAX)| == |PopBytes(RDX)| == 1 && n + 2 == |DivTail(isDiv, dst, w)|
  {
    hide AluRR;
    var mov := MovRR(dst, if isDiv then RAX else RDX, w);
    HereSplit(code, p, mov + [0x58], [0x5A]);
    HereSplit(code, p, mov, [0x58]);
    assert PopBytes(RAX) == [0x58] && PopBytes(RDX) == [0x5A];
  }

  lemma RunDivTail(code: seq<u8>, m: Machine, m5: Machine, q: u64, r: u64, isDiv: bool, dst: Gpr, w: bool) returns (m': Machine)
    requires m5.rip >= 0 && Here(code, m5.rip, DivTail(isDiv, dst, w)) && DivFrame(m, m5.(regs := m5.regs[dst := m.regs[dst]]), q, r)
    requires dst != RSP && dst != RAX && dst != RDX && (w || dst < 8)
    ensures X86.Run(code, m5, 3) == Next(m') && m'.rip == m5.rip + |DivTail(isDiv, dst, w)|
    ensures m'.regs == m.regs[dst := Value(Mov, w, m5.regs[dst], if isDiv then q else r)]
    ensures KeepsStack(m, m')
  {
    hide Here, X86.Run, AluRR, PopBytes, Value, DivTail;
    DivTailLayout(code, m5.rip, isDiv, dst, w);
    var m6 := RunAluRR(code, m5, 0x89, dst, if isDiv then RAX else RDX, w);
    var m7 := RunPop(code, m6, RAX);
    m' := RunPop(code, m7, RDX);
    Then(code, m5, 1, m6, 1, m7);
    Then(code, m5, 2, m7, 1, m');
  }
}
