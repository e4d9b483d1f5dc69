/** Arithmetic instructions: the emitted code writes to the destination what the interpreter writes. */
module JitAlu {
  import opened Words
  import opened BpfIsa
  import opened BpfVm
  import opened Jit
  import opened JitDecode
  import opened JitSim
  import X86
  import opened X86Names = X86

  lemma MovValue(w: bool, a: u64, b: u64)
    ensures Value(Mov, w, a, b) == Trunc(w, b)
  {
  }

  // ----- division, completed -----

  lemma RunDivide(code: seq<u8>, m4: Machine, src: Gpr, w: bool, a: u64, d: u64) returns (m5: Machine)
    requires m4.rip >= 0 && Here(code, m4.rip, UnaryF7(6, src, w)) && src < 8
    requires m4.regs[RDX] == 0 && m4.regs[RAX] == Trunc(w, a) && d == Trunc(w, m4.regs[src]) && d != 0
    ensures X86.Run(code, m4, 1) == Next(m5) && m5.rip == m4.rip + |UnaryF7(6, src, w)| && m5.mem == m4.mem
    ensures m5.regs == m4.regs[RAX := Quotient(Trunc(w, a), d)][RDX := Remainder(Trunc(w, a), d)]
  {
    hide Decode, DecodeBody, Trunc, DivStep, Quotient, Remainder;
    DecodeUnary(code, m4.rip, 6, src, w);
    var n := |UnaryF7(6, src, w)|;
    var at := m4.(rip := m4.rip + n);
    DivStepValue(w, src, at, a, d);
    m5 := at.(regs := at.regs[RAX := Quotient(Trunc(w, a), d)][RDX := Remainder(Trunc(w, a), d)], flags := Undefined);
    OneStep(code, m4, Div(w, src), n, m5);
  }

  function DivResult(isDiv: bool, a: nat, d: nat): (v: nat)
    requires d > 0
    ensures v <= a
  { if isDiv then Quotient(a, d) else Remainder(a, d) }

  /** Division by a register other than rax and rdx, which the sequence itself uses. */
  lemma RunDivReg(code: seq<u8>, m: Machine, isDiv: bool, dst: Gpr, src: Gpr, imm: i32, w: bool) returns (m': Machine)
    requires m.rip >= 0 && Here(code, m.rip, DivBytes(isDiv, true, dst, src, imm, w)) && StackRoom(m)
    requires dst !in {RSP, RAX, RDX} && src !in {RSP, RAX, RDX} && src < 8 && (w || dst < 8) && Trunc(w, m.regs[src]) != 0
    ensures Writes(code, m, 8, m', dst, DivResult(isDiv, Trunc(w, m.regs[dst]), Trunc(w, m.regs[src])), |DivBytes(isDiv, true, dst, src, imm, w)|)
  {
    hide Here, X86.Run, DivBytes, DivHead, DivTail, UnaryF7, MovRI, Value, Trunc, Quotient, Remainder;
    var a, d := m.regs[dst], Trunc(w, m.regs[src]);
    DivLayout(code, m.rip, isDiv, true, dst, src, imm, w);
    MovValue(w, m.regs[RAX], a);
    var m4 := RunDivHead(code, m, dst, w);
    var m5 := RunDivide(code, m4, src, w, a, d);
    m' := RunDivTail(code, m, m5, Quotient(Trunc(w, a), d), Remainder(Trunc(w, a), d), isDiv, dst, w);
    MovValue(w, m5.regs[dst], DivResult(isDiv, Trunc(w, a), d));
    TruncTwice(w, a);
    Then(code, m, 4, m4, 1, m5);
    Then(code, m, 5, m5, 3, m');
  }

  lemma ScratchIsRbx(imm: i32, w: bool)
    ensures MovRI(SCRATCH, imm, w) == MovRI(RBX, imm, w) && UnaryF7(6, SCRATCH, w) == UnaryF7(6, RBX, w)
  {
  }

  /** Division by an immediate: the encodings meant for r11 name rbx, so only rbx may be the destination. */
  lemma RunDivImm(code: seq<u8>, m: Machine, isDiv: bool, src: Gpr, imm: i32, w: bool) returns (m': Machine)
    requires m.rip >= 0 && Here(code, m.rip, DivBytes(isDiv, false, RBX, src, imm, w)) && StackRoom(m) && Trunc(w, U64(imm)) != 0
    ensures Writes(code, m, 9, m', RBX, DivResult(isDiv, Trunc(w, m.regs[RBX]), Trunc(w, U64(imm))), |DivBytes(isDiv, false, RBX, src, imm, w)|)
  {
    hide X86.Run, DivBytes, DivHead, DivTail, UnaryF7, MovRI, Value, Trunc, Quotient, Remainder, Here, U64;
    var a, d := m.regs[RBX], Trunc(w, U64(imm));
    DivLayout(code, m.rip, isDiv, false, RBX, src, imm, w);
    ScratchIsRbx(imm, w);
    HereSplit(code, m.rip + |DivHead(RBX, w)|, MovRI(RBX, imm, w), UnaryF7(6, RBX, w));
    MovValue(w, m.regs[RAX], a);
    var m4 := RunDivHead(code, m, RBX, w);
    MovValue(w, a, U64(imm));
    TruncTwice(w, U64(imm));
    var m4' := RunMovRI(code, m4, RBX, imm, w);
    var m5 := RunDivide(code, m4', RBX, w, a, d);
    m' := RunDivTail(code, m, m5, Quotient(Trunc(w, a), d), Remainder(Trunc(w, a), d), isDiv, RBX, w);
    MovValue(w, m5.regs[RBX], DivResult(isDiv, Trunc(w, a), d));
    TruncTwice(w, a);
    Then(code, m, 4, m4, 1, m4');
    Then(code, m, 5, m4', 1, m5);
    Then(code, m, 6, m5, 3, m');
  }

  // ----- any faithful arithmetic instruction -----

  lemma LowHost(r: nat)
    requires Usable(r)
    ensures Low(r) <==> HostReg(r) < 8
    ensures HostReg(r) != RSP
    ensures (HostReg(r) == RAX <==> r == 0) && (HostReg(r) == RDX <==> r == 3) && (HostReg(r) == RCX <==> r == 4) && (HostReg(r) == RBX <==> r == 6)
  {
  }

  lemma EmitAlu(insn: Insn, table: HelperTable)
    requires insn.Class() == ALU || insn.Class() == ALU64
    ensures Emit(insn, table) == AluBytes(insn.Op(), insn.SrcIsReg(), HostReg(insn.Dst()), HostReg(insn.Src()), insn.imm, insn.Class() == ALU64)
  {
  }

  function SimpleOpcode(op: nat): u8
  {
    if op == ADD then 0x01 else if op == SUB then 0x29 else if op == OR then 0x09
    else if op == AND then 0x21 else if op == XOR then 0x31 else 0x89
  }

  function SimpleExt(op: nat): nat
  {
    if op == ADD then 0 else if op == SUB then 5 else if op == OR then 1 else if op == AND then 4 else 6
  }

  lemma SimpleBytes(op: nat, x: bool, dst: Gpr, src: Gpr, imm: i32, w: bool)
    requires SimpleOp(op)
    ensures AluBytes(op, x, dst, src, imm, w)
            == if x then AluRR(SimpleOpcode(op), dst, src, w)
               else if op == MOV then MovRI(dst, imm, w) else AluRI(SimpleExt(op), dst, imm, w)
    ensures SimpleOpcode(op) in RR_OPCODES && RrOp(SimpleOpcode(op)) == HostOp(op) && HostOp(op) !in {Cmp, Test}
    ensures op != MOV ==> SimpleExt(op) in {0, 1, 4, 5, 6} && ExtOp(SimpleExt(op)) == HostOp(op)
  {
    hide AluRR, AluRI, MovRI;
  }

  lemma RunSimple(code: seq<u8>, m: Machine, op: nat, x: bool, dst: Gpr, src: Gpr, imm: i32, w: bool) returns (m': Machine)
    requires m.rip >= 0 && Here(code, m.rip, AluBytes(op, x, dst, src, imm, w)) && SimpleOp(op) && dst != RSP
    requires (!w ==> dst < 8 && (x ==> src < 8)) && (x || dst < 8)
    ensures var b := if x then m.regs[src] else U64(imm);
            Writes(code, m, 1, m', dst, Value(HostOp(op), w, m.regs[dst], b), |AluBytes(op, x, dst, src, imm, w)|)
  {
    hide AluBytes, AluRR, AluRI, MovRI, Here, Value, U64, X86.Run, SimpleOpcode, SimpleExt, RrOp, ExtOp, HostOp;
    SimpleBytes(op, x, dst, src, imm, w);
    if x { m' := RunAluRR(code, m, SimpleOpcode(op), dst, src, w); }
    else if op == MOV { m' := RunMovRI(code, m, dst, imm, w); assert HostOp(op) == Mov by { MovHost(); } }
    else { m' := RunAluRI(code, m, SimpleExt(op), dst, imm, w); }
  }

  lemma MovHost()
    ensures HostOp(MOV) == Mov
  {
  }

  function ShiftExt(op: nat): nat { if op == LSH then 4 else if op == RSH then 5 else 7 }

  predicate ShiftOp(op: nat) { op == LSH || op == RSH || op == ARSH }

  lemma ShiftBytesOf(op: nat, x: bool, dst: Gpr, src: Gpr, imm: i32, w: bool)
    requires ShiftOp(op)
    ensures AluBytes(op, x, dst, src, imm, w) == ShiftBytes(ShiftExt(op), x, dst, src, imm, w)
    ensures ShiftExt(op) in {4, 5, 7} && ShiftKind(ShiftExt(op)) == HostShift(op)
  {
    hide ShiftBytes;
  }

  lemma ShiftCountImm(imm: i32)
    ensures U32(imm) % 256 % 64 == U64(imm) % 64
  {
    ModMod(imm % TWO32, 64, 4);
    ModMod(imm, 64, 0x400_0000);
    ModMod(imm, 64, 0x400_0000_0000_0000);
  }

  lemma ShiftCountReg(w: bool, a: u64)
    ensures Trunc(w, a) % 256 % 64 == a % 64
  {
    ModMod(a, 64, 4);
    ModMod(a % TWO32, 64, 4);
    ModMod(a, 64, 0x400_0000);
  }

  lemma RunShift(code: seq<u8>, m: Machine, op: nat, x: bool, dst: Gpr, src: Gpr, imm: i32, w: bool) returns (k: nat, m': Machine, count: u64)
    requires m.rip >= 0 && Here(code, m.rip, AluBytes(op, x, dst, src, imm, w)) && ShiftOp(op) && StackRoom(m)
    requires dst < 8 && dst != RSP && (x ==> dst != RCX && src != RSP && (w || src < 8))
    ensures count % 64 == (if x then m.regs[src] else U64(imm)) % 64
    ensures Writes(code, m, k, m', dst, Shifted(HostShift(op), w, m.regs[dst], count), |AluBytes(op, x, dst, src, imm, w)|)
  {
    hide AluBytes, ShiftBytes, Here, Value, Trunc, Shifted, U64, U32, X86.Run, ShiftExt, ShiftKind, HostShift;
    ShiftBytesOf(op, x, dst, src, imm, w);
    if x {
      m' := RunShiftReg(code, m, ShiftExt(op), dst, src, imm, w);
      MovValue(w, m.regs[RCX], m.regs[src]);
      k, count := 4, Trunc(w, m.regs[src]) % 256;
      ShiftCountReg(w, m.regs[src]);
    } else {
      m' := RunShiftImm(code, m, ShiftExt(op), dst, src, imm, w);
      k, count := 1, U32(imm) % 256;
      ShiftCountImm(imm);
    }
  }

  lemma OtherBytes(op: nat, x: bool, dst: Gpr, src: Gpr, imm: i32, w: bool)
    ensures op == MUL ==> AluBytes(op, x, dst, src, imm, w) == MulBytes(x, dst, src, imm, w)
    ensures op == NEG ==> AluBytes(op, x, dst, src, imm, w) == UnaryF7(3, dst, w)
    ensures op == DIV || op == MOD ==> AluBytes(op, x, dst, src, imm, w) == DivBytes(op == DIV, x, dst, src, imm, w)
  {
    hide MulBytes, UnaryF7, DivBytes;
  }

  lemma DivValue(insn: Insn, a: u64, b: u64)
    requires insn.Op() == DIV || insn.Op() == MOD
    ensures var w := insn.Class() == ALU64;
            && (AluValue(insn, a, b).Ok? <==> Trunc(w, b) != 0)
            && (Trunc(w, b) != 0 ==> AluValue(insn, a, b) == Ok(DivResult(insn.Op() == DIV, Trunc(w, a), Trunc(w, b))))
  {
    hide Quotient, Remainder;
    TruncOfWord(a);
    TruncOfWord(b);
  }

  /** The host value that stands for the second operand. */
  function HostOperand(insn: Insn, file: File): u64 { if insn.SrcIsReg() then file[HostReg(insn.Src())] else U64(insn.imm) }

  lemma RunAlu(code: seq<u8>, m: Machine, insn: Insn, table: HelperTable) returns (k: nat, m': Machine)
    requires insn.Class() == ALU || insn.Class() == ALU64
    requires FaithfulAlu(insn) && m.rip >= 0 && Here(code, m.rip, Emit(insn, table)) && StackRoom(m)
    requires AluValue(insn, m.regs[HostReg(insn.Dst())], HostOperand(insn, m.regs)).Ok?
    ensures Writes(code, m, k, m', HostReg(insn.Dst()),
                   AluValue(insn, m.regs[HostReg(insn.Dst())], HostOperand(insn, m.regs)).value, |Emit(insn, table)|)
  {
    hide AluBytes, Emit, AluValue, Here, Value, Trunc, Shifted, X86.Run, HostReg, U64, DivResult, HostOp, HostShift, Low;
    EmitAlu(insn, table);
    var op, x, w, imm := insn.Op(), insn.SrcIsReg(), insn.Class() == ALU64, insn.imm;
    var dst, src := HostReg(insn.Dst()), HostReg(insn.Src());
    var a, b := m.regs[dst], HostOperand(insn, m.regs);
    LowHost(insn.Dst());
    if x { LowHost(insn.Src()); }
    OtherBytes(op, x, dst, src, imm, w);
    if SimpleOp(op) {
      m' := RunSimple(code, m, op, x, dst, src, imm, w);
      k := 1;
      SimpleValue(insn, a, b);
    } else if ShiftOp(op) {
      var count;
      k, m', count := RunShift(code, m, op, x, dst, src, imm, w);
      ShiftValue(insn, a, b, count);
    } else if op == MUL {
      if x { m' := RunMulRR(code, m, dst, src, imm, w); } else { m' := RunMulRI(code, m, dst, src, imm, w); }
      k := 1;
      MulValue(insn, a, b);
    } else if op == NEG {
      m' := RunNeg(code, m, dst, w);
      k := 1;
      NegValue(insn, a, b);
    } else {
      DivValue(insn, a, b);
      if x {
        m' := RunDivReg(code, m, op == DIV, dst, src, imm, w);
        k := 8;
      } else {
        m' := RunDivImm(code, m, op == DIV, src, imm, w);
        k := 9;
      }
    }
  }

  /** From matching register files, the code of a faithful instruction reaches matching register files. */
  lemma AluSimulates(code: seq<u8>, m: Machine, insn: Insn, table: HelperTable, s: Vm) returns (k: nat, m': Machine)
    requires insn.Class() == ALU || insn.Class() == ALU64
    requires FaithfulAlu(insn) && m.rip >= 0 && Here(code, m.rip, Emit(insn, table)) && StackRoom(m)
    requires RegsMatch(s.regs, m.regs) && ExecAlu(insn, s).Ok?
    ensures X86.Run(code, m, k) == Next(m') && m'.rip == m.rip + |Emit(insn, table)| && KeepsStack(m, m')
    ensures RegsMatch(ExecAlu(insn, s).value.regs, m'.regs)
  {
    hide Emit, Here, X86.Run, Alu64, Alu32, HostReg;
    var d := insn.Dst();
    assert m.regs[HostReg(d)] == s.regs[d];
    if insn.SrcIsReg() { assert m.regs[HostReg(insn.Src())] == s.regs[insn.Src()]; }
    k, m' := RunAlu(code, m, insn, table);
    MatchUpdate(s.regs, m.regs, d, AluValue(insn, s.regs[d], HostOperand(insn, m.regs)).value);
  }
}
