/** Exactly which arithmetic instructions, divisions apart, are compiled to code that does what
    the interpreter does. */
module JitForms {
  import opened Words
  import opened BpfIsa
  import opened BpfVm
  import opened Jit
  import opened JitDecode
  import opened JitSim
  import opened JitAlu
  import X86
  import opened X86Names = X86

  /** The code emitted for an arithmetic instruction, run on its own, carries every pair of
      matching register files to matching register files. */
  ghost predicate CompilesCorrectly(insn: Insn, table: HelperTable)
  {
    forall m: Machine, s: Vm | m.rip == 0 && StackRoom(m) && RegsMatch(s.regs, m.regs) && ExecAlu(insn, s).Ok? ::
      Reaches(Emit(insn, table), m, ExecAlu(insn, s).value.regs)
  }

  /** Some number of instructions leads from m to the end of the code with host registers that match regs. */
  ghost predicate Reaches(code: seq<u8>, m: Machine, regs: Regs)
  {
    exists k, m' :: X86.Run(code, m, k) == Next(m') && m'.rip == |code| && RegsMatch(regs, m'.regs)
  }

  /** All arithmetic but division and byte swaps, on registers that the compiler maps to its own. */
  predicate PlainForm(insn: Insn)
  {
    && (insn.Class() == ALU || insn.Class() == ALU64) && Usable(insn.Dst()) && (insn.SrcIsReg() ==> Usable(insn.Src()))
    && (SimpleOp(insn.Op()) || ShiftOp(insn.Op()) || insn.Op() == NEG || insn.Op() == MUL)
  }

  predicate Wide(insn: Insn) { insn.Class() == ALU64 }

  /** The operation has a second operand in a register. */
  predicate TakesReg(insn: Insn) { insn.SrcIsReg() && insn.Op() != NEG }

  /** The encoding carries the fourth bit of the destination's register number. */
  predicate FullDst(insn: Insn) { Wide(insn) && (insn.Op() == MUL || (insn.SrcIsReg() && SimpleOp(insn.Op()))) }

  /** The operation leaves every destination as it is. */
  predicate LeavesAlone(insn: Insn)
  {
    var op := insn.Op();
    && Wide(insn) && !insn.SrcIsReg()
    && (|| (op in {ADD, SUB, OR, XOR} && insn.imm == 0)
        || (op == AND && insn.imm == -1)
        || (ShiftOp(op) && U64(insn.imm) % 64 == 0))
  }

  /** The condition for correct code: the registers can be named, and a shift by a register does
      not have its result in rcx, which the code saves and restores around the shift. */
  predicate Nameable(insn: Insn)
  {
    && (FullDst(insn) || Low(insn.Dst()))
    && (!Wide(insn) && TakesReg(insn) ==> Low(insn.Src()))
    && (ShiftOp(insn.Op()) && insn.SrcIsReg() ==> insn.Dst() != 4)
  }

  /** The registers that the encoding names. */
  function NamedDst(insn: Insn): Gpr { if FullDst(insn) then HostReg(insn.Dst()) else HostReg(insn.Dst()) % 8 }

  function NamedSrc(insn: Insn): Gpr { if Wide(insn) then HostReg(insn.Src()) else HostReg(insn.Src()) % 8 }

  /** Values of destination and source for which wrong code shows. */
  function Telling(insn: Insn): (u64, u64)
  {
    var op := insn.Op();
    if insn.SrcIsReg() && Low(insn.Dst()) then
      if op in {ADD, SUB, OR, XOR, MOV} then (0, 1) else (1, if NamedSrc(insn) == NamedDst(insn) && !Wide(insn) then 0 else 1)
    else if !Wide(insn) then (TWO32, 0)
    else if insn.SrcIsReg() then (1, 1)
    else if op == AND then (TWO64 - 1, 0) else if op == MOV then (U64(insn.imm + 1), 0)
    else if op in {ADD, SUB, OR, XOR} then (0, 0) else (1, 0)
  }

  lemma {:induction false} Pow2AtLeastTwo(n: nat)
    ensures n > 0 ==> Pow2(n) >= 2
    ensures n < 64 ==> Pow2(n) < TWO64
  {
    if n < 64 { Pow2Values(); Pow2Less(n, 64); }
  }

  lemma {:induction false} Pow2Less(a: nat, b: nat)
    requires a < b
    ensures Pow2(a) < Pow2(b)
    decreases b
  {
    if a < b - 1 { Pow2Less(a, b - 1); }
  }

  // ----- what the emitted code does -----

  /** The second operand that the encoding names, and the one that is meant. */
  function NamedOperand(insn: Insn, file: File): u64 { if insn.SrcIsReg() then file[NamedSrc(insn)] else U64(insn.imm) }

  function MeantOperand(insn: Insn, regs: Regs): u64
    requires insn.SrcIsReg() ==> insn.Src() < REG_COUNT
  { if insn.SrcIsReg() then regs[insn.Src()] else U64(insn.imm) }

  lemma PlainOk(insn: Insn, a: u64, b: u64)
    requires PlainForm(insn)
    ensures AluValue(insn, a, b).Ok? && (!Wide(insn) ==> AluValue(insn, a, b).value < TWO32)
  {
    hide And64, Or64, Xor64, Quotient;
  }

  lemma ExecPlain(insn: Insn, s: Vm)
    requires PlainForm(insn)
    ensures var v := AluValue(insn, s.regs[insn.Dst()], MeantOperand(insn, s.regs));
            v.Ok? && ExecAlu(insn, s) == Ok(s.(regs := s.regs[insn.Dst() := v.value], pc := s.pc + 1))
  {
    hide Alu64, Alu32;
    PlainOk(insn, s.regs[insn.Dst()], MeantOperand(insn, s.regs));
  }

  lemma NamedRegs(insn: Insn)
    requires PlainForm(insn)
    ensures NamedDst(insn) != RSP && (FullDst(insn) || NamedDst(insn) < 8)
    ensures insn.SrcIsReg() ==> NamedSrc(insn) != RSP && (Wide(insn) || NamedSrc(insn) < 8)
    ensures NamedDst(insn) == HostReg(insn.Dst()) <==> FullDst(insn) || Low(insn.Dst())
    ensures NamedDst(insn) == RCX <==> insn.Dst() == 4
    ensures insn.SrcIsReg() ==> (NamedSrc(insn) == HostReg(insn.Src()) <==> Wide(insn) || Low(insn.Src()))
  {
  }

  /** Without a REX byte, or with one that is always the same, only three bits of a number are encoded. */
  lemma ThreeBits(dst: Gpr, src: Gpr, op: u8, ext: nat, imm: i32, w: bool)
    ensures AluRR(op, dst, src, false) == AluRR(op, dst % 8, src % 8, false)
    ensures AluRI(ext, dst, imm, w) == AluRI(ext, dst % 8, imm, w) && UnaryF7(ext, dst, w) == UnaryF7(ext, dst % 8, w)
    ensures MovRI(dst, imm, w) == MovRI(dst % 8, imm, w)
  {
    hide Imm4;
  }

  lemma ThreeBitsMul(dst: Gpr, src: Gpr, x: bool, imm: i32)
    ensures MulBytes(x, dst, src, imm, false) == MulBytes(x, dst % 8, src % 8, imm, false)
  {
    hide Imm4;
  }

  lemma ThreeBitsShift(dst: Gpr, src: Gpr, ext: nat, x: bool, imm: i32, w: bool)
    ensures ShiftBytes(ext, x, dst, src, imm, w) == ShiftBytes(ext, x, dst % 8, if w then src else src % 8, imm, w)
  {
    ThreeBits(RCX, src, 0x89, ext, imm, w);
    hide AluRR;
  }

  lemma SameBytes(insn: Insn, table: HelperTable)
    requires PlainForm(insn)
    ensures Emit(insn, table) == AluBytes(insn.Op(), insn.SrcIsReg(), NamedDst(insn), NamedSrc(insn), insn.imm, Wide(insn))
    ensures Emit(insn, table) != []
  {
    EmitAlu(insn, table);
    hide Emit, AluBytes, AluRR, AluRI, MovRI, UnaryF7, MulBytes, ShiftBytes, SimpleOpcode, SimpleExt, ShiftExt, HostReg;
    var op, x, dst, src, imm, w := insn.Op(), insn.SrcIsReg(), HostReg(insn.Dst()), HostReg(insn.Src()), insn.imm, Wide(insn);
    var dst', src' := NamedDst(insn), NamedSrc(insn);
    OtherBytes(op, x, dst, src, imm, w);
    OtherBytes(op, x, dst', src', imm, w);
    if SimpleOp(op) {
      SimpleBytes(op, x, dst, src, imm, w);
      SimpleBytes(op, x, dst', src', imm, w);
      ThreeBits(dst, src, SimpleOpcode(op), SimpleExt(op), imm, w);
    } else if ShiftOp(op) {
      ShiftBytesOf(op, x, dst, src, imm, w);
      ShiftBytesOf(op, x, dst', src', imm, w);
      ThreeBitsShift(dst, src, ShiftExt(op), x, imm, w);
      SomeBytes(dst', src', ShiftExt(op), x, imm, w);
    } else if op == MUL {
      ThreeBitsMul(dst, src, x, imm);
      SomeBytes(dst', src', 0, x, imm, w);
    } else {
      ThreeBits(dst, src, 0, 3, imm, w);
    }
  }

  lemma SomeBytes(dst: Gpr, src: Gpr, ext: nat, x: bool, imm: i32, w: bool)
    ensures MulBytes(x, dst, src, imm, w) != [] && ShiftBytes(ext, x, dst, src, imm, w) != []
  {
    hide Imm4;
  }

  /** The emitted code applies the operation, correctly, to the registers that its encoding names. */
  lemma RunNamed(insn: Insn, table: HelperTable, m: Machine) returns (k: nat, m': Machine)
    requires PlainForm(insn) && m.rip == 0 && StackRoom(m) && (ShiftOp(insn.Op()) && insn.SrcIsReg() ==> insn.Dst() != 4)
    ensures AluValue(insn, m.regs[NamedDst(insn)], NamedOperand(insn, m.regs)).Ok?
    ensures Writes(Emit(insn, table), m, k, m', NamedDst(insn), AluValue(insn, m.regs[NamedDst(insn)], NamedOperand(insn, m.regs)).value, |Emit(insn, table)|)
  {
    hide AluBytes, Emit, Value, Trunc, Shifted, X86.Run, HostReg, U64, HostOp, HostShift, Low, AluValue, NamedDst, NamedSrc;
    SameBytes(insn, table);
    NamedRegs(insn);
    var op, x, dst, src, imm, w := insn.Op(), insn.SrcIsReg(), NamedDst(insn), NamedSrc(insn), insn.imm, Wide(insn);
    var code := Emit(insn, table);
    var a, b := m.regs[dst], NamedOperand(insn, m.regs);
    assert code[0..|code|] == code;
    OtherBytes(op, x, dst, src, imm, w);
    if SimpleOp(op) {
      m' := RunSimple(code, m, op, x, dst, src, imm, w);
      k := 1;
      SimpleValue(insn, a, b);
    } else if ShiftOp(op) {
      var count;
      k, m', count := RunShift(code, m, op, x, dst, src, imm, w);
      ShiftValue(insn, a, b, count);
    } else if op == MUL {
      if x { m' := RunMulRR(code, m, dst, src, imm, w); } else { m' := RunMulRI(code, m, dst, src, imm, w); }
      k := 1;
      MulValue(insn, a, b);
    } else {
      m' := RunNeg(code, m, dst, w);
      k := 1;
      NegValue(insn, a, b);
    }
  }

  /** A shift by a register whose result is in rcx is undone by the code itself. */
  lemma RunRcxShift(insn: Insn, table: HelperTable, m: Machine) returns (m': Machine)
    requires PlainForm(insn) && m.rip == 0 && StackRoom(m) && ShiftOp(insn.Op()) && insn.SrcIsReg() && insn.Dst() == 4
    ensures X86.Run(Emit(insn, table), m, 4) == Next(m') && m'.rip == |Emit(insn, table)| && m'.regs == m.regs
  {
    hide AluBytes, Emit, Value, Trunc, Shifted, X86.Run, HostReg, U64, NamedDst, NamedSrc, Here, AluRR, PushBytes, PopBytes, PrefixW, ShiftBytes, Low;
    SameBytes(insn, table);
    NamedRegs(insn);
    var code, src, w, ext := Emit(insn, table), NamedSrc(insn), Wide(insn), ShiftExt(insn.Op());
    WholeIsHere(code);
    ShiftBytesOf(insn.Op(), true, RCX, src, insn.imm, w);
    ShiftRegLayout(code, 0, ext, RCX, src, insn.imm, w);
    RcxSizes(src, ext, insn.imm, w);
    var m1 := RunPush(code, m, RCX);
    var m2 := RunAluRR(code, m1, 0x89, RCX, src, w);
    var m3 := RunShiftByCl(code, m2, ext, RCX, w);
    m' := RunPop(code, m3, RCX);
    Chain4(code, m, m1, m2, m3, m');
  }

  lemma WholeIsHere(code: seq<u8>)
    ensures Here(code, 0, code)
  {
    assert code[0..|code|] == code;
  }

  lemma RcxSizes(src: Gpr, ext: nat, imm: i32, w: bool)
    requires ext < 8
    ensures |PushBytes(RCX)| == |PopBytes(RCX)| == 1 && |AluRR(0x89, RCX, src, w)| == if w then 3 else 2
    ensures |ShiftBytes(ext, true, RCX, src, imm, w)| == if w then 8 else 6
  {
  }

  /** Code that has come to its end can only go on to a fault, so only one state is found there. */
  lemma PastTheEnd(code: seq<u8>, m: Machine, a: nat, m1: Machine, b: nat)
    requires X86.Run(code, m, a) == Next(m1) && m1.rip == |code| && a < b
    ensures X86.Run(code, m, b) == Fault
  {
    hide Exec;
    RunAdd(code, m, a, b - a);
    assert X86.Step(code, m1) == Fault;
  }

  lemma OnlyOneEnd(code: seq<u8>, m: Machine, a: nat, m1: Machine, b: nat, m2: Machine)
    requires X86.Run(code, m, a) == Next(m1) && m1.rip == |code|
    requires X86.Run(code, m, b) == Next(m2) && m2.rip == |code|
    ensures m1 == m2
  {
    hide X86.Run;
    if a < b { PastTheEnd(code, m, a, m1, b); } else if b < a { PastTheEnd(code, m, b, m2, a); }
  }

  // ----- forms that are compiled correctly -----

  lemma LeavesAloneValue(insn: Insn, a: u64)
    requires PlainForm(insn) && LeavesAlone(insn)
    ensures AluValue(insn, a, U64(insn.imm)) == Ok(a)
  {
    hide And64, Or64, Xor64, U64;
    WrapOnce(insn.imm);
    BitwiseUnits(a);
    WrapOnce(a);
    WrapOnce(I64(a));
    DivModUnique(a, 1, a, 0);
    DivModUnique(I64(a), 1, I64(a), 0);
  }

  /** The value does not depend on an operand that the operation does not take. */
  lemma OperandMeant(insn: Insn, m: Machine, s: Vm)
    requires PlainForm(insn) && Nameable(insn) && RegsMatch(s.regs, m.regs)
    ensures NamedDst(insn) == HostReg(insn.Dst()) && m.regs[HostReg(insn.Dst())] == s.regs[insn.Dst()]
    ensures AluValue(insn, s.regs[insn.Dst()], NamedOperand(insn, m.regs)) == AluValue(insn, s.regs[insn.Dst()], MeantOperand(insn, s.regs))
  {
    hide AluValue, HostReg, Low, NamedDst, NamedSrc, FullDst;
    NamedRegs(insn);
    assert m.regs[HostReg(insn.Dst())] == s.regs[insn.Dst()];
    if insn.Op() == NEG {
      NegValue(insn, s.regs[insn.Dst()], NamedOperand(insn, m.regs));
      NegValue(insn, s.regs[insn.Dst()], MeantOperand(insn, s.regs));
    } else if insn.SrcIsReg() {
      assert m.regs[HostReg(insn.Src())] == s.regs[insn.Src()];
    }
  }

  lemma FormHolds(insn: Insn, table: HelperTable, m: Machine, s: Vm)
    requires PlainForm(insn) && (Nameable(insn) || LeavesAlone(insn))
    requires m.rip == 0 && StackRoom(m) && RegsMatch(s.regs, m.regs)
    ensures ExecAlu(insn, s).Ok? && Reaches(Emit(insn, table), m, ExecAlu(insn, s).value.regs)
  {
    hide X86.Run, Emit, AluValue, U64, LeavesAlone, Nameable, NamedDst, NamedSrc, HostReg, RegsMatch;
    assert ShiftOp(insn.Op()) && insn.SrcIsReg() ==> insn.Dst() != 4 by { NotRcx(insn); }
    var k, m' := RunNamed(insn, table, m);
    ExecPlain(insn, s);
    var d := insn.Dst();
    var v := AluValue(insn, s.regs[d], MeantOperand(insn, s.regs)).value;
    if Nameable(insn) {
      OperandMeant(insn, m, s);
      MatchUpdate(s.regs, m.regs, d, v);
    } else {
      assert !insn.SrcIsReg() by { NotRcx(insn); }
      LeavesAloneValue(insn, s.regs[d]);
      LeavesAloneValue(insn, m.regs[NamedDst(insn)]);
      assert m'.regs == m.regs && s.regs[d := v] == s.regs;
    }
    assert X86.Run(Emit(insn, table), m, k) == Next(m') && m'.rip == |Emit(insn, table)|;
  }

  lemma NotRcx(insn: Insn)
    ensures LeavesAlone(insn) ==> !insn.SrcIsReg()
    ensures Nameable(insn) && ShiftOp(insn.Op()) && insn.SrcIsReg() ==> insn.Dst() != 4
  {
  }

  // ----- forms that are not -----

  function TellingRegs(insn: Insn): (regs: Regs)
  {
    var (a, b) := Telling(insn);
    seq(REG_COUNT, r => if r == insn.Dst() then a else if insn.SrcIsReg() && r == insn.Src() then b else 0)
  }

  function TellingFile(insn: Insn): (file: File)
  {
    var (a, b) := Telling(insn);
    seq(16, g => if g == HostReg(insn.Dst()) then a else if insn.SrcIsReg() && g == HostReg(insn.Src()) then b
                 else if g == RSP then 8192 else 0)
  }

  lemma TellingMatches(insn: Insn)
    requires PlainForm(insn)
    ensures RegsMatch(TellingRegs(insn), TellingFile(insn)) && TellingFile(insn)[RSP] == 8192
  {
    hide Telling;
    LowHost(insn.Dst());
    if insn.SrcIsReg() { LowHost(insn.Src()); }
    forall r | 0 <= r < 10 ensures TellingFile(insn)[HostReg(r)] == TellingRegs(insn)[r] {
      if HostReg(r) == HostReg(insn.Dst()) { HostRegInjective(r, insn.Dst()); }
      if insn.SrcIsReg() && HostReg(r) == HostReg(insn.Src()) { HostRegInjective(r, insn.Src()); }
      LowHost(r);
    }
  }

  /** The destination's own register is left alone by the code. */
  predicate MissesDst(insn: Insn)
  {
    !(FullDst(insn) || Low(insn.Dst())) || (ShiftOp(insn.Op()) && insn.SrcIsReg() && insn.Dst() == 4)
  }

  lemma ImmChanges(insn: Insn)
    requires PlainForm(insn) && Wide(insn) && !FullDst(insn) && !insn.SrcIsReg() && !LeavesAlone(insn)
    ensures AluValue(insn, Telling(insn).0, U64(insn.imm)).Ok? && AluValue(insn, Telling(insn).0, U64(insn.imm)).value != Telling(insn).0
  {
    hide And64, Or64, Xor64, U64;
    var b := U64(insn.imm);
    WrapOnce(insn.imm);
    WrapOnce(insn.imm + 1);
    BitwiseUnits(b);
    WrapOnce(b);
    WrapOnce(0 - b as int);
    WrapOnce(-1);
    var c := Pow2(b % 64);
    Pow2AtLeastTwo(b % 64);
    WrapOnce(c);
    if insn.Op() in {RSH, ARSH} {
      DivModUnique(1, c, 0, 1);
      WrapOnce(0);
      assert I64(1) == 1;
    }
  }

  /** Shifting one by one place, in either width and direction. */
  lemma ShiftOne(insn: Insn, b: u64)
    requires (insn.Class() == ALU || insn.Class() == ALU64) && ShiftOp(insn.Op()) && b <= 1
    ensures AluValue(insn, 1, b) == Ok(if b == 0 then 1 else if insn.Op() == LSH then 2 else 0)
  {
    hide And64, Or64, Xor64;
    assert Pow2(0) == 1 && Pow2(1) == 2;
    assert I64(1) == 1 && I32(U32(1)) == 1;
  }

  /** In the telling state the interpreter changes the destination. */
  lemma TellingChanges(insn: Insn)
    requires PlainForm(insn) && MissesDst(insn) && !LeavesAlone(insn)
    ensures var regs := TellingRegs(insn); var v := AluValue(insn, regs[insn.Dst()], MeantOperand(insn, regs)); v.Ok? && v.value != regs[insn.Dst()]
  {
    hide AluValue, LeavesAlone;
    var regs := TellingRegs(insn);
    var a, b := regs[insn.Dst()], MeantOperand(insn, regs);
    PlainOk(insn, a, b);
    if !Low(insn.Dst()) && !Wide(insn) {
      assert a == TWO32;
    } else if insn.Op() == NEG {
      NegValue(insn, a, b);
      assert a == 1 && Trunc(true, 0 - Trunc(true, 1) as int) == TWO64 - 1;
    } else if insn.SrcIsReg() {
      assert ShiftOp(insn.Op()) && a == 1 && b == 1;
      ShiftOne(insn, 1);
    } else {
      ImmChanges(insn);
    }
  }

  /** The code reads another source than the one meant, and in the telling state that shows. */
  lemma WrongSourceShows(insn: Insn)
    requires PlainForm(insn) && !Wide(insn) && TakesReg(insn) && Low(insn.Dst()) && !Low(insn.Src())
    ensures var regs, file := TellingRegs(insn), TellingFile(insn); var a := regs[insn.Dst()];
            var v, u := AluValue(insn, a, MeantOperand(insn, regs)), AluValue(insn, a, NamedOperand(insn, file));
            v.Ok? && u.Ok? && v != u
  {
    hide AluValue, And64, Or64, Xor64, Value;
    var regs, file := TellingRegs(insn), TellingFile(insn);
    var a, b, c := regs[insn.Dst()], MeantOperand(insn, regs), NamedOperand(insn, file);
    NamedRegs(insn);
    LowHost(insn.Dst());
    LowHost(insn.Src());
    assert insn.Src() != insn.Dst();
    var same := NamedSrc(insn) == HostReg(insn.Dst());
    assert c == if same then a else 0;
    if ShiftOp(insn.Op()) {
      ShiftOne(insn, b);
      ShiftOne(insn, c);
    } else if insn.Op() == MUL {
      MulValue(insn, a, b);
      MulValue(insn, a, c);
    } else {
      SimpleValue(insn, a, b);
      SimpleValue(insn, a, c);
      SmallValues(HostOp(insn.Op()));
    }
  }

  lemma SmallValues(op: Op)
    ensures op in {Add, Sub, Or, Xor, Mov} ==> Value(op, false, 0, 1) != Value(op, false, 0, 0)
    ensures op == And ==> Value(op, false, 1, 1) != Value(op, false, 1, 0)
  {
    hide And64, Or64, Xor64;
    BitwiseUnits(0);
    BitwiseUnits(1);
    AndZero(1);
    assert And64(1, 1) == 1 by { AndOne(); }
  }

  lemma AndOne()
    ensures And64(1, 1) == 1
  {
    Pow2Values();
    OnesLeft((x, y) => x && y, 1, 1);
  }

  lemma FormFails(insn: Insn, table: HelperTable)
    requires PlainForm(insn) && !Nameable(insn) && !LeavesAlone(insn)
    ensures !CompilesCorrectly(insn, table)
  {
    hide X86.Run, Emit, AluValue, Telling, LeavesAlone, Low;
    var m := Machine(TellingFile(insn), Undefined, map[], 0);
    var s := Vm(TellingRegs(insn), seq(STACK_SIZE, _ => 0), 0, 0, true);
    var d, code := insn.Dst(), Emit(insn, table);
    TellingMatches(insn);
    ExecPlain(insn, s);
    NamedRegs(insn);
    var regs := ExecAlu(insn, s).value.regs;
    var k1, m1;
    if ShiftOp(insn.Op()) && insn.SrcIsReg() && d == 4 {
      m1 := RunRcxShift(insn, table, m);
      k1 := 4;
      TellingChanges(insn);
    } else {
      k1, m1 := RunNamed(insn, table, m);
      if MissesDst(insn) { TellingChanges(insn); } else { WrongSourceShows(insn); }
    }
    assert m1.regs[HostReg(d)] != regs[d];
    forall k, m' | X86.Run(code, m, k) == Next(m') && m'.rip == |code| ensures !RegsMatch(regs, m'.regs) {
      OnlyOneEnd(code, m, k1, m1, k, m');
    }
    assert !Reaches(code, m, regs);
  }

  /** Arithmetic other than division is compiled correctly exactly when the encoding can name its
      registers, a shift by a register does not have its result in rcx, or the operation changes nothing. */
  lemma PlainFormsExactly(insn: Insn, table: HelperTable)
    requires PlainForm(insn)
    ensures CompilesCorrectly(insn, table) <==> Nameable(insn) || LeavesAlone(insn)
  {
    hide Reaches, X86.Run, Emit, Alu64, Alu32, Nameable, LeavesAlone;
    if Nameable(insn) || LeavesAlone(insn) {
      forall m: Machine, s: Vm | m.rip == 0 && StackRoom(m) && RegsMatch(s.regs, m.regs) && ExecAlu(insn, s).Ok?
        ensures Reaches(Emit(insn, table), m, ExecAlu(insn, s).value.regs)
      {
        FormHolds(insn, table, m, s);
      }
    } else {
      FormFails(insn, table);
    }
  }
}
