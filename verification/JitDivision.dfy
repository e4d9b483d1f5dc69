/** Exactly which divisions are compiled to code that does what the interpreter does. */
module JitDivision {
  import opened Words
  import opened BpfIsa
  import opened BpfVm
  import opened Jit
  import opened JitDecode
  import opened JitSim
  import opened JitAlu
  import opened JitForms
  import X86
  import opened X86Names = X86

  predicate DivForm(insn: Insn)
  {
    && (insn.Class() == ALU || insn.Class() == ALU64) && (insn.Op() == DIV || insn.Op() == MOD)
    && Usable(insn.Dst()) && (insn.SrcIsReg() ==> Usable(insn.Src()))
  }

  /** The condition for correct code. The code saves and restores rax and rdx, divides by the
      register with the low three bits of the source's number, and loads an immediate into rbx. */
  predicate DivNameable(insn: Insn)
  {
    var d, s := insn.Dst(), insn.Src();
    if insn.SrcIsReg() then d != 0 && d != 3 && (Wide(insn) || Low(d)) && ((Low(s) && s != 0 && s != 3) || (s == 5 && d == 5))
    else d == 6 || insn.imm == 0
  }

  // ----- running the code -----

  /** The register that the two moves name, and the one that is divided by. */
  function DivDst(insn: Insn): Gpr { if Wide(insn) then HostReg(insn.Dst()) else HostReg(insn.Dst()) % 8 }

  function DivSrc(insn: Insn): Gpr { if insn.SrcIsReg() then HostReg(insn.Src()) % 8 else RBX }

  lemma DivRegs(insn: Insn)
    requires DivForm(insn)
    ensures DivDst(insn) != RSP && (Wide(insn) || DivDst(insn) < 8) && DivSrc(insn) != RSP
    ensures DivDst(insn) == HostReg(insn.Dst()) <==> Wide(insn) || Low(insn.Dst())
    ensures DivDst(insn) == HostReg(insn.Dst()) ==> (DivDst(insn) in {RAX, RDX} <==> insn.Dst() in {0, 3})
    ensures DivDst(insn) == RBX <==> insn.Dst() == 6
  {
  }

  lemma HeadBytes(dst: Gpr, w: bool)
    ensures DivHead(dst, w) == DivHead(if w then dst else dst % 8, w)
    ensures DivTail(true, dst, w) == DivTail(true, if w then dst else dst % 8, w)
    ensures DivTail(false, dst, w) == DivTail(false, if w then dst else dst % 8, w)
  {
    ThreeBits(RAX, dst, 0x89, 0, 0, w);
    ThreeBits(dst, RAX, 0x89, 0, 0, w);
    ThreeBits(dst, RDX, 0x89, 0, 0, w);
    hide AluRR, ModRM, PrefixW;
  }

  /** The three parts of the code. */
  lemma DivCode(insn: Insn, table: HelperTable)
    requires DivForm(insn)
    ensures var code, w, isDiv, n := Emit(insn, table), Wide(insn), insn.Op() == DIV, |DivHead(DivDst(insn), Wide(insn))|;
            var mid := if insn.SrcIsReg() then UnaryF7(6, DivSrc(insn), w) else MovRI(RBX, insn.imm, w) + UnaryF7(6, RBX, w);
            && Here(code, 0, DivHead(DivDst(insn), w)) && Here(code, n, mid) && Here(code, n + |mid|, DivTail(isDiv, DivDst(insn), w))
            && |code| == n + |mid| + |DivTail(isDiv, DivDst(insn), w)|
  {
    hide Emit, AluBytes, DivBytes, DivHead, DivTail, UnaryF7, MovRI, HostReg;
    EmitAlu(insn, table);
    var op, x, imm, w := insn.Op(), insn.SrcIsReg(), insn.imm, Wide(insn);
    var dst, src := HostReg(insn.Dst()), HostReg(insn.Src());
    OtherBytes(op, x, dst, src, imm, w);
    var code := Emit(insn, table);
    WholeIsHere(code);
    DivLayout(code, 0, op == DIV, x, dst, src, imm, w);
    HeadBytes(dst, w);
    ThreeBits(src, 0, 0, 6, imm, w);
    ScratchIsRbx(imm, w);
  }

  /** Registers before the division itself: the saved rax and rdx lie on the stack. */
  lemma RunUpToDivide(insn: Insn, table: HelperTable, m: Machine) returns (k: nat, m1: Machine)
    requires DivForm(insn) && m.rip == 0 && StackRoom(m)
    ensures X86.Run(Emit(insn, table), m, k) == Next(m1) && m1.rip >= 0
    ensures Here(Emit(insn, table), m1.rip, UnaryF7(6, DivSrc(insn), Wide(insn)))
    ensures Here(Emit(insn, table), m1.rip + |UnaryF7(6, DivSrc(insn), Wide(insn))|, DivTail(insn.Op() == DIV, DivDst(insn), Wide(insn)))
    ensures |Emit(insn, table)| == m1.rip + |UnaryF7(6, DivSrc(insn), Wide(insn))| + |DivTail(insn.Op() == DIV, DivDst(insn), Wide(insn))|
    ensures m1.regs[RDX] == 0 && m1.regs[RAX] == Trunc(Wide(insn), m.regs[DivDst(insn)])
    ensures forall g | 0 <= g < 16 && g !in {RSP, RAX, RDX, RBX} :: m1.regs[g] == m.regs[g]
    ensures m1.regs[RBX] == if insn.SrcIsReg() then m.regs[RBX] else Trunc(Wide(insn), U64(insn.imm))
    ensures m1.regs[RSP] == m.regs[RSP] - 16 && m1.mem == m.mem[m.regs[RSP] - 8 := m.regs[RDX]][m.regs[RSP] - 16 := m.regs[RAX]]
  {
    hide Emit, X86.Run, Here, DivHead, DivTail, UnaryF7, MovRI, Value, Trunc, HostReg, U64, DivDst;
    DivCode(insn, table);
    DivRegs(insn);
    var code, d, w := Emit(insn, table), DivDst(insn), Wide(insn);
    MovValue(w, m.regs[RAX], m.regs[d]);
    m1 := RunDivHead(code, m, d, w);
    k := 4;
    if !insn.SrcIsReg() {
      HereSplit(code, m1.rip, MovRI(RBX, insn.imm, w), UnaryF7(6, RBX, w));
      var m2 := RunMovRI(code, m1, RBX, insn.imm, w);
      MovValue(w, m1.regs[RBX], U64(insn.imm));
      Then(code, m, 4, m1, 1, m2);
      k, m1 := 5, m2;
    }
  }

  lemma RunTail(code: seq<u8>, m: Machine, m2: Machine, isDiv: bool, d: Gpr, w: bool) returns (m': Machine)
    requires m2.rip >= 0 && Here(code, m2.rip, DivTail(isDiv, d, w)) && StackRoom(m) && d != RSP && (w || d < 8)
    requires m2.regs[RSP] == m.regs[RSP] - 16 && m2.mem == m.mem[m.regs[RSP] - 8 := m.regs[RDX]][m.regs[RSP] - 16 := m.regs[RAX]]
    ensures X86.Run(code, m2, 3) == Next(m') && m'.rip == m2.rip + |DivTail(isDiv, d, w)|
    ensures m'.regs == m2.regs[d := Trunc(w, m2.regs[if isDiv then RAX else RDX])][RSP := m.regs[RSP]][RAX := m.regs[RAX]][RDX := m.regs[RDX]]
  {
    hide Here, X86.Run, AluRR, PopBytes, Value, DivTail, Trunc;
    DivTailLayout(code, m2.rip, isDiv, d, w);
    var r := if isDiv then RAX else RDX;
    MovValue(w, m2.regs[d], m2.regs[r]);
    var m3 := RunAluRR(code, m2, 0x89, d, r, w);
    var m4 := RunPop(code, m3, RAX);
    m' := RunPop(code, m4, RDX);
    Then(code, m2, 1, m3, 1, m4);
    Then(code, m2, 2, m4, 1, m');
  }

  /** What is divided by when the division comes. */
  function HostDivisor(insn: Insn, file: File): u64
  {
    var n, w := DivSrc(insn), Wide(insn);
    if !insn.SrcIsReg() then Trunc(w, U64(insn.imm))
    else if n == RDX then 0
    else if n == RAX then Trunc(w, file[DivDst(insn)])
    else Trunc(w, file[n])
  }

  /** The registers at the end: rax and rdx as they were, whatever the result. */
  function DivEnd(insn: Insn, file: File): (r: seq<u64>)
    requires HostDivisor(insn, file) != 0
    ensures |r| == 16
  {
    var w, d := Wide(insn), DivDst(insn);
    var v := DivResult(insn.Op() == DIV, Trunc(w, file[d]), HostDivisor(insn, file));
    var base := if insn.SrcIsReg() then file else file[RBX := Trunc(w, U64(insn.imm))];
    if d == RAX || d == RDX then base else base[d := v]
  }

  lemma DivisorIs(insn: Insn, m: Machine, m1: Machine)
    requires DivForm(insn) && m1.regs[RDX] == 0 && m1.regs[RAX] == Trunc(Wide(insn), m.regs[DivDst(insn)])
    requires forall g | 0 <= g < 16 && g !in {RSP, RAX, RDX, RBX} :: m1.regs[g] == m.regs[g]
    requires m1.regs[RBX] == if insn.SrcIsReg() then m.regs[RBX] else Trunc(Wide(insn), U64(insn.imm))
    ensures Trunc(Wide(insn), m1.regs[DivSrc(insn)]) == HostDivisor(insn, m.regs)
  {
    hide Trunc, U64;
    DivRegs(insn);
    var w := Wide(insn);
    TruncTwice(w, m.regs[DivDst(insn)]);
    TruncTwice(w, U64(insn.imm));
  }

  /** The code runs to its end exactly when the divisor it finds is not zero, and faults otherwise. */
  lemma RunDivision(insn: Insn, table: HelperTable, m: Machine) returns (k: nat, m': Machine)
    requires DivForm(insn) && m.rip == 0 && StackRoom(m) && HostDivisor(insn, m.regs) != 0
    ensures X86.Run(Emit(insn, table), m, k) == Next(m') && m'.rip == |Emit(insn, table)| && m'.regs == DivEnd(insn, m.regs)
  {
    hide Emit, X86.Run, Here, DivTail, UnaryF7, Trunc, HostReg, U64, DivDst, DivSrc, Quotient, Remainder, HostDivisor;
    var k1, m1 := RunUpToDivide(insn, table, m);
    DivRegs(insn);
    DivisorIs(insn, m, m1);
    var code, w, d, isDiv := Emit(insn, table), Wide(insn), DivDst(insn), insn.Op() == DIV;
    var v := HostDivisor(insn, m.regs);
    SmallSrc(insn);
    var m2 := RunDivide(code, m1, DivSrc(insn), w, m.regs[d], v);
    m' := RunTail(code, m, m2, isDiv, d, w);
    Then(code, m, k1, m1, 1, m2);
    Then(code, m, k1 + 1, m2, 3, m');
    k := k1 + 4;
    TruncTwice(w, m.regs[d]);
    EndRegs(insn, m, m1, m2, m');
  }

  lemma SmallSrc(insn: Insn)
    ensures DivSrc(insn) < 8
  {
  }

  lemma EndRegs(insn: Insn, m: Machine, m1: Machine, m2: Machine, m': Machine)
    requires DivForm(insn) && HostDivisor(insn, m.regs) != 0
    requires forall g | 0 <= g < 16 && g !in {RSP, RAX, RDX, RBX} :: m1.regs[g] == m.regs[g]
    requires m1.regs[RBX] == if insn.SrcIsReg() then m.regs[RBX] else Trunc(Wide(insn), U64(insn.imm))
    requires var a, v := Trunc(Wide(insn), m.regs[DivDst(insn)]), HostDivisor(insn, m.regs);
             m2.regs == m1.regs[RAX := Quotient(a, v)][RDX := Remainder(a, v)]
    requires m'.regs == m2.regs[DivDst(insn) := Trunc(Wide(insn), m2.regs[if insn.Op() == DIV then RAX else RDX])][RSP := m.regs[RSP]][RAX := m.regs[RAX]][RDX := m.regs[RDX]]
    ensures m'.regs == DivEnd(insn, m.regs)
  {
    hide Trunc, U64, Quotient, Remainder, HostDivisor, DivDst;
    DivRegs(insn);
    TruncTwice(Wide(insn), m.regs[DivDst(insn)]);
    assert |m'.regs| == |DivEnd(insn, m.regs)|;
  }

  lemma DivideFaults(insn: Insn, table: HelperTable, m: Machine)
    requires DivForm(insn) && m.rip == 0 && StackRoom(m) && HostDivisor(insn, m.regs) == 0
    ensures forall k, m' | X86.Run(Emit(insn, table), m, k) == Next(m') :: m'.rip != |Emit(insn, table)|
  {
    hide Emit, X86.Run, Here, DivTail, UnaryF7, Trunc, HostReg, U64, DivDst, HostDivisor, DivSrc;
    var k1, m1 := RunUpToDivide(insn, table, m);
    DivisorIs(insn, m, m1);
    SmallSrc(insn);
    var code := Emit(insn, table);
    ZeroFaults(code, m1, DivSrc(insn), Wide(insn));
    forall k, m' | X86.Run(code, m, k) == Next(m') ensures m'.rip != |code| { NeverEnds(code, m, k1, m1, k, m'); }
  }

  lemma ZeroFaults(code: seq<u8>, m1: Machine, n: Gpr, w: bool)
    requires m1.rip >= 0 && Here(code, m1.rip, UnaryF7(6, n, w)) && n < 8 && Trunc(w, m1.regs[n]) == 0
    ensures X86.Step(code, m1) == Fault
  {
    hide Decode, DecodeBody, Trunc, Pow2, Here, UnaryF7;
    DecodeUnary(code, m1.rip, 6, n, w);
  }

  /** Code that faults before its end does not come to its end. */
  lemma NeverEnds(code: seq<u8>, m: Machine, a: nat, m1: Machine, k: nat, m': Machine)
    requires X86.Run(code, m, a) == Next(m1) && m1.rip < |code| && X86.Step(code, m1) == Fault && X86.Run(code, m, k) == Next(m')
    ensures m'.rip != |code|
  {
    hide X86.Step;
    if m'.rip == |code| {
      if k < a {
        PastTheEnd(code, m, k, m', a);
      } else if k > a {
        RunAdd(code, m, a, k - a);
      }
    }
  }

  // ----- divisions that are compiled correctly -----

  lemma ExecDiv(insn: Insn, s: Vm)
    requires DivForm(insn) && ExecAlu(insn, s).Ok?
    ensures var a, b, w := s.regs[insn.Dst()], MeantOperand(insn, s.regs), Wide(insn);
            && Trunc(w, b) != 0
            && ExecAlu(insn, s).value.regs == s.regs[insn.Dst() := DivResult(insn.Op() == DIV, Trunc(w, a), Trunc(w, b))]
  {
    hide Alu64, Alu32, DivResult, Trunc;
    DivValue(insn, s.regs[insn.Dst()], MeantOperand(insn, s.regs));
  }

  lemma MeantDivisor(insn: Insn, m: Machine, s: Vm)
    requires DivForm(insn) && DivNameable(insn) && RegsMatch(s.regs, m.regs) && (insn.SrcIsReg() || insn.imm != 0)
    ensures DivDst(insn) == HostReg(insn.Dst()) && DivDst(insn) !in {RAX, RDX} && m.regs[HostReg(insn.Dst())] == s.regs[insn.Dst()]
    ensures HostDivisor(insn, m.regs) == Trunc(Wide(insn), MeantOperand(insn, s.regs))
    ensures !insn.SrcIsReg() ==> DivDst(insn) == RBX
  {
    hide Trunc, U64;
    DivRegs(insn);
    assert m.regs[HostReg(insn.Dst())] == s.regs[insn.Dst()];
    if insn.SrcIsReg() { assert m.regs[HostReg(insn.Src())] == s.regs[insn.Src()]; }
  }

  lemma DivHolds(insn: Insn, table: HelperTable, m: Machine, s: Vm)
    requires DivForm(insn) && DivNameable(insn) && m.rip == 0 && StackRoom(m) && RegsMatch(s.regs, m.regs) && ExecAlu(insn, s).Ok?
    ensures Reaches(Emit(insn, table), m, ExecAlu(insn, s).value.regs)
  {
    hide X86.Run, Emit, Trunc, U64, HostReg, RegsMatch, ExecAlu, HostDivisor, DivDst, DivNameable, DivResult;
    ExecDiv(insn, s);
    NonZeroImmediate(insn, s);
    MeantDivisor(insn, m, s);
    var k, m' := RunDivision(insn, table, m);
    var d := insn.Dst();
    var v := DivResult(insn.Op() == DIV, Trunc(Wide(insn), s.regs[d]), Trunc(Wide(insn), MeantOperand(insn, s.regs)));
    MatchUpdate(s.regs, m.regs, d, v);
    assert m'.regs == m.regs[HostReg(d) := v];
  }

  lemma NonZeroImmediate(insn: Insn, s: Vm)
    requires DivForm(insn) && Trunc(Wide(insn), MeantOperand(insn, s.regs)) != 0
    ensures insn.SrcIsReg() || insn.imm != 0
  {
  }

  // ----- divisions that are not -----

  function SevenAndThree(insn: Insn): (regs: Regs)
  { seq(REG_COUNT, r => if r == insn.Dst() then 7 else if insn.SrcIsReg() && r == insn.Src() then 3 else 0) }

  function SevenAndThreeFile(insn: Insn): (file: File)
  {
    seq(16, g => if g == HostReg(insn.Dst()) then 7 else if insn.SrcIsReg() && g == HostReg(insn.Src()) then 3
                 else if g == RSP then 8192 else 0)
  }

  lemma SevenMatches(insn: Insn)
    requires DivForm(insn)
    ensures RegsMatch(SevenAndThree(insn), SevenAndThreeFile(insn)) && SevenAndThreeFile(insn)[RSP] == 8192
  {
    LowHost(insn.Dst());
    if insn.SrcIsReg() { LowHost(insn.Src()); }
    forall r | 0 <= r < 10 ensures SevenAndThreeFile(insn)[HostReg(r)] == SevenAndThree(insn)[r] {
      if HostReg(r) == HostReg(insn.Dst()) { HostRegInjective(r, insn.Dst()); }
      if insn.SrcIsReg() && HostReg(r) == HostReg(insn.Src()) { HostRegInjective(r, insn.Src()); }
      LowHost(r);
    }
  }

  lemma SmallResults()
    ensures DivResult(true, 7, 3) == 2 && DivResult(false, 7, 3) == 1 && DivResult(true, 7, 7) == 1 && DivResult(false, 7, 7) == 0
    ensures forall w: bool {:trigger Trunc(w, 7)} :: Trunc(w, 7) == 7 && Trunc(w, 3) == 3 && Trunc(w, 0) == 0
  {
  }

  lemma SevenResult(insn: Insn, s: Vm)
    requires DivForm(insn) && s.regs == SevenAndThree(insn) && (insn.SrcIsReg() || insn.imm != 0)
    ensures ExecAlu(insn, s).Ok? && ExecAlu(insn, s).value.regs[6] == (if insn.Dst() == 6 then ExecAlu(insn, s).value.regs[6] else s.regs[6])
    ensures insn.SrcIsReg() ==>
              var v := ExecAlu(insn, s).value.regs[insn.Dst()];
              if insn.Src() == insn.Dst() then v == DivResult(insn.Op() == DIV, 7, 7) else v == DivResult(insn.Op() == DIV, 7, 3)
  {
    hide DivResult, Alu64, Alu32, U64, Trunc;
    SmallResults();
    var b := MeantOperand(insn, s.regs);
    NonZeroOperand(insn, s.regs);
    DivValue(insn, s.regs[insn.Dst()], b);
    assert AluValue(insn, s.regs[insn.Dst()], b).Ok?;
  }

  lemma NonZeroOperand(insn: Insn, regs: Regs)
    requires DivForm(insn) && regs == SevenAndThree(insn) && (insn.SrcIsReg() || insn.imm != 0)
    ensures Trunc(Wide(insn), MeantOperand(insn, regs)) != 0
  {
    WrapOnce(insn.imm);
  }

  /** In that state the code faults, loses the result, divides seven by seven, or spoils rbx. */
  lemma SevenGoesWrong(insn: Insn)
    requires DivForm(insn) && !DivNameable(insn)
    ensures insn.SrcIsReg() || insn.imm != 0
    ensures var file := SevenAndThreeFile(insn);
            || HostDivisor(insn, file) == 0
            || (!insn.SrcIsReg() && insn.Dst() != 6 && DivEnd(insn, file)[RBX] != SevenAndThree(insn)[6])
            || (insn.SrcIsReg() && DivEnd(insn, file)[HostReg(insn.Dst())] == 7)
            || (insn.SrcIsReg() && insn.Src() != insn.Dst() && DivEnd(insn, file)[HostReg(insn.Dst())] == DivResult(insn.Op() == DIV, 7, 7))
  {
    hide DivResult, Trunc, U64;
    var file := SevenAndThreeFile(insn);
    SmallResults();
    DivRegs(insn);
    LowHost(insn.Dst());
    if insn.SrcIsReg() {
      LowHost(insn.Src());
      RegGoesWrong(insn);
    } else {
      ImmediateIsNotZero(insn.imm, Wide(insn));
    }
  }

  lemma ImmediateIsNotZero(imm: i32, w: bool)
    requires imm != 0
    ensures Trunc(w, U64(imm)) != 0
  {
    WrapOnce(imm);
  }

  lemma RegGoesWrong(insn: Insn)
    requires DivForm(insn) && !DivNameable(insn) && insn.SrcIsReg()
    ensures var file := SevenAndThreeFile(insn);
            || HostDivisor(insn, file) == 0
            || DivEnd(insn, file)[HostReg(insn.Dst())] == 7
            || (insn.Src() != insn.Dst() && DivEnd(insn, file)[HostReg(insn.Dst())] == DivResult(insn.Op() == DIV, 7, 7))
  {
    hide DivResult, Trunc, U64;
    var file, d, s := SevenAndThreeFile(insn), insn.Dst(), insn.Src();
    SmallResults();
    DivRegs(insn);
    LowHost(d);
    LowHost(s);
    if HostDivisor(insn, file) != 0 {
      if d == 0 || d == 3 || !(Wide(insn) || Low(d)) {
        assert DivEnd(insn, file)[HostReg(d)] == 7;
      } else {
        assert DivDst(insn) == HostReg(d) && file[HostReg(d)] == 7;
        WrongDivisor(insn);
      }
    }
  }

  lemma WrongDivisor(insn: Insn)
    requires DivForm(insn) && insn.SrcIsReg() && insn.Dst() != 0 && insn.Dst() != 3 && (Wide(insn) || Low(insn.Dst()))
    requires !(Low(insn.Src()) && insn.Src() != 0 && insn.Src() != 3) && !(insn.Src() == 5 && insn.Dst() == 5)
    ensures var v := HostDivisor(insn, SevenAndThreeFile(insn)); v == 0 || (v == 7 && insn.Src() != insn.Dst())
  {
    hide Trunc;
    SmallResults();
    var d, s := insn.Dst(), insn.Src();
    var file, n := SevenAndThreeFile(insn), DivSrc(insn);
    assert Trunc(Wide(insn), 7) == 7;
    assert n in {RAX, RDX, RBP, RSI, RDI};
    if n in {RBP, RSI, RDI} {
      assert n != HostReg(s);
      assert file[n] == if n == HostReg(d) then 7 else 0;
    }
  }

  lemma DivFails(insn: Insn, table: HelperTable)
    requires DivForm(insn) && !DivNameable(insn)
    ensures !CompilesCorrectly(insn, table)
  {
    hide X86.Run, Emit, DivNameable, ExecAlu, HostDivisor, DivEnd, DivResult, HostReg;
    var m := Machine(SevenAndThreeFile(insn), Undefined, map[], 0);
    var s := Vm(SevenAndThree(insn), seq(STACK_SIZE, _ => 0), 0, 0, true);
    SevenMatches(insn);
    SevenGoesWrong(insn);
    SevenResult(insn, s);
    SmallResults();
    var code, regs := Emit(insn, table), ExecAlu(insn, s).value.regs;
    if HostDivisor(insn, m.regs) == 0 {
      DivideFaults(insn, table, m);
      assert !Reaches(code, m, regs);
    } else {
      var k1, m1 := RunDivision(insn, table, m);
      SixIsRbx();
      assert !RegsMatch(regs, m1.regs);
      forall k, m' | X86.Run(code, m, k) == Next(m') && m'.rip == |code| ensures !RegsMatch(regs, m'.regs) {
        OnlyOneEnd(code, m, k1, m1, k, m');
      }
      assert !Reaches(code, m, regs);
    }
  }

  lemma SixIsRbx()
    ensures HostReg(6) == RBX
  {
  }

  /** A division is compiled correctly exactly when the encoding can name both registers and neither
      is rax or rdx, when it divides R5 by itself, when an immediate divides R6, or when the
      interpreter always fails. */
  lemma DivisionsExactly(insn: Insn, table: HelperTable)
    requires DivForm(insn)
    ensures CompilesCorrectly(insn, table) <==> DivNameable(insn)
  {
    hide Reaches, X86.Run, Emit, Alu64, Alu32, DivNameable;
    if DivNameable(insn) {
      forall m: Machine, s: Vm | m.rip == 0 && StackRoom(m) && RegsMatch(s.regs, m.regs) && ExecAlu(insn, s).Ok?
        ensures Reaches(Emit(insn, table), m, ExecAlu(insn, s).value.regs)
      {
        DivHolds(insn, table, m, s);
      }
    } else {
      DivFails(insn, table);
    }
  }
}
