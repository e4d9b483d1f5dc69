/** Exactly which conditional branches are compiled to code that goes where the interpreter goes. */
module JitBranchForms {
  import opened Words
  import opened BpfIsa
  import opened BpfVm
  import opened BpfSafety
  import opened Jit
  import opened JitDecode
  import opened JitSim
  import opened JitAlu
  import opened JitBranch
  import opened JitForms
  import X86
  import opened X86Names = X86

  /** The conditional branches for which code is emitted, on registers that the compiler maps. */
  predicate BranchForm(insn: Insn)
  {
    && (insn.Class() == JMP || insn.Class() == JMP32) && CondOp(insn.Op())
    && Usable(insn.Dst()) && (insn.SrcIsReg() ==> Usable(insn.Src()))
  }

  predicate Full(insn: Insn) { insn.Class() == JMP }

  /** The code of a branch whose field holds rel. */
  function BranchCode(insn: Insn, rel: i32): seq<u8>
  {
    JumpHead(insn.Op(), insn.SrcIsReg(), HostReg(insn.Dst()), HostReg(insn.Src()), insn.imm, Full(insn)) + Imm4(rel)
  }

  /** Some number of instructions leads from m to address p with the registers unchanged. */
  ghost predicate GoesTo(code: seq<u8>, m: Machine, p: int)
  {
    exists k, m' :: X86.Run(code, m, k) == Next(m') && m'.rip == p && m'.regs == m.regs
  }

  /** From every pair of matching register files the code goes to its target exactly when the
      interpreter takes the branch, and behind itself otherwise. */
  ghost predicate BranchesCorrectly(insn: Insn)
    requires NamesRegs(insn)
  {
    forall m: Machine, regs: Regs, rel: i32 | m.rip == 0 && RegsMatch(regs, m.regs) ::
      GoesTo(BranchCode(insn, rel), m, |BranchCode(insn, rel)| + if Takes(insn, regs) then rel else 0)
  }

  /** The registers that the deciding comparison names. */
  function CmpDst(insn: Insn): Gpr
  {
    var d, s := HostReg(insn.Dst()), HostReg(insn.Src());
    if insn.SrcIsReg() && insn.Op() == JSET then CrossedDst(Full(insn), d, s)
    else if insn.SrcIsReg() && Full(insn) then d else d % 8
  }

  function CmpSrc(insn: Insn): Gpr
  {
    var d, s := HostReg(insn.Dst()), HostReg(insn.Src());
    if insn.Op() == JSET then CrossedDst(Full(insn), s, d) else if Full(insn) then s else s % 8
  }

  /** They are the registers meant, or for JSET the same two in the other order. */
  predicate CmpNameable(insn: Insn)
  {
    var d, s := insn.Dst(), insn.Src();
    if !insn.SrcIsReg() then Low(d)
    else if !Full(insn) then Low(d) && Low(s)
    else insn.Op() == JSET ==> (Low(d) <==> Low(s)) || HostReg(d) % 8 == HostReg(s) % 8
  }

  /** The branch compares a register with itself or with the end of the range, and always holds. */
  predicate AlwaysTaken(insn: Insn)
  {
    var op, imm := insn.Op(), insn.imm;
    if insn.SrcIsReg() then insn.Src() == insn.Dst() && op in {JEQ, JGE, JLE, JSGE}
    else
      || (op == JGE && imm == 0)
      || (op == JLE && imm == -1)
      || (op == JSGE && !Full(insn) && imm == -0x8000_0000)
  }

  // ----- what the emitted code does -----

  /** The interpreter's condition, on any two values. */
  predicate Cond(insn: Insn, a: u64, b: u64)
  {
    var w := Full(insn);
    Taken(insn, Trunc(w, a), Trunc(w, b), Signed(w, a), Signed(w, b)) == Ok(true)
  }

  function NamedB(insn: Insn, file: File): u64 { if insn.SrcIsReg() then file[CmpSrc(insn)] else U64(insn.imm) }

  function MeantB(insn: Insn, regs: Regs): u64
    requires NamesRegs(insn)
  { if insn.SrcIsReg() then regs[insn.Src()] else U64(insn.imm) }

  lemma TakesIs(insn: Insn, regs: Regs)
    requires BranchForm(insn) && NamesRegs(insn)
    ensures Takes(insn, regs) <==> Cond(insn, regs[insn.Dst()], MeantB(insn, regs))
  {
    hide Taken;
    TruncOfWord(regs[insn.Dst()]);
    TruncOfWord(MeantB(insn, regs));
  }

  lemma CompareNames(insn: Insn)
    requires BranchForm(insn)
    ensures insn.Op() != JSET ==>
              CompareBytes(insn.Op(), insn.SrcIsReg(), HostReg(insn.Dst()), HostReg(insn.Src()), insn.imm, Full(insn))
              == if insn.SrcIsReg() then AluRR(0x39, CmpDst(insn), CmpSrc(insn), Full(insn)) else AluRI(7, CmpDst(insn), insn.imm, Full(insn))
  {
    hide AluRR, AluRI, HostReg;
    CompareLayout(insn.Op(), insn.SrcIsReg(), HostReg(insn.Dst()), HostReg(insn.Src()), insn.imm, Full(insn));
    ThreeBits(HostReg(insn.Dst()), HostReg(insn.Src()), 0x39, 7, insn.imm, Full(insn));
  }

  /** The `cmp` in front of the `test` of JSET only sets flags. */
  lemma RunAnyCmp(code: seq<u8>, m: Machine, x: bool, dst: Gpr, src: Gpr, imm: i32, w: bool) returns (m': Machine)
    requires m.rip >= 0 && Here(code, m.rip, if x then AluRR(0x39, dst, src, w) else AluRI(7, dst, imm, w))
    ensures X86.Run(code, m, 1) == Next(m') && m' == m.(flags := m'.flags, rip := m.rip + if x then |AluRR(0x39, dst, src, w)| else |AluRI(7, dst, imm, w)|)
  {
    hide AluRR, AluRI, Here, FlagsOf, X86.Run;
    var d, s := if w && x then dst else dst % 8, if w then src else src % 8;
    ThreeBits(dst, src, 0x39, 7, imm, w);
    m' := RunCmp(code, m, x, d, s, imm, w);
  }

  lemma RunAnyTest(code: seq<u8>, m: Machine, insn: Insn) returns (m': Machine)
    requires BranchForm(insn) && insn.Op() == JSET && m.rip >= 0
    requires Here(code, m.rip, TestBytes(insn.SrcIsReg(), HostReg(insn.Dst()), HostReg(insn.Src()), insn.imm, Full(insn)))
    ensures Sets(code, m, 1, m', FlagsOf(Test, Full(insn), m.regs[CmpDst(insn)], NamedB(insn, m.regs), m.flags),
                 |TestBytes(insn.SrcIsReg(), HostReg(insn.Dst()), HostReg(insn.Src()), insn.imm, Full(insn))|)
  {
    hide Decode, DecodeBody, Value, PrefixRR, UnaryF7, Imm4, ModRM, Here, FlagsOf, U64, HostReg, CrossedDst;
    var dst, src, imm, w := HostReg(insn.Dst()), HostReg(insn.Src()), insn.imm, Full(insn);
    var n := |TestBytes(insn.SrcIsReg(), dst, src, imm, w)|;
    if insn.SrcIsReg() {
      DecodeTestRR(code, m.rip, dst, src, w);
      m' := Arith(Test, w, CmpDst(insn), m.regs[CmpSrc(insn)], m.(rip := m.rip + n));
      OneStep(code, m, Rr(Test, w, CmpDst(insn), CmpSrc(insn)), n, m');
    } else {
      DecodeTestRI(code, m.rip, dst, imm, w);
      m' := Arith(Test, w, CmpDst(insn), U64(imm), m.(rip := m.rip + n));
      OneStep(code, m, Ri(Test, w, CmpDst(insn), imm), n, m');
    }
  }

  /** The comparison leaves the flags of the registers that are named. */
  lemma RunNamedCompare(code: seq<u8>, m: Machine, insn: Insn) returns (k: nat, m': Machine, before: Flags)
    requires BranchForm(insn) && m.rip >= 0
    requires Here(code, m.rip, CompareBytes(insn.Op(), insn.SrcIsReg(), HostReg(insn.Dst()), HostReg(insn.Src()), insn.imm, Full(insn)))
    ensures Sets(code, m, k, m', FlagsOf(FlagOp(insn.Op()), Full(insn), m.regs[CmpDst(insn)], NamedB(insn, m.regs), before),
                 |CompareBytes(insn.Op(), insn.SrcIsReg(), HostReg(insn.Dst()), HostReg(insn.Src()), insn.imm, Full(insn))|)
  {
    hide Value, AluRR, AluRI, Here, TestBytes, CompareBytes, X86.Run, FlagsOf, U64, HostReg, CmpDst, CmpSrc;
    var x, dst, src, imm, w := insn.SrcIsReg(), HostReg(insn.Dst()), HostReg(insn.Src()), insn.imm, Full(insn);
    CompareLayout(insn.Op(), x, dst, src, imm, w);
    if insn.Op() == JSET {
      var cmp, test := if x then AluRR(0x39, dst, src, w) else AluRI(7, dst, imm, w), TestBytes(x, dst, src, imm, w);
      HereSplit(code, m.rip, cmp, test);
      var m1 := RunAnyCmp(code, m, x, dst, src, imm, w);
      m' := RunAnyTest(code, m1, insn);
      Then(code, m, 1, m1, 1, m');
      k, before := 2, m1.flags;
    } else {
      CompareNames(insn);
      CmpSmall(insn);
      m' := RunCmp(code, m, x, CmpDst(insn), CmpSrc(insn), imm, w);
      k, before := 1, m.flags;
    }
  }

  lemma CmpSmall(insn: Insn)
    ensures insn.Op() != JSET && !(insn.SrcIsReg() && Full(insn)) ==> CmpDst(insn) < 8 && (!Full(insn) ==> CmpSrc(insn) < 8)
  {
  }

  /** The code goes where the condition on the named registers sends it. */
  lemma RunNamedBranch(insn: Insn, m: Machine, rel: i32) returns (k: nat, m': Machine)
    requires BranchForm(insn) && m.rip == 0
    ensures X86.Run(BranchCode(insn, rel), m, k) == Next(m') && m'.regs == m.regs
    ensures m'.rip == |BranchCode(insn, rel)| + if Cond(insn, m.regs[CmpDst(insn)], NamedB(insn, m.regs)) then rel else 0
  {
    hide Here, X86.Run, CompareBytes, FlagsOf, Imm4, HostReg, Trunc, Signed, U64, Taken, Holds, CmpDst, CmpSrc, NamedB;
    var op, w, code := insn.Op(), Full(insn), BranchCode(insn, rel);
    CondCodeValid(op);
    var cmp, jcc := CompareBytes(op, insn.SrcIsReg(), HostReg(insn.Dst()), HostReg(insn.Src()), insn.imm, w), [0x0F, CondCode(op)] + Imm4(rel);
    assert op != JA;
    assert code == cmp + jcc;
    WholeIsHere(code);
    HereSplit(code, 0, cmp, jcc);
    var k1, m1, before := RunNamedCompare(code, m, insn);
    ConditionMatches(insn, w, m.regs[CmpDst(insn)], NamedB(insn, m.regs), before);
    m' := RunJcc(code, m1, CondCode(op), rel);
    Then(code, m, k1, m1, 1, m');
    k := k1 + 1;
  }

  // ----- branches that are compiled correctly -----

  lemma CmpRegs(insn: Insn)
    requires BranchForm(insn)
    ensures CmpNameable(insn) ==>
              || (CmpDst(insn) == HostReg(insn.Dst()) && (insn.SrcIsReg() ==> CmpSrc(insn) == HostReg(insn.Src())))
              || (insn.Op() == JSET && insn.SrcIsReg() && CmpDst(insn) == HostReg(insn.Src()) && CmpSrc(insn) == HostReg(insn.Dst()))
  {
  }

  lemma CondSymmetric(insn: Insn, a: u64, b: u64)
    requires insn.Op() == JSET
    ensures Cond(insn, a, b) <==> Cond(insn, b, a)
  {
    Swap((x, y) => x && y, Trunc(Full(insn), a), Trunc(Full(insn), b));
  }

  lemma CondConstant(insn: Insn, a: u64, b: u64)
    requires BranchForm(insn) && (if insn.SrcIsReg() then insn.Src() == insn.Dst() && a == b else b == U64(insn.imm))
    ensures NeverTaken(insn) ==> !Cond(insn, a, b)
    ensures AlwaysTaken(insn) ==> Cond(insn, a, b)
  {
    hide And64, U64, U32;
    WrapOnce(a);
    WrapOnce(b);
    ImmediateReadings(insn.imm);
    AndZero(a);
    AndZero(U32(a));
  }

  lemma SameNames(insn: Insn)
    requires BranchForm(insn) && insn.SrcIsReg() && insn.Src() == insn.Dst()
    ensures CmpDst(insn) == CmpSrc(insn)
  {
  }

  lemma NamedConditionHolds(insn: Insn, m: Machine, regs: Regs)
    requires BranchForm(insn) && NamesRegs(insn) && (CmpNameable(insn) || NeverTaken(insn) || AlwaysTaken(insn)) && RegsMatch(regs, m.regs)
    ensures Cond(insn, m.regs[CmpDst(insn)], NamedB(insn, m.regs)) <==> Takes(insn, regs)
  {
    hide Cond, Takes, CmpNameable, NeverTaken, AlwaysTaken, CmpDst, CmpSrc, HostReg;
    var d, s := insn.Dst(), insn.Src();
    assert m.regs[HostReg(d)] == regs[d];
    if insn.SrcIsReg() { assert m.regs[HostReg(s)] == regs[s]; }
    TakesIs(insn, regs);
    if CmpNameable(insn) {
      CmpRegs(insn);
      if insn.Op() == JSET { CondSymmetric(insn, regs[d], MeantB(insn, regs)); }
    } else {
      ConstantIsSelf(insn);
      if insn.SrcIsReg() { SameNames(insn); }
      CondConstant(insn, regs[d], MeantB(insn, regs));
      CondConstant(insn, m.regs[CmpDst(insn)], NamedB(insn, m.regs));
    }
  }

  lemma ConstantIsSelf(insn: Insn)
    requires BranchForm(insn) && (NeverTaken(insn) || AlwaysTaken(insn))
    ensures insn.SrcIsReg() ==> insn.Src() == insn.Dst()
  {
  }

  // ----- branches that are not -----

  /** Registers that hold a in the destination, b in the source and z elsewhere. */
  function Three(insn: Insn, a: u64, b: u64, z: u64): (regs: Regs)
  { seq(REG_COUNT, r => if r == insn.Dst() then a else if insn.SrcIsReg() && r == insn.Src() then b else z) }

  function ThreeFile(insn: Insn, a: u64, b: u64, z: u64): (file: File)
  { seq(16, g => if g == HostReg(insn.Dst()) then a else if insn.SrcIsReg() && g == HostReg(insn.Src()) then b else z) }

  lemma ThreeMatches(insn: Insn, a: u64, b: u64, z: u64)
    requires BranchForm(insn)
    ensures RegsMatch(Three(insn, a, b, z), ThreeFile(insn, a, b, z))
  {
    forall r | 0 <= r < 10 ensures ThreeFile(insn, a, b, z)[HostReg(r)] == Three(insn, a, b, z)[r] {
      if HostReg(r) == HostReg(insn.Dst()) { HostRegInjective(r, insn.Dst()); }
      if insn.SrcIsReg() && HostReg(r) == HostReg(insn.Src()) { HostRegInjective(r, insn.Src()); }
    }
  }

  /** In such a state the code and the interpreter disagree. */
  predicate Differs(insn: Insn, a: u64, b: u64, z: u64)
    requires NamesRegs(insn)
  {
    var file := ThreeFile(insn, a, b, z);
    Cond(insn, file[CmpDst(insn)], NamedB(insn, file)) != Takes(insn, Three(insn, a, b, z))
  }

  /** A value for which an immediate comparison does not hold, if there is one. */
  function Unmet(insn: Insn): u64
  {
    var op, imm := insn.Op(), insn.imm;
    if op == JEQ then (if imm == 0 then 1 else 0)
    else if op == JNE then U64(imm)
    else if op == JLT || op == JLE then TWO64 - 1
    else if op == JSGT || op == JSGE then (if Full(insn) then U64(-0x8000_0001) else 0x8000_0000)
    else 0
  }

  lemma UnmetIsNotTaken(insn: Insn)
    requires BranchForm(insn) && !insn.SrcIsReg() && !AlwaysTaken(insn)
    ensures !Cond(insn, Unmet(insn), U64(insn.imm))
  {
    hide And64, U64, U32;
    ImmediateReadings(insn.imm);
    WrapOnce(U64(insn.imm));
    WrapOnce(-0x8000_0001);
    WrapOnce(TWO64 - 1);
    WrapOnce(0);
    WrapOnce(1);
    Residues();
    AndBound(0, U64(insn.imm));
    AndBound(0, U32(U64(insn.imm)));
  }

  lemma MetIsTaken(insn: Insn)
    requires BranchForm(insn) && NamesRegs(insn) && !insn.SrcIsReg() && !NeverTaken(insn)
    ensures Cond(insn, Witness(insn).0, U64(insn.imm))
  {
    hide Cond, Takes, Witness, NeverTaken;
    WitnessTakes(insn);
    TakesIs(insn, Where(insn));
  }

  lemma ImmediateDiffers(insn: Insn)
    requires BranchForm(insn) && NamesRegs(insn) && !insn.SrcIsReg() && !Low(insn.Dst()) && !NeverTaken(insn) && !AlwaysTaken(insn)
    ensures Differs(insn, Witness(insn).0, 0, Unmet(insn))
  {
    hide Cond, Takes, Witness, Unmet, NeverTaken, AlwaysTaken;
    MetIsTaken(insn);
    UnmetIsNotTaken(insn);
    var a, z := Witness(insn).0, Unmet(insn);
    TakesIs(insn, Three(insn, a, 0, z));
    LowHost(insn.Dst());
    assert CmpDst(insn) != HostReg(insn.Dst());
  }

  /** The conditions on the values 0 and 1. */
  lemma SmallConditions(insn: Insn)
    requires BranchForm(insn)
    ensures Cond(insn, 0, 0) <==> insn.Op() in {JEQ, JGE, JLE, JSGE}
    ensures Cond(insn, 1, 1) <==> insn.Op() in {JEQ, JGE, JLE, JSGE, JSET}
    ensures Cond(insn, 0, 1) <==> insn.Op() in {JNE, JLT, JLE}
    ensures Cond(insn, 1, 0) <==> insn.Op() in {JNE, JGT, JGE, JSGT, JSGE}
  {
    hide And64;
    AndOne();
    AndZero(0);
    AndZero(1);
    AndBound(0, 1);
  }

  /** Where the named registers get their values from, when they are not the ones meant. */
  lemma WrongNames(insn: Insn)
    requires BranchForm(insn) && insn.SrcIsReg() && !CmpNameable(insn)
    ensures var d, s, p, q := HostReg(insn.Dst()), HostReg(insn.Src()), CmpDst(insn), CmpSrc(insn);
            if d == s then p == q && p != d
            else
              || (p != d && p != s && q == s)
              || (p == d && q != d && q != s)
              || (p != d && p != s && q != d && q != s)
              || (p == s && q == s)
              || (p == d && q == d)
  {
  }

  /** Two different registers, at least one of them not named. */
  lemma PairDiffers(insn: Insn) returns (a: u64, b: u64, z: u64)
    requires BranchForm(insn) && NamesRegs(insn) && insn.SrcIsReg() && !CmpNameable(insn) && insn.Src() != insn.Dst()
    ensures Differs(insn, a, b, z)
  {
    hide Cond, Takes, CmpNameable, CmpDst, CmpSrc, HostReg;
    SmallConditions(insn);
    WrongNames(insn);
    var d, s, p, q := HostReg(insn.Dst()), HostReg(insn.Src()), CmpDst(insn), CmpSrc(insn);
    if d == s { HostRegInjective(insn.Dst(), insn.Src()); }
    var op := insn.Op();
    if p != d && p != s && q == s {
      // The code compares z with b, the interpreter a with b.
      b := if op in {JGE, JLT, JSGE, JSET} then 1 else 0;
      a, z := 0, 1;
    } else if p == d && q != d && q != s {
      a := if op in {JLE, JGT, JSGT, JSET} then 1 else 0;
      if op in {JLE, JGT, JSGT} { b, z := 0, 1; } else { b, z := 1, 0; }
    } else if p != d && p != s && q != d && q != s {
      z := 0;
      if op == JSET { a, b := 1, 1; } else if op in {JGT, JLE, JSGT, JEQ, JNE} { a, b := 1, 0; } else { a, b := 0, 1; }
    } else {
      z := 0;
      if op in {JGT, JLE, JSGT} { a, b := 1, 0; } else if op == JSET { if p == s { a, b := 0, 1; } else { a, b := 1, 0; } } else { a, b := 0, 1; }
    }
    TakesIs(insn, Three(insn, a, b, z));
  }

  /** One register, not named: only JSET depends on its value. */
  lemma SelfDiffers(insn: Insn)
    requires BranchForm(insn) && NamesRegs(insn) && insn.SrcIsReg() && !CmpNameable(insn) && insn.Src() == insn.Dst() && insn.Op() == JSET
    ensures Differs(insn, 1, 1, 0)
  {
    hide Cond, Takes, CmpNameable, CmpDst, CmpSrc, HostReg;
    SmallConditions(insn);
    WrongNames(insn);
    TakesIs(insn, Three(insn, 1, 1, 0));
  }

  lemma SelfIsConstant(insn: Insn)
    requires BranchForm(insn) && insn.SrcIsReg() && insn.Src() == insn.Dst() && insn.Op() != JSET
    ensures NeverTaken(insn) || AlwaysTaken(insn)
  {
  }

  lemma SomeStateDiffers(insn: Insn) returns (a: u64, b: u64, z: u64)
    requires BranchForm(insn) && NamesRegs(insn) && !CmpNameable(insn) && !NeverTaken(insn) && !AlwaysTaken(insn)
    ensures Differs(insn, a, b, z)
  {
    hide Differs, NeverTaken, AlwaysTaken, Low;
    if !insn.SrcIsReg() {
      a, b, z := Witness(insn).0, 0, Unmet(insn);
      ImmediateDiffers(insn);
    } else if insn.Src() != insn.Dst() {
      a, b, z := PairDiffers(insn);
    } else {
      if insn.Op() != JSET { SelfIsConstant(insn); }
      a, b, z := 1, 1, 0;
      SelfDiffers(insn);
    }
  }

  /** Code that has gone past its end goes nowhere else. */
  lemma OneWay(code: seq<u8>, m: Machine, a: nat, m1: Machine, k: nat, m': Machine)
    requires X86.Run(code, m, a) == Next(m1) && m1.rip >= |code| && X86.Run(code, m, k) == Next(m') && m'.rip >= |code|
    ensures m' == m1
  {
    hide X86.Run;
    if a < k { BeyondTheEnd(code, m, a, m1, k); } else if k < a { BeyondTheEnd(code, m, k, m', a); }
  }

  lemma BeyondTheEnd(code: seq<u8>, m: Machine, a: nat, m1: Machine, b: nat)
    requires X86.Run(code, m, a) == Next(m1) && m1.rip >= |code| && a < b
    ensures X86.Run(code, m, b) == Fault
  {
    hide Exec;
    RunAdd(code, m, a, b - a);
    assert X86.Step(code, m1) == Fault;
  }

  lemma BranchFails(insn: Insn, a: u64, b: u64, z: u64)
    requires BranchForm(insn) && NamesRegs(insn) && Differs(insn, a, b, z)
    ensures !BranchesCorrectly(insn)
  {
    hide X86.Run, BranchCode, Cond, Takes, CmpDst, CmpSrc;
    var m, regs := Machine(ThreeFile(insn, a, b, z), Undefined, map[], 0), Three(insn, a, b, z);
    ThreeMatches(insn, a, b, z);
    var code := BranchCode(insn, 1);
    var k1, m1 := RunNamedBranch(insn, m, 1);
    var p := |code| + if Takes(insn, regs) then 1 else 0;
    forall k, m' | X86.Run(code, m, k) == Next(m') ensures m'.rip != p {
      if m'.rip == p { OneWay(code, m, k1, m1, k, m'); }
    }
    assert !GoesTo(code, m, p);
  }

  /** A conditional branch for which code is emitted is compiled correctly exactly when the
      deciding comparison names the registers meant, or the outcome is always the same. */
  lemma BranchesExactly(insn: Insn)
    requires BranchForm(insn)
    ensures BranchesCorrectly(insn) <==> CmpNameable(insn) || NeverTaken(insn) || AlwaysTaken(insn)
  {
    hide X86.Run, BranchCode, Cond, Takes, CmpDst, CmpSrc, CmpNameable, NeverTaken, AlwaysTaken, Differs;
    if CmpNameable(insn) || NeverTaken(insn) || AlwaysTaken(insn) {
      forall m: Machine, regs: Regs, rel: i32 | m.rip == 0 && RegsMatch(regs, m.regs)
        ensures GoesTo(BranchCode(insn, rel), m, |BranchCode(insn, rel)| + if Takes(insn, regs) then rel else 0)
      {
        NamedConditionHolds(insn, m, regs);
        var k, m' := RunNamedBranch(insn, m, rel);
      }
    } else {
      var a, b, z := SomeStateDiffers(insn);
      BranchFails(insn, a, b, z);
    }
  }
}
