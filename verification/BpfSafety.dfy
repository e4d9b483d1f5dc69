/** Exactly which accepted programs run without a register index out of range, without leaving
    the program and without dividing by a constant zero. */
module BpfSafety {
  import opened Options
  import opened Words
  import opened BpfIsa
  import opened BpfVm
  import opened BpfVerifier

  // ----- branches that are never taken -----

  predicate Takes(insn: Insn, regs: Regs)
    requires NamesRegs(insn)
  {
    var d := regs[insn.Dst()];
    var b := if insn.SrcIsReg() then regs[insn.Src()] else U64(insn.imm);
    (if insn.Class() == JMP then Taken(insn, d, b, I64(d), I64(b))
     else Taken(insn, U32(d), U32(b), I32(U32(d)), I32(U32(b)))) == Ok(true)
  }

  predicate NamesRegs(insn: Insn) { insn.Dst() < REG_COUNT && (insn.SrcIsReg() ==> insn.Src() < REG_COUNT) }

  predicate Condition(op: nat) { op in {JEQ, JNE, JGT, JGE, JLT, JLE, JSGT, JSGE, JSLT, JSLE, JSET} }

  /** The condition compares a register with itself or with the end of the range, or there is none. */
  predicate NeverTaken(insn: Insn)
  {
    var op, imm := insn.Op(), insn.imm;
    || !Condition(op)
    || (insn.SrcIsReg() && insn.Src() == insn.Dst() && op in {JNE, JGT, JLT, JSGT, JSLT})
    || (!insn.SrcIsReg() &&
        (|| (op == JGT && imm == -1)
         || (op in {JLT, JSET} && imm == 0)
         || (op == JSGT && insn.Class() != JMP && imm == 0x7FFF_FFFF)
         || (op == JSLT && insn.Class() != JMP && imm == -0x8000_0000)))
  }

  /** Values of destination and source that make the branch taken, if any do. */
  function Witness(insn: Insn): (u64, u64)
  {
    var op, imm := insn.Op(), insn.imm;
    if op == JSET then (TWO64 - 1, TWO64 - 1)
    else if insn.SrcIsReg() then
      if op in {JNE, JGT, JSGT} then (1, 0) else if op in {JLT, JSLT} then (0, 1) else (0, 0)
    else if op in {JEQ, JSGE, JSLE} then (U64(imm), 0)
    else if op == JNE then (if imm == 0 then 1 else 0, 0)
    else if op in {JGT, JGE} then (TWO64 - 1, 0)
    else if op == JSGT then (if insn.Class() == JMP then 0x8000_0000 else 0x7FFF_FFFF, 0)
    else if op == JSLT then (if insn.Class() == JMP then U64(-0x8000_0001) else 0x8000_0000, 0)
    else (0, 0)
  }

  lemma ImmediateReadings(imm: i32)
    ensures U64(imm) == (if imm < 0 then imm + TWO64 else imm) && I64(U64(imm)) == imm
    ensures U32(U64(imm)) == (if imm < 0 then imm + TWO32 else imm) && I32(U32(U64(imm))) == imm
  {
    WrapOnce(imm);
  }

  lemma AllOnes(b: u64)
    ensures And64(TWO64 - 1, b) == b
    ensures b < TWO32 ==> And64(TWO32 - 1, b) == b
  {
    BitwiseUnits(b);
    if b < TWO32 {
      Pow2Values();
      OnesLeft((x, y) => x && y, 32, b);
    }
  }

  function Where(insn: Insn): (regs: Regs)
    requires NamesRegs(insn)
  {
    var (d, b) := Witness(insn);
    seq(REG_COUNT, r => if r == insn.Dst() then d else b)
  }

  lemma RegWitnessTakes(insn: Insn)
    requires NamesRegs(insn) && !NeverTaken(insn) && insn.SrcIsReg()
    ensures Takes(insn, Where(insn))
  {
    hide And64;
    AllOnes(TWO64 - 1);
    AllOnes(TWO32 - 1);
    assert Where(insn)[insn.Dst()] == Witness(insn).0;
  }

  lemma ImmWitnessTakes(insn: Insn)
    requires NamesRegs(insn) && !NeverTaken(insn) && !insn.SrcIsReg()
    ensures Takes(insn, Where(insn))
  {
    hide And64, U64, U32;
    ImmediateReadings(insn.imm);
    AllOnes(U64(insn.imm));
    AllOnes(U32(U64(insn.imm)));
    WrapOnce(-0x8000_0001);
    var d := Witness(insn).0;
    assert U32(0) == 0 && U32(1) == 1 && U32(TWO64 - 1) == TWO32 - 1 && U32(0x7FFF_FFFF) == 0x7FFF_FFFF && U32(0x8000_0000) == 0x8000_0000
      by { Residues(); }
    assert Where(insn)[insn.Dst()] == d;
  }

  lemma Residues()
    ensures U32(0) == 0 && U32(1) == 1 && U32(TWO64 - 1) == TWO32 - 1 && U32(0x7FFF_FFFF) == 0x7FFF_FFFF && U32(0x8000_0000) == 0x8000_0000
  {
  }

  lemma WitnessTakes(insn: Insn)
    requires NamesRegs(insn) && !NeverTaken(insn)
    ensures Takes(insn, Where(insn))
  {
    hide Takes, NeverTaken, Where;
    if insn.SrcIsReg() { RegWitnessTakes(insn); } else { ImmWitnessTakes(insn); }
  }

  lemma NoneTakes(insn: Insn, regs: Regs)
    requires NamesRegs(insn) && NeverTaken(insn)
    ensures !Takes(insn, regs)
  {
    hide And64, U64, U32;
    ImmediateReadings(insn.imm);
    AndZero(regs[insn.Dst()]);
    AndZero(U32(regs[insn.Dst()]));
  }

  /** A branch is taken from no register contents exactly when it is one of those above. */
  lemma NeverTakenIff(insn: Insn)
    requires NamesRegs(insn)
    ensures NeverTaken(insn) <==> forall regs: Regs :: !Takes(insn, regs)
  {
    hide Takes, NeverTaken;
    if NeverTaken(insn) {
      forall regs: Regs ensures !Takes(insn, regs) { NoneTakes(insn, regs); }
    } else {
      WitnessTakes(insn);
    }
  }

  // ----- slots that the checker does not look at -----

  /** The instruction in slot i reads registers without checking their numbers. */
  predicate Unchecked(prog: seq<Insn>, i: nat)
    requires i < |prog|
  {
    prog[i].Class() == JMP32 || (prog[i].Class() == JMP && prog[i].Op() != EXIT && prog[i].Op() != CALL && prog[i].Op() != JA)
  }

  predicate NamesRegisters(prog: seq<Insn>, i: nat)
    requires i < |prog|
  {
    Unchecked(prog, i) ==> NamesRegs(prog[i])
  }

  predicate StaysInside(prog: seq<Insn>, i: nat)
    requires i < |prog|
  {
    || 0 <= i + 1 + prog[i].off < |prog|
    || (if Unchecked(prog, i) then NeverTaken(prog[i]) else prog[i].Class() != JMP || prog[i].Op() != JA)
  }

  ghost predicate SafeSlots(prog: seq<Insn>)
  {
    && LddwEndsInside(prog)
    && forall i | 0 <= i < |prog| && !Scanned(prog, i) :: NamesRegisters(prog, i) && StaysInside(prog, i)
  }

  lemma BranchStep(prog: seq<Insn>, helpers: Helpers, s: Vm)
    requires s.pc < |prog| && Unchecked(prog, s.pc)
    ensures Step(prog, helpers, s) == ExecBranch(prog[s.pc], s.(steps := s.steps + 1), |prog|)
  {
    hide ExecBranch;
  }

  lemma JumpOutside(s: Vm, off: i16, len: nat)
    requires s.pc < len <= MAX_INSNS && !(0 <= s.pc + 1 + off < len)
    ensures JumpTo(s, off, len).Err? && JumpTo(s, off, len).error.UnreachableInstruction?
  {
    WrapOnce(s.pc + 1 + off);
  }

  /** What an unchecked branch does, in terms of the slot alone. */
  lemma BranchOutcome(insn: Insn, s: Vm, len: nat)
    requires s.pc + 1 < len <= MAX_INSNS && (insn.Class() == JMP || insn.Class() == JMP32)
    ensures ExecBranch(insn, s, len).Panic? <==> !NamesRegs(insn)
    ensures NamesRegs(insn) ==>
              (SafeResult(ExecBranch(insn, s, len), len) <==> (Takes(insn, s.regs) ==> 0 <= s.pc + 1 + insn.off < len))
  {
    hide Taken;
    if 0 <= s.pc + 1 + insn.off < len { JumpIsSafe(s, insn.off, len); } else { JumpOutside(s, insn.off, len); }
    if NamesRegs(insn) { TakenFails(insn, s.regs); }
  }

  lemma TakenFails(insn: Insn, regs: Regs)
    ensures forall d: u64, b: u64, x: int, y: int {:trigger Taken(insn, d, b, x, y)} ::
              !Taken(insn, d, b, x, y).Panic? && (Taken(insn, d, b, x, y).Err? ==> Taken(insn, d, b, x, y).error == InvalidOpcode(insn.opcode))
  {
  }

  lemma LastIsExit(prog: seq<Insn>, i: nat)
    requires Accepts(prog) && i < |prog|
    ensures i == |prog| - 1 ==> prog[i].IsExit()
    ensures |prog| <= MAX_INSNS
  {
  }

  lemma HiddenStepIsSafe(prog: seq<Insn>, helpers: Helpers, s: Vm)
    requires Accepts(prog) && LddwEndsInside(prog) && s.pc < |prog| && !Scanned(prog, s.pc)
    requires NamesRegisters(prog, s.pc) && StaysInside(prog, s.pc)
    ensures SafeStep(prog, helpers, s)
  {
    hide ExecAlu, ExecLdx, ExecStore, ExecBranch, Accepts, NeverTaken, Takes, JumpTo;
    var insn, n, s1 := prog[s.pc], |prog|, s.(steps := s.steps + 1);
    LastIsExit(prog, s.pc);
    if Unchecked(prog, s.pc) {
      BranchStep(prog, helpers, s);
      BranchOutcome(insn, s1, n);
      NeverTakenIff(insn);
    } else if insn.Class() == JMP {
      if insn.Op() == JA { JumpIsSafe(s1, insn.off, n); }
    } else if insn.Class() != LD {
      PlainIsSafe(insn, s1, n);
    }
  }

  lemma SlotIsSafe(prog: seq<Insn>, helpers: Helpers, s: Vm)
    requires Accepts(prog) && SafeSlots(prog) && s.pc < |prog|
    ensures SafeStep(prog, helpers, s)
  {
    hide Accepts, SafeStep, NamesRegisters, StaysInside;
    if Scanned(prog, s.pc) { ScannedStepIsSafe(prog, helpers, s); } else { HiddenStepIsSafe(prog, helpers, s); }
  }

  function AtSlot(i: nat, regs: Regs): Vm { Vm(regs, seq(STACK_SIZE, _ => 0), i, 0, true) }

  /** A slot that fails the condition is unsafe from some register contents. */
  lemma UnsafeSlot(prog: seq<Insn>, helpers: Helpers, i: nat) returns (s: Vm)
    requires Accepts(prog) && i < |prog| && !(NamesRegisters(prog, i) && StaysInside(prog, i))
    ensures s.pc == i && !SafeStep(prog, helpers, s)
    ensures !NamesRegisters(prog, i) ==> Step(prog, helpers, s).Panic?
  {
    hide ExecBranch, Accepts, Taken, NeverTaken, Witness;
    var insn := prog[i];
    LastIsExit(prog, i);
    s := AtSlot(i, if NamesRegs(insn) then Where(insn) else seq(REG_COUNT, _ => 0));
    if Unchecked(prog, i) {
      BranchStep(prog, helpers, s);
      BranchOutcome(insn, s.(steps := 1), |prog|);
      if NamesRegs(insn) { WitnessTakes(insn); }
    } else {
      JumpOutside(s.(steps := 1), insn.off, |prog|);
    }
  }

  lemma UnsafeEnd(prog: seq<Insn>, helpers: Helpers, s: Vm)
    requires |prog| >= 2 && s.pc == |prog| - 2 && !LddwEndsInside(prog)
    ensures !SafeStep(prog, helpers, s)
  {
  }

  /** Among accepted programs, exactly those whose unscanned slots satisfy the condition above,
      and that have no register-writing LDDW right before the last slot, stay inside the program
      and the register file from every state. */
  lemma SafeIffSafeSlots(prog: seq<Insn>)
    requires Accepts(prog)
    ensures (forall helpers: Helpers, s: Vm | s.pc < |prog| :: SafeStep(prog, helpers, s)) <==> SafeSlots(prog)
  {
    hide Accepts, SafeStep, NamesRegisters, StaysInside, LddwEndsInside;
    if SafeSlots(prog) {
      forall helpers: Helpers, s: Vm | s.pc < |prog| ensures SafeStep(prog, helpers, s) { SlotIsSafe(prog, helpers, s); }
    } else if !LddwEndsInside(prog) {
      EndHasTwo(prog);
      UnsafeEnd(prog, NO_HELPERS, AtSlot(|prog| - 2, seq(REG_COUNT, _ => 0)));
    } else {
      var i :| 0 <= i < |prog| && !Scanned(prog, i) && !(NamesRegisters(prog, i) && StaysInside(prog, i));
      var s := UnsafeSlot(prog, NO_HELPERS, i);
    }
  }

  lemma EndHasTwo(prog: seq<Insn>)
    ensures !LddwEndsInside(prog) ==> |prog| >= 2
  {
  }

  const NO_HELPERS: Helpers := (_, _, _) => None

  lemma CheckedDoesNotPanic(prog: seq<Insn>, helpers: Helpers, s: Vm)
    requires s.pc < |prog| && !Unchecked(prog, s.pc)
    ensures !Step(prog, helpers, s).Panic?
  {
  }

  lemma NamedDoesNotPanic(prog: seq<Insn>, helpers: Helpers, s: Vm)
    requires Accepts(prog) && s.pc < |prog| && NamesRegisters(prog, s.pc)
    ensures !Step(prog, helpers, s).Panic?
  {
    hide Accepts, ExecBranch, Step;
    LastIsExit(prog, s.pc);
    if Unchecked(prog, s.pc) {
      BranchStep(prog, helpers, s);
      BranchOutcome(prog[s.pc], s.(steps := s.steps + 1), |prog|);
    } else {
      CheckedDoesNotPanic(prog, helpers, s);
    }
  }

  lemma ScannedNamesRegisters(prog: seq<Insn>, i: nat)
    requires Accepts(prog) && i < |prog| && Scanned(prog, i)
    ensures NamesRegisters(prog, i)
  {
    assert Complaint(prog, i).None?;
  }

  /** Among accepted programs, exactly those whose unscanned branches name existing registers
      never index the register file out of range, from any state. */
  lemma NoPanicIff(prog: seq<Insn>)
    requires Accepts(prog)
    ensures (forall helpers: Helpers, s: Vm | s.pc < |prog| :: !Step(prog, helpers, s).Panic?)
            <==> forall i | 0 <= i < |prog| && !Scanned(prog, i) :: NamesRegisters(prog, i)
  {
    hide Accepts, Step, NamesRegisters, StaysInside;
    if forall i | 0 <= i < |prog| && !Scanned(prog, i) :: NamesRegisters(prog, i) {
      forall helpers: Helpers, s: Vm | s.pc < |prog| ensures !Step(prog, helpers, s).Panic? {
        if Scanned(prog, s.pc) { ScannedNamesRegisters(prog, s.pc); }
        NamedDoesNotPanic(prog, helpers, s);
      }
    } else {
      var i :| 0 <= i < |prog| && !Scanned(prog, i) && !NamesRegisters(prog, i);
      var s := UnsafeSlot(prog, NO_HELPERS, i);
    }
  }

  /** Every state of every run of an accepted program lies inside the program, and the run can
      go on safely from it, for any context, any stack contents and any helper results. */
  lemma {:induction false} AcceptedProgramsAreSafe(prog: seq<Insn>, helpers: Helpers, ctx: u64, stack: Stack, tr: seq<Vm>, k: nat)
    requires Accepts(prog) && SafeSlots(prog)
    requires IsRun(prog, helpers, tr) && tr[0] == Init(ctx, stack) && k < |tr|
    ensures tr[k].pc < |prog| && SafeStep(prog, helpers, tr[k])
  {
    if k > 0 {
      AcceptedProgramsAreSafe(prog, helpers, ctx, stack, tr, k - 1);
      assert Step(prog, helpers, tr[k - 1]) == Ok(tr[k]);
    }
    SlotIsSafe(prog, helpers, tr[k]);
  }

  lemma {:induction false} RunIsSafe(prog: seq<Insn>, helpers: Helpers, s: Vm)
    requires Accepts(prog) && SafeSlots(prog) && s.pc < |prog|
    ensures !Run(prog, helpers, s).Panic?
    ensures Run(prog, helpers, s).Err? ==> !Run(prog, helpers, s).error.UnreachableInstruction?
    decreases MAX_STEPS - s.steps
  {
    SlotIsSafe(prog, helpers, s);
    if s.running && s.steps < MAX_STEPS {
      var r := Step(prog, helpers, s);
      if r.Ok? { RunIsSafe(prog, helpers, r.value); }
    }
  }

  /** The rule that the checker documents but does not test is enough. */
  lemma RuleIsSafe(prog: seq<Insn>)
    requires Accepts(prog) && LddwRule(prog)
    ensures SafeSlots(prog)
  {
    RuleEndsInside(prog);
  }

  /** A branch over an LDDW into its second slot, which names register 15. */
  const INTO_LDDW: seq<Insn> := [Insn(0x05, 0, 1, 0), Insn(0x18, 0, 0, 0), Insn(0x15, 0x0f, 0, 0), Insn(0x95, 0, 0, 0)]

  lemma IntoLddwIsAccepted()
    ensures Accepts(INTO_LDDW) && !NamesRegisters(INTO_LDDW, 2)
  {
    var prog := INTO_LDDW;
    assert Scanned(prog, 0);
    assert Scanned(prog, 1);
    assert !Scanned(prog, 2);
    assert Scanned(prog, 3);
  }

  lemma IntoLddwSteps(helpers: Helpers, s: Vm)
    requires s.pc == 0 || s.pc == 2
    ensures Step(INTO_LDDW, helpers, s) == if s.pc == 0 then Ok(s.(pc := 2, steps := s.steps + 1)) else Panic(15)
  {
  }

  /** The documented rule is needed: the checker accepts a program that a branch into the slot
      after an LDDW drives to a register index of 15. */
  lemma LddwRuleIsNeeded(helpers: Helpers, stack: Stack)
    ensures Accepts(INTO_LDDW) && !NamesRegisters(INTO_LDDW, 2)
    ensures Run(INTO_LDDW, helpers, Init(0, stack)) == Panic(15)
  {
    hide Step, Accepts, LddwRule;
    IntoLddwIsAccepted();
    var s := Init(0, stack);
    IntoLddwSteps(helpers, s);
    IntoLddwSteps(helpers, s.(pc := 2, steps := 1));
    RunStep(INTO_LDDW, helpers, s, Ok(s.(pc := 2, steps := 1)));
    RunStep(INTO_LDDW, helpers, s.(pc := 2, steps := 1), Panic(15));
  }

  // ----- division -----

  /** Slot i divides by a constant zero. */
  predicate DividesByConstantZero(prog: seq<Insn>, i: nat)
    requires i < |prog|
  {
    var insn := prog[i];
    (insn.Class() == ALU || insn.Class() == ALU64) && Writable(insn.Dst()) && insn.Op() in {DIV, MOD} && !insn.SrcIsReg() && insn.imm == 0
  }

  /** The divisor that the instruction uses, if it names one. */
  function Divisor(insn: Insn, regs: Regs): Option<u64>
  {
    if insn.SrcIsReg() && insn.Src() >= REG_COUNT then None
    else
      var b := if insn.SrcIsReg() then regs[insn.Src()] else U64(insn.imm);
      Some(if insn.Class() == ALU64 then b else U32(b))
  }

  lemma AluDivision(insn: Insn, s: Vm)
    requires insn.Class() == ALU || insn.Class() == ALU64
    ensures ExecAlu(insn, s) == Err(DivisionByZero)
            <==> Writable(insn.Dst()) && insn.Op() in {DIV, MOD} && Divisor(insn, s.regs) == Some(0)
  {
    hide Or64, And64, Xor64, SwapBytes, Quotient, Remainder, Pow2;
  }

  lemma OthersDoNotDivide(prog: seq<Insn>, helpers: Helpers, s: Vm)
    requires s.pc < |prog| && prog[s.pc].Class() != ALU && prog[s.pc].Class() != ALU64
    ensures Step(prog, helpers, s) != Err(DivisionByZero)
  {
  }

  /** A step fails with a division by zero exactly when it divides and the divisor, in the width
      of the operation, is zero. */
  lemma DivisionFailsIff(prog: seq<Insn>, helpers: Helpers, s: Vm)
    requires s.pc < |prog|
    ensures var insn := prog[s.pc];
            Step(prog, helpers, s) == Err(DivisionByZero)
            <==> (insn.Class() == ALU || insn.Class() == ALU64) && Writable(insn.Dst()) && insn.Op() in {DIV, MOD} && Divisor(insn, s.regs) == Some(0)
  {
    hide ExecAlu, Divisor;
    var insn := prog[s.pc];
    if insn.Class() == ALU || insn.Class() == ALU64 {
      AluDivision(insn, s.(steps := s.steps + 1));
    } else {
      OthersDoNotDivide(prog, helpers, s);
    }
  }

  /** The test that the documentation lists is exact: the slots it would refuse are those with an
      immediate operand that fail with a division by zero from some state, and they fail from all. */
  lemma ConstantDivisorIff(prog: seq<Insn>, helpers: Helpers, s: Vm)
    requires s.pc < |prog| && !prog[s.pc].SrcIsReg()
    ensures Step(prog, helpers, s) == Err(DivisionByZero) <==> DividesByConstantZero(prog, s.pc)
  {
    hide Step;
    DivisionFailsIff(prog, helpers, s);
    ImmediateReadings(prog[s.pc].imm);
  }

  /** A run that fails with e has visited a state whose next step fails with e. */
  lemma {:induction false} RunFails(prog: seq<Insn>, helpers: Helpers, s: Vm) returns (tr: seq<Vm>)
    requires Run(prog, helpers, s) == Err(DivisionByZero)
    ensures IsRun(prog, helpers, tr) && tr[0] == s
    ensures var t := tr[|tr| - 1]; t.pc < |prog| && Step(prog, helpers, t) == Err(DivisionByZero)
    decreases MAX_STEPS - s.steps
  {
    hide Step;
    var r := Step(prog, helpers, s);
    if r.Ok? {
      var rest := RunFails(prog, helpers, r.value);
      tr := [s] + rest;
      forall i | 0 <= i < |tr| - 1
        ensures tr[i].running && tr[i].pc < |prog| && Step(prog, helpers, tr[i]) == Ok(tr[i + 1])
      {
        if i > 0 { assert tr[i] == rest[i - 1] && tr[i + 1] == rest[i]; }
      }
    } else {
      tr := [s];
    }
  }

  /** A program without a constant zero divisor fails with a division by zero only in a state
      where a register that it divides by holds zero. */
  lemma OnlyRegistersDivideByZero(prog: seq<Insn>, helpers: Helpers, s: Vm) returns (tr: seq<Vm>)
    requires Run(prog, helpers, s) == Err(DivisionByZero)
    requires forall i | 0 <= i < |prog| :: !DividesByConstantZero(prog, i)
    ensures IsRun(prog, helpers, tr) && tr[0] == s
    ensures var t := tr[|tr| - 1];
            t.pc < |prog| && prog[t.pc].SrcIsReg() && prog[t.pc].Op() in {DIV, MOD} && Divisor(prog[t.pc], t.regs) == Some(0)
  {
    hide Step, Run, DividesByConstantZero, Divisor;
    tr := RunFails(prog, helpers, s);
    var t := tr[|tr| - 1];
    DivisionFailsIff(prog, helpers, t);
    if !prog[t.pc].SrcIsReg() { ConstantDivisorIff(prog, helpers, t); }
  }

  const DIVIDE_BY_ZERO: seq<Insn> := [Insn(0x37, 0, 0, 0), Insn(0x95, 0, 0, 0)]

  /** The documentation lists a check for division by a constant zero, but there is none: such a
      program is accepted and fails when it runs. */
  lemma DivisionByZeroIsAccepted(helpers: Helpers, ctx: u64, stack: Stack)
    ensures Accepts(DIVIDE_BY_ZERO) && DividesByConstantZero(DIVIDE_BY_ZERO, 0)
    ensures Run(DIVIDE_BY_ZERO, helpers, Init(ctx, stack)) == Err(DivisionByZero)
  {
    var prog, s := DIVIDE_BY_ZERO, Init(ctx, stack);
    assert Scanned(prog, 0) && Scanned(prog, 1);
    RunStep(prog, helpers, s, Err(DivisionByZero));
  }
}
