/** Exactly which accepted programs only ever move forward, and that those end within one step
    per slot. */
module BpfTermination {
  import opened Words
  import opened BpfIsa
  import opened BpfVm
  import opened BpfVerifier
  import opened BpfSafety

  /** Executing the next instruction stops the machine, fails, or moves the program counter forward. */
  ghost predicate ForwardStep(prog: seq<Insn>, helpers: Helpers, s: Vm)
    requires s.pc < |prog|
  {
    ForwardResult(Step(prog, helpers, s), s.pc)
  }

  ghost predicate ForwardResult(r: Outcome<Vm>, pc: nat) { r.Ok? && r.value.running ==> pc < r.value.pc }

  /** Slot i has no jump back into the program, or one that is never made. */
  predicate NoJumpBack(prog: seq<Insn>, i: nat)
    requires i < |prog|
  {
    || prog[i].off >= 0
    || i + 1 + prog[i].off < 0
    || (if Unchecked(prog, i) then !NamesRegs(prog[i]) || NeverTaken(prog[i]) else prog[i].Class() != JMP || prog[i].Op() != JA)
  }

  ghost predicate ForwardSlots(prog: seq<Insn>) { forall i | 0 <= i < |prog| :: NoJumpBack(prog, i) }

  // ----- single steps -----

  /** Where a branch leads, if it names existing registers. */
  lemma BranchMoves(insn: Insn, s: Vm, len: nat)
    requires s.pc + 1 < len <= MAX_INSNS && (insn.Class() == JMP || insn.Class() == JMP32)
    ensures var r := ExecBranch(insn, s, len);
            && (r.Ok? ==> NamesRegs(insn) && r.value.running == s.running)
            && (NamesRegs(insn) && Takes(insn, s.regs) && 0 <= s.pc + 1 + insn.off < len ==> r == Ok(s.(pc := s.pc + 1 + insn.off)))
            && (r.Ok? && !(Takes(insn, s.regs) && 0 <= s.pc + 1 + insn.off < len) ==> r.value.pc == s.pc + 1)
  {
    hide Taken;
    if 0 <= s.pc + 1 + insn.off < len { JumpIsSafe(s, insn.off, len); } else { JumpOutside(s, insn.off, len); }
  }

  lemma JaStep(prog: seq<Insn>, helpers: Helpers, s: Vm)
    requires s.pc < |prog| && prog[s.pc].Class() == JMP && prog[s.pc].Op() == JA
    ensures Step(prog, helpers, s) == JumpTo(s.(steps := s.steps + 1), prog[s.pc].off, |prog|)
  {
    hide JumpTo;
  }

  /** Everything but jumps and branches goes on to a later slot or stops. */
  lemma OthersMoveForward(prog: seq<Insn>, helpers: Helpers, s: Vm)
    requires s.pc < |prog| && !Unchecked(prog, s.pc) && !(prog[s.pc].Class() == JMP && prog[s.pc].Op() == JA)
    ensures ForwardStep(prog, helpers, s)
  {
    hide Alu64, Alu32, Load, Store, Address;
  }

  lemma SlotMovesForward(prog: seq<Insn>, helpers: Helpers, s: Vm)
    requires Accepts(prog) && s.pc < |prog| && NoJumpBack(prog, s.pc)
    ensures ForwardStep(prog, helpers, s)
  {
    hide Accepts, Step, ExecBranch, JumpTo, NeverTaken, Takes;
    var insn, s1 := prog[s.pc], s.(steps := s.steps + 1);
    LastIsExit(prog, s.pc);
    if Unchecked(prog, s.pc) {
      BranchStep(prog, helpers, s);
      BranchMoves(insn, s1, |prog|);
      if NamesRegs(insn) { NeverTakenIff(insn); }
    } else if insn.Class() == JMP && insn.Op() == JA {
      JaStep(prog, helpers, s);
      if 0 <= s.pc + 1 + insn.off < |prog| { JumpIsSafe(s1, insn.off, |prog|); } else { JumpOutside(s1, insn.off, |prog|); }
    } else {
      OthersMoveForward(prog, helpers, s);
    }
  }

  /** A slot with a jump back that can be made does not move forward from some register contents. */
  lemma SlotJumpsBack(prog: seq<Insn>, helpers: Helpers, i: nat) returns (s: Vm)
    requires Accepts(prog) && i < |prog| && !NoJumpBack(prog, i)
    ensures s.pc == i && s.running && !ForwardStep(prog, helpers, s)
  {
    hide Accepts, Step, ExecBranch, JumpTo, NeverTaken, Takes, Where;
    var insn := prog[i];
    LastIsExit(prog, i);
    s := AtSlot(i, if NamesRegs(insn) then Where(insn) else seq(REG_COUNT, _ => 0));
    if Unchecked(prog, i) {
      BranchStep(prog, helpers, s);
      WitnessTakes(insn);
      BranchMoves(insn, s.(steps := 1), |prog|);
    } else {
      JaStep(prog, helpers, s);
      JumpIsSafe(s.(steps := 1), insn.off, |prog|);
    }
  }

  /** Among accepted programs, exactly those in which no slot can jump back, scanned or not, move
      forward at every step from every state. */
  lemma ForwardIffForwardSlots(prog: seq<Insn>)
    requires Accepts(prog)
    ensures (forall helpers: Helpers, s: Vm | s.pc < |prog| && s.running :: ForwardStep(prog, helpers, s)) <==> ForwardSlots(prog)
  {
    hide Accepts, ForwardStep, NoJumpBack;
    if ForwardSlots(prog) {
      forall helpers: Helpers, s: Vm | s.pc < |prog| && s.running ensures ForwardStep(prog, helpers, s) {
        SlotMovesForward(prog, helpers, s);
      }
    } else {
      var i :| 0 <= i < |prog| && !NoJumpBack(prog, i);
      var s := SlotJumpsBack(prog, NO_HELPERS, i);
    }
  }

  // ----- runs -----

  lemma StepErrors(prog: seq<Insn>, helpers: Helpers, s: Vm)
    requires s.pc < |prog|
    ensures Step(prog, helpers, s).Err? ==> Step(prog, helpers, s).error != ExceededStepLimit
  {
  }

  /** Bounds after one step, in the terms of the termination argument. */
  lemma StepCount(prog: seq<Insn>, helpers: Helpers, s: Vm) returns (r: Outcome<Vm>)
    requires Accepts(prog) && ForwardSlots(prog) && s.running && s.pc < |prog| && s.steps <= s.pc
    ensures Run(prog, helpers, s) == if r.Ok? then Run(prog, helpers, r.value) else r
    ensures r.Err? ==> r.error != ExceededStepLimit
    ensures r.Ok? && !r.value.running ==> r.value.steps <= |prog| && Run(prog, helpers, s) == r
    ensures r.Ok? && r.value.running ==> s.pc < r.value.pc && r.value.steps <= r.value.pc
  {
    hide Step, Run, NoJumpBack, CleanBelow;
    r := Step(prog, helpers, s);
    RunStep(prog, helpers, s, r);
    SlotMovesForward(prog, helpers, s);
    StepErrors(prog, helpers, s);
  }

  lemma RunOutside(prog: seq<Insn>, helpers: Helpers, s: Vm)
    requires s.running && s.pc >= |prog|
    ensures Run(prog, helpers, s) == Err(UnreachableInstruction(s.pc))
  {
  }

  /** Such a program ends within one step per slot and never meets the step limit. */
  lemma {:induction false} ForwardProgramsTerminate(prog: seq<Insn>, helpers: Helpers, s: Vm)
    requires Accepts(prog) && ForwardSlots(prog) && s.running && s.steps <= s.pc
    ensures var r := Run(prog, helpers, s);
            && (r.Ok? ==> r.value.steps <= |prog|)
            && (r.Err? ==> r.error != ExceededStepLimit)
    decreases |prog| - s.pc
  {
    hide Run, Accepts, ForwardSlots;
    if s.pc >= |prog| {
      RunOutside(prog, helpers, s);
    } else {
      var r := StepCount(prog, helpers, s);
      if r.Ok? && r.value.running { ForwardProgramsTerminate(prog, helpers, r.value); }
    }
  }

  // ----- under the documented LDDW rule -----

  /** No JA that the checker looks at leads back. */
  ghost predicate NoBackwardJa(prog: seq<Insn>)
  {
    forall i | 0 <= i < |prog| && Scanned(prog, i) && prog[i].Class() == JMP && prog[i].Op() == JA :: prog[i].off >= 0
  }

  lemma ScannedJumpsBack(prog: seq<Insn>, i: nat)
    requires Accepts(prog) && i < |prog| && Scanned(prog, i)
    ensures NoJumpBack(prog, i) <==> (prog[i].Class() == JMP && prog[i].Op() == JA ==> prog[i].off >= 0)
  {
    assert Complaint(prog, i).None?;
  }

  /** If the second slots of all LDDW have opcode 0, only a backward JA can be in the way. */
  lemma ForwardUnderRule(prog: seq<Insn>)
    requires Accepts(prog) && LddwRule(prog)
    ensures ForwardSlots(prog) <==> NoBackwardJa(prog)
  {
    hide Accepts, NoJumpBack;
    forall i | 0 <= i < |prog|
      ensures NoJumpBack(prog, i) <==> (Scanned(prog, i) && prog[i].Class() == JMP && prog[i].Op() == JA ==> prog[i].off >= 0)
    {
      if Scanned(prog, i) { ScannedJumpsBack(prog, i); } else { EmptySlot(prog, i); }
    }
  }

  lemma EmptySlot(prog: seq<Insn>, i: nat)
    requires i < |prog| && prog[i].opcode == 0
    ensures NoJumpBack(prog, i)
  {
  }

  // ----- programs that do not end -----

  lemma {:induction false} SpinsForever(prog: seq<Insn>, helpers: Helpers, s: Vm)
    requires s.pc < |prog| <= MAX_INSNS && prog[s.pc] == Insn(0x05, 0, -1, 0)
    requires s.running && s.steps <= MAX_STEPS
    ensures Run(prog, helpers, s) == Err(ExceededStepLimit)
    decreases MAX_STEPS - s.steps
  {
    if s.steps < MAX_STEPS {
      assert Step(prog, helpers, s) == Ok(s.(steps := s.steps + 1));
      SpinsForever(prog, helpers, s.(steps := s.steps + 1));
    }
  }

  /** The documentation says that backward branches are rejected, but an unconditional one is
      accepted and runs into the step limit. */
  lemma BackwardJaIsAccepted(helpers: Helpers, ctx: u64, stack: Stack)
    ensures var prog := [Insn(0x05, 0, -1, 0), Insn(0x95, 0, 0, 0)];
            && Accepts(prog) && LddwRule(prog) && !NoBackwardJa(prog)
            && Run(prog, helpers, Init(ctx, stack)) == Err(ExceededStepLimit)
  {
    var prog := [Insn(0x05, 0, -1, 0), Insn(0x95, 0, 0, 0)];
    assert Scanned(prog, 0) && Scanned(prog, 1);
    SpinsForever(prog, helpers, Init(ctx, stack));
  }

  /** A branch over an LDDW into its second slot, which jumps to itself. */
  const HIDDEN_LOOP: seq<Insn> := [Insn(0x05, 0, 1, 0), Insn(0x18, 0, 0, 0), Insn(0x05, 0, -1, 0), Insn(0x95, 0, 0, 0)]

  lemma HiddenLoopIsAccepted()
    ensures Accepts(HIDDEN_LOOP) && NoBackwardJa(HIDDEN_LOOP) && !ForwardSlots(HIDDEN_LOOP)
  {
    var prog := HIDDEN_LOOP;
    assert Scanned(prog, 0) && Scanned(prog, 1) && !Scanned(prog, 2) && Scanned(prog, 3);
    assert !NoJumpBack(prog, 2);
  }

  /** Looking at the scanned slots alone is not enough: a backward JA in the second slot of an
      LDDW also runs into the step limit. */
  lemma HiddenLoopSpins(helpers: Helpers, ctx: u64, stack: Stack)
    ensures Accepts(HIDDEN_LOOP) && NoBackwardJa(HIDDEN_LOOP)
    ensures Run(HIDDEN_LOOP, helpers, Init(ctx, stack)) == Err(ExceededStepLimit)
  {
    hide Accepts, NoBackwardJa, Run;
    HiddenLoopIsAccepted();
    var s := Init(ctx, stack);
    var s1 := s.(pc := 2, steps := 1);
    assert Step(HIDDEN_LOOP, helpers, s) == Ok(s1);
    RunStep(HIDDEN_LOOP, helpers, s, Ok(s1));
    SpinsForever(HIDDEN_LOOP, helpers, s1);
  }
}
