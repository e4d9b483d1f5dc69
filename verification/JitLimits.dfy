/** Where the compiled code of whole programs departs from the interpreter, and exactly when it
    does not. */
module JitLimits {
  import opened Words
  import opened BpfIsa
  import opened BpfVm
  import opened BpfVerifier
  import opened BpfSafety
  import opened Jit
  import opened JitSim
  import opened JitLink
  import opened JitProof
  import Linker
  import X86
  import opened X86Names = X86

  /** Copies register r to R0 and returns. */
  function ReturnReg(r: nat): (prog: seq<Insn>)
    requires r < 10
  { [Insn(0xbf, r * 16, 0, 0), Insn(0x95, 0, 0, 0)] }

  lemma ReturnRegInFragment(r: nat)
    requires r < 10
    ensures InFragment(ReturnReg(r))
  {
    var prog := ReturnReg(r);
    assert Scanned(prog, 0) && Scanned(prog, 1);
    assert prog[0].Dst() == 0 && prog[0].Src() == r;
  }

  lemma ReturnRegResult(r: nat, helpers: Helpers, s: Vm)
    requires r < 10 && s.running && s.pc == 0 && s.steps == 0
    ensures var v := BpfVm.Run(ReturnReg(r), helpers, s); v.Ok? && v.value.regs[0] == s.regs[r]
  {
    var prog := ReturnReg(r);
    assert prog[0].Dst() == 0 && prog[0].Src() == r;
    var s1 := s.(regs := s.regs[0 := s.regs[r]], pc := 1, steps := 1);
    assert BpfVm.Step(prog, helpers, s) == Ok(s1);
    RunStep(prog, helpers, s, Ok(s1));
    RunStep(prog, helpers, s1, Ok(s1.(steps := 2, running := false)));
  }

  /** The compiled code returns the interpreter's result for ctx, if both interpreter runs end. */
  ghost predicate SameResult(prog: seq<Insn>, table: HelperTable, helpers: Helpers, ctx: u64, stack: Stack, e: Machine)
    requires JumpsResolve(prog)
  {
    var r := BpfVm.Run(prog, helpers, Init(ctx, stack));
    r.Ok? && BpfVm.Run(prog, helpers, Entered(e, stack)).Ok? ==> Yields(Code(prog, table), e, r.value.regs[0])
  }

  lemma MismatchShows(table: HelperTable, helpers: Helpers, ctx: u64, stack: Stack, e: Machine, r: nat)
    requires AtEntry(e) && r < 10 && Init(ctx, stack).regs[r] != e.regs[HostReg(r)]
    ensures InFragment(ReturnReg(r)) && JumpsResolve(ReturnReg(r)) && !SameResult(ReturnReg(r), table, helpers, ctx, stack, e)
  {
    hide BpfVm.Run, Code, Yields, InFragment, ReturnReg;
    ReturnRegInFragment(r);
    ReturnRegResult(r, helpers, Init(ctx, stack));
    ReturnRegResult(r, helpers, Entered(e, stack));
    CompiledResultIff(ReturnReg(r), table, helpers, ctx, stack, e);
  }

  /** The compiled code does not set the registers that the interpreter clears, so a call gives the
      interpreter's results for all programs exactly when it finds R0 to R9 as the interpreter
      would set them. The call that the kernel makes sets only the first argument register. */
  lemma EntryRegistersMatter(table: HelperTable, helpers: Helpers, ctx: u64, stack: Stack, e: Machine)
    requires AtEntry(e)
    ensures (forall prog | InFragment(prog) :: JumpsResolve(prog) && SameResult(prog, table, helpers, ctx, stack, e))
            <==> RegsMatch(Init(ctx, stack).regs, e.regs)
  {
    hide BpfVm.Run, Code, Yields, InFragment;
    if RegsMatch(Init(ctx, stack).regs, e.regs) {
      forall prog | InFragment(prog) ensures JumpsResolve(prog) && SameResult(prog, table, helpers, ctx, stack, e) {
        FragmentAccepted(prog);
        FragmentResolves(prog);
        if BpfVm.Run(prog, helpers, Init(ctx, stack)).Ok? { MatchingEntryIsCorrect(prog, table, helpers, ctx, stack, e); }
      }
    } else {
      var r :| 0 <= r < 10 && Init(ctx, stack).regs[r] != e.regs[HostReg(r)];
      MismatchShows(table, helpers, ctx, stack, e, r);
    }
  }

  lemma CodeIs(prog: seq<Insn>, table: HelperTable)
    requires JumpsResolve(prog)
    ensures Linker.Resolvable(Pieces(prog, table), |prog|)
    ensures Code(prog, table) == Linker.Linked(Prologue(), Pieces(prog, table), |prog|)
  {
    ResolvesIff(prog, table);
  }

  /** No code is emitted for a signed less-than branch. */
  lemma SignedLessIsDropped(insn: Insn, table: HelperTable)
    requires (insn.Class() == JMP || insn.Class() == JMP32) && (insn.Op() == JSLT || insn.Op() == JSLE)
    ensures Emit(insn, table) == [] && !HasFixup(insn)
  {
  }

  /** The interpreter goes on to the next slot from every state, as the missing code does. */
  ghost predicate FallsThrough(insn: Insn)
  {
    forall s: Vm, len: nat | s.pc + 1 < len < TWO32 && 0 <= s.pc + 1 + insn.off < len :: Falls(insn, s, len)
  }

  predicate Falls(insn: Insn, s: Vm, len: nat) { ExecBranch(insn, s, len) == Ok(s.(pc := s.pc + 1)) }

  lemma FallsUnlessTaken(insn: Insn, s: Vm, len: nat)
    requires (insn.Class() == JMP || insn.Class() == JMP32) && (insn.Op() == JSLT || insn.Op() == JSLE) && NamesRegs(insn)
    requires s.pc + 1 < len < TWO32 && 0 <= s.pc + 1 + insn.off < len
    ensures Falls(insn, s, len) <==> (Takes(insn, s.regs) ==> insn.off == 0)
  {
    WrapOnce(s.pc + 1 + insn.off);
    assert JumpTo(s, insn.off, len) == Ok(s.(pc := s.pc + 1 + insn.off));
  }

  /** Dropping the branch is harmless exactly when it leads to the next slot anyway or is never taken. */
  lemma DroppedBranchIsHarmlessIff(insn: Insn)
    requires (insn.Class() == JMP || insn.Class() == JMP32) && (insn.Op() == JSLT || insn.Op() == JSLE) && NamesRegs(insn)
    ensures FallsThrough(insn) <==> insn.off == 0 || NeverTaken(insn)
  {
    hide Falls, Takes, NeverTaken;
    NeverTakenIff(insn);
    if insn.off == 0 || NeverTaken(insn) {
      forall s: Vm, len: nat | s.pc + 1 < len < TWO32 && 0 <= s.pc + 1 + insn.off < len ensures Falls(insn, s, len) {
        FallsUnlessTaken(insn, s, len);
      }
    } else {
      var regs: Regs :| Takes(insn, regs);
      var s := Vm(regs, seq(STACK_SIZE, _ => 0), if insn.off < 0 then 0 - insn.off as int else 0, 0, true);
      FallsUnlessTaken(insn, s, 0x1_0000);
    }
  }

  const SKIP_MOV: seq<Insn> := [Insn(0xc5, 0, 1, 1), Insn(0xb7, 0, 0, 7), Insn(0x95, 0, 0, 0)]
  const ONLY_MOV: seq<Insn> := [Insn(0xb7, 0, 0, 7), Insn(0x95, 0, 0, 0)]

  lemma InterpretSkipMov(helpers: Helpers, ctx: u64, stack: Stack)
    ensures Accepts(SKIP_MOV) && LddwRule(SKIP_MOV)
    ensures BpfVm.Run(SKIP_MOV, helpers, Init(ctx, stack)) == Ok(Init(ctx, stack).(pc := 2, steps := 2, running := false))
  {
    var prog, s := SKIP_MOV, Init(ctx, stack);
    assert Scanned(prog, 0) && Scanned(prog, 1) && Scanned(prog, 2);
    var s1 := s.(pc := 2, steps := 1);
    assert BpfVm.Step(prog, helpers, s) == Ok(s1);
    RunStep(prog, helpers, s, Ok(s1));
    RunStep(prog, helpers, s1, Ok(s1.(steps := 2, running := false)));
  }

  lemma InterpretOnlyMov(helpers: Helpers, ctx: u64, stack: Stack)
    ensures InFragment(ONLY_MOV)
    ensures var r := BpfVm.Run(ONLY_MOV, helpers, Init(ctx, stack)); r.Ok? && r.value.regs[0] == 7
  {
    var prog, s := ONLY_MOV, Init(ctx, stack);
    assert Scanned(prog, 0) && Scanned(prog, 1);
    var s1 := s.(regs := s.regs[0 := 7], pc := 1, steps := 1);
    assert BpfVm.Step(prog, helpers, s) == Ok(s1);
    RunStep(prog, helpers, s, Ok(s1));
    RunStep(prog, helpers, s1, Ok(s1.(steps := 2, running := false)));
  }

  lemma SameCode(table: HelperTable)
    requires JumpsResolve(SKIP_MOV) && JumpsResolve(ONLY_MOV)
    ensures Code(SKIP_MOV, table) == Code(ONLY_MOV, table)
  {
    hide Prologue, Emit;
    var ps, qs := Pieces(SKIP_MOV, table), Pieces(ONLY_MOV, table);
    CodeIs(SKIP_MOV, table);
    CodeIs(ONLY_MOV, table);
    SignedLessIsDropped(SKIP_MOV[0], table);
    assert !HasFixup(SKIP_MOV[1]) && !HasFixup(SKIP_MOV[2]);
    var p := Prologue();
    assert Linker.Linked(p, ps, 1) == p + [];
    assert Linker.Linked(p, ps, 2) == p + Emit(SKIP_MOV[1], table) == Linker.Linked(p, qs, 1);
    assert Linker.Linked(p, ps, 3) == Linker.Linked(p, ps, 2) + Emit(SKIP_MOV[2], table) == Linker.Linked(p, qs, 2);
  }

  /** The checker accepts a program that skips an assignment by a signed less-than branch; the
      interpreter returns 0 and the compiled code 7. */
  lemma DroppedBranchChangesTheResult(table: HelperTable, helpers: Helpers, ctx: u64, stack: Stack, e: Machine)
    requires AtEntry(e) && RegsMatch(Init(ctx, stack).regs, e.regs)
    ensures Accepts(SKIP_MOV) && JumpsResolve(SKIP_MOV)
    ensures var r := BpfVm.Run(SKIP_MOV, helpers, Init(ctx, stack)); r.Ok? && r.value.regs[0] == 0
    ensures Yields(Code(SKIP_MOV, table), e, 7)
  {
    hide X86.Run, Code, BpfVm.Run, ReturnedTo, InFragment;
    InterpretSkipMov(helpers, ctx, stack);
    InterpretOnlyMov(helpers, ctx, stack);
    FragmentResolves(SKIP_MOV);
    MatchingEntryIsCorrect(ONLY_MOV, table, helpers, ctx, stack, e);
    SameCode(table);
  }
}
