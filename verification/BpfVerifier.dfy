/** The static checker, what it accepts, and what acceptance guarantees for every run. */
module BpfVerifier {
  import opened Options
  import opened Words
  import opened BpfIsa
  import opened BpfVm

  // ----- the checker -----

  /** Slot i is reached by the checker's scan, which steps over the slot after an LDDW. */
  predicate Scanned(prog: seq<Insn>, i: nat)
    requires i <= |prog|
  {
    i == 0 || !(Scanned(prog, i - 1) && prog[i - 1].IsLddw())
  }

  /** The first complaint about slot i, if any. */
  function Complaint(prog: seq<Insn>, i: nat): Option<BpfError>
    requires i < |prog|
  {
    var insn := prog[i];
    var target := i + 1 + insn.off;
    if insn.Dst() >= REG_COUNT then Some(InvalidRegister(insn.Dst()))
    else if insn.SrcIsReg() && insn.Src() >= REG_COUNT then Some(InvalidRegister(insn.Src()))
    else if (insn.Class() == ALU || insn.Class() == ALU64) && insn.Dst() == REG_FP then Some(ReadOnlyRegister)
    else if insn.IsBranch() && (target < 0 || target >= |prog|) then Some(VerificationFailed(TargetOutOfRange(i, target)))
    else if insn.IsBranch() && insn.Op() != JA && insn.off < 0 then Some(VerificationFailed(BackwardBranch(i, insn.off)))
    else if insn.IsLddw() && i + 1 >= |prog| then Some(VerificationFailed(LddwTruncated(i)))
    else None
  }

  ghost predicate CleanBelow(prog: seq<Insn>, n: nat)
    requires n <= |prog|
  {
    forall i | 0 <= i < n :: Scanned(prog, i) ==> Complaint(prog, i).None?
  }

  ghost predicate Accepts(prog: seq<Insn>)
  {
    0 < |prog| <= MAX_INSNS && prog[|prog| - 1].IsExit() && CleanBelow(prog, |prog|)
  }

  /** The tests of one slot, in order. */
  method CheckSlot(prog: seq<Insn>, i: nat) returns (r: Option<BpfError>)
    requires i < |prog|
    ensures r == Complaint(prog, i)
  {
    var insn := prog[i];
    var dst, src := insn.Dst(), insn.Src();
    if dst >= REG_COUNT { return Some(InvalidRegister(dst)); }
    if insn.SrcIsReg() && src >= REG_COUNT { return Some(InvalidRegister(src)); }
    if (insn.Class() == ALU || insn.Class() == ALU64) && dst == REG_FP { return Some(ReadOnlyRegister); }
    if insn.Class() == JMP || insn.Class() == JMP32 {
      if insn.Op() != EXIT && insn.Op() != CALL {
        var target := i + 1 + insn.off;
        if target < 0 || target >= |prog| { return Some(VerificationFailed(TargetOutOfRange(i, target))); }
        if insn.Op() != JA && insn.off < 0 { return Some(VerificationFailed(BackwardBranch(i, insn.off))); }
      }
    }
    if insn.Class() == LD && insn.MemSize() == DW && i + 1 >= |prog| { return Some(VerificationFailed(LddwTruncated(i))); }
    return None;
  }

  /** The error for a program that is not accepted: about its size, its last slot, or else the
      first slot with a complaint. */
  ghost predicate Refusal(prog: seq<Insn>, e: BpfError)
  {
    if |prog| == 0 then e == VerificationFailed(Empty)
    else if |prog| > MAX_INSNS then e == ProgramTooLarge(|prog|)
    else if !prog[|prog| - 1].IsExit() then e == VerificationFailed(NoExit)
    else exists i :: 0 <= i < |prog| && Scanned(prog, i) && CleanBelow(prog, i) && Complaint(prog, i) == Some(e)
  }

  /** Accepts exactly the programs above, and otherwise reports the complaint about the
      first bad slot. */
  method Verify(prog: seq<Insn>) returns (r: Outcome<()>)
    ensures r.Ok? <==> Accepts(prog)
    ensures !r.Panic?
    ensures r.Err? ==> Refusal(prog, r.error)
  {
    hide Complaint;
    if |prog| == 0 { return Err(VerificationFailed(Empty)); }
    if |prog| > MAX_INSNS { return Err(ProgramTooLarge(|prog|)); }
    if !prog[|prog| - 1].IsExit() { return Err(VerificationFailed(NoExit)); }
    var i: nat := 0;
    while i < |prog|
      invariant i <= |prog| && Scanned(prog, i)
      invariant CleanBelow(prog, i)
    {
      var c := CheckSlot(prog, i);
      if c.Some? { return Err(c.value); }
      if prog[i].IsLddw() { LddwHasNext(prog, i); }
      i := if prog[i].IsLddw() then i + 2 else i + 1;
    }
    return Ok(());
  }

  lemma LddwHasNext(prog: seq<Insn>, i: nat)
    requires i < |prog| && Complaint(prog, i).None? && prog[i].IsLddw()
    ensures i + 1 < |prog|
  {
  }

  // ----- soundness -----

  /** The rule the checker documents but does not test: the slot after an LDDW has opcode 0. */
  ghost predicate LddwRule(prog: seq<Insn>)
  {
    forall i | 0 < i < |prog| && !Scanned(prog, i) :: prog[i].opcode == 0
  }

  /** Executing the next instruction neither indexes a register out of range nor leaves the program. */
  ghost predicate SafeStep(prog: seq<Insn>, helpers: Helpers, s: Vm)
    requires s.pc < |prog|
  {
    SafeResult(Step(prog, helpers, s), |prog|)
  }

  ghost predicate SafeResult(r: Outcome<Vm>, len: nat)
  {
    match r
    case Ok(s') => s'.pc < len
    case Err(e) => !e.UnreachableInstruction?
    case Panic(_) => false
  }

  lemma JumpIsSafe(s: Vm, off: i16, len: nat)
    requires 0 <= s.pc + 1 + off < len <= MAX_INSNS
    ensures JumpTo(s, off, len) == Ok(s.(pc := s.pc + 1 + off))
  {
  }

  lemma BranchIsSafe(insn: Insn, s: Vm, len: nat)
    requires insn.Dst() < REG_COUNT && (insn.SrcIsReg() ==> insn.Src() < REG_COUNT)
    requires 0 <= s.pc + 1 + insn.off < len <= MAX_INSNS && s.pc + 1 < len
    ensures SafeResult(ExecBranch(insn, s, len), len)
    ensures ExecBranch(insn, s, len).Ok? ==>
              ExecBranch(insn, s, len).value.pc in {s.pc + 1, s.pc + 1 + insn.off}
  {
    JumpIsSafe(s, insn.off, len);
  }

  lemma CannotBranch(insn: Insn, s: Vm, len: nat)
    requires insn.Dst() < REG_COUNT && (insn.SrcIsReg() ==> insn.Src() < REG_COUNT)
    requires insn.Op() == EXIT || insn.Op() == CALL
    ensures ExecBranch(insn, s, len).Err? && SafeResult(ExecBranch(insn, s, len), len)
  {
  }

  /** Arithmetic, loads and stores only go on to the next slot. */
  lemma PlainIsSafe(insn: Insn, s: Vm, len: nat)
    requires s.pc + 1 < len
    ensures SafeResult(ExecAlu(insn, s), len) && SafeResult(ExecLdx(insn, s), len) && SafeResult(ExecStore(insn, s), len)
  {
  }

  lemma JmpIsSafe(insn: Insn, s: Vm, len: nat, helpers: Helpers)
    requires insn.Dst() < REG_COUNT && (insn.SrcIsReg() ==> insn.Src() < REG_COUNT)
    requires s.pc < len <= MAX_INSNS && (insn.Op() != EXIT ==> s.pc + 1 < len)
    requires insn.Op() != EXIT && insn.Op() != CALL ==> 0 <= s.pc + 1 + insn.off < len
    ensures SafeResult(ExecJmp(insn, s, len, helpers), len)
  {
    if insn.Op() == JA { JumpIsSafe(s, insn.off, len); }
    else if insn.Op() != EXIT && insn.Op() != CALL { BranchIsSafe(insn, s, len); }
  }

  /** No LDDW that writes its register stands right before the last slot. */
  predicate LddwEndsInside(prog: seq<Insn>)
  {
    |prog| >= 2 && prog[|prog| - 2].IsLddw() ==> !Writable(prog[|prog| - 2].Dst())
  }

  lemma RuleEndsInside(prog: seq<Insn>)
    requires Accepts(prog) && LddwRule(prog)
    ensures LddwEndsInside(prog)
  {
    var n := |prog|;
    if n >= 2 && prog[n - 2].IsLddw() {
      if Scanned(prog, n - 2) { assert !Scanned(prog, n - 1); }
      assert false;
    }
  }

  lemma ScannedStepIsSafe(prog: seq<Insn>, helpers: Helpers, s: Vm)
    requires Accepts(prog) && LddwEndsInside(prog) && s.pc < |prog| && Scanned(prog, s.pc)
    ensures SafeStep(prog, helpers, s)
  {
    hide ExecAlu, ExecLdx, ExecStore, ExecJmp, ExecBranch;
    var insn := prog[s.pc];
    var n := |prog|;
    var s1 := s.(steps := s.steps + 1);
    assert Complaint(prog, s.pc).None?;
    assert s.pc == n - 1 ==> insn.IsExit();
    var c := insn.Class();
    if c == JMP {
      JmpIsSafe(insn, s1, n, helpers);
    } else if c == JMP32 {
      if insn.IsBranch() { BranchIsSafe(insn, s1, n); } else { CannotBranch(insn, s1, n); }
    } else if c != LD {
      PlainIsSafe(insn, s1, n);
    }
  }

  lemma RunStep(prog: seq<Insn>, helpers: Helpers, s: Vm, r: Outcome<Vm>)
    requires s.running && s.pc < |prog| && s.steps < MAX_STEPS && r == Step(prog, helpers, s)
    ensures Run(prog, helpers, s) == if r.Ok? then Run(prog, helpers, r.value) else r
    ensures r.Ok? && !r.value.running ==> Run(prog, helpers, s) == r
  {
  }
}
