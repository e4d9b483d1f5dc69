/** Whole programs: calling the compiled code returns what the interpreter returns. */
module JitProof {
  import opened Words
  import opened BpfIsa
  import opened BpfVm
  import opened BpfVerifier
  import opened Jit
  import opened JitDecode
  import opened JitSim
  import opened JitAlu
  import opened JitBranch
  import opened JitLink
  import Linker
  import X86
  import opened X86Names = X86

  // ----- the calling frame -----

  /** A call of the code at its first byte: the return address is on top of a roomy stack. */
  predicate AtEntry(e: Machine) { e.rip == 0 && 8192 <= e.regs[RSP] < TWO64 - 8192 && e.regs[RSP] in e.mem }

  /** Inside the body: the callee-saved registers of the caller e lie where the prologue put them. */
  ghost predicate InFrame(e: Machine, m: Machine)
  {
    var sp := e.regs[RSP];
    && AtEntry(e)
    && m.regs[RSP] == sp - 552
    && m.mem.Keys >= {sp - 40, sp - 32, sp - 24, sp - 16, sp - 8, sp}
    && m.mem[sp] == e.mem[sp]
    && m.mem[sp - 8] == e.regs[RBP]
    && m.mem[sp - 16] == e.regs[RBX]
    && m.mem[sp - 24] == e.regs[R13]
    && m.mem[sp - 32] == e.regs[R14]
    && m.mem[sp - 40] == e.regs[R15]
  }

  /** The call has returned: to the return address, with the stack popped and the callee-saved
      registers of the caller as they were. */
  ghost predicate ReturnedTo(e: Machine, m: Machine)
  {
    && e.regs[RSP] in e.mem && m.rip == e.mem[e.regs[RSP]]
    && m.regs[RSP] as int == e.regs[RSP] as int + 8
    && m.regs[RBX] == e.regs[RBX] && m.regs[RBP] == e.regs[RBP]
    && m.regs[R13] == e.regs[R13] && m.regs[R14] == e.regs[R14] && m.regs[R15] == e.regs[R15]
  }

  lemma FrameKept(e: Machine, m: Machine, m': Machine)
    requires InFrame(e, m) && KeepsStack(m, m')
    ensures InFrame(e, m')
  {
  }

  lemma AdjustSp(code: seq<u8>, m: Machine, ext: nat) returns (m': Machine)
    requires m.rip >= 0 && (ext == 0 || ext == 5) && 4096 <= m.regs[RSP] < TWO64 - 4096
    requires Here(code, m.rip, AluRI(ext, RSP, FRAME_SIZE, true))
    ensures X86.Run(code, m, 1) == Next(m') && m'.mem == m.mem && m'.rip == m.rip + 7
    ensures m'.regs == m.regs[RSP := m.regs[RSP] + if ext == 0 then 512 else -512]
  {
    hide Decode, DecodeBody, Here, AluRI;
    DecodeAluRI(code, m.rip, ext, RSP, FRAME_SIZE, true);
    AdjustValue(m.regs[RSP]);
    m' := Arith(ExtOp(ext), true, RSP, U64(FRAME_SIZE), m.(rip := m.rip + 7));
    OneStep(code, m, Ri(ExtOp(ext), true, RSP, FRAME_SIZE), 7, m');
  }

  lemma AdjustValue(a: u64)
    requires 4096 <= a < TWO64 - 4096
    ensures Value(Add, true, a, U64(FRAME_SIZE)) == a + 512 && Value(Sub, true, a, U64(FRAME_SIZE)) == a - 512
  {
  }

  lemma PrologueLayout(code: seq<u8>)
    requires Here(code, 0, Prologue())
    ensures Here(code, 0, PushBytes(RBP)) && Here(code, 1, AluRR(0x89, RBP, RSP, true)) && Here(code, 4, PushBytes(RBX))
    ensures Here(code, 5, PushBytes(R13)) && Here(code, 7, PushBytes(R14)) && Here(code, 9, PushBytes(R15))
    ensures Here(code, 11, AluRI(5, RSP, FRAME_SIZE, true))
  {
    hide AluRI;
    var a, b, c, d, e, f, g := PushBytes(RBP), AluRR(0x89, RBP, RSP, true), PushBytes(RBX), PushBytes(R13), PushBytes(R14), PushBytes(R15), AluRI(5, RSP, FRAME_SIZE, true);
    assert a == [0x55] && b == [REX_W, 0x89, ModRM(3, RSP, RBP)] && c == [0x53];
    assert Prologue() == a + b + c + d + e + f + g;
    HereSplit(code, 0, a + b + c + d + e + f, g);
    HereSplit(code, 0, a + b + c + d + e, f);
    HereSplit(code, 0, a + b + c + d, e);
    HereSplit(code, 0, a + b + c, d);
    HereSplit(code, 0, a + b, c);
    HereSplit(code, 0, a, b);
  }

  lemma PushSizes()
    ensures |PushBytes(RBP)| == |PushBytes(RBX)| == 1 && |PushBytes(R13)| == |PushBytes(R14)| == |PushBytes(R15)| == 2
    ensures |PopBytes(RBP)| == |PopBytes(RBX)| == 1 && |PopBytes(R13)| == |PopBytes(R14)| == |PopBytes(R15)| == 2
    ensures |AluRR(0x89, RBP, RSP, true)| == 3
  {
  }

  lemma RunPrologue(code: seq<u8>, e: Machine) returns (m: Machine)
    requires Here(code, 0, Prologue()) && AtEntry(e)
    ensures X86.Run(code, e, 7) == Next(m) && m.rip == PROLOGUE_SIZE && InFrame(e, m)
    ensures forall g | 0 <= g < 16 && g != RSP && g != RBP :: m.regs[g] == e.regs[g]
  {
    hide Here, X86.Run, PushBytes, PopBytes, AluRR, AluRI, Value, Prologue;
    PrologueLayout(code);
    PushSizes();
    var m1 := RunPush(code, e, RBP);
    var m2 := RunAluRR(code, m1, 0x89, RBP, RSP, true);
    var m3 := RunPush(code, m2, RBX);
    var m4 := RunPush(code, m3, R13);
    Chain4(code, e, m1, m2, m3, m4);
    var m5 := RunPush(code, m4, R14);
    var m6 := RunPush(code, m5, R15);
    m := AdjustSp(code, m6, 5);
    Then(code, e, 4, m4, 1, m5);
    Then(code, e, 5, m5, 1, m6);
    Then(code, e, 6, m6, 1, m);
  }

  lemma EpilogueLayout(code: seq<u8>, p: nat)
    requires Here(code, p, Epilogue())
    ensures Here(code, p, AluRI(0, RSP, FRAME_SIZE, true)) && Here(code, p + 7, PopBytes(R15)) && Here(code, p + 9, PopBytes(R14))
    ensures Here(code, p + 11, PopBytes(R13)) && Here(code, p + 13, PopBytes(RBX)) && Here(code, p + 14, PopBytes(RBP)) && Here(code, p + 15, [0xC3])
  {
    hide AluRI;
    var a, b, c, d, e, f, g := AluRI(0, RSP, FRAME_SIZE, true), PopBytes(R15), PopBytes(R14), PopBytes(R13), PopBytes(RBX), PopBytes(RBP), [0xC3];
    assert e == [0x5B] && f == [0x5D];
    assert Epilogue() == a + b + c + d + e + f + g;
    HereSplit(code, p, a + b + c + d + e + f, g);
    HereSplit(code, p, a + b + c + d + e, f);
    HereSplit(code, p, a + b + c + d, e);
    HereSplit(code, p, a + b + c, d);
    HereSplit(code, p, a + b, c);
    HereSplit(code, p, a, b);
  }

  lemma RunRet(code: seq<u8>, m: Machine) returns (m': Machine)
    requires m.rip >= 0 && Here(code, m.rip, [0xC3]) && m.regs[RSP] in m.mem && m.regs[RSP] < TWO64 - 8
    ensures X86.Run(code, m, 1) == Returned(m')
    ensures m' == m.(regs := m.regs[RSP := m.regs[RSP] + 8], rip := m.mem[m.regs[RSP]])
  {
    hide Decode, DecodeBody, Here;
    DecodeRet(code, m.rip);
    m' := m.(regs := m.regs[RSP := m.regs[RSP] + 8], rip := m.mem[m.regs[RSP]]);
    assert X86.Step(code, m) == Exec(Ret, m.(rip := m.rip + 1));
  }

  lemma ThenReturn(code: seq<u8>, m: Machine, a: nat, m1: Machine, b: nat, m2: Machine)
    requires X86.Run(code, m, a) == Next(m1) && X86.Run(code, m1, b) == Returned(m2)
    ensures X86.Run(code, m, a + b) == Returned(m2)
  {
    RunAdd(code, m, a, b);
  }

  lemma RunEpilogue(code: seq<u8>, e: Machine, m: Machine) returns (m': Machine)
    requires m.rip >= 0 && Here(code, m.rip, Epilogue()) && InFrame(e, m)
    ensures X86.Run(code, m, 7) == Returned(m') && ReturnedTo(e, m') && m'.regs[RAX] == m.regs[RAX]
  {
    hide Here, X86.Run, PushBytes, PopBytes, AluRI, AluRR, Epilogue;
    EpilogueLayout(code, m.rip);
    PushSizes();
    var m1 := AdjustSp(code, m, 0);
    var m2 := RunPop(code, m1, R15);
    var m3 := RunPop(code, m2, R14);
    var m4 := RunPop(code, m3, R13);
    Chain4(code, m, m1, m2, m3, m4);
    var m5 := RunPop(code, m4, RBX);
    var m6 := RunPop(code, m5, RBP);
    m' := RunRet(code, m6);
    Then(code, m, 4, m4, 1, m5);
    Then(code, m, 5, m5, 1, m6);
    ThenReturn(code, m, 6, m6, 1, m');
  }

  // ----- the fragment -----

  predicate FaithfulSlot(prog: seq<Insn>, i: nat)
    requires i < |prog|
  {
    var insn := prog[i];
    var c := insn.Class();
    if c == ALU || c == ALU64 then FaithfulAlu(insn)
    else if c == JMP && (insn.Op() == EXIT || insn.Op() == JA) then true
    else if c == JMP || c == JMP32 then FaithfulBranch(insn)
    else insn.opcode == 0x18 && Usable(insn.Dst()) && i + 1 < |prog| && prog[i + 1].imm == 0
  }

  ghost predicate InFragment(prog: seq<Insn>)
  {
    Accepts(prog) && LddwRule(prog) && forall i | 0 <= i < |prog| :: Scanned(prog, i) ==> FaithfulSlot(prog, i)
  }

  lemma FragmentResolves(prog: seq<Insn>)
    requires Accepts(prog) && LddwRule(prog)
    ensures JumpsResolve(prog)
  {
    forall i | 0 <= i < |prog| && HasFixup(prog[i]) ensures TargetSlot(i, prog[i].off) <= |prog| {
      SlotTarget(prog, i);
    }
  }

  lemma SlotTarget(prog: seq<Insn>, i: nat)
    requires Accepts(prog) && LddwRule(prog) && i < |prog| && HasFixup(prog[i])
    ensures Scanned(prog, i) && 0 <= i + 1 + prog[i].off < |prog|
    ensures TargetSlot(i, prog[i].off) == i + 1 + prog[i].off
  {
    assert prog[i].opcode != 0;
    assert Complaint(prog, i).None?;
    WrapOnce(i + prog[i].off + 1);
  }

  // ----- where the code of a slot lies -----

  function Start(prog: seq<Insn>, table: HelperTable, i: nat): nat
    requires i <= |prog|
  {
    Linker.Offset(Prologue(), Pieces(prog, table), i)
  }

  lemma SlotHere(prog: seq<Insn>, table: HelperTable, i: nat)
    requires Accepts(prog) && JumpsResolve(prog) && i < |prog|
    ensures Start(prog, table, i + 1) == Start(prog, table, i) + |Emit(prog[i], table)|
    ensures Linker.Resolvable(Pieces(prog, table), |prog|)
    ensures Here(Code(prog, table), Start(prog, table, i), Linker.LinkedPiece(Prologue(), Pieces(prog, table), i))
    ensures !HasFixup(prog[i]) ==> Here(Code(prog, table), Start(prog, table, i), Emit(prog[i], table))
  {
    hide Emit, HasFixup, Prologue, TargetSlot;
    ResolvesIff(prog, table);
    Linker.PieceAt(Prologue(), Pieces(prog, table), i, |prog|);
    assert Pieces(prog, table)[i] == PieceOf(prog[i], i, table);
  }

  lemma PrologueHere(prog: seq<Insn>, table: HelperTable, n: nat)
    requires JumpsResolve(prog) && n <= |prog| && Linker.Resolvable(Pieces(prog, table), |prog|)
    ensures Here(Linker.Linked(Prologue(), Pieces(prog, table), n), 0, Prologue())
  {
    hide Emit, HasFixup, Prologue, TargetSlot;
    var ps := Pieces(prog, table);
    if n > 0 {
      PrologueHere(prog, table, n - 1);
      Linker.SliceOfFront(Linker.Linked(Prologue(), ps, n - 1), Linker.LinkedPiece(Prologue(), ps, n - 1), 0, |Prologue()|);
    } else {
      assert Prologue()[0..|Prologue()|] == Prologue();
    }
  }

  function Head(insn: Insn): seq<u8>
  {
    JumpHead(insn.Op(), insn.SrcIsReg(), HostReg(insn.Dst()), HostReg(insn.Src()), insn.imm, insn.Class() == JMP)
  }

  lemma EmitJump(insn: Insn, table: HelperTable)
    requires HasFixup(insn)
    ensures Emit(insn, table) == Head(insn) + [0, 0, 0, 0]
  {
    hide JumpHead;
  }

  /** A slot that ends in a jump: its field holds the distance to the target slot. */
  lemma JumpHere(prog: seq<Insn>, table: HelperTable, i: nat) returns (rel: i32)
    requires Accepts(prog) && LddwRule(prog) && JumpsResolve(prog) && i < |prog| && HasFixup(prog[i])
    ensures Here(Code(prog, table), Start(prog, table, i), Head(prog[i]) + Imm4(rel))
    ensures Start(prog, table, i + 1) == Start(prog, table, i) + |Head(prog[i])| + 4
    ensures 0 <= i + 1 + prog[i].off < |prog|
    ensures Start(prog, table, i + 1) + rel == Start(prog, table, i + 1 + prog[i].off)
  {
    hide Emit, HasFixup, Prologue, TargetSlot, JumpHead, Here, Le32, U32;
    SlotHere(prog, table, i);
    SlotTarget(prog, i);
    EmitJump(prog[i], table);
    var ps := Pieces(prog, table);
    assert ps[i] == PieceOf(prog[i], i, table);
    Linker.DisplacementBound(Prologue(), ps, i);
    rel := Linker.Displacement(Prologue(), ps, i);
    var b := Emit(prog[i], table);
    assert b[..|b| - 4] == Head(prog[i]);
    assert Linker.LinkedPiece(Prologue(), ps, i) == Head(prog[i]) + Imm4(rel);
  }

  // ----- simulation -----

  /** The host state m stands for the interpreter state s. */
  ghost predicate Represents(prog: seq<Insn>, table: HelperTable, e: Machine, s: Vm, m: Machine)
  {
    InFrame(e, m) && RegsMatch(s.regs, m.regs) && s.pc <= |prog| && m.rip == Start(prog, table, s.pc)
  }

  lemma SimulateAlu(prog: seq<Insn>, table: HelperTable, helpers: Helpers, e: Machine, s: Vm, m: Machine) returns (k: nat, m': Machine)
    requires Accepts(prog) && JumpsResolve(prog) && s.pc < |prog| && Represents(prog, table, e, s, m)
    requires prog[s.pc].Class() == ALU || prog[s.pc].Class() == ALU64
    requires FaithfulAlu(prog[s.pc]) && BpfVm.Step(prog, helpers, s).Ok?
    ensures X86.Run(Code(prog, table), m, k) == Next(m') && Represents(prog, table, e, BpfVm.Step(prog, helpers, s).value, m')
  {
    hide Emit, Here, X86.Run, Code, Start, FaithfulAlu, Alu64, Alu32;
    var insn := prog[s.pc];
    assert !HasFixup(insn);
    SlotHere(prog, table, s.pc);
    k, m' := AluSimulates(Code(prog, table), m, insn, table, s.(steps := s.steps + 1));
    FrameKept(e, m, m');
  }

  /** In the fragment an LDDW carries a 32-bit constant, in its first slot. */
  lemma LddwStep(prog: seq<Insn>, helpers: Helpers, s: Vm)
    requires InFragment(prog) && s.pc < |prog|
    requires prog[s.pc].opcode == 0x18 && Scanned(prog, s.pc) && BpfVm.Step(prog, helpers, s).Ok?
    ensures var insn := prog[s.pc];
            && Usable(insn.Dst()) && s.pc + 1 < |prog| && prog[s.pc + 1].opcode == 0
            && BpfVm.Step(prog, helpers, s).value ==
                 s.(regs := s.regs[insn.Dst() := U32(insn.imm)], pc := s.pc + 2, steps := s.steps + 1)
  {
    assert FaithfulSlot(prog, s.pc);
    assert !Scanned(prog, s.pc + 1);
  }

  lemma LddwBytes(insn: Insn, next: Insn, table: HelperTable)
    requires insn.opcode == 0x18 && next.opcode == 0
    ensures Emit(insn, table) == MovImm64(HostReg(insn.Dst()), U32(insn.imm)) && Emit(next, table) == []
    ensures !HasFixup(insn) && !HasFixup(next)
  {
    hide MovImm64;
  }

  lemma SimulateLddw(prog: seq<Insn>, table: HelperTable, helpers: Helpers, e: Machine, s: Vm, m: Machine) returns (k: nat, m': Machine)
    requires InFragment(prog) && JumpsResolve(prog) && s.pc < |prog| && Represents(prog, table, e, s, m)
    requires prog[s.pc].opcode == 0x18 && Scanned(prog, s.pc) && BpfVm.Step(prog, helpers, s).Ok?
    ensures X86.Run(Code(prog, table), m, k) == Next(m') && Represents(prog, table, e, BpfVm.Step(prog, helpers, s).value, m')
  {
    hide Here, X86.Run, Code, Start, MovImm64, Emit, HasFixup, BpfVm.Step, Scanned, FaithfulSlot, LddwRule, CleanBelow;
    var insn, d := prog[s.pc], prog[s.pc].Dst();
    LddwStep(prog, helpers, s);
    LddwBytes(insn, prog[s.pc + 1], table);
    SlotHere(prog, table, s.pc);
    LowHost(d);
    m' := RunMovImm64(Code(prog, table), m, HostReg(d), U32(insn.imm));
    k := 1;
    SlotHere(prog, table, s.pc + 1);
    MatchUpdate(s.regs, m.regs, d, U32(insn.imm));
    FrameKept(e, m, m');
  }

  lemma SimulateJa(prog: seq<Insn>, table: HelperTable, helpers: Helpers, e: Machine, s: Vm, m: Machine) returns (k: nat, m': Machine)
    requires Accepts(prog) && LddwRule(prog) && JumpsResolve(prog) && s.pc < |prog| && Represents(prog, table, e, s, m)
    requires prog[s.pc].Class() == JMP && prog[s.pc].Op() == JA
    ensures BpfVm.Step(prog, helpers, s).Ok?
    ensures X86.Run(Code(prog, table), m, k) == Next(m') && Represents(prog, table, e, BpfVm.Step(prog, helpers, s).value, m')
  {
    hide Here, X86.Run, Code, Start, Imm4;
    var insn := prog[s.pc];
    var rel := JumpHere(prog, table, s.pc);
    assert Head(insn) == [0xE9];
    m' := RunJa(Code(prog, table), m, rel);
    k := 1;
    JumpIsSafe(s.(steps := s.steps + 1), insn.off, |prog|);
  }

  lemma BranchOutcome(insn: Insn, s: Vm, len: nat, file: File)
    requires insn.Class() == JMP || insn.Class() == JMP32
    requires FaithfulBranch(insn) && RegsMatch(s.regs, file) && 0 <= s.pc + 1 + insn.off < len <= MAX_INSNS
    ensures var w, a, b := insn.Class() == JMP, file[HostReg(insn.Dst())], HostOperand(insn, file);
            var taken := Taken(insn, Trunc(w, a), Trunc(w, b), Signed(w, a), Signed(w, b));
            taken.Ok? ==> ExecBranch(insn, s, len) == Ok(s.(pc := if taken.value then s.pc + 1 + insn.off else s.pc + 1))
  {
    hide HostReg, Taken;
    assert file[HostReg(insn.Dst())] == s.regs[insn.Dst()];
    if insn.SrcIsReg() { assert file[HostReg(insn.Src())] == s.regs[insn.Src()]; }
    TruncOfWord(file[HostReg(insn.Dst())]);
    TruncOfWord(HostOperand(insn, file));
    JumpIsSafe(s, insn.off, len);
  }

  lemma SimulateBranch(prog: seq<Insn>, table: HelperTable, helpers: Helpers, e: Machine, s: Vm, m: Machine) returns (k: nat, m': Machine)
    requires Accepts(prog) && LddwRule(prog) && JumpsResolve(prog) && s.pc < |prog| && Represents(prog, table, e, s, m)
    requires (prog[s.pc].Class() == JMP || prog[s.pc].Class() == JMP32) && FaithfulBranch(prog[s.pc])
    ensures BpfVm.Step(prog, helpers, s).Ok?
    ensures X86.Run(Code(prog, table), m, k) == Next(m') && Represents(prog, table, e, BpfVm.Step(prog, helpers, s).value, m')
  {
    hide Here, X86.Run, Code, Start, Imm4, JumpHead, Taken, Trunc, Signed, HostOperand, ExecBranch, HostReg;
    var insn := prog[s.pc];
    assert HasFixup(insn);
    var rel := JumpHere(prog, table, s.pc);
    k, m' := RunBranch(Code(prog, table), m, insn, rel);
    BranchOutcome(insn, s.(steps := s.steps + 1), |prog|, m.regs);
  }

  lemma SimulateExit(prog: seq<Insn>, table: HelperTable, e: Machine, s: Vm, m: Machine) returns (k: nat, m': Machine)
    requires Accepts(prog) && JumpsResolve(prog) && s.pc < |prog| && Represents(prog, table, e, s, m)
    requires prog[s.pc].IsExit()
    ensures X86.Run(Code(prog, table), m, k) == Returned(m') && ReturnedTo(e, m') && m'.regs[RAX] == s.regs[0]
  {
    hide Here, X86.Run, Code, Start, Epilogue;
    SlotHere(prog, table, s.pc);
    assert Emit(prog[s.pc], table) == Epilogue();
    m' := RunEpilogue(Code(prog, table), e, m);
    k := 7;
    assert m.regs[HostReg(0)] == s.regs[0];
  }

  lemma UnscannedFails(prog: seq<Insn>, helpers: Helpers, s: Vm)
    requires LddwRule(prog) && s.pc < |prog| && !Scanned(prog, s.pc)
    ensures BpfVm.Step(prog, helpers, s).Err?
  {
    assert prog[s.pc].opcode == 0;
  }

  /** One step that does not stop the machine. */
  lemma SimulateStep(prog: seq<Insn>, table: HelperTable, helpers: Helpers, e: Machine, s: Vm, m: Machine) returns (k: nat, m': Machine)
    requires InFragment(prog) && JumpsResolve(prog) && s.pc < |prog| && Scanned(prog, s.pc) && Represents(prog, table, e, s, m)
    requires !prog[s.pc].IsExit() && BpfVm.Step(prog, helpers, s).Ok?
    ensures X86.Run(Code(prog, table), m, k) == Next(m') && Represents(prog, table, e, BpfVm.Step(prog, helpers, s).value, m')
  {
    hide X86.Run, Code, Represents, BpfVm.Step, FaithfulAlu, FaithfulBranch;
    var insn := prog[s.pc];
    var c := insn.Class();
    assert FaithfulSlot(prog, s.pc);
    if c == ALU || c == ALU64 { k, m' := SimulateAlu(prog, table, helpers, e, s, m); }
    else if c == JMP && insn.Op() == JA { k, m' := SimulateJa(prog, table, helpers, e, s, m); }
    else if c == JMP || c == JMP32 { k, m' := SimulateBranch(prog, table, helpers, e, s, m); }
    else { k, m' := SimulateLddw(prog, table, helpers, e, s, m); }
  }

  lemma RunUnfold(prog: seq<Insn>, helpers: Helpers, s: Vm)
    requires s.running && BpfVm.Run(prog, helpers, s).Ok?
    ensures s.pc < |prog| && s.steps < MAX_STEPS && BpfVm.Step(prog, helpers, s).Ok?
    ensures BpfVm.Run(prog, helpers, s) == BpfVm.Run(prog, helpers, BpfVm.Step(prog, helpers, s).value)
  {
    hide BpfVm.Step;
  }

  lemma ExitStep(prog: seq<Insn>, helpers: Helpers, s: Vm)
    requires s.pc < |prog|
    ensures prog[s.pc].IsExit() ==> BpfVm.Step(prog, helpers, s) == Ok(s.(running := false, steps := s.steps + 1))
    ensures !prog[s.pc].IsExit() && BpfVm.Step(prog, helpers, s).Ok? ==> BpfVm.Step(prog, helpers, s).value.running == s.running
  {
    hide Alu64, Alu32, Taken, Load, Store, Address;
  }

  /** From a represented state, the code runs on to its return with the interpreter's R0 in rax. */
  lemma {:induction false} Simulate(prog: seq<Insn>, table: HelperTable, helpers: Helpers, e: Machine, s: Vm, m: Machine) returns (n: nat, m': Machine)
    requires InFragment(prog) && JumpsResolve(prog) && s.running && Represents(prog, table, e, s, m)
    requires BpfVm.Run(prog, helpers, s).Ok?
    ensures X86.Run(Code(prog, table), m, n) == Returned(m') && ReturnedTo(e, m')
    ensures m'.regs[RAX] == BpfVm.Run(prog, helpers, s).value.regs[0]
    decreases MAX_STEPS - s.steps
  {
    hide X86.Run, Code, Represents, BpfVm.Step, ReturnedTo, FaithfulSlot;
    RunUnfold(prog, helpers, s);
    ExitStep(prog, helpers, s);
    if !Scanned(prog, s.pc) { UnscannedFails(prog, helpers, s); }
    if prog[s.pc].IsExit() {
      n, m' := SimulateExit(prog, table, e, s, m);
    } else {
      var k, m1 := SimulateStep(prog, table, helpers, e, s, m);
      var j, m2 := Simulate(prog, table, helpers, e, BpfVm.Step(prog, helpers, s).value, m1);
      ThenReturn(Code(prog, table), m, k, m1, j, m2);
      n, m' := k + j, m2;
    }
  }

  function Held(e: Machine, r: nat): u64 { if r == REG_FP then STACK_SIZE else e.regs[HostReg(r)] }

  /** The interpreter state that a call with machine state e amounts to: R0 to R9 hold what the
      host registers happen to hold. */
  function Entered(e: Machine, stack: Stack): Vm
  {
    Vm(seq(REG_COUNT, r requires r >= 0 => Held(e, r)), stack, 0, 0, true)
  }

  /** The call returns to its caller with v in rax, and preserves the caller's stack and
      callee-saved registers. */
  ghost predicate Yields(code: seq<u8>, e: Machine, v: u64)
  {
    exists n: nat, m' :: X86.Run(code, e, n) == Returned(m') && ReturnedTo(e, m') && m'.regs[RAX] == v
  }

  lemma YieldsOnce(code: seq<u8>, e: Machine, v: u64, w: u64)
    requires Yields(code, e, v) && Yields(code, e, w)
    ensures v == w
  {
    hide X86.Run, ReturnedTo;
    var i: nat, m :| X86.Run(code, e, i) == Returned(m) && ReturnedTo(e, m) && m.regs[RAX] == v;
    var j: nat, m' :| X86.Run(code, e, j) == Returned(m') && ReturnedTo(e, m') && m'.regs[RAX] == w;
    if i <= j { RunAdd(code, e, i, j - i); } else { RunAdd(code, e, j, i - j); }
  }

  /** Calling the compiled code of a program in the fragment, with any machine state at the call,
      returns what the interpreter returns from the registers found there, and nothing else. */
  lemma CompiledCodeIsCorrect(prog: seq<Insn>, table: HelperTable, helpers: Helpers, stack: Stack, e: Machine)
    requires InFragment(prog) && AtEntry(e) && BpfVm.Run(prog, helpers, Entered(e, stack)).Ok?
    ensures JumpsResolve(prog)
    ensures forall v :: Yields(Code(prog, table), e, v) <==> v == BpfVm.Run(prog, helpers, Entered(e, stack)).value.regs[0]
  {
    hide X86.Run, BpfVm.Run, ReturnedTo, InFragment;
    assert Accepts(prog) && LddwRule(prog) by { FragmentAccepted(prog); }
    FragmentResolves(prog);
    ResolvesIff(prog, table);
    PrologueHere(prog, table, |prog|);
    var code, s := Code(prog, table), Entered(e, stack);
    var m := RunPrologue(code, e);
    assert RegsMatch(s.regs, m.regs) by { EntryRegs(s.regs, e.regs, m.regs); }
    var n, m' := Simulate(prog, table, helpers, e, s, m);
    ThenReturn(code, e, 7, m, n, m');
    var w := BpfVm.Run(prog, helpers, s).value.regs[0];
    assert Yields(code, e, w);
    forall v | Yields(code, e, v) ensures v == w { YieldsOnce(code, e, v, w); }
  }

  /** The compiled code returns the interpreter's result for ctx exactly when the interpreter
      would return it from the registers found at the call. */
  lemma CompiledResultIff(prog: seq<Insn>, table: HelperTable, helpers: Helpers, ctx: u64, stack: Stack, e: Machine)
    requires InFragment(prog) && AtEntry(e) && BpfVm.Run(prog, helpers, Entered(e, stack)).Ok?
    requires BpfVm.Run(prog, helpers, Init(ctx, stack)).Ok?
    ensures JumpsResolve(prog)
    ensures Yields(Code(prog, table), e, BpfVm.Run(prog, helpers, Init(ctx, stack)).value.regs[0])
            <==> BpfVm.Run(prog, helpers, Entered(e, stack)).value.regs[0] == BpfVm.Run(prog, helpers, Init(ctx, stack)).value.regs[0]
  {
    hide Yields, BpfVm.Run, Code, InFragment;
    CompiledCodeIsCorrect(prog, table, helpers, stack, e);
  }

  /** In particular it does when the registers are those that the interpreter starts from. */
  lemma MatchingEntryIsCorrect(prog: seq<Insn>, table: HelperTable, helpers: Helpers, ctx: u64, stack: Stack, e: Machine)
    requires InFragment(prog) && AtEntry(e) && RegsMatch(Init(ctx, stack).regs, e.regs)
    requires BpfVm.Run(prog, helpers, Init(ctx, stack)).Ok?
    ensures JumpsResolve(prog) && Yields(Code(prog, table), e, BpfVm.Run(prog, helpers, Init(ctx, stack)).value.regs[0])
  {
    hide Yields, BpfVm.Run, Code, InFragment;
    assert Entered(e, stack) == Init(ctx, stack);
    CompiledCodeIsCorrect(prog, table, helpers, stack, e);
  }

  lemma FragmentAccepted(prog: seq<Insn>)
    requires InFragment(prog)
    ensures Accepts(prog) && LddwRule(prog)
  {
  }

  lemma EntryRegs(regs: Regs, before: File, after: File)
    requires RegsMatch(regs, before) && forall g | 0 <= g < 16 && g != RSP && g != RBP :: after[g] == before[g]
    ensures RegsMatch(regs, after)
  {
    forall r | 0 <= r < 10 ensures after[HostReg(r)] == regs[r] {
      assert before[HostReg(r)] == regs[r];
    }
  }
}
