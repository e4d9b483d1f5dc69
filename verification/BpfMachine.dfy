/** The virtual machine as the object it is in the kernel: registers and stack are arrays
    that every instruction updates in place. */
module BpfMachine {
  import opened Options
  import opened Words
  import opened Bytes
  import opened BpfIsa
  import opened BpfVm

  /** The result r and the state `now` left behind are what the step function prescribes; a
      failure leaves `left` behind. */
  ghost predicate Agrees(r: Outcome<()>, spec: Outcome<Vm>, now: Vm, left: Vm)
  {
    match spec
    case Ok(v) => r == Ok(()) && now == v
    case Err(e) => r == Err(e) && now == left
    case Panic(i) => r == Panic(i) && now == left
  }

  /** A jump out of the program has moved the program counter before it fails; nothing else does. */
  function Landed(s: Vm, spec: Outcome<Vm>): Vm
  {
    if spec.Err? && spec.error.UnreachableInstruction? then s.(pc := spec.error.pc) else s
  }

  /** What a failing step leaves behind. */
  function Failed(prog: seq<Insn>, helpers: Helpers, s: Vm): Vm
    requires s.pc < |prog|
  {
    var c, t := prog[s.pc].Class(), s.(steps := s.steps + 1);
    if c == JMP || c == JMP32 then Landed(t, Step(prog, helpers, s)) else t
  }

  /** The state in which the loop of `execute` leaves the machine, however it ends. */
  function Final(prog: seq<Insn>, helpers: Helpers, s: Vm): Vm
    decreases MAX_STEPS - s.steps
  {
    if !s.running || s.pc >= |prog| || s.steps >= MAX_STEPS then s
    else
      var r := Step(prog, helpers, s);
      if r.Ok? then Final(prog, helpers, r.value) else Failed(prog, helpers, s)
  }

  /** A run that succeeds returns the state it ends in. */
  lemma {:induction false} FinalIsResult(prog: seq<Insn>, helpers: Helpers, s: Vm)
    requires Run(prog, helpers, s).Ok?
    ensures Final(prog, helpers, s) == Run(prog, helpers, s).value
    decreases MAX_STEPS - s.steps
  {
    hide Step;
    if s.running { FinalIsResult(prog, helpers, Step(prog, helpers, s).value); }
  }

  class Machine {
    const regs: array<u64>
    const stack: array<u8>
    var pc: nat
    var steps: nat
    var running: bool

    ghost predicate Valid()
      reads this
    {
      regs.Length == REG_COUNT && stack.Length == STACK_SIZE && regs as object != stack as object
    }

    ghost function View(): Vm
      requires Valid()
      reads this, regs, stack
    {
      Vm(regs[..], stack[..], pc, steps, running)
    }

    constructor ()
      ensures Valid() && fresh(regs) && fresh(stack)
      ensures View() == Vm(seq(REG_COUNT, i => if i == REG_FP then STACK_SIZE else 0), seq(STACK_SIZE, _ => 0), 0, 0, false)
    {
      regs := new u64[REG_COUNT](i => if i == REG_FP then STACK_SIZE else 0);
      stack := new u8[STACK_SIZE](_ => 0);
      pc, steps, running := 0, 0, false;
      new;
      assert regs[..] == seq(REG_COUNT, i => if i == REG_FP then STACK_SIZE else 0);
      assert stack[..] == seq(STACK_SIZE, _ => 0);
    }

    method SetReg(r: nat, v: u64)
      requires Valid() && r < REG_COUNT
      modifies regs
      ensures View() == old(View()).(regs := old(View()).regs[r := v])
    {
      regs[r] := v;
      assert regs[..] == old(regs[..])[r := v];
    }

    method ReadOperand(insn: Insn) returns (r: Outcome<u64>)
      requires Valid()
      ensures r == Operand(insn, regs[..])
    {
      if insn.SrcIsReg() {
        if insn.Src() < REG_COUNT { r := Ok(regs[insn.Src()]); } else { r := Panic(insn.Src()); }
      } else {
        r := Ok(U64(insn.imm));
      }
    }

    method DoAlu(insn: Insn) returns (r: Outcome<()>)
      requires Valid()
      modifies this, regs
      ensures Agrees(r, ExecAlu(insn, old(View())), View(), old(View()))
    {
      var dst := insn.Dst();
      if dst >= REG_COUNT || dst == REG_FP { return Err(InvalidRegister(dst)); }
      if insn.SrcIsReg() && insn.Src() >= REG_COUNT { return Err(InvalidRegister(insn.Src())); }
      var b := if insn.SrcIsReg() then regs[insn.Src()] else U64(insn.imm);
      var v;
      if insn.Class() == ALU64 {
        v :- Alu64(insn, regs[dst], b);
      } else {
        v :- Alu32(insn, U32(regs[dst]), U32(b));
      }
      SetReg(dst, v);
      pc := pc + 1;
      return Ok(());
    }

    method Jump(off: i16, len: nat) returns (r: Outcome<()>)
      requires Valid()
      modifies this
      ensures Agrees(r, JumpTo(old(View()), off, len), View(), Landed(old(View()), JumpTo(old(View()), off, len)))
    {
      pc := U64(pc + 1 + off);
      if pc >= len { return Err(UnreachableInstruction(pc)); }
      return Ok(());
    }

    method DoBranch(insn: Insn, len: nat) returns (r: Outcome<()>)
      requires Valid()
      modifies this
      ensures Agrees(r, ExecBranch(insn, old(View()), len), View(), Landed(old(View()), ExecBranch(insn, old(View()), len)))
    {
      if insn.Dst() >= REG_COUNT { return Panic(insn.Dst()); }
      var d := regs[insn.Dst()];
      var b :- ReadOperand(insn);
      var taken;
      if insn.Class() == JMP {
        taken :- Taken(insn, d, b, I64(d), I64(b));
      } else {
        taken :- Taken(insn, U32(d), U32(b), I32(U32(d)), I32(U32(b)));
      }
      if taken {
        r := Jump(insn.off, len);
      } else {
        pc := pc + 1;
        r := Ok(());
      }
    }

    method DoJmp(insn: Insn, len: nat, helpers: Helpers) returns (r: Outcome<()>)
      requires Valid()
      modifies this, regs
      ensures Agrees(r, ExecJmp(insn, old(View()), len, helpers), View(), Landed(old(View()), ExecJmp(insn, old(View()), len, helpers)))
    {
      if insn.Op() == EXIT {
        running := false;
        return Ok(());
      } else if insn.Op() == CALL {
        var id := U32(insn.imm);
        var answer := if id < 64 then helpers(id, steps, regs[1..6]) else None;
        assert regs[1..6] == View().regs[1..6];
        if answer.None? { return Err(UnknownHelper(id)); }
        SetReg(0, answer.value);
        pc := pc + 1;
        return Ok(());
      } else if insn.Op() == JA {
        r := Jump(insn.off, len);
      } else {
        r := DoBranch(insn, len);
      }
    }

    method DoLdx(insn: Insn) returns (r: Outcome<()>)
      requires Valid()
      modifies this, regs
      ensures Agrees(r, ExecLdx(insn, old(View())), View(), old(View()))
    {
      var dst, src := insn.Dst(), insn.Src();
      if dst >= REG_COUNT || dst == REG_FP { return Err(InvalidRegister(dst)); }
      if src >= REG_COUNT { return Err(InvalidRegister(src)); }
      var v :- Load(stack[..], Address(regs[src], insn.off), Width(insn));
      SetReg(dst, v);
      pc := pc + 1;
      return Ok(());
    }

    /** Copies the bytes of val over the accessed range of the stack. */
    method WriteStack(addr: u64, size: nat, val: u64) returns (r: Outcome<()>)
      requires Valid()
      modifies stack
      ensures regs[..] == old(regs[..])
      ensures match Store(old(stack[..]), addr, size, val)
              case Ok(m) => r == Ok(()) && stack[..] == m
              case Err(e) => r == Err(e) && stack[..] == old(stack[..])
              case Panic(_) => false
    {
      hide Le;
      var idx :- StackIndex(addr, size);
      var bytes := Le(val, size);
      ghost var before := stack[..];
      for k := 0 to size
        invariant stack[..] == Splice(before, idx, bytes[..k])
        invariant regs[..] == old(regs[..])
      {
        stack[idx + k] := bytes[k];
        GrowSplice(before, idx, bytes, k);
      }
      assert bytes[..size] == bytes;
      return Ok(());
    }

    method DoStore(insn: Insn) returns (r: Outcome<()>)
      requires Valid()
      modifies this, stack
      ensures Agrees(r, ExecStore(insn, old(View())), View(), old(View()))
    {
      var dst, src := insn.Dst(), insn.Src();
      if dst >= REG_COUNT { return Err(InvalidRegister(dst)); }
      if insn.Class() == STX && src >= REG_COUNT { return Err(InvalidRegister(src)); }
      var v := if insn.Class() == STX then regs[src] else U64(insn.imm);
      var _ :- WriteStack(Address(regs[dst], insn.off), Width(insn), v);
      pc := pc + 1;
      return Ok(());
    }

    method DoLd(insn: Insn, prog: seq<Insn>) returns (r: Outcome<()>)
      requires Valid()
      modifies this, regs
      ensures Agrees(r, ExecLd(insn, old(View()), prog), View(), old(View()))
    {
      var dst := insn.Dst();
      if dst >= REG_COUNT || dst == REG_FP { return Err(InvalidRegister(dst)); }
      if insn.MemSize() != DW { return Err(InvalidOpcode(insn.opcode)); }
      if pc + 1 >= |prog| { return Err(UnreachableInstruction(pc + 1)); }
      SetReg(dst, U32(insn.imm) + U32(prog[pc + 1].imm) * TWO32);
      pc := pc + 2;
      return Ok(());
    }

    method DoStep(prog: seq<Insn>, helpers: Helpers) returns (r: Outcome<()>)
      requires Valid() && pc < |prog|
      modifies this, regs, stack
      ensures Agrees(r, Step(prog, helpers, old(View())), View(), Failed(prog, helpers, old(View())))
    {
      var insn := prog[pc];
      steps := steps + 1;
      var c := insn.Class();
      if c == ALU64 || c == ALU { r := DoAlu(insn); }
      else if c == JMP { r := DoJmp(insn, |prog|, helpers); }
      else if c == JMP32 { r := DoBranch(insn, |prog|); }
      else if c == LDX { r := DoLdx(insn); }
      else if c == ST || c == STX { r := DoStore(insn); }
      else { r := DoLd(insn, prog); }
    }

    /** Runs a program from a fresh register file and returns R0. */
    method Execute(prog: seq<Insn>, helpers: Helpers, ctx: u64) returns (r: Outcome<u64>)
      requires Valid()
      modifies this, regs, stack
      ensures View() == Final(prog, helpers, Init(ctx, old(stack[..])))
      ensures match Run(prog, helpers, Init(ctx, old(stack[..])))
              case Ok(v) => r == Ok(v.regs[0]) && View() == v
              case Err(e) => r == Err(e)
              case Panic(i) => r == Panic(i)
    {
      for k := 0 to REG_COUNT
        invariant forall j | 0 <= j < k :: regs[j] == 0
        invariant stack[..] == old(stack[..])
      {
        regs[k] := 0;
      }
      regs[REG_FP], regs[1] := STACK_SIZE, ctx;
      pc, steps, running := 0, 0, true;
      assert View() == Init(ctx, old(stack[..]));
      ghost var start := View();
      while running
        invariant Valid()
        invariant Run(prog, helpers, View()) == Run(prog, helpers, start)
        invariant Final(prog, helpers, View()) == Final(prog, helpers, start)
        decreases MAX_STEPS - steps, running
      {
        if pc >= |prog| { return Err(UnreachableInstruction(pc)); }
        if steps >= MAX_STEPS { return Err(ExceededStepLimit); }
        var _ :- DoStep(prog, helpers);
      }
      return Ok(regs[0]);
    }
  }
}
