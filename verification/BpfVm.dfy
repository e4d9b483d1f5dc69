/** The eBPF virtual machine: a step function on machine values, and the object that
    performs the steps in place. */
module BpfVm {
  import opened Options
  import opened Words
  import opened Bytes
  import opened BpfIsa

  type Regs = r: seq<u64> | |r| == REG_COUNT witness seq(REG_COUNT, _ => 0)
  type Stack = s: seq<u8> | |s| == STACK_SIZE witness seq(STACK_SIZE, _ => 0)

  datatype Vm = Vm(regs: Regs, stack: Stack, pc: nat, steps: nat, running: bool)

  /** The helper table. A helper may answer differently on every call, so its result also
      depends on the number of the step that calls it; None is an unregistered helper. */
  type Helpers = (u32, nat, seq<u64>) -> Option<u64>

  /** Machine state at the start of `execute`; the stack keeps whatever it held before. */
  function Init(ctx: u64, stack: Stack): Vm
  {
    Vm(seq(REG_COUNT, i => if i == REG_FP then STACK_SIZE else if i == 1 then ctx else 0), stack, 0, 0, true)
  }

  // ----- stack memory -----

  function Width(insn: Insn): (n: nat)
    ensures n in {1, 2, 4, 8}
  {
    var m := insn.MemSize();
    if m == B then 1 else if m == H then 2 else if m == W then 4 else 8
  }

  /** The lowest index of the access; addresses name the end of the accessed range. */
  function StackIndex(addr: u64, size: nat): (r: Outcome<nat>)
    ensures r.Ok? ==> r.value + size <= STACK_SIZE
  {
    if addr < size || addr > STACK_SIZE then Err(StackOutOfBounds(addr, size)) else Ok(addr - size)
  }

  function Load(stack: Stack, addr: u64, size: nat): (r: Outcome<u64>)
    requires size <= 8
  {
    var i :- StackIndex(addr, size);
    FromLeBound(stack[i..i + size]);
    PowMono(size, 8);
    Pow256Values();
    Ok(FromLe(stack[i..i + size]))
  }

  function Store(stack: Stack, addr: u64, size: nat, val: u64): Outcome<Stack>
  {
    var i :- StackIndex(addr, size);
    Ok(Splice(stack, i, Le(val, size)))
  }

  lemma {:induction false} PowMono(a: nat, b: nat)
    requires a <= b
    ensures Pow256(a) <= Pow256(b)
    decreases b
  {
    if a < b { PowMono(a, b - 1); }
  }

  // ----- one instruction -----

  /** Second operand of a 64-bit operation: a register or the sign-extended immediate. */
  function Operand(insn: Insn, regs: Regs): Outcome<u64>
  {
    if !insn.SrcIsReg() then Ok(U64(insn.imm))
    else if insn.Src() < REG_COUNT then Ok(regs[insn.Src()])
    else Panic(insn.Src())
  }

  function CheckedOperand(insn: Insn, regs: Regs): (r: Outcome<u64>)
    ensures !r.Panic?
  {
    if insn.SrcIsReg() && insn.Src() >= REG_COUNT then Err(InvalidRegister(insn.Src())) else Operand(insn, regs)
  }

  predicate Writable(r: nat) { r < REG_COUNT && r != REG_FP }

  function ExecAlu(insn: Insn, s: Vm): Outcome<Vm>
  {
    var dst := insn.Dst();
    if !Writable(dst) then Err(InvalidRegister(dst)) else
    var b :- CheckedOperand(insn, s.regs);
    var v :- if insn.Class() == ALU64 then Alu64(insn, s.regs[dst], b) else Alu32(insn, U32(s.regs[dst]), U32(b));
    Ok(s.(regs := s.regs[dst := v], pc := s.pc + 1))
  }

  /** `(pc as i64 + 1 + off as i64) as usize`. */
  function Target(pc: nat, off: i16): nat { U64(pc + 1 + off) }

  function JumpTo(s: Vm, off: i16, len: nat): Outcome<Vm>
  {
    var t := Target(s.pc, off);
    if t >= len then Err(UnreachableInstruction(t)) else Ok(s.(pc := t))
  }

  function ExecBranch(insn: Insn, s: Vm, len: nat): Outcome<Vm>
  {
    if insn.Dst() >= REG_COUNT then Panic(insn.Dst()) else
    var b :- Operand(insn, s.regs);
    var d := s.regs[insn.Dst()];
    var taken :- if insn.Class() == JMP then Taken(insn, d, b, I64(d), I64(b))
                 else Taken(insn, U32(d), U32(b), I32(U32(d)), I32(U32(b)));
    if taken then JumpTo(s, insn.off, len) else Ok(s.(pc := s.pc + 1))
  }

  function ExecJmp(insn: Insn, s: Vm, len: nat, helpers: Helpers): Outcome<Vm>
  {
    if insn.Op() == EXIT then Ok(s.(running := false))
    else if insn.Op() == CALL then
      var id := U32(insn.imm);
      var r := if id < 64 then helpers(id, s.steps, s.regs[1..6]) else None;
      if r.None? then Err(UnknownHelper(id)) else Ok(s.(regs := s.regs[0 := r.value], pc := s.pc + 1))
    else if insn.Op() == JA then JumpTo(s, insn.off, len)
    else ExecBranch(insn, s, len)
  }

  function Address(base: u64, off: i16): u64 { U64(I64(base) + off) }

  function ExecLdx(insn: Insn, s: Vm): Outcome<Vm>
  {
    if !Writable(insn.Dst()) then Err(InvalidRegister(insn.Dst()))
    else if insn.Src() >= REG_COUNT then Err(InvalidRegister(insn.Src())) else
    var v :- Load(s.stack, Address(s.regs[insn.Src()], insn.off), Width(insn));
    Ok(s.(regs := s.regs[insn.Dst() := v], pc := s.pc + 1))
  }

  function ExecStore(insn: Insn, s: Vm): Outcome<Vm>
  {
    if insn.Dst() >= REG_COUNT then Err(InvalidRegister(insn.Dst()))
    else if insn.Class() == STX && insn.Src() >= REG_COUNT then Err(InvalidRegister(insn.Src())) else
    var v := if insn.Class() == STX then s.regs[insn.Src()] else U64(insn.imm);
    var m :- Store(s.stack, Address(s.regs[insn.Dst()], insn.off), Width(insn), v);
    Ok(s.(stack := m, pc := s.pc + 1))
  }

  function ExecLd(insn: Insn, s: Vm, prog: seq<Insn>): Outcome<Vm>
  {
    if !Writable(insn.Dst()) then Err(InvalidRegister(insn.Dst()))
    else if insn.MemSize() != DW then Err(InvalidOpcode(insn.opcode))
    else if s.pc + 1 >= |prog| then Err(UnreachableInstruction(s.pc + 1)) else
    var v := U32(insn.imm) + U32(prog[s.pc + 1].imm) * TWO32;
    Ok(s.(regs := s.regs[insn.Dst() := v], pc := s.pc + 2))
  }

  /** One iteration of the loop of `execute`. */
  function Step(prog: seq<Insn>, helpers: Helpers, s0: Vm): (r: Outcome<Vm>)
    requires s0.pc < |prog|
    ensures r.Ok? ==> r.value.steps == s0.steps + 1
  {
    var insn := prog[s0.pc];
    var s := s0.(steps := s0.steps + 1);
    var c := insn.Class();
    if c == ALU64 || c == ALU then ExecAlu(insn, s)
    else if c == JMP then ExecJmp(insn, s, |prog|, helpers)
    else if c == JMP32 then ExecBranch(insn, s, |prog|)
    else if c == LDX then ExecLdx(insn, s)
    else if c == ST || c == STX then ExecStore(insn, s)
    else ExecLd(insn, s, prog)
  }

  /** The loop of `execute`, run to its end from state s. */
  function Run(prog: seq<Insn>, helpers: Helpers, s: Vm): Outcome<Vm>
    decreases MAX_STEPS - s.steps
  {
    if !s.running then Ok(s)
    else if s.pc >= |prog| then Err(UnreachableInstruction(s.pc))
    else if s.steps >= MAX_STEPS then Err(ExceededStepLimit)
    else
      var s' :- Step(prog, helpers, s);
      Run(prog, helpers, s')
  }

  // ----- what every program keeps -----

  /** States linked by single steps, as `execute` visits them. */
  ghost predicate IsRun(prog: seq<Insn>, helpers: Helpers, tr: seq<Vm>)
  {
    && tr != []
    && forall i | 0 <= i < |tr| - 1 ::
         tr[i].running && tr[i].pc < |prog| && Step(prog, helpers, tr[i]) == Ok(tr[i + 1])
  }

  /** The frame pointer is never overwritten, whatever the program. */
  lemma {:induction false} FramePointerIsConstant(prog: seq<Insn>, helpers: Helpers, ctx: u64, stack: Stack, tr: seq<Vm>, k: nat)
    requires IsRun(prog, helpers, tr) && tr[0] == Init(ctx, stack) && k < |tr|
    ensures tr[k].regs[REG_FP] == STACK_SIZE
  {
    if k > 0 {
      FramePointerIsConstant(prog, helpers, ctx, stack, tr, k - 1);
      assert Step(prog, helpers, tr[k - 1]) == Ok(tr[k]);
    }
  }

  /** A completed store; addresses name the end of the range [addr - size, addr). */
  datatype Write = Write(addr: u64, size: nat, val: u64)

  function Apply(stack: Stack, ws: seq<Write>): Outcome<Stack>
    decreases |ws|
  {
    if ws == [] then Ok(stack)
    else
      var m :- Store(stack, ws[0].addr, ws[0].size, ws[0].val);
      Apply(m, ws[1..])
  }

  predicate Disjoint(w: Write, addr: u64, size: nat)
  {
    w.addr <= addr - size || addr <= w.addr - w.size
  }

  lemma StoreElsewhere(stack: Stack, w: Write, addr: u64, size: nat)
    requires size <= 8 && Disjoint(w, addr, size) && Store(stack, w.addr, w.size, w.val).Ok?
    ensures Load(Store(stack, w.addr, w.size, w.val).value, addr, size) == Load(stack, addr, size)
  {
    var m := Store(stack, w.addr, w.size, w.val).value;
    if size <= addr <= STACK_SIZE { assert m[addr - size..addr] == stack[addr - size..addr]; }
  }

  lemma {:induction false} LoadUnaffected(stack: Stack, ws: seq<Write>, addr: u64, size: nat)
    requires size <= 8
    requires Apply(stack, ws).Ok?
    requires forall i | 0 <= i < |ws| :: Disjoint(ws[i], addr, size)
    ensures Load(Apply(stack, ws).value, addr, size) == Load(stack, addr, size)
    decreases |ws|
  {
    hide Load, Store;
    if ws != [] {
      var w := ws[0];
      var m := Store(stack, w.addr, w.size, w.val).value;
      forall i | 0 <= i < |ws[1..]| ensures Disjoint(ws[1..][i], addr, size) {
        assert ws[1..][i] == ws[i + 1];
      }
      LoadUnaffected(m, ws[1..], addr, size);
      StoreElsewhere(stack, w, addr, size);
    }
  }

  /** A stored value is read back, reduced to the width of the access, after any number of
      stores to disjoint ranges. */
  lemma StoreThenLoad(stack: Stack, addr: u64, size: nat, val: u64, later: seq<Write>)
    requires size <= 8
    requires Apply(stack, [Write(addr, size, val)] + later).Ok?
    requires forall i | 0 <= i < |later| :: Disjoint(later[i], addr, size)
    ensures Load(Apply(stack, [Write(addr, size, val)] + later).value, addr, size) == Ok(val % Pow256(size))
  {
    var ws := [Write(addr, size, val)] + later;
    assert ws[1..] == later;
    var m := Store(stack, addr, size, val).value;
    LoadUnaffected(m, later, addr, size);
    assert m[addr - size..addr] == Le(val, size);
    LeRoundTrip(val, size);
  }
}
