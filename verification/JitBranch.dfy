/** Branches, the prologue and the epilogue. */
module JitBranch {
  import opened Words
  import opened BpfIsa
  import opened Jit
  import opened JitDecode
  import opened JitSim
  import opened JitAlu
  import X86
  import opened X86Names = X86

  // ----- comparisons -----

  /** The operation whose flags the conditional jump reads. */
  function FlagOp(op: nat): Op { if op == JSET then Test else Cmp }

  lemma SubFlags(w: bool, a: u64, b: u64)
    ensures var x, y, v := Trunc(w, a), Trunc(w, b), Value(Cmp, w, a, b);
            && (v == 0 <==> x == y)
            && ((Negative(w, v) == (Negative(w, x) != Negative(w, y) && Negative(w, v) != Negative(w, x))) <==> Signed(w, x) >= Signed(w, y))
  {
    hide U64, U32;
    var x, y := Trunc(w, a), Trunc(w, b);
    TruncTwice(w, a);
    TruncTwice(w, b);
    WrapOnce(a);
    WrapOnce(b);
    WrapOnce(x);
    WrapOnce(y);
    WrapOnce(x as int - y as int);
    WrapOnce(U64(x as int - y as int));
    WrapOnce(U32(x as int - y as int));
  }

  lemma SignedOfTrunc(w: bool, a: u64)
    ensures Signed(w, Trunc(w, a)) == Signed(w, a)
  {
  }

  lemma TestFlags(w: bool, a: u64, b: u64)
    ensures Value(Test, w, a, b) == 0 <==> And64(Trunc(w, a), Trunc(w, b)) == 0
  {
    hide And64;
    AndBound(Trunc(w, a), Trunc(w, b));
    WrapOnce(And64(Trunc(w, a), Trunc(w, b)));
  }

  /** The condition code chosen for an operation holds of the flags exactly when the branch is taken. */
  lemma ConditionMatches(insn: Insn, w: bool, a: u64, b: u64, before: Flags)
    requires CondOp(insn.Op())
    ensures FlagsOf(FlagOp(insn.Op()), w, a, b, before).Flags?
    ensures Taken(insn, Trunc(w, a), Trunc(w, b), Signed(w, a), Signed(w, b))
            == Ok(Holds(CondOf(CondCode(insn.Op())), FlagsOf(FlagOp(insn.Op()), w, a, b, before)))
  {
    hide Value, Trunc, Signed, And64, Negative;
    SubFlags(w, a, b);
    TestFlags(w, a, b);
    SignedOfTrunc(w, a);
    SignedOfTrunc(w, b);
    SignedEqual(w, a, b);
  }

  lemma SignedEqual(w: bool, a: u64, b: u64)
    ensures Trunc(w, a) == Trunc(w, b) <==> Signed(w, a) == Signed(w, b)
  {
    hide U64, U32;
    WrapOnce(a);
    WrapOnce(b);
  }

  // ----- running a branch -----

  /** Running k instructions moves past n bytes and sets the flags to f, changing nothing else. */
  ghost predicate Sets(code: seq<u8>, m: Machine, k: nat, m': Machine, f: Flags, n: nat)
  {
    X86.Run(code, m, k) == Next(m') && m' == m.(flags := f, rip := m.rip + n)
  }

  lemma RunCmp(code: seq<u8>, m: Machine, x: bool, dst: Gpr, src: Gpr, imm: i32, w: bool) returns (m': Machine)
    requires m.rip >= 0 && (!w ==> dst < 8 && (x ==> src < 8)) && (x || dst < 8)
    requires Here(code, m.rip, if x then AluRR(0x39, dst, src, w) else AluRI(7, dst, imm, w))
    ensures Sets(code, m, 1, m', FlagsOf(Cmp, w, m.regs[dst], if x then m.regs[src] else U64(imm), m.flags),
                 if x then |AluRR(0x39, dst, src, w)| else |AluRI(7, dst, imm, w)|)
  {
    hide Decode, DecodeBody, Value, AluRR, AluRI, Here, FlagsOf, U64;
    if x {
      DecodeAluRR(code, m.rip, 0x39, dst, src, w);
      var n := |AluRR(0x39, dst, src, w)|;
      m' := Arith(Cmp, w, dst, m.regs[src], m.(rip := m.rip + n));
      OneStep(code, m, Rr(Cmp, w, dst, src), n, m');
    } else {
      DecodeAluRI(code, m.rip, 7, dst, imm, w);
      var n := |AluRI(7, dst, imm, w)|;
      m' := Arith(Cmp, w, dst, U64(imm), m.(rip := m.rip + n));
      OneStep(code, m, Ri(Cmp, w, dst, imm), n, m');
    }
  }

  function TestBytes(x: bool, dst: Gpr, src: Gpr, imm: i32, w: bool): seq<u8>
  {
    if x then PrefixRR(w, dst, src) + [0x85, ModRM(3, src, dst)] else UnaryF7(0, dst, w) + Imm4(imm)
  }

  lemma RunTest(code: seq<u8>, m: Machine, x: bool, dst: Gpr, src: Gpr, imm: i32, w: bool) returns (m': Machine)
    requires m.rip >= 0 && (!w ==> dst < 8 && (x ==> src < 8)) && (if x then dst < 8 <==> src < 8 else dst < 8)
    requires Here(code, m.rip, TestBytes(x, dst, src, imm, w))
    ensures Sets(code, m, 1, m', FlagsOf(Test, w, m.regs[dst], if x then m.regs[src] else U64(imm), m.flags), |TestBytes(x, dst, src, imm, w)|)
  {
    hide Decode, DecodeBody, Value, PrefixRR, UnaryF7, Imm4, ModRM, Here, FlagsOf, U64;
    var n := |TestBytes(x, dst, src, imm, w)|;
    if x {
      DecodeTestRR(code, m.rip, dst, src, w);
      m' := Arith(Test, w, dst, m.regs[src], m.(rip := m.rip + n));
      OneStep(code, m, Rr(Test, w, dst, src), n, m');
    } else {
      DecodeTestRI(code, m.rip, dst, imm, w);
      m' := Arith(Test, w, dst, U64(imm), m.(rip := m.rip + n));
      OneStep(code, m, Ri(Test, w, dst, imm), n, m');
    }
  }

  lemma CompareLayout(op: nat, x: bool, dst: Gpr, src: Gpr, imm: i32, w: bool)
    ensures CompareBytes(op, x, dst, src, imm, w)
            == (if x then AluRR(0x39, dst, src, w) else AluRI(7, dst, imm, w))
               + if op == JSET then TestBytes(x, dst, src, imm, w) else []
  {
    hide AluRR, AluRI, PrefixRR, UnaryF7, Imm4, ModRM;
  }

  /** JSET compares first and tests second, so that the flags are those of the test. */
  lemma RunCompare(code: seq<u8>, m: Machine, op: nat, x: bool, dst: Gpr, src: Gpr, imm: i32, w: bool) returns (k: nat, m': Machine)
    requires m.rip >= 0 && (!w ==> dst < 8 && (x ==> src < 8)) && (x || dst < 8) && (op == JSET && x ==> (dst < 8 <==> src < 8))
    requires Here(code, m.rip, CompareBytes(op, x, dst, src, imm, w))
    ensures var b := if x then m.regs[src] else U64(imm);
            exists before :: Sets(code, m, k, m', FlagsOf(FlagOp(op), w, m.regs[dst], b, before), |CompareBytes(op, x, dst, src, imm, w)|)
  {
    hide Value, AluRR, AluRI, Here, TestBytes, CompareBytes, X86.Run, FlagsOf, U64;
    CompareLayout(op, x, dst, src, imm, w);
    var cmp := if x then AluRR(0x39, dst, src, w) else AluRI(7, dst, imm, w);
    var test := if op == JSET then TestBytes(x, dst, src, imm, w) else [];
    HereSplit(code, m.rip, cmp, test);
    var m1 := RunCmp(code, m, x, dst, src, imm, w);
    if op == JSET {
      m' := RunTest(code, m1, x, dst, src, imm, w);
      Then(code, m, 1, m1, 1, m');
      k := 2;
      assert Sets(code, m, k, m', FlagsOf(Test, w, m.regs[dst], if x then m.regs[src] else U64(imm), m1.flags), |cmp + test|);
    } else {
      k, m' := 1, m1;
      assert Sets(code, m, k, m', FlagsOf(Cmp, w, m.regs[dst], if x then m.regs[src] else U64(imm), m.flags), |cmp + test|);
    }
  }

  lemma CondCodeValid(op: nat)
    requires CondOp(op)
    ensures CondCode(op) in {0x82, 0x83, 0x84, 0x85, 0x86, 0x87, 0x8D, 0x8F}
  {
  }

  lemma RunJcc(code: seq<u8>, m: Machine, cc: u8, rel: i32) returns (m': Machine)
    requires m.rip >= 0 && cc in {0x82, 0x83, 0x84, 0x85, 0x86, 0x87, 0x8D, 0x8F} && Here(code, m.rip, [0x0F, cc] + Imm4(rel)) && m.flags.Flags?
    ensures X86.Run(code, m, 1) == Next(m')
    ensures m' == m.(rip := m.rip + 6 + if Holds(CondOf(cc), m.flags) then rel else 0)
  {
    hide Decode, DecodeBody, Here, Imm4;
    DecodeJcc(code, m.rip, cc, rel);
    m' := m.(rip := m.rip + 6 + if Holds(CondOf(cc), m.flags) then rel else 0);
    OneStep(code, m, Jcc(CondOf(cc), rel), 6, m');
  }

  /** A compiled conditional branch goes to its target exactly when the interpreter takes it. */
  lemma RunBranch(code: seq<u8>, m: Machine, insn: Insn, rel: i32) returns (k: nat, m': Machine)
    requires insn.Class() == JMP || insn.Class() == JMP32
    requires FaithfulBranch(insn) && m.rip >= 0
    requires Here(code, m.rip, JumpHead(insn.Op(), insn.SrcIsReg(), HostReg(insn.Dst()), HostReg(insn.Src()), insn.imm, insn.Class() == JMP) + Imm4(rel))
    ensures var w, a, b := insn.Class() == JMP, m.regs[HostReg(insn.Dst())], HostOperand(insn, m.regs);
            var head := JumpHead(insn.Op(), insn.SrcIsReg(), HostReg(insn.Dst()), HostReg(insn.Src()), insn.imm, insn.Class() == JMP);
            var taken := Taken(insn, Trunc(w, a), Trunc(w, b), Signed(w, a), Signed(w, b));
            && taken.Ok?
            && X86.Run(code, m, k) == Next(m')
            && m'.regs == m.regs && m'.mem == m.mem
            && m'.rip == m.rip + |head| + 4 + if taken.value then rel else 0
  {
    hide Here, X86.Run, CompareBytes, FlagsOf, Imm4, Low, HostReg, Trunc, Signed, U64, Taken, Holds;
    var op, x, w := insn.Op(), insn.SrcIsReg(), insn.Class() == JMP;
    var dst, src := HostReg(insn.Dst()), HostReg(insn.Src());
    var a, b := m.regs[dst], HostOperand(insn, m.regs);
    LowHost(insn.Dst());
    if x { LowHost(insn.Src()); }
    CondCodeValid(op);
    var cmp := CompareBytes(op, x, dst, src, insn.imm, w);
    assert op != JA;
    assert (cmp + [0x0F, CondCode(op)]) + Imm4(rel) == cmp + ([0x0F, CondCode(op)] + Imm4(rel));
    HereSplit(code, m.rip, cmp, [0x0F, CondCode(op)] + Imm4(rel));
    var k1, m1 := RunCompare(code, m, op, x, dst, src, insn.imm, w);
    var before :| Sets(code, m, k1, m1, FlagsOf(FlagOp(op), w, a, b, before), |cmp|);
    ConditionMatches(insn, w, a, b, before);
    m' := RunJcc(code, m1, CondCode(op), rel);
    Then(code, m, k1, m1, 1, m');
    k := k1 + 1;
  }

  lemma RunJa(code: seq<u8>, m: Machine, rel: i32) returns (m': Machine)
    requires m.rip >= 0 && Here(code, m.rip, [0xE9] + Imm4(rel))
    ensures X86.Run(code, m, 1) == Next(m') && m' == m.(rip := m.rip + 5 + rel)
  {
    hide Decode, DecodeBody, Here, Imm4;
    DecodeJmp(code, m.rip, rel);
    m' := m.(rip := m.rip + 5 + rel);
    OneStep(code, m, Jmp(rel), 5, m');
  }

  lemma RunMovImm64(code: seq<u8>, m: Machine, dst: Gpr, v: u64) returns (m': Machine)
    requires m.rip >= 0 && Here(code, m.rip, MovImm64(dst, v)) && dst != RSP
    ensures Writes(code, m, 1, m', dst, v, 10)
  {
    hide Decode, DecodeBody, Here, MovImm64;
    DecodeMovImm64(code, m.rip, dst, v);
    m' := m.(regs := m.regs[dst := v], rip := m.rip + 10);
    OneStep(code, m, MovImm(dst, v), 10, m');
  }
}
