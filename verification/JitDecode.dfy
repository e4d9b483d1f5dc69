/** What the emitted encodings decode to. A prefix without the REX.B bit reaches only the low
    eight registers, so some forms name register `dst % 8` instead of `dst`. */
module JitDecode {
  import opened Words
  import opened X86
  import opened Jit

  /** The bytes b stand at position p of the code. */
  predicate Here(code: seq<u8>, p: nat, b: seq<u8>)
  {
    p + |b| <= |code| && code[p..p + |b|] == b
  }

  lemma HereAt(code: seq<u8>, p: nat, b: seq<u8>, i: nat)
    requires Here(code, p, b) && i < |b|
    ensures At(code, p + i) == b[i]
  {
    assert code[p..p + |b|][i] == code[p + i];
  }

  lemma HereSplit(code: seq<u8>, p: nat, a: seq<u8>, b: seq<u8>)
    requires Here(code, p, a + b)
    ensures Here(code, p, a) && Here(code, p + |a|, b)
  {
    var s := code[p..p + |a + b|];
    assert s[..|a|] == code[p..p + |a|];
    assert s[|a|..] == code[p + |a|..p + |a| + |b|];
    assert (a + b)[..|a|] == a;
    assert (a + b)[|a|..] == b;
  }

  lemma HereImm32(code: seq<u8>, p: nat, imm: i32)
    requires Here(code, p, Imm4(imm))
    ensures p + 4 <= |code| && Imm32(code, p) == imm
  {
    Le32RoundTrip(U32(imm));
  }

  lemma HereImm64(code: seq<u8>, p: nat, v: u64)
    requires Here(code, p, Le64(v))
    ensures p + 8 <= |code| && Imm64(code, p) == v
  {
    Le64RoundTrip(v);
  }

  function Reach(is64: bool, r: Gpr): Gpr { if is64 then r else r % 8 }

  const RR_OPCODES: set<int> := {0x01, 0x09, 0x21, 0x29, 0x31, 0x39, 0x85, 0x89}

  lemma RexBits(reg: Gpr, rm: Gpr)
    ensures var rex := RexRR(reg, rm) - 0x40;
            && 0 <= rex < 16 && rex / 8 == 1 && rex / 2 % 2 == 0
            && rex / 4 % 2 * 8 + reg % 8 == reg && rex % 2 * 8 + rm % 8 == rm
  {
  }

  lemma ModRMBits(reg: nat, rm: nat)
    ensures var b := ModRM(3, reg, rm); b >= 0xC0 && b / 8 % 8 == reg % 8 && b % 8 == rm % 8
  {
  }

  lemma DecodeAluRR(code: seq<u8>, p: nat, opcode: u8, dst: Gpr, src: Gpr, is64: bool)
    requires opcode in RR_OPCODES && Here(code, p, AluRR(opcode, dst, src, is64))
    ensures Decode(code, p) == Good(Rr(RrOp(opcode), is64, Reach(is64, dst), Reach(is64, src)), |AluRR(opcode, dst, src, is64)|)
  {
    var b := AluRR(opcode, dst, src, is64);
    HereAt(code, p, b, 0);
    HereAt(code, p, b, 1);
    ModRMBits(src, dst);
    if is64 {
      HereAt(code, p, b, 2);
      RexBits(src, dst);
    }
  }

  lemma DecodeAluRI(code: seq<u8>, p: nat, ext: nat, dst: Gpr, imm: i32, is64: bool)
    requires ext in {0, 1, 4, 5, 6, 7} && Here(code, p, AluRI(ext, dst, imm, is64))
    ensures Decode(code, p) == Good(Ri(ExtOp(ext), is64, dst % 8, imm), |AluRI(ext, dst, imm, is64)|)
  {
    var head := PrefixW(is64) + [0x81, ModRM(3, ext, dst)];
    HereSplit(code, p, head, Imm4(imm));
    HereImm32(code, p + |head|, imm);
    HereAt(code, p, head, 0);
    HereAt(code, p, head, 1);
    ModRMBits(ext, dst);
    if is64 { HereAt(code, p, head, 2); }
  }

  lemma DecodeMovRI(code: seq<u8>, p: nat, dst: Gpr, imm: i32, is64: bool)
    requires Here(code, p, MovRI(dst, imm, is64))
    ensures Decode(code, p)
            == Good(if is64 then Ri(Mov, true, dst % 8, imm) else MovImm(dst % 8, U32(imm)), |MovRI(dst, imm, is64)|)
  {
    var head := if is64 then [REX_W, 0xC7, ModRM(3, 0, dst)] else [0xB8 + dst % 8];
    HereSplit(code, p, head, Imm4(imm));
    HereImm32(code, p + |head|, imm);
    HereAt(code, p, head, 0);
    if is64 {
      HereAt(code, p, head, 1);
      HereAt(code, p, head, 2);
      ModRMBits(0, dst);
    }
  }

  lemma DecodeMovImm64(code: seq<u8>, p: nat, dst: Gpr, v: u64)
    requires Here(code, p, MovImm64(dst, v))
    ensures Decode(code, p) == Good(MovImm(dst, v), 10)
  {
    var head := [REX_W + (if dst >= 8 then 1 else 0), 0xB8 + dst % 8];
    HereSplit(code, p, head, Le64(v));
    HereImm64(code, p + 2, v);
    HereAt(code, p, head, 0);
    HereAt(code, p, head, 1);
  }

  lemma DecodeUnary(code: seq<u8>, p: nat, ext: nat, dst: Gpr, is64: bool)
    requires ext in {3, 6} && Here(code, p, UnaryF7(ext, dst, is64))
    ensures Decode(code, p)
            == Good(if ext == 3 then Neg(is64, dst % 8) else Div(is64, dst % 8), |UnaryF7(ext, dst, is64)|)
  {
    var b := UnaryF7(ext, dst, is64);
    HereAt(code, p, b, 0);
    HereAt(code, p, b, 1);
    ModRMBits(ext, dst);
    if is64 { HereAt(code, p, b, 2); }
  }

  lemma DecodeTestRI(code: seq<u8>, p: nat, dst: Gpr, imm: i32, is64: bool)
    requires Here(code, p, UnaryF7(0, dst, is64) + Imm4(imm))
    ensures Decode(code, p) == Good(Ri(Test, is64, dst % 8, imm), |UnaryF7(0, dst, is64)| + 4)
  {
    var head := UnaryF7(0, dst, is64);
    HereSplit(code, p, head, Imm4(imm));
    HereImm32(code, p + |head|, imm);
    HereAt(code, p, head, 0);
    HereAt(code, p, head, 1);
    ModRMBits(0, dst);
    if is64 { HereAt(code, p, head, 2); }
  }

  /** The `test` of JSET is emitted with the REX bits of its two registers exchanged. */
  function CrossedDst(is64: bool, dst: Gpr, src: Gpr): Gpr { dst % 8 + if is64 && src >= 8 then 8 else 0 }

  lemma DecodeTestRR(code: seq<u8>, p: nat, dst: Gpr, src: Gpr, is64: bool)
    requires Here(code, p, PrefixRR(is64, dst, src) + [0x85, ModRM(3, src, dst)])
    ensures Decode(code, p) == Good(Rr(Test, is64, CrossedDst(is64, dst, src), CrossedDst(is64, src, dst)), if is64 then 3 else 2)
  {
    var b := PrefixRR(is64, dst, src) + [0x85, ModRM(3, src, dst)];
    HereAt(code, p, b, 0);
    HereAt(code, p, b, 1);
    ModRMBits(src, dst);
    if is64 {
      HereAt(code, p, b, 2);
      RexBits(dst, src);
    }
  }

  lemma DecodeMulRR(code: seq<u8>, p: nat, dst: Gpr, src: Gpr, is64: bool)
    requires Here(code, p, MulBytes(true, dst, src, 0, is64))
    ensures Decode(code, p) == Good(ImulRr(is64, Reach(is64, dst), Reach(is64, src)), |MulBytes(true, dst, src, 0, is64)|)
  {
    var b := MulBytes(true, dst, src, 0, is64);
    HereAt(code, p, b, 0);
    HereAt(code, p, b, 1);
    HereAt(code, p, b, 2);
    ModRMBits(dst, src);
    if is64 {
      HereAt(code, p, b, 3);
      RexBits(dst, src);
    }
  }

  lemma DecodeMulRI(code: seq<u8>, p: nat, dst: Gpr, imm: i32, is64: bool)
    requires Here(code, p, MulBytes(false, dst, 0, imm, is64))
    ensures Decode(code, p)
            == Good(ImulRri(is64, Reach(is64, dst), Reach(is64, dst), imm), |MulBytes(false, dst, 0, imm, is64)|)
  {
    var head := PrefixRR(is64, dst, dst) + [0x69, ModRM(3, dst, dst)];
    HereSplit(code, p, head, Imm4(imm));
    HereImm32(code, p + |head|, imm);
    HereAt(code, p, head, 0);
    HereAt(code, p, head, 1);
    ModRMBits(dst, dst);
    if is64 {
      HereAt(code, p, head, 2);
      RexBits(dst, dst);
    }
  }

  lemma DecodeShiftImm(code: seq<u8>, p: nat, ext: nat, dst: Gpr, imm: i32, is64: bool)
    requires ext in {4, 5, 7} && Here(code, p, ShiftBytes(ext, false, dst, 0, imm, is64))
    ensures Decode(code, p)
            == Good(ShiftImm(ShiftKind(ext), is64, dst % 8, U32(imm) % 256), |ShiftBytes(ext, false, dst, 0, imm, is64)|)
  {
    var b := ShiftBytes(ext, false, dst, 0, imm, is64);
    HereAt(code, p, b, 0);
    HereAt(code, p, b, 1);
    HereAt(code, p, b, 2);
    ModRMBits(ext, dst);
    if is64 { HereAt(code, p, b, 3); }
  }

  lemma DecodeShiftCl(code: seq<u8>, p: nat, ext: nat, dst: Gpr, is64: bool)
    requires ext in {4, 5, 7} && Here(code, p, PrefixW(is64) + [0xD3, ModRM(3, ext, dst)])
    ensures Decode(code, p) == Good(ShiftCl(ShiftKind(ext), is64, dst % 8), if is64 then 3 else 2)
  {
    var b := PrefixW(is64) + [0xD3, ModRM(3, ext, dst)];
    HereAt(code, p, b, 0);
    HereAt(code, p, b, 1);
    ModRMBits(ext, dst);
    if is64 { HereAt(code, p, b, 2); }
  }

  lemma DecodeXorRdx(code: seq<u8>, p: nat, is64: bool)
    requires Here(code, p, PrefixW(is64) + [0x31, ModRM(3, RDX, RDX)])
    ensures Decode(code, p) == Good(Rr(Xor, is64, RDX, RDX), if is64 then 3 else 2)
  {
    var b := PrefixW(is64) + [0x31, ModRM(3, RDX, RDX)];
    HereAt(code, p, b, 0);
    HereAt(code, p, b, 1);
    if is64 { HereAt(code, p, b, 2); }
  }

  lemma DecodePush(code: seq<u8>, p: nat, r: Gpr)
    requires Here(code, p, PushBytes(r))
    ensures Decode(code, p) == Good(Push(r), |PushBytes(r)|)
  {
    HereAt(code, p, PushBytes(r), 0);
    if r >= 8 { HereAt(code, p, PushBytes(r), 1); }
  }

  lemma DecodePop(code: seq<u8>, p: nat, r: Gpr)
    requires Here(code, p, PopBytes(r))
    ensures Decode(code, p) == Good(Pop(r), |PopBytes(r)|)
  {
    HereAt(code, p, PopBytes(r), 0);
    if r >= 8 { HereAt(code, p, PopBytes(r), 1); }
  }

  lemma DecodeRet(code: seq<u8>, p: nat)
    requires Here(code, p, [0xC3])
    ensures Decode(code, p) == Good(Ret, 1)
  {
    HereAt(code, p, [0xC3], 0);
  }

  lemma DecodeJmp(code: seq<u8>, p: nat, rel: i32)
    requires Here(code, p, [0xE9] + Imm4(rel))
    ensures Decode(code, p) == Good(Jmp(rel), 5)
  {
    HereSplit(code, p, [0xE9], Imm4(rel));
    HereImm32(code, p + 1, rel);
    HereAt(code, p, [0xE9], 0);
  }

  lemma DecodeJcc(code: seq<u8>, p: nat, cc: u8, rel: i32)
    requires cc in {0x82, 0x83, 0x84, 0x85, 0x86, 0x87, 0x8D, 0x8F} && Here(code, p, [0x0F, cc] + Imm4(rel))
    ensures Decode(code, p) == Good(Jcc(CondOf(cc), rel), 6)
  {
    HereSplit(code, p, [0x0F, cc], Imm4(rel));
    HereImm32(code, p + 2, rel);
    HereAt(code, p, [0x0F, cc], 0);
    HereAt(code, p, [0x0F, cc], 1);
  }
}
