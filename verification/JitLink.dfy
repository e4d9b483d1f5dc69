/** The compiler's entry point: check, emit every slot, fix up the branches. */
module JitLink {
  import opened Words
  import opened BpfIsa
  import opened BpfVerifier
  import opened Jit
  import Linker

  /** `(idx as i64 + off as i64 + 1) as usize`. */
  function TargetSlot(i: nat, off: i16): nat { U64(i + off + 1) }

  function PieceOf(insn: Insn, i: nat, table: HelperTable): Linker.Piece
  {
    Linker.Piece(Emit(insn, table), HasFixup(insn), TargetSlot(i, insn.off))
  }

  function Pieces(prog: seq<Insn>, table: HelperTable): (ps: seq<Linker.Piece>)
    ensures |ps| == |prog|
    ensures Linker.WellFormed(Prologue(), ps)
  {
    seq(|prog|, i requires 0 <= i < |prog| => PieceOf(prog[i], i, table))
  }

  /** Every slot that ends in a jump, scanned by the checker or not, is aimed at a slot or at the end. */
  predicate JumpsResolve(prog: seq<Insn>)
  {
    forall i | 0 <= i < |prog| :: HasFixup(prog[i]) ==> TargetSlot(i, prog[i].off) <= |prog|
  }

  lemma ResolvesIff(prog: seq<Insn>, table: HelperTable)
    ensures JumpsResolve(prog) <==> Linker.Resolvable(Pieces(prog, table), |prog|)
  {
    var ps := Pieces(prog, table);
    assert forall i | 0 <= i < |prog| :: ps[i].jump == HasFixup(prog[i]) && ps[i].target == TargetSlot(i, prog[i].off);
  }

  function CodeSize(prog: seq<Insn>, table: HelperTable): nat { Linker.Offset(Prologue(), Pieces(prog, table), |prog|) }

  function Code(prog: seq<Insn>, table: HelperTable): (b: seq<u8>)
    requires JumpsResolve(prog)
  {
    ResolvesIff(prog, table);
    Linker.Linked(Prologue(), Pieces(prog, table), |prog|)
  }

  /** Succeeds exactly on the accepted programs whose jumps resolve and whose code fits, and
      returns the linked code. */
  method CompileBytes(prog: seq<Insn>, table: HelperTable) returns (r: Outcome<seq<u8>>)
    ensures r.Ok? <==> Accepts(prog) && JumpsResolve(prog) && CodeSize(prog, table) <= MAX_JIT_SIZE
    ensures r.Ok? ==> r.value == Code(prog, table)
    ensures !Accepts(prog) ==> r.Err? && Refusal(prog, r.error)
    ensures Accepts(prog) && !JumpsResolve(prog) ==> r == Err(InvalidJumpTarget)
    ensures Accepts(prog) && JumpsResolve(prog) && CodeSize(prog, table) > MAX_JIT_SIZE ==> r == Err(ProgramTooLarge(|prog|))
  {
    var _ :- Verify(prog);
    var ps := Pieces(prog, table);
    ResolvesIff(prog, table);
    var l, code := Linker.Link(Prologue(), ps);
    if l.UnknownTarget? { return Err(InvalidJumpTarget); }
    if |code| > MAX_JIT_SIZE { return Err(ProgramTooLarge(|prog|)); }
    return Ok(code);
  }
}
