/** Two-pass layout of code pieces whose last four bytes may be a relative branch: the first
    pass leaves the fields zero, the second overwrites them in place. */
module Linker {
  import opened Words
  import opened Bytes

  /** Code of one instruction slot; a jump ends in a rel32 field aimed at slot `target`. */
  datatype Piece = Piece(bytes: seq<u8>, jump: bool, target: nat)

  const MAX_PIECE: nat := 23
  const MAX_PIECES: nat := 4096
  const MAX_HEAD: nat := 64

  predicate WellFormed(head: seq<u8>, ps: seq<Piece>)
  {
    && |head| <= MAX_HEAD
    && forall i | 0 <= i < |ps| :: |ps[i].bytes| <= MAX_PIECE && (ps[i].jump ==> 4 <= |ps[i].bytes|)
  }

  predicate Resolvable(ps: seq<Piece>, n: nat)
    requires n <= |ps|
  {
    forall i | 0 <= i < n :: ps[i].jump ==> ps[i].target <= |ps|
  }

  // ----- layout -----

  /** Code offset of slot i. */
  function Offset(head: seq<u8>, ps: seq<Piece>, i: nat): (r: nat)
    requires i <= |ps|
  {
    if i == 0 then |head| else Offset(head, ps, i - 1) + |ps[i - 1].bytes|
  }

  /** Code after the first pass over n slots. */
  function Raw(head: seq<u8>, ps: seq<Piece>, n: nat): (b: seq<u8>)
    requires n <= |ps|
    ensures |b| == Offset(head, ps, n)
  {
    if n == 0 then head else Raw(head, ps, n - 1) + ps[n - 1].bytes
  }

  /** Distance from the end of slot i to its target. */
  function Displacement(head: seq<u8>, ps: seq<Piece>, i: nat): int
    requires i < |ps| && ps[i].target <= |ps|
  {
    Offset(head, ps, ps[i].target) - Offset(head, ps, i + 1)
  }

  /** Final bytes of slot i. */
  function LinkedPiece(head: seq<u8>, ps: seq<Piece>, i: nat): (b: seq<u8>)
    requires i < |ps| && WellFormed(head, ps) && Resolvable(ps, |ps|)
    ensures |b| == |ps[i].bytes|
  {
    var b := ps[i].bytes;
    if ps[i].jump then b[..|b| - 4] + Le32(U32(Displacement(head, ps, i))) else b
  }

  function Linked(head: seq<u8>, ps: seq<Piece>, n: nat): (b: seq<u8>)
    requires n <= |ps| && WellFormed(head, ps) && Resolvable(ps, |ps|)
    ensures |b| == Offset(head, ps, n)
  {
    if n == 0 then head else Linked(head, ps, n - 1) + LinkedPiece(head, ps, n - 1)
  }

  lemma {:induction false} OffsetBound(head: seq<u8>, ps: seq<Piece>, i: nat)
    requires i <= |ps| && WellFormed(head, ps)
    ensures Offset(head, ps, i) <= MAX_HEAD + MAX_PIECE * i
  {
    if i > 0 { OffsetBound(head, ps, i - 1); }
  }

  lemma {:induction false} OffsetMonotone(head: seq<u8>, ps: seq<Piece>, i: nat, j: nat)
    requires i <= j <= |ps|
    ensures Offset(head, ps, i) <= Offset(head, ps, j)
    decreases j
  {
    if i < j { OffsetMonotone(head, ps, i, j - 1); }
  }

  // ----- fix-ups -----

  /** `target_offset as i32 - (fixup_pos as i32 + 4)`, with the casts of the source. */
  function Rel32(target: nat, pos: nat): i32 { I32(U32(I32(U32(target)) - I32(U32(I32(U32(pos)) + 4)))) }

  lemma Rel32IsExact(target: nat, pos: nat)
    requires target < 0x1000_0000 && pos < 0x1000_0000
    ensures Rel32(target, pos) == target - (pos + 4)
  {
  }

  type Fixup = (nat, nat)

  function Fixups(head: seq<u8>, ps: seq<Piece>, n: nat): seq<Fixup>
    requires n <= |ps| && WellFormed(head, ps)
  {
    if n == 0 then []
    else if ps[n - 1].jump then Fixups(head, ps, n - 1) + [FixupAt(head, ps, n - 1)]
    else Fixups(head, ps, n - 1)
  }

  function FixupAt(head: seq<u8>, ps: seq<Piece>, i: nat): Fixup
    requires i < |ps| && WellFormed(head, ps) && ps[i].jump
  {
    (Offset(head, ps, i + 1) - 4, ps[i].target)
  }

  predicate FieldsFit(len: nat, fixups: seq<Fixup>)
  {
    forall k | 0 <= k < |fixups| :: fixups[k].0 + 4 <= len
  }

  predicate TargetsKnown(fixups: seq<Fixup>, count: nat)
  {
    forall k | 0 <= k < |fixups| :: fixups[k].1 < count
  }

  function Patched(code: seq<u8>, fixups: seq<Fixup>, offsets: seq<nat>): (b: seq<u8>)
    requires FieldsFit(|code|, fixups) && TargetsKnown(fixups, |offsets|)
    ensures |b| == |code|
    decreases |fixups|
  {
    if fixups == [] then code
    else
      var f := fixups[|fixups| - 1];
      Splice(Patched(code, fixups[..|fixups| - 1], offsets), f.0, Field(offsets, f))
  }

  lemma {:induction false} FixupsFit(head: seq<u8>, ps: seq<Piece>, n: nat)
    requires n <= |ps| && WellFormed(head, ps)
    ensures FieldsFit(Offset(head, ps, n), Fixups(head, ps, n))
    ensures TargetsKnown(Fixups(head, ps, n), |ps| + 1) <==> Resolvable(ps, n)
  {
    if n > 0 {
      FixupsFit(head, ps, n - 1);
      var before, all := Fixups(head, ps, n - 1), Fixups(head, ps, n);
      assert all[..|before|] == before;
      assert forall k | 0 <= k < |before| :: all[k] == before[k];
      if ps[n - 1].jump {
        assert all[|before|] == (Offset(head, ps, n) - 4, ps[n - 1].target);
      }
      assert Resolvable(ps, n) <==> Resolvable(ps, n - 1) && (ps[n - 1].jump ==> ps[n - 1].target <= |ps|);
    }
  }

  function Offsets(head: seq<u8>, ps: seq<Piece>): (o: seq<nat>)
    ensures |o| == |ps| + 1
  {
    seq(|ps| + 1, i requires 0 <= i <= |ps| => Offset(head, ps, i))
  }

  /** The bytes written at a fix-up position. */
  function Field(offsets: seq<nat>, f: Fixup): (b: seq<u8>)
    requires f.1 < |offsets|
    ensures |b| == 4
  {
    Le32(U32(Rel32(offsets[f.1], f.0)))
  }

  lemma FieldIsDisplacement(head: seq<u8>, ps: seq<Piece>, i: nat)
    requires i < |ps| <= MAX_PIECES && WellFormed(head, ps) && ps[i].jump && ps[i].target <= |ps|
    ensures Field(Offsets(head, ps), FixupAt(head, ps, i)) == Le32(U32(Displacement(head, ps, i)))
  {
    OffsetBound(head, ps, ps[i].target);
    OffsetBound(head, ps, i + 1);
    Rel32IsExact(Offset(head, ps, ps[i].target), FixupAt(head, ps, i).0);
  }

  lemma SpliceField(front: seq<u8>, b: seq<u8>, pos: nat, field: seq<u8>, tail: seq<u8>)
    requires |field| == 4 <= |b| && pos == |front| + |b| - 4
    ensures Splice(front + (b + tail), pos, field) == front + (b[..|b| - 4] + field) + tail
  {
  }

  lemma PatchedSnoc(code: seq<u8>, fixups: seq<Fixup>, f: Fixup, offsets: seq<nat>)
    requires FieldsFit(|code|, fixups + [f]) && TargetsKnown(fixups + [f], |offsets|)
    ensures FieldsFit(|code|, fixups) && TargetsKnown(fixups, |offsets|)
    ensures f.0 + 4 <= |code| && f.1 < |offsets|
    ensures Patched(code, fixups + [f], offsets) == Splice(Patched(code, fixups, offsets), f.0, Field(offsets, f))
  {
    var all := fixups + [f];
    assert all[|fixups|] == f;
    assert all[..|all| - 1] == fixups;
    assert forall k | 0 <= k < |fixups| :: all[k] == fixups[k];
  }

  lemma FitsLonger(len: nat, more: nat, fixups: seq<Fixup>)
    requires FieldsFit(len, fixups) && len <= more
    ensures FieldsFit(more, fixups)
  {
  }

  /** One more slot that ends in a jump: its field is spliced into the code patched so far. */
  lemma PatchJump(code: seq<u8>, fs: seq<Fixup>, f: Fixup, offsets: seq<nat>, front: seq<u8>, b: seq<u8>, tail: seq<u8>)
    requires FieldsFit(|code|, fs + [f]) && TargetsKnown(fs + [f], |offsets|)
    requires FieldsFit(|code|, fs) && TargetsKnown(fs, |offsets|) && f.1 < |offsets|
    requires Patched(code, fs, offsets) == front + (b + tail)
    requires 4 <= |b| && f.0 == |front| + |b| - 4
    ensures Patched(code, fs + [f], offsets) == front + (b[..|b| - 4] + Field(offsets, f)) + tail
  {
    PatchedSnoc(code, fs, f, offsets);
    SpliceField(front, b, f.0, Field(offsets, f), tail);
  }

  lemma LinkedJump(head: seq<u8>, ps: seq<Piece>, i: nat)
    requires i < |ps| <= MAX_PIECES && WellFormed(head, ps) && Resolvable(ps, |ps|) && ps[i].jump
    ensures var b, f := ps[i].bytes, FixupAt(head, ps, i);
            && 4 <= |b| && f.1 < |Offsets(head, ps)| && f.0 == |Linked(head, ps, i)| + |b| - 4
            && Linked(head, ps, i + 1) == Linked(head, ps, i) + (b[..|b| - 4] + Field(Offsets(head, ps), f))
  {
    FieldIsDisplacement(head, ps, i);
  }

  lemma Regroup(a: seq<u8>, b: seq<u8>, c: seq<u8>)
    ensures (a + b) + c == a + (b + c)
  {
  }

  lemma PatchSlot(head: seq<u8>, ps: seq<Piece>, n: nat, tail: seq<u8>, code: seq<u8>, offsets: seq<nat>)
    requires n < |ps| <= MAX_PIECES && WellFormed(head, ps) && Resolvable(ps, |ps|) && offsets == Offsets(head, ps)
    requires FieldsFit(|code|, Fixups(head, ps, n)) && TargetsKnown(Fixups(head, ps, n), |offsets|)
    requires FieldsFit(|code|, Fixups(head, ps, n + 1)) && TargetsKnown(Fixups(head, ps, n + 1), |offsets|)
    requires Patched(code, Fixups(head, ps, n), offsets) == Linked(head, ps, n) + (ps[n].bytes + tail)
    ensures Patched(code, Fixups(head, ps, n + 1), offsets) == Linked(head, ps, n + 1) + tail
  {
    if ps[n].jump {
      LinkedJump(head, ps, n);
      PatchJump(code, Fixups(head, ps, n), FixupAt(head, ps, n), offsets, Linked(head, ps, n), ps[n].bytes, tail);
    } else {
      Regroup(Linked(head, ps, n), ps[n].bytes, tail);
    }
  }

  lemma FixupsFitCode(head: seq<u8>, ps: seq<Piece>, n: nat, code: seq<u8>)
    requires n <= |ps| && WellFormed(head, ps) && Resolvable(ps, |ps|) && Offset(head, ps, n) <= |code|
    ensures FieldsFit(|code|, Fixups(head, ps, n)) && TargetsKnown(Fixups(head, ps, n), |ps| + 1)
  {
    FixupsFit(head, ps, n);
    assert Resolvable(ps, n);
    FitsLonger(Offset(head, ps, n), |code|, Fixups(head, ps, n));
  }

  /** Overwriting the recorded fields of the first pass yields the linked code. */
  lemma {:induction false} PatchingLinks(head: seq<u8>, ps: seq<Piece>, n: nat, tail: seq<u8>)
    requires n <= |ps| <= MAX_PIECES && WellFormed(head, ps) && Resolvable(ps, |ps|)
    ensures FieldsFit(|Raw(head, ps, n) + tail|, Fixups(head, ps, n)) && TargetsKnown(Fixups(head, ps, n), |ps| + 1)
    ensures Patched(Raw(head, ps, n) + tail, Fixups(head, ps, n), Offsets(head, ps)) == Linked(head, ps, n) + tail
  {
    FixupsFitCode(head, ps, n, Raw(head, ps, n) + tail);
    if n > 0 {
      PatchingLinks(head, ps, n - 1, ps[n - 1].bytes + tail);
      Regroup(Raw(head, ps, n - 1), ps[n - 1].bytes, tail);
      PatchSlot(head, ps, n - 1, tail, Raw(head, ps, n) + tail, Offsets(head, ps));
    }
  }

  // ----- the compiler object -----

  datatype LinkResult = Done | UnknownTarget

  class Buffer {
    var code: seq<u8>
    var insnOffsets: seq<nat>
    var fixups: seq<Fixup>

    constructor (head: seq<u8>)
      ensures code == head && insnOffsets == [] && fixups == []
    {
      code, insnOffsets, fixups := head, [], [];
    }

    /** Records the offset of the next slot, appends its code and records its fix-up. */
    method Append(p: Piece)
      requires p.jump ==> 4 <= |p.bytes|
      modifies this
      ensures code == old(code) + p.bytes
      ensures insnOffsets == old(insnOffsets) + [|old(code)|]
      ensures fixups == old(fixups) + if p.jump then [(|code| - 4, p.target)] else []
    {
      insnOffsets := insnOffsets + [|code|];
      code := code + p.bytes;
      if p.jump { fixups := fixups + [(|code| - 4, p.target)]; }
    }

    /** Overwrites the recorded fields in order; stops at the first unknown target. */
    method ApplyFixups() returns (r: LinkResult)
      requires FieldsFit(|code|, fixups)
      modifies this`code
      ensures r.Done? <==> TargetsKnown(fixups, |insnOffsets|)
      ensures r.Done? ==> code == Patched(old(code), fixups, insnOffsets)
    {
      for k := 0 to |fixups|
        invariant TargetsKnown(fixups[..k], |insnOffsets|)
        invariant |code| == |old(code)|
        invariant code == Patched(old(code), fixups[..k], insnOffsets)
      {
        var (pos, target) := fixups[k];
        if target >= |insnOffsets| { return UnknownTarget; }
        assert fixups[..k + 1][..k] == fixups[..k];
        code := Splice(code, pos, Field(insnOffsets, fixups[k]));
      }
      assert fixups[..|fixups|] == fixups;
      return Done;
    }
  }

  /** Both passes: succeeds exactly when every jump has a slot to go to. */
  method Link(head: seq<u8>, ps: seq<Piece>) returns (r: LinkResult, code: seq<u8>)
    requires WellFormed(head, ps) && |ps| <= MAX_PIECES
    ensures r.Done? <==> Resolvable(ps, |ps|)
    ensures r.Done? ==> code == Linked(head, ps, |ps|)
  {
    var buf := new Buffer(head);
    for i := 0 to |ps|
      invariant buf.code == Raw(head, ps, i)
      invariant buf.fixups == Fixups(head, ps, i)
      invariant buf.insnOffsets == Offsets(head, ps)[..i]
    {
      buf.Append(ps[i]);
    }
    buf.insnOffsets := buf.insnOffsets + [|buf.code|];
    assert buf.insnOffsets == Offsets(head, ps);
    FixupsFit(head, ps, |ps|);
    r := buf.ApplyFixups();
    if r.Done? {
      PatchingLinks(head, ps, |ps|, []);
      assert Raw(head, ps, |ps|) + [] == Raw(head, ps, |ps|);
    }
    code := buf.code;
  }

  // ----- what the linked code is -----

  lemma SliceOfFront(a: seq<u8>, b: seq<u8>, i: nat, j: nat)
    requires i <= j <= |a|
    ensures (a + b)[i..j] == a[i..j]
  {
  }

  lemma SliceOfBack(a: seq<u8>, b: seq<u8>, i: nat, j: nat)
    requires i == |a| && j == |a| + |b|
    ensures (a + b)[i..j] == b
  {
  }

  /** Slot i of the linked code lies at its offset. */
  lemma {:induction false} PieceAt(head: seq<u8>, ps: seq<Piece>, i: nat, n: nat)
    requires i < n <= |ps| && WellFormed(head, ps) && Resolvable(ps, |ps|)
    ensures Offset(head, ps, i) <= Offset(head, ps, i + 1) <= Offset(head, ps, n)
    ensures Linked(head, ps, n)[Offset(head, ps, i)..Offset(head, ps, i + 1)] == LinkedPiece(head, ps, i)
    decreases n
  {
    var front, back := Linked(head, ps, n - 1), LinkedPiece(head, ps, n - 1);
    if i < n - 1 {
      PieceAt(head, ps, i, n - 1);
      SliceOfFront(front, back, Offset(head, ps, i), Offset(head, ps, i + 1));
    } else {
      SliceOfBack(front, back, Offset(head, ps, i), Offset(head, ps, i + 1));
    }
  }

  lemma SignedRoundTrip(d: int)
    requires -0x8000_0000 <= d < 0x8000_0000
    ensures I32(U32(d)) == d
  {
  }

  lemma LastField(code: seq<u8>, from: nat, end: nat, b: seq<u8>, d: int)
    requires from <= end <= |code| && code[from..end] == b && 4 <= |b| && b[|b| - 4..] == Le32(U32(d))
    requires -0x8000_0000 <= d < 0x8000_0000
    ensures 4 <= end && FromLe(code[end - 4..end]) < TWO32 && I32(FromLe(code[end - 4..end])) == d
  {
    assert code[from..end][|b| - 4..] == code[end - 4..end];
    SignedRoundTrip(d);
    Le32RoundTrip(U32(d));
  }

  lemma DisplacementBound(head: seq<u8>, ps: seq<Piece>, i: nat)
    requires i < |ps| <= MAX_PIECES && WellFormed(head, ps) && ps[i].target <= |ps|
    ensures -0x8000_0000 <= Displacement(head, ps, i) < 0x8000_0000
  {
    OffsetBound(head, ps, ps[i].target);
    OffsetBound(head, ps, i + 1);
  }

  /** Every fixed-up field, read back as a little-endian i32 and added to the end of the field,
      is the offset of the target slot. */
  lemma FieldsReachTheirTargets(head: seq<u8>, ps: seq<Piece>, i: nat)
    requires i < |ps| <= MAX_PIECES && WellFormed(head, ps) && Resolvable(ps, |ps|) && ps[i].jump
    ensures var code, end := Linked(head, ps, |ps|), Offset(head, ps, i + 1);
            && 4 <= end <= |code|
            && FromLe(code[end - 4..end]) < TWO32
            && end + I32(FromLe(code[end - 4..end])) == Offset(head, ps, ps[i].target)
  {
    PieceAt(head, ps, i, |ps|);
    DisplacementBound(head, ps, i);
    LastField(Linked(head, ps, |ps|), Offset(head, ps, i), Offset(head, ps, i + 1), LinkedPiece(head, ps, i), Displacement(head, ps, i));
  }

  /** Fields of different slots do not overlap. */
  lemma FieldsAreDisjoint(head: seq<u8>, ps: seq<Piece>, i: nat, j: nat)
    requires i < j < |ps| && WellFormed(head, ps) && ps[i].jump && ps[j].jump
    ensures Offset(head, ps, i + 1) <= Offset(head, ps, j + 1) - 4
  {
    OffsetMonotone(head, ps, i + 1, j);
  }

  /** A byte that lies in no field is the one the first pass emitted. */
  lemma {:induction false} OtherBytesUnchanged(head: seq<u8>, ps: seq<Piece>, n: nat, k: nat)
    requires n <= |ps| && WellFormed(head, ps) && Resolvable(ps, |ps|) && k < Offset(head, ps, n)
    requires forall i | 0 <= i < n && ps[i].jump :: !(Offset(head, ps, i + 1) - 4 <= k < Offset(head, ps, i + 1))
    ensures Linked(head, ps, n)[k] == Raw(head, ps, n)[k]
  {
    if n > 0 {
      if k < Offset(head, ps, n - 1) {
        OtherBytesUnchanged(head, ps, n - 1, k);
      } else if ps[n - 1].jump {
        assert Offset(head, ps, n) == Offset(head, ps, n - 1 + 1);
      }
    }
  }
}
