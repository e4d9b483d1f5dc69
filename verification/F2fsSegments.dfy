/** Allocation of main-area blocks, and the two tables that account for it: the segment table
    with its valid maps, and the summaries that name each block's owner. */
module F2fsSegments {
  import opened Results
  import opened Words
  import opened Bytes
  import opened F2fsFormat

  datatype SitEntry = SitEntry(vblocks: nat, valid: seq<u8>)

  /** next is counted from the start of the main area. owners is a history variable that no
      operation reads: who was given each block, in order of the addresses. */
  datatype Tables = Tables(segs: nat, next: nat, sit: seq<SitEntry>, summaries: seq<seq<u8>>, owners: seq<Use>)

  type Area = a: Tables | Shaped(a) witness Tables(0, 0, [], [], [])

  /** The owner of a block: a node and the block's place in it. */
  datatype Use = Use(nid: u32, ofs: u16)

  function NewArea(segs: nat): Area
  {
    Tables(segs, 0, seq(segs, _ => SitEntry(0, Zeros(VALID_MAP))), seq(segs, _ => Zeros(BLOCK)), [])
  }

  predicate Shaped(a: Tables)
  {
    && |a.sit| == a.segs == |a.summaries| && |a.owners| == a.next <= a.segs * BLOCKS_PER_SEG
    && (forall i | 0 <= i < a.segs :: |a.sit[i].valid| == VALID_MAP)
    && (forall i | 0 <= i < a.segs :: |a.summaries[i]| == BLOCK)
  }

  // ----- valid maps -----

  function Bit(b: nat, k: nat): bool { if k == 0 then b % 2 == 1 else Bit(b / 2, k - 1) }

  function Ones(b: nat): nat { if b == 0 then 0 else b % 2 + Ones(b / 2) }

  function Popcount(map_: seq<u8>): nat { if map_ == [] then 0 else Ones(map_[0]) + Popcount(map_[1..]) }

  predicate Valid(map_: seq<u8>, offset: nat)
    requires offset < 8 * |map_|
  {
    Bit(map_[offset / 8], offset % 8)
  }

  lemma {:induction false} AndTests(t: (bool, bool) -> bool, b: nat, k: nat)
    requires t(true, true) && !t(false, true) && !t(true, false) && !t(false, false)
    ensures Bitwise(t, b, Pow2(k)) != 0 <==> Bit(b, k)
    decreases k
  {
    if k > 0 {
      assert Pow2(k) / 2 == Pow2(k - 1) && Pow2(k) % 2 == 0;
      AndTests(t, b / 2, k - 1);
    } else {
      ZeroRight(t, b / 2);
    }
  }

  lemma {:induction false} ZeroRight(t: (bool, bool) -> bool, b: nat)
    requires !t(false, false) && !t(true, false)
    ensures Bitwise(t, b, 0) == 0
  {
    if b != 0 { ZeroRight(t, b / 2); }
  }

  lemma {:induction false} OrSets(t: (bool, bool) -> bool, b: nat, k: nat, j: nat)
    requires t(true, true) && t(false, true) && t(true, false) && !t(false, false)
    ensures Bit(Bitwise(t, b, Pow2(k)), j) <==> (j == k || Bit(b, j))
    decreases k
  {
    if k > 0 {
      assert Pow2(k) / 2 == Pow2(k - 1) && Pow2(k) % 2 == 0;
      if j > 0 { OrSets(t, b / 2, k - 1, j - 1); }
    } else {
      KeepLeft(t, b / 2);
    }
  }

  lemma {:induction false} KeepLeft(t: (bool, bool) -> bool, b: nat)
    requires t(true, false) && !t(false, false)
    ensures Bitwise(t, b, 0) == b
  {
    if b != 0 { KeepLeft(t, b / 2); }
  }

  lemma {:induction false} OrCounts(t: (bool, bool) -> bool, b: nat, k: nat)
    requires t(true, true) && t(false, true) && t(true, false) && !t(false, false) && !Bit(b, k)
    ensures Ones(Bitwise(t, b, Pow2(k))) == Ones(b) + 1
    decreases k
  {
    if k > 0 {
      assert Pow2(k) / 2 == Pow2(k - 1) && Pow2(k) % 2 == 0;
      OrCounts(t, b / 2, k - 1);
    } else {
      KeepLeft(t, b / 2);
    }
  }

  /** `1 << k` for a bit of a byte. */
  function Mask(k: nat): u8
    requires k < 8
  {
    if k == 0 then 1 else if k == 1 then 2 else if k == 2 then 4 else if k == 3 then 8
    else if k == 4 then 16 else if k == 5 then 32 else if k == 6 then 64 else 128
  }

  lemma MaskIsPow2(k: nat)
    requires k < 8
    ensures Mask(k) == Pow2(k)
  {
    assert Pow2(2) == 4;
    assert Pow2(4) == 16;
    assert Pow2(6) == 64;
  }

  function OrByte(b: u8, c: u8): u8
  {
    BitwiseBound((x, y) => x || y, b, c, 8);
    Or64(b, c)
  }

  lemma TestByte(b: u8, k: nat)
    requires k < 8
    ensures And64(b, Mask(k)) != 0 <==> Bit(b, k)
  {
    MaskIsPow2(k);
    AndTests((x, y) => x && y, b, k);
  }

  lemma SetByte(b: u8, k: nat)
    requires k < 8
    ensures forall j: nat :: Bit(OrByte(b, Mask(k)), j) <==> (j == k || Bit(b, j))
    ensures !Bit(b, k) ==> Ones(OrByte(b, Mask(k))) == Ones(b) + 1
  {
    MaskIsPow2(k);
    forall j: nat ensures Bit(OrByte(b, Mask(k)), j) <==> (j == k || Bit(b, j)) { OrSets((x, y) => x || y, b, k, j); }
    if !Bit(b, k) { OrCounts((x, y) => x || y, b, k); }
  }

  // ----- allocation -----

  function SummaryBytes(u: Use): (b: seq<u8>)
    ensures |b| == SUMMARY_ENTRY
  { Le32(u.nid) + [0] + Le16(u.ofs) }

  /** The owner that a summary block names for the block at the given offset of its segment. */
  function UseAt(summary: seq<u8>, offset: nat): Use
    requires offset < BLOCKS_PER_SEG && |summary| == BLOCK
  {
    var i := offset * SUMMARY_ENTRY;
    FromLe32Bound(summary[i..i + 4]);
    FromLe16Bound(summary[i + 5..i + 7]);
    Use(FromLe(summary[i..i + 4]), FromLe(summary[i + 5..i + 7]))
  }

  /** The next free block, entered into the tables under its owner. */
  function Allocate(a: Area, nid: nat, ofs: nat): Result<(Area, nat)>
  {
    if a.next >= a.segs * BLOCKS_PER_SEG then Err(Exhausted) else
    var seg, offset := a.next / BLOCKS_PER_SEG, a.next % BLOCKS_PER_SEG;
    var e, i := a.sit[seg], offset / 8;
    if And64(e.valid[i], Mask(offset % 8)) != 0 then Err(DoubleAllocation)
    else if offset * SUMMARY_ENTRY + SUMMARY_ENTRY > BLOCK || nid >= TWO32 || ofs >= 0x1_0000 then
      Err(if offset * SUMMARY_ENTRY + SUMMARY_ENTRY > BLOCK then SummaryOverflow else OutOfRange)
    else
      var e' := SitEntry(e.vblocks + 1, e.valid[i := OrByte(e.valid[i], Mask(offset % 8))]);
      var summary := Splice(a.summaries[seg], offset * SUMMARY_ENTRY, SummaryBytes(Use(nid, ofs)));
      Ok((Tables(a.segs, a.next + 1, a.sit[seg := e'], a.summaries[seg := summary], a.owners + [Use(nid, ofs)]), a.next))
  }

  // ----- accounting -----

  /** The block at this offset of segment seg has been handed out. */
  predicate Taken(seg: nat, offset: nat, next: nat)
  {
    offset < BLOCKS_PER_SEG && seg * BLOCKS_PER_SEG + offset < next
  }

  ghost predicate SegmentOk(e: SitEntry, seg: nat, next: nat)
  {
    && |e.valid| == VALID_MAP && e.vblocks == Popcount(e.valid)
    && forall offset | 0 <= offset < 8 * VALID_MAP :: Valid(e.valid, offset) <==> Taken(seg, offset, next)
  }

  /** Both tables are exact: counts and bits of the valid maps, and owners in the summaries. */
  ghost predicate Accounted(a: Area)
  {
    && (forall seg | 0 <= seg < a.segs :: SegmentOk(a.sit[seg], seg, a.next))
    && (forall r {:trigger SummaryOk(a, r)} | 0 <= r < a.next :: SummaryOk(a, r))
  }

  ghost predicate SummaryOk(a: Area, r: nat)
    requires r < a.next
  { UseAt(a.summaries[r / BLOCKS_PER_SEG], r % BLOCKS_PER_SEG) == a.owners[r] }

  lemma {:induction false} NoOnes(n: nat)
    ensures Popcount(Zeros(n)) == 0
  {
    if n > 0 {
      assert Zeros(n)[1..] == Zeros(n - 1);
      NoOnes(n - 1);
    }
  }

  lemma {:induction false} ZeroHasNoBit(k: nat)
    ensures !Bit(0, k)
  {
    if k > 0 { ZeroHasNoBit(k - 1); }
  }

  lemma NewAreaIsAccounted(segs: nat)
    ensures Accounted(NewArea(segs))
  {
    NoOnes(VALID_MAP);
    forall offset: nat | offset < 8 * VALID_MAP ensures !Valid(Zeros(VALID_MAP), offset) { ZeroHasNoBit(offset % 8); }
  }

  lemma {:induction false} PopcountOf(map_: seq<u8>, i: nat, b: u8)
    requires i < |map_| && Ones(b) == Ones(map_[i]) + 1
    ensures Popcount(map_[i := b]) == Popcount(map_) + 1
  {
    var m := map_[i := b];
    if i > 0 {
      PopcountOf(map_[1..], i - 1, b);
      assert m[1..] == map_[1..][i - 1 := b];
    } else {
      assert m[1..] == map_[1..];
    }
  }

  /** Marking a free block: the count goes up by one, and just that block becomes valid. */
  lemma MarkKeeps(e: SitEntry, seg: nat, next: nat)
    requires SegmentOk(e, seg, next) && next / BLOCKS_PER_SEG == seg
    ensures var offset := next % BLOCKS_PER_SEG; var b := e.valid[offset / 8];
            && And64(b, Mask(offset % 8)) == 0
            && SegmentOk(SitEntry(e.vblocks + 1, e.valid[offset / 8 := OrByte(b, Mask(offset % 8))]), seg, next + 1)
  {
    hide OrByte, And64, Bit, Mask;
    var offset := next % BLOCKS_PER_SEG;
    var b := e.valid[offset / 8];
    assert !Valid(e.valid, offset);
    TestByte(b, offset % 8);
    SetByte(b, offset % 8);
    var b' := OrByte(b, Mask(offset % 8));
    PopcountOf(e.valid, offset / 8, b');
    var valid' := e.valid[offset / 8 := b'];
    forall o | 0 <= o < 8 * VALID_MAP ensures Valid(valid', o) <==> Taken(seg, o, next + 1) {
      assert Valid(e.valid, o) <==> Taken(seg, o, next);
    }
  }

  lemma OtherSegmentKeeps(e: SitEntry, seg: nat, next: nat)
    requires SegmentOk(e, seg, next) && next / BLOCKS_PER_SEG != seg
    ensures SegmentOk(e, seg, next + 1)
  {
    forall o | 0 <= o < 8 * VALID_MAP ensures Valid(e.valid, o) <==> Taken(seg, o, next + 1) {
      assert Valid(e.valid, o) <==> Taken(seg, o, next);
    }
  }

  lemma SummaryReadsBack(summary: seq<u8>, offset: nat, u: Use, other: nat)
    requires |summary| == BLOCK && offset < BLOCKS_PER_SEG && other < BLOCKS_PER_SEG
    ensures UseAt(Splice(summary, offset * SUMMARY_ENTRY, SummaryBytes(u)), other) == if other == offset then u else UseAt(summary, other)
  {
    hide FromLe, Le32, Le16, Splice;
    var i, j := offset * SUMMARY_ENTRY, other * SUMMARY_ENTRY;
    var b := SummaryBytes(u);
    if other == offset {
      SpliceInside(summary, i, b, i, i + 4);
      SpliceInside(summary, i, b, i + 5, i + 7);
      assert b[0..4] == Le32(u.nid) && b[5..7] == Le16(u.ofs);
      Le32RoundTrip(u.nid);
      Le16RoundTrip(u.ofs);
    } else {
      SpliceElsewhere(summary, i, b, j, j + 4);
      SpliceElsewhere(summary, i, b, j + 5, j + 7);
    }
  }

  /** Allocation fails only when the main area is full, never by meeting a block already
      marked, and it keeps both tables exact. */
  lemma AllocateKeepsAccounts(a: Area, u: Use)
    requires Accounted(a)
    ensures var r := Allocate(a, u.nid, u.ofs);
            if a.next == a.segs * BLOCKS_PER_SEG then r == Err(Exhausted)
            else r.Ok? && r.value.1 == a.next && r.value.0.segs == a.segs && r.value.0.owners == a.owners + [u] && Accounted(r.value.0)
  {
    if a.next < a.segs * BLOCKS_PER_SEG {
      hide OrByte, And64, Bit, Mask, SegmentOk, UseAt, SummaryBytes, Splice;
      var seg, offset := a.next / BLOCKS_PER_SEG, a.next % BLOCKS_PER_SEG;
      MarkKeeps(a.sit[seg], seg, a.next);
      var a' := Allocate(a, u.nid, u.ofs).value.0;
      forall s | 0 <= s < a.segs ensures SegmentOk(a'.sit[s], s, a'.next) {
        if s != seg { OtherSegmentKeeps(a.sit[s], s, a.next); }
      }
      forall r: nat | r < a'.next ensures SummaryOk(a', r) {
        if r < a.next { assert SummaryOk(a, r); }
        if r / BLOCKS_PER_SEG == seg { SummaryReadsBack(a.summaries[seg], offset, u, r % BLOCKS_PER_SEG); }
      }
    }
  }

  /** Blocks for all the given owners, one after another. */
  function AllocateAll(a: Area, uses: seq<Use>): Result<Area>
    decreases |uses|
  {
    if uses == [] then Ok(a)
    else
      var before :- AllocateAll(a, uses[..|uses| - 1]);
      var r :- Allocate(before, uses[|uses| - 1].nid, uses[|uses| - 1].ofs);
      Ok(r.0)
  }

  /** Any sequence of allocations from a fresh area: it succeeds exactly when there are blocks
      enough, and then both tables are exact; the only error is exhaustion. */
  lemma {:induction false} AnySequenceIsAccounted(segs: nat, uses: seq<Use>)
    ensures var r := AllocateAll(NewArea(segs), uses);
            if |uses| <= segs * BLOCKS_PER_SEG
            then r.Ok? && Accounted(r.value) && r.value.owners == uses && r.value.segs == segs
            else r == Err(Exhausted)
    decreases |uses|
  {
    hide Accounted, Allocate;
    if uses == [] {
      NewAreaIsAccounted(segs);
    } else {
      var front := uses[..|uses| - 1];
      AnySequenceIsAccounted(segs, front);
      if |front| <= segs * BLOCKS_PER_SEG {
        AllocateKeepsAccounts(AllocateAll(NewArea(segs), front).value, uses[|uses| - 1]);
        assert front + [uses[|uses| - 1]] == uses;
      }
    }
  }
}
