/** Reading the finished image: the tables give back what was entered in them, and every file
    is found and read whole through either copy of the node table. */
module F2fsReadBack {
  import opened Results
  import opened Words
  import opened Bytes
  import opened F2fsFormat
  import opened F2fsSegments
  import opened F2fsNode
  import opened F2fsTree
  import opened F2fsTables
  import opened F2fsProof

  /** The images differ at most between lo and hi. */
  predicate Outside(img: seq<u8>, img': seq<u8>, lo: nat, hi: nat)
  {
    |img| == |img'| && lo <= hi <= |img| && img'[..lo] == img[..lo] && img'[hi..] == img[hi..]
  }

  lemma OutsideTrans(a: seq<u8>, b: seq<u8>, c: seq<u8>, lo: nat, hi: nat)
    requires Outside(a, b, lo, hi) && Outside(b, c, lo, hi)
    ensures Outside(a, c, lo, hi)
  {
  }

  lemma SpliceOutside(img: seq<u8>, i: nat, b: seq<u8>, lo: nat, hi: nat)
    requires lo <= i && i + |b| <= hi <= |img|
    ensures Outside(img, Splice(img, i, b), lo, hi)
  {
    Ends(img, i, b, lo, hi);
  }

  // ----- node table -----

  const NAT_LIMIT := BLOCKS_PER_SEG * NATS_PER_BLOCK
  const NAT_END := NAT + 2 * BLOCKS_PER_SEG

  predicate Fits(nid: nat, e: NatEntry) { nid < NAT_LIMIT && e.addr < TWO32 }

  lemma NatOffsetIs(copy: nat, nid: nat) returns (block: nat, r: nat)
    requires copy <= 1 && nid < NAT_LIMIT
    ensures r < NATS_PER_BLOCK && copy * BLOCKS_PER_SEG <= block < (copy + 1) * BLOCKS_PER_SEG
    ensures nid == NATS_PER_BLOCK * (block - copy * BLOCKS_PER_SEG) + r
    ensures NatOffset(copy, nid) == (NAT + block) * BLOCK + r * NAT_ENTRY
  {
    var q: nat := nid / NATS_PER_BLOCK;
    r := nid % NATS_PER_BLOCK;
    assert nid == NATS_PER_BLOCK * q + r && q < BLOCKS_PER_SEG;
    block := copy * BLOCKS_PER_SEG + q;
  }

  lemma NatPlace(copy: nat, nid: nat)
    requires copy <= 1 && nid < NAT_LIMIT
    ensures NAT * BLOCK <= NatOffset(copy, nid) && NatOffset(copy, nid) + NAT_ENTRY <= NAT_END * BLOCK
  {
    hide NatOffset;
    var b, r := NatOffsetIs(copy, nid);
  }

  lemma NatPlacesDiffer(copy: nat, nid: nat, copy': nat, nid': nat)
    requires copy <= 1 && copy' <= 1 && nid < NAT_LIMIT && nid' < NAT_LIMIT && (copy != copy' || nid != nid')
    ensures NatOffset(copy, nid) + NAT_ENTRY <= NatOffset(copy', nid') || NatOffset(copy', nid') + NAT_ENTRY <= NatOffset(copy, nid)
  {
    hide NatOffset;
    var b, r := NatOffsetIs(copy, nid);
    var b', r' := NatOffsetIs(copy', nid');
    NatApart(b, r, b', r');
  }

  lemma NatApart(block: nat, r: nat, block': nat, r': nat)
    requires r < NATS_PER_BLOCK && r' < NATS_PER_BLOCK && (block != block' || r != r')
    ensures var o, o' := (NAT + block) * BLOCK + r * NAT_ENTRY, (NAT + block') * BLOCK + r' * NAT_ENTRY;
            o + NAT_ENTRY <= o' || o' + NAT_ENTRY <= o
  {
    if block < block' { assert block + 1 <= block'; }
    if block' < block { assert block' + 1 <= block; }
  }

  function EntryBytes(img: seq<u8>, off: nat): seq<u8>
    requires off + NAT_ENTRY <= |img|
  { img[off..off + NAT_ENTRY] }

  lemma PutNatStep(img: seq<u8>, nid: nat, e: NatEntry, copy: nat, n: nat)
    requires NAT_END * BLOCK <= |img| && Fits(nid, e) && copy <= 1 && n < NAT_LIMIT
    ensures PutNat(img, nid, e).Ok? && Outside(img, PutNat(img, nid, e).value, NAT * BLOCK, NAT_END * BLOCK)
    ensures NatOffset(copy, n) + NAT_ENTRY <= |img|
    ensures EntryBytes(PutNat(img, nid, e).value, NatOffset(copy, n)) == if n == nid then NatBytes(nid, e) else EntryBytes(img, NatOffset(copy, n))
  {
    hide NatOffset, NatBytes, Splice;
    NatPlace(0, nid);
    NatPlace(1, nid);
    NatPlace(copy, n);
    var o, o0, o1, b := NatOffset(copy, n), NatOffset(0, nid), NatOffset(1, nid), NatBytes(nid, e);
    var a := Splice(img, o0, b);
    SpliceOutside(img, o0, b, NAT * BLOCK, NAT_END * BLOCK);
    SpliceOutside(a, o1, b, NAT * BLOCK, NAT_END * BLOCK);
    OutsideTrans(img, a, Splice(a, o1, b), NAT * BLOCK, NAT_END * BLOCK);
    assert b[0..NAT_ENTRY] == b;
    if n == nid && copy == 1 {
      SpliceInside(a, o1, b, o, o + NAT_ENTRY);
    } else {
      NatPlacesDiffer(copy, n, 1, nid);
      SpliceElsewhere(a, o1, b, o, o + NAT_ENTRY);
      if n == nid {
        SpliceInside(img, o0, b, o, o + NAT_ENTRY);
      } else {
        NatPlacesDiffer(copy, n, 0, nid);
        SpliceElsewhere(img, o0, b, o, o + NAT_ENTRY);
      }
    }
  }

  lemma {:induction false} NatFromReads(img: seq<u8>, nats: map<nat, NatEntry>, nid: nat, end: nat, copy: nat, n: nat)
    requires NAT_END * BLOCK <= |img| && (forall k | k in nats && k < end :: Fits(k, nats[k])) && copy <= 1 && n < NAT_LIMIT
    ensures NatFrom(img, nats, nid, end).Ok? && Outside(img, NatFrom(img, nats, nid, end).value, NAT * BLOCK, NAT_END * BLOCK)
    ensures NatOffset(copy, n) + NAT_ENTRY <= |img|
    ensures EntryBytes(NatFrom(img, nats, nid, end).value, NatOffset(copy, n)) ==
              if nid <= n < end && n in nats && Fits(n, nats[n]) then NatBytes(n, nats[n]) else EntryBytes(img, NatOffset(copy, n))
    decreases end - nid
  {
    hide NatOffset, NatBytes, PutNat;
    NatPlace(copy, n);
    if nid < end {
      if nid in nats {
        PutNatStep(img, nid, nats[nid], copy, n);
        var a := PutNat(img, nid, nats[nid]).value;
        NatFromReads(a, nats, nid + 1, end, copy, n);
        OutsideTrans(img, a, NatFrom(img, nats, nid, end).value, NAT * BLOCK, NAT_END * BLOCK);
      } else {
        NatFromReads(img, nats, nid + 1, end, copy, n);
      }
    }
  }

  // ----- segment table -----

  const SIT_BYTES := 2 + VALID_MAP
  const SIT_END := SIT + 2 * BLOCKS_PER_SEG

  predicate SitFits(e: SitEntry) { e.vblocks < 0x1_0000 && |e.valid| == VALID_MAP }

  lemma SitPlace(copy: nat, seg: nat)
    requires copy <= 1 && seg < SSA_BLOCKS
    ensures SIT * BLOCK <= SitOffset(copy, seg) && SitOffset(copy, seg) + SIT_BYTES <= SIT_END * BLOCK
  {
    hide SitOffset;
    var b, r := SitOffsetIs(copy, seg);
  }

  lemma SitPlacesDiffer(copy: nat, seg: nat, copy': nat, seg': nat)
    requires copy <= 1 && copy' <= 1 && seg < SSA_BLOCKS && seg' < SSA_BLOCKS && (copy != copy' || seg != seg')
    ensures SitOffset(copy, seg) + SIT_BYTES <= SitOffset(copy', seg') || SitOffset(copy', seg') + SIT_BYTES <= SitOffset(copy, seg)
  {
    hide SitOffset;
    var b, r := SitOffsetIs(copy, seg);
    var b', r' := SitOffsetIs(copy', seg');
    SitApart(b, r, b', r');
  }

  lemma SitOffsetIs(copy: nat, seg: nat) returns (block: nat, r: nat)
    requires copy <= 1 && seg < SSA_BLOCKS
    ensures r < SITS_PER_BLOCK && copy * BLOCKS_PER_SEG <= block <= copy * BLOCKS_PER_SEG + 1
    ensures seg == SITS_PER_BLOCK * (block - copy * BLOCKS_PER_SEG) + r
    ensures SitOffset(copy, seg) == (SIT + block) * BLOCK + r * SIT_ENTRY
  {
    block, r := copy * BLOCKS_PER_SEG + seg / SITS_PER_BLOCK, seg % SITS_PER_BLOCK;
  }

  lemma SitApart(block: nat, r: nat, block': nat, r': nat)
    requires r < SITS_PER_BLOCK && r' < SITS_PER_BLOCK && (block != block' || r != r')
    ensures var o, o' := (SIT + block) * BLOCK + r * SIT_ENTRY, (SIT + block') * BLOCK + r' * SIT_ENTRY;
            o + SIT_BYTES <= o' || o' + SIT_BYTES <= o
  {
    if block < block' { assert block + 1 <= block'; }
    if block' < block { assert block' + 1 <= block; }
  }

  function SitSlice(img: seq<u8>, off: nat): seq<u8>
    requires off + SIT_BYTES <= |img|
  { img[off..off + SIT_BYTES] }

  lemma PutSitStep(img: seq<u8>, seg: nat, e: SitEntry, copy: nat, n: nat)
    requires SIT_END * BLOCK <= |img| && seg < SSA_BLOCKS && SitFits(e) && copy <= 1 && n < SSA_BLOCKS
    ensures PutSit(img, seg, e).Ok? && Outside(img, PutSit(img, seg, e).value, SIT * BLOCK, SIT_END * BLOCK)
    ensures SitOffset(copy, n) + SIT_BYTES <= |img|
    ensures SitSlice(PutSit(img, seg, e).value, SitOffset(copy, n)) == if n == seg then SitBytes(e) else SitSlice(img, SitOffset(copy, n))
  {
    hide SitOffset, SitBytes, Splice;
    SitPlace(0, seg);
    SitPlace(1, seg);
    SitPlace(copy, n);
    var o, o0, o1, b := SitOffset(copy, n), SitOffset(0, seg), SitOffset(1, seg), SitBytes(e);
    var a := Splice(img, o0, b);
    SpliceOutside(img, o0, b, SIT * BLOCK, SIT_END * BLOCK);
    SpliceOutside(a, o1, b, SIT * BLOCK, SIT_END * BLOCK);
    OutsideTrans(img, a, Splice(a, o1, b), SIT * BLOCK, SIT_END * BLOCK);
    assert b[0..SIT_BYTES] == b;
    if n == seg && copy == 1 {
      SpliceInside(a, o1, b, o, o + SIT_BYTES);
    } else {
      SitPlacesDiffer(copy, n, 1, seg);
      SpliceElsewhere(a, o1, b, o, o + SIT_BYTES);
      if n == seg {
        SpliceInside(img, o0, b, o, o + SIT_BYTES);
      } else {
        SitPlacesDiffer(copy, n, 0, seg);
        SpliceElsewhere(img, o0, b, o, o + SIT_BYTES);
      }
    }
  }

  lemma {:induction false} SitFromReads(img: seq<u8>, sit: seq<SitEntry>, seg: nat, copy: nat, n: nat)
    requires SIT_END * BLOCK <= |img| && |sit| <= SSA_BLOCKS && (forall k | 0 <= k < |sit| :: SitFits(sit[k]))
    requires copy <= 1 && n < SSA_BLOCKS
    ensures SitFrom(img, sit, seg).Ok? && Outside(img, SitFrom(img, sit, seg).value, SIT * BLOCK, SIT_END * BLOCK)
    ensures SitOffset(copy, n) + SIT_BYTES <= |img|
    ensures SitSlice(SitFrom(img, sit, seg).value, SitOffset(copy, n)) ==
              if seg <= n < |sit| && SitFits(sit[n]) then SitBytes(sit[n]) else SitSlice(img, SitOffset(copy, n))
    decreases |sit| - seg
  {
    hide SitOffset, SitBytes, PutSit;
    SitPlace(copy, n);
    if seg < |sit| {
      PutSitStep(img, seg, sit[seg], copy, n);
      var a := PutSit(img, seg, sit[seg]).value;
      SitFromReads(a, sit, seg + 1, copy, n);
      OutsideTrans(img, a, SitFrom(img, sit, seg).value, SIT * BLOCK, SIT_END * BLOCK);
    }
  }

  // ----- summaries -----

  lemma SsaStep(img: seq<u8>, data: seq<u8>, i: nat, n: nat)
    requires MAIN * BLOCK <= |img| && n < SSA_BLOCKS && i < SSA_BLOCKS && |data| == BLOCK
    ensures Outside(img, Splice(img, (SSA + i) * BLOCK, data), SSA * BLOCK, MAIN * BLOCK)
    ensures Blk(Splice(img, (SSA + i) * BLOCK, data), SSA + n) == if n == i then data else Blk(img, SSA + n)
  {
    hide Splice;
    var at := (SSA + i) * BLOCK;
    BlockOrder(SSA + i, MAIN);
    SpliceOutside(img, at, data, SSA * BLOCK, MAIN * BLOCK);
    if n == i {
      SpliceInside(img, at, data, at, at + BLOCK);
      assert data[0..BLOCK] == data;
    } else {
      if n < i { BlockOrder(SSA + n, SSA + i); } else { BlockOrder(SSA + i, SSA + n); }
      SpliceElsewhere(img, at, data, (SSA + n) * BLOCK, (SSA + n + 1) * BLOCK);
    }
  }

  lemma BlockOrder(b: nat, c: nat)
    requires b < c
    ensures b * BLOCK + BLOCK == (b + 1) * BLOCK <= c * BLOCK
  {
  }

  lemma {:induction false} SsaFromReads(img: seq<u8>, a: Area, i: nat, n: nat)
    requires MAIN * BLOCK <= |img| && n < SSA_BLOCKS
    ensures Outside(img, SsaFrom(img, a, i), SSA * BLOCK, MAIN * BLOCK)
    ensures Blk(SsaFrom(img, a, i), SSA + n) == if i <= n then SummaryOf(a, n) else Blk(img, SSA + n)
    decreases SSA_BLOCKS - i
  {
    hide SummaryOf, Splice, Blk;
    if i < SSA_BLOCKS {
      var b := Splice(img, (SSA + i) * BLOCK, SummaryOf(a, i));
      SsaStep(img, SummaryOf(a, i), i, n);
      SsaFromReads(b, a, i + 1, n);
      OutsideTrans(img, b, SsaFrom(img, a, i), SSA * BLOCK, MAIN * BLOCK);
    }
  }

  // ----- superblock -----

  /** The first checkpoint overwrites the tail of the superblock, but none of its fields. */
  lemma HeadersRead(img: seq<u8>, segs: u32, crc: Crc, i: nat)
    requires MAIN * BLOCK <= |img| && i < |SuperFields(segs)|
    ensures var field, h := SuperFields(segs)[i], Headers(img, segs, crc);
            && FromLe(h[SUPER + field.off..SUPER + field.off + 4]) == field.value
            && Outside(img, h, SUPER, SIT * BLOCK)
  {
    hide Splice, SuperFields, PutFields, CheckpointBytes, FromLe;
    var fields, field := SuperFields(segs), SuperFields(segs)[i];
    var block := SuperBytes(segs);
    var lo, hi := SUPER + field.off, SUPER + field.off + 4;
    FieldReadsBack(Zeros(BLOCK), fields, i);
    var a := Splice(img, SUPER, block);
    SpliceInside(img, SUPER, block, lo, hi);
    var b := Splice(a, CP * BLOCK, CheckpointBytes(1, crc));
    SpliceElsewhere(a, CP * BLOCK, CheckpointBytes(1, crc), lo, hi);
    SpliceElsewhere(b, (CP + BLOCKS_PER_SEG) * BLOCK, CheckpointBytes(2, crc), lo, hi);
    SpliceOutside(img, SUPER, block, SUPER, SIT * BLOCK);
    SpliceOutside(a, CP * BLOCK, CheckpointBytes(1, crc), SUPER, SIT * BLOCK);
    SpliceOutside(b, (CP + BLOCKS_PER_SEG) * BLOCK, CheckpointBytes(2, crc), SUPER, SIT * BLOCK);
    OutsideTrans(img, a, b, SUPER, SIT * BLOCK);
    OutsideTrans(img, b, Headers(img, segs, crc), SUPER, SIT * BLOCK);
  }

  // ----- the finished image -----

  lemma {:induction false} PopcountBound(map_: seq<u8>)
    ensures Popcount(map_) <= 8 * |map_|
  {
    if map_ != [] {
      OnesBound(map_[0], 8);
      PopcountBound(map_[1..]);
    }
  }

  lemma {:induction false} OnesBound(b: nat, n: nat)
    requires b < Pow2(n)
    ensures Ones(b) <= n
    decreases n
  {
    if n > 0 { OnesBound(b / 2, n - 1); }
  }

  lemma TablesFit(f: Fs, files: map<nat, seq<u8>>)
    requires Sound(f, files)
    ensures forall k | k in f.nats :: Fits(k, f.nats[k])
    ensures forall k | 0 <= k < f.area.segs :: SitFits(f.area.sit[k])
  {
    hide FilesOk, DirsOk, TreeOk, UseAt, Popcount;
    forall k | k in f.nats ensures Fits(k, f.nats[k]) { assert NatOk(f, k); }
    forall k | 0 <= k < f.area.segs ensures SitFits(f.area.sit[k]) {
      assert SegmentOk(f.area.sit[k], k, f.area.next);
      PopcountBound(f.area.sit[k].valid);
    }
  }

  /** The image after each phase of the build. */
  datatype Phases = Phases(headers: seq<u8>, nats0: seq<u8>, nats: seq<u8>, sits0: seq<u8>, sits: seq<u8>, final: seq<u8>)

  ghost predicate ArePhases(f: Fs, crc: Crc, p: Phases)
  {
    && MAIN * BLOCK <= |f.image| && f.area.segs < TWO32
    && p.headers == Headers(f.image, f.area.segs, crc)
    && p.nats0 == Cleared(p.headers, NAT) && NatFrom(p.nats0, f.nats, 0, f.nextNid) == Ok(p.nats)
    && p.sits0 == Cleared(p.nats, SIT) && SitFrom(p.sits0, f.area.sit, 0) == Ok(p.sits)
    && p.final == SsaFrom(p.sits, f.area, 0)
  }

  /** The build of a sound image succeeds, and each phase stays in its own area. */
  lemma BuildPhases(f: Fs, files: map<nat, seq<u8>>, crc: Crc) returns (p: Phases)
    requires Sound(f, files)
    ensures ArePhases(f, crc, p) && Build(f, crc) == Ok(p.final)
    ensures Outside(f.image, p.headers, SUPER, SIT * BLOCK) && Outside(p.headers, p.nats, NAT * BLOCK, NAT_END * BLOCK)
    ensures Outside(p.nats, p.sits, SIT * BLOCK, SIT_END * BLOCK) && Outside(p.sits, p.final, SSA * BLOCK, MAIN * BLOCK)
  {
    hide NodesOk, FilesOk, DirsOk, TreeOk, Headers, NatFrom, SitFrom, SsaFrom, Accounted, Splice, SuperFields;
    assert |SuperFields(f.area.segs)| > 0 by { HasFields(f.area.segs); }
    HeadersRead(f.image, f.area.segs, crc, 0);
    TablesFit(f, files);
    var h := Headers(f.image, f.area.segs, crc);
    var n0 := Cleared(h, NAT);
    SpliceOutside(h, NAT * BLOCK, Zeros(2 * BLOCKS_PER_SEG * BLOCK), NAT * BLOCK, NAT_END * BLOCK);
    NatFromReads(n0, f.nats, 0, f.nextNid, 0, 0);
    var n := NatFrom(n0, f.nats, 0, f.nextNid).value;
    OutsideTrans(h, n0, n, NAT * BLOCK, NAT_END * BLOCK);
    var s0 := Cleared(n, SIT);
    SpliceOutside(n, SIT * BLOCK, Zeros(2 * BLOCKS_PER_SEG * BLOCK), SIT * BLOCK, SIT_END * BLOCK);
    SitFromReads(s0, f.area.sit, 0, 0, 0);
    var s := SitFrom(s0, f.area.sit, 0).value;
    OutsideTrans(n, s0, s, SIT * BLOCK, SIT_END * BLOCK);
    SsaFromReads(s, f.area, 0, 0);
    p := Phases(h, n0, n, s0, s, SsaFrom(s, f.area, 0));
  }

  lemma HasFields(segs: u32)
    ensures |SuperFields(segs)| == 16
  {
  }

  /** Nothing in the main area is touched by the build. */
  lemma MainUntouched(f: Fs, files: map<nat, seq<u8>>, crc: Crc, b: nat)
    requires Sound(f, files) && MAIN <= b && (b + 1) * BLOCK <= |f.image|
    ensures Build(f, crc).Ok? && Blk(Build(f, crc).value, b) == Blk(f.image, b)
  {
    hide Build, Sound, ArePhases;
    var p := BuildPhases(f, files, crc);
    Between(f.image, p.headers, SUPER, SIT * BLOCK, b * BLOCK, (b + 1) * BLOCK);
    Between(p.headers, p.nats, NAT * BLOCK, NAT_END * BLOCK, b * BLOCK, (b + 1) * BLOCK);
    Between(p.nats, p.sits, SIT * BLOCK, SIT_END * BLOCK, b * BLOCK, (b + 1) * BLOCK);
    Between(p.sits, p.final, SSA * BLOCK, MAIN * BLOCK, b * BLOCK, (b + 1) * BLOCK);
  }

  lemma NidBound(f: Fs, files: map<nat, seq<u8>>, nid: nat)
    requires Sound(f, files) && nid in f.nats
    ensures nid < f.nextNid
  {
    assert NatOk(f, nid);
  }

  /** Both copies of the node table hold every entry. */
  lemma NatReadsBack(f: Fs, files: map<nat, seq<u8>>, crc: Crc, nid: nat, copy: nat)
    requires Sound(f, files) && nid in f.nats && copy <= 1
    ensures Build(f, crc).Ok? && Fits(nid, f.nats[nid]) && NatOffset(copy, nid) + NAT_ENTRY <= |Build(f, crc).value|
    ensures EntryBytes(Build(f, crc).value, NatOffset(copy, nid)) == NatBytes(nid, f.nats[nid])
  {
    hide Build, Cleared, Splice, Sound, NatFrom, SitFrom, SsaFrom, Headers, NatOffset, NatBytes;
    var p := BuildPhases(f, files, crc);
    TablesFit(f, files);
    assert nid < f.nextNid by { NidBound(f, files, nid); }
    NatFromReads(p.nats0, f.nats, 0, f.nextNid, copy, nid);
    var o := NatOffset(copy, nid);
    NatPlace(copy, nid);
    Between(p.nats, p.sits, SIT * BLOCK, SIT_END * BLOCK, o, o + NAT_ENTRY);
    Between(p.sits, p.final, SSA * BLOCK, MAIN * BLOCK, o, o + NAT_ENTRY);
  }

  /** Both copies of the segment table hold every entry. */
  lemma SitReadsBack(f: Fs, files: map<nat, seq<u8>>, crc: Crc, seg: nat, copy: nat)
    requires Sound(f, files) && seg < f.area.segs && copy <= 1
    ensures Build(f, crc).Ok? && SitFits(f.area.sit[seg]) && SitOffset(copy, seg) + SIT_BYTES <= |Build(f, crc).value|
    ensures SitSlice(Build(f, crc).value, SitOffset(copy, seg)) == SitBytes(f.area.sit[seg])
  {
    hide Build, Cleared, Splice, NodesOk, FilesOk, DirsOk, TreeOk, NatFrom, SitFrom, SsaFrom, Headers, SitOffset, SitBytes, Accounted;
    var p := BuildPhases(f, files, crc);
    TablesFit(f, files);
    SitFromReads(p.sits0, f.area.sit, 0, copy, seg);
    var o := SitOffset(copy, seg);
    SitPlace(copy, seg);
    Between(p.sits, p.final, SSA * BLOCK, MAIN * BLOCK, o, o + SIT_BYTES);
  }

  lemma SsaReadsBack(f: Fs, files: map<nat, seq<u8>>, crc: Crc, seg: nat)
    requires Sound(f, files) && seg < f.area.segs
    ensures Build(f, crc).Ok? && (SSA + seg + 1) * BLOCK <= |Build(f, crc).value|
    ensures Blk(Build(f, crc).value, SSA + seg) == f.area.summaries[seg]
  {
    hide Build, Cleared, Splice, NodesOk, FilesOk, DirsOk, TreeOk, NatFrom, SitFrom, SsaFrom, Headers, Accounted, Blk;
    var p := BuildPhases(f, files, crc);
    SsaFromReads(p.sits, f.area, 0, seg);
  }

  /** Every field of the superblock is still there at the end. */
  lemma SuperblockReadsBack(f: Fs, files: map<nat, seq<u8>>, crc: Crc, i: nat)
    requires Sound(f, files) && i < |SuperFields(f.area.segs)|
    ensures Build(f, crc).Ok?
    ensures var field := SuperFields(f.area.segs)[i];
            FromLe(Build(f, crc).value[SUPER + field.off..SUPER + field.off + 4]) == field.value
  {
    hide Build, Sound, Headers, SuperFields, NatFrom, SitFrom, SsaFrom, FromLe;
    var p := BuildPhases(f, files, crc);
    HeadersRead(f.image, f.area.segs, crc, i);
    var field := SuperFields(f.area.segs)[i];
    var lo, hi := SUPER + field.off, SUPER + field.off + 4;
    Between(p.headers, p.nats, NAT * BLOCK, NAT_END * BLOCK, lo, hi);
    Between(p.nats, p.sits, SIT * BLOCK, SIT_END * BLOCK, lo, hi);
    Between(p.sits, p.final, SSA * BLOCK, MAIN * BLOCK, lo, hi);
  }
}
