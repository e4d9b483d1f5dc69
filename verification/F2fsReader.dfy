/** A reader of the finished image, and the round trip: what was created is what is read. */
module F2fsReader {
  import opened Options
  import opened Words
  import opened Bytes
  import opened F2fsFormat
  import opened F2fsSegments
  import opened F2fsNode
  import opened F2fsTree
  import opened F2fsTables
  import opened F2fsProof
  import opened F2fsRuns
  import opened F2fsReadBack

  // ----- the reader -----

  /** The block that holds node nid, according to one copy of the node table. */
  function ReadNat(img: seq<u8>, copy: nat, nid: nat): Option<nat>
  {
    var o := NatOffset(copy, nid);
    if o + NAT_ENTRY > |img| || FromLe(img[o + 1..o + 5]) != nid then None else Some(FromLe(img[o + 5..o + 9]))
  }

  function ReadBlock(img: seq<u8>, b: nat): (r: Option<seq<u8>>)
    ensures r.Some? ==> |r.value| == BLOCK
  { if (b + 1) * BLOCK > |img| then None else Some(Blk(img, b)) }

  /** The first k blocks that an inode points to. */
  function ReadChunks(img: seq<u8>, inode: seq<u8>, k: nat): Option<seq<u8>>
    requires |inode| == BLOCK && k <= MAX_POINTERS
  {
    if k == 0 then Some([])
    else
      var front, last := ReadChunks(img, inode, k - 1), ReadBlock(img, PointerAt(inode, k - 1));
      if front.None? || last.None? then None else Some(front.value + last.value)
  }

  function ReadInode(img: seq<u8>, copy: nat, nid: nat): (r: Option<seq<u8>>)
    ensures r.Some? ==> |r.value| == BLOCK
  {
    var addr := ReadNat(img, copy, nid);
    if addr.None? then None else ReadBlock(img, addr.value)
  }

  function ReadFile(img: seq<u8>, copy: nat, nid: nat): Option<seq<u8>>
  {
    var inode := ReadInode(img, copy, nid);
    if inode.None? || Chunks(SizeAt(inode.value)) > MAX_POINTERS then None else
    var data := ReadChunks(img, inode.value, Chunks(SizeAt(inode.value)));
    if data.None? || |data.value| < SizeAt(inode.value) then None else Some(data.value[..SizeAt(inode.value)])
  }

  // ----- files -----

  lemma EntryReads(img: seq<u8>, copy: nat, nid: nat, e: NatEntry)
    requires Fits(nid, e) && NatOffset(copy, nid) + NAT_ENTRY <= |img|
    requires EntryBytes(img, NatOffset(copy, nid)) == NatBytes(nid, e)
    ensures ReadNat(img, copy, nid) == Some(e.addr)
  {
    hide FromLe, Le32, NatOffset;
    var o := NatOffset(copy, nid);
    Sub(img, o, o + NAT_ENTRY, o + 1, o + 5);
    Sub(img, o, o + NAT_ENTRY, o + 5, o + 9);
    var b := NatBytes(nid, e);
    assert b[1..5] == Le32(nid) && b[5..9] == Le32(e.addr);
    Le32RoundTrip(nid);
    Le32RoundTrip(e.addr);
  }

  lemma {:induction false} ChunksRead(f: Fs, img: seq<u8>, nid: nat, addr: nat, payload: seq<u8>, k: nat)
    requires Roomy(f) && FileAt(f, nid, addr, payload) && k <= Chunks(|payload|) && |img| == |f.image|
    requires forall b | MAIN <= b && (b + 1) * BLOCK <= |img| :: Blk(img, b) == Blk(f.image, b)
    ensures var r := ReadChunks(img, Blk(f.image, addr), k);
            && r.Some? && |r.value| == k * BLOCK
            && r.value[..Min(k * BLOCK, |payload|)] == payload[..Min(k * BLOCK, |payload|)]
  {
    hide Accounted, Blk, PointerAt, SizeAt;
    if k > 0 {
      ChunksRead(f, img, nid, addr, payload, k - 1);
      var p := PointerAt(Blk(f.image, addr), k - 1);
      assert Owned(f.area, p, nid, k - 1) && Blk(f.image, p) == Chunk(payload, k - 1);
      assert Blk(img, p) == Blk(f.image, p);
      var front := ReadChunks(img, Blk(f.image, addr), k - 1).value;
      AddChunk(front, payload, k);
    }
  }

  lemma AddChunk(front: seq<u8>, payload: seq<u8>, k: nat)
    requires 0 < k <= Chunks(|payload|) && |front| == (k - 1) * BLOCK
    requires front[..Min((k - 1) * BLOCK, |payload|)] == payload[..Min((k - 1) * BLOCK, |payload|)]
    ensures (k - 1) * BLOCK < |payload|
    ensures (front + Chunk(payload, k - 1))[..Min(k * BLOCK, |payload|)] == payload[..Min(k * BLOCK, |payload|)]
  {
    var n := (k - 1) * BLOCK;
    assert n < |payload|;
    assert front == payload[..n];
    var end := Min(k * BLOCK, |payload|);
    assert Chunk(payload, k - 1)[..end - n] == payload[n..end];
  }

  /** Through either copy of the node table, the finished image gives back the payload. */
  lemma FileReadsBack(f: Fs, files: map<nat, seq<u8>>, crc: Crc, nid: nat, copy: nat)
    requires Sound(f, files) && nid in files && copy <= 1
    ensures Build(f, crc).Ok? && ReadFile(Build(f, crc).value, copy, nid) == Some(files[nid])
  {
    hide NodesOk, DirsOk, TreeOk, Build, Blk, Accounted, NatOffset, NatBytes, ReadNat, SizeAt, PointerAt;
    assert FileOk(f, files, nid);
    NatReadsBack(f, files, crc, nid, copy);
    var img, addr, payload := Build(f, crc).value, f.nats[nid].addr, files[nid];
    EntryReads(img, copy, nid, f.nats[nid]);
    forall b | MAIN <= b && (b + 1) * BLOCK <= |img| ensures Blk(img, b) == Blk(f.image, b) { MainUntouched(f, files, crc, b); }
    assert FileAt(f, nid, addr, payload);
    assert Blk(img, addr) == Blk(f.image, addr);
    ChunksRead(f, img, nid, addr, payload, Chunks(|payload|));
    assert Chunks(|payload|) * BLOCK >= |payload|;
    assert payload[..|payload|] == payload;
  }

  /** Whatever files are created on a fresh image, in whatever order and under whatever paths:
      if every step succeeds, the build does too, every path leads to its node, and reading
      that node through either copy of the node table gives exactly its payload. */
  lemma CreatedFilesReadBack(totalBytes: nat, reqs: seq<Request>, crc: Crc, i: nat, copy: nat)
    requires NewFs(totalBytes).Ok? && CreateAll(NewFs(totalBytes).value, reqs).Ok?
    requires i < |reqs| && copy <= 1
    ensures var f := CreateAll(NewFs(totalBytes).value, reqs).value;
            var c := Lookup(f, Components(reqs[i].path), ROOT_INO);
            && Build(f, crc).Ok? && c.Some? && !c.value.isDir
            && ReadFile(Build(f, crc).value, copy, c.value.nid) == Some(reqs[i].payload)
  {
    hide NewFs, CreateAll, Lookup, Components, Build, ReadFile, Sound;
    NewFsSound(totalBytes);
    var files := CreateAllSound(NewFs(totalBytes).value, reqs);
    var f := CreateAll(NewFs(totalBytes).value, reqs).value;
    assert Answers(f, files, reqs[i]);
    FileReadsBack(f, files, crc, Lookup(f, Components(reqs[i].path), ROOT_INO).value.nid, copy);
  }

  /** One copy of the segment table: the count is the number of set bits, and a block's bit is
      set exactly when the block has been handed out. */
  ghost predicate SitOnDisk(img: seq<u8>, o: nat, seg: nat, next: nat)
    requires o + SIT_BYTES <= |img|
  {
    var valid := img[o + 2..o + SIT_BYTES];
    && FromLe(img[o..o + 2]) == Popcount(valid)
    && forall offset | 0 <= offset < 8 * VALID_MAP :: Valid(valid, offset) <==> Taken(seg, offset, next)
  }

  /** The summary block of a segment names the owner of each of its blocks handed out. */
  ghost predicate SsaOnDisk(summary: seq<u8>, seg: nat, a: Area)
    requires |summary| == BLOCK
  {
    forall offset | 0 <= offset < BLOCKS_PER_SEG && Taken(seg, offset, a.next) ::
      UseAt(summary, offset) == a.owners[seg * BLOCKS_PER_SEG + offset]
  }

  /** The accounts are exact in the finished image, in both copies of the segment table. */
  lemma AccountsReadBack(f: Fs, files: map<nat, seq<u8>>, crc: Crc, seg: nat, copy: nat)
    requires Sound(f, files) && seg < f.area.segs && copy <= 1
    ensures Build(f, crc).Ok? && SitOffset(copy, seg) + SIT_BYTES <= |Build(f, crc).value| && (SSA + seg + 1) * BLOCK <= |Build(f, crc).value|
    ensures SitOnDisk(Build(f, crc).value, SitOffset(copy, seg), seg, f.area.next)
    ensures SsaOnDisk(Blk(Build(f, crc).value, SSA + seg), seg, f.area)
  {
    hide NodesOk, FilesOk, DirsOk, TreeOk, Build, FromLe, Le16, Popcount, Valid, SitOffset, UseAt;
    SitReadsBack(f, files, crc, seg, copy);
    SsaReadsBack(f, files, crc, seg);
    var img, o, e := Build(f, crc).value, SitOffset(copy, seg), f.area.sit[seg];
    assert SegmentOk(e, seg, f.area.next);
    Sub(img, o, o + SIT_BYTES, o, o + 2);
    Sub(img, o, o + SIT_BYTES, o + 2, o + SIT_BYTES);
    assert SitBytes(e)[0..2] == Le16(e.vblocks) && SitBytes(e)[2..SIT_BYTES] == e.valid;
    Le16RoundTrip(e.vblocks);
    forall offset: nat | offset < BLOCKS_PER_SEG && Taken(seg, offset, f.area.next)
      ensures UseAt(Blk(img, SSA + seg), offset) == f.area.owners[seg * BLOCKS_PER_SEG + offset]
    {
      assert SummaryOk(f.area, seg * BLOCKS_PER_SEG + offset);
    }
  }
}
