/** The builder object, which fills its image buffer and its tables in place. */
module F2fsBuilder {
  import opened Results
  import opened Words
  import opened Bytes
  import opened F2fsFormat
  import opened F2fsSegments
  import opened F2fsNode
  import opened F2fsTree
  import opened F2fsTables

  /** An inode block, its pointers written one by one. */
  method EncodeInode(isDir: bool, size: nat, direct: seq<nat>) returns (r: Result<seq<u8>>)
    ensures r == InodeBytes(isDir, size, direct)
  {
    if size >= TWO64 { return Err(OutOfRange); }
    var block := InodeHead(isDir, size);
    var k := 0;
    while k < |direct|
      invariant 0 <= k <= |direct|
      invariant InodeBytes(isDir, size, direct) == PutPointers(block, direct, k)
    {
      if direct[k] >= TWO32 { return Err(OutOfRange); }
      block :- Put(block, I_ADDR + 4 * k, Le32(direct[k]));
      k := k + 1;
    }
    return Ok(block);
  }

  /** A directory block, its entries written one by one. */
  method EncodeDir(entries: seq<Entry>) returns (r: Result<seq<u8>>)
    ensures r == DirBytes(entries)
  {
    var block := Zeros(BLOCK);
    var slot := 0;
    while slot < |entries|
      invariant 0 <= slot <= |entries|
      invariant DirFrom(Zeros(BLOCK), entries, 0) == DirFrom(block, entries, slot)
    {
      block :- EncodeEntry(block, slot, entries[slot]);
      slot := slot + 1;
    }
    if |block| != BLOCK { return Err(NotOneBlock); }
    return Ok(block);
  }

  method EncodeEntry(block: seq<u8>, slot: nat, e: Entry) returns (r: Result<seq<u8>>)
    ensures r == AddEntry(block, slot, e)
  {
    hide SetBit, EntryFields, Assign;
    var b :- SetBit(block, slot);
    b :- EntryFields(b, slot, e);
    b := Assign(b, FILENAMES + slot * SLOT_LEN, e.name);
    var extra, end := slot + 1, slot + SlotsOf(e.name);
    while extra < end
      invariant AddEntry(block, slot, e) == SetBits(b, extra, end)
    {
      b :- SetBit(b, extra);
      extra := extra + 1;
    }
    return Ok(b);
  }

  class Builder {
    const image: array<u8>
    const segs: nat
    var next: nat
    var sit: seq<SitEntry>
    var summaries: seq<seq<u8>>
    ghost var owners: seq<Use>
    var nextNid: nat
    var nats: map<nat, NatEntry>
    var inodes: map<nat, nat>
    var dirs: map<nat, Directory>
    var children: map<nat, map<Name, Child>>

    ghost predicate Valid()
      reads this
    {
      Shaped(Tables(segs, next, sit, summaries, owners))
    }

    ghost function Area(): Area
      requires Valid()
      reads this
    {
      Tables(segs, next, sit, summaries, owners)
    }

    ghost function Value(): Fs
      requires Valid()
      reads this, image
    {
      Fs(image[..], Area(), nextNid, nats, inodes, dirs, children)
    }

    /** An image of zeros with nothing allocated, not even a root directory. */
    constructor Blank(totalBytes: nat, segments: nat)
      ensures Valid() && fresh(image)
      ensures Value() == Fs(Zeros(totalBytes), NewArea(segments), ROOT_INO + 1, map[], map[], map[], map[])
    {
      var zeros := new u8[totalBytes](_ => 0);
      image := zeros;
      segs := segments;
      next := 0;
      sit := seq(segments, _ => SitEntry(0, Zeros(VALID_MAP)));
      summaries := seq(segments, _ => Zeros(BLOCK));
      owners := [];
      nextNid := ROOT_INO + 1;
      nats, inodes, dirs, children := map[], map[], map[], map[];
      new;
      assert image[..] == Zeros(totalBytes);
    }

    static method Create(totalBytes: nat) returns (r: Result<Builder>)
      ensures r.Ok? ==> r.value.Valid() && fresh(r.value) && fresh(r.value.image) && NewFs(totalBytes) == Ok(r.value.Value())
      ensures r.Err? ==> NewFs(totalBytes) == Err(r.error)
    {
      if totalBytes < MIN_BYTES || totalBytes % BLOCK != 0 { return Err(BadImageSize); }
      var segments := (totalBytes / BLOCK - MAIN) / BLOCKS_PER_SEG;
      if segments < 8 { return Err(MainTooSmall); }
      if SSA_BLOCKS < segments { return Err(SsaTooSmall); }
      if segments > BLOCKS_PER_SEG * SITS_PER_BLOCK { return Err(SitTooSmall); }
      var b := new Builder.Blank(totalBytes, segments);
      var made := b.NewDirectory(ROOT_INO, ROOT_INO);
      if made.Err? { return Err(made.error); }
      return Ok(b);
    }

    // ----- bytes and blocks -----

    method WriteBytes(off: nat, data: seq<u8>)
      requires off + |data| <= image.Length
      modifies image
      ensures image[..] == Splice(old(image[..]), off, data)
    {
      ghost var before := image[..];
      var k := 0;
      while k < |data|
        invariant 0 <= k <= |data|
        invariant image[..] == Splice(before, off, data[..k])
      {
        image[off + k] := data[k];
        GrowSplice(before, off, data, k);
        k := k + 1;
      }
      assert data[..|data|] == data;
    }

    method WriteBlock(b: nat, data: seq<u8>) returns (r: Result<()>)
      requires Valid()
      modifies image
      ensures r.Ok? ==> StoreBlock(old(Value()), b, data) == Ok(Value())
      ensures r.Err? ==> StoreBlock(old(Value()), b, data) == Err(r.error)
    {
      if |data| != BLOCK { return Err(NotOneBlock); }
      if (b + 1) * BLOCK > image.Length { return Err(OutOfRange); }
      WriteBytes(b * BLOCK, data);
      return Ok(());
    }

    method AllocateBlock(nid: nat, ofs: nat) returns (r: Result<nat>)
      requires Valid()
      modifies this
      ensures Valid()
      ensures r.Ok? ==> AllocBlock(old(Value()), nid, ofs) == Ok((Value(), r.value))
      ensures r.Err? ==> AllocBlock(old(Value()), nid, ofs) == Err(r.error)
    {
      hide OrByte, And64, Mask, SummaryBytes, Splice;
      if next >= segs * BLOCKS_PER_SEG { return Err(Exhausted); }
      var block := next;
      var seg, offset := block / BLOCKS_PER_SEG, block % BLOCKS_PER_SEG;
      var e := sit[seg];
      if And64(e.valid[offset / 8], Mask(offset % 8)) != 0 { return Err(DoubleAllocation); }
      var marked := SitEntry(e.vblocks + 1, e.valid[offset / 8 := OrByte(e.valid[offset / 8], Mask(offset % 8))]);
      if offset * SUMMARY_ENTRY + SUMMARY_ENTRY > BLOCK || nid >= TWO32 || ofs >= 0x1_0000 {
        return Err(if offset * SUMMARY_ENTRY + SUMMARY_ENTRY > BLOCK then SummaryOverflow else OutOfRange);
      }
      var summary := Splice(summaries[seg], offset * SUMMARY_ENTRY, SummaryBytes(Use(nid, ofs)));
      next, sit, summaries, owners := next + 1, sit[seg := marked], summaries[seg := summary], owners + [Use(nid, ofs)];
      return Ok(MAIN + block);
    }

    // ----- nodes -----

    method RewriteDirectory(d: nat) returns (r: Result<()>)
      requires Valid()
      modifies image
      ensures r.Ok? ==> RewriteDir(old(Value()), d) == Ok(Value())
      ensures r.Err? ==> RewriteDir(old(Value()), d) == Err(r.error)
    {
      if d !in dirs { return Err(MissingKey); }
      var block := EncodeDir(dirs[d].entries);
      if block.Err? { return Err(block.error); }
      r := WriteBlock(dirs[d].dataBlock, block.value);
    }

    method WriteInodeBlock(nid: nat, isDir: bool, size: nat, direct: seq<nat>) returns (r: Result<()>)
      requires Valid()
      modifies this, image
      ensures Valid()
      ensures r.Ok? ==> WriteInode(old(Value()), nid, isDir, size, direct) == Ok(Value())
      ensures r.Err? ==> WriteInode(old(Value()), nid, isDir, size, direct) == Err(r.error)
    {
      if nid !in inodes { return Err(MissingKey); }
      var block := EncodeInode(isDir, size, direct);
      if block.Err? { return Err(block.error); }
      r := WriteBlock(inodes[nid], block.value);
      if r.Ok? { nats := nats[nid := NatEntry(1, inodes[nid])]; }
    }

    method NewDirectory(nid: nat, parent: nat) returns (r: Result<()>)
      requires Valid()
      modifies this, image
      ensures Valid()
      ensures r.Ok? ==> MakeDir(old(Value()), nid, parent) == Ok(Value())
      ensures r.Err? ==> MakeDir(old(Value()), nid, parent) == Err(r.error)
    {
      hide StoreBlock, AllocBlock, RewriteDir, WriteInode, DirBytes, InodeBytes;
      var inode := AllocateBlock(nid, NODE_OFS);
      if inode.Err? { return Err(inode.error); }
      var data := AllocateBlock(nid, 0);
      if data.Err? { return Err(data.error); }
      inodes := inodes[nid := inode.value];
      dirs := dirs[nid := Directory(nid, parent, data.value, [Entry(DOT, nid, true), Entry(DOTDOT, parent, true)])];
      children := children[nid := map[]];
      r := RewriteDirectory(nid);
      if r.Err? { return r; }
      r := WriteInodeBlock(nid, true, BLOCK, [data.value]);
    }

    method LinkNode(parent: nat, name: Name, nid: nat, isDir: bool) returns (r: Result<()>)
      requires Valid()
      modifies this, image
      ensures Valid()
      ensures r.Ok? ==> Link(old(Value()), parent, name, nid, isDir) == Ok(Value())
      ensures r.Err? ==> Link(old(Value()), parent, name, nid, isDir) == Err(r.error)
    {
      hide StoreBlock, RewriteDir, DirBytes;
      if parent !in dirs || parent !in children { return Err(MissingKey); }
      dirs := dirs[parent := dirs[parent].(entries := dirs[parent].entries + [Entry(name, nid, isDir)])];
      children := children[parent := children[parent][name := Child(nid, isDir)]];
      r := RewriteDirectory(parent);
    }

    method CreateDirectory(parent: nat, name: Name) returns (r: Result<nat>)
      requires Valid()
      modifies this, image
      ensures Valid()
      ensures r.Ok? ==> CreateDir(old(Value()), parent, name) == Ok((Value(), r.value))
      ensures r.Err? ==> CreateDir(old(Value()), parent, name) == Err(r.error)
    {
      hide MakeDir, Link;
      var nid := nextNid;
      nextNid := nid + 1;
      var made := NewDirectory(nid, parent);
      if made.Err? { return Err(made.error); }
      var linked := LinkNode(parent, name, nid, true);
      if linked.Err? { return Err(linked.error); }
      return Ok(nid);
    }

    method EnsureDirectory(parts: seq<Name>) returns (r: Result<nat>)
      requires Valid()
      modifies this, image
      ensures Valid()
      ensures r.Ok? ==> EnsureDir(old(Value()), parts, ROOT_INO) == Ok((Value(), r.value))
      ensures r.Err? ==> EnsureDir(old(Value()), parts, ROOT_INO) == Err(r.error)
    {
      hide CreateDir;
      var current: nat := ROOT_INO;
      var i := 0;
      assert parts[0..] == parts;
      while i < |parts|
        invariant 0 <= i <= |parts| && Valid()
        invariant EnsureDir(old(Value()), parts, ROOT_INO) == EnsureDir(Value(), parts[i..], current)
      {
        assert parts[i..][1..] == parts[i + 1..];
        if current !in children { return Err(MissingKey); }
        if parts[i] !in children[current] {
          var made := CreateDirectory(current, parts[i]);
          if made.Err? { return Err(made.error); }
          current := made.value;
        } else {
          var child := children[current][parts[i]];
          if !child.isDir { return Err(NotADirectory); }
          current := child.nid;
        }
        i := i + 1;
      }
      return Ok(current);
    }

    method WriteChunks(nid: nat, payload: seq<u8>) returns (r: Result<seq<nat>>)
      requires Valid()
      modifies this, image
      ensures Valid()
      ensures r.Ok? ==> StoreChunks(old(Value()), nid, payload, []) == Ok((Value(), r.value))
      ensures r.Err? ==> StoreChunks(old(Value()), nid, payload, []) == Err(r.error)
    {
      hide AllocBlock, StoreBlock, Chunk;
      var direct: seq<nat> := [];
      while |direct| * BLOCK < |payload|
        invariant Valid()
        invariant StoreChunks(old(Value()), nid, payload, []) == StoreChunks(Value(), nid, payload, direct)
        decreases |payload| - |direct| * BLOCK
      {
        var block := AllocateBlock(nid, |direct|);
        if block.Err? { return Err(block.error); }
        var written := WriteBlock(block.value, Chunk(payload, |direct|));
        if written.Err? { return Err(written.error); }
        direct := direct + [block.value];
      }
      return Ok(direct);
    }

    method NewFile(parent: nat, name: Name, payload: seq<u8>) returns (r: Result<()>)
      requires Valid()
      modifies this, image
      ensures Valid()
      ensures r.Ok? ==> MakeFile(old(Value()), parent, name, payload) == Ok(Value())
      ensures r.Err? ==> MakeFile(old(Value()), parent, name, payload) == Err(r.error)
    {
      hide AllocBlock, StoreChunks, WriteInode, Link;
      var nid := nextNid;
      nextNid := nid + 1;
      var inode := AllocateBlock(nid, NODE_OFS);
      if inode.Err? { return Err(inode.error); }
      inodes := inodes[nid := inode.value];
      var direct := WriteChunks(nid, payload);
      if direct.Err? { return Err(direct.error); }
      r := WriteInodeBlock(nid, false, |payload|, direct.value);
      if r.Err? { return r; }
      r := LinkNode(parent, name, nid, false);
    }

    method AddFile(path: seq<u8>, payload: seq<u8>) returns (r: Result<()>)
      requires Valid()
      modifies this, image
      ensures Valid()
      ensures r.Ok? ==> CreateFile(old(Value()), path, payload) == Ok(Value())
      ensures r.Err? ==> CreateFile(old(Value()), path, payload) == Err(r.error)
    {
      hide EnsureDir, MakeFile, Components;
      var parts := Components(path);
      if parts == [] { return Err(RootPath); }
      var name := parts[|parts| - 1];
      var parent := EnsureDirectory(parts[..|parts| - 1]);
      if parent.Err? { return Err(parent.error); }
      if parent.value !in children { return Err(MissingKey); }
      if name in children[parent.value] { return Err(DuplicatePath); }
      r := NewFile(parent.value, name, payload);
    }

    // ----- the tables around the main area -----

    method WriteHeaders(crc: Crc)
      requires Valid() && MAIN * BLOCK <= image.Length && segs < TWO32
      modifies image
      ensures image[..] == Headers(old(image[..]), segs, crc)
    {
      hide SuperBytes, CheckpointBytes, Splice;
      WriteBytes(SUPER, SuperBytes(segs));
      WriteBytes(CP * BLOCK, CheckpointBytes(1, crc));
      WriteBytes((CP + BLOCKS_PER_SEG) * BLOCK, CheckpointBytes(2, crc));
    }

    /** Zeroes the two copies of a table. */
    method ClearArea(first: nat)
      requires Valid() && (first + 2 * BLOCKS_PER_SEG) * BLOCK <= image.Length
      modifies image
      ensures image[..] == Cleared(old(image[..]), first)
    {
      hide Splice;
      ghost var before := image[..];
      var k := 0;
      SpliceNothing(before, first * BLOCK);
      while k < 2 * BLOCKS_PER_SEG
        invariant 0 <= k <= 2 * BLOCKS_PER_SEG
        invariant image[..] == Splice(before, first * BLOCK, Zeros(k * BLOCK))
      {
        WriteBytes((first + k) * BLOCK, Zeros(BLOCK));
        SpliceMore(before, first, k);
        k := k + 1;
      }
    }

    method WriteNatTables() returns (r: Result<()>)
      requires Valid() && MAIN * BLOCK <= image.Length
      modifies image
      ensures r.Ok? ==> NatFrom(Cleared(old(image[..]), NAT), nats, 0, nextNid) == Ok(image[..])
      ensures r.Err? ==> NatFrom(Cleared(old(image[..]), NAT), nats, 0, nextNid) == Err(r.error)
    {
      hide Cleared, NatOffset, NatBytes, Splice;
      ClearArea(NAT);
      ghost var cleared := image[..];
      var nid := 0;
      while nid < nextNid
        invariant 0 <= nid <= nextNid
        invariant NatFrom(cleared, nats, 0, nextNid) == NatFrom(image[..], nats, nid, nextNid)
      {
        if nid in nats {
          var e := nats[nid];
          if nid >= TWO32 || e.addr >= TWO32 { return Err(OutOfRange); }
          if NatOffset(0, nid) + NAT_ENTRY > image.Length { return Err(OutOfRange); }
          WriteBytes(NatOffset(0, nid), NatBytes(nid, e));
          if NatOffset(1, nid) + NAT_ENTRY > image.Length { return Err(OutOfRange); }
          WriteBytes(NatOffset(1, nid), NatBytes(nid, e));
        }
        nid := nid + 1;
      }
      return Ok(());
    }

    method WriteSitTables() returns (r: Result<()>)
      requires Valid() && MAIN * BLOCK <= image.Length
      modifies image
      ensures r.Ok? ==> SitFrom(Cleared(old(image[..]), SIT), sit, 0) == Ok(image[..])
      ensures r.Err? ==> SitFrom(Cleared(old(image[..]), SIT), sit, 0) == Err(r.error)
    {
      hide Cleared, SitOffset, SitBytes, Splice;
      ClearArea(SIT);
      ghost var cleared := image[..];
      var seg := 0;
      while seg < |sit|
        invariant 0 <= seg <= |sit|
        invariant SitFrom(cleared, sit, 0) == SitFrom(image[..], sit, seg)
      {
        var e := sit[seg];
        if e.vblocks >= 0x1_0000 { return Err(OutOfRange); }
        if SitOffset(0, seg) + |SitBytes(e)| > image.Length { return Err(OutOfRange); }
        WriteBytes(SitOffset(0, seg), SitBytes(e));
        if SitOffset(1, seg) + |SitBytes(e)| > image.Length { return Err(OutOfRange); }
        WriteBytes(SitOffset(1, seg), SitBytes(e));
        seg := seg + 1;
      }
      return Ok(());
    }

    method WriteSummaryArea()
      requires Valid() && MAIN * BLOCK <= image.Length
      modifies image
      ensures image[..] == SsaFrom(old(image[..]), Area(), 0)
    {
      hide Splice;
      ghost var before := image[..];
      var i := 0;
      while i < SSA_BLOCKS
        invariant 0 <= i <= SSA_BLOCKS
        invariant SsaFrom(before, Area(), 0) == SsaFrom(image[..], Area(), i)
      {
        WriteBytes((SSA + i) * BLOCK, if i < segs then summaries[i] else Zeros(BLOCK));
        i := i + 1;
      }
    }

    method Finish(crc: Crc) returns (r: Result<seq<u8>>)
      requires Valid() && MAIN * BLOCK <= image.Length && segs < TWO32
      modifies image
      ensures r == Build(old(Value()), crc)
      ensures r.Ok? ==> r.value == image[..]
    {
      hide Headers, NatFrom, SitFrom, SsaFrom, Cleared;
      WriteHeaders(crc);
      var nat_ := WriteNatTables();
      if nat_.Err? { return Err(nat_.error); }
      var sit_ := WriteSitTables();
      if sit_.Err? { return Err(sit_.error); }
      WriteSummaryArea();
      return Ok(image[..]);
    }
  }

  lemma SpliceNothing(s: seq<u8>, off: nat)
    requires off <= |s|
    ensures Splice(s, off, Zeros(0)) == s
  {
  }

  lemma SpliceMore(s: seq<u8>, first: nat, k: nat)
    requires (first + k + 1) * BLOCK <= |s|
    ensures Splice(Splice(s, first * BLOCK, Zeros(k * BLOCK)), (first + k) * BLOCK, Zeros(BLOCK)) == Splice(s, first * BLOCK, Zeros((k + 1) * BLOCK))
  {
    assert Zeros(k * BLOCK) + Zeros(BLOCK) == Zeros((k + 1) * BLOCK);
    SpliceTwice(s, first * BLOCK, Zeros(k * BLOCK), Zeros(BLOCK));
  }
}
