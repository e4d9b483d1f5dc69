/** What every successful operation on the image keeps: the tables account for every block,
    and every file and directory stored so far can still be read from its blocks. */
module F2fsProof {
  import opened Results
  import opened Words
  import opened Bytes
  import opened F2fsFormat
  import opened F2fsSegments
  import opened F2fsNode
  import opened F2fsTree

  ghost predicate Roomy(f: Fs)
  {
    8 <= f.area.segs <= SSA_BLOCKS && (MAIN + f.area.segs * BLOCKS_PER_SEG) * BLOCK <= |f.image| && Accounted(f.area)
  }

  /** Block b has been handed out to node nid as its block number ofs. */
  predicate Owned(a: Area, b: nat, nid: nat, ofs: nat)
  {
    MAIN <= b < MAIN + a.next && a.owners[b - MAIN].nid == nid && a.owners[b - MAIN].ofs == ofs
  }

  /** From f to g, only blocks of node n and blocks not yet handed out have changed. */
  ghost predicate Kept(f: Fs, g: Fs, n: nat)
    requires Roomy(f) && Roomy(g)
  {
    && |g.image| == |f.image| && g.area.segs == f.area.segs && f.area.owners <= g.area.owners
    && forall b | MAIN <= b < MAIN + f.area.next && f.area.owners[b - MAIN].nid != n :: Blk(g.image, b) == Blk(f.image, b)
  }

  lemma KeptTrans(f: Fs, g: Fs, h: Fs, n: nat)
    requires Roomy(f) && Roomy(g) && Roomy(h) && Kept(f, g, n) && Kept(g, h, n)
    ensures Kept(f, h, n)
  {
    hide Accounted, Blk;
    forall b | MAIN <= b < MAIN + f.area.next && f.area.owners[b - MAIN].nid != n ensures Blk(h.image, b) == Blk(f.image, b) {
      assert g.area.owners[b - MAIN] == f.area.owners[b - MAIN];
      assert Blk(g.image, b) == Blk(f.image, b);
    }
  }

  lemma OwnedStays(f: Fs, g: Fs, n: nat, b: nat, nid: nat, ofs: nat)
    requires Roomy(f) && Roomy(g) && Kept(f, g, n) && Owned(f.area, b, nid, ofs)
    ensures Owned(g.area, b, nid, ofs)
    ensures nid != n ==> Blk(g.image, b) == Blk(f.image, b)
  {
    hide Accounted, Blk;
  }

  // ----- the two ways an operation touches the image -----

  lemma AllocStep(f: Fs, nid: nat, ofs: nat)
    requires Roomy(f) && AllocBlock(f, nid, ofs).Ok?
    ensures var g, b := AllocBlock(f, nid, ofs).value.0, AllocBlock(f, nid, ofs).value.1;
            && g == f.(area := g.area) && b == MAIN + f.area.next && g.area.next == f.area.next + 1
            && Roomy(g) && Owned(g.area, b, nid, ofs) && forall n: nat :: Kept(f, g, n)
  {
    hide Accounted, Blk;
    assert nid < TWO32 && ofs < 0x1_0000;
    AllocateKeepsAccounts(f.area, Use(nid, ofs));
  }

  lemma StoreStep(f: Fs, b: nat, data: seq<u8>, nid: nat, ofs: nat)
    requires Roomy(f) && Owned(f.area, b, nid, ofs) && |data| == BLOCK
    ensures var r := StoreBlock(f, b, data);
            && r.Ok? && r.value == f.(image := r.value.image) && Roomy(r.value) && Kept(f, r.value, nid)
            && Blk(r.value.image, b) == data
            && forall c | MAIN <= c < MAIN + f.area.next && c != b :: Blk(r.value.image, c) == Blk(f.image, c)
  {
    hide Accounted, Splice;
    var g := StoreBlock(f, b, data).value;
    SpliceInside(f.image, b * BLOCK, data, b * BLOCK, (b + 1) * BLOCK);
    assert data[0..BLOCK] == data;
    forall c | MAIN <= c < MAIN + f.area.next && c != b ensures Blk(g.image, c) == Blk(f.image, c) {
      SpliceElsewhere(f.image, b * BLOCK, data, c * BLOCK, (c + 1) * BLOCK);
    }
  }

  // ----- files and directories in their blocks -----

  /** The inode at addr and the blocks it points to hold the payload. */
  ghost predicate FileAt(f: Fs, nid: nat, addr: nat, payload: seq<u8>)
    requires Roomy(f)
  {
    && Owned(f.area, addr, nid, NODE_OFS)
    && SizeAt(Blk(f.image, addr)) == |payload| && Chunks(|payload|) <= MAX_POINTERS
    && forall k | 0 <= k < Chunks(|payload|) ::
         var p := PointerAt(Blk(f.image, addr), k);
         Owned(f.area, p, nid, k) && Blk(f.image, p) == Chunk(payload, k)
  }

  ghost predicate DirAt(f: Fs, d: nat, addr: nat, dir: Directory)
    requires Roomy(f)
  {
    && Owned(f.area, addr, d, NODE_OFS)
    && SizeAt(Blk(f.image, addr)) == BLOCK && PointerAt(Blk(f.image, addr), 0) == dir.dataBlock
    && Owned(f.area, dir.dataBlock, d, 0) && DirBytes(dir.entries) == Ok(Blk(f.image, dir.dataBlock))
  }

  lemma FileStays(f: Fs, g: Fs, n: nat, nid: nat, addr: nat, payload: seq<u8>)
    requires Roomy(f) && Roomy(g) && Kept(f, g, n) && nid != n && FileAt(f, nid, addr, payload)
    ensures FileAt(g, nid, addr, payload)
  {
    hide Accounted, Blk, SizeAt, PointerAt, Kept, Chunk;
    OwnedStays(f, g, n, addr, nid, NODE_OFS);
    forall k | 0 <= k < Chunks(|payload|)
      ensures var p := PointerAt(Blk(g.image, addr), k); Owned(g.area, p, nid, k) && Blk(g.image, p) == Chunk(payload, k)
    {
      OwnedStays(f, g, n, PointerAt(Blk(f.image, addr), k), nid, k);
    }
  }

  lemma DirStays(f: Fs, g: Fs, n: nat, d: nat, addr: nat, dir: Directory)
    requires Roomy(f) && Roomy(g) && Kept(f, g, n) && d != n && DirAt(f, d, addr, dir)
    ensures DirAt(g, d, addr, dir)
  {
    hide Accounted, Blk, SizeAt, PointerAt, Kept, DirBytes;
    OwnedStays(f, g, n, addr, d, NODE_OFS);
    OwnedStays(f, g, n, dir.dataBlock, d, 0);
  }

  // ----- a new file -----

  /** The blocks listed in `direct` hold the first chunks of the payload. */
  ghost predicate Stored(f: Fs, nid: nat, payload: seq<u8>, direct: seq<nat>)
    requires Roomy(f)
  {
    && |direct| <= Chunks(|payload|)
    && forall k | 0 <= k < |direct| :: Owned(f.area, direct[k], nid, k) && Blk(f.image, direct[k]) == Chunk(payload, k)
  }

  lemma ChunkStep(f: Fs, nid: nat, payload: seq<u8>, direct: seq<nat>)
    requires Roomy(f) && Stored(f, nid, payload, direct) && |direct| * BLOCK < |payload| && AllocBlock(f, nid, |direct|).Ok?
    ensures var a := AllocBlock(f, nid, |direct|).value;
            var r := StoreBlock(a.0, a.1, Chunk(payload, |direct|));
            && r.Ok? && Roomy(r.value) && Kept(f, r.value, nid) && Stored(r.value, nid, payload, direct + [a.1])
            && r.value == f.(image := r.value.image, area := r.value.area) && r.value.area.next == f.area.next + 1
  {
    hide Accounted, Blk, Chunk, AllocBlock, StoreBlock;
    AllocStep(f, nid, |direct|);
    var a := AllocBlock(f, nid, |direct|).value;
    StoreStep(a.0, a.1, Chunk(payload, |direct|), nid, |direct|);
    var g := StoreBlock(a.0, a.1, Chunk(payload, |direct|)).value;
    KeptTrans(f, a.0, g, nid);
    forall k | 0 <= k < |direct| ensures Owned(g.area, direct[k], nid, k) && Blk(g.image, direct[k]) == Chunk(payload, k) {
      OwnedStays(f, a.0, nid + 1, direct[k], nid, k);
    }
  }

  lemma {:induction false} ChunksStored(f: Fs, nid: nat, payload: seq<u8>, direct: seq<nat>)
    requires Roomy(f) && Stored(f, nid, payload, direct) && StoreChunks(f, nid, payload, direct).Ok?
    ensures var g, d := StoreChunks(f, nid, payload, direct).value.0, StoreChunks(f, nid, payload, direct).value.1;
            && Roomy(g) && Kept(f, g, nid) && |d| == Chunks(|payload|) && Stored(g, nid, payload, d)
            && g == f.(image := g.image, area := g.area) && g.area.next == f.area.next + |d| - |direct|
    decreases |payload| - |direct| * BLOCK
  {
    hide Accounted, Blk, Chunk, AllocBlock, StoreBlock, Stored, Kept, Roomy;
    if |direct| * BLOCK < |payload| {
      ChunkStep(f, nid, payload, direct);
      var a := AllocBlock(f, nid, |direct|).value;
      var g := StoreBlock(a.0, a.1, Chunk(payload, |direct|)).value;
      ChunksStored(g, nid, payload, direct + [a.1]);
      KeptTrans(f, g, StoreChunks(f, nid, payload, direct).value.0, nid);
    } else {
      KeptRefl(f, nid);
      StoredAll(f, nid, payload, direct);
    }
  }

  lemma KeptRefl(f: Fs, n: nat)
    requires Roomy(f)
    ensures Kept(f, f, n)
  {
  }

  lemma StoredAll(f: Fs, nid: nat, payload: seq<u8>, direct: seq<nat>)
    requires Roomy(f) && Stored(f, nid, payload, direct) && |direct| * BLOCK >= |payload|
    ensures |direct| == Chunks(|payload|)
  {
  }

  lemma InodeStep(f: Fs, nid: nat, isDir: bool, size: nat, direct: seq<nat>)
    requires Roomy(f) && nid in f.inodes && Owned(f.area, f.inodes[nid], nid, NODE_OFS) && WriteInode(f, nid, isDir, size, direct).Ok?
    ensures var g, addr := WriteInode(f, nid, isDir, size, direct).value, f.inodes[nid];
            && Roomy(g) && Kept(f, g, nid) && g == f.(image := g.image, nats := f.nats[nid := NatEntry(1, addr)])
            && SizeAt(Blk(g.image, addr)) == size && |direct| <= MAX_POINTERS
            && (forall k | 0 <= k < |direct| :: PointerAt(Blk(g.image, addr), k) == direct[k])
            && forall c | MAIN <= c < MAIN + f.area.next && c != addr :: Blk(g.image, c) == Blk(f.image, c)
  {
    hide Accounted, Blk, InodeBytes, StoreBlock, Stored, SizeAt, PointerAt;
    InodeReadsBack(isDir, size, direct);
    StoreStep(f, f.inodes[nid], InodeBytes(isDir, size, direct).value, nid, NODE_OFS);
  }

  /** An inode written over stored chunks makes them a file. */
  lemma FileWritten(f: Fs, nid: nat, payload: seq<u8>, direct: seq<nat>)
    requires Roomy(f) && nid in f.inodes && Owned(f.area, f.inodes[nid], nid, NODE_OFS)
    requires Stored(f, nid, payload, direct) && |direct| == Chunks(|payload|) && |direct| < NODE_OFS
    requires WriteInode(f, nid, false, |payload|, direct).Ok?
    ensures var g := WriteInode(f, nid, false, |payload|, direct).value;
            Roomy(g) && FileAt(g, nid, f.inodes[nid], payload)
  {
    hide Accounted, Blk, WriteInode, SizeAt, PointerAt, Chunk;
    InodeStep(f, nid, false, |payload|, direct);
    var g := WriteInode(f, nid, false, |payload|, direct).value;
    forall k | 0 <= k < |direct| ensures direct[k] != f.inodes[nid] && Blk(g.image, direct[k]) == Chunk(payload, k) {}
  }

  // ----- directories -----

  lemma RewriteStep(f: Fs, d: nat)
    requires Roomy(f) && d in f.dirs && Owned(f.area, f.dirs[d].dataBlock, d, 0) && RewriteDir(f, d).Ok?
    ensures var g, data := RewriteDir(f, d).value, f.dirs[d].dataBlock;
            && Roomy(g) && Kept(f, g, d) && g == f.(image := g.image)
            && DirBytes(f.dirs[d].entries) == Ok(Blk(g.image, data))
            && forall c | MAIN <= c < MAIN + f.area.next && c != data :: Blk(g.image, c) == Blk(f.image, c)
  {
    hide Accounted, Blk, DirBytes, StoreBlock;
    StoreStep(f, f.dirs[d].dataBlock, DirBytes(f.dirs[d].entries).value, d, 0);
  }

  function EmptyDir(nid: nat, parent: nat, data: nat): Directory
  {
    Directory(nid, parent, data, [Entry(DOT, nid, true), Entry(DOTDOT, parent, true)])
  }

  /** The two blocks of a new directory, before anything is written to them. */
  lemma DirBlocks(f: Fs, nid: nat)
    requires Roomy(f) && AllocBlock(f, nid, NODE_OFS).Ok? && AllocBlock(AllocBlock(f, nid, NODE_OFS).value.0, nid, 0).Ok?
    ensures var a := AllocBlock(f, nid, NODE_OFS).value; var g := AllocBlock(a.0, nid, 0).value;
            && Roomy(g.0) && Kept(f, g.0, nid) && g.0 == f.(area := g.0.area) && g.0.area.next == f.area.next + 2
            && Owned(g.0.area, a.1, nid, NODE_OFS) && Owned(g.0.area, g.1, nid, 0)
  {
    hide Accounted, Blk, AllocBlock;
    AllocStep(f, nid, NODE_OFS);
    var a := AllocBlock(f, nid, NODE_OFS).value;
    AllocStep(a.0, nid, 0);
    var g := AllocBlock(a.0, nid, 0).value;
    KeptTrans(f, a.0, g.0, nid);
    OwnedStays(a.0, g.0, nid, a.1, nid, NODE_OFS);
  }

  lemma MakeDirStep(f: Fs, nid: nat, parent: nat)
    requires Roomy(f) && MakeDir(f, nid, parent).Ok?
    ensures var g := MakeDir(f, nid, parent).value;
            && nid in g.inodes && nid in g.dirs
            && var addr, dir := g.inodes[nid], g.dirs[nid];
            && Roomy(g) && Kept(f, g, nid) && g.area.next == f.area.next + 2
            && dir == EmptyDir(nid, parent, dir.dataBlock) && DirAt(g, nid, addr, dir)
            && g == f.(image := g.image, area := g.area, inodes := f.inodes[nid := addr], dirs := f.dirs[nid := dir],
                       children := f.children[nid := map[]], nats := f.nats[nid := NatEntry(1, addr)])
  {
    hide Accounted, Blk, AllocBlock, RewriteDir, WriteInode, DirBytes, Kept, SizeAt, PointerAt;
    DirBlocks(f, nid);
    var a := AllocBlock(f, nid, NODE_OFS).value;
    var b := AllocBlock(a.0, nid, 0).value;
    var dir := EmptyDir(nid, parent, b.1);
    var f1 := b.0.(inodes := b.0.inodes[nid := a.1], dirs := b.0.dirs[nid := dir], children := b.0.children[nid := map[]]);
    assert Roomy(f1) && Kept(f, f1, nid) by { SameStorage(f, b.0, f1, nid); }
    RewriteStep(f1, nid);
    var f2 := RewriteDir(f1, nid).value;
    InodeStep(f2, nid, true, BLOCK, [b.1]);
    var g := WriteInode(f2, nid, true, BLOCK, [b.1]).value;
    KeptTrans(f, f1, f2, nid);
    KeptTrans(f, f2, g, nid);
    assert [b.1][0] == b.1;
  }

  lemma SameStorage(f: Fs, g: Fs, h: Fs, n: nat)
    requires Roomy(f) && Roomy(g) && Kept(f, g, n) && h.image == g.image && h.area == g.area
    ensures Roomy(h) && Kept(f, h, n)
  {
    hide Accounted, Blk;
  }

  lemma LinkStep(f: Fs, parent: nat, addr: nat, name: Name, nid: nat, isDir: bool)
    requires Roomy(f) && parent in f.dirs && parent in f.children && DirAt(f, parent, addr, f.dirs[parent])
    requires Link(f, parent, name, nid, isDir).Ok?
    ensures var g := Link(f, parent, name, nid, isDir).value;
            var dir := f.dirs[parent].(entries := f.dirs[parent].entries + [Entry(name, nid, isDir)]);
            && Roomy(g) && Kept(f, g, parent) && DirAt(g, parent, addr, dir)
            && g == f.(image := g.image, dirs := f.dirs[parent := dir],
                       children := f.children[parent := f.children[parent][name := Child(nid, isDir)]])
  {
    hide Accounted, Blk, RewriteDir, DirBytes, Kept, SizeAt, PointerAt;
    var dir := f.dirs[parent].(entries := f.dirs[parent].entries + [Entry(name, nid, isDir)]);
    var f1 := f.(dirs := f.dirs[parent := dir], children := f.children[parent := f.children[parent][name := Child(nid, isDir)]]);
    assert Roomy(f1) && Kept(f, f1, parent) by { KeptRefl(f, parent); SameStorage(f, f, f1, parent); }
    RewriteStep(f1, parent);
    KeptTrans(f, f1, RewriteDir(f1, parent).value, parent);
  }

  // ----- the invariant -----

  /** The entries of a directory after "." and ".." are its children, each once. */
  ghost predicate Listed(entries: seq<Entry>, kids: map<Name, Child>)
  {
    && |entries| >= 2 && entries[0].name == DOT && entries[1].name == DOTDOT
    && (forall i | 2 <= i < |entries| :: entries[i].name in kids && kids[entries[i].name] == Child(entries[i].ino, entries[i].isDir))
    && (forall i, j | 2 <= i < j < |entries| :: entries[i].name != entries[j].name)
    && (forall name | name in kids :: exists i :: 2 <= i < |entries| && entries[i].name == name)
  }

  ghost predicate NatOk(f: Fs, nid: nat)
    requires nid in f.nats
  {
    1 <= nid < f.nextNid && f.nats[nid].version == 1 && Owned(f.area, f.nats[nid].addr, nid, NODE_OFS)
  }

  ghost predicate NodesOk(f: Fs, files: map<nat, seq<u8>>)
  {
    && f.nats.Keys == files.Keys + f.dirs.Keys && files.Keys !! f.dirs.Keys && f.children.Keys == f.dirs.Keys
    && forall nid {:trigger NatOk(f, nid)} | nid in f.nats :: NatOk(f, nid)
  }

  ghost predicate FileOk(f: Fs, files: map<nat, seq<u8>>, nid: nat)
    requires Roomy(f) && nid in files
  { nid in f.nats && FileAt(f, nid, f.nats[nid].addr, files[nid]) }

  ghost predicate FilesOk(f: Fs, files: map<nat, seq<u8>>)
    requires Roomy(f)
  { forall nid {:trigger FileOk(f, files, nid)} | nid in files :: FileOk(f, files, nid) }

  ghost predicate DirOk(f: Fs, d: nat)
    requires Roomy(f) && d in f.dirs
  { d in f.nats && DirAt(f, d, f.nats[d].addr, f.dirs[d]) }

  ghost predicate DirsOk(f: Fs)
    requires Roomy(f)
  { forall d {:trigger DirOk(f, d)} | d in f.dirs :: DirOk(f, d) }

  ghost predicate KidsOk(f: Fs, files: map<nat, seq<u8>>, kids: map<Name, Child>)
  {
    forall name | name in kids :: if kids[name].isDir then kids[name].nid in f.dirs else kids[name].nid in files
  }

  ghost predicate BranchOk(f: Fs, files: map<nat, seq<u8>>, d: nat)
    requires d in f.dirs
  { d in f.children && Listed(f.dirs[d].entries, f.children[d]) && KidsOk(f, files, f.children[d]) }

  ghost predicate TreeOk(f: Fs, files: map<nat, seq<u8>>)
  { forall d {:trigger BranchOk(f, files, d)} | d in f.dirs :: BranchOk(f, files, d) }

  /** files gives the payloads stored so far, by node number. */
  ghost predicate Sound(f: Fs, files: map<nat, seq<u8>>)
  {
    && Roomy(f) && 2 <= f.nextNid <= f.area.next && ROOT_INO in f.dirs
    && NodesOk(f, files) && FilesOk(f, files) && DirsOk(f) && TreeOk(f, files)
  }

  /** The blocks of all nodes but n are as they were, so what they hold is too. */
  lemma OthersStay(f: Fs, g: Fs, files: map<nat, seq<u8>>, n: nat)
    requires Sound(f, files) && Roomy(g) && Kept(f, g, n)
    ensures forall nid | nid in f.nats :: Owned(g.area, f.nats[nid].addr, nid, NODE_OFS)
    ensures forall nid | nid in files && nid != n :: nid in f.nats && FileAt(g, nid, f.nats[nid].addr, files[nid])
    ensures forall d | d in f.dirs && d != n :: d in f.nats && DirAt(g, d, f.nats[d].addr, f.dirs[d])
  {
    hide FileAt, DirAt, Owned, Kept, Roomy, TreeOk;
    forall nid | nid in f.nats ensures Owned(g.area, f.nats[nid].addr, nid, NODE_OFS) {
      assert NatOk(f, nid);
      OwnedStays(f, g, n, f.nats[nid].addr, nid, NODE_OFS);
    }
    forall nid | nid in files && nid != n ensures nid in f.nats && FileAt(g, nid, f.nats[nid].addr, files[nid]) {
      assert FileOk(f, files, nid);
      FileStays(f, g, n, nid, f.nats[nid].addr, files[nid]);
    }
    forall d | d in f.dirs && d != n ensures d in f.nats && DirAt(g, d, f.nats[d].addr, f.dirs[d]) {
      assert DirOk(f, d);
      DirStays(f, g, n, d, f.nats[d].addr, f.dirs[d]);
    }
  }

  // ----- every operation keeps the invariant -----

  /** g is f with one more node, nid, whose own blocks are in order. */
  ghost predicate NewNode(f: Fs, g: Fs, nid: nat, addr: nat)
    requires Roomy(f) && Roomy(g)
  {
    && Kept(f, g, nid) && nid == f.nextNid && g.nextNid == nid + 1 && f.area.next < g.area.next
    && Owned(g.area, addr, nid, NODE_OFS) && g.nats == f.nats[nid := NatEntry(1, addr)]
  }

  lemma FreshNid(f: Fs, files: map<nat, seq<u8>>)
    requires Sound(f, files)
    ensures f.nextNid !in f.nats && f.nextNid !in files && f.nextNid !in f.dirs && f.nextNid !in f.children
  {
    hide FileAt, DirAt, Roomy, TreeOk;
    forall nid | nid in f.nats ensures nid < f.nextNid { assert NatOk(f, nid); }
  }

  lemma NewNodeNats(f: Fs, g: Fs, files: map<nat, seq<u8>>, nid: nat, addr: nat)
    requires Sound(f, files) && Roomy(g) && NewNode(f, g, nid, addr)
    ensures forall n | n in g.nats :: NatOk(g, n)
  {
    hide FileAt, DirAt, Roomy, TreeOk, Owned, Kept;
    OthersStay(f, g, files, nid);
    forall n | n in g.nats ensures NatOk(g, n) {
      if n != nid { assert NatOk(f, n); }
    }
  }

  lemma DirAdded(f: Fs, g: Fs, files: map<nat, seq<u8>>, nid: nat, addr: nat, dir: Directory)
    requires Sound(f, files) && Roomy(g) && NewNode(f, g, nid, addr)
    requires g.dirs == f.dirs[nid := dir] && g.children == f.children[nid := map[]]
    requires DirAt(g, nid, addr, dir) && Listed(dir.entries, map[])
    ensures Sound(g, files)
  {
    hide FileAt, DirAt, Owned, Kept, Listed, NatOk, KidsOk;
    FreshNid(f, files);
    OthersStay(f, g, files, nid);
    NewNodeNats(f, g, files, nid, addr);
    hide Roomy;
    assert NodesOk(g, files) by {
      assert g.nats.Keys == f.nats.Keys + {nid} && g.dirs.Keys == f.dirs.Keys + {nid} && g.children.Keys == f.children.Keys + {nid};
    }
    assert FilesOk(g, files) by { forall n | n in files ensures FileOk(g, files, n) {} }
    assert DirsOk(g) by { forall d | d in g.dirs ensures DirOk(g, d) {} }
    assert TreeOk(g, files) by { TreeGrows(f, g, files, files, nid, dir); }
  }

  lemma TreeGrows(f: Fs, g: Fs, files: map<nat, seq<u8>>, files': map<nat, seq<u8>>, nid: nat, dir: Directory)
    requires TreeOk(f, files) && files.Keys <= files'.Keys
    requires g.dirs == f.dirs[nid := dir] && g.children == f.children[nid := map[]] && Listed(dir.entries, map[])
    ensures TreeOk(g, files')
  {
    hide Listed;
    forall d | d in g.dirs ensures BranchOk(g, files', d) {
      if d != nid { assert BranchOk(f, files, d); }
    }
  }

  lemma FileAdded(f: Fs, g: Fs, files: map<nat, seq<u8>>, nid: nat, addr: nat, payload: seq<u8>)
    requires Sound(f, files) && Roomy(g) && NewNode(f, g, nid, addr)
    requires g.dirs == f.dirs && g.children == f.children && FileAt(g, nid, addr, payload)
    ensures Sound(g, files[nid := payload])
  {
    hide FileAt, DirAt, Owned, Kept, Listed, NatOk;
    FreshNid(f, files);
    OthersStay(f, g, files, nid);
    NewNodeNats(f, g, files, nid, addr);
    hide Roomy;
    var files' := files[nid := payload];
    assert NodesOk(g, files') by {
      assert g.nats.Keys == f.nats.Keys + {nid} && files'.Keys == files.Keys + {nid};
    }
    assert FilesOk(g, files') by { forall n | n in files' ensures FileOk(g, files', n) {} }
    assert DirsOk(g) by { forall d | d in g.dirs ensures DirOk(g, d) {} }
    assert TreeOk(g, files') by {
      forall d | d in g.dirs ensures BranchOk(g, files', d) { assert BranchOk(f, files, d); }
    }
  }

  lemma ListedGrows(entries: seq<Entry>, kids: map<Name, Child>, e: Entry)
    requires Listed(entries, kids) && e.name !in kids
    ensures Listed(entries + [e], kids[e.name := Child(e.ino, e.isDir)])
  {
    var es, ks := entries + [e], kids[e.name := Child(e.ino, e.isDir)];
    forall name | name in ks ensures exists i :: 2 <= i < |es| && es[i].name == name {
      if name != e.name {
        var i :| 2 <= i < |entries| && entries[i].name == name;
        assert es[i].name == name;
      } else {
        assert es[|entries|].name == name;
      }
    }
  }

  lemma LinkSound(f: Fs, files: map<nat, seq<u8>>, parent: nat, name: Name, nid: nat, isDir: bool)
    requires Sound(f, files) && parent in f.dirs && parent in f.children && name !in f.children[parent]
    requires if isDir then nid in f.dirs else nid in files
    requires Link(f, parent, name, nid, isDir).Ok?
    ensures Sound(Link(f, parent, name, nid, isDir).value, files)
  {
    hide FileAt, DirAt, Owned, Kept, Listed, Link, KidsOk;
    var g := Link(f, parent, name, nid, isDir).value;
    assert DirOk(f, parent);
    LinkStep(f, parent, f.nats[parent].addr, name, nid, isDir);
    OthersStay(f, g, files, parent);
    hide Roomy;
    assert NodesOk(g, files) by {
      assert g.dirs.Keys == f.dirs.Keys && g.children.Keys == f.children.Keys;
      forall n | n in g.nats ensures NatOk(g, n) { assert NatOk(f, n); }
    }
    assert FilesOk(g, files) by { forall n | n in files ensures FileOk(g, files, n) {} }
    assert DirsOk(g) by { forall d | d in g.dirs ensures DirOk(g, d) {} }
    assert TreeOk(g, files) by { LinkTree(f, g, files, parent, name, nid, isDir); }
  }

  lemma LinkTree(f: Fs, g: Fs, files: map<nat, seq<u8>>, parent: nat, name: Name, nid: nat, isDir: bool)
    requires TreeOk(f, files) && parent in f.dirs && parent in f.children && name !in f.children[parent]
    requires if isDir then nid in f.dirs else nid in files
    requires g.dirs == f.dirs[parent := f.dirs[parent].(entries := f.dirs[parent].entries + [Entry(name, nid, isDir)])]
    requires g.children == f.children[parent := f.children[parent][name := Child(nid, isDir)]]
    ensures TreeOk(g, files)
  {
    hide Listed;
    assert BranchOk(f, files, parent);
    ListedGrows(f.dirs[parent].entries, f.children[parent], Entry(name, nid, isDir));
    forall d | d in g.dirs ensures BranchOk(g, files, d) { assert BranchOk(f, files, d); }
  }
}
