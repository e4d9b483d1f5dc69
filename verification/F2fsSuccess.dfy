/** Exactly when a file can be created: what the tree, the directories and the free blocks must
    look like, for names of any length. */
module F2fsSuccess {
  import opened Options
  import opened Results
  import opened Words
  import opened Bytes
  import opened F2fsFormat
  import opened F2fsSegments
  import opened F2fsNode
  import opened F2fsTree
  import opened F2fsProof
  import opened F2fsRuns

  // ----- room in a directory -----

  /** A name fits the name area when it starts at the given slot. */
  predicate NameFitsAt(slot: nat, name: Name) { FILENAMES + slot * SLOT_LEN + |name| <= BLOCK }

  lemma {:induction false} SetBitsSucceed(block: seq<u8>, slot: nat, end: nat)
    requires end <= 8 * |block|
    ensures SetBits(block, slot, end).Ok?
    decreases end - slot
  {
    hide OrByte, Mask;
    if slot < end { SetBitsSucceed(SetBit(block, slot).value, slot + 1, end); }
  }

  lemma FieldsSucceed(block: seq<u8>, slot: nat, e: Entry)
    requires |block| == BLOCK && slot < DENTRY_SLOTS && e.ino < TWO32 && |e.name| < 0x1_0000
    ensures EntryFields(block, slot, e).Ok?
  {
    hide Splice, Le32, Le16;
  }

  lemma AddEntryIff(block: seq<u8>, slot: nat, e: Entry)
    requires |block| == BLOCK && e.name != [] && e.ino < TWO32
    ensures AddEntry(block, slot, e).Ok? && |AddEntry(block, slot, e).value| == BLOCK <==> NameFitsAt(slot, e.name)
  {
    hide EntryFields, OrByte, Mask, Splice;
    if NameFitsAt(slot, e.name) {
      var b := SetBit(block, slot).value;
      FieldsSucceed(b, slot, e);
      var c := Assign(EntryFields(b, slot, e).value, FILENAMES + slot * SLOT_LEN, e.name);
      SetBitsSucceed(c, slot + 1, slot + SlotsOf(e.name));
    } else if AddEntry(block, slot, e).Ok? && |AddEntry(block, slot, e).value| == BLOCK {
      NameFits(block, slot, e);
    }
  }

  lemma {:induction false} DirFromAppend(block: seq<u8>, entries: seq<Entry>, e: Entry, slot: nat)
    requires slot <= |entries|
    ensures DirFrom(block, entries + [e], slot) ==
              var r := DirFrom(block, entries, slot); if r.Err? then r else AddEntry(r.value, |entries|, e)
    decreases |entries| - slot
  {
    hide AddEntry;
    var es := entries + [e];
    if slot < |entries| {
      var b := AddEntry(block, slot, entries[slot]);
      if b.Ok? { DirFromAppend(b.value, entries, e, slot + 1); }
    } else {
      var b := AddEntry(block, slot, e);
      if b.Ok? { assert DirFrom(b.value, es, slot + 1) == b; }
    }
  }

  /** One more entry fits a directory block exactly when its name fits the rest of the name area. */
  lemma DirGrowsIff(entries: seq<Entry>, e: Entry)
    requires DirBytes(entries).Ok? && e.name != [] && e.ino < TWO32
    ensures DirBytes(entries + [e]).Ok? <==> NameFitsAt(|entries|, e.name)
  {
    hide AddEntry, DirFrom;
    DirFromAppend(Zeros(BLOCK), entries, e, 0);
    AddEntryIff(DirBytes(entries).value, |entries|, e);
  }

  /** A directory block can be written exactly when every name fits from its slot on. */
  lemma {:induction false} DirBytesIff(entries: seq<Entry>)
    requires Named(entries) && forall i | 0 <= i < |entries| :: entries[i].ino < TWO32
    ensures DirBytes(entries).Ok? <==> forall i | 0 <= i < |entries| :: NameFitsAt(i, entries[i].name)
  {
    hide AddEntry, DirFrom, NameFitsAt;
    if entries == [] {
      assert DirFrom(Zeros(BLOCK), [], 0) == Ok(Zeros(BLOCK)) by { NoEntries(); }
    } else {
      var front, e := entries[..|entries| - 1], entries[|entries| - 1];
      assert front + [e] == entries;
      DirBytesIff(front);
      DirFromAppend(Zeros(BLOCK), front, e, 0);
      if DirBytes(front).Ok? {
        DirGrowsIff(front, e);
      } else {
        forall i | 0 <= i < |front| ensures entries[i] == front[i] {}
      }
    }
  }

  lemma NoEntries()
    ensures DirFrom(Zeros(BLOCK), [], 0) == Ok(Zeros(BLOCK))
  {
  }

  /** Two files in a directory, the first with a long name: the block is written, and the long
      name cannot be read back. */
  lemma LongNameIsLost(d: nat, parent: nat, a: Entry, b: Entry)
    requires d < TWO32 && parent < TWO32 && a.ino < TWO32 && b.ino < TWO32 && b.name != []
    requires SLOT_LEN < |a.name| && NameFitsAt(2, a.name) && NameFitsAt(3, b.name) && a.name[SLOT_LEN] != b.name[0]
    ensures var r, n := DirBytes([Entry(DOT, d, true), Entry(DOTDOT, parent, true), a, b]), FILENAMES + 2 * SLOT_LEN;
            r.Ok? && r.value[n..n + |a.name|] != a.name
  {
    hide DirBytes;
    var entries := [Entry(DOT, d, true), Entry(DOTDOT, parent, true), a, b];
    DirBytesIff(entries);
    LongNameIsOverwritten(entries, 2);
  }

  lemma EmptyDirSucceeds(nid: nat, parent: nat)
    requires nid < TWO32 && parent < TWO32
    ensures DirBytes([Entry(DOT, nid, true), Entry(DOTDOT, parent, true)]).Ok?
  {
    assert DirBytes([]).Ok?;
    hide DirBytes;
    var dot, dotdot := Entry(DOT, nid, true), Entry(DOTDOT, parent, true);
    DirGrowsIff([], dot);
    assert [] + [dot] == [dot];
    DirGrowsIff([dot], dotdot);
    assert [dot] + [dotdot] == [dot, dotdot];
  }

  // ----- single operations -----

  /** Blocks of the main area not yet handed out. */
  function Free(f: Fs): int { f.area.segs * BLOCKS_PER_SEG - f.area.next }

  lemma AllocIff(f: Fs, nid: nat, ofs: nat)
    requires Roomy(f) && nid < TWO32 && ofs < 0x1_0000
    ensures AllocBlock(f, nid, ofs).Ok? <==> Free(f) >= 1
    ensures Free(f) >= 0
  {
    hide Accounted, Allocate;
    AllocateKeepsAccounts(f.area, Use(nid, ofs));
  }

  lemma InodeIff(f: Fs, nid: nat, isDir: bool, size: nat, direct: seq<nat>)
    requires Roomy(f) && nid in f.inodes && Owned(f.area, f.inodes[nid], nid, NODE_OFS)
    requires size < TWO64 && forall k | 0 <= k < |direct| :: direct[k] < TWO32
    ensures WriteInode(f, nid, isDir, size, direct).Ok? <==> |direct| <= MAX_POINTERS
  {
    hide Accounted, Blk, StoreBlock, InodeHead, PutPointers;
    PointersFit(InodeHead(isDir, size), direct, 0);
    if InodeBytes(isDir, size, direct).Ok? {
      InodeReadsBack(isDir, size, direct);
      StoreStep(f, f.inodes[nid], InodeBytes(isDir, size, direct).value, nid, NODE_OFS);
    }
  }

  lemma RewriteIff(f: Fs, d: nat)
    requires Roomy(f) && d in f.dirs && Owned(f.area, f.dirs[d].dataBlock, d, 0)
    ensures RewriteDir(f, d).Ok? <==> DirBytes(f.dirs[d].entries).Ok?
  {
    hide Accounted, Blk, StoreBlock, DirBytes;
    if DirBytes(f.dirs[d].entries).Ok? { StoreStep(f, f.dirs[d].dataBlock, DirBytes(f.dirs[d].entries).value, d, 0); }
  }

  lemma SegsKept(f: Fs, g: Fs, n: nat)
    requires Roomy(f) && Roomy(g) && Kept(f, g, n)
    ensures g.area.segs == f.area.segs
  {
  }

  lemma MakeDirIff(f: Fs, nid: nat, parent: nat)
    requires Roomy(f) && nid < TWO32 && parent < TWO32
    ensures MakeDir(f, nid, parent).Ok? <==> Free(f) >= 2
  {
    hide Accounted, Blk, AllocBlock, RewriteDir, WriteInode, DirBytes, Kept, Roomy;
    AllocIff(f, nid, NODE_OFS);
    if Free(f) >= 1 {
      AllocStep(f, nid, NODE_OFS);
      var a := AllocBlock(f, nid, NODE_OFS).value;
      SegsKept(f, a.0, nid);
      AllocIff(a.0, nid, 0);
      if Free(f) >= 2 {
        DirBlocks(f, nid);
        var b := AllocBlock(a.0, nid, 0).value;
        var dir := EmptyDir(nid, parent, b.1);
        var f1 := b.0.(inodes := b.0.inodes[nid := a.1], dirs := b.0.dirs[nid := dir], children := b.0.children[nid := map[]]);
        SameStorage(f, b.0, f1, nid);
        EmptyDirSucceeds(nid, parent);
        RewriteIff(f1, nid);
        RewriteStep(f1, nid);
        BlockBound(f1, b.1, nid, 0);
        InodeIff(RewriteDir(f1, nid).value, nid, true, BLOCK, [b.1]);
      }
    }
  }

  lemma BlockBound(f: Fs, b: nat, nid: nat, ofs: nat)
    requires Roomy(f) && Owned(f.area, b, nid, ofs)
    ensures b < TWO32
  {
  }

  lemma LinkIff(f: Fs, files: map<nat, seq<u8>>, parent: nat, name: Name, nid: nat, isDir: bool)
    requires Sound(f, files) && parent in f.dirs && parent in f.children && name != [] && nid < TWO32
    ensures Link(f, parent, name, nid, isDir).Ok? <==> NameFitsAt(|f.dirs[parent].entries|, name)
  {
    hide Accounted, Blk, RewriteDir, DirBytes, NodesOk, FilesOk, DirsOk, TreeOk, Owned, NameFitsAt;
    var addr := NatOf(f, files, parent);
    var entries := f.dirs[parent].entries + [Entry(name, nid, isDir)];
    var f1 := f.(dirs := f.dirs[parent := f.dirs[parent].(entries := entries)],
                 children := f.children[parent := f.children[parent][name := Child(nid, isDir)]]);
    KeptRefl(f, parent);
    SameStorage(f, f, f1, parent);
    RewriteIff(f1, parent);
    DirGrowsIff(f.dirs[parent].entries, Entry(name, nid, isDir));
  }

  lemma NidBound(f: Fs, files: map<nat, seq<u8>>)
    requires Sound(f, files)
    ensures f.nextNid < TWO32 && forall d | d in f.dirs :: d < TWO32
  {
    hide FileAt, DirAt, TreeOk, Accounted;
    assert f.area.next <= f.area.segs * BLOCKS_PER_SEG;
    forall d | d in f.dirs ensures d < TWO32 { assert NatOk(f, d); }
  }

  // ----- directories -----

  lemma CreateDirIff(f: Fs, files: map<nat, seq<u8>>, parent: nat, name: Name)
    requires Sound(f, files) && parent in f.dirs && name != []
    ensures CreateDir(f, parent, name).Ok? <==> Free(f) >= 2 && NameFitsAt(|f.dirs[parent].entries|, name)
  {
    hide MakeDir, Link, FileAt, DirAt, Owned, Kept, NodesOk, FilesOk, DirsOk, TreeOk, Accounted, Blk, NameFitsAt;
    var nid := f.nextNid;
    var f0 := f.(nextNid := nid + 1);
    NidBound(f, files);
    KeptRefl(f, nid);
    SameStorage(f, f, f0, nid);
    MakeDirIff(f0, nid, parent);
    if MakeDir(f0, nid, parent).Ok? {
      NewDir(f, files, parent);
      var g := MakeDir(f0, nid, parent).value;
      Kid(g, files, parent, name);
      LinkIff(g, files, parent, name, nid, true);
    }
  }

  /** What a new directory leaves: two blocks fewer, and nothing in it. */
  lemma CreateDirLeaves(f: Fs, files: map<nat, seq<u8>>, parent: nat, name: Name)
    requires Sound(f, files) && parent in f.dirs && CreateDir(f, parent, name).Ok?
    ensures var g, nid := CreateDir(f, parent, name).value.0, CreateDir(f, parent, name).value.1;
            Free(g) == Free(f) - 2 && nid in g.dirs && |g.dirs[nid].entries| == 2 && nid in g.children && g.children[nid] == map[]
  {
    hide MakeDir, FileAt, DirAt, Owned, Kept, NodesOk, FilesOk, DirsOk, TreeOk, Accounted, Blk, Roomy, RewriteDir, Link;
    NewDir(f, files, parent);
    var nid := f.nextNid;
    var g := MakeDir(f.(nextNid := nid + 1), nid, parent).value;
    Kid(g, files, parent, name);
    LinkStep(g, parent, NatOf(g, files, parent), name, nid, true);
  }

  /** All parts are still missing below directory d. */
  ghost predicate CanMake(f: Fs, parts: seq<Name>, d: nat)
    requires d in f.dirs
  {
    && (parts != [] ==> NameFitsAt(|f.dirs[d].entries|, parts[0]))
    && (forall j | 0 < j < |parts| :: NameFitsAt(2, parts[j]))
    && 2 * |parts| <= Free(f)
  }

  lemma {:induction false} EnsureNewIff(f: Fs, files: map<nat, seq<u8>>, parts: seq<Name>, d: nat)
    requires Sound(f, files) && d in f.dirs && d in f.children && (parts != [] ==> parts[0] !in f.children[d])
    requires forall j | 0 <= j < |parts| :: parts[j] != []
    ensures EnsureDir(f, parts, d).Ok? <==> CanMake(f, parts, d)
    ensures EnsureDir(f, parts, d).Ok? ==>
              var g, p := EnsureDir(f, parts, d).value.0, EnsureDir(f, parts, d).value.1;
              && Sound(g, files) && Free(g) == Free(f) - 2 * |parts| && p in g.dirs && p in g.children
              && (if parts == [] then g == f && p == d else |g.dirs[p].entries| == 2 && g.children[p] == map[])
    decreases |parts|
  {
    hide CreateDir, Sound, NameFitsAt;
    FreeIsNat(f, files);
    if parts != [] {
      CreateDirIff(f, files, d, parts[0]);
      if CreateDir(f, d, parts[0]).Ok? {
        CreateDirLeaves(f, files, d, parts[0]);
        CreateDirSound(f, files, d, parts[0]);
        var r := CreateDir(f, d, parts[0]).value;
        EnsureNewIff(r.0, files, parts[1..], r.1);
        NewParts(r.0, parts, r.1);
      }
    }
  }

  lemma FreeIsNat(f: Fs, files: map<nat, seq<u8>>)
    requires Sound(f, files)
    ensures Free(f) >= 0
  {
    hide Accounted, NodesOk, FilesOk, DirsOk, TreeOk;
    AllocIff(f, 0, 0);
  }

  lemma NewParts(g: Fs, parts: seq<Name>, d: nat)
    requires parts != [] && d in g.dirs && |g.dirs[d].entries| == 2
    ensures CanMake(g, parts[1..], d) <==> (forall j | 0 < j < |parts| :: NameFitsAt(2, parts[j])) && 2 * (|parts| - 1) <= Free(g)
  {
    hide NameFitsAt;
    var rest := parts[1..];
    if CanMake(g, rest, d) {
      forall j | 0 < j < |parts| ensures NameFitsAt(2, parts[j]) { assert parts[j] == rest[j - 1]; }
    }
  }

  /** Parts that exist are walked without a change. */
  lemma {:induction false} EnsureKnown(f: Fs, parts: seq<Name>, cur: nat, k: nat, d: nat)
    requires k <= |parts| && cur in f.children && d in f.children && Lookup(f, parts[..k], cur) == Some(Child(d, true))
    requires forall c | c in f.children :: forall n | n in f.children[c] && f.children[c][n].isDir :: f.children[c][n].nid in f.children
    ensures EnsureDir(f, parts, cur) == EnsureDir(f, parts[k..], d)
    decreases k
  {
    if k == 0 {
      assert parts[..0] == [] && parts[0..] == parts;
    } else {
      var front := parts[..k];
      var n := f.children[cur][parts[0]];
      if k == 1 { LookupNothing(f, n.nid); }
      assert front[1..] == parts[1..][..k - 1];
      EnsureKnown(f, parts[1..], n.nid, k - 1, d);
      assert parts[1..][k - 1..] == parts[k..];
    }
  }

  // ----- files -----

  lemma {:induction false} ChunksIff(f: Fs, nid: nat, payload: seq<u8>, direct: seq<nat>)
    requires Roomy(f) && nid < TWO32 && Stored(f, nid, payload, direct)
    ensures StoreChunks(f, nid, payload, direct).Ok? <==> Chunks(|payload|) - |direct| <= Free(f)
    decreases |payload| - |direct| * BLOCK
  {
    hide Accounted, Blk, Chunk, AllocBlock, StoreBlock, Roomy, Stored;
    StoredBounds(f, nid, payload, direct);
    if |direct| * BLOCK < |payload| {
      MoreChunks(|payload|, |direct|);
      AllocIff(f, nid, |direct|);
      if AllocBlock(f, nid, |direct|).Ok? {
        ChunkStep(f, nid, payload, direct);
        var a := AllocBlock(f, nid, |direct|).value;
        ChunksIff(StoreBlock(a.0, a.1, Chunk(payload, |direct|)).value, nid, payload, direct + [a.1]);
      }
    } else {
      NoMoreChunks(|payload|, |direct|);
    }
  }

  lemma StoredBounds(f: Fs, nid: nat, payload: seq<u8>, direct: seq<nat>)
    requires Roomy(f) && Stored(f, nid, payload, direct)
    ensures |direct| < 0x1_0000 && Free(f) >= 0 && |direct| <= Chunks(|payload|) && forall k | 0 <= k < |direct| :: direct[k] < TWO32
  {
    hide Accounted, Blk, Chunk;
    assert f.area.next <= f.area.segs * BLOCKS_PER_SEG;
    DistinctBlocks(f, nid, payload, direct, |direct|);
  }

  /** Blocks that hold different chunks are different, so there are no more chunks than blocks. */
  lemma {:induction false} DistinctBlocks(f: Fs, nid: nat, payload: seq<u8>, direct: seq<nat>, n: nat)
    requires Roomy(f) && Stored(f, nid, payload, direct) && n <= |direct|
    ensures var s := set k | 0 <= k < n :: direct[k]; |s| == n && n <= f.area.next
  {
    hide Accounted, Blk, Chunk;
    var s := set k | 0 <= k < n :: direct[k];
    if n > 0 {
      DistinctBlocks(f, nid, payload, direct, n - 1);
      var t := set k | 0 <= k < n - 1 :: direct[k];
      forall k | 0 <= k < n - 1 ensures direct[k] != direct[n - 1] {
        assert Owned(f.area, direct[k], nid, k) && Owned(f.area, direct[n - 1], nid, n - 1);
      }
      assert s == t + {direct[n - 1]};
    }
    InRange(s, MAIN, f.area.next);
  }

  lemma {:induction false} InRange(s: set<nat>, lo: nat, n: nat)
    requires forall x | x in s :: lo <= x < lo + n
    ensures |s| <= n
    decreases n
  {
    if n == 0 {
      assert s == {};
    } else {
      var t := s - {lo + n - 1};
      InRange(t, lo, n - 1);
      if lo + n - 1 in s { assert s == t + {lo + n - 1}; } else { assert s == t; }
    }
  }

  lemma MoreChunks(n: nat, k: nat)
    requires k * BLOCK < n
    ensures k < Chunks(n)
  {
  }

  lemma NoMoreChunks(n: nat, k: nat)
    requires n <= k * BLOCK
    ensures Chunks(n) <= k
  {
  }

  lemma StoreFileIff(f: Fs, files: map<nat, seq<u8>>, payload: seq<u8>)
    requires Sound(f, files)
    ensures StoreFile(f, payload).Ok? <==> Chunks(|payload|) <= MAX_POINTERS && 1 + Chunks(|payload|) <= Free(f)
  {
    hide FileAt, DirAt, Owned, Kept, NodesOk, FilesOk, DirsOk, TreeOk, Accounted, Blk, AllocBlock, StoreChunks, WriteInode, Stored;
    var nid := f.nextNid;
    var f0 := f.(nextNid := nid + 1);
    NidBound(f, files);
    KeptRefl(f, nid);
    SameStorage(f, f, f0, nid);
    AllocIff(f0, nid, NODE_OFS);
    if Free(f) >= 1 {
      AllocStep(f0, nid, NODE_OFS);
      var a := AllocBlock(f0, nid, NODE_OFS).value;
      var f1 := a.0.(inodes := a.0.inodes[nid := a.1]);
      SegsKept(f0, a.0, nid);
      SameStorage(f0, a.0, f1, nid);
      NothingStored(f1, nid, payload);
      ChunksIff(f1, nid, payload, []);
      if StoreChunks(f1, nid, payload, []).Ok? {
        ChunksStored(f1, nid, payload, []);
        var c := StoreChunks(f1, nid, payload, []).value;
        StoredBounds(c.0, nid, payload, c.1);
        OwnedStays(f1, c.0, nid, a.1, nid, NODE_OFS);
        PayloadBound(|payload|, |c.1|);
        InodeIff(c.0, nid, false, |payload|, c.1);
      }
    }
  }

  lemma PayloadBound(n: nat, k: nat)
    requires Chunks(n) == k < 0x1_0000
    ensures n < TWO64
  {
  }

  lemma MakeFileIff(f: Fs, files: map<nat, seq<u8>>, parent: nat, name: Name, payload: seq<u8>)
    requires Sound(f, files) && parent in f.dirs && parent in f.children && name != []
    ensures MakeFile(f, parent, name, payload).Ok? <==>
              Chunks(|payload|) <= MAX_POINTERS && 1 + Chunks(|payload|) <= Free(f) && NameFitsAt(|f.dirs[parent].entries|, name)
  {
    hide StoreFile, Link, Sound, NameFitsAt;
    StoreFileIff(f, files, payload);
    NidBound(f, files);
    if StoreFile(f, payload).Ok? {
      FileStored(f, files, payload);
      LinkIff(StoreFile(f, payload).value, files[f.nextNid := payload], parent, name, f.nextNid, false);
    }
  }

  // ----- whole requests -----

  /** d is the deepest directory on the way: the first k parts lead to it, and the next part is
      the last one or does not lead to a directory. */
  ghost predicate Deepest(f: Fs, parts: seq<Name>, k: nat, d: nat)
  {
    && k < |parts| && Lookup(f, parts[..k], ROOT_INO) == Some(Child(d, true)) && d in f.dirs && d in f.children
    && (k + 1 < |parts| && parts[k] in f.children[d] ==> !f.children[d][parts[k]].isDir)
  }

  lemma {:induction false} DeepestFrom(f: Fs, files: map<nat, seq<u8>>, parts: seq<Name>, i: nat, cur: nat) returns (k: nat, d: nat)
    requires Sound(f, files) && i < |parts| && cur in f.dirs && Lookup(f, parts[..i], ROOT_INO) == Some(Child(cur, true))
    ensures Deepest(f, parts, k, d)
    decreases |parts| - i
  {
    hide Sound, Lookup;
    Kid(f, files, cur, parts[i]);
    if i + 1 < |parts| && parts[i] in f.children[cur] && f.children[cur][parts[i]].isDir {
      LookupAppend(f, parts[..i], ROOT_INO, cur, parts[i]);
      assert parts[..i] + [parts[i]] == parts[..i + 1];
      k, d := DeepestFrom(f, files, parts, i + 1, f.children[cur][parts[i]].nid);
    } else {
      k, d := i, cur;
    }
  }

  /** There always is one. */
  lemma DeepestExists(f: Fs, files: map<nat, seq<u8>>, parts: seq<Name>) returns (k: nat, d: nat)
    requires Sound(f, files) && parts != []
    ensures Deepest(f, parts, k, d)
  {
    hide Sound;
    HasRoot(f, files);
    assert parts[..0] == [];
    k, d := DeepestFrom(f, files, parts, 0, ROOT_INO);
  }

  /** Creating the last of the parts below directory d, and the directories before it, is possible. */
  ghost predicate CanCreate(f: Fs, parts: seq<Name>, k: nat, d: nat, chunks: nat)
    requires k < |parts| && d in f.dirs && d in f.children
  {
    && parts[k] !in f.children[d]
    && NameFitsAt(|f.dirs[d].entries|, parts[k]) && (forall j | k < j < |parts| :: NameFitsAt(2, parts[j]))
    && chunks <= MAX_POINTERS && 2 * (|parts| - 1 - k) + 1 + chunks <= Free(f)
  }

  lemma KidsAreDirs(f: Fs, files: map<nat, seq<u8>>)
    requires Sound(f, files)
    ensures ROOT_INO in f.children
    ensures forall c | c in f.children :: forall n | n in f.children[c] && f.children[c][n].isDir :: f.children[c][n].nid in f.children
  {
    hide Roomy, FilesOk, DirsOk, Listed;
    forall c | c in f.children ensures forall n | n in f.children[c] && f.children[c][n].isDir :: f.children[c][n].nid in f.children {
      assert BranchOk(f, files, c);
    }
  }

  lemma ComponentsArePlain(path: seq<u8>)
    ensures forall j | 0 <= j < |Components(path)| :: Plain(Components(path)[j])
  {
    PartsArePlain(path, []);
  }

  lemma BlockedWay(f: Fs, parts: seq<Name>, d: nat)
    requires parts != [] && d in f.children && parts[0] in f.children[d] && !f.children[d][parts[0]].isDir
    ensures EnsureDir(f, parts, d) == Err(NotADirectory)
  {
  }

  /** On every image that the builder can reach: creating a file succeeds exactly when, from the
      deepest directory on its way, the next part is not taken, all names fit their directories,
      the file has at most 934 blocks, and there are blocks enough for two per new directory,
      the inode and the contents. */
  lemma CreateFileIff(f: Fs, files: map<nat, seq<u8>>, path: seq<u8>, payload: seq<u8>, k: nat, d: nat)
    requires Sound(f, files) && Deepest(f, Components(path), k, d)
    ensures CreateFile(f, path, payload).Ok? <==> CanCreate(f, Components(path), k, d, Chunks(|payload|))
  {
    hide Components, EnsureDir, MakeFile, Sound, Lookup, NameFitsAt, Split;
    var parts, n := Components(path), |Components(path)|;
    ComponentsArePlain(path);
    var front, name := parts[..n - 1], parts[n - 1];
    KidsAreDirs(f, files);
    assert front[..k] == parts[..k];
    EnsureKnown(f, front, ROOT_INO, k, d);
    var rest := front[k..];
    if k < n - 1 && parts[k] in f.children[d] {
      assert rest[0] == parts[k];
      BlockedWay(f, rest, d);
    } else {
      forall j | 0 <= j < |rest| ensures rest[j] != [] { assert rest[j] == parts[k + j] && Plain(parts[k + j]); }
      assert name == parts[n - 1] && Plain(parts[n - 1]);
      EnsureNewIff(f, files, rest, d);
      FreeIsNat(f, files);
      if EnsureDir(f, rest, d).Ok? {
        var r := EnsureDir(f, rest, d).value;
        MakeFileIff(r.0, files, r.1, name, payload);
      }
      RestCanMake(f, parts, k, d);
    }
  }

  lemma RestCanMake(f: Fs, parts: seq<Name>, k: nat, d: nat)
    requires k < |parts| && d in f.dirs
    ensures var rest := parts[..|parts| - 1][k..];
            CanMake(f, rest, d) <==>
              && (k < |parts| - 1 ==> NameFitsAt(|f.dirs[d].entries|, parts[k]))
              && (forall j | k < j < |parts| - 1 :: NameFitsAt(2, parts[j]))
              && 2 * (|parts| - 1 - k) <= Free(f)
  {
    hide NameFitsAt;
    var rest := parts[..|parts| - 1][k..];
    if CanMake(f, rest, d) {
      forall j | k < j < |parts| - 1 ensures NameFitsAt(2, parts[j]) { assert rest[j - k] == parts[j]; }
    }
  }

  // ----- a fresh image -----

  lemma FreshTree(totalBytes: nat)
    requires NewFs(totalBytes).Ok?
    ensures var f := NewFs(totalBytes).value;
            && ROOT_INO in f.dirs && |f.dirs[ROOT_INO].entries| == 2
            && ROOT_INO in f.children && f.children[ROOT_INO] == map[] && Free(f) >= 8 * BLOCKS_PER_SEG - 2
  {
    hide MakeDir, Roomy, DirAt, Kept;
    var segs := (totalBytes / BLOCK - MAIN) / BLOCKS_PER_SEG;
    FreshIsRoomy(totalBytes, segs);
    var f := Fs(Zeros(totalBytes), NewArea(segs), ROOT_INO + 1, map[], map[], map[], map[]);
    MakeDirStep(f, ROOT_INO, ROOT_INO);
    SegsKept(f, MakeDir(f, ROOT_INO, ROOT_INO).value, ROOT_INO);
  }

  /** A fresh image can be made exactly when its size is a whole number of blocks, and its main
      area has at least eight segments and no more than the summaries can describe. */
  lemma NewFsIff(totalBytes: nat)
    ensures var segs := if totalBytes >= MIN_BYTES then (totalBytes / BLOCK - MAIN) / BLOCKS_PER_SEG else 0;
            NewFs(totalBytes).Ok? <==> totalBytes % BLOCK == 0 && 8 <= segs <= SSA_BLOCKS
  {
    hide MakeDir, Roomy;
    if totalBytes >= MIN_BYTES && totalBytes % BLOCK == 0 {
      var segs := (totalBytes / BLOCK - MAIN) / BLOCKS_PER_SEG;
      if 8 <= segs <= SSA_BLOCKS {
        FreshIsRoomy(totalBytes, segs);
        MakeDirIff(Fs(Zeros(totalBytes), NewArea(segs), ROOT_INO + 1, map[], map[], map[], map[]), ROOT_INO, ROOT_INO);
      }
    }
  }

  /** The first file of a fresh image, under any path. */
  lemma FirstFileIff(totalBytes: nat, path: seq<u8>, payload: seq<u8>)
    requires NewFs(totalBytes).Ok? && Components(path) != []
    ensures var parts, f := Components(path), NewFs(totalBytes).value;
            CreateFile(f, path, payload).Ok? <==>
              && (forall j | 0 <= j < |parts| :: NameFitsAt(2, parts[j]))
              && Chunks(|payload|) <= MAX_POINTERS && 2 * (|parts| - 1) + 1 + Chunks(|payload|) <= Free(f)
  {
    hide NewFs, Components, CreateFile, NameFitsAt, Sound, Lookup;
    NewFsSound(totalBytes);
    FreshTree(totalBytes);
    var parts, f := Components(path), NewFs(totalBytes).value;
    assert parts[..0] == [];
    LookupNothing(f, ROOT_INO);
    CreateFileIff(f, map[], path, payload, 0, ROOT_INO);
  }
}
