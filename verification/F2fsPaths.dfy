/** Following paths through the directories of the finished image. */
module F2fsPaths {
  import opened Options
  import opened Results
  import opened Words
  import opened Bytes
  import opened F2fsFormat
  import opened F2fsSegments
  import opened F2fsNode
  import opened F2fsTree
  import opened F2fsTables
  import opened F2fsProof
  import opened F2fsRuns
  import opened F2fsSuccess
  import opened F2fsReadBack
  import opened F2fsReader

  // ----- directories and paths, on disk -----

  /** Slot number `slot` is in use and carries this name. */
  predicate Matches(block: seq<u8>, slot: nat, name: Name)
    requires |block| == BLOCK && slot < DENTRY_SLOTS
  {
    var off, n := DENTRY + slot * DENTRY_SIZE, FILENAMES + slot * SLOT_LEN;
    && Bit(block[slot / 8], slot % 8) && FromLe(block[off + 8..off + 10]) == |name|
    && n + |name| <= BLOCK && block[n..n + |name|] == name
  }

  function FindName(block: seq<u8>, name: Name, slot: nat): Option<Child>
    requires |block| == BLOCK
    decreases DENTRY_SLOTS - slot
  {
    if slot >= DENTRY_SLOTS then None
    else if Matches(block, slot, name) then
      var off := DENTRY + slot * DENTRY_SIZE;
      Some(Child(FromLe(block[off + 4..off + 8]), block[off + 10] == 2))
    else FindName(block, name, slot + 1)
  }

  function ReadDir(img: seq<u8>, copy: nat, d: nat): (r: Option<seq<u8>>)
    ensures r.Some? ==> |r.value| == BLOCK
  {
    var inode := ReadInode(img, copy, d);
    if inode.None? then None else ReadBlock(img, PointerAt(inode.value, 0))
  }

  /** Follows a path through the directories of the image. */
  function Resolve(img: seq<u8>, copy: nat, parts: seq<Name>, cur: nat): Option<Child>
    decreases |parts|
  {
    if parts == [] then Some(Child(cur, true)) else
    var block := ReadDir(img, copy, cur);
    if block.None? then None else
    var c := FindName(block.value, parts[0], 0);
    if c.None? then None
    else if |parts| == 1 then c
    else if !c.value.isDir then None
    else Resolve(img, copy, parts[1..], c.value.nid)
  }

  lemma HeldMatches(block: seq<u8>, slot: nat, e: Entry, name: Name)
    requires |block| == BLOCK && slot < DENTRY_SLOTS && Short(e) && Holds(block, slot, e)
    ensures Matches(block, slot, name) <==> name == e.name
  {
    hide FromLe, Bit;
  }

  lemma {:induction false} FindListed(block: seq<u8>, entries: seq<Entry>, i: nat, slot: nat)
    requires |block| == BLOCK && (forall k | 0 <= k < |entries| :: Short(entries[k])) && Lists(block, entries, |entries|)
    requires slot <= i < |entries| && forall k | 0 <= k < i :: entries[k].name != entries[i].name
    ensures FindName(block, entries[i].name, slot) == Some(Child(entries[i].ino, entries[i].isDir))
    decreases i - slot
  {
    hide FromLe, Bit, Matches, Holds;
    assert Holds(block, slot, entries[slot]);
    HeldMatches(block, slot, entries[slot], entries[i].name);
    if slot < i { FindListed(block, entries, i, slot + 1); } else { HeldFields(block, slot, entries[slot]); }
  }

  lemma HeldFields(block: seq<u8>, slot: nat, e: Entry)
    requires |block| == BLOCK && slot < DENTRY_SLOTS && Short(e) && Holds(block, slot, e)
    ensures var off := DENTRY + slot * DENTRY_SIZE; FromLe(block[off + 4..off + 8]) == e.ino && (block[off + 10] == 2 <==> e.isDir)
  {
    hide FromLe, Bit;
  }

  lemma DirReads(f: Fs, files: map<nat, seq<u8>>, crc: Crc, d: nat, copy: nat)
    requires Sound(f, files) && d in f.dirs && copy <= 1
    ensures Build(f, crc).Ok? && ReadDir(Build(f, crc).value, copy, d).Some?
    ensures DirBytes(f.dirs[d].entries) == Ok(ReadDir(Build(f, crc).value, copy, d).value)
  {
    hide NodesOk, FilesOk, TreeOk, Build, Blk, Accounted, NatOffset, NatBytes, ReadNat, SizeAt, PointerAt, DirBytes;
    assert DirOk(f, d);
    NatReadsBack(f, files, crc, d, copy);
    var img, addr := Build(f, crc).value, f.nats[d].addr;
    EntryReads(img, copy, d, f.nats[d]);
    assert DirAt(f, d, addr, f.dirs[d]);
    MainUntouched(f, files, crc, addr);
    MainUntouched(f, files, crc, f.dirs[d].dataBlock);
  }

  lemma {:induction false} FindMissing(block: seq<u8>, entries: seq<Entry>, name: Name, slot: nat)
    requires |block| == BLOCK && (forall k | 0 <= k < |entries| :: Short(entries[k])) && Lists(block, entries, |entries|)
    requires forall k | 0 <= k < |entries| :: entries[k].name != name
    ensures FindName(block, name, slot) == None
    decreases DENTRY_SLOTS - slot
  {
    hide FromLe, Bit, Holds;
    if slot < DENTRY_SLOTS {
      if slot < |entries| {
        assert Holds(block, slot, entries[slot]);
        HeldMatches(block, slot, entries[slot], name);
      }
      FindMissing(block, entries, name, slot + 1);
    }
  }

  // ----- the shape of the tree -----

  ghost predicate AllShort(f: Fs)
  {
    forall d | d in f.dirs :: forall i | 0 <= i < |f.dirs[d].entries| :: Short(f.dirs[d].entries[i])
  }

  /** Directory d names itself first, then a directory no deeper than itself, and its children
      are one level further down. */
  ghost predicate LevelOk(f: Fs, depth: map<nat, nat>, d: nat)
    requires d in f.dirs
  {
    var es := f.dirs[d].entries;
    && d in depth && d in f.children
    && |es| >= 2 && es[0] == Entry(DOT, d, true) && es[1] == Entry(DOTDOT, es[1].ino, true)
    && es[1].ino in f.dirs && es[1].ino in depth && depth[es[1].ino] <= depth[d]
    && forall name | name in f.children[d] :: f.children[d][name].nid in depth && depth[f.children[d][name].nid] == depth[d] + 1
  }

  ghost predicate Levels(f: Fs, depth: map<nat, nat>)
  {
    && (forall n | n in depth :: n < f.nextNid)
    && (forall d {:trigger LevelOk(f, depth, d)} | d in f.dirs :: LevelOk(f, depth, d))
  }

  predicate ShortParts(parts: seq<Name>) { forall i | 0 <= i < |parts| :: 0 < |parts[i]| <= SLOT_LEN }

  lemma LinkShaped(f: Fs, depth: map<nat, nat>, parent: nat, name: Name, nid: nat, isDir: bool)
    requires AllShort(f) && Levels(f, depth) && Link(f, parent, name, nid, isDir).Ok? && 0 < |name| <= SLOT_LEN
    requires parent in depth && nid in depth && depth[nid] == depth[parent] + 1
    ensures AllShort(Link(f, parent, name, nid, isDir).value) && Levels(Link(f, parent, name, nid, isDir).value, depth)
  {
    hide DirBytes, Splice;
    var g := Link(f, parent, name, nid, isDir).value;
    forall d | d in g.dirs ensures LevelOk(g, depth, d) { assert LevelOk(f, depth, d); }
  }

  lemma MakeDirShaped(f: Fs, depth: map<nat, nat>, nid: nat, parent: nat, k: nat)
    requires AllShort(f) && Levels(f, depth) && Roomy(f) && MakeDir(f, nid, parent).Ok?
    requires nid < f.nextNid && nid !in depth && nid !in f.dirs
    requires parent == nid || (parent in f.dirs && parent in depth && depth[parent] <= k)
    ensures AllShort(MakeDir(f, nid, parent).value) && Levels(MakeDir(f, nid, parent).value, depth[nid := k])
  {
    hide MakeDir, Roomy, DirAt, Kept, AllShort, Levels;
    MakeDirStep(f, nid, parent);
    var g := MakeDir(f, nid, parent).value;
    NewDirShort(f, g, nid, g.dirs[nid]);
    NewDirLevels(f, g, depth, nid, parent, k);
  }

  lemma NewDirShort(f: Fs, g: Fs, nid: nat, dir: Directory)
    requires AllShort(f) && g.dirs == f.dirs[nid := dir] && forall i | 0 <= i < |dir.entries| :: Short(dir.entries[i])
    ensures AllShort(g)
  {
  }

  lemma NewDirLevels(f: Fs, g: Fs, depth: map<nat, nat>, nid: nat, parent: nat, k: nat)
    requires Levels(f, depth) && nid < f.nextNid == g.nextNid && nid !in depth && nid !in f.dirs
    requires parent == nid || (parent in f.dirs && parent in depth && depth[parent] <= k)
    requires nid in g.dirs && g.dirs[nid].entries == [Entry(DOT, nid, true), Entry(DOTDOT, parent, true)]
    requires g.dirs == f.dirs[nid := g.dirs[nid]] && g.children == f.children[nid := map[]]
    ensures Levels(g, depth[nid := k])
  {
    hide LevelOk;
    forall d | d in g.dirs ensures LevelOk(g, depth[nid := k], d) {
      if d != nid {
        assert LevelOk(f, depth, d);
        LevelStays(f, g, depth, depth[nid := k], d);
      } else {
        NewDirLevel(g, depth[nid := k], nid, parent);
      }
    }
  }

  lemma NewDirLevel(g: Fs, depth: map<nat, nat>, nid: nat, parent: nat)
    requires nid in g.dirs && nid in depth && nid in g.children && g.children[nid] == map[]
    requires parent in g.dirs && parent in depth && depth[parent] <= depth[nid]
    requires g.dirs[nid].entries == [Entry(DOT, nid, true), Entry(DOTDOT, parent, true)]
    ensures LevelOk(g, depth, nid)
  {
  }

  lemma LevelStays(f: Fs, g: Fs, depth: map<nat, nat>, depth': map<nat, nat>, d: nat)
    requires d in f.dirs && LevelOk(f, depth, d)
    requires f.dirs.Keys <= g.dirs.Keys && g.dirs[d] == f.dirs[d] && (d in f.children ==> d in g.children && g.children[d] == f.children[d])
    requires forall n | n in depth :: n in depth' && depth'[n] == depth[n]
    ensures LevelOk(g, depth', d)
  {
  }

  lemma SameTree(f: Fs, g: Fs, depth: map<nat, nat>)
    requires AllShort(f) && Levels(f, depth) && g.dirs == f.dirs && g.children == f.children && g.nextNid >= f.nextNid
    ensures AllShort(g) && Levels(g, depth)
  {
    forall d | d in g.dirs ensures LevelOk(g, depth, d) { assert LevelOk(f, depth, d); }
  }

  /** A node that is about to be entered below `parent`. */
  lemma NewLevel(f: Fs, depth: map<nat, nat>, nid: nat, k: nat)
    requires AllShort(f) && Levels(f, depth) && nid !in depth && nid < f.nextNid
    ensures Levels(f, depth[nid := k])
  {
    forall d | d in f.dirs ensures LevelOk(f, depth[nid := k], d) {
      assert LevelOk(f, depth, d);
      LevelStays(f, f, depth, depth[nid := k], d);
    }
  }

  lemma CreateDirShaped(f: Fs, files: map<nat, seq<u8>>, depth: map<nat, nat>, parent: nat, name: Name) returns (depth': map<nat, nat>)
    requires Sound(f, files) && AllShort(f) && Levels(f, depth) && parent in f.dirs && CreateDir(f, parent, name).Ok? && 0 < |name| <= SLOT_LEN
    ensures AllShort(CreateDir(f, parent, name).value.0) && Levels(CreateDir(f, parent, name).value.0, depth')
  {
    hide MakeDir, Link, AllShort, NodesOk, FilesOk, DirsOk, TreeOk, Accounted, Blk;
    var nid := f.nextNid;
    var f0 := f.(nextNid := nid + 1);
    KeptRefl(f, 0);
    SameStorage(f, f, f0, 0);
    SameTree(f, f0, depth);
    FreshNid(f, files);
    assert LevelOk(f, depth, parent);
    depth' := depth[nid := depth[parent] + 1];
    MakeDirShaped(f0, depth, nid, parent, depth[parent] + 1);
    LinkShaped(MakeDir(f0, nid, parent).value, depth', parent, name, nid, true);
  }

  lemma {:induction false} EnsureDirShaped(f: Fs, files: map<nat, seq<u8>>, depth: map<nat, nat>, parts: seq<Name>, cur: nat) returns (depth': map<nat, nat>)
    requires Sound(f, files) && AllShort(f) && Levels(f, depth) && cur in f.dirs && EnsureDir(f, parts, cur).Ok? && ShortParts(parts)
    ensures AllShort(EnsureDir(f, parts, cur).value.0) && Levels(EnsureDir(f, parts, cur).value.0, depth')
    decreases |parts|
  {
    hide CreateDir, Sound, AllShort, Levels;
    depth' := depth;
    if parts != [] {
      Kid(f, files, cur, parts[0]);
      if parts[0] !in f.children[cur] {
        CreateDirSound(f, files, cur, parts[0]);
        depth' := CreateDirShaped(f, files, depth, cur, parts[0]);
        var r := CreateDir(f, cur, parts[0]).value;
        depth' := EnsureDirShaped(r.0, files, depth', parts[1..], r.1);
      } else {
        depth' := EnsureDirShaped(f, files, depth, parts[1..], f.children[cur][parts[0]].nid);
      }
    }
  }

  lemma MakeFileShaped(f: Fs, files: map<nat, seq<u8>>, depth: map<nat, nat>, parent: nat, name: Name, payload: seq<u8>) returns (depth': map<nat, nat>)
    requires Sound(f, files) && AllShort(f) && Levels(f, depth) && parent in f.dirs && MakeFile(f, parent, name, payload).Ok? && 0 < |name| <= SLOT_LEN
    ensures AllShort(MakeFile(f, parent, name, payload).value) && Levels(MakeFile(f, parent, name, payload).value, depth')
  {
    hide MakeFile, Link, Sound, AllShort;
    NewFile(f, files, parent, name, payload);
    var nid := f.nextNid;
    var g: Fs :| && Sound(g, files[nid := payload]) && g.children == f.children && g.dirs == f.dirs && nid in g.nats
                 && MakeFile(f, parent, name, payload) == Link(g, parent, name, nid, false);
    NatsBelow(g, files[nid := payload], nid);
    SameTree(f, g, depth);
    assert LevelOk(f, depth, parent);
    depth' := depth[nid := depth[parent] + 1];
    NewLevel(g, depth, nid, depth[parent] + 1);
    LinkShaped(g, depth', parent, name, nid, false);
  }

  lemma NatsBelow(f: Fs, files: map<nat, seq<u8>>, nid: nat)
    requires Sound(f, files) && nid in f.nats
    ensures nid < f.nextNid
  {
    assert NatOk(f, nid);
  }

  lemma CreateFileShaped(f: Fs, files: map<nat, seq<u8>>, depth: map<nat, nat>, path: seq<u8>, payload: seq<u8>) returns (depth': map<nat, nat>)
    requires Sound(f, files) && AllShort(f) && Levels(f, depth) && CreateFile(f, path, payload).Ok? && ShortParts(Components(path))
    ensures AllShort(CreateFile(f, path, payload).value) && Levels(CreateFile(f, path, payload).value, depth')
  {
    hide Components, EnsureDir, MakeFile, Sound, AllShort, Levels;
    var parts := Components(path);
    var front, name := parts[..|parts| - 1], parts[|parts| - 1];
    HasRoot(f, files);
    depth' := EnsureDirShaped(f, files, depth, front, ROOT_INO);
    EnsureDirSound(f, files, front, ROOT_INO);
    var r := EnsureDir(f, front, ROOT_INO).value;
    depth' := MakeFileShaped(r.0, files, depth', r.1, name, payload);
  }

  lemma {:induction false} CreateAllShaped(f: Fs, depth: map<nat, nat>, reqs: seq<Request>) returns (depth': map<nat, nat>)
    requires Sound(f, map[]) && AllShort(f) && Levels(f, depth) && CreateAll(f, reqs).Ok?
    requires forall i | 0 <= i < |reqs| :: ShortParts(Components(reqs[i].path))
    ensures AllShort(CreateAll(f, reqs).value) && Levels(CreateAll(f, reqs).value, depth')
    decreases |reqs|
  {
    hide CreateFile, Sound, AllShort, Levels, Components, ShortParts;
    depth' := depth;
    if reqs != [] {
      var front, req := reqs[..|reqs| - 1], reqs[|reqs| - 1];
      depth' := CreateAllShaped(f, depth, front);
      var files := CreateAllSound(f, front);
      depth' := CreateFileShaped(CreateAll(f, front).value, files, depth', req.path, req.payload);
    }
  }

  lemma NewFsShaped(totalBytes: nat)
    requires NewFs(totalBytes).Ok?
    ensures AllShort(NewFs(totalBytes).value) && Levels(NewFs(totalBytes).value, map[ROOT_INO := 0])
  {
    hide MakeDir, Roomy;
    var segs := (totalBytes / BLOCK - MAIN) / BLOCKS_PER_SEG;
    FreshIsRoomy(totalBytes, segs);
    var f := Fs(Zeros(totalBytes), NewArea(segs), ROOT_INO + 1, map[], map[], map[], map[]);
    assert Levels(f, map[]);
    MakeDirShaped(f, map[], ROOT_INO, ROOT_INO, 0);
    assert map[][ROOT_INO := 0] == map[ROOT_INO := 0];
  }

  // ----- walking -----

  predicate Ordinary(name: Name) { name != DOT && name != DOTDOT }

  /** What the directory block of d gives for a name: its own entries "." and ".." come first,
      whatever the builder has entered under those names. */
  function DiskChild(f: Fs, d: nat, name: Name): Option<Child>
    requires d in f.dirs && d in f.children && |f.dirs[d].entries| >= 2
  {
    if name == DOT then Some(Child(d, true))
    else if name == DOTDOT then Some(Child(f.dirs[d].entries[1].ino, true))
    else if name in f.children[d] then Some(f.children[d][name]) else None
  }

  lemma StepResolves(f: Fs, files: map<nat, seq<u8>>, depth: map<nat, nat>, crc: Crc, d: nat, copy: nat, name: Name)
    requires Sound(f, files) && AllShort(f) && Levels(f, depth) && d in f.dirs && copy <= 1
    ensures Build(f, crc).Ok? && ReadDir(Build(f, crc).value, copy, d).Some? && LevelOk(f, depth, d)
    ensures FindName(ReadDir(Build(f, crc).value, copy, d).value, name, 0) == DiskChild(f, d, name)
  {
    hide NodesOk, FilesOk, DirsOk, Build, ReadDir, DirBytes, FindName, Lists, KidsOk, Roomy;
    DirReads(f, files, crc, d, copy);
    var entries := f.dirs[d].entries;
    assert LevelOk(f, depth, d);
    assert BranchOk(f, files, d);
    DirectoryReadsBack(entries);
    var block := ReadDir(Build(f, crc).value, copy, d).value;
    if name == DOT { FindListed(block, entries, 0, 0); }
    else if name == DOTDOT { FindListed(block, entries, 1, 0); }
    else if name in f.children[d] {
      var i :| 2 <= i < |entries| && entries[i].name == name;
      FindListed(block, entries, i, 0);
    } else {
      FindMissing(block, entries, name, 0);
    }
  }

  /** One step of both walks, in terms of the level: the builder's tree goes down one level. */
  lemma StepLevels(f: Fs, files: map<nat, seq<u8>>, depth: map<nat, nat>, d: nat, name: Name)
    requires Sound(f, files) && LevelOkIn(f, depth, d)
    ensures var c := DiskChild(f, d, name);
            c.Some? ==> c.value.nid in depth && depth[c.value.nid] <= depth[d] + (if Ordinary(name) then 1 else 0)
                        && (c.value.isDir ==> c.value.nid in f.dirs)
    ensures name in f.children[d] ==> f.children[d][name].nid in depth && depth[f.children[d][name].nid] == depth[d] + 1
    ensures name in f.children[d] && f.children[d][name].isDir ==> f.children[d][name].nid in f.dirs
  {
    hide Sound;
    Kid(f, files, d, name);
  }

  ghost predicate LevelOkIn(f: Fs, depth: map<nat, nat>, d: nat) { d in f.dirs && LevelOk(f, depth, d) }

  lemma LookupStep(f: Fs, parts: seq<Name>, cur: nat)
    requires parts != [] && cur in f.children
    ensures Lookup(f, parts, cur) ==
              if parts[0] !in f.children[cur] then None
              else Next(Some(f.children[cur][parts[0]]), parts, (c: Child) => Lookup(f, parts[1..], c.nid))
  {
  }

  /** How a walk goes on from the child found for its first part. */
  function Next(c: Option<Child>, parts: seq<Name>, rest: Child -> Option<Child>): Option<Child>
  {
    if c.None? || |parts| == 1 then c else if !c.value.isDir then None else rest(c.value)
  }

  /** One step on disk, in terms of the builder's tree. */
  lemma DiskStep(f: Fs, files: map<nat, seq<u8>>, depth: map<nat, nat>, crc: Crc, parts: seq<Name>, d: nat, copy: nat)
    requires Sound(f, files) && AllShort(f) && Levels(f, depth) && d in f.dirs && copy <= 1 && parts != []
    ensures Build(f, crc).Ok? && LevelOkIn(f, depth, d) && d in f.children && |f.dirs[d].entries| >= 2
    ensures Resolve(Build(f, crc).value, copy, parts, d)
            == Next(DiskChild(f, d, parts[0]), parts, (c: Child) => Resolve(Build(f, crc).value, copy, parts[1..], c.nid))
  {
    hide Sound, Build, ReadDir, FindName, AllShort, LevelOk, DiskChild, Levels;
    StepResolves(f, files, depth, crc, d, copy, parts[0]);
    InDepth(f, depth, d);
  }

  /** A walk on disk that has fallen behind in level never catches up with the builder's tree. */
  lemma {:induction false} StaysBehind(f: Fs, files: map<nat, seq<u8>>, depth: map<nat, nat>, crc: Crc, parts: seq<Name>, cur: nat, disk: nat, copy: nat)
    requires Sound(f, files) && AllShort(f) && Levels(f, depth) && copy <= 1
    requires LevelOkIn(f, depth, cur) && LevelOkIn(f, depth, disk) && cur in depth && disk in depth && depth[disk] < depth[cur]
    requires Lookup(f, parts, cur).Some?
    ensures Build(f, crc).Ok?
    ensures var c, t := Resolve(Build(f, crc).value, copy, parts, disk), Lookup(f, parts, cur).value;
            c.Some? ==> c.value.nid in depth && t.nid in depth && depth[c.value.nid] < depth[t.nid]
    decreases |parts|
  {
    hide Sound, Build, AllShort, Levels, LevelOk, DiskChild, Resolve, Lookup;
    if parts == [] {
      var p := BuildPhases(f, files, crc);
      NoParts(f, Build(f, crc).value, copy, cur, disk);
    } else {
      DiskStep(f, files, depth, crc, parts, disk, copy);
      InDepth(f, depth, cur);
      LookupStep(f, parts, cur);
      StepLevels(f, files, depth, disk, parts[0]);
      StepLevels(f, files, depth, cur, parts[0]);
      var c := DiskChild(f, disk, parts[0]);
      if |parts| > 1 && c.Some? && c.value.isDir {
        IsLevel(f, depth, c.value.nid);
        IsLevel(f, depth, f.children[cur][parts[0]].nid);
        StaysBehind(f, files, depth, crc, parts[1..], f.children[cur][parts[0]].nid, c.value.nid, copy);
      }
    }
  }

  lemma IsLevel(f: Fs, depth: map<nat, nat>, d: nat)
    requires Levels(f, depth) && d in f.dirs
    ensures LevelOkIn(f, depth, d)
  {
    assert LevelOk(f, depth, d);
  }

  lemma NoParts(f: Fs, img: seq<u8>, copy: nat, cur: nat, disk: nat)
    ensures Resolve(img, copy, [], disk) == Some(Child(disk, true)) && Lookup(f, [], cur) == Some(Child(cur, true))
  {
  }

  lemma InDepth(f: Fs, depth: map<nat, nat>, d: nat)
    requires LevelOkIn(f, depth, d)
    ensures d in depth && d in f.children && |f.dirs[d].entries| >= 2
  {
  }

  /** Following a path of ordinary names on disk leads where the builder's own tree leads, if anywhere. */
  lemma {:induction false} PathResolves(f: Fs, files: map<nat, seq<u8>>, depth: map<nat, nat>, crc: Crc, parts: seq<Name>, cur: nat, copy: nat)
    requires Sound(f, files) && AllShort(f) && Levels(f, depth) && cur in f.dirs && copy <= 1
    requires forall i | 0 <= i < |parts| :: Ordinary(parts[i])
    ensures Build(f, crc).Ok? && Resolve(Build(f, crc).value, copy, parts, cur) == Lookup(f, parts, cur)
    decreases |parts|
  {
    hide Sound, Build, AllShort, Levels, LevelOk, Resolve, Lookup;
    if parts == [] {
      var p := BuildPhases(f, files, crc);
      NoParts(f, Build(f, crc).value, copy, cur, cur);
    } else {
      DiskStep(f, files, depth, crc, parts, cur, copy);
      LookupStep(f, parts, cur);
      Kid(f, files, cur, parts[0]);
      var c := DiskChild(f, cur, parts[0]);
      if |parts| > 1 && c.Some? && c.value.isDir { PathResolves(f, files, depth, crc, parts[1..], c.value.nid, copy); }
    }
  }

  /** A part "." or ".." anywhere makes the two walks end in different nodes. */
  lemma {:induction false} PathDiverges(f: Fs, files: map<nat, seq<u8>>, depth: map<nat, nat>, crc: Crc, parts: seq<Name>, cur: nat, copy: nat, i: nat)
    requires Sound(f, files) && AllShort(f) && Levels(f, depth) && cur in f.dirs && copy <= 1
    requires i < |parts| && !Ordinary(parts[i]) && Lookup(f, parts, cur).Some?
    ensures Build(f, crc).Ok? && Resolve(Build(f, crc).value, copy, parts, cur) != Lookup(f, parts, cur)
    decreases |parts|
  {
    hide Sound, Build, AllShort, Levels, LevelOk, DiskChild, Resolve, Lookup, Ordinary;
    DiskStep(f, files, depth, crc, parts, cur, copy);
    LookupStep(f, parts, cur);
    InDepth(f, depth, cur);
    StepLevels(f, files, depth, cur, parts[0]);
    var c := DiskChild(f, cur, parts[0]);
    if Ordinary(parts[0]) { SameChild(f, cur, parts[0]); }
    if |parts| > 1 && c.Some? && c.value.isDir {
      IsLevel(f, depth, c.value.nid);
      if Ordinary(parts[0]) {
        PathDiverges(f, files, depth, crc, parts[1..], c.value.nid, copy, i - 1);
      } else {
        IsLevel(f, depth, f.children[cur][parts[0]].nid);
        StaysBehind(f, files, depth, crc, parts[1..], f.children[cur][parts[0]].nid, c.value.nid, copy);
      }
    }
  }

  lemma SameChild(f: Fs, d: nat, name: Name)
    requires d in f.dirs && d in f.children && |f.dirs[d].entries| >= 2 && Ordinary(name) && name in f.children[d]
    ensures DiskChild(f, d, name) == Some(f.children[d][name])
  {
  }

  /** After any run of creations under names of at most eight bytes: for a path that the builder
      knows, following it on disk leads to the builder's node exactly when no part of it is "."
      or ".."; and for paths without such parts the disk knows no others. */
  lemma PathResolvesIff(totalBytes: nat, reqs: seq<Request>, crc: Crc, parts: seq<Name>, copy: nat)
    requires NewFs(totalBytes).Ok? && CreateAll(NewFs(totalBytes).value, reqs).Ok? && copy <= 1
    requires forall k | 0 <= k < |reqs| :: ShortParts(Components(reqs[k].path))
    ensures var f := CreateAll(NewFs(totalBytes).value, reqs).value;
            var ordinary := forall i | 0 <= i < |parts| :: Ordinary(parts[i]);
            && Build(f, crc).Ok?
            && (ordinary ==> Resolve(Build(f, crc).value, copy, parts, ROOT_INO) == Lookup(f, parts, ROOT_INO))
            && (Lookup(f, parts, ROOT_INO).Some? ==>
                  (Resolve(Build(f, crc).value, copy, parts, ROOT_INO) == Lookup(f, parts, ROOT_INO) <==> ordinary))
  {
    hide NewFs, CreateAll, Lookup, Resolve, Components, Build, Sound, AllShort, ShortParts, Ordinary, Levels;
    NewFsSound(totalBytes);
    NewFsShaped(totalBytes);
    var f := CreateAll(NewFs(totalBytes).value, reqs).value;
    var files := CreateAllSound(NewFs(totalBytes).value, reqs);
    var depth := CreateAllShaped(NewFs(totalBytes).value, map[ROOT_INO := 0], reqs);
    HasRoot(f, files);
    var p := BuildPhases(f, files, crc);
    if forall i | 0 <= i < |parts| :: Ordinary(parts[i]) {
      PathResolves(f, files, depth, crc, parts, ROOT_INO, copy);
    } else if Lookup(f, parts, ROOT_INO).Some? {
      var i :| 0 <= i < |parts| && !Ordinary(parts[i]);
      PathDiverges(f, files, depth, crc, parts, ROOT_INO, copy, i);
    }
  }

  function ReadPath(img: seq<u8>, copy: nat, path: seq<u8>): Option<seq<u8>>
  {
    var c := Resolve(img, copy, Components(path), ROOT_INO);
    if c.None? || c.value.isDir then None else ReadFile(img, copy, c.value.nid)
  }

  /** With names of at most eight bytes, none of them "." or "..", the image alone suffices:
      following each path from the root directory through either copy of the node table reads
      back its payload. */
  lemma CreatedPathsReadBack(totalBytes: nat, reqs: seq<Request>, crc: Crc, i: nat, copy: nat)
    requires NewFs(totalBytes).Ok? && CreateAll(NewFs(totalBytes).value, reqs).Ok?
    requires forall k | 0 <= k < |reqs| :: ShortParts(Components(reqs[k].path))
    requires i < |reqs| && copy <= 1 && forall k | 0 <= k < |Components(reqs[i].path)| :: Ordinary(Components(reqs[i].path)[k])
    ensures var f := CreateAll(NewFs(totalBytes).value, reqs).value;
            Build(f, crc).Ok? && ReadPath(Build(f, crc).value, copy, reqs[i].path) == Some(reqs[i].payload)
  {
    hide NewFs, CreateAll, Lookup, Resolve, Components, Build, ReadFile, ShortParts, Ordinary;
    CreatedFilesReadBack(totalBytes, reqs, crc, i, copy);
    PathResolvesIff(totalBytes, reqs, crc, Components(reqs[i].path), copy);
  }

  /** "/./a": the builder makes a second directory named "." for it. */
  const DOT_PATH: seq<u8> := [SLASH, 0x2E, SLASH, 0x61]

  lemma DotPathParts()
    ensures Components(DOT_PATH) == [DOT, [0x61]]
  {
    assert Joined([[0x61]]) == [SLASH, 0x61] + Joined([]) && [DOT, [0x61]][1..] == [[0x61]];
    assert DOT_PATH == Joined([DOT, [0x61]]);
    JoinThenSplit([DOT, [0x61]]);
  }

  lemma OneRequest(f: Fs, req: Request)
    ensures CreateAll(f, [req]) == CreateFile(f, req.path, req.payload)
  {
    hide CreateFile;
    assert [req][..0] == [];
    assert CreateAll(f, []) == Ok(f);
  }

  lemma ChunksBound(n: nat)
    requires n <= 250 * BLOCK
    ensures Chunks(n) <= 250
  {
  }

  /** On every fresh image the builder accepts "/./a" with up to 250 blocks of contents, but on
      disk the path does not lead to the file. */
  lemma DotPathIsLost(totalBytes: nat, payload: seq<u8>, crc: Crc, copy: nat)
    requires NewFs(totalBytes).Ok? && |payload| <= 250 * BLOCK && copy <= 1
    ensures var r := CreateAll(NewFs(totalBytes).value, [Request(DOT_PATH, payload)]);
            && r.Ok?
            && var c := Lookup(r.value, Components(DOT_PATH), ROOT_INO);
            Build(r.value, crc).Ok? && c.Some? && Resolve(Build(r.value, crc).value, copy, Components(DOT_PATH), ROOT_INO) != c
  {
    hide NewFs, CreateAll, CreateFile, Lookup, Resolve, Components, Build, ReadFile;
    var reqs := [Request(DOT_PATH, payload)];
    DotPathParts();
    ChunksBound(|payload|);
    FreshTree(totalBytes);
    FirstFileIff(totalBytes, DOT_PATH, payload);
    OneRequest(NewFs(totalBytes).value, reqs[0]);
    CreatedFilesReadBack(totalBytes, reqs, crc, 0, copy);
    assert !Ordinary(Components(DOT_PATH)[0]);
    PathResolvesIff(totalBytes, reqs, crc, Components(DOT_PATH), copy);
  }
}
