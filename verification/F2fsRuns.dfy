/** Whole runs of the image builder: any sequence of file creations on a fresh image. */
module F2fsRuns {
  import opened Options
  import opened Results
  import opened Words
  import opened Bytes
  import opened F2fsFormat
  import opened F2fsSegments
  import opened F2fsNode
  import opened F2fsTree
  import opened F2fsProof

  /** The node that a path leads to, from directory cur. */
  function Lookup(f: Fs, parts: seq<Name>, cur: nat): Option<Child>
    decreases |parts|
  {
    if parts == [] then Some(Child(cur, true))
    else if cur !in f.children || parts[0] !in f.children[cur] then None
    else
      var c := f.children[cur][parts[0]];
      if |parts| == 1 then Some(c) else if !c.isDir then None else Lookup(f, parts[1..], c.nid)
  }

  /** No entry of any directory is lost or changed. */
  ghost predicate Grows(f: Fs, g: Fs)
  {
    forall d | d in f.children :: d in g.children &&
      forall name | name in f.children[d] :: name in g.children[d] && g.children[d][name] == f.children[d][name]
  }

  lemma GrowsTrans(f: Fs, g: Fs, h: Fs)
    requires Grows(f, g) && Grows(g, h)
    ensures Grows(f, h)
  {
  }

  lemma {:induction false} LookupStays(f: Fs, g: Fs, parts: seq<Name>, cur: nat)
    requires Grows(f, g) && Lookup(f, parts, cur).Some?
    ensures Lookup(g, parts, cur) == Lookup(f, parts, cur)
    decreases |parts|
  {
    if |parts| > 1 { LookupStays(f, g, parts[1..], f.children[cur][parts[0]].nid); }
  }

  lemma {:induction false} LookupAppend(f: Fs, parts: seq<Name>, cur: nat, p: nat, name: Name)
    requires Lookup(f, parts, cur) == Some(Child(p, true)) && p in f.children && name in f.children[p]
    ensures Lookup(f, parts + [name], cur) == Some(f.children[p][name])
    decreases |parts|
  {
    if parts == [] {
      assert [] + [name] == [name];
    } else {
      var c := f.children[cur][parts[0]];
      assert (parts + [name])[1..] == parts[1..] + [name];
      if |parts| == 1 { assert parts[1..] == []; }
      LookupAppend(f, parts[1..], c.nid, p, name);
    }
  }

  // ----- creating directories -----

  /** A new directory, before it is entered in its parent. */
  lemma NewDir(f: Fs, files: map<nat, seq<u8>>, parent: nat)
    requires Sound(f, files) && parent in f.dirs && MakeDir(f.(nextNid := f.nextNid + 1), f.nextNid, parent).Ok?
    ensures var nid, g := f.nextNid, MakeDir(f.(nextNid := f.nextNid + 1), f.nextNid, parent).value;
            && Sound(g, files) && nid !in f.dirs && nid !in f.children && nid in g.dirs && |g.dirs[nid].entries| == 2
            && g.dirs == f.dirs[nid := g.dirs[nid]] && g.children == f.children[nid := map[]]
            && g.area.segs == f.area.segs && g.area.next == f.area.next + 2
  {
    hide FileAt, DirAt, Owned, Listed, MakeDir, NodesOk, FilesOk, DirsOk, TreeOk, Accounted, Blk;
    var nid := f.nextNid;
    var f0 := f.(nextNid := nid + 1);
    KeptRefl(f, nid);
    SameStorage(f, f, f0, nid);
    MakeDirStep(f0, nid, parent);
    var g := MakeDir(f0, nid, parent).value;
    var addr, dir := g.inodes[nid], g.dirs[nid];
    KeptTrans(f, f0, g, nid);
    EmptyIsListed(nid, parent, dir.dataBlock);
    DirOwns(g, nid, addr, dir);
    DirAdded(f, g, files, nid, addr, dir);
    FreshNid(f, files);
  }

  lemma CreateDirSound(f: Fs, files: map<nat, seq<u8>>, parent: nat, name: Name)
    requires Sound(f, files) && parent in f.dirs && parent in f.children && name !in f.children[parent]
    requires CreateDir(f, parent, name).Ok?
    ensures var g, nid := CreateDir(f, parent, name).value.0, CreateDir(f, parent, name).value.1;
            && Sound(g, files) && Grows(f, g) && nid in g.dirs
            && parent in g.children && name in g.children[parent] && g.children[parent][name] == Child(nid, true)
  {
    hide FileAt, DirAt, Owned, Kept, Listed, Link, MakeDir, NodesOk, FilesOk, DirsOk, TreeOk, Accounted, Blk, Roomy;
    var nid := f.nextNid;
    NewDir(f, files, parent);
    var g := MakeDir(f.(nextNid := nid + 1), nid, parent).value;
    LinkSound(g, files, parent, name, nid, true);
    LinkStep(g, parent, NatOf(g, files, parent), name, nid, true);
  }

  lemma DirOwns(f: Fs, d: nat, addr: nat, dir: Directory)
    requires Roomy(f) && DirAt(f, d, addr, dir)
    ensures Owned(f.area, addr, d, NODE_OFS)
  {
  }

  lemma EmptyIsListed(nid: nat, parent: nat, data: nat)
    ensures Listed(EmptyDir(nid, parent, data).entries, map[])
  {
  }

  ghost function NatOf(f: Fs, files: map<nat, seq<u8>>, d: nat): nat
    requires Sound(f, files) && d in f.dirs
    ensures DirAt(f, d, NatOf(f, files, d), f.dirs[d])
  {
    assert DirOk(f, d);
    f.nats[d].addr
  }

  lemma Kid(f: Fs, files: map<nat, seq<u8>>, d: nat, name: Name)
    requires Sound(f, files) && d in f.dirs
    ensures d in f.children
    ensures name in f.children[d] && f.children[d][name].isDir ==> f.children[d][name].nid in f.dirs
  {
    hide Roomy, FilesOk, DirsOk, Listed;
    assert BranchOk(f, files, d);
  }

  lemma LookupFirst(f: Fs, parts: seq<Name>, cur: nat, n: nat, c: Child)
    requires parts != [] && cur in f.children && parts[0] in f.children[cur] && f.children[cur][parts[0]] == Child(n, true)
    requires Lookup(f, parts[1..], n) == Some(c)
    ensures Lookup(f, parts, cur) == Some(c)
  {
    if |parts| == 1 { assert parts[1..] == []; }
  }

  lemma {:induction false} EnsureDirSound(f: Fs, files: map<nat, seq<u8>>, parts: seq<Name>, cur: nat)
    requires Sound(f, files) && cur in f.dirs && EnsureDir(f, parts, cur).Ok?
    ensures var g, p := EnsureDir(f, parts, cur).value.0, EnsureDir(f, parts, cur).value.1;
            Sound(g, files) && Grows(f, g) && p in g.dirs && Lookup(g, parts, cur) == Some(Child(p, true))
    decreases |parts|
  {
    hide CreateDir, Sound, Lookup;
    if parts == [] {
      LookupNothing(f, cur);
    } else {
      Kid(f, files, cur, parts[0]);
      var g, p := EnsureDir(f, parts, cur).value.0, EnsureDir(f, parts, cur).value.1;
      if parts[0] !in f.children[cur] {
        CreateDirSound(f, files, cur, parts[0]);
        var r := CreateDir(f, cur, parts[0]).value;
        EnsureDirSound(r.0, files, parts[1..], r.1);
        GrowsTrans(f, r.0, g);
        LookupFirst(g, parts, cur, r.1, Child(p, true));
      } else {
        var n := f.children[cur][parts[0]].nid;
        EnsureDirSound(f, files, parts[1..], n);
        LookupFirst(g, parts, cur, n, Child(p, true));
      }
    }
  }

  lemma LookupNothing(f: Fs, cur: nat)
    ensures Lookup(f, [], cur) == Some(Child(cur, true))
  {
  }

  // ----- creating files -----

  lemma NewFile(f: Fs, files: map<nat, seq<u8>>, parent: nat, name: Name, payload: seq<u8>)
    requires Sound(f, files) && MakeFile(f, parent, name, payload).Ok?
    ensures var nid := f.nextNid;
            exists g: Fs :: && Sound(g, files[nid := payload]) && g.children == f.children && g.dirs == f.dirs && nid in g.nats
                            && MakeFile(f, parent, name, payload) == Link(g, parent, name, nid, false)
  {
    hide StoreFile, Sound, Link;
    FileStored(f, files, payload);
    var g := StoreFile(f, payload).value;
    assert Sound(g, files[f.nextNid := payload]);
  }

  lemma FileStored(f: Fs, files: map<nat, seq<u8>>, payload: seq<u8>)
    requires Sound(f, files) && StoreFile(f, payload).Ok?
    ensures var nid, g := f.nextNid, StoreFile(f, payload).value;
            Sound(g, files[nid := payload]) && g.children == f.children && g.dirs == f.dirs && nid in g.nats
  {
    hide FileAt, DirAt, Owned, Listed, Link, AllocBlock, StoreChunks, WriteInode, NodesOk, FilesOk, DirsOk, TreeOk, Accounted, Blk, Kept, Stored;
    var nid := f.nextNid;
    var f0 := f.(nextNid := nid + 1);
    KeptRefl(f, nid);
    SameStorage(f, f, f0, nid);
    AllocStep(f0, nid, NODE_OFS);
    var a := AllocBlock(f0, nid, NODE_OFS).value;
    KeptTrans(f, f0, a.0, nid);
    var f1 := a.0.(inodes := a.0.inodes[nid := a.1]);
    SameStorage(f, a.0, f1, nid);
    NothingStored(f1, nid, payload);
    ChunksStored(f1, nid, payload, []);
    var c := StoreChunks(f1, nid, payload, []).value;
    KeptTrans(f, f1, c.0, nid);
    OwnedStays(f1, c.0, nid, a.1, nid, NODE_OFS);
    InodeStep(c.0, nid, false, |payload|, c.1);
    FileWritten(c.0, nid, payload, c.1);
    var g := WriteInode(c.0, nid, false, |payload|, c.1).value;
    KeptTrans(f, c.0, g, nid);
    FileAdded(f, g, files, nid, a.1, payload);
  }

  lemma NothingStored(f: Fs, nid: nat, payload: seq<u8>)
    requires Roomy(f)
    ensures Stored(f, nid, payload, [])
  {
  }

  lemma LinkedFile(f: Fs, g: Fs, files: map<nat, seq<u8>>, parent: nat, name: Name, nid: nat)
    requires Sound(g, files) && g.children == f.children && g.dirs == f.dirs
    requires parent in f.dirs && parent in f.children && name !in f.children[parent] && nid in files
    requires Link(g, parent, name, nid, false).Ok?
    ensures var h := Link(g, parent, name, nid, false).value;
            && Sound(h, files) && Grows(f, h)
            && parent in h.children && name in h.children[parent] && h.children[parent][name] == Child(nid, false)
  {
    hide FileAt, DirAt, Owned, Listed, Link, NodesOk, FilesOk, DirsOk, TreeOk, Accounted, Blk, Kept;
    LinkSound(g, files, parent, name, nid, false);
    LinkStep(g, parent, NatOf(g, files, parent), name, nid, false);
  }

  /** Creating a file keeps everything stored before, and the path leads to the new payload. */
  lemma CreateFileSound(f: Fs, files: map<nat, seq<u8>>, path: seq<u8>, payload: seq<u8>) returns (nid: nat)
    requires Sound(f, files) && CreateFile(f, path, payload).Ok?
    ensures nid !in files
    ensures var h := CreateFile(f, path, payload).value;
            && Sound(h, files[nid := payload]) && Grows(f, h)
            && Lookup(h, Components(path), ROOT_INO) == Some(Child(nid, false))
  {
    hide Components, EnsureDir, MakeFile, Lookup, Link, Sound;
    var parts := Components(path);
    var front, name := parts[..|parts| - 1], parts[|parts| - 1];
    assert ROOT_INO in f.dirs by { HasRoot(f, files); }
    EnsureDirSound(f, files, front, ROOT_INO);
    var r := EnsureDir(f, front, ROOT_INO).value;
    nid := r.0.nextNid;
    assert nid !in files by { FreshNid(r.0, files); }
    NewFile(r.0, files, r.1, name, payload);
    var g: Fs :| && Sound(g, files[nid := payload]) && g.children == r.0.children && g.dirs == r.0.dirs && nid in g.nats
                 && MakeFile(r.0, r.1, name, payload) == Link(g, r.1, name, nid, false);
    LinkedFile(r.0, g, files[nid := payload], r.1, name, nid);
    var h := CreateFile(f, path, payload).value;
    GrowsTrans(f, r.0, h);
    LookupStays(r.0, h, front, ROOT_INO);
    LookupAppend(h, front, ROOT_INO, r.1, name);
    assert front + [name] == parts;
  }

  lemma HasRoot(f: Fs, files: map<nat, seq<u8>>)
    requires Sound(f, files)
    ensures ROOT_INO in f.dirs
  {
  }

  // ----- a fresh image -----

  lemma FreshIsRoomy(totalBytes: nat, segs: nat)
    requires totalBytes >= MIN_BYTES && totalBytes % BLOCK == 0 && segs == (totalBytes / BLOCK - MAIN) / BLOCKS_PER_SEG
    requires 8 <= segs <= SSA_BLOCKS
    ensures Roomy(Fs(Zeros(totalBytes), NewArea(segs), ROOT_INO + 1, map[], map[], map[], map[]))
  {
    hide Accounted;
    NewAreaIsAccounted(segs);
    assert totalBytes == totalBytes / BLOCK * BLOCK;
  }

  lemma NewFsSound(totalBytes: nat)
    requires NewFs(totalBytes).Ok?
    ensures Sound(NewFs(totalBytes).value, map[])
  {
    hide FileAt, DirAt, Owned, Kept, Listed, MakeDir, Accounted, Blk;
    var segs := (totalBytes / BLOCK - MAIN) / BLOCKS_PER_SEG;
    FreshIsRoomy(totalBytes, segs);
    var f := Fs(Zeros(totalBytes), NewArea(segs), ROOT_INO + 1, map[], map[], map[], map[]);
    MakeDirStep(f, ROOT_INO, ROOT_INO);
    var g := MakeDir(f, ROOT_INO, ROOT_INO).value;
    EmptyIsListed(ROOT_INO, ROOT_INO, g.dirs[ROOT_INO].dataBlock);
    DirOwns(g, ROOT_INO, g.inodes[ROOT_INO], g.dirs[ROOT_INO]);
    hide Roomy;
    assert NodesOk(g, map[]);
    assert DirOk(g, ROOT_INO) && BranchOk(g, map[], ROOT_INO);
  }

  // ----- runs -----

  datatype Request = Request(path: seq<u8>, payload: seq<u8>)

  function CreateAll(f: Fs, reqs: seq<Request>): Result<Fs>
    decreases |reqs|
  {
    if reqs == [] then Ok(f)
    else
      var g :- CreateAll(f, reqs[..|reqs| - 1]);
      CreateFile(g, reqs[|reqs| - 1].path, reqs[|reqs| - 1].payload)
  }

  /** Each request's path leads to a file that holds its payload. */
  ghost predicate Answers(f: Fs, files: map<nat, seq<u8>>, req: Request)
  {
    var c := Lookup(f, Components(req.path), ROOT_INO);
    c.Some? && !c.value.isDir && c.value.nid in files && files[c.value.nid] == req.payload
  }

  lemma AnswerStays(f: Fs, g: Fs, files: map<nat, seq<u8>>, nid: nat, payload: seq<u8>, req: Request)
    requires Grows(f, g) && nid !in files && Answers(f, files, req)
    ensures Answers(g, files[nid := payload], req)
  {
    hide Lookup, Components;
    LookupStays(f, g, Components(req.path), ROOT_INO);
  }

  lemma {:induction false} CreateAllSound(f: Fs, reqs: seq<Request>) returns (files: map<nat, seq<u8>>)
    requires Sound(f, map[]) && CreateAll(f, reqs).Ok?
    ensures Sound(CreateAll(f, reqs).value, files)
    ensures forall i | 0 <= i < |reqs| :: Answers(CreateAll(f, reqs).value, files, reqs[i])
    decreases |reqs|
  {
    hide CreateFile, Lookup, Components, Sound, Answers;
    if reqs == [] {
      files := map[];
    } else {
      var front, req := reqs[..|reqs| - 1], reqs[|reqs| - 1];
      var before := CreateAllSound(f, front);
      var g := CreateAll(f, front).value;
      var h := CreateFile(g, req.path, req.payload).value;
      var nid := CreateFileSound(g, before, req.path, req.payload);
      files := before[nid := req.payload];
      forall i | 0 <= i < |reqs| ensures Answers(h, files, reqs[i]) {
        if i < |front| {
          assert Answers(g, before, front[i]);
          AnswerStays(g, h, before, nid, req.payload, reqs[i]);
        } else {
          NewAnswer(h, files, req, nid);
        }
      }
    }
  }

  lemma NewAnswer(f: Fs, files: map<nat, seq<u8>>, req: Request, nid: nat)
    requires nid in files && files[nid] == req.payload && Lookup(f, Components(req.path), ROOT_INO) == Some(Child(nid, false))
    ensures Answers(f, files, req)
  {
  }
}
