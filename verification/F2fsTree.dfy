/** The slot image under construction: files and directories as values, and what every
    operation keeps. */
module F2fsTree {
  import opened Results
  import opened Words
  import opened Bytes
  import opened F2fsFormat
  import opened F2fsSegments
  import opened F2fsNode

  datatype Directory = Directory(inode: nat, parent: nat, dataBlock: nat, entries: seq<Entry>)

  datatype Child = Child(nid: nat, isDir: bool)

  datatype NatEntry = NatEntry(version: nat, addr: nat)

  datatype Fs = Fs(image: seq<u8>, area: Area, nextNid: nat, nats: map<nat, NatEntry>, inodes: map<nat, nat>,
                   dirs: map<nat, Directory>, children: map<nat, map<Name, Child>>)

  const DOT: Name := [0x2E]
  const DOTDOT: Name := [0x2E, 0x2E]
  const SLASH: u8 := 0x2F

  // ----- paths, as UTF-8 bytes -----

  /** The non-empty parts of s between slashes; cur is the part read so far. */
  function Split(s: seq<u8>, cur: Name): seq<Name>
  {
    var here := if cur == [] then [] else [cur];
    if s == [] then here
    else if s[0] == SLASH then here + Split(s[1..], [])
    else Split(s[1..], cur + [s[0]])
  }

  function Components(path: seq<u8>): seq<Name> { Split(path, []) }

  function Joined(parts: seq<Name>): seq<u8> { if parts == [] then [] else [SLASH] + parts[0] + Joined(parts[1..]) }

  predicate Plain(part: Name) { part != [] && SLASH !in part }

  lemma {:induction false} SplitPart(part: Name, rest: seq<u8>, cur: Name)
    requires SLASH !in part && (rest == [] || rest[0] == SLASH) && cur + part != []
    ensures Split(part + rest, cur) == [cur + part] + Split(rest, [])
    decreases |part|
  {
    if part == [] {
      assert part + rest == rest && cur + part == cur;
      if rest != [] { assert Split(rest, []) == [] + Split(rest[1..], []); }
    } else {
      assert (part + rest)[1..] == part[1..] + rest;
      assert cur + [part[0]] + part[1..] == cur + part;
      SplitPart(part[1..], rest, cur + [part[0]]);
    }
  }

  lemma {:induction false} JoinThenSplit(parts: seq<Name>)
    requires forall i | 0 <= i < |parts| :: Plain(parts[i])
    ensures Components(Joined(parts)) == parts
  {
    if parts != [] {
      var rest := Joined(parts[1..]);
      JoinThenSplit(parts[1..]);
      assert Joined(parts)[1..] == parts[0] + rest;
      SplitPart(parts[0], rest, []);
      assert [] + parts[0] == parts[0];
    }
  }

  lemma {:induction false} PartsArePlain(s: seq<u8>, cur: Name)
    requires SLASH !in cur
    ensures forall i | 0 <= i < |Split(s, cur)| :: Plain(Split(s, cur)[i])
    decreases |s|
  {
    if s != [] {
      if s[0] == SLASH { PartsArePlain(s[1..], []); } else { PartsArePlain(s[1..], cur + [s[0]]); }
    }
  }

  /** The path of the parent directory, put together from all parts but the last, splits into them again. */
  lemma ParentPath(path: seq<u8>, k: nat)
    requires k <= |Components(path)|
    ensures Components(Joined(Components(path)[..k])) == Components(path)[..k]
  {
    PartsArePlain(path, []);
    JoinThenSplit(Components(path)[..k]);
  }

  // ----- blocks -----

  function Blk(img: seq<u8>, b: nat): (r: seq<u8>)
    requires (b + 1) * BLOCK <= |img|
    ensures |r| == BLOCK
  { img[b * BLOCK..(b + 1) * BLOCK] }

  /** Overwrites one block. An address past the image never occurs (see Sound). */
  function StoreBlock(fs: Fs, b: nat, data: seq<u8>): Result<Fs>
  {
    if |data| != BLOCK then Err(NotOneBlock)
    else if (b + 1) * BLOCK > |fs.image| then Err(OutOfRange)
    else Ok(fs.(image := Splice(fs.image, b * BLOCK, data)))
  }

  function AllocBlock(fs: Fs, nid: nat, ofs: nat): Result<(Fs, nat)>
  {
    var r :- Allocate(fs.area, nid, ofs);
    Ok((fs.(area := r.0), MAIN + r.1))
  }

  // ----- nodes -----

  function RewriteDir(fs: Fs, d: nat): Result<Fs>
  {
    if d !in fs.dirs then Err(MissingKey) else
    var b :- DirBytes(fs.dirs[d].entries);
    StoreBlock(fs, fs.dirs[d].dataBlock, b)
  }

  function WriteInode(fs: Fs, nid: nat, isDir: bool, size: nat, direct: seq<nat>): Result<Fs>
  {
    if nid !in fs.inodes then Err(MissingKey) else
    var b :- InodeBytes(isDir, size, direct);
    var f :- StoreBlock(fs, fs.inodes[nid], b);
    Ok(f.(nats := f.nats[nid := NatEntry(1, fs.inodes[nid])]))
  }

  /** A new empty directory, not yet entered in its parent. */
  function MakeDir(fs: Fs, nid: nat, parent: nat): Result<Fs>
  {
    var inode :- AllocBlock(fs, nid, NODE_OFS);
    var data :- AllocBlock(inode.0, nid, 0);
    var dir := Directory(nid, parent, data.1, [Entry(DOT, nid, true), Entry(DOTDOT, parent, true)]);
    var f := data.0.(inodes := data.0.inodes[nid := inode.1], dirs := data.0.dirs[nid := dir],
                     children := data.0.children[nid := map[]]);
    var f :- RewriteDir(f, nid);
    WriteInode(f, nid, true, BLOCK, [data.1])
  }

  /** Enters a node in a directory and writes the directory again. */
  function Link(fs: Fs, parent: nat, name: Name, nid: nat, isDir: bool): Result<Fs>
  {
    if parent !in fs.dirs || parent !in fs.children then Err(MissingKey) else
    var dir := fs.dirs[parent].(entries := fs.dirs[parent].entries + [Entry(name, nid, isDir)]);
    var f := fs.(dirs := fs.dirs[parent := dir], children := fs.children[parent := fs.children[parent][name := Child(nid, isDir)]]);
    RewriteDir(f, parent)
  }

  function CreateDir(fs: Fs, parent: nat, name: Name): Result<(Fs, nat)>
  {
    var nid := fs.nextNid;
    var f :- MakeDir(fs.(nextNid := nid + 1), nid, parent);
    var f :- Link(f, parent, name, nid, true);
    Ok((f, nid))
  }

  /** Walks down from cur, making the directories that are missing. */
  function EnsureDir(fs: Fs, parts: seq<Name>, cur: nat): Result<(Fs, nat)>
    decreases |parts|
  {
    if parts == [] then Ok((fs, cur))
    else if cur !in fs.children then Err(MissingKey)
    else if parts[0] !in fs.children[cur] then
      var r :- CreateDir(fs, cur, parts[0]);
      EnsureDir(r.0, parts[1..], r.1)
    else if !fs.children[cur][parts[0]].isDir then Err(NotADirectory)
    else EnsureDir(fs, parts[1..], fs.children[cur][parts[0]].nid)
  }

  function Min(a: nat, b: nat): nat { if a < b then a else b }

  /** The k-th block's worth of a payload, padded with zeros. */
  function Chunk(payload: seq<u8>, k: nat): (c: seq<u8>)
    requires k * BLOCK < |payload|
    ensures |c| == BLOCK
  {
    var end := Min((k + 1) * BLOCK, |payload|);
    payload[k * BLOCK..end] + Zeros(BLOCK - (end - k * BLOCK))
  }

  function Chunks(n: nat): nat { (n + BLOCK - 1) / BLOCK }

  /** Stores the chunks that follow those already in `direct`. */
  function StoreChunks(fs: Fs, nid: nat, payload: seq<u8>, direct: seq<nat>): Result<(Fs, seq<nat>)>
    decreases |payload| - |direct| * BLOCK
  {
    if |direct| * BLOCK >= |payload| then Ok((fs, direct)) else
    var a :- AllocBlock(fs, nid, |direct|);
    var f :- StoreBlock(a.0, a.1, Chunk(payload, |direct|));
    StoreChunks(f, nid, payload, direct + [a.1])
  }

  /** A new file, not yet entered in its directory. */
  function StoreFile(fs: Fs, payload: seq<u8>): Result<Fs>
  {
    var nid := fs.nextNid;
    var inode :- AllocBlock(fs.(nextNid := nid + 1), nid, NODE_OFS);
    var f := inode.0.(inodes := inode.0.inodes[nid := inode.1]);
    var c :- StoreChunks(f, nid, payload, []);
    WriteInode(c.0, nid, false, |payload|, c.1)
  }

  function MakeFile(fs: Fs, parent: nat, name: Name, payload: seq<u8>): Result<Fs>
  {
    var f :- StoreFile(fs, payload);
    Link(f, parent, name, fs.nextNid, false)
  }

  function CreateFile(fs: Fs, path: seq<u8>, payload: seq<u8>): Result<Fs>
  {
    var parts := Components(path);
    if parts == [] then Err(RootPath) else
    var name := parts[|parts| - 1];
    var r :- EnsureDir(fs, parts[..|parts| - 1], ROOT_INO);
    if r.1 !in r.0.children then Err(MissingKey)
    else if name in r.0.children[r.1] then Err(DuplicatePath)
    else MakeFile(r.0, r.1, name, payload)
  }

  /** A fresh image with an empty root directory. */
  function NewFs(totalBytes: nat): Result<Fs>
  {
    if totalBytes < MIN_BYTES || totalBytes % BLOCK != 0 then Err(BadImageSize) else
    var segs := (totalBytes / BLOCK - MAIN) / BLOCKS_PER_SEG;
    if segs < 8 then Err(MainTooSmall)
    else if SSA_BLOCKS < segs then Err(SsaTooSmall)
    else if segs > BLOCKS_PER_SEG * SITS_PER_BLOCK then Err(SitTooSmall)
    else MakeDir(Fs(Zeros(totalBytes), NewArea(segs), ROOT_INO + 1, map[], map[], map[], map[]), ROOT_INO, ROOT_INO)
  }
}
