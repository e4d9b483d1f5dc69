/** Reading the boot partition image: through either copy of the table and from the root
    directory down, every file is found and read whole. */
module FatReadBack {
  import opened Options
  import opened Words
  import opened Bytes
  import opened FatGeometry
  import opened FatChains
  import opened FatImage

  // ----- the reader -----

  /** n entries of a table that starts at `base`, as numbers. */
  function Decode(img: seq<u8>, v: Variant, base: nat, n: nat): seq<nat>
    requires base + n * v.width <= |img|
  {
    seq<nat>(n, c requires 0 <= c < n =>
      WidthMono(v, c + 1, n);
      FromLe(img[base + c * v.width..base + (c + 1) * v.width]))
  }

  lemma WidthMono(v: Variant, c: nat, n: nat)
    requires c <= n
    ensures c * v.width <= n * v.width && (c > 0 ==> (c - 1) * v.width <= c * v.width)
  {
  }

  /** The clusters of a chain, one after another. */
  function Gather(data: seq<u8>, chain: seq<nat>, cb: nat): seq<u8>
  {
    if chain == [] then []
    else
      var o := At(chain[|chain| - 1], cb);
      Gather(data, chain[..|chain| - 1], cb) + if o + cb <= |data| then data[o..o + cb] else []
  }

  /** n clusters from `first` on, in one piece. */
  function Piece(data: seq<u8>, first: nat, n: nat, cb: nat): (r: seq<u8>)
    requires At(first, cb) + n * cb <= |data|
    ensures |r| == n * cb
  {
    MulMono(if cb > 0 then cb else 1, 0, n);
    data[At(first, cb)..At(first, cb) + n * cb]
  }

  lemma {:induction false} GatherRange(data: seq<u8>, first: nat, n: nat, cb: nat)
    requires first >= 2 && At(first, cb) + n * cb <= |data|
    ensures Gather(data, Range(first, n), cb) == Piece(data, first, n, cb)
    decreases n
  {
    if n > 0 {
      assert Range(first, n)[..n - 1] == Range(first, n - 1);
      assert At(first + (n - 1), cb) == At(first, cb) + (n - 1) * cb by { AtPlus(first, n - 1, cb); }
      assert n * cb == (n - 1) * cb + cb;
      GatherRange(data, first, n - 1, cb);
    }
  }

  lemma AtPlus(c: nat, n: nat, cb: nat)
    requires c >= 2
    ensures At(c + n, cb) == At(c, cb) + n * cb
  {
    assert (c + n - 2) * cb == (c - 2) * cb + n * cb;
  }

  // ----- the data area -----

  /** What is written for node i: a directory's entries, even if they take more than its cluster,
      or a file's bytes, as far as its chain reaches. */
  function Content(v: Variant, files: seq<File>, needs: seq<nat>, i: nat, cb: nat): seq<u8>
    requires cb > 0 && |needs| == Dirs(v) + |files| && FilesPack(v, files, needs) && i < |needs|
  {
    if i < Dirs(v) then DirContent(v, files, needs, i, cb) else Cut(v, First(needs, 2, i), files[i - Dirs(v)].data, cb)
  }

  /** The part of it that lies in the clusters of node i. */
  function Held(v: Variant, files: seq<File>, needs: seq<nat>, i: nat, cb: nat): (r: seq<u8>)
    requires cb > 0 && |needs| == Dirs(v) + |files| && FilesPack(v, files, needs) && i < |needs|
    ensures |r| <= needs[i] * cb && r <= Content(v, files, needs, i, cb)
  { Take(Content(v, files, needs, i, cb), needs[i] * cb) }

  lemma AssignSlice(s: seq<u8>, i: nat, b: seq<u8>, lo: nat, hi: nat)
    requires i <= |s| && lo <= hi <= |Assign(s, i, b)|
    ensures |Assign(s, i, b)| == if i + |b| <= |s| then |s| else i + |b|
    ensures hi <= i ==> Assign(s, i, b)[lo..hi] == s[lo..hi]
    ensures Assign(s, i, b)[i..i + |b|] == b
  {
  }

  lemma {:induction false} EntriesFit(dir: seq<u8>, entries: seq<seq<u8>>, k: nat, j: nat)
    requires k <= |entries| && ENTRY * k <= |dir| && (forall i | 0 <= i < |entries| :: |entries[i]| == ENTRY) && j < |entries|
    ensures |PutEntries(dir, entries, k)| == if ENTRY * |entries| <= |dir| then |dir| else ENTRY * |entries|
    ensures PutEntries(dir, entries, k)[ENTRY * j..ENTRY * j + ENTRY] == if k <= j then entries[j] else dir[ENTRY * j..ENTRY * j + ENTRY]
    decreases |entries| - k
  {
    hide Assign;
    if k < |entries| {
      var d := Assign(dir, ENTRY * k, entries[k]);
      AssignSlice(dir, ENTRY * k, entries[k], 0, 0);
      EntriesFit(d, entries, k + 1, j);
      if j < k { AssignSlice(dir, ENTRY * k, entries[k], ENTRY * j, ENTRY * j + ENTRY); }
    }
  }

  lemma EntrySizes(v: Variant, files: seq<File>, needs: seq<nat>, i: nat)
    requires |needs| == Dirs(v) + |files| && FilesPack(v, files, needs) && i < Dirs(v)
    ensures forall k | 0 <= k < |EntriesOf(v, files, needs, i)| :: |EntriesOf(v, files, needs, i)[k]| == ENTRY
    ensures |EntriesOf(v, files, needs, i)| == if i < Dirs(v) - 1 then 3 else |files| + 2
  {
    hide DirEntry, First;
  }

  lemma DirSlot(v: Variant, files: seq<File>, needs: seq<nat>, i: nat, cb: nat, j: nat)
    requires |needs| == Dirs(v) + |files| && FilesPack(v, files, needs) && i < Dirs(v)
    requires j < |EntriesOf(v, files, needs, i)|
    ensures cb <= |DirContent(v, files, needs, i, cb)| && ENTRY * j + ENTRY <= |DirContent(v, files, needs, i, cb)|
    ensures |DirContent(v, files, needs, i, cb)| <= cb || |DirContent(v, files, needs, i, cb)| == ENTRY * |EntriesOf(v, files, needs, i)|
    ensures DirContent(v, files, needs, i, cb)[ENTRY * j..ENTRY * j + ENTRY] == EntriesOf(v, files, needs, i)[j]
  {
    hide EntriesOf, PutEntries;
    EntrySizes(v, files, needs, i);
    EntriesFit(Zeros(cb), EntriesOf(v, files, needs, i), 0, j);
  }

  lemma NeedsAre(v: Variant, files: seq<File>, needs: seq<nat>, i: nat, cb: nat)
    requires cb > 0 && needs == NeedsOf(v, files, cb) && i < |needs|
    ensures needs[i] == if i < Dirs(v) then 1 else Needs(|files[i - Dirs(v)].data|, cb)
  {
    hide Needs;
  }

  /** A file, or what of it is written, fits its clusters. */
  lemma FileFits(v: Variant, files: seq<File>, needs: seq<nat>, i: nat, cb: nat)
    requires cb > 0 && needs == NeedsOf(v, files, cb) && FilesPack(v, files, needs) && Dirs(v) <= i < |needs|
    ensures |files[i - Dirs(v)].data| <= needs[i] * cb
    ensures Held(v, files, needs, i, cb) == Content(v, files, needs, i, cb)
  {
    hide Needs, First, NeedsOf, FilesPack;
    NeedsAre(v, files, needs, i, cb);
    var d := files[i - Dirs(v)].data;
    NeedsCover(|d|, cb);
  }

  lemma DirHeld(v: Variant, files: seq<File>, needs: seq<nat>, i: nat, cb: nat)
    requires cb > 0 && needs == NeedsOf(v, files, cb) && FilesPack(v, files, needs) && i < Dirs(v)
    ensures |needs| == Dirs(v) + |files|
    ensures |Held(v, files, needs, i, cb)| == cb && Held(v, files, needs, i, cb) == DirContent(v, files, needs, i, cb)[..cb]
    ensures ENTRY * 3 <= cb ==> |DirContent(v, files, needs, i, cb)| <= cb * (if i < Dirs(v) - 1 then 1 else |files| + 1)
  {
    hide DirContent, First, NeedsOf, FilesPack, EntriesOf;
    NeedsAre(v, files, needs, i, cb);
    EntrySizes(v, files, needs, i);
    DirSlot(v, files, needs, i, cb, 0);
    assert needs[i] * cb == cb;
    if ENTRY * 3 <= cb { EntriesTimes(|files|, cb); }
  }

  lemma EntriesTimes(n: nat, cb: nat)
    requires ENTRY * 3 <= cb
    ensures cb <= cb * (n + 1) && ENTRY * (n + 2) <= cb * (n + 1)
  {
    if n > 0 { MulMono(n, ENTRY * 3, cb); }
  }

  /** The stretch of the data area that belongs to node i. */
  function Start(needs: seq<nat>, i: nat, cb: nat): nat
    requires i <= |needs|
  { At(First(needs, 2, i), cb) }

  lemma StartNext(needs: seq<nat>, i: nat, cb: nat)
    requires i < |needs|
    ensures Start(needs, i + 1, cb) == Start(needs, i, cb) + needs[i] * cb
  {
    AtPlus(First(needs, 2, i), needs[i], cb);
  }

  lemma {:induction false} StartGrows(needs: seq<nat>, i: nat, j: nat, cb: nat)
    requires i <= j <= |needs|
    ensures Start(needs, i, cb) <= Start(needs, j, cb)
    decreases j
  {
    hide Start;
    if i < j {
      StartGrows(needs, i, j - 1, cb);
      StartNext(needs, j - 1, cb);
    }
  }

  /** Every node takes a cluster at least. */
  lemma {:induction false} StartLeaps(v: Variant, files: seq<File>, needs: seq<nat>, i: nat, j: nat, cb: nat)
    requires cb > 0 && needs == NeedsOf(v, files, cb) && i <= j <= |needs|
    ensures Start(needs, i, cb) + cb * (j - i) <= Start(needs, j, cb)
    decreases j
  {
    hide Start, NeedsOf, Needs;
    if i < j {
      StartLeaps(v, files, needs, i, j - 1, cb);
      StartNext(needs, j - 1, cb);
      NeedsAre(v, files, needs, j - 1, cb);
      MulMono(cb, 1, needs[j - 1]);
      assert cb * (j - i) == cb * (j - 1 - i) + cb;
    }
  }

  /** Everything the layout of the data area relies on. */
  ghost predicate Laid(v: Variant, entries: seq<nat>, files: seq<File>, needs: seq<nat>, cb: nat, size: nat)
  {
    && cb >= ENTRY * 3 && needs == NeedsOf(v, files, cb) && FilesPack(v, files, needs)
    && (forall i | 0 <= i < |needs| :: ChainAt(v, entries, First(needs, 2, i), needs[i]))
    && Start(needs, |needs|, cb) <= size
  }

  /** What is held for a node ends before the next node begins, and nothing runs past the data area. */
  lemma NodeRoom(v: Variant, entries: seq<nat>, files: seq<File>, needs: seq<nat>, i: nat, cb: nat, size: nat)
    requires Laid(v, entries, files, needs, cb, size) && i < |needs|
    ensures Start(needs, i, cb) + |Held(v, files, needs, i, cb)| <= Start(needs, i + 1, cb) <= size
    ensures Start(needs, i, cb) + |Content(v, files, needs, i, cb)| <= size
  {
    hide DirContent, First, NeedsOf, FilesPack, ChainAt, Start, Held, Cut;
    StartNext(needs, i, cb);
    StartGrows(needs, i + 1, |needs|, cb);
    if i < Dirs(v) {
      DirHeld(v, files, needs, i, cb);
      StartLeaps(v, files, needs, i, |needs|, cb);
      if i < Dirs(v) - 1 { MulMono(cb, 1, |needs| - i); }
    } else {
      FileFits(v, files, needs, i, cb);
    }
  }

  lemma WriteNode(v: Variant, data: seq<u8>, entries: seq<nat>, files: seq<File>, needs: seq<nat>, i: nat, cb: nat)
    requires Laid(v, entries, files, needs, cb, |data|) && i < |needs|
    ensures Start(needs, i, cb) + |Content(v, files, needs, i, cb)| <= |data|
    ensures WriteNodes(v, data, entries, files, needs, i, cb) ==
              WriteNodes(v, Splice(data, Start(needs, i, cb), Content(v, files, needs, i, cb)), entries, files, needs, i + 1, cb)
  {
    hide DirContent, First, NeedsOf, FilesPack, Splice, ChainAt, Start, Cut, Needs;
    NodeRoom(v, entries, files, needs, i, cb, |data|);
    StartIs(needs, i, cb);
    if i >= Dirs(v) {
      FileFits(v, files, needs, i, cb);
      NeedsAre(v, files, needs, i, cb);
      StartNext(needs, i, cb);
      var d := files[i - Dirs(v)].data;
      if d == [] {
        CutNothing(v, First(needs, 2, i), cb);
        SpliceEmpty(data, Start(needs, i, cb));
      } else {
        assert ChainAt(v, entries, First(needs, 2, i), needs[i]);
        ChainHoldsFile(v, data, entries, First(needs, 2, i), d, cb);
      }
    }
  }

  lemma CutNothing(v: Variant, first: nat, cb: nat)
    requires cb > 0
    ensures Cut(v, first, [], cb) == []
  {
  }

  lemma StartIs(needs: seq<nat>, i: nat, cb: nat)
    requires i <= |needs|
    ensures Start(needs, i, cb) == At(First(needs, 2, i), cb)
  {
  }

  lemma SpliceEmpty(s: seq<u8>, i: nat)
    requires i <= |s|
    ensures Splice(s, i, []) == s
  {
  }

  /** Writing node i leaves what the nodes before it hold alone. */
  lemma NodeStays(v: Variant, data: seq<u8>, entries: seq<nat>, files: seq<File>, needs: seq<nat>, i: nat, cb: nat, j: nat)
    requires Laid(v, entries, files, needs, cb, |data|) && j <= i < |needs|
    ensures Start(needs, i, cb) + |Content(v, files, needs, i, cb)| <= |data|
    ensures Start(needs, j, cb) + |Held(v, files, needs, j, cb)| <= |data|
    ensures Splice(data, Start(needs, i, cb), Content(v, files, needs, i, cb))[Start(needs, j, cb)..Start(needs, j, cb) + |Held(v, files, needs, j, cb)|] ==
              if i == j then Held(v, files, needs, j, cb)
              else data[Start(needs, j, cb)..Start(needs, j, cb) + |Held(v, files, needs, j, cb)|]
  {
    hide Content, Held, Start, Splice, ChainAt, FilesPack, NeedsOf, First;
    NodeRoom(v, entries, files, needs, i, cb, |data|);
    NodeRoom(v, entries, files, needs, j, cb, |data|);
    if j < i {
      StartGrows(needs, j + 1, i, cb);
      SpliceElsewhere(data, Start(needs, i, cb), Content(v, files, needs, i, cb), Start(needs, j, cb), Start(needs, j, cb) + |Held(v, files, needs, j, cb)|);
    } else {
      SpliceFirst(data, Start(needs, i, cb), Content(v, files, needs, i, cb), Held(v, files, needs, i, cb));
    }
  }

  lemma SpliceFirst(s: seq<u8>, o: nat, b: seq<u8>, front: seq<u8>)
    requires o + |b| <= |s| && front <= b
    ensures Splice(s, o, b)[o..o + |front|] == front
  {
    hide Splice;
    SpliceInside(s, o, b, o, o + |front|);
    assert b[0..|front|] == front;
  }

  /** The bytes of node j in the data area. */
  function NodeBytes(v: Variant, data: seq<u8>, files: seq<File>, needs: seq<nat>, j: nat, cb: nat): seq<u8>
    requires cb > 0 && |needs| == Dirs(v) + |files| && FilesPack(v, files, needs) && j < |needs|
    requires Start(needs, j, cb) + |Held(v, files, needs, j, cb)| <= |data|
  { data[Start(needs, j, cb)..Start(needs, j, cb) + |Held(v, files, needs, j, cb)|] }

  lemma {:induction false} NodesHold(v: Variant, data: seq<u8>, entries: seq<nat>, files: seq<File>, needs: seq<nat>, i: nat, cb: nat, j: nat)
    requires Laid(v, entries, files, needs, cb, |data|) && i <= |needs| && j < |needs|
    ensures |WriteNodes(v, data, entries, files, needs, i, cb)| == |data|
    ensures Start(needs, j, cb) + |Held(v, files, needs, j, cb)| <= |data|
    ensures NodeBytes(v, WriteNodes(v, data, entries, files, needs, i, cb), files, needs, j, cb) ==
              if i <= j then Held(v, files, needs, j, cb) else NodeBytes(v, data, files, needs, j, cb)
    decreases |needs| - i
  {
    hide Content, Held, Start, Splice, ChainAt, FilesPack, NeedsOf, WriteNodes, First;
    if i < |needs| {
      if j <= i { NodeStays(v, data, entries, files, needs, i, cb, j); }
      WriteNode(v, data, entries, files, needs, i, cb);
      NodesHold(v, Splice(data, Start(needs, i, cb), Content(v, files, needs, i, cb)), entries, files, needs, i + 1, cb, j);
    } else {
      NodeRoom(v, entries, files, needs, j, cb, |data|);
      WriteNothing(v, data, entries, files, needs, i, cb);
    }
  }

  lemma WriteNothing(v: Variant, data: seq<u8>, entries: seq<nat>, files: seq<File>, needs: seq<nat>, i: nat, cb: nat)
    requires cb > 0 && |needs| == Dirs(v) + |files| && FilesPack(v, files, needs) && i >= |needs|
    ensures WriteNodes(v, data, entries, files, needs, i, cb) == data
  {
  }

  // ----- the table -----

  lemma {:induction false} FlatAt(v: Variant, entries: seq<nat>, c: nat)
    requires c < |entries|
    ensures (c + 1) * v.width <= |Flat(v, entries)| && Flat(v, entries)[c * v.width..(c + 1) * v.width] == EntryBytes(v, entries[c])
    decreases |entries|
  {
    hide EntryBytes;
    var front := entries[..|entries| - 1];
    WidthMono(v, c + 1, |entries|);
    if c < |entries| - 1 {
      FlatAt(v, front, c);
      assert front[c] == entries[c];
      ConcatSlices(Flat(v, front), EntryBytes(v, entries[|entries| - 1]), c * v.width, (c + 1) * v.width);
    } else {
      ConcatSlices(Flat(v, front), EntryBytes(v, entries[c]), 0, 0);
    }
  }

  lemma EntryRoundTrip(v: Variant, e: nat)
    requires e < if v.wide then TWO32 else 0x1_0000
    ensures FromLe(EntryBytes(v, e)) == e
  {
    LeRoundTrip(e, v.width);
    Pow256Values();
  }

  predicate Small(v: Variant, entries: seq<nat>) { forall c | 0 <= c < |entries| :: entries[c] < if v.wide then TWO32 else 0x1_0000 }

  lemma {:induction false} EntriesStaySmall(v: Variant, entries: seq<nat>, needs: seq<nat>, i: nat, next: nat)
    requires Small(v, entries) && |entries| < (if v.wide then TWO32 else 0x1_0000) && AllocateFrom(v, entries, needs, i, next).Ok?
    ensures Small(v, AllocateFrom(v, entries, needs, i, next).value)
    decreases |needs| - i
  {
    if i < |needs| {
      hide SetChain;
      ChainIsSmall(v, entries, next, needs[i]);
      EntriesStaySmall(v, SetChain(v, entries, next, needs[i]), needs, i + 1, next + needs[i]);
    }
  }

  lemma ChainIsSmall(v: Variant, entries: seq<nat>, first: nat, need: nat)
    requires Small(v, entries) && |entries| < (if v.wide then TWO32 else 0x1_0000) && first + need <= |entries|
    ensures Small(v, SetChain(v, entries, first, need))
  {
    var r := SetChain(v, entries, first, need);
    forall c | 0 <= c < |r| ensures r[c] < if v.wide then TWO32 else 0x1_0000 {
      if first <= c < first + need { assert r[c] == ChainEntry(v, first, need, c); }
      else if c < first { assert r[c] == entries[c]; }
      else { assert r[c] == entries[c]; }
    }
  }

  lemma PlanIsSmall(v: Variant, total: nat, files: seq<File>, p: Plan)
    requires Planned(v, total, files, p)
    ensures Small(v, p.entries)
  {
    hide NeedsOf, FilesPack, AllocateFrom, Search, GeometryAt;
    PlanHasRoom(v, total, files, p);
    EntriesStaySmall(v, NewTable(v, p.g.clusters), p.needs, 0, 2);
  }

  /** A copy of the table in the image decodes to the entries it was made from. */
  lemma TableDecodes(img: seq<u8>, v: Variant, base: nat, size: nat, entries: seq<nat>)
    requires Small(v, entries) && |entries| * v.width <= size && base + size <= |img|
    requires img[base..base + size] == TableBytes(v, entries, size)
    ensures Decode(img, v, base, |entries|) == entries
  {
    hide FromLe, EntryBytes, Flat;
    forall c: nat | c < |entries| ensures Decode(img, v, base, |entries|)[c] == entries[c] {
      FlatAt(v, entries, c);
      WidthMono(v, c + 1, |entries|);
      var lo, hi := c * v.width, (c + 1) * v.width;
      Sub(img, base, base + size, base + lo, base + hi);
      ConcatSlices(Flat(v, entries), Zeros(size - |entries| * v.width), lo, hi);
      EntryRoundTrip(v, entries[c]);
    }
  }

  // ----- the finished image -----

  /** Sizes of the parts, as the plan fixes them. */
  ghost predicate Sized(v: Variant, g: Geometry, front: seq<u8>, fat: seq<u8>, root: seq<u8>, data: seq<u8>)
  {
    && |fat| == g.fatSectors * SECTOR && |root| == v.rootSectors * SECTOR
    && DataStart(v, g) + |data| <= |front|
  }

  lemma AssembledParts(v: Variant, g: Geometry, front: seq<u8>, fat: seq<u8>, root: seq<u8>, data: seq<u8>, copy: nat)
    requires Sized(v, g, front, fat, root, data) && copy <= 1
    ensures var img := Assemble(v, g, front, fat, root, data);
            && |img| == |front| && img[..v.reserved * SECTOR] == front[..v.reserved * SECTOR]
            && TableStart(v, g, copy) + |fat| <= |img| && img[TableStart(v, g, copy)..TableStart(v, g, copy) + |fat|] == fat
            && RootStart(v, g) + |root| <= |img| && (!v.wide ==> img[RootStart(v, g)..RootStart(v, g) + |root|] == root)
            && img[DataStart(v, g)..DataStart(v, g) + |data|] == data
  {
    hide Splice;
    var t0, t1, r, d := TableStart(v, g, 0), TableStart(v, g, 1), RootStart(v, g), DataStart(v, g);
    assert t1 == t0 + |fat| && r == t1 + |fat| && d == r + |root| && t0 == v.reserved * SECTOR;
    FourParts(front, t0, fat, root, data, v.wide, copy);
  }

  lemma FourParts(front: seq<u8>, t0: nat, fat: seq<u8>, root: seq<u8>, data: seq<u8>, wide: bool, copy: nat)
    requires t0 + 2 * |fat| + |root| + |data| <= |front| && copy <= 1
    ensures var a := Splice(front, t0, fat); var b := Splice(a, t0 + |fat|, fat);
            var r := t0 + 2 * |fat|; var c := if wide then b else Splice(b, r, root);
            var img := Splice(c, r + |root|, data);
            && img[..t0] == front[..t0] && img[t0 + copy * |fat|..t0 + copy * |fat| + |fat|] == fat
            && (!wide ==> img[r..r + |root|] == root) && img[r + |root|..r + |root| + |data|] == data
  {
    hide Splice;
    var a := Splice(front, t0, fat);
    var b := Splice(a, t0 + |fat|, fat);
    var r := t0 + 2 * |fat|;
    var c := if wide then b else Splice(b, r, root);
    Whole(front, t0, fat);
    Whole(a, t0 + |fat|, fat);
    SpliceElsewhere(a, t0 + |fat|, fat, t0, t0 + |fat|);
    SpliceFront(front, t0, fat, t0);
    SpliceFront(a, t0 + |fat|, fat, t0);
    if !wide {
      Whole(b, r, root);
      SpliceElsewhere(b, r, root, t0, t0 + |fat|);
      SpliceElsewhere(b, r, root, t0 + |fat|, r);
      SpliceFront(b, r, root, t0);
    }
    Whole(c, r + |root|, data);
    SpliceElsewhere(c, r + |root|, data, t0, t0 + |fat|);
    SpliceElsewhere(c, r + |root|, data, t0 + |fat|, r);
    SpliceElsewhere(c, r + |root|, data, r, r + |root|);
    SpliceFront(c, r + |root|, data, t0);
  }

  lemma Whole(s: seq<u8>, i: nat, b: seq<u8>)
    requires i + |b| <= |s|
    ensures Splice(s, i, b)[i..i + |b|] == b
  {
    hide Splice;
    SpliceInside(s, i, b, i, i + |b|);
    assert b[0..|b|] == b;
  }

  lemma SpliceFront(s: seq<u8>, i: nat, b: seq<u8>, n: nat)
    requires i + |b| <= |s| && n <= i
    ensures Splice(s, i, b)[..n] == s[..n]
  {
  }

  // ----- from the root directory to a file -----

  datatype Slot = Slot(name: seq<u8>, attr: nat, first: nat, size: nat)

  function ReadSlot(b: seq<u8>): Slot
    requires |b| == ENTRY
  { Slot(b[..11], b[11], FromLe(b[26..28]) + 0x1_0000 * FromLe(b[20..22]), FromLe(b[28..32])) }

  lemma SlotReadsBack(name: seq<u8>, attr: u8, first: nat, size: nat)
    requires Packable(name, first, size)
    ensures ReadSlot(DirEntry(name, attr, first, size)) == Slot(name, attr, first, size)
  {
    hide FromLe, Le16, Le32;
    var b := DirEntry(name, attr, first, size);
    var hi, lo := first / 0x1_0000 % 0x1_0000, first % 0x1_0000;
    assert b[..11] == name && b[11] == attr;
    assert b[20..22] == Le16(hi) && b[26..28] == Le16(lo) && b[28..32] == Le32(size);
    Le16RoundTrip(hi);
    Le16RoundTrip(lo);
    Le32RoundTrip(size);
  }

  /** The data area of the image. */
  function DataOf(img: seq<u8>, v: Variant, g: Geometry): seq<u8>
    requires g.dataSectors >= 0 && DataStart(v, g) + g.dataSectors * SECTOR <= |img|
  { img[DataStart(v, g)..DataStart(v, g) + g.dataSectors * SECTOR] }

  predicate Readable(img: seq<u8>, v: Variant, g: Geometry)
  {
    && g.clusters >= 0 && g.dataSectors >= 0 && DataStart(v, g) + g.dataSectors * SECTOR <= |img|
    && TableStart(v, g, 0) + (g.clusters + 2) * v.width <= |img| && TableStart(v, g, 1) + (g.clusters + 2) * v.width <= |img|
  }

  /** The clusters of the chain that starts at c, as one copy of the table links them. */
  function ReadChain(img: seq<u8>, v: Variant, g: Geometry, copy: nat, c: nat): seq<u8>
    requires Readable(img, v, g) && copy <= 1
  {
    Gather(DataOf(img, v, g), Follow(v, Decode(img, v, TableStart(v, g, copy), g.clusters + 2), c, g.clusters + 2), g.spc * SECTOR)
  }

  /** Slot j of the directory that starts in cluster c. */
  function DirSlotAt(img: seq<u8>, v: Variant, g: Geometry, copy: nat, c: nat, j: nat): Option<Slot>
    requires Readable(img, v, g) && copy <= 1
  {
    var dir := ReadChain(img, v, g, copy, c);
    if ENTRY * j + ENTRY <= |dir| then Some(ReadSlot(dir[ENTRY * j..ENTRY * j + ENTRY])) else None
  }

  /** A file, by its first cluster and its size. */
  function ReadFile(img: seq<u8>, v: Variant, g: Geometry, copy: nat, first: nat, size: nat): Option<seq<u8>>
    requires Readable(img, v, g) && copy <= 1
  {
    var bytes := ReadChain(img, v, g, copy, first);
    if size <= |bytes| then Some(bytes[..size]) else None
  }

  predicate RootReadable(img: seq<u8>, v: Variant, g: Geometry) { Readable(img, v, g) && (v.wide || RootStart(v, g) + ENTRY <= |img|) }

  /** The directory BOOT, found from the root directory by way of EFI. */
  function FindBoot(img: seq<u8>, v: Variant, g: Geometry, copy: nat): Option<nat>
    requires RootReadable(img, v, g) && copy <= 1
  {
    var efi := if v.wide then DirSlotAt(img, v, g, copy, 2, 2) else Some(ReadSlot(img[RootStart(v, g)..RootStart(v, g) + ENTRY]));
    if efi.None? || efi.value.name != EFI_NAME then None else
    var boot := DirSlotAt(img, v, g, copy, efi.value.first, 2);
    if boot.None? || boot.value.name != BOOT_NAME then None else Some(boot.value.first)
  }

  /** The first slot from j on that carries the name, in a directory of n bytes. */
  function FindSlot(dir: seq<u8>, name: seq<u8>, j: nat): Option<nat>
    decreases |dir| - ENTRY * j
  {
    if ENTRY * j + ENTRY > |dir| then None
    else if ReadSlot(dir[ENTRY * j..ENTRY * j + ENTRY]).name == name then Some(j)
    else FindSlot(dir, name, j + 1)
  }

  /** The name and the bytes of file number k of BOOT. */
  function ReadBootFile(img: seq<u8>, v: Variant, g: Geometry, copy: nat, k: nat): Option<File>
    requires RootReadable(img, v, g) && copy <= 1
  {
    var boot := FindBoot(img, v, g, copy);
    if boot.None? then None else
    var slot := DirSlotAt(img, v, g, copy, boot.value, k + 2);
    if slot.None? then None else
    var data := ReadFile(img, v, g, copy, slot.value.first, slot.value.size);
    if data.None? then None else Some(File(slot.value.name, data.value))
  }

  /** The number of the slot of BOOT that carries a name. */
  function FindBootFile(img: seq<u8>, v: Variant, g: Geometry, copy: nat, name: seq<u8>): Option<nat>
    requires RootReadable(img, v, g) && copy <= 1
  {
    var boot := FindBoot(img, v, g, copy);
    if boot.None? then None else FindSlot(ReadChain(img, v, g, copy, boot.value), name, 0)
  }

  /** The fixed root directory of FAT16 starts with the entry of EFI. */
  ghost predicate RootHolds(img: seq<u8>, v: Variant, p: Plan)
  {
    RootStart(v, p.g) + ENTRY <= |img| && img[RootStart(v, p.g)..RootStart(v, p.g) + ENTRY] == DirEntry(EFI_NAME, 0x10, 2, 0)
  }

  /** The image is made of its parts, and its data area holds every node. */
  ghost predicate Built(img: seq<u8>, v: Variant, files: seq<File>, p: Plan, copy: nat)
  {
    && Readable(img, v, p.g) && p.cb == p.g.spc * SECTOR && |p.entries| == p.g.clusters + 2
    && Laid(v, p.entries, files, p.needs, p.cb, p.g.dataSectors * SECTOR)
    && copy <= 1 && Decode(img, v, TableStart(v, p.g, copy), p.g.clusters + 2) == p.entries
    && (v.wide || RootHolds(img, v, p))
    && forall j | 0 <= j < |p.needs| ::
         && Start(p.needs, j, p.cb) + |Held(v, files, p.needs, j, p.cb)| <= p.g.dataSectors * SECTOR
         && NodeBytes(v, DataOf(img, v, p.g), files, p.needs, j, p.cb) == Held(v, files, p.needs, j, p.cb)
  }

  /** Following the chain of node i gives the clusters it reaches, in one piece. */
  lemma ChainRead(img: seq<u8>, v: Variant, files: seq<File>, p: Plan, copy: nat, i: nat)
    requires Built(img, v, files, p, copy) && i < |p.needs|
    ensures var first := First(p.needs, 2, i); var r := Reach(v, first, p.needs[i]);
            && At(first, p.cb) + r * p.cb <= |DataOf(img, v, p.g)|
            && ReadChain(img, v, p.g, copy, first) == Piece(DataOf(img, v, p.g), first, r, p.cb)
  {
    hide Piece, NeedsOf, FilesPack, Decode, First, Follow, Gather, ChainAt, NodeBytes, Held, Reach;
    var data, first, need := DataOf(img, v, p.g), First(p.needs, 2, i), p.needs[i];
    assert need > 0 && first + need <= |p.entries| by { ChainBounds(v, p.entries, files, p.needs, p.cb, |data|, i); }
    FollowChain(v, p.entries, first, need, p.g.clusters + 2);
    NodeSpan(v, p.entries, files, p.needs, i, p.cb, |data|);
    MulMono(p.cb, Reach(v, first, need), need);
    GatherRange(data, first, Reach(v, first, need), p.cb);
  }

  lemma ChainBounds(v: Variant, entries: seq<nat>, files: seq<File>, needs: seq<nat>, cb: nat, size: nat, i: nat)
    requires Laid(v, entries, files, needs, cb, size) && i < |needs|
    ensures ChainAt(v, entries, First(needs, 2, i), needs[i]) && needs[i] > 0 && First(needs, 2, i) + needs[i] <= |entries|
  {
    hide First, FilesPack;
    assert ChainAt(v, entries, First(needs, 2, i), needs[i]);
  }

  lemma NodeSpan(v: Variant, entries: seq<nat>, files: seq<File>, needs: seq<nat>, i: nat, cb: nat, size: nat)
    requires Laid(v, entries, files, needs, cb, size) && i < |needs|
    ensures At(First(needs, 2, i), cb) + needs[i] * cb <= size
  {
    hide First, FilesPack, NeedsOf, ChainAt, Held;
    NodeRoom(v, entries, files, needs, i, cb, size);
    StartNext(needs, i, cb);
    StartIs(needs, i, cb);
  }

  /** A directory reads as its one cluster. */
  lemma DirRead(img: seq<u8>, v: Variant, files: seq<File>, p: Plan, copy: nat, i: nat)
    requires Built(img, v, files, p, copy) && i < Dirs(v)
    ensures |p.needs| == Dirs(v) + |files| && p.cb <= |DirContent(v, files, p.needs, i, p.cb)|
    ensures ReadChain(img, v, p.g, copy, First(p.needs, 2, i)) == DirContent(v, files, p.needs, i, p.cb)[..p.cb]
  {
    hide NeedsOf, FilesPack, First, DirContent, ReadChain, DataOf;
    ChainRead(img, v, files, p, copy, i);
    NeedsAre(v, files, p.needs, i, p.cb);
    DirHeld(v, files, p.needs, i, p.cb);
    assert NodeBytes(v, DataOf(img, v, p.g), files, p.needs, i, p.cb) == Held(v, files, p.needs, i, p.cb);
    assert 1 * p.cb == p.cb;
  }

  /** Slot j of directory i, if it lies in the cluster. */
  lemma SlotFound(img: seq<u8>, v: Variant, files: seq<File>, p: Plan, copy: nat, i: nat, j: nat)
    requires Built(img, v, files, p, copy) && i < Dirs(v) && j < |EntriesOf(v, files, p.needs, i)|
    ensures |EntriesOf(v, files, p.needs, i)[j]| == ENTRY
    ensures DirSlotAt(img, v, p.g, copy, First(p.needs, 2, i), j) ==
              if ENTRY * j + ENTRY <= p.cb then Some(ReadSlot(EntriesOf(v, files, p.needs, i)[j])) else None
  {
    hide First, NeedsOf, FilesPack, DirContent, EntriesOf, ReadSlot, DirEntry, ReadChain;
    EntrySizes(v, files, p.needs, i);
    DirRead(img, v, files, p, copy, i);
    DirSlot(v, files, p.needs, i, p.cb, j);
    var d := DirContent(v, files, p.needs, i, p.cb);
    if ENTRY * j + ENTRY <= p.cb { assert d[..p.cb][ENTRY * j..ENTRY * j + ENTRY] == d[ENTRY * j..ENTRY * j + ENTRY]; }
  }

  lemma BootFound(img: seq<u8>, v: Variant, files: seq<File>, p: Plan, copy: nat)
    requires Built(img, v, files, p, copy)
    ensures RootReadable(img, v, p.g) && FindBoot(img, v, p.g, copy) == Some(First(p.needs, 2, Dirs(v) - 1))
  {
    hide NeedsOf, ChainAt, Decode, DirContent, ReadSlot, DirEntry, Content, Held, DirSlotAt, NodeBytes, Start;
    var n := Dirs(v) - 1;
    assert |p.needs| == Dirs(v) + |files|;
    assert First(p.needs, 2, 0) == 2;
    SlotReadsBack(EFI_NAME, 0x10, First(p.needs, 2, n - 1), 0);
    SlotReadsBack(BOOT_NAME, 0x10, First(p.needs, 2, n), 0);
    SlotFound(img, v, files, p, copy, n - 1, 2);
    if v.wide { SlotFound(img, v, files, p, copy, 0, 2); }
  }

  lemma CutIsAll(v: Variant, first: nat, d: seq<u8>, cb: nat)
    requires cb > 0
    ensures var r := Reach(v, first, Needs(|d|, cb));
            if Unbroken(v, first, Needs(|d|, cb)) then |d| <= r * cb && Cut(v, first, d, cb) == d else r * cb < |d|
  {
    hide Needs, Reach, Unbroken;
    ReachIff(v, first, Needs(|d|, cb));
    NeedsCover(|d|, cb);
    var r := Reach(v, first, Needs(|d|, cb));
    if r < Needs(|d|, cb) { NeedsExceed(|d|, cb, r); }
  }

  /** The bytes of a file stand at its first cluster, unless its chain is broken. */
  lemma FileBytes(img: seq<u8>, v: Variant, files: seq<File>, p: Plan, copy: nat, k: nat)
    requires Built(img, v, files, p, copy) && k < |files|
    ensures |p.needs| == Dirs(v) + |files| && p.cb > 0 && p.needs[Dirs(v) + k] == Needs(|files[k].data|, p.cb)
    ensures var o, d, data := At(First(p.needs, 2, Dirs(v) + k), p.cb), files[k].data, DataOf(img, v, p.g);
            Unbroken(v, First(p.needs, 2, Dirs(v) + k), p.needs[Dirs(v) + k]) ==> o + |d| <= |data| && data[o..o + |d|] == d
  {
    hide NeedsOf, FilesPack, First, Reach, Unbroken, Needs, Cut, Decode, RootHolds;
    var i, d := Dirs(v) + k, files[k].data;
    LaidNeeds(v, files, p);
    NeedsAre(v, files, p.needs, i, p.cb);
    CutIsAll(v, First(p.needs, 2, i), d, p.cb);
    FileFits(v, files, p.needs, i, p.cb);
    assert NodeBytes(v, DataOf(img, v, p.g), files, p.needs, i, p.cb) == Held(v, files, p.needs, i, p.cb);
  }

  /** By its first cluster and its size a file reads back exactly when its chain is unbroken. */
  lemma FileFoundIff(img: seq<u8>, v: Variant, files: seq<File>, p: Plan, copy: nat, k: nat)
    requires Built(img, v, files, p, copy) && k < |files|
    ensures |p.needs| == Dirs(v) + |files|
    ensures var first := First(p.needs, 2, Dirs(v) + k);
            ReadFile(img, v, p.g, copy, first, |files[k].data|) ==
              if Unbroken(v, first, p.needs[Dirs(v) + k]) then Some(files[k].data) else None
  {
    hide Laid, First, Reach, Unbroken, Needs, ReadChain, DataOf, Piece, At, Start, NodeBytes, Held, Decode, RootHolds, Cut;
    FileBytes(img, v, files, p, copy, k);
    var i, d, data := Dirs(v) + k, files[k].data, DataOf(img, v, p.g);
    var first := First(p.needs, 2, i);
    ChainRead(img, v, files, p, copy, i);
    CutIsAll(v, first, d, p.cb);
    if Unbroken(v, first, p.needs[i]) { FrontOf(data, first, Reach(v, first, p.needs[i]), p.cb, d); }
  }

  lemma FrontOf(s: seq<u8>, first: nat, n: nat, cb: nat, d: seq<u8>)
    requires At(first, cb) + n * cb <= |s| && |d| <= n * cb && s[At(first, cb)..At(first, cb) + |d|] == d
    ensures Piece(s, first, n, cb)[..|d|] == d
  {
    hide At;
    var o, p := At(first, cb), Piece(s, first, n, cb);
    Sub(s, o, o + n * cb, o, o + |d|);
    assert p[..|d|] == p[0..|d|];
  }

  /** Slot number k + 2 of BOOT leads to file k exactly when it lies in the cluster of the
      directory and the chain of the file is unbroken. */
  lemma BootFileFoundIff(img: seq<u8>, v: Variant, files: seq<File>, p: Plan, copy: nat, k: nat)
    requires Built(img, v, files, p, copy) && k < |files|
    ensures RootReadable(img, v, p.g) && |p.needs| == Dirs(v) + |files|
    ensures ReadBootFile(img, v, p.g, copy, k) ==
              if ENTRY * (k + 3) <= p.cb && Unbroken(v, First(p.needs, 2, Dirs(v) + k), p.needs[Dirs(v) + k]) then Some(files[k]) else None
  {
    hide NeedsOf, ChainAt, Decode, DirContent, ReadSlot, DirEntry, Content, Held, DirSlotAt, NodeBytes, First, FindBoot, ReadFile, Unbroken, Start;
    BootFound(img, v, files, p, copy);
    FileFoundIff(img, v, files, p, copy, k);
    SlotFound(img, v, files, p, copy, Dirs(v) - 1, k + 2);
    SlotReadsBack(files[k].name, 0x20, First(p.needs, 2, Dirs(v) + k), |files[k].data|);
  }

  // ----- by name -----

  /** The name in slot j of BOOT. */
  function SlotName(files: seq<File>, j: nat): seq<u8>
    requires j < |files| + 2
  { if j == 0 then DOT_NAME else if j == 1 then DOTDOT_NAME else files[j - 2].name }

  lemma NameInSlot(v: Variant, files: seq<File>, p: Plan, j: nat)
    requires p.cb > 0 && p.needs == NeedsOf(v, files, p.cb) && FilesPack(v, files, p.needs) && j < |files| + 2
    requires ENTRY * j + ENTRY <= p.cb
    ensures |p.needs| == Dirs(v) + |files|
    ensures var d := DirContent(v, files, p.needs, Dirs(v) - 1, p.cb);
            p.cb <= |d| && ReadSlot(d[..p.cb][ENTRY * j..ENTRY * j + ENTRY]).name == SlotName(files, j)
  {
    hide DirContent, NeedsOf, First, ReadSlot, DirEntry;
    var i := Dirs(v) - 1;
    EntrySizes(v, files, p.needs, i);
    DirSlot(v, files, p.needs, i, p.cb, j);
    var d := DirContent(v, files, p.needs, i, p.cb);
    assert d[..p.cb][ENTRY * j..ENTRY * j + ENTRY] == d[ENTRY * j..ENTRY * j + ENTRY];
    SlotReadsBack(DOT_NAME, 0x10, First(p.needs, 2, i), 0);
    SlotReadsBack(DOTDOT_NAME, 0x10, if i > 0 then First(p.needs, 2, i - 1) else if v.wide then 2 else 0, 0);
    if j >= 2 { SlotReadsBack(files[j - 2].name, 0x20, First(p.needs, 2, Dirs(v) + j - 2), |files[j - 2].data|); }
  }

  /** Whatever slot is found is the first one with the name. */
  lemma {:induction false} FindSlotIff(dir: seq<u8>, name: seq<u8>, j: nat, n: nat)
    requires j <= n && ENTRY * n + ENTRY <= |dir| && ReadSlot(dir[ENTRY * n..ENTRY * n + ENTRY]).name == name
    ensures FindSlot(dir, name, j) == Some(n)
            <==> forall m | j <= m < n :: ENTRY * m + ENTRY <= |dir| && ReadSlot(dir[ENTRY * m..ENTRY * m + ENTRY]).name != name
    decreases n - j
  {
    hide ReadSlot;
    if j < n { FindSlotIff(dir, name, j + 1, n); }
  }

  /** A file whose slot lies in the cluster is the one found under its name exactly when no
      slot before it carries the same name. */
  lemma FoundByNameIff(img: seq<u8>, v: Variant, files: seq<File>, p: Plan, copy: nat, k: nat)
    requires Built(img, v, files, p, copy) && k < |files| && ENTRY * (k + 3) <= p.cb
    ensures RootReadable(img, v, p.g)
    ensures FindBootFile(img, v, p.g, copy, files[k].name) == Some(k + 2)
            <==> files[k].name != DOT_NAME && files[k].name != DOTDOT_NAME && forall m | 0 <= m < k :: files[m].name != files[k].name
  {
    hide NeedsOf, FilesPack, First, DirContent, ReadChain, FindBoot, ReadSlot, FindSlot, SlotName, Laid, NodeBytes, Decode, RootHolds;
    BootFound(img, v, files, p, copy);
    DirRead(img, v, files, p, copy, Dirs(v) - 1);
    LaidNeeds(v, files, p);
    var dir, name := DirContent(v, files, p.needs, Dirs(v) - 1, p.cb)[..p.cb], files[k].name;
    forall m: nat | m < k + 3
      ensures ENTRY * m + ENTRY <= |dir| && ReadSlot(dir[ENTRY * m..ENTRY * m + ENTRY]).name == SlotName(files, m)
    {
      NameInSlot(v, files, p, m);
    }
    SlotNames(files, k);
    FindSlotIff(dir, name, 0, k + 2);
  }

  lemma LaidNeeds(v: Variant, files: seq<File>, p: Plan)
    requires p.g.dataSectors >= 0 && Laid(v, p.entries, files, p.needs, p.cb, p.g.dataSectors * SECTOR)
    ensures p.cb > 0 && p.needs == NeedsOf(v, files, p.cb) && FilesPack(v, files, p.needs)
  {
  }

  lemma SlotNames(files: seq<File>, k: nat)
    requires k < |files|
    ensures SlotName(files, k + 2) == files[k].name
    ensures (forall m | 0 <= m < k + 2 :: SlotName(files, m) != files[k].name)
            <==> files[k].name != DOT_NAME && files[k].name != DOTDOT_NAME && forall m | 0 <= m < k :: files[m].name != files[k].name
  {
    assert SlotName(files, 0) == DOT_NAME && SlotName(files, 1) == DOTDOT_NAME;
    forall m | 0 <= m < k ensures SlotName(files, m + 2) == files[m].name {}
  }

  // ----- the builder's output -----

  lemma PlanIsLaid(v: Variant, total: nat, files: seq<File>, p: Plan)
    requires Planned(v, total, files, p)
    ensures p.g.dataSectors >= 0 && Laid(v, p.entries, files, p.needs, p.cb, p.g.dataSectors * SECTOR)
  {
    hide NeedsOf, FilesPack, First, AllocateFrom, NewTable, Search, GeometryAt;
    PlanHasRoom(v, total, files, p);
    FirstIsStart(p.needs);
    AllocatedFrom(v, NewTable(v, p.g.clusters), p.needs, 0, 2);
    AllocationFits(v, NewTable(v, p.g.clusters), p.needs, 0, 2);
    StartIs(p.needs, |p.needs|, p.cb);
    var c := First(p.needs, 2, |p.needs|);
    assert c - 2 <= p.g.clusters;
    assert (c - 2) * p.cb <= p.g.clusters * p.cb by { MulMono(p.cb, c - 2, p.g.clusters); }
  }

  lemma FirstIsStart(needs: seq<nat>)
    ensures First(needs, 2, 0) == 2
  {
  }

  lemma FrontSize(v: Variant, totalBytes: nat, boot: seq<u8>)
    requires |boot| == SECTOR && v.reserved * SECTOR <= totalBytes
    ensures |Front(v, totalBytes, boot)| == totalBytes
  {
  }

  lemma RootDirSize(v: Variant, efi: nat)
    requires efi < TWO32
    ensures |RootDir(v, efi)| == v.rootSectors * SECTOR
    ensures !v.wide ==> RootDir(v, efi)[0..ENTRY] == DirEntry(EFI_NAME, 0x10, efi, 0)
  {
    hide DirEntry;
    var b := DirEntry(EFI_NAME, 0x10, efi, 0);
    if !v.wide { Whole(Zeros(v.rootSectors * SECTOR), 0, b); }
  }

  lemma DataHolds(v: Variant, total: nat, files: seq<File>, p: Plan, j: nat)
    requires Planned(v, total, files, p) && j < |p.needs|
    ensures p.g.dataSectors >= 0 && |DataArea(v, total, files, p)| == p.g.dataSectors * SECTOR
    ensures Start(p.needs, j, p.cb) + |Held(v, files, p.needs, j, p.cb)| <= p.g.dataSectors * SECTOR
    ensures NodeBytes(v, DataArea(v, total, files, p), files, p.needs, j, p.cb) == Held(v, files, p.needs, j, p.cb)
  {
    hide Search, First, NeedsOf, FilesPack, AllocateFrom, Content, Held, GeometryAt, WriteNodes, Laid;
    PlanIsLaid(v, total, files, p);
    NodesHold(v, Zeros(p.g.dataSectors * SECTOR), p.entries, files, p.needs, 0, p.cb, j);
  }

  /** Each part of the image is where the reader looks for it. */
  ghost predicate PartsIn(img: seq<u8>, v: Variant, p: Plan, data: seq<u8>, copy: nat)
  {
    && Readable(img, v, p.g) && copy <= 1 && Decode(img, v, TableStart(v, p.g, copy), p.g.clusters + 2) == p.entries
    && DataOf(img, v, p.g) == data && (v.wide || RootHolds(img, v, p))
  }

  lemma AssembledParse(v: Variant, p: Plan, front: seq<u8>, root: seq<u8>, data: seq<u8>, copy: nat)
    requires p.g.clusters >= 0 && p.g.dataSectors >= 0 && |p.entries| == p.g.clusters + 2 && Small(v, p.entries) && copy <= 1
    requires |p.entries| * v.width <= p.g.fatSectors * SECTOR && |data| == p.g.dataSectors * SECTOR
    requires Sized(v, p.g, front, TableBytes(v, p.entries, p.g.fatSectors * SECTOR), root, data)
    requires v.wide || root[0..ENTRY] == DirEntry(EFI_NAME, 0x10, 2, 0)
    ensures PartsIn(Assemble(v, p.g, front, TableBytes(v, p.entries, p.g.fatSectors * SECTOR), root, data), v, p, data, copy)
  {
    hide TableBytes, Assemble, Decode, DirEntry, Small;
    var g, fat := p.g, TableBytes(v, p.entries, p.g.fatSectors * SECTOR);
    AssembledParts(v, g, front, fat, root, data, copy);
    AssembledParts(v, g, front, fat, root, data, 1 - copy);
    var img := Assemble(v, g, front, fat, root, data);
    TableDecodes(img, v, TableStart(v, g, copy), g.fatSectors * SECTOR, p.entries);
    if !v.wide { Sub(img, RootStart(v, g), RootStart(v, g) + |root|, RootStart(v, g), RootStart(v, g) + ENTRY); }
  }

  lemma LayoutParts(v: Variant, totalBytes: nat, hidden: nat, files: seq<File>, p: Plan, copy: nat)
    requires Planned(v, totalBytes / SECTOR, files, p) && copy <= 1
    ensures PartsIn(Layout(v, totalBytes, hidden, files, p), v, p, DataArea(v, totalBytes / SECTOR, files, p), copy)
  {
    hide Search, First, NeedsOf, FilesPack, AllocateFrom, BootSector, TableBytes, DataArea, Assemble, Front, RootDir, DirEntry, GeometryAt, PartsIn, Small, NewTable;
    var total := totalBytes / SECTOR;
    PlanHasRoom(v, total, files, p);
    PlanIsSmall(v, total, files, p);
    DataHolds(v, total, files, p, 0);
    FirstIsStart(p.needs);
    RootDirSize(v, 2);
    var front := FrontArea(v, totalBytes, hidden, files, p);
    assert |front| == totalBytes by { FrontSize(v, totalBytes, BootSector(v, p.g, total, if hidden < TWO32 then hidden else 0)); }
    AssembledParse(v, p, front, RootDir(v, 2), DataArea(v, total, files, p), copy);
  }

  lemma LayoutIsBuilt(v: Variant, totalBytes: nat, hidden: nat, files: seq<File>, p: Plan, copy: nat)
    requires Planned(v, totalBytes / SECTOR, files, p) && copy <= 1
    ensures Built(Layout(v, totalBytes, hidden, files, p), v, files, p, copy)
  {
    hide Search, First, NeedsOf, FilesPack, AllocateFrom, Layout, DataArea, RootHolds, Decode, Content, Held, Laid, GeometryAt, Readable;
    PlanIsLaid(v, totalBytes / SECTOR, files, p);
    assert |p.needs| == Dirs(v) + |files|;
    DataHolds(v, totalBytes / SECTOR, files, p, 0);
    LayoutParts(v, totalBytes, hidden, files, p, copy);
    forall j | 0 <= j < |p.needs|
      ensures Start(p.needs, j, p.cb) + |Held(v, files, p.needs, j, p.cb)| <= p.g.dataSectors * SECTOR
      ensures NodeBytes(v, DataArea(v, totalBytes / SECTOR, files, p), files, p.needs, j, p.cb) == Held(v, files, p.needs, j, p.cb)
    {
      DataHolds(v, totalBytes / SECTOR, files, p, j);
    }
  }

  // ----- which files can be read -----

  /** No plan gives a file more than 2^23 clusters of 512 bytes. */
  lemma {:induction false} NeedsBound(n: nat, cb: nat, k: nat)
    requires cb > 0 && n <= k * cb && k > 0
    ensures Needs(n, cb) <= k
    decreases n
  {
    hide Needs;
    if n > cb {
      NeedsMore(n, cb);
      assert k > 1 && n - cb <= (k - 1) * cb by { assert k * cb == (k - 1) * cb + cb; }
      NeedsBound(n - cb, cb, k - 1);
    } else {
      NeedsOne(n, cb);
    }
  }

  lemma {:induction false} FirstBound(needs: seq<nat>, i: nat)
    requires i <= |needs| && forall j | 0 <= j < i :: needs[j] <= 0x80_0000
    ensures First(needs, 2, i) <= 2 + i * 0x80_0000
    decreases i
  {
    if i > 0 { FirstBound(needs, i - 1); }
  }

  /** A chain whose file has its slot in the first cluster of BOOT is never broken: FAT16 numbers
      no cluster like an end mark, and the few files that FAT32 can list do not reach that far. */
  lemma ListedIsUnbroken(v: Variant, total: nat, files: seq<File>, p: Plan, k: nat)
    requires Planned(v, total, files, p) && k < |files| && ENTRY * (k + 3) <= p.cb
    ensures |p.needs| == Dirs(v) + |files| && Unbroken(v, First(p.needs, 2, Dirs(v) + k), p.needs[Dirs(v) + k])
  {
    hide NeedsOf, First, AllocateFrom, GeometryAt, NewTable, Search, Needs;
    var i := Dirs(v) + k;
    if v.wide {
      assert v == FAT32;
      WideSearchIsDecidedAtOnce(total);
      assert p.cb == 512;
      forall j: nat | j < |p.needs| ensures p.needs[j] <= 0x80_0000 {
        NeedsAre(v, files, p.needs, j, p.cb);
        if j >= Dirs(v) { NeedsBound(|files[j - Dirs(v)].data|, 512, 0x80_0000); }
      }
      FirstBound(p.needs, i);
    } else {
      NarrowPlan(v, total, files, p, i);
    }
  }

  lemma NarrowPlan(v: Variant, total: nat, files: seq<File>, p: Plan, i: nat)
    requires Planned(v, total, files, p) && !v.wide && i < |p.needs|
    ensures Unbroken(v, First(p.needs, 2, i), p.needs[i])
  {
    hide NeedsOf, FilesPack, First, AllocateFrom, GeometryAt, Search;
    FirstIsStart(p.needs);
    AllocationFits(v, NewTable(v, p.g.clusters), p.needs, 0, 2);
    FirstStep(p.needs, 2, i);
    FirstGrows(p.needs, 2, i + 1, |p.needs|);
  }

  /** Starting from the root directory and through either copy of the table, file k of an image
      that is built reads back, name and bytes, exactly when its slot lies in the one cluster of
      the directory; the others cannot be reached. */
  lemma ImageReadsBack(v: Variant, totalBytes: nat, hidden: nat, files: seq<File>, copy: nat, k: nat)
    requires Image(v, totalBytes, hidden, files).Ok? && copy <= 1 && k < |files|
    ensures var img, p := Image(v, totalBytes, hidden, files).value, MakePlan(v, totalBytes / SECTOR, hidden, files).value;
            && RootReadable(img, v, p.g)
            && ReadBootFile(img, v, p.g, copy, k) == if ENTRY * (k + 3) <= p.cb then Some(files[k]) else None
  {
    hide MakePlan, ReadBootFile, Planned, First, Layout, Unbroken;
    var p := MakePlan(v, totalBytes / SECTOR, hidden, files).value;
    LayoutIsBuilt(v, totalBytes, hidden, files, p, copy);
    BootFileFoundIff(Layout(v, totalBytes, hidden, files, p), v, files, p, copy, k);
    if ENTRY * (k + 3) <= p.cb { ListedIsUnbroken(v, totalBytes / SECTOR, files, p, k); }
  }

  /** Under its name, the search ends at file k exactly when no earlier slot has the same name. */
  lemma ImageFindsByName(v: Variant, totalBytes: nat, hidden: nat, files: seq<File>, copy: nat, k: nat)
    requires Image(v, totalBytes, hidden, files).Ok? && copy <= 1 && k < |files|
    requires ENTRY * (k + 3) <= MakePlan(v, totalBytes / SECTOR, hidden, files).value.cb
    ensures var img, g := Image(v, totalBytes, hidden, files).value, MakePlan(v, totalBytes / SECTOR, hidden, files).value.g;
            && RootReadable(img, v, g)
            && (FindBootFile(img, v, g, copy, files[k].name) == Some(k + 2)
                <==> files[k].name != DOT_NAME && files[k].name != DOTDOT_NAME && forall m | 0 <= m < k :: files[m].name != files[k].name)
  {
    hide MakePlan, FindBootFile, Planned, First, Layout;
    var p := MakePlan(v, totalBytes / SECTOR, hidden, files).value;
    LayoutIsBuilt(v, totalBytes, hidden, files, p, copy);
    FoundByNameIff(Layout(v, totalBytes, hidden, files, p), v, files, p, copy, k);
  }

  /** By first cluster and size, also the files that no slot lists: exactly the unbroken chains
      read back. */
  lemma ImageHoldsFiles(v: Variant, totalBytes: nat, hidden: nat, files: seq<File>, copy: nat, k: nat)
    requires Image(v, totalBytes, hidden, files).Ok? && copy <= 1 && k < |files|
    ensures var img, p := Image(v, totalBytes, hidden, files).value, MakePlan(v, totalBytes / SECTOR, hidden, files).value;
            && Readable(img, v, p.g) && |p.needs| == Dirs(v) + |files|
            && var first := First(p.needs, 2, Dirs(v) + k);
            ReadFile(img, v, p.g, copy, first, |files[k].data|) ==
              if Unbroken(v, first, p.needs[Dirs(v) + k]) then Some(files[k].data) else None
  {
    hide MakePlan, ReadFile, Planned, First, Layout, Unbroken;
    var p := MakePlan(v, totalBytes / SECTOR, hidden, files).value;
    LayoutIsBuilt(v, totalBytes, hidden, files, p, copy);
    FileFoundIff(Layout(v, totalBytes, hidden, files, p), v, files, p, copy, k);
  }

  lemma {:induction false} EqualFirsts(needs: seq<nat>, d: nat, n: nat, i: nat)
    requires d <= i <= |needs| && (forall j | d <= j < i :: needs[j] == n)
    ensures First(needs, 2, i) == First(needs, 2, d) + (i - d) * n
    decreases i
  {
    if d < i {
      EqualFirsts(needs, d, n, i - 1);
      assert (i - d) * n == (i - 1 - d) * n + n;
    }
  }

  const LARGE := 0xFFFF_FE00

  lemma LargeNeeds()
    ensures Needs(LARGE, 512) == 0x7F_FFFF
  {
    DivModUnique(LARGE + 511, 512, 0x7F_FFFF, 511);
  }

  // ----- which images can be built -----

  /** What the builder demands of names, sizes and numbers. */
  predicate Packs(total: nat, hidden: nat, files: seq<File>)
  {
    total < TWO32 && hidden < TWO32 && forall k | 0 <= k < |files| :: |files[k].name| == 11 && |files[k].data| < TWO32
  }

  /** The clusters that all nodes together need. */
  function AllNeeds(v: Variant, files: seq<File>, cb: nat): nat
    requires cb > 0
  { First(NeedsOf(v, files, cb), 2, Dirs(v) + |files|) - 2 }

  /** An image is built exactly when a geometry is found, the nodes need no more clusters than it
      has, and names, sizes and numbers can be packed. */
  lemma ImageIff(v: Variant, totalBytes: nat, hidden: nat, files: seq<File>)
    ensures var total := totalBytes / SECTOR; var g := Search(v, total, v.firstSpc);
            Image(v, totalBytes, hidden, files).Ok? <==>
              && g.Ok? && g.value.spc > 0 && AllNeeds(v, files, g.value.spc * SECTOR) <= g.value.clusters
              && Packs(total, hidden, files) && (v.wide || g.value.fatSectors < 0x1_0000)
  {
    hide NeedsOf, First, AllocateFrom, GeometryAt, Search, Layout, FilesPack;
    var total := totalBytes / SECTOR;
    FoundOr(v, total);
    if Search(v, total, v.firstSpc).Ok? {
      var g := Search(v, total, v.firstSpc).value;
      var needs := NeedsOf(v, files, g.spc * SECTOR);
      FirstIsStart(needs);
      if g.clusters >= 0 {
        AllocationFits(v, NewTable(v, g.clusters), needs, 0, 2);
        ClustersBound(v, total, g);
        PacksIff(v, files, needs, g.clusters + 2, total, hidden);
      }
    }
  }

  lemma ClustersBound(v: Variant, total: nat, g: Geometry)
    requires g.spc > 0 && g == GeometryAt(v, total, g.spc) && g.clusters >= 0
    ensures g.clusters + 2 <= total
  {
    hide GeometryAt;
    TableHasRoom(v, total, g.spc);
    if g.clusters > 0 { MulMono(g.clusters, 1, g.spc); }
  }

  lemma PacksIff(v: Variant, files: seq<File>, needs: seq<nat>, n: nat, total: nat, hidden: nat)
    requires |needs| == Dirs(v) + |files| && n <= total
    ensures First(needs, 2, |needs|) <= n ==>
              (Packs(total, hidden, files) <==> total < TWO32 && hidden < TWO32 && FilesPack(v, files, needs))
  {
    hide First;
    if First(needs, 2, |needs|) <= n < TWO32 {
      forall i | 0 <= i <= |needs| ensures First(needs, 2, i) < TWO32 { FirstGrows(needs, 2, i, |needs|); }
    }
  }

  /** All files need n clusters each. */
  lemma EqualNeeds(files: seq<File>, n: nat)
    requires forall k | 0 <= k < |files| :: Needs(|files[k].data|, 512) == n
    ensures var needs := NeedsOf(FAT32, files, 512);
            && (forall j | 0 <= j < 3 :: needs[j] == 1) && (forall j | 3 <= j < |needs| :: needs[j] == n)
            && forall j | 3 <= j <= |needs| :: First(needs, 2, j) == 5 + (j - 3) * n
  {
    hide NeedsOf, First, Needs;
    var needs := NeedsOf(FAT32, files, 512);
    forall j: nat | j < |needs| ensures needs[j] == if j < 3 then 1 else n { NeedsAre(FAT32, files, needs, j, 512); }
    FirstIsStart(needs);
    EqualFirsts(needs, 0, 1, 3);
    forall j | 3 <= j <= |needs| ensures First(needs, 2, j) == 5 + (j - 3) * n { EqualFirsts(needs, 3, n, j); }
  }

  lemma WideGeometry(total: nat)
    requires total == 100_000 || total == 300_000_000
    ensures var g := GeometryAt(FAT32, total, 1); g.spc == 1 && g.clusters == if total == 100_000 then 98_406 else 295_312_468
  {
  }

  lemma WideImageSucceeds(total: nat, hidden: nat, files: seq<File>, n: nat)
    requires total == 100_000 || total == 300_000_000
    requires Packs(total, hidden, files) && (forall k | 0 <= k < |files| :: Needs(|files[k].data|, 512) == n)
    requires 3 + |files| * n <= if total == 100_000 then 98_406 else 295_312_468
    ensures Image(FAT32, total * SECTOR, hidden, files).Ok?
    ensures MakePlan(FAT32, total, hidden, files).Ok? && MakePlan(FAT32, total, hidden, files).value.cb == 512
    ensures MakePlan(FAT32, total, hidden, files).value.needs == NeedsOf(FAT32, files, 512)
  {
    hide NeedsOf, First, GeometryAt, Search, Layout, Needs, AllocateFrom;
    assert total * SECTOR / SECTOR == total;
    WideGeometry(total);
    WideSearchIsDecidedAtOnce(total);
    FoundOr(FAT32, total);
    EqualNeeds(files, n);
    ImageIff(FAT32, total * SECTOR, hidden, files);
  }

  /** A chain does get broken: of 33 files of 2^32 - 512 bytes on a FAT32 partition of 300 million
      sectors, which is built, the last one crosses the numbers of the end marks and cannot be
      read whole. */
  lemma CrossingFileIsLost(hidden: nat, files: seq<File>, copy: nat)
    requires hidden < TWO32 && copy <= 1 && |files| == 33
    requires forall k | 0 <= k < |files| :: |files[k].name| == 11 && |files[k].data| == LARGE
    ensures var r, p := Image(FAT32, 300_000_000 * SECTOR, hidden, files), MakePlan(FAT32, 300_000_000, hidden, files);
            && r.Ok? && p.Ok? && Readable(r.value, FAT32, p.value.g) && |p.value.needs| == 36
            && ReadFile(r.value, FAT32, p.value.g, copy, First(p.value.needs, 2, 35), LARGE) == None
  {
    hide MakePlan, ReadFile, Planned, First, Layout, Unbroken, NeedsOf, Image;
    LargeNeeds();
    WideImageSucceeds(300_000_000, hidden, files, 0x7F_FFFF);
    assert 300_000_000 * SECTOR / SECTOR == 300_000_000;
    ImageHoldsFiles(FAT32, 300_000_000 * SECTOR, hidden, files, copy, 32);
    EqualNeeds(files, 0x7F_FFFF);
    Crosses(0x7F_FFFF);
  }

  lemma Crosses(n: nat)
    requires n == 0x7F_FFFF
    ensures !Unbroken(FAT32, 5 + 32 * n, n)
  {
  }

  /** A directory does get full: of 15 files of one cluster each on a FAT32 partition of 100,000
      sectors, which is built, the 14th is found and the 15th is not. */
  lemma FifteenthFileIsLost(hidden: nat, files: seq<File>, copy: nat)
    requires hidden < TWO32 && copy <= 1 && |files| == 15
    requires forall k | 0 <= k < |files| :: |files[k].name| == 11 && |files[k].data| <= 512
    ensures var r, p := Image(FAT32, 100_000 * SECTOR, hidden, files), MakePlan(FAT32, 100_000, hidden, files);
            && r.Ok? && p.Ok? && RootReadable(r.value, FAT32, p.value.g)
            && ReadBootFile(r.value, FAT32, p.value.g, copy, 13) == Some(files[13])
            && ReadBootFile(r.value, FAT32, p.value.g, copy, 14) == None
  {
    hide MakePlan, ReadBootFile, Planned, First, Layout, NeedsOf, Image, Needs;
    forall k | 0 <= k < |files| ensures Needs(|files[k].data|, 512) == 1 { NeedsOne(|files[k].data|, 512); }
    WideImageSucceeds(100_000, hidden, files, 1);
    assert 100_000 * SECTOR / SECTOR == 100_000;
    ImageReadsBack(FAT32, 100_000 * SECTOR, hidden, files, copy, 13);
    ImageReadsBack(FAT32, 100_000 * SECTOR, hidden, files, copy, 14);
  }
}
