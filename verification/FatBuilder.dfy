/** The image builders as they run: loops over clusters, entries and nodes. */
module FatBuilder {
  import opened Results
  import opened Words
  import opened Bytes
  import opened FatGeometry
  import opened FatChains
  import opened FatImage

  /** One node's chain, entry by entry; fails at the first cluster past the table. */
  method AllocateNode(v: Variant, entries: array<nat>, first: nat, need: nat) returns (ok: bool)
    requires need > 0
    modifies entries
    ensures ok <==> first + need <= entries.Length
    ensures ok ==> entries[..] == SetChain(v, old(entries[..]), first, need)
  {
    ghost var before := entries[..];
    var k := 0;
    while k < need
      invariant 0 <= k <= need && (k > 0 ==> first + k <= entries.Length)
      invariant forall c | 0 <= c < entries.Length ::
                  entries[c] == if first <= c < first + k then ChainEntry(v, first, need, c) else before[c]
    {
      if first + k >= entries.Length { return false; }
      entries[first + k] := if k == need - 1 then Eoc(v) else first + k + 1;
      k := k + 1;
    }
    assert entries[..] == SetChain(v, before, first, need);
    return true;
  }

  method AllocateNodes(v: Variant, entries: array<nat>, needs: seq<nat>) returns (r: Result<()>)
    requires forall i | 0 <= i < |needs| :: needs[i] > 0
    modifies entries
    ensures r.Ok? ==> AllocateFrom(v, old(entries[..]), needs, 0, 2) == Ok(entries[..])
    ensures r.Err? ==> AllocateFrom(v, old(entries[..]), needs, 0, 2) == Err(r.error)
  {
    var i, next := 0, 2;
    while i < |needs|
      invariant 0 <= i <= |needs| && next >= 2
      invariant AllocateFrom(v, old(entries[..]), needs, 0, 2) == AllocateFrom(v, entries[..], needs, i, next)
    {
      var ok := AllocateNode(v, entries, next, needs[i]);
      if !ok { return Err(NoClusters); }
      i, next := i + 1, next + needs[i];
    }
    return Ok(());
  }

  /** A file's bytes, cluster by cluster along its chain. */
  method WriteFile(v: Variant, data: seq<u8>, entries: seq<nat>, first: nat, content: seq<u8>, cb: nat) returns (d: seq<u8>)
    requires cb > 0
    ensures d == WriteChain(v, data, entries, first, content, cb)
  {
    hide Assign, Last, Take, At;
    d := data;
    var remaining := content;
    var cluster: nat := first;
    while remaining != []
      invariant WriteChain(v, data, entries, first, content, cb) == WriteChain(v, d, entries, cluster, remaining, cb)
      decreases |remaining|
    {
      d := Assign(d, At(cluster, cb), Take(remaining, cb));
      if cluster >= |entries| || Last(v, entries[cluster]) { break; }
      remaining, cluster := Drop(remaining, cb), entries[cluster];
    }
  }

  method BuildDirectory(entries: seq<seq<u8>>, cb: nat) returns (dir: seq<u8>)
    ensures dir == PutEntries(Zeros(cb), entries, 0)
  {
    dir := Zeros(cb);
    var k, offset := 0, 0;
    while k < |entries|
      invariant 0 <= k <= |entries| && offset == ENTRY * k
      invariant PutEntries(Zeros(cb), entries, 0) == PutEntries(dir, entries, k)
    {
      dir := Assign(dir, offset, entries[k]);
      k, offset := k + 1, offset + ENTRY;
    }
  }

  method PackTable(v: Variant, entries: seq<nat>, size: nat) returns (fat: seq<u8>)
    requires |entries| * v.width <= size
    ensures fat == TableBytes(v, entries, size)
  {
    hide EntryBytes;
    fat := Zeros(size);
    var k := 0;
    assert entries[..0] == [];
    while k < |entries|
      invariant 0 <= k <= |entries| && k * v.width <= size
      invariant fat == TableBytes(v, entries[..k], size)
    {
      PackStep(v, entries, k, size);
      fat := Splice(fat, k * v.width, EntryBytes(v, entries[k]));
      k := k + 1;
    }
    assert entries[..|entries|] == entries;
  }

  lemma PackStep(v: Variant, entries: seq<nat>, k: nat, size: nat)
    requires k < |entries| && |entries| * v.width <= size
    ensures (k + 1) * v.width == k * v.width + v.width <= size
    ensures Splice(TableBytes(v, entries[..k], size), k * v.width, EntryBytes(v, entries[k])) == TableBytes(v, entries[..k + 1], size)
  {
    hide EntryBytes;
    assert (k + 1) * v.width <= |entries| * v.width;
    assert entries[..k + 1][..k] == entries[..k];
    PutAfter(Flat(v, entries[..k]), size - k * v.width, EntryBytes(v, entries[k]));
  }

  lemma PutAfter(a: seq<u8>, n: nat, b: seq<u8>)
    requires |b| <= n
    ensures Splice(a + Zeros(n), |a|, b) == a + b + Zeros(n - |b|)
  {
  }

  method WriteTree(v: Variant, total: nat, files: seq<File>, p: Plan) returns (data: seq<u8>)
    requires Planned(v, total, files, p)
    ensures data == DataArea(v, total, files, p)
  {
    hide WriteChain, PutEntries, EntriesOf, NeedsOf, FilesPack, AllocateFrom, Search, GeometryAt, NewTable, Assign, First;
    PlanHasRoom(v, total, files, p);
    data := Zeros(p.g.dataSectors * SECTOR);
    ghost var zeros := data;
    var i := 0;
    while i < |p.needs|
      invariant 0 <= i <= |p.needs|
      invariant WriteNodes(v, zeros, p.entries, files, p.needs, 0, p.cb) == WriteNodes(v, data, p.entries, files, p.needs, i, p.cb)
    {
      var cluster := First(p.needs, 2, i);
      if i < Dirs(v) {
        var dir := BuildDirectory(EntriesOf(v, files, p.needs, i), p.cb);
        data := Assign(data, At(cluster, p.cb), dir);
      } else {
        data := WriteFile(v, data, p.entries, cluster, files[i - Dirs(v)].data, p.cb);
      }
      i := i + 1;
    }
  }

  method PlanImage(v: Variant, total: nat, hidden: nat, files: seq<File>) returns (r: Result<Plan>)
    ensures r == MakePlan(v, total, hidden, files)
  {
    hide Search, NeedsOf, FilesPack;
    var g := FindGeometry(v, total);
    if g.Err? { return Err(g.error); }
    var geometry := g.value;
    FoundOr(v, total);
    if geometry.clusters < 0 { return Err(NoClusters); }
    var needs := NeedsOf(v, files, geometry.spc * SECTOR);
    NeedsArePositive(v, files, geometry.spc * SECTOR);
    var entries := new nat[geometry.clusters + 2](_ => 0);
    entries[0] := if v.wide then 0x0FFFFFF8 else 0xFFF8;
    entries[1] := Eoc(v);
    assert entries[..] == NewTable(v, geometry.clusters);
    var chained := AllocateNodes(v, entries, needs);
    if chained.Err? { return Err(chained.error); }
    if total >= TWO32 || hidden >= TWO32 || !FilesPack(v, files, needs) || (!v.wide && geometry.fatSectors >= 0x1_0000) {
      return Err(Unpackable);
    }
    return Ok(Plan(geometry, geometry.spc * SECTOR, needs, entries[..]));
  }

  lemma NeedsArePositive(v: Variant, files: seq<File>, cb: nat)
    requires cb > 0
    ensures forall i | 0 <= i < |NeedsOf(v, files, cb)| :: NeedsOf(v, files, cb)[i] > 0
  {
  }

  method BuildImage(v: Variant, totalBytes: nat, hidden: nat, files: seq<File>) returns (r: Result<seq<u8>>)
    ensures r == Image(v, totalBytes, hidden, files)
  {
    hide MakePlan, WriteNodes, TableBytes, FilesPack, NeedsOf, AllocateFrom, GeometryAt;
    var total := totalBytes / SECTOR;
    var p := PlanImage(v, total, hidden, files);
    if p.Err? { return Err(p.error); }
    var plan := p.value;
    PlanHasRoom(v, total, files, plan);
    var fat := PackTable(v, plan.entries, plan.g.fatSectors * SECTOR);
    var data := WriteTree(v, total, files, plan);
    var front := FrontArea(v, totalBytes, hidden, files, plan);
    return Ok(Assemble(v, plan.g, front, fat, RootDir(v, First(plan.needs, 2, 0)), data));
  }
}
