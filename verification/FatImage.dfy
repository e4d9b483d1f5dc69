/** The boot partition image: directories EFI and BOOT, and the files in BOOT, laid out in
    clusters behind two copies of the allocation table. */
module FatImage {
  import opened Results
  import opened Words
  import opened Bytes
  import opened FatGeometry
  import opened FatChains

  /** A file of the BOOT directory; its name is already in the padded 8.3 form. */
  datatype File = File(name: seq<u8>, data: seq<u8>)

  const EFI_NAME: seq<u8> := [0x45, 0x46, 0x49, 0x20, 0x20, 0x20, 0x20, 0x20, 0x20, 0x20, 0x20]
  const BOOT_NAME: seq<u8> := [0x42, 0x4F, 0x4F, 0x54, 0x20, 0x20, 0x20, 0x20, 0x20, 0x20, 0x20]
  const DOT_NAME: seq<u8> := [0x2E, 0x20, 0x20, 0x20, 0x20, 0x20, 0x20, 0x20, 0x20, 0x20, 0x20]
  const DOTDOT_NAME: seq<u8> := [0x2E, 0x2E, 0x20, 0x20, 0x20, 0x20, 0x20, 0x20, 0x20, 0x20, 0x20]

  const ENTRY := 32

  // ----- directories -----

  predicate Packable(name: seq<u8>, first: nat, size: nat) { |name| == 11 && first < TWO32 && size < TWO32 }

  function DirEntry(name: seq<u8>, attr: u8, first: nat, size: nat): (r: seq<u8>)
    requires Packable(name, first, size)
    ensures |r| == ENTRY
  {
    name + [attr] + Zeros(8) + Le16(first / 0x1_0000 % 0x1_0000) + Zeros(4) + Le16(first % 0x1_0000) + Le32(size)
  }

  /** Entries written one after another into a cluster of zeros. */
  function PutEntries(dir: seq<u8>, entries: seq<seq<u8>>, k: nat): seq<u8>
    decreases |entries| - k
  {
    if k >= |entries| then dir else PutEntries(Assign(dir, ENTRY * k, entries[k]), entries, k + 1)
  }

  /** Directories come first: EFI and BOOT, and before them the root if it lives in a cluster. */
  function Dirs(v: Variant): nat { if v.wide then 3 else 2 }

  function NeedsOf(v: Variant, files: seq<File>, cb: nat): (r: seq<nat>)
    requires cb > 0
    ensures |r| == Dirs(v) + |files|
  {
    seq(Dirs(v), _ => 1) + seq(|files|, k requires 0 <= k < |files| => Needs(|files[k].data|, cb))
  }

  predicate FilesPack(v: Variant, files: seq<File>, needs: seq<nat>)
    requires |needs| == Dirs(v) + |files|
  {
    && (forall k | 0 <= k < |files| :: |files[k].name| == 11 && |files[k].data| < TWO32)
    && (forall i | 0 <= i <= |needs| :: First(needs, 2, i) < TWO32)
  }

  function FileEntries(v: Variant, files: seq<File>, needs: seq<nat>): (r: seq<seq<u8>>)
    requires |needs| == Dirs(v) + |files| && FilesPack(v, files, needs)
    ensures |r| == |files|
  {
    seq(|files|, k requires 0 <= k < |files| =>
      DirEntry(files[k].name, 0x20, First(needs, 2, Dirs(v) + k), |files[k].data|))
  }

  /** The entries of directory number i: itself, its parent, and what it contains. */
  function EntriesOf(v: Variant, files: seq<File>, needs: seq<nat>, i: nat): seq<seq<u8>>
    requires |needs| == Dirs(v) + |files| && FilesPack(v, files, needs) && i < Dirs(v)
  {
    var parent := if i > 0 then First(needs, 2, i - 1) else if v.wide then 2 else 0;
    var own := [DirEntry(DOT_NAME, 0x10, First(needs, 2, i), 0), DirEntry(DOTDOT_NAME, 0x10, parent, 0)];
    if i < Dirs(v) - 1 then own + [DirEntry(if i == Dirs(v) - 2 then BOOT_NAME else EFI_NAME, 0x10, First(needs, 2, i + 1), 0)]
    else own + FileEntries(v, files, needs)
  }

  function DirContent(v: Variant, files: seq<File>, needs: seq<nat>, i: nat, cb: nat): seq<u8>
    requires |needs| == Dirs(v) + |files| && FilesPack(v, files, needs) && i < Dirs(v)
  { PutEntries(Zeros(cb), EntriesOf(v, files, needs, i), 0) }

  // ----- the data area -----

  /** Directories are written in one piece, files along their chains. */
  function WriteNodes(v: Variant, data: seq<u8>, entries: seq<nat>, files: seq<File>, needs: seq<nat>, i: nat, cb: nat): seq<u8>
    requires cb > 0 && |needs| == Dirs(v) + |files| && FilesPack(v, files, needs)
    decreases |needs| - i
  {
    if i >= |needs| then data
    else
      var c := First(needs, 2, i);
      var d := if i < Dirs(v) then Assign(data, At(c, cb), DirContent(v, files, needs, i, cb))
               else WriteChain(v, data, entries, c, files[i - Dirs(v)].data, cb);
      WriteNodes(v, d, entries, files, needs, i + 1, cb)
  }

  // ----- the table -----

  function NewTable(v: Variant, clusters: nat): seq<nat>
  {
    seq(clusters + 2, _ => 0)[0 := if v.wide then 0x0FFFFFF8 else 0xFFF8][1 := Eoc(v)]
  }

  function EntryBytes(v: Variant, e: nat): (b: seq<u8>)
    ensures |b| == v.width
  { Le(e, v.width) }

  function Flat(v: Variant, entries: seq<nat>): (b: seq<u8>)
    ensures |b| == |entries| * v.width
  {
    if entries == [] then [] else Flat(v, entries[..|entries| - 1]) + EntryBytes(v, entries[|entries| - 1])
  }

  function TableBytes(v: Variant, entries: seq<nat>, size: nat): (b: seq<u8>)
    requires |entries| * v.width <= size
    ensures |b| == size
  { Flat(v, entries) + Zeros(size - |entries| * v.width) }

  // ----- sectors at the front -----

  // The ASCII texts ECHOSF16, ECHOSF32, ECHOS_ESP, FAT16 and FAT32, padded with blanks.
  const OEM16: seq<u8> := [0x45, 0x43, 0x48, 0x4F, 0x53, 0x46, 0x31, 0x36]
  const OEM32: seq<u8> := [0x45, 0x43, 0x48, 0x4F, 0x53, 0x46, 0x33, 0x32]
  const VOLUME: seq<u8> := [0x45, 0x43, 0x48, 0x4F, 0x53, 0x5F, 0x45, 0x53, 0x50, 0x20, 0x20]
  const KIND16: seq<u8> := [0x46, 0x41, 0x54, 0x31, 0x36, 0x20, 0x20, 0x20]
  const KIND32: seq<u8> := [0x46, 0x41, 0x54, 0x33, 0x32, 0x20, 0x20, 0x20]

  function Label(v: Variant): (b: seq<u8>)
    ensures |b| == 26
  {
    [0x80, 0, 0x29] + Le32(if v.wide then 0xEC71A132 else 0xEC71A11E) + VOLUME + (if v.wide then KIND32 else KIND16)
  }

  /** Jump, name, and the sizes of sectors, clusters and the reserved area. */
  function Sizes(v: Variant, spc: u8): (r: seq<u8>)
    ensures |r| == 17
  {
    (if v.wide then [0xEB, 0x58, 0x90] + OEM32 else [0xEB, 0x3C, 0x90] + OEM16) + Le16(SECTOR) + [spc] + Le16(v.reserved) + [2]
  }

  /** Root entries, table sectors, disk shape and totals. */
  function Totals(v: Variant, fatSectors: u16, total: u32, hidden: u32): (r: seq<u8>)
    ensures |r| == 19
  {
    var short, long := if v.wide || total >= 0x1_0000 then 0 else total, if v.wide || total >= 0x1_0000 then total else 0;
    Le16(if v.wide then 0 else 512) + Le16(short) + [0xF8] + Le16(if v.wide then 0 else fatSectors)
    + Le16(32) + Le16(64) + Le32(hidden) + Le32(long)
  }

  function BootSector(v: Variant, g: Geometry, total: u32, hidden: u32): (r: seq<u8>)
    requires g.spc < 0x100 && g.fatSectors < if v.wide then TWO32 else 0x1_0000
    ensures |r| == SECTOR
  {
    var b := Splice(Zeros(SECTOR), 0, Sizes(v, g.spc) + Totals(v, if v.wide then 0 else g.fatSectors, total, hidden));
    var b := if v.wide then Splice(Splice(b, 36, Le32(g.fatSectors)), 44, Le32(2) + Le16(1) + Le16(6)) else b;
    Splice(Splice(b, if v.wide then 64 else 36, Label(v)), 510, [0x55, 0xAA])
  }

  function FsInfo(): (r: seq<u8>)
    ensures |r| == SECTOR
  {
    var b := PutFields(Zeros(SECTOR), [Word32(0, 0x41615252), Word32(484, 0x61417272), Word32(488, 0xFFFFFFFF), Word32(492, 0xFFFFFFFF)]);
    Splice(b, 510, [0x55, 0xAA])
  }

  // ----- the image -----

  function TableStart(v: Variant, g: Geometry, copy: nat): nat { (v.reserved + copy * g.fatSectors) * SECTOR }

  function RootStart(v: Variant, g: Geometry): nat { (v.reserved + 2 * g.fatSectors) * SECTOR }

  function DataStart(v: Variant, g: Geometry): nat { (v.reserved + 2 * g.fatSectors + v.rootSectors) * SECTOR }

  function RootDir(v: Variant, efi: nat): seq<u8>
    requires efi < TWO32
  { if v.wide then [] else Assign(Zeros(v.rootSectors * SECTOR), 0, DirEntry(EFI_NAME, 0x10, efi, 0)) }

  function Front(v: Variant, totalBytes: nat, boot: seq<u8>): seq<u8>
  {
    var a := Assign(Zeros(totalBytes), 0, boot);
    if !v.wide then a
    else Assign(Assign(Assign(a, SECTOR, FsInfo()), 6 * SECTOR, boot), 7 * SECTOR, FsInfo())
  }

  function Assemble(v: Variant, g: Geometry, front: seq<u8>, fat: seq<u8>, root: seq<u8>, data: seq<u8>): seq<u8>
  {
    var a := Assign(front, TableStart(v, g, 0), fat);
    var a := Assign(a, TableStart(v, g, 1), fat);
    var a := if v.wide then a else Assign(a, RootStart(v, g), root);
    Assign(a, DataStart(v, g), data)
  }

  /** What the builder computes before it lays anything out. */
  datatype Plan = Plan(g: Geometry, cb: nat, needs: seq<nat>, entries: seq<nat>)

  function MakePlan(v: Variant, total: nat, hidden: nat, files: seq<File>): (r: Result<Plan>)
    ensures r.Ok? ==> Planned(v, total, files, r.value)
  {
    FoundOr(v, total);
    var g :- Search(v, total, v.firstSpc);
    if g.clusters < 0 then Err(NoClusters) else
    var needs := NeedsOf(v, files, g.spc * SECTOR);
    var entries :- AllocateFrom(v, NewTable(v, g.clusters), needs, 0, 2);
    if total >= TWO32 || hidden >= TWO32 || !FilesPack(v, files, needs) || (!v.wide && g.fatSectors >= 0x1_0000) then Err(Unpackable)
    else
      AllocatedFrom(v, NewTable(v, g.clusters), needs, 0, 2);
      Ok(Plan(g, g.spc * SECTOR, needs, entries))
  }

  lemma FoundOr(v: Variant, total: nat)
    ensures Search(v, total, v.firstSpc).Ok? ==>
              var g := Search(v, total, v.firstSpc).value; 0 < g.spc <= 128 && g == GeometryAt(v, total, g.spc) && v.Accepts(g.clusters)
  {
    if Search(v, total, v.firstSpc).Ok? { FoundIsSound(v, total, v.firstSpc); }
  }

  /** Clusters and table sectors are in range, and every node has its chain. */
  predicate Planned(v: Variant, total: nat, files: seq<File>, p: Plan)
  {
    && total < TWO32 && Search(v, total, v.firstSpc) == Ok(p.g) && 0 < p.g.spc <= 128 && p.g == GeometryAt(v, total, p.g.spc) && p.g.clusters >= 0 && v.Accepts(p.g.clusters)
    && p.cb == p.g.spc * SECTOR && p.needs == NeedsOf(v, files, p.cb) && FilesPack(v, files, p.needs)
    && (!v.wide ==> p.g.fatSectors < 0x1_0000)
    && |p.entries| == p.g.clusters + 2
    && AllocateFrom(v, NewTable(v, p.g.clusters), p.needs, 0, 2) == Ok(p.entries)
  }

  lemma PlanHasRoom(v: Variant, total: nat, files: seq<File>, p: Plan)
    requires Planned(v, total, files, p)
    ensures |p.entries| * v.width <= p.g.fatSectors * SECTOR
    ensures p.g.clusters * p.cb <= p.g.dataSectors * SECTOR && p.g.dataSectors >= 0
    ensures DataStart(v, p.g) + p.g.dataSectors * SECTOR == total * SECTOR
    ensures p.g.fatSectors < TWO32 && |p.entries| < TWO32
  {
    hide NeedsOf, FilesPack, AllocateFrom, NewTable, GeometryAt;
    TableHasRoom(v, total, p.g.spc);
    var g := p.g;
    SpcTimes(g.clusters, g.spc, g.dataSectors);
  }

  lemma SpcTimes(clusters: nat, spc: nat, sectors: int)
    requires spc > 0 && clusters * spc <= sectors
    ensures clusters * (spc * SECTOR) <= sectors * SECTOR && clusters <= sectors
  {
    assert clusters * (spc * SECTOR) == (clusters * spc) * SECTOR;
    assert clusters * spc >= clusters by { if clusters > 0 { MulMono(clusters, 1, spc); } }
  }

  function DataArea(v: Variant, total: nat, files: seq<File>, p: Plan): seq<u8>
    requires Planned(v, total, files, p)
  {
    PlanHasRoom(v, total, files, p);
    WriteNodes(v, Zeros(p.g.dataSectors * SECTOR), p.entries, files, p.needs, 0, p.cb)
  }

  function TableArea(v: Variant, total: nat, files: seq<File>, p: Plan): (b: seq<u8>)
    requires Planned(v, total, files, p)
    ensures |b| == p.g.fatSectors * SECTOR
  {
    PlanHasRoom(v, total, files, p);
    TableBytes(v, p.entries, p.g.fatSectors * SECTOR)
  }

  function FrontArea(v: Variant, totalBytes: nat, hidden: nat, files: seq<File>, p: Plan): seq<u8>
    requires Planned(v, totalBytes / SECTOR, files, p)
  {
    PlanHasRoom(v, totalBytes / SECTOR, files, p);
    Front(v, totalBytes, BootSector(v, p.g, totalBytes / SECTOR, if hidden < TWO32 then hidden else 0))
  }

  function Layout(v: Variant, totalBytes: nat, hidden: nat, files: seq<File>, p: Plan): seq<u8>
    requires Planned(v, totalBytes / SECTOR, files, p)
  {
    var total := totalBytes / SECTOR;
    Assemble(v, p.g, FrontArea(v, totalBytes, hidden, files, p), TableArea(v, total, files, p),
             RootDir(v, First(p.needs, 2, 0)), DataArea(v, total, files, p))
  }

  function Image(v: Variant, totalBytes: nat, hidden: nat, files: seq<File>): Result<seq<u8>>
  {
    var p :- MakePlan(v, totalBytes / SECTOR, hidden, files);
    Ok(Layout(v, totalBytes, hidden, files, p))
  }
}
