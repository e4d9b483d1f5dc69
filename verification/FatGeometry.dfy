/** Sizing the file allocation table of the boot partition: the table must describe the
    clusters that are left once the table itself has been placed. */
module FatGeometry {
  import opened Results
  import opened Words

  const SECTOR := 512

  /** What differs between the two image builders. */
  datatype Variant = Variant(wide: bool)
  {
    const reserved: nat := if wide then 32 else 1
    const rootSectors: nat := if wide then 0 else 32
    const width: nat := if wide then 4 else 2
    const firstSpc: nat := if wide then 1 else 4

    /** The cluster count is in the range of this kind of table. */
    predicate Accepts(clusters: int) { if wide then clusters >= 0xFFF5 else clusters <= 0xFFF5 }
  }

  const FAT16 := Variant(false)
  const FAT32 := Variant(true)

  datatype Geometry = Geometry(spc: nat, fatSectors: nat, dataSectors: int, clusters: int)

  datatype Error = NoGeometry | NoClusters | Unpackable

  type Result<T> = Fallible<T, Error>

  function DataSectors(v: Variant, total: nat, fat: nat): int { total - v.reserved - 2 * fat - v.rootSectors }

  /** Rounds down, also below zero. */
  function Clusters(v: Variant, total: nat, spc: nat, fat: nat): int
    requires spc > 0
  { DataSectors(v, total, fat) / spc }

  /** The table sectors that the clusters left by a table of `fat` sectors call for. */
  function Wanted(v: Variant, total: nat, spc: nat, fat: nat): int
    requires spc > 0
  { ((Clusters(v, total, spc, fat) + 2) * v.width + SECTOR - 1) / SECTOR }

  lemma WantedFalls(v: Variant, total: nat, spc: nat, fat: nat, more: nat)
    requires spc > 0 && fat <= more
    ensures Wanted(v, total, spc, more) <= Wanted(v, total, spc, fat)
  {
    DivMono(DataSectors(v, total, more), DataSectors(v, total, fat), spc);
  }

  lemma DivMono(a: int, b: int, d: int)
    requires a <= b && d > 0
    ensures a / d <= b / d
  {
    if b / d < a / d {
      assert a == d * (a / d) + a % d && b == d * (b / d) + b % d;
      assert d * (a / d) >= d * (b / d + 1) by { MulMono(d, b / d + 1, a / d); }
    }
  }

  /** Where the search for a table size ends: after at most one enlargement. */
  function TableSectors(v: Variant, total: nat, spc: nat): nat
    requires spc > 0
  {
    if Wanted(v, total, spc, 1) <= 1 then 1 else Wanted(v, total, spc, 1)
  }

  function GeometryAt(v: Variant, total: nat, spc: nat): Geometry
    requires spc > 0
  {
    var fat := TableSectors(v, total, spc);
    Geometry(spc, fat, DataSectors(v, total, fat), Clusters(v, total, spc, fat))
  }

  /** The inner loop. It enlarges the table at most once, since a larger table leaves fewer
      clusters to describe. */
  method SizeTable(v: Variant, total: nat, spc: nat) returns (g: Geometry)
    requires spc > 0
    ensures g == GeometryAt(v, total, spc)
  {
    var fat: nat := 1;
    while true
      invariant fat == 1 || (fat == TableSectors(v, total, spc) && Wanted(v, total, spc, fat) <= fat)
      decreases Wanted(v, total, spc, 1) - fat
    {
      var data := DataSectors(v, total, fat);
      var clusters := data / spc;
      var wanted := ((clusters + 2) * v.width + SECTOR - 1) / SECTOR;
      if wanted <= fat { return Geometry(spc, fat, data, clusters); }
      WantedFalls(v, total, spc, 1, wanted);
      fat := wanted;
    }
  }

  /** The table has room for an entry for every cluster and the two reserved ones. */
  lemma TableHasRoom(v: Variant, total: nat, spc: nat)
    requires spc > 0
    ensures var g := GeometryAt(v, total, spc);
            && (g.clusters + 2) * v.width <= g.fatSectors * SECTOR
            && g.clusters * spc <= g.dataSectors < (g.clusters + 1) * spc
            && v.reserved + 2 * g.fatSectors + v.rootSectors + g.dataSectors == total
  {
    var g := GeometryAt(v, total, spc);
    WantedFalls(v, total, spc, 1, g.fatSectors);
    assert Wanted(v, total, spc, g.fatSectors) <= g.fatSectors;
    var d := g.dataSectors;
    assert d == spc * (d / spc) + d % spc;
  }

  /** The outer loop, from a cluster size on. */
  function Search(v: Variant, total: nat, spc: nat): Result<Geometry>
    requires spc > 0
    decreases 256 - spc
  {
    if v.Accepts(GeometryAt(v, total, spc).clusters) then Ok(GeometryAt(v, total, spc))
    else if 2 * spc > 128 then Err(NoGeometry)
    else Search(v, total, 2 * spc)
  }

  method FindGeometry(v: Variant, total: nat) returns (r: Result<Geometry>)
    ensures r == Search(v, total, v.firstSpc)
  {
    var spc := v.firstSpc;
    while true
      invariant 0 < spc <= 128
      invariant Search(v, total, v.firstSpc) == Search(v, total, spc)
      decreases 256 - spc
    {
      var g := SizeTable(v, total, spc);
      if v.Accepts(g.clusters) { return Ok(g); }
      spc := 2 * spc;
      if spc > 128 { return Err(NoGeometry); }
    }
  }

  /** What a geometry that is found satisfies. */
  lemma {:induction false} FoundIsSound(v: Variant, total: nat, spc: nat)
    requires 0 < spc <= 128 && Search(v, total, spc).Ok?
    ensures var g := Search(v, total, spc).value;
            && spc <= g.spc <= 128 && g == GeometryAt(v, total, g.spc) && v.Accepts(g.clusters)
    decreases 256 - spc
  {
    hide GeometryAt;
    if v.Accepts(GeometryAt(v, total, spc).clusters) { SpcOf(v, total, spc); } else { FoundIsSound(v, total, 2 * spc); }
  }

  // ----- the wide table never gains from larger clusters -----

  lemma FewerClusters(total: nat, spc: nat)
    requires spc >= 2 && GeometryAt(FAT32, total, 1).clusters < 0xFFF5
    ensures GeometryAt(FAT32, total, spc).clusters < 0xFFF5
  {
    var w := Wanted(FAT32, total, 1, 1);
    assert GeometryAt(FAT32, total, 1).clusters == total - 32 - 2 * TableSectors(FAT32, total, 1);
    assert w == ((total - 34 + 2) * 4 + 511) / 512;
    assert total < 0x1_1000;
    var g := GeometryAt(FAT32, total, spc);
    assert g.dataSectors < 0x1_1000;
    HalfAtMost(g.dataSectors, spc);
  }

  lemma HalfAtMost(d: int, spc: nat)
    requires spc >= 2 && d < 0x1_1000
    ensures d / spc < 0xFFF5
  {
    if d >= 0 {
      var q := d / spc;
      assert d == spc * q + d % spc;
      assert spc * q >= 2 * q by { if q >= 0 { MulMono2(2, spc, q); } }
    }
  }

  lemma MulMono2(a: int, b: int, q: int)
    requires a <= b && q >= 0
    ensures b * q >= a * q
  {
    assert (b - a) * q >= 0;
  }

  lemma {:induction false} FutileFrom(total: nat, spc: nat)
    requires 2 <= spc <= 128 && GeometryAt(FAT32, total, 1).clusters < 0xFFF5
    ensures Search(FAT32, total, spc).Err?
    decreases 256 - spc
  {
    hide GeometryAt;
    FewerClusters(total, spc);
    if 2 * spc <= 128 { FutileFrom(total, 2 * spc); }
  }

  /** FAT32 is found at once or not at all: doubling the cluster size, as the loop does when
      there are too few clusters, never brings the count into range. */
  lemma WideSearchIsDecidedAtOnce(total: nat)
    ensures Search(FAT32, total, 1).Ok? <==> GeometryAt(FAT32, total, 1).clusters >= 0xFFF5
    ensures Search(FAT32, total, 1).Ok? ==> Search(FAT32, total, 1).value.spc == 1
  {
    hide GeometryAt;
    if GeometryAt(FAT32, total, 1).clusters < 0xFFF5 { FutileFrom(total, 2); } else { SpcOf(FAT32, total, 1); }
  }

  lemma SpcOf(v: Variant, total: nat, spc: nat)
    requires spc > 0
    ensures GeometryAt(v, total, spc).spc == spc
  {
  }
}
