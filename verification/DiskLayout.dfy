/** The partitions of the appliance disk: a first layout, the growth of the seed partition,
    and the cascade that moves the partitions behind it. */
module DiskLayout {
  import opened Words

  const SECTOR := 512
  const MIB := 1024 * 1024
  const ALIGN := 2048

  function AlignUp(v: nat, a: nat): nat
    requires a > 0
  { (v + a - 1) / a * a }

  function Max(a: int, b: int): int { if a < b then b else a }

  /** A partition's first and last sector; the names are the positions in the list. */
  datatype Part = Part(first: int, last: int)
  {
    function Size(): int { last - first + 1 }
  }

  const ESP := 0
  const SEED := 1
  const RECOVERY := 5

  datatype Result<+T> = Ok(value: T) | TooSmall

  /** Bytes of a payload partition: at least 64 MiB, in whole MiB. */
  function Room(bytes: nat): (r: nat)
    ensures bytes <= r && 64 * MIB <= r
  {
    var up := AlignUp(bytes, MIB);
    assert bytes <= up by { AlignCovers(bytes, MIB); }
    if up < 64 * MIB then 64 * MIB else up
  }

  lemma AlignCovers(v: nat, a: nat)
    requires a > 0
    ensures v <= AlignUp(v, a) < v + a && AlignUp(v, a) % a == 0
  {
    var q, r := (v + a - 1) / a, (v + a - 1) % a;
    assert v + a - 1 == a * q + r;
    DivModUnique(q * a, a, q, 0);
  }

  /** The sizes asked for, in sectors, of all partitions but recovery. */
  function Sizes(espBytes: nat, seedBytes: nat): (s: seq<nat>)
    ensures |s| == RECOVERY
  {
    [Room(espBytes) / SECTOR, Room(seedBytes) / SECTOR, 96 * MIB / SECTOR, 96 * MIB / SECTOR, 192 * MIB / SECTOR]
  }

  lemma SizesAreAligned(espBytes: nat, seedBytes: nat)
    ensures forall i | 0 <= i < RECOVERY :: Sizes(espBytes, seedBytes)[i] % ALIGN == 0 && Sizes(espBytes, seedBytes)[i] > 0
  {
    RoomIsAligned(espBytes);
    RoomIsAligned(seedBytes);
  }

  lemma RoomIsAligned(bytes: nat)
    ensures Room(bytes) / SECTOR % ALIGN == 0 && Room(bytes) / SECTOR > 0
  {
    AlignCovers(bytes, MIB);
    var q := Room(bytes) / MIB;
    assert Room(bytes) == MIB * q;
    DivModUnique(Room(bytes), SECTOR, ALIGN * q, 0);
    DivModUnique(ALIGN * q, ALIGN, q, 0);
  }

  // ----- the specification: partitions back to back -----

  function Begin(sizes: seq<nat>, i: nat): (r: nat)
    requires i <= |sizes|
    ensures r >= ALIGN
  { if i == 0 then ALIGN else Begin(sizes, i - 1) + sizes[i - 1] }

  function Packed(sizes: seq<nat>, end: int): (s: seq<Part>)
    ensures |s| == |sizes| + 1
  {
    seq(|sizes| + 1, i requires 0 <= i <= |sizes| =>
      Part(Begin(sizes, i), if i < |sizes| then Begin(sizes, i) + sizes[i] - 1 else end))
  }

  lemma BeginStep(sizes: seq<nat>, i: nat)
    requires i < |sizes|
    ensures Begin(sizes, 0) == ALIGN && Begin(sizes, i + 1) == Begin(sizes, i) + sizes[i]
  {
  }

  lemma PackedIs(sizes: seq<nat>, end: int, layout: seq<Part>)
    requires |layout| == |sizes| + 1 && layout[|sizes|] == Part(Begin(sizes, |sizes|), end)
    requires forall k | 0 <= k < |sizes| :: layout[k] == Part(Begin(sizes, k), Begin(sizes, k) + sizes[k] - 1)
    ensures layout == Packed(sizes, end)
  {
  }

  lemma {:induction false} BeginIsAligned(sizes: seq<nat>, i: nat)
    requires i <= |sizes| && forall k | 0 <= k < |sizes| :: sizes[k] % ALIGN == 0
    ensures Begin(sizes, i) % ALIGN == 0
  {
    if i > 0 {
      BeginIsAligned(sizes, i - 1);
      var a, b := Begin(sizes, i - 1) / ALIGN, sizes[i - 1] / ALIGN;
      DivModUnique(Begin(sizes, i), ALIGN, a + b, 0);
    }
  }

  lemma AlignExact(v: nat)
    requires v % ALIGN == 0
    ensures AlignUp(v, ALIGN) == v
  {
    DivModUnique(v + ALIGN - 1, ALIGN, v / ALIGN, ALIGN - 1);
  }

  // ----- the two phases -----

  predicate Aligned(sizes: seq<nat>) { forall k | 0 <= k < |sizes| :: sizes[k] % ALIGN == 0 }

  lemma BeginsAt(sizes: seq<nat>)
    ensures Begin(sizes, 0) == ALIGN
  {
  }

  lemma NextBegin(sizes: seq<nat>, i: nat)
    requires Aligned(sizes) && i < |sizes|
    ensures Begin(sizes, i + 1) == Begin(sizes, i) + sizes[i] == AlignUp(Begin(sizes, i) + sizes[i], ALIGN)
  {
    BeginStep(sizes, i);
    BeginIsAligned(sizes, i + 1);
    AlignExact(Begin(sizes, i + 1));
  }

  /** Places partitions of the given sizes one after another, and recovery behind them. */
  method Place(sizes: seq<nat>, end: int) returns (r: Result<seq<Part>>)
    requires Aligned(sizes)
    ensures r == if Begin(sizes, |sizes|) <= end then Ok(Packed(sizes, end)) else TooSmall
  {
    hide Packed, AlignUp, Begin, Aligned;
    var layout: seq<Part> := [];
    var start: nat := ALIGN;
    BeginsAt(sizes);
    var i := 0;
    while i < |sizes|
      invariant 0 <= i <= |sizes| && |layout| == i && start == Begin(sizes, i)
      invariant forall k | 0 <= k < i :: layout[k] == Part(Begin(sizes, k), Begin(sizes, k) + sizes[k] - 1)
    {
      var last := start + sizes[i] - 1;
      layout := layout + [Part(start, last)];
      NextBegin(sizes, i);
      start := AlignUp(last + 1, ALIGN);
      i := i + 1;
    }
    layout := layout + [Part(start, end)];
    if start > end { return TooSmall; }
    PackedIs(sizes, end, layout);
    return Ok(layout);
  }

  /** The first layout, with a seed partition of 64 MiB. */
  method CreateLayout(diskBytes: nat, espBytes: nat) returns (r: Result<seq<Part>>)
    ensures var sizes, end := Sizes(espBytes, 0), diskBytes / SECTOR - 34;
            r == if Begin(sizes, RECOVERY) <= end then Ok(Packed(sizes, end)) else TooSmall
  {
    hide Begin, Packed;
    var sizes := [Room(espBytes) / SECTOR, 64 * MIB / SECTOR, 96 * MIB / SECTOR, 96 * MIB / SECTOR, 192 * MIB / SECTOR];
    RoomGrows(0);
    assert sizes == Sizes(espBytes, 0);
    SizesAreAligned(espBytes, 0);
    r := Place(sizes, diskBytes / SECTOR - 34);
  }

  /** Moves every partition that its predecessor has grown into, keeping its size. */
  method Cascade(before: seq<Part>, sizes: seq<nat>) returns (layout: seq<Part>)
    requires |before| == |sizes| + 1 && |sizes| > SEED && (forall k | 0 <= k < |sizes| :: sizes[k] % ALIGN == 0 && sizes[k] > 0)
    requires before[0] == Part(Begin(sizes, 0), Begin(sizes, 0) + sizes[0] - 1)
    requires forall k | 0 <= k < |sizes| :: before[k].Size() == sizes[k]
    requires forall k | 0 <= k <= |sizes| :: before[k].first <= Begin(sizes, k)
    ensures |layout| == |before|
    ensures forall k | 0 <= k < |sizes| :: layout[k] == Part(Begin(sizes, k), Begin(sizes, k) + sizes[k] - 1)
    ensures layout[|sizes|].first == Begin(sizes, |sizes|)
  {
    layout := before;
    var i := 1;
    while i < |layout|
      invariant 1 <= i <= |layout| == |before|
      invariant forall k | 0 <= k < i && k < |sizes| :: layout[k] == Part(Begin(sizes, k), Begin(sizes, k) + sizes[k] - 1)
      invariant i == |layout| ==> layout[|sizes|].first == Begin(sizes, |sizes|)
      invariant forall k | i <= k < |layout| :: layout[k] == before[k]
    {
      var prev, current := layout[i - 1], layout[i];
      assert prev.last + 1 == Begin(sizes, i);
      if current.first <= prev.last {
        BeginIsAligned(sizes, i);
        AlignExact(prev.last + 1);
        var first := AlignUp(prev.last + 1, ALIGN);
        layout := layout[i := Part(first, first + current.Size() - 1)];
      }
      i := i + 1;
    }
  }

  /** The whole sizing: it succeeds exactly when the partitions fit in front of the backup
      partition table, and then packs them back to back. */
  method SizeDisk(diskBytes: nat, espBytes: nat, seedBytes: nat) returns (r: Result<seq<Part>>)
    ensures var sizes, end := Sizes(espBytes, seedBytes), diskBytes / SECTOR - 34;
            r == if Begin(sizes, RECOVERY) <= end then Ok(Packed(sizes, end)) else TooSmall
  {
    hide Sizes, Room, Begin, Packed;
    var sizes, small := Sizes(espBytes, seedBytes), Sizes(espBytes, 0);
    var end := diskBytes / SECTOR - 34;
    SizesAreAligned(espBytes, seedBytes);
    GrownSeed(espBytes, seedBytes);
    var l := CreateLayout(diskBytes, espBytes);
    if l.TooSmall? { return TooSmall; }
    var layout := l.value;
    SeedGrows(small, sizes, end);
    layout := layout[SEED := Part(layout[SEED].first, layout[SEED].first + sizes[SEED] - 1)];
    layout := Cascade(layout, sizes);
    layout := layout[RECOVERY := Part(layout[RECOVERY].first, end)];
    if layout[RECOVERY].first > end { return TooSmall; }
    PackedIs(sizes, end, layout);
    return Ok(layout);
  }

  /** Growing the seed partition alone leaves a list on which the cascade works. */
  lemma SeedGrows(small: seq<nat>, sizes: seq<nat>, end: int)
    requires |small| == |sizes| == RECOVERY && (forall i | 0 <= i < RECOVERY && i != SEED :: small[i] == sizes[i])
    requires forall i | 0 <= i <= RECOVERY :: Begin(small, i) <= Begin(sizes, i)
    ensures var l := Packed(small, end); var g := l[SEED := Part(l[SEED].first, l[SEED].first + sizes[SEED] - 1)];
            && g[0] == Part(Begin(sizes, 0), Begin(sizes, 0) + sizes[0] - 1)
            && (forall k | 0 <= k < RECOVERY :: g[k].Size() == sizes[k])
            && (forall k | 0 <= k <= RECOVERY :: g[k].first <= Begin(sizes, k))
  {
    BeginStep(small, 0);
    BeginStep(sizes, 0);
    hide Begin;
  }

  /** With the seed partition at its first size, every later partition begins no later. */
  lemma GrownSeed(espBytes: nat, seedBytes: nat)
    ensures var a, b := Sizes(espBytes, 0), Sizes(espBytes, seedBytes);
            && (forall i | 0 <= i < RECOVERY && i != SEED :: a[i] == b[i]) && a[SEED] <= b[SEED]
            && (forall i | 0 <= i <= RECOVERY :: Begin(a, i) <= Begin(b, i)) && Begin(a, SEED) == Begin(b, SEED)
  {
    var a, b := Sizes(espBytes, 0), Sizes(espBytes, seedBytes);
    RoomGrows(seedBytes);
    forall i | 0 <= i < RECOVERY && i != SEED ensures a[i] == b[i] {}
    hide Sizes;
    forall i | 0 <= i <= RECOVERY ensures Begin(a, i) <= Begin(b, i) { BeginGrows(a, b, i); }
    assert Begin(a, 1) == ALIGN + a[0] && Begin(b, 1) == ALIGN + b[0];
  }

  lemma RoomGrows(bytes: nat)
    ensures Room(0) == 64 * MIB && Room(0) / SECTOR <= Room(bytes) / SECTOR
  {
    AlignCovers(0, MIB);
    RoomSectors(0);
    RoomSectors(bytes);
  }

  lemma {:induction false} BeginGrows(a: seq<nat>, b: seq<nat>, i: nat)
    requires |a| == |b| && i <= |a| && forall k | 0 <= k < |a| :: a[k] <= b[k]
    ensures Begin(a, i) <= Begin(b, i)
  {
    if i > 0 { BeginGrows(a, b, i - 1); }
  }

  // ----- what a packed layout guarantees -----

  lemma {:induction false} PackedInOrder(sizes: seq<nat>, i: nat, j: nat)
    requires i < j <= |sizes|
    ensures Begin(sizes, i) + sizes[i] <= Begin(sizes, j)
    decreases j
  {
    if i < j - 1 { PackedInOrder(sizes, i, j - 1); }
  }

  /** Every layout that is accepted is ordered and disjoint, starts each partition on a
      multiple of 2048 sectors, gives each at least the bytes it was asked for, and ends
      before the backup partition table, which takes the last 33 sectors. */
  lemma LayoutIsSound(diskBytes: nat, espBytes: nat, seedBytes: nat, i: nat, j: nat)
    requires var sizes := Sizes(espBytes, seedBytes); Begin(sizes, RECOVERY) <= diskBytes / SECTOR - 34
    requires i < j <= RECOVERY
    ensures var sizes := Sizes(espBytes, seedBytes); var l := Packed(sizes, diskBytes / SECTOR - 34);
            && ALIGN <= l[i].first <= l[i].last < l[j].first <= l[j].last <= diskBytes / SECTOR - 34
            && l[i].first % ALIGN == 0 && l[j].first % ALIGN == 0 && l[i].Size() == sizes[i]
            && espBytes <= l[ESP].Size() * SECTOR && seedBytes <= l[SEED].Size() * SECTOR
  {
    var sizes := Sizes(espBytes, seedBytes);
    SizesAreAligned(espBytes, seedBytes);
    assert espBytes <= sizes[ESP] * SECTOR && seedBytes <= sizes[SEED] * SECTOR by {
      RoomSectors(espBytes);
      RoomSectors(seedBytes);
    }
    hide Sizes, Room;
    BeginIsAligned(sizes, i);
    BeginIsAligned(sizes, j);
    PackedInOrder(sizes, i, j);
    if j < RECOVERY { PackedInOrder(sizes, j, RECOVERY); }
  }

  lemma RoomSectors(bytes: nat)
    ensures Room(bytes) / SECTOR * SECTOR == Room(bytes) >= bytes
  {
    AlignCovers(bytes, MIB);
    var q := Room(bytes) / MIB;
    assert Room(bytes) == MIB * q;
    DivModUnique(Room(bytes), SECTOR, ALIGN * q, 0);
  }

  /** The disk size chosen when none larger is requested. */
  function MinimumDisk(espBytes: nat, seedBytes: nat): nat
  {
    AlignUp(Room(espBytes) + Room(seedBytes) + 96 * MIB + 96 * MIB + 192 * MIB + 128 * MIB, MIB)
  }

  /** With the disk size that the builder picks, the layout is never refused, and recovery
      gets at least 126 MiB. */
  lemma MinimumDiskSuffices(requested: nat, espBytes: nat, seedBytes: nat)
    ensures var disk := Max(requested, MinimumDisk(espBytes, seedBytes)); var sizes := Sizes(espBytes, seedBytes);
            Begin(sizes, RECOVERY) + 126 * MIB / SECTOR <= disk / SECTOR - 34
  {
    var sizes := Sizes(espBytes, seedBytes);
    var need := Room(espBytes) + Room(seedBytes) + 96 * MIB + 96 * MIB + 192 * MIB + 128 * MIB;
    AlignCovers(need, MIB);
    RoomSectors(espBytes);
    RoomSectors(seedBytes);
    assert Begin(sizes, 5) == Begin(sizes, 4) + sizes[4];
    assert Begin(sizes, 3) == Begin(sizes, 2) + sizes[2];
    assert Begin(sizes, 1) == ALIGN + sizes[0];
  }
}
