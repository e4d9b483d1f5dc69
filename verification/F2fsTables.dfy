/** The last phase of the builder: superblock, checkpoints and the index tables are written
    around the main area. */
module F2fsTables {
  import opened Results
  import opened Words
  import opened Bytes
  import opened F2fsFormat
  import opened F2fsSegments
  import opened F2fsNode
  import opened F2fsTree

  /** The checksum is left open: nothing below depends on how it is computed. */
  type Crc = seq<u8> -> u32

  const SUPER := 1024

  function SuperFields(segs: u32): (fields: seq<Word32>)
    ensures Ordered(fields, BLOCK - SUPER)
  {
    [Word32(0, 0xF2F52010), Word32(8, 9), Word32(12, 3), Word32(16, 12), Word32(20, 5), Word32(56, 1), Word32(60, 1), Word32(64, 2),
     Word32(68, segs), Word32(76, CP), Word32(80, SIT), Word32(84, NAT), Word32(88, SSA), Word32(92, MAIN), Word32(96, ROOT_INO), Word32(0x680, 0)]
  }

  function SuperBytes(segs: u32): (r: seq<u8>)
    ensures |r| == BLOCK
  { PutFields(Zeros(BLOCK), SuperFields(segs)) }

  function CheckpointBytes(version: u64, crc: Crc): (r: seq<u8>)
    ensures |r| == BLOCK
  {
    var b := Splice(Zeros(BLOCK), 0, Le64(version));
    var b := PutFields(b, [Word32(132, 5), Word32(136, 1), Word32(156, 0), Word32(160, 0), Word32(164, BLOCK - 4)]);
    Splice(b, BLOCK - 4, Le32(crc(b[..BLOCK - 4])))
  }

  // ----- node table -----

  /** Where a copy of the node table keeps the entry of nid. */
  function NatOffset(copy: nat, nid: nat): nat
  {
    (NAT + copy * BLOCKS_PER_SEG + nid / NATS_PER_BLOCK) * BLOCK + nid % NATS_PER_BLOCK * NAT_ENTRY
  }

  function NatBytes(nid: u32, e: NatEntry): (b: seq<u8>)
    requires e.addr < TWO32
    ensures |b| == NAT_ENTRY
  { [e.version % 256] + Le32(nid) + Le32(e.addr) }

  function PutNat(img: seq<u8>, nid: nat, e: NatEntry): (r: Result<seq<u8>>)
    ensures r.Ok? ==> |r.value| == |img|
  {
    if nid >= TWO32 || e.addr >= TWO32 then Err(OutOfRange) else
    var a :- Put(img, NatOffset(0, nid), NatBytes(nid, e));
    Put(a, NatOffset(1, nid), NatBytes(nid, e))
  }

  /** The entries from nid on, in the order in which the nodes were made. */
  function NatFrom(img: seq<u8>, nats: map<nat, NatEntry>, nid: nat, end: nat): (r: Result<seq<u8>>)
    ensures r.Ok? ==> |r.value| == |img|
    decreases end - nid
  {
    if nid >= end then Ok(img)
    else if nid !in nats then NatFrom(img, nats, nid + 1, end)
    else
      var a :- PutNat(img, nid, nats[nid]);
      NatFrom(a, nats, nid + 1, end)
  }

  // ----- segment table -----

  function SitOffset(copy: nat, seg: nat): nat
  {
    (SIT + copy * BLOCKS_PER_SEG + seg / SITS_PER_BLOCK) * BLOCK + seg % SITS_PER_BLOCK * SIT_ENTRY
  }

  function SitBytes(e: SitEntry): (b: seq<u8>)
    requires e.vblocks < 0x1_0000
    ensures |b| == 2 + |e.valid|
  { Le16(e.vblocks) + e.valid }

  function PutSit(img: seq<u8>, seg: nat, e: SitEntry): (r: Result<seq<u8>>)
    ensures r.Ok? ==> |r.value| == |img|
  {
    if e.vblocks >= 0x1_0000 then Err(OutOfRange) else
    var a :- Put(img, SitOffset(0, seg), SitBytes(e));
    Put(a, SitOffset(1, seg), SitBytes(e))
  }

  function SitFrom(img: seq<u8>, sit: seq<SitEntry>, seg: nat): (r: Result<seq<u8>>)
    ensures r.Ok? ==> |r.value| == |img|
    decreases |sit| - seg
  {
    if seg >= |sit| then Ok(img)
    else
      var a :- PutSit(img, seg, sit[seg]);
      SitFrom(a, sit, seg + 1)
  }

  // ----- summaries -----

  function SummaryOf(a: Area, i: nat): (b: seq<u8>)
    ensures |b| == BLOCK
  { if i < a.segs then a.summaries[i] else Zeros(BLOCK) }

  function SsaFrom(img: seq<u8>, a: Area, i: nat): (r: seq<u8>)
    requires (SSA + SSA_BLOCKS) * BLOCK <= |img|
    ensures |r| == |img|
    decreases SSA_BLOCKS - i
  {
    if i >= SSA_BLOCKS then img else SsaFrom(Splice(img, (SSA + i) * BLOCK, SummaryOf(a, i)), a, i + 1)
  }

  // ----- the whole image -----

  function Cleared(img: seq<u8>, first: nat): (r: seq<u8>)
    requires (first + 2 * BLOCKS_PER_SEG) * BLOCK <= |img|
    ensures |r| == |img|
  { Splice(img, first * BLOCK, Zeros(2 * BLOCKS_PER_SEG * BLOCK)) }

  function Headers(img: seq<u8>, segs: u32, crc: Crc): (r: seq<u8>)
    requires MAIN * BLOCK <= |img|
    ensures |r| == |img|
  {
    var a := Splice(img, SUPER, SuperBytes(segs));
    var a := Splice(a, CP * BLOCK, CheckpointBytes(1, crc));
    Splice(a, (CP + BLOCKS_PER_SEG) * BLOCK, CheckpointBytes(2, crc))
  }

  function Build(f: Fs, crc: Crc): (r: Result<seq<u8>>)
    ensures r.Ok? ==> |r.value| == |f.image|
  {
    if |f.image| < MAIN * BLOCK || f.area.segs >= TWO32 then Err(OutOfRange) else
    var a := Headers(f.image, f.area.segs, crc);
    var a :- NatFrom(Cleared(a, NAT), f.nats, 0, f.nextNid);
    var a :- SitFrom(Cleared(a, SIT), f.area.sit, 0);
    Ok(SsaFrom(a, f.area, 0))
  }
}
