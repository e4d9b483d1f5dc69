/** The contents of single blocks: inodes and directories. */
module F2fsNode {
  import opened Results
  import opened Words
  import opened Bytes
  import opened F2fsFormat
  import opened F2fsSegments

  type Name = seq<u8>

  datatype Entry = Entry(name: Name, ino: nat, isDir: bool)

  /** `struct.pack_into`: fails when the field does not lie inside the block. */
  function Put(block: seq<u8>, off: nat, bytes: seq<u8>): (r: Result<seq<u8>>)
    ensures r.Ok? ==> |r.value| == |block|
  {
    if off + |bytes| <= |block| then Ok(Splice(block, off, bytes)) else Err(OutOfRange)
  }

  // ----- inodes -----

  function Mode(isDir: bool): u16 { if isDir then 0x41ED else 0x81A4 }

  function InodeHead(isDir: bool, size: u64): (b: seq<u8>)
    ensures |b| == BLOCK
  {
    var b := Splice(Zeros(BLOCK), 0, Le16(Mode(isDir)));
    var b := Splice(b, I_INLINE, [0]);
    var b := Splice(b, I_SIZE, Le64(size));
    Splice(b, I_NLINK, Le32(if isDir then 2 else 1))
  }

  /** The pointers from the k-th on, written one after another. */
  function PutPointers(block: seq<u8>, direct: seq<nat>, k: nat): Result<seq<u8>>
    decreases |direct| - k
  {
    if k >= |direct| then Ok(block)
    else if direct[k] >= TWO32 then Err(OutOfRange)
    else
      var b :- Put(block, I_ADDR + 4 * k, Le32(direct[k]));
      PutPointers(b, direct, k + 1)
  }

  function InodeBytes(isDir: bool, size: nat, direct: seq<nat>): Result<seq<u8>>
  {
    if size >= TWO64 then Err(OutOfRange) else PutPointers(InodeHead(isDir, size), direct, 0)
  }

  function SizeAt(inode: seq<u8>): nat
    requires |inode| == BLOCK
  { FromLe(inode[I_SIZE..I_SIZE + 8]) }

  const MAX_POINTERS := (BLOCK - I_ADDR) / 4

  function PointerAt(inode: seq<u8>, k: nat): nat
    requires |inode| == BLOCK && k < MAX_POINTERS
  { FromLe(inode[I_ADDR + 4 * k..I_ADDR + 4 * k + 4]) }

  lemma {:induction false} PointersFrom(block: seq<u8>, direct: seq<nat>, k: nat)
    requires |block| == BLOCK && k <= |direct|
    requires PutPointers(block, direct, k).Ok?
    ensures var r := PutPointers(block, direct, k).value;
            && |r| == BLOCK
            && (k < |direct| ==> |direct| <= MAX_POINTERS)
            && (forall lo: nat, hi: nat | lo <= hi <= I_ADDR + 4 * k && hi <= BLOCK :: r[lo..hi] == block[lo..hi])
            && forall j | k <= j < |direct| :: j < MAX_POINTERS && PointerAt(r, j) == direct[j]
    decreases |direct| - k
  {
    if k < |direct| {
      hide FromLe, Le32, Splice;
      var i := I_ADDR + 4 * k;
      var b := Splice(block, i, Le32(direct[k]));
      PointersFrom(b, direct, k + 1);
      var r := PutPointers(block, direct, k).value;
      forall lo: nat, hi: nat | lo <= hi <= i && hi <= BLOCK ensures r[lo..hi] == block[lo..hi] {
        SpliceElsewhere(block, i, Le32(direct[k]), lo, hi);
      }
      SpliceInside(block, i, Le32(direct[k]), i, i + 4);
      assert r[i..i + 4] == b[i..i + 4];
      Le32RoundTrip(direct[k]);
      assert Le32(direct[k])[0..4] == Le32(direct[k]);
    }
  }

  lemma HeadHoldsSize(isDir: bool, size: u64)
    ensures SizeAt(InodeHead(isDir, size)) == size
  {
    hide FromLe, Le64, Le32, Le16, Splice;
    var b := Splice(Splice(Zeros(BLOCK), 0, Le16(Mode(isDir))), I_INLINE, [0]);
    var c := Splice(b, I_SIZE, Le64(size));
    SpliceInside(b, I_SIZE, Le64(size), I_SIZE, I_SIZE + 8);
    SpliceElsewhere(c, I_NLINK, Le32(if isDir then 2 else 1), I_SIZE, I_SIZE + 8);
    Le64RoundTrip(size);
    assert Le64(size)[0..8] == Le64(size);
  }

  /** An inode gives back its size and its pointers; it holds at most 934 of them. */
  lemma InodeReadsBack(isDir: bool, size: nat, direct: seq<nat>)
    requires InodeBytes(isDir, size, direct).Ok?
    ensures var r := InodeBytes(isDir, size, direct).value;
            && |r| == BLOCK && SizeAt(r) == size && |direct| <= MAX_POINTERS
            && forall k | 0 <= k < |direct| :: PointerAt(r, k) == direct[k]
  {
    hide FromLe, InodeHead;
    var h := InodeHead(isDir, size);
    var r := InodeBytes(isDir, size, direct).value;
    PointersFrom(h, direct, 0);
    HeadHoldsSize(isDir, size);
    assert r[I_SIZE..I_SIZE + 8] == h[I_SIZE..I_SIZE + 8];
  }

  /** The pointers fit exactly when there are at most 934. */
  lemma {:induction false} PointersFit(block: seq<u8>, direct: seq<nat>, k: nat)
    requires |block| == BLOCK && k <= |direct| && forall j | 0 <= j < |direct| :: direct[j] < TWO32
    ensures PutPointers(block, direct, k).Ok? <==> k == |direct| || |direct| <= MAX_POINTERS
    decreases |direct| - k
  {
    if k < |direct| && I_ADDR + 4 * k + 4 <= BLOCK { PointersFit(Splice(block, I_ADDR + 4 * k, Le32(direct[k])), direct, k + 1); }
  }

  // ----- directories -----

  const DENTRY_SLOTS := 214
  const SLOT_LEN := 8
  const DENTRY := 30
  const DENTRY_SIZE := 11
  const FILENAMES := DENTRY + DENTRY_SIZE * DENTRY_SLOTS

  /** `block[slot // 8] |= 1 << (slot % 8)`. */
  function SetBit(block: seq<u8>, slot: nat): (r: Result<seq<u8>>)
    ensures r.Ok? ==> |r.value| == |block|
  {
    if slot / 8 >= |block| then Err(OutOfRange)
    else Ok(block[slot / 8 := OrByte(block[slot / 8], Mask(slot % 8))])
  }

  function SetBits(block: seq<u8>, slot: nat, end: nat): (r: Result<seq<u8>>)
    ensures r.Ok? ==> |r.value| == |block|
    decreases end - slot
  {
    if slot >= end then Ok(block)
    else
      var b :- SetBit(block, slot);
      SetBits(b, slot + 1, end)
  }

  function SlotsOf(name: Name): nat { (|name| + SLOT_LEN - 1) / SLOT_LEN }

  function EntryFields(block: seq<u8>, slot: nat, e: Entry): (r: Result<seq<u8>>)
    ensures r.Ok? ==> |r.value| == |block|
  {
    if e.ino >= TWO32 || |e.name| >= 0x1_0000 then Err(OutOfRange) else
    var off := DENTRY + slot * DENTRY_SIZE;
    var b :- Put(block, off + 4, Le32(e.ino));
    var b :- Put(b, off + 8, Le16(|e.name|));
    Put(b, off + 10, [if e.isDir then 2 else 1])
  }

  function AddEntry(block: seq<u8>, slot: nat, e: Entry): (r: Result<seq<u8>>)
    ensures r.Ok? ==> |r.value| >= |block|
  {
    var b :- SetBit(block, slot);
    var b :- EntryFields(b, slot, e);
    SetBits(Assign(b, FILENAMES + slot * SLOT_LEN, e.name), slot + 1, slot + SlotsOf(e.name))
  }

  function DirFrom(block: seq<u8>, entries: seq<Entry>, slot: nat): (r: Result<seq<u8>>)
    ensures r.Ok? ==> |r.value| >= |block|
    decreases |entries| - slot
  {
    if slot >= |entries| then Ok(block)
    else
      var b :- AddEntry(block, slot, entries[slot]);
      DirFrom(b, entries, slot + 1)
  }

  /** The block of a directory; fails when the entries do not fit one block. */
  function DirBytes(entries: seq<Entry>): (r: Result<seq<u8>>)
    ensures r.Ok? ==> |r.value| == BLOCK
  {
    var b :- DirFrom(Zeros(BLOCK), entries, 0);
    if |b| != BLOCK then Err(NotOneBlock) else Ok(b)
  }

  /** A name that takes one slot. */
  predicate Short(e: Entry) { 0 < |e.name| <= SLOT_LEN }

  /** Slot number `slot` of the block is in use and describes e. */
  predicate Holds(block: seq<u8>, slot: nat, e: Entry)
    requires |block| == BLOCK && slot < DENTRY_SLOTS && Short(e)
  {
    var off, n := DENTRY + slot * DENTRY_SIZE, FILENAMES + slot * SLOT_LEN;
    && Bit(block[slot / 8], slot % 8)
    && FromLe(block[off + 4..off + 8]) == e.ino
    && FromLe(block[off + 8..off + 10]) == |e.name|
    && block[off + 10] == (if e.isDir then 2 else 1)
    && block[n..n + |e.name|] == e.name
  }

  lemma SetBitReads(block: seq<u8>, slot: nat, other: nat)
    requires |block| == BLOCK && slot < DENTRY_SLOTS && other < DENTRY_SLOTS
    ensures var r := SetBit(block, slot);
            && r.Ok? && r.value[27..] == block[27..]
            && (Bit(r.value[other / 8], other % 8) <==> (other == slot || Bit(block[other / 8], other % 8)))
  {
    hide Bit, OrByte, Mask;
    SetByte(block[slot / 8], slot % 8);
  }

  lemma FieldsRead(block: seq<u8>, slot: nat, e: Entry)
    requires |block| == BLOCK && slot < DENTRY_SLOTS && EntryFields(block, slot, e).Ok?
    ensures var r, off := EntryFields(block, slot, e).value, DENTRY + slot * DENTRY_SIZE;
            && FromLe(r[off + 4..off + 8]) == e.ino && FromLe(r[off + 8..off + 10]) == |e.name|
            && r[off + 10] == (if e.isDir then 2 else 1)
            && r[..off + 4] == block[..off + 4] && r[off + 11..] == block[off + 11..]
  {
    hide FromLe, Le32, Le16, Splice;
    var off := DENTRY + slot * DENTRY_SIZE;
    var b1 := Splice(block, off + 4, Le32(e.ino));
    var b2 := Splice(b1, off + 8, Le16(|e.name|));
    var kind := [if e.isDir then 2 else 1];
    SpliceInside(block, off + 4, Le32(e.ino), off + 4, off + 8);
    SpliceElsewhere(b1, off + 8, Le16(|e.name|), off + 4, off + 8);
    SpliceElsewhere(b2, off + 10, kind, off + 4, off + 8);
    SpliceInside(b1, off + 8, Le16(|e.name|), off + 8, off + 10);
    SpliceElsewhere(b2, off + 10, kind, off + 8, off + 10);
    SpliceInside(b2, off + 10, kind, off + 10, off + 11);
    Ends(block, off + 4, Le32(e.ino), off + 4, off + 11);
    Ends(b1, off + 8, Le16(|e.name|), off + 4, off + 11);
    Ends(b2, off + 10, kind, off + 4, off + 11);
    Le32RoundTrip(e.ino);
    Le16RoundTrip(|e.name|);
    assert Le32(e.ino)[0..4] == Le32(e.ino) && Le16(|e.name|)[0..2] == Le16(|e.name|);
    var r := Splice(b2, off + 10, kind);
    assert r[off + 10] == r[off + 10..off + 11][0];
  }

  /** A change strictly between lo and hi keeps both ends. */
  lemma Ends(s: seq<u8>, i: nat, b: seq<u8>, lo: nat, hi: nat)
    requires lo <= i && i + |b| <= hi <= |s|
    ensures Splice(s, i, b)[..lo] == s[..lo] && Splice(s, i, b)[hi..] == s[hi..]
  {
  }

  /** What reading slot `other` looks at, apart from its bit, is the same in both blocks. */
  predicate SameSlot(b: seq<u8>, c: seq<u8>, other: nat)
    requires |b| == BLOCK == |c| && other < DENTRY_SLOTS
  {
    var off, n := DENTRY + other * DENTRY_SIZE, FILENAMES + other * SLOT_LEN;
    b[off..off + DENTRY_SIZE] == c[off..off + DENTRY_SIZE] && b[n..n + SLOT_LEN] == c[n..n + SLOT_LEN]
  }

  lemma SlotStays(b: seq<u8>, c: seq<u8>, other: nat, e: Entry)
    requires |b| == BLOCK == |c| && other < DENTRY_SLOTS && Short(e) && SameSlot(b, c, other) && Holds(b, other, e)
    requires Bit(c[other / 8], other % 8)
    ensures Holds(c, other, e)
  {
    hide FromLe, Bit;
    var off, n := DENTRY + other * DENTRY_SIZE, FILENAMES + other * SLOT_LEN;
    Sub(b, off, off + DENTRY_SIZE, off + 4, off + 8);
    Sub(c, off, off + DENTRY_SIZE, off + 4, off + 8);
    Sub(b, off, off + DENTRY_SIZE, off + 8, off + 10);
    Sub(c, off, off + DENTRY_SIZE, off + 8, off + 10);
    assert b[off + 10] == b[off..off + DENTRY_SIZE][10] && c[off + 10] == c[off..off + DENTRY_SIZE][10];
    Sub(b, n, n + SLOT_LEN, n, n + |e.name|);
    Sub(c, n, n + SLOT_LEN, n, n + |e.name|);
  }

  /** The block after its entry's bit and fields, and what it keeps. */
  lemma AddShortParts(block: seq<u8>, slot: nat, e: Entry)
    requires |block| == BLOCK && Short(e) && AddEntry(block, slot, e).Ok? && |AddEntry(block, slot, e).value| == BLOCK
    ensures slot < DENTRY_SLOTS
    ensures var b1 := SetBit(block, slot);
            && b1.Ok? && EntryFields(b1.value, slot, e).Ok?
            && AddEntry(block, slot, e).value == Splice(EntryFields(b1.value, slot, e).value, FILENAMES + slot * SLOT_LEN, e.name)
  {
    hide SetBit, EntryFields, Splice;
    assert SlotsOf(e.name) == 1;
  }

  lemma AddShortHolds(block: seq<u8>, slot: nat, e: Entry)
    requires |block| == BLOCK && Short(e) && AddEntry(block, slot, e).Ok? && |AddEntry(block, slot, e).value| == BLOCK
    ensures slot < DENTRY_SLOTS && Holds(AddEntry(block, slot, e).value, slot, e)
  {
    hide AddEntry, SetBit, EntryFields, FromLe, Bit, Splice;
    AddShortParts(block, slot, e);
    var off, n := DENTRY + slot * DENTRY_SIZE, FILENAMES + slot * SLOT_LEN;
    var b1 := SetBit(block, slot).value;
    var b2 := EntryFields(b1, slot, e).value;
    var r := AddEntry(block, slot, e).value;
    SetBitReads(block, slot, slot);
    FieldsRead(b1, slot, e);
    SpliceElsewhere(b2, n, e.name, off + 4, off + 8);
    SpliceElsewhere(b2, n, e.name, off + 8, off + 10);
    SpliceElsewhere(b2, n, e.name, off + 10, off + 11);
    assert r[off + 10] == r[off + 10..off + 11][0] && b2[off + 10] == b2[off + 10..off + 11][0];
    SpliceInside(b2, n, e.name, n, n + |e.name|);
    assert e.name[0..|e.name|] == e.name;
    AddShortKeeps(block, slot, e, slot / 8, slot / 8 + 1);
    assert r[slot / 8] == r[slot / 8..slot / 8 + 1][0] && b1[slot / 8] == b1[slot / 8..slot / 8 + 1][0];
  }

  /** Outside the slot's own bit, fields and name, the block is the old one. */
  lemma AddShortKeeps(block: seq<u8>, slot: nat, e: Entry, lo: nat, hi: nat)
    requires |block| == BLOCK && Short(e) && AddEntry(block, slot, e).Ok? && |AddEntry(block, slot, e).value| == BLOCK
    requires lo <= hi <= BLOCK
    requires var off, n := DENTRY + slot * DENTRY_SIZE, FILENAMES + slot * SLOT_LEN;
             (hi <= off + 4 || off + 11 <= lo) && (hi <= n || n + |e.name| <= lo)
    ensures slot < DENTRY_SLOTS && SetBit(block, slot).Ok?
    ensures AddEntry(block, slot, e).value[lo..hi] == SetBit(block, slot).value[lo..hi]
    ensures 27 <= lo ==> AddEntry(block, slot, e).value[lo..hi] == block[lo..hi]
  {
    hide AddEntry, SetBit, EntryFields, FromLe, Splice;
    AddShortParts(block, slot, e);
    var off, n := DENTRY + slot * DENTRY_SIZE, FILENAMES + slot * SLOT_LEN;
    var b1 := SetBit(block, slot).value;
    var b2 := EntryFields(b1, slot, e).value;
    SetBitReads(block, slot, slot);
    FieldsRead(b1, slot, e);
    SpliceElsewhere(b2, n, e.name, lo, hi);
    Between(b2, b1, off + 4, off + 11, lo, hi);
    if 27 <= lo { Between(b1, block, 0, 27, lo, hi); }
  }

  lemma AddShortElsewhere(block: seq<u8>, slot: nat, e: Entry, other: nat)
    requires |block| == BLOCK && Short(e) && AddEntry(block, slot, e).Ok? && |AddEntry(block, slot, e).value| == BLOCK
    requires other < DENTRY_SLOTS && other != slot
    ensures var r := AddEntry(block, slot, e).value;
            SameSlot(block, r, other) && (Bit(r[other / 8], other % 8) <==> Bit(block[other / 8], other % 8))
  {
    hide AddEntry, SetBit, Bit, EntryFields, Splice, Assign;
    var o, m := DENTRY + other * DENTRY_SIZE, FILENAMES + other * SLOT_LEN;
    AddShortParts(block, slot, e);
    AddShortKeeps(block, slot, e, o, o + DENTRY_SIZE);
    AddShortKeeps(block, slot, e, m, m + SLOT_LEN);
    AddShortKeeps(block, slot, e, other / 8, other / 8 + 1);
    SetBitReads(block, slot, other);
    var r, b1 := AddEntry(block, slot, e).value, SetBit(block, slot).value;
    assert r[other / 8] == r[other / 8..other / 8 + 1][0] && b1[other / 8] == b1[other / 8..other / 8 + 1][0];
  }

  /** The first `slot` entries are in their slots, and no other slot is in use. */
  ghost predicate Lists(block: seq<u8>, entries: seq<Entry>, slot: nat)
    requires |block| == BLOCK && slot <= |entries| && forall i | 0 <= i < |entries| :: Short(entries[i])
  {
    && slot <= DENTRY_SLOTS
    && (forall i | 0 <= i < slot :: Holds(block, i, entries[i]))
    && (forall i | slot <= i < DENTRY_SLOTS :: !Bit(block[i / 8], i % 8))
  }

  lemma AddShortLists(block: seq<u8>, entries: seq<Entry>, slot: nat)
    requires |block| == BLOCK && slot < |entries| && (forall i | 0 <= i < |entries| :: Short(entries[i]))
    requires Lists(block, entries, slot)
    requires AddEntry(block, slot, entries[slot]).Ok? && |AddEntry(block, slot, entries[slot]).value| == BLOCK
    ensures Lists(AddEntry(block, slot, entries[slot]).value, entries, slot + 1)
  {
    hide AddEntry, Bit, Holds, SameSlot;
    var r := AddEntry(block, slot, entries[slot]).value;
    AddShortHolds(block, slot, entries[slot]);
    forall i | 0 <= i < slot ensures Holds(r, i, entries[i]) {
      AddShortElsewhere(block, slot, entries[slot], i);
      HeldBit(block, i, entries[i]);
      SlotStays(block, r, i, entries[i]);
    }
    forall i | slot + 1 <= i < DENTRY_SLOTS ensures !Bit(r[i / 8], i % 8) { AddShortElsewhere(block, slot, entries[slot], i); }
  }

  lemma HeldBit(block: seq<u8>, slot: nat, e: Entry)
    requires |block| == BLOCK && slot < DENTRY_SLOTS && Short(e) && Holds(block, slot, e)
    ensures Bit(block[slot / 8], slot % 8)
  {
  }

  lemma {:induction false} DirFromLists(block: seq<u8>, entries: seq<Entry>, slot: nat)
    requires |block| == BLOCK && slot <= |entries| && (forall i | 0 <= i < |entries| :: Short(entries[i]))
    requires Lists(block, entries, slot)
    requires DirFrom(block, entries, slot).Ok? && |DirFrom(block, entries, slot).value| == BLOCK
    ensures Lists(DirFrom(block, entries, slot).value, entries, |entries|)
    decreases |entries| - slot
  {
    hide AddEntry, Lists;
    if slot < |entries| {
      AddShortLists(block, entries, slot);
      DirFromLists(AddEntry(block, slot, entries[slot]).value, entries, slot + 1);
    }
  }

  /** A directory of names of up to eight bytes reads back: its entries stand in its slots, in
      order, and nothing else does. */
  lemma DirectoryReadsBack(entries: seq<Entry>)
    requires forall i | 0 <= i < |entries| :: Short(entries[i])
    requires DirBytes(entries).Ok?
    ensures Lists(DirBytes(entries).value, entries, |entries|)
  {
    hide DirFrom, Holds;
    forall i | 0 <= i < DENTRY_SLOTS ensures !Bit(Zeros(BLOCK)[i / 8], i % 8) { ZeroHasNoBit(i % 8); }
    DirFromLists(Zeros(BLOCK), entries, 0);
  }

  // ----- longer names -----

  lemma {:induction false} SetBitsKeep(block: seq<u8>, slot: nat, end: nat, q: nat)
    requires SetBits(block, slot, end).Ok? && end <= 8 * FILENAMES && FILENAMES <= q < |block|
    ensures SetBits(block, slot, end).value[q] == block[q]
    decreases end - slot
  {
    hide OrByte, Mask;
    if slot < end { SetBitsKeep(SetBit(block, slot).value, slot + 1, end, q); }
  }

  lemma FieldsKeep(block: seq<u8>, slot: nat, e: Entry, q: nat)
    requires |block| == BLOCK && slot < DENTRY_SLOTS && EntryFields(block, slot, e).Ok? && FILENAMES <= q < BLOCK
    ensures EntryFields(block, slot, e).value[q] == block[q]
  {
    hide EntryFields, FromLe;
    var off := DENTRY + slot * DENTRY_SIZE;
    FieldsRead(block, slot, e);
    var r := EntryFields(block, slot, e).value;
    assert r[q] == r[off + 11..][q - off - 11] && block[q] == block[off + 11..][q - off - 11];
  }

  /** The byte at q once the entries from `slot` on have written their names over `b`. */
  function Overlay(b: u8, entries: seq<Entry>, slot: nat, q: nat): (r: u8)
    decreases |entries| - slot
  {
    if slot >= |entries| then b
    else
      var n, name := FILENAMES + slot * SLOT_LEN, entries[slot].name;
      Overlay(if n <= q < n + |name| then name[q - n] else b, entries, slot + 1, q)
  }

  predicate Named(entries: seq<Entry>) { forall i | 0 <= i < |entries| :: entries[i].name != [] }

  lemma NameFits(block: seq<u8>, slot: nat, e: Entry)
    requires |block| == BLOCK && e.name != [] && AddEntry(block, slot, e).Ok? && |AddEntry(block, slot, e).value| == BLOCK
    ensures slot < DENTRY_SLOTS && FILENAMES + slot * SLOT_LEN + |e.name| <= BLOCK
  {
    hide EntryFields, OrByte, Mask, Splice;
  }

  /** In the name area an entry writes its name and nothing else. */
  lemma AddEntryNames(block: seq<u8>, slot: nat, e: Entry, q: nat)
    requires |block| == BLOCK && e.name != [] && AddEntry(block, slot, e).Ok? && |AddEntry(block, slot, e).value| == BLOCK
    requires FILENAMES <= q < BLOCK
    ensures var n := FILENAMES + slot * SLOT_LEN;
            AddEntry(block, slot, e).value[q] == if n <= q < n + |e.name| then e.name[q - n] else block[q]
  {
    hide EntryFields, OrByte, Mask, Splice;
    NameFits(block, slot, e);
    var n := FILENAMES + slot * SLOT_LEN;
    var b1 := SetBit(block, slot).value;
    var b2 := EntryFields(b1, slot, e).value;
    var b3 := Assign(b2, n, e.name);
    FieldsKeep(b1, slot, e, q);
    SetBitsKeep(b3, slot + 1, slot + SlotsOf(e.name), q);
    assert b3[q] == b3[q..q + 1][0] && b2[q] == b2[q..q + 1][0];
    if n <= q < n + |e.name| {
      SpliceInside(b2, n, e.name, q, q + 1);
    } else {
      SpliceElsewhere(b2, n, e.name, q, q + 1);
    }
  }

  lemma {:induction false} DirFromNames(block: seq<u8>, entries: seq<Entry>, slot: nat, q: nat)
    requires |block| == BLOCK && Named(entries) && FILENAMES <= q < BLOCK
    requires DirFrom(block, entries, slot).Ok? && |DirFrom(block, entries, slot).value| == BLOCK
    ensures DirFrom(block, entries, slot).value[q] == Overlay(block[q], entries, slot, q)
    decreases |entries| - slot
  {
    hide AddEntry;
    if slot < |entries| {
      AddEntryNames(block, slot, entries[slot], q);
      DirFromNames(AddEntry(block, slot, entries[slot]).value, entries, slot + 1, q);
    }
  }

  lemma {:induction false} DirFromFits(block: seq<u8>, entries: seq<Entry>, slot: nat, i: nat)
    requires |block| == BLOCK && Named(entries) && slot <= i < |entries|
    requires DirFrom(block, entries, slot).Ok? && |DirFrom(block, entries, slot).value| == BLOCK
    ensures FILENAMES + i * SLOT_LEN + |entries[i].name| <= BLOCK
    decreases |entries| - slot
  {
    hide AddEntry;
    NameFits(block, slot, entries[slot]);
    if slot < i { DirFromFits(AddEntry(block, slot, entries[slot]).value, entries, slot + 1, i); }
  }

  /** A byte that entry i writes does not depend on what was there before. */
  lemma {:induction false} OverlayFrom(b: u8, entries: seq<Entry>, slot: nat, i: nat, p: nat)
    requires slot <= i < |entries| && p < |entries[i].name|
    ensures var q := FILENAMES + i * SLOT_LEN + p;
            Overlay(b, entries, slot, q) == Overlay(entries[i].name[p], entries, i + 1, q)
    decreases |entries| - slot
  {
    var n, q, name := FILENAMES + slot * SLOT_LEN, FILENAMES + i * SLOT_LEN + p, entries[slot].name;
    if slot < i { OverlayFrom(if n <= q < n + |name| then name[q - n] else b, entries, slot + 1, i, p); }
  }

  lemma {:induction false} OverlayBefore(b: u8, entries: seq<Entry>, slot: nat, q: nat)
    requires q < FILENAMES + slot * SLOT_LEN
    ensures Overlay(b, entries, slot, q) == b
    decreases |entries| - slot
  {
    if slot < |entries| { OverlayBefore(b, entries, slot + 1, q); }
  }

  /** For names of any length: the name of entry i can be read back exactly when the last later
      name to write over each of its bytes, if any, writes the same byte. */
  lemma NameReadsBackIff(entries: seq<Entry>, i: nat)
    requires Named(entries) && DirBytes(entries).Ok? && i < |entries|
    ensures var n, name := FILENAMES + i * SLOT_LEN, entries[i].name;
            && n + |name| <= BLOCK
            && (DirBytes(entries).value[n..n + |name|] == name
                <==> forall p | 0 <= p < |name| :: Overlay(name[p], entries, i + 1, n + p) == name[p])
  {
    hide DirFrom, Overlay;
    var n, name, b := FILENAMES + i * SLOT_LEN, entries[i].name, DirBytes(entries).value;
    DirFromFits(Zeros(BLOCK), entries, 0, i);
    forall p | 0 <= p < |name|
      ensures b[n..n + |name|][p] == Overlay(name[p], entries, i + 1, n + p)
    {
      DirFromNames(Zeros(BLOCK), entries, 0, n + p);
      OverlayFrom(Zeros(BLOCK)[n + p], entries, 0, i, p);
    }
  }

  /** Slots are numbered by entry, not by name length: a name of more than eight bytes that is
      not the last one loses its ninth byte to the next name. */
  lemma LongNameIsOverwritten(entries: seq<Entry>, i: nat)
    requires Named(entries) && DirBytes(entries).Ok? && i + 1 < |entries|
    requires |entries[i].name| > SLOT_LEN && entries[i].name[SLOT_LEN] != entries[i + 1].name[0]
    ensures var n, name := FILENAMES + i * SLOT_LEN, entries[i].name;
            n + |name| <= BLOCK && DirBytes(entries).value[n..n + |name|] != name
  {
    hide DirBytes;
    NameReadsBackIff(entries, i);
    OverlayBefore(entries[i + 1].name[0], entries, i + 2, FILENAMES + (i + 1) * SLOT_LEN);
  }
}
