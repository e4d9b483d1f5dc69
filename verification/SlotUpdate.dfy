/** Binary deltas and the two-slot update manager. The hash is left open: nothing below
    depends on how it is computed. */
module SlotUpdate {
  import opened Options
  import opened Results
  import opened Words

  type Bytes = seq<u8>
  type Hash = Bytes -> u64

  datatype Chunk = Chunk(offset: u32, removeLen: u32, insert: Bytes)

  datatype Patch = Patch(fromHash: u64, toHash: u64, chunks: seq<Chunk>)

  datatype Error = DeltaHashMismatch | UpdateStateInvalid | NoStagedPatch

  type Result<T> = Fallible<T, Error>

  // ----- deltas -----

  /** k is the length of the longest common prefix. */
  predicate LongestPrefix(from: Bytes, to: Bytes, k: nat)
  {
    && k <= |from| && k <= |to| && from[..k] == to[..k]
    && (k < |from| && k < |to| ==> from[k] != to[k])
  }

  /** k is the length of the longest common suffix of what is left behind the prefix. */
  predicate LongestSuffix(from: Bytes, to: Bytes, prefix: nat, k: nat)
  {
    && prefix + k <= |from| && prefix + k <= |to| && from[|from| - k..] == to[|to| - k..]
    && (prefix + k < |from| && prefix + k < |to| ==> from[|from| - 1 - k] != to[|to| - 1 - k])
  }

  lemma PrefixAgrees(from: Bytes, to: Bytes, k: nat)
    requires k <= |from| && k <= |to| && from[..k] == to[..k]
    ensures forall j | 0 <= j < k :: from[j] == to[j]
  {
    forall j | 0 <= j < k ensures from[j] == to[j] { assert from[..k][j] == to[..k][j]; }
  }

  lemma SuffixAgrees(from: Bytes, to: Bytes, k: nat, j: nat)
    requires k <= |from| && k <= |to| && from[|from| - k..] == to[|to| - k..]
    ensures j < k ==> from[|from| - 1 - j] == to[|to| - 1 - j]
  {
    if j < k { assert from[|from| - k..][k - 1 - j] == to[|to| - k..][k - 1 - j]; }
  }

  /** Only one pair of lengths is longest, so a patch between two images is determined. */
  lemma LongestIsUnique(from: Bytes, to: Bytes, a: nat, b: nat, a': nat, b': nat)
    requires LongestPrefix(from, to, a) && LongestSuffix(from, to, a, b)
    requires LongestPrefix(from, to, a') && LongestSuffix(from, to, a', b')
    ensures a == a' && b == b'
  {
    PrefixAgrees(from, to, a);
    PrefixAgrees(from, to, a');
    SuffixAgrees(from, to, b, b');
    SuffixAgrees(from, to, b', b);
  }

  /** The one-chunk patch that replaces everything between a common prefix and suffix. */
  function Delta(from: Bytes, to: Bytes, prefix: nat, suffix: nat, hash: Hash): Patch
    requires prefix + suffix <= |from| && prefix + suffix <= |to|
  {
    Patch(hash(from), hash(to), [Chunk(U32(prefix), U32(|from| - prefix - suffix), to[prefix..|to| - suffix])])
  }

  ghost predicate IsDelta(from: Bytes, to: Bytes, hash: Hash, p: Patch)
  {
    exists a: nat, b: nat :: LongestPrefix(from, to, a) && LongestSuffix(from, to, a, b) && p == Delta(from, to, a, b, hash)
  }

  method BuildDelta(from: Bytes, to: Bytes, hash: Hash) returns (p: Patch)
    ensures IsDelta(from, to, hash, p)
  {
    var lcp := 0;
    while lcp < |from| && lcp < |to| && from[lcp] == to[lcp]
      invariant lcp <= |from| && lcp <= |to| && from[..lcp] == to[..lcp]
    {
      lcp := lcp + 1;
    }
    var lcs := 0;
    while lcs < |from| - lcp && lcs < |to| - lcp && from[|from| - 1 - lcs] == to[|to| - 1 - lcs]
      invariant lcp + lcs <= |from| && lcp + lcs <= |to| && from[|from| - lcs..] == to[|to| - lcs..]
    {
      assert from[|from| - lcs - 1..] == [from[|from| - 1 - lcs]] + from[|from| - lcs..];
      assert to[|to| - lcs - 1..] == [to[|to| - 1 - lcs]] + to[|to| - lcs..];
      lcs := lcs + 1;
    }
    assert LongestPrefix(from, to, lcp) && LongestSuffix(from, to, lcp, lcs);
    var removeLen := |from| - lcp - lcs;
    var insert := to[lcp..|to| - lcs];
    p := Patch(hash(from), hash(to), [Chunk(U32(lcp), U32(removeLen), insert)]);
    assert p == Delta(from, to, lcp, lcs, hash);
  }

  /** The chunks from the i-th on, applied one after another. */
  function ApplyChunks(out: Bytes, chunks: seq<Chunk>, i: nat): Result<Bytes>
    decreases |chunks| - i
  {
    if i >= |chunks| then Ok(out)
    else
      var c := chunks[i];
      if c.offset > |out| || c.offset + c.removeLen > |out| then Err(UpdateStateInvalid)
      else ApplyChunks(out[..c.offset] + c.insert + out[c.offset + c.removeLen..], chunks, i + 1)
  }

  function Apply(base: Bytes, p: Patch, hash: Hash): Result<Bytes>
  {
    if hash(base) != p.fromHash then Err(DeltaHashMismatch)
    else
      var r := ApplyChunks(base, p.chunks, 0);
      if r.Ok? && hash(r.value) != p.toHash then Err(DeltaHashMismatch) else r
  }

  method ApplyDelta(base: Bytes, p: Patch, hash: Hash) returns (r: Result<Bytes>)
    ensures r == Apply(base, p, hash)
  {
    if hash(base) != p.fromHash { return Err(DeltaHashMismatch); }
    var output := base;
    var i := 0;
    while i < |p.chunks|
      invariant 0 <= i <= |p.chunks|
      invariant ApplyChunks(base, p.chunks, 0) == ApplyChunks(output, p.chunks, i)
    {
      var c := p.chunks[i];
      if c.offset > |output| || c.offset + c.removeLen > |output| { return Err(UpdateStateInvalid); }
      output := output[..c.offset] + c.insert + output[c.offset + c.removeLen..];
      i := i + 1;
    }
    if hash(output) != p.toHash { return Err(DeltaHashMismatch); }
    return Ok(output);
  }

  lemma Rejoined(from: Bytes, to: Bytes, a: nat, b: nat)
    requires a + b <= |from| && a + b <= |to| && from[..a] == to[..a] && from[|from| - b..] == to[|to| - b..]
    ensures from[..a] + to[a..|to| - b] + from[|from| - b..] == to
  {
  }

  lemma OneChunk(base: Bytes, c: Chunk)
    requires c.offset + c.removeLen <= |base|
    ensures ApplyChunks(base, [c], 0) == Ok(base[..c.offset] + c.insert + base[c.offset + c.removeLen..])
  {
    assert ApplyChunks(base, [c], 0) == ApplyChunks(base[..c.offset] + c.insert + base[c.offset + c.removeLen..], [c], 1);
  }

  /** The patch cuts the prefix length and the length it removes to 32 bits. What is cut off the
      prefix is then expected behind the inserted bytes instead of before them. */
  predicate CutIsHarmless(from: Bytes, to: Bytes, a: nat, b: nat)
    requires a + b <= |from| && a + b <= |to|
  {
    var c, removed, insert := U32(a), |from| - a - b, to[a..|to| - b];
    removed < TWO32 && insert + from[c + removed..a + removed] == from[c..a] + insert
  }

  lemma Applied(from: Bytes, to: Bytes, a: nat, b: nat, hash: Hash)
    requires a + b <= |from| && a + b <= |to|
    ensures var p := Delta(from, to, a, b, hash); var c := p.chunks[0];
            && c.offset <= a && c.offset + c.removeLen <= |from|
            && (Apply(from, p, hash) == Ok(to) <==> from[..c.offset] + c.insert + from[c.offset + c.removeLen..] == to)
  {
    hide ApplyChunks;
    DivBound(a, TWO32);
    DivBound(|from| - a - b, TWO32);
    OneChunk(from, Delta(from, to, a, b, hash).chunks[0]);
  }

  lemma DivBound(x: nat, d: nat)
    requires d > 0
    ensures x % d <= x && (x % d == x <==> x < d)
  {
    if x < d { DivModUnique(x, d, 0, x); } else { assert x % d < d; }
  }

  /** Comparing the two ways round: the ends agree, so only the middle decides. */
  lemma MiddleDecides(from: Bytes, insert: Bytes, c: nat, a: nat, removed: nat)
    requires c <= a && a + removed <= |from|
    ensures from[..c] + insert + from[c + removed..] == from[..a] + insert + from[a + removed..]
            <==> insert + from[c + removed..a + removed] == from[c..a] + insert
  {
    var front, back := from[..c], from[a + removed..];
    var x, y := insert + from[c + removed..a + removed], from[c..a] + insert;
    assert from[..c] + insert + from[c + removed..] == front + x + back by { assert from[c + removed..] == from[c + removed..a + removed] + back; }
    assert from[..a] + insert + from[a + removed..] == front + y + back by { assert from[..a] == front + from[c..a]; }
    if front + x + back == front + y + back {
      assert x == (front + x + back)[c..c + |x|];
      assert y == (front + y + back)[c..c + |y|];
    }
  }

  /** A cut of the removed length shows in the length of the result. */
  lemma LengthDecides(from: Bytes, to: Bytes, a: nat, b: nat, c: nat, r: nat)
    requires a + b <= |from| && a + b <= |to| && c + r <= |from| && r != |from| - a - b
    ensures from[..c] + to[a..|to| - b] + from[c + r..] != to
  {
    assert |from[..c] + to[a..|to| - b] + from[c + r..]| == |from| - r + |to| - a - b;
  }

  lemma ResultIff(from: Bytes, to: Bytes, a: nat, b: nat)
    requires a + b <= |from| && a + b <= |to| && from[..a] == to[..a] && from[|from| - b..] == to[|to| - b..]
    requires U32(a) <= a && U32(a) + U32(|from| - a - b) <= |from|
    ensures from[..U32(a)] + to[a..|to| - b] + from[U32(a) + U32(|from| - a - b)..] == to <==> CutIsHarmless(from, to, a, b)
  {
    hide U32;
    var removed := |from| - a - b;
    CutLength(removed);
    if removed < TWO32 {
      Rejoined(from, to, a, b);
      MiddleDecides(from, to[a..|to| - b], U32(a), a, removed);
    } else {
      LengthDecides(from, to, a, b, U32(a), U32(removed));
    }
  }

  /** The round trip holds exactly when the cut to 32 bits is harmless. */
  lemma DeltaRoundTripIff(from: Bytes, to: Bytes, hash: Hash, p: Patch, a: nat, b: nat)
    requires IsDelta(from, to, hash, p) && LongestPrefix(from, to, a) && LongestSuffix(from, to, a, b)
    ensures Apply(from, p, hash) == Ok(to) <==> CutIsHarmless(from, to, a, b)
  {
    hide Apply, U32, IsDelta, CutIsHarmless;
    IsThisDelta(from, to, hash, p, a, b);
    Applied(from, to, a, b, hash);
    ResultIff(from, to, a, b);
  }

  lemma CutLength(n: nat)
    ensures U32(n) == n <==> n < TWO32
  {
    DivBound(n, TWO32);
  }

  lemma IsThisDelta(from: Bytes, to: Bytes, hash: Hash, p: Patch, a: nat, b: nat)
    requires IsDelta(from, to, hash, p) && LongestPrefix(from, to, a) && LongestSuffix(from, to, a, b)
    ensures p == Delta(from, to, a, b, hash)
  {
    var x: nat, y: nat :| LongestPrefix(from, to, x) && LongestSuffix(from, to, x, y) && p == Delta(from, to, x, y, hash);
    LongestIsUnique(from, to, a, b, x, y);
  }

  lemma ShortRoundTrip(from: Bytes, to: Bytes, hash: Hash, p: Patch)
    requires |from| < TWO32 && IsDelta(from, to, hash, p)
    ensures Apply(from, p, hash) == Ok(to)
  {
    hide Apply, Delta, U32;
    var a: nat, b: nat :| LongestPrefix(from, to, a) && LongestSuffix(from, to, a, b) && p == Delta(from, to, a, b, hash);
    CutLength(a);
    DeltaRoundTripIff(from, to, hash, p, a, b);
    assert from[a..a] == [];
  }

  lemma AppendedByte(from: Bytes, x: u8)
    ensures LongestPrefix(from, from + [x], |from|) && LongestSuffix(from, from + [x], |from|, 0)
    ensures (from + [x])[|from|..] == [x]
  {
    assert (from + [x])[..|from|] == from == from[..|from|];
  }

  /** Appending a byte to an image of 2^32 zero bytes cuts the offset to 0: the patch gives the
      new image exactly when the byte is another zero, whatever the hash. */
  lemma OneByteTooLong(from: Bytes, x: u8, hash: Hash, p: Patch)
    requires |from| == TWO32 && (forall i | 0 <= i < |from| :: from[i] == 0)
    requires IsDelta(from, from + [x], hash, p)
    ensures Apply(from, p, hash) == Ok(from + [x]) <==> x == 0
  {
    hide IsDelta, Apply, LongestPrefix, LongestSuffix;
    AppendedByte(from, x);
    DeltaRoundTripIff(from, from + [x], hash, p, |from|, 0);
    var to := from + [x];
    assert to[|from|..|to| - 0] == [x] && from[0..|from|] == from[0 + 0..|from| + 0] == from;
    assert CutIsHarmless(from, to, |from|, 0) <==> [x] + from == to;
    if x == 0 {
      assert [x] + from == to;
    } else {
      assert ([x] + from)[0] == x && to[0] == 0;
    }
  }

  // ----- the manager, as a value -----

  datatype Slot = A | B
  {
    function Other(): Slot { if A? then B else A }
  }

  datatype Manager = Manager(active: Slot, images: map<Slot, Bytes>, generations: map<Slot, u64>, staged: Option<Patch>)
  {
    function Image(s: Slot): Bytes { if s in images then images[s] else [] }

    function Generation(s: Slot): u64 { if s in generations then generations[s] else 0 }
  }

  datatype Report = Report(slot: Slot, generation: u64, imageBytes: nat)

  const NEW := Manager(A, map[A := [], B := []], map[A := 0, B := 0], None)

  const MAX64: u64 := 0xFFFF_FFFF_FFFF_FFFF

  function SaturatingInc(g: u64): u64 { if g == MAX64 then g else g + 1 }

  /** The image that a commit would install. */
  function Staged(m: Manager, hash: Hash): Result<Bytes>
  {
    if m.staged.None? then Err(NoStagedPatch) else Apply(m.Image(m.active), m.staged.value, hash)
  }

  function Commit(m: Manager, hash: Hash): Manager
  {
    var r := Staged(m, hash);
    if r.Err? then m
    else
      var next := m.active.Other();
      Manager(next, m.images[next := r.value], m.generations[next := SaturatingInc(m.Generation(next))], None)
  }

  datatype Op = Stage(p: Patch) | SetImage(slot: Slot, image: Bytes) | TryCommit

  function Do(m: Manager, op: Op, hash: Hash): Manager
  {
    match op
    case Stage(p) => m.(staged := Some(p))
    case SetImage(s, image) => m.(images := m.images[s := image])
    case TryCommit => Commit(m, hash)
  }

  function Run(ops: seq<Op>, hash: Hash): Manager
  {
    if ops == [] then NEW else Do(Run(ops[..|ops| - 1], hash), ops[|ops| - 1], hash)
  }

  /** Successful commits of a run. */
  function Commits(ops: seq<Op>, hash: Hash): nat
  {
    if ops == [] then 0
    else
      var before := ops[..|ops| - 1];
      Commits(before, hash) + if ops[|ops| - 1].TryCommit? && Staged(Run(before, hash), hash).Ok? then 1 else 0
  }

  function Capped(n: nat): u64 { if n < MAX64 then n else MAX64 }

  /** Over every run the slots take turns: the number of successful commits alone decides which
      slot is active and what both generations are, also when they saturate. */
  lemma {:induction false} SlotsTakeTurns(ops: seq<Op>, hash: Hash)
    ensures InTurn(Run(ops, hash), Commits(ops, hash))
  {
    if ops != [] {
      hide Apply, Capped, Staged, Commit;
      var front := ops[..|ops| - 1];
      SlotsTakeTurns(front, hash);
      TurnStep(Run(front, hash), ops[|ops| - 1], hash, Commits(front, hash));
    }
  }

  /** The state that c successful commits lead to. */
  predicate InTurn(m: Manager, c: nat)
  {
    m.active == (if c % 2 == 0 then A else B) && m.Generation(A) == Capped(c / 2) && m.Generation(B) == Capped((c + 1) / 2)
  }

  lemma TurnStep(m: Manager, op: Op, hash: Hash, c: nat)
    requires InTurn(m, c)
    ensures InTurn(Do(m, op, hash), if op.TryCommit? && Staged(m, hash).Ok? then c + 1 else c)
  {
    hide Staged;
    Halves(c);
  }

  lemma Halves(c: nat)
    ensures if c % 2 == 0 then (c + 1) / 2 == c / 2 && (c + 2) / 2 == c / 2 + 1 else (c + 1) / 2 == c / 2 + 1 == (c + 2) / 2
  {
  }

  /** Until saturation, the generation of B leads by one exactly while B is active. */
  lemma GenerationsDiffer(ops: seq<Op>, hash: Hash)
    requires Run(ops, hash).Generation(B) < MAX64
    ensures var m := Run(ops, hash); m.Generation(B) as int - m.Generation(A) as int == if m.active == A then 0 else 1
  {
    hide Run, Commits;
    SlotsTakeTurns(ops, hash);
    Halves(Commits(ops, hash));
  }

  lemma RunGrows(ops: seq<Op>, op: Op, hash: Hash)
    ensures Run(ops + [op], hash) == Do(Run(ops, hash), op, hash)
    ensures Commits(ops + [op], hash) == Commits(ops, hash) + if op.TryCommit? && Staged(Run(ops, hash), hash).Ok? then 1 else 0
  {
    assert (ops + [op])[..|ops|] == ops;
  }

  /** After a successful commit the image it replaced stays in the inactive slot, and the slots keep
      their roles, until that slot is set or the next commit succeeds, however many attempts
      to commit fail in between. */
  lemma {:induction false} ReplacedImageStays(ops: seq<Op>, more: seq<Op>, hash: Hash)
    requires Staged(Run(ops, hash), hash).Ok?
    requires Commits(ops + [TryCommit] + more, hash) == Commits(ops + [TryCommit], hash)
    requires forall i | 0 <= i < |more| && more[i].SetImage? :: more[i].slot != Run(ops, hash).active
    ensures var m, m' := Run(ops, hash), Run(ops + [TryCommit] + more, hash);
            m'.active == m.active.Other() && m'.Image(m.active) == m.Image(m.active)
  {
    hide Run, Commits, Staged;
    RunGrows(ops, TryCommit, hash);
    var front := ops + [TryCommit];
    if more == [] {
      assert front + more == front;
    } else {
      var less, last := more[..|more| - 1], more[|more| - 1];
      assert front + more == (front + less) + [last];
      RunGrows(front + less, last, hash);
      CommitsGrow(front, less, hash);
      ReplacedImageStays(ops, less, hash);
    }
  }

  lemma {:induction false} CommitsGrow(ops: seq<Op>, more: seq<Op>, hash: Hash)
    ensures Commits(ops + more, hash) >= Commits(ops, hash)
  {
    hide Run, Commits, Staged;
    if more == [] {
      assert ops + more == ops;
    } else {
      var less, last := more[..|more| - 1], more[|more| - 1];
      assert ops + more == (ops + less) + [last];
      RunGrows(ops + less, last, hash);
      CommitsGrow(ops, less, hash);
    }
  }

  /** Staging the delta to a new image and committing installs that image and keeps the old one
      in the other slot, from which the same can be undone. */
  lemma UpdateInstalls(m: Manager, to: Bytes, hash: Hash, p: Patch)
    requires |m.Image(m.active)| < TWO32 && IsDelta(m.Image(m.active), to, hash, p)
    ensures var m' := Do(Do(m, Stage(p), hash), TryCommit, hash);
            m'.active == m.active.Other() && m'.Image(m'.active) == to && m'.Image(m.active) == m.Image(m.active)
  {
    hide IsDelta, Apply;
    ShortRoundTrip(m.Image(m.active), to, hash, p);
  }

  /** Updating there and back again restores both the active slot and its image. */
  lemma UpdateThenRevert(m: Manager, to: Bytes, hash: Hash, p: Patch, q: Patch)
    requires |m.Image(m.active)| < TWO32 && |to| < TWO32
    requires IsDelta(m.Image(m.active), to, hash, p) && IsDelta(to, m.Image(m.active), hash, q)
    ensures var m' := Do(Do(m, Stage(p), hash), TryCommit, hash); var m'' := Do(Do(m', Stage(q), hash), TryCommit, hash);
            m''.active == m.active && m''.Image(m.active) == m.Image(m.active) && m''.Image(m.active.Other()) == to
  {
    hide IsDelta, Apply;
    UpdateInstalls(m, to, hash, p);
    var m' := Do(Do(m, Stage(p), hash), TryCommit, hash);
    UpdateInstalls(m', m.Image(m.active), hash, q);
  }

  // ----- the manager object -----

  class UpdateManager {
    var active: Slot
    var images: map<Slot, Bytes>
    var generations: map<Slot, u64>
    var staged: Option<Patch>

    function Value(): Manager
      reads this
    { Manager(active, images, generations, staged) }

    constructor ()
      ensures Value() == NEW
    {
      active := A;
      images := map[A := [], B := []];
      generations := map[A := 0, B := 0];
      staged := None;
    }

    method SetSlotImage(slot: Slot, image: Bytes)
      modifies this
      ensures forall hash: Hash :: Value() == Do(old(Value()), SetImage(slot, image), hash)
    {
      images := images[slot := image];
    }

    method StagePatch(p: Patch)
      modifies this
      ensures forall hash: Hash :: Value() == Do(old(Value()), Stage(p), hash)
    {
      staged := Some(p);
    }

    method CommitStagedPatch(hash: Hash) returns (r: Result<Report>)
      modifies this
      ensures Value() == Commit(old(Value()), hash)
      ensures r.Err? <==> Staged(old(Value()), hash).Err?
      ensures r.Err? ==> Staged(old(Value()), hash).error == r.error && Value() == old(Value())
      ensures r.Ok? ==> r.value == Report(active, Value().Generation(active), |Value().Image(active)|)
    {
      if staged.None? { return Err(NoStagedPatch); }
      var next := ApplyDelta(Value().Image(active), staged.value, hash);
      if next.Err? { return Err(next.error); }
      var slot := active.Other();
      images := images[slot := next.value];
      active := slot;
      var current := if slot in generations then generations[slot] else 0;
      var generation := SaturatingInc(current);
      generations := generations[slot := generation];
      staged := None;
      return Ok(Report(slot, generation, |next.value|));
    }
  }
}
