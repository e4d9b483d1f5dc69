/** Byte strings changed in place, and what a change leaves readable. */
module Bytes {
  import opened Words

  /** s with the bytes from i on overwritten by b. */
  function Splice(s: seq<u8>, i: nat, b: seq<u8>): (r: seq<u8>)
    requires i + |b| <= |s|
    ensures |r| == |s|
  { s[..i] + b + s[i + |b|..] }

  /** `s[i : i + len(b)] = b`: an assignment that runs past the end makes s longer. */
  function Assign(s: seq<u8>, i: nat, b: seq<u8>): (r: seq<u8>)
    ensures |r| >= |s|
    ensures |r| == |s| && b != [] ==> i + |b| <= |s|
  {
    if i + |b| <= |s| then Splice(s, i, b) else if i <= |s| then s[..i] + b else s + b
  }

  lemma SpliceElsewhere(s: seq<u8>, i: nat, b: seq<u8>, lo: nat, hi: nat)
    requires i + |b| <= |s| && lo <= hi <= |s| && (hi <= i || i + |b| <= lo)
    ensures Splice(s, i, b)[lo..hi] == s[lo..hi]
  {
  }

  lemma SpliceInside(s: seq<u8>, i: nat, b: seq<u8>, lo: nat, hi: nat)
    requires i + |b| <= |s| && i <= lo <= hi <= i + |b|
    ensures Splice(s, i, b)[lo..hi] == b[lo - i..hi - i]
  {
  }

  lemma SpliceTwice(s: seq<u8>, off: nat, a: seq<u8>, b: seq<u8>)
    requires off + |a| + |b| <= |s|
    ensures Splice(Splice(s, off, a), off + |a|, b) == Splice(s, off, a + b)
  {
  }

  /** Writing one byte more. */
  lemma GrowSplice(s: seq<u8>, off: nat, data: seq<u8>, k: nat)
    requires off + |data| <= |s| && k < |data|
    ensures Splice(s, off, data[..k])[off + k := data[k]] == Splice(s, off, data[..k + 1])
  {
  }

  lemma Sub(s: seq<u8>, p: nat, q: nat, lo: nat, hi: nat)
    requires p <= lo <= hi <= q <= |s|
    ensures s[p..q][lo - p..hi - p] == s[lo..hi]
  {
    var a, b := s[p..q][lo - p..hi - p], s[lo..hi];
    forall i | 0 <= i < hi - lo ensures a[i] == b[i] { assert a[i] == s[p..q][lo - p + i]; }
  }

  /** Strings that agree before p and from q on agree on any stretch that avoids [p, q). */
  lemma Between(b: seq<u8>, c: seq<u8>, p: nat, q: nat, lo: nat, hi: nat)
    requires |b| == |c| && p <= q <= |b| && lo <= hi <= |b|
    requires b[..p] == c[..p] && b[q..] == c[q..] && (hi <= p || q <= lo)
    ensures b[lo..hi] == c[lo..hi]
  {
    forall i | lo <= i < hi ensures b[i] == c[i] {
      if hi <= p { assert b[i] == b[..p][i] == c[..p][i]; } else { assert b[i] == b[q..][i - q] == c[q..][i - q]; }
    }
  }

  lemma ConcatSlices(a: seq<u8>, b: seq<u8>, lo: nat, hi: nat)
    requires lo <= hi <= |a|
    ensures (a + b)[lo..hi] == a[lo..hi] && (a + b)[|a|..|a| + |b|] == b
  {
  }

  function Zeros(n: nat): (z: seq<u8>)
    ensures |z| == n && forall i | 0 <= i < n :: z[i] == 0
  { seq(n, _ => 0) }

  /** A 32-bit field of a block. */
  datatype Word32 = Word32(off: nat, value: u32)

  /** The fields lie inside a block of n bytes, in order and without overlap. */
  predicate Ordered(fields: seq<Word32>, n: nat)
  {
    && (forall i | 0 <= i < |fields| :: fields[i].off + 4 <= n)
    && (forall i, j | 0 <= i < j < |fields| :: fields[i].off + 4 <= fields[j].off)
  }

  function PutFields(block: seq<u8>, fields: seq<Word32>): (r: seq<u8>)
    requires Ordered(fields, |block|)
    ensures |r| == |block|
  {
    if fields == [] then block
    else
      var last := fields[|fields| - 1];
      Splice(PutFields(block, fields[..|fields| - 1]), last.off, Le32(last.value))
  }

  lemma {:induction false} FieldReadsBack(block: seq<u8>, fields: seq<Word32>, i: nat)
    requires Ordered(fields, |block|) && i < |fields|
    ensures FromLe(PutFields(block, fields)[fields[i].off..fields[i].off + 4]) == fields[i].value
    decreases |fields|
  {
    hide Splice, Le32, FromLe;
    var front, last := fields[..|fields| - 1], fields[|fields| - 1];
    var b := PutFields(block, front);
    if i == |fields| - 1 {
      SpliceInside(b, last.off, Le32(last.value), last.off, last.off + 4);
      assert Le32(last.value)[0..4] == Le32(last.value);
      Le32RoundTrip(last.value);
    } else {
      FieldReadsBack(block, front, i);
      assert front[i] == fields[i];
      SpliceElsewhere(b, last.off, Le32(last.value), fields[i].off, fields[i].off + 4);
    }
  }
}
