/** Cluster chains: how the table entries of the nodes are laid out, and that following a
    chain visits the clusters that were written along it. */
module FatChains {
  import opened Results
  import opened Words
  import opened Bytes
  import opened FatGeometry

  function Eoc(v: Variant): nat { if v.wide then 0x0FFFFFFF else 0xFFFF }

  /** The entry marks the last cluster of a chain. */
  predicate Last(v: Variant, entry: nat) { if v.wide then entry >= 0x0FFFFFF8 else entry == 0xFFFF }

  /** Clusters taken by n bytes; an empty file takes one. */
  function Needs(n: nat, cb: nat): (k: nat)
    requires cb > 0
    ensures k > 0
  { var k := (n + cb - 1) / cb; if k < 1 then 1 else k }

  // ----- allocation -----

  /** The entry of cluster c in a chain of consecutive clusters, the last one marked. */
  function ChainEntry(v: Variant, first: nat, need: nat, c: nat): nat
  { if c == first + need - 1 then Eoc(v) else c + 1 }

  function NewChain(v: Variant, first: nat, need: nat): (r: seq<nat>)
    ensures |r| == need
  { seq<nat>(need, k requires 0 <= k => ChainEntry(v, first, need, first + k)) }

  function SetChain(v: Variant, entries: seq<nat>, first: nat, need: nat): (r: seq<nat>)
    requires first + need <= |entries|
    ensures |r| == |entries|
  {
    entries[..first] + NewChain(v, first, need) + entries[first + need..]
  }

  /** Chains for the nodes from the i-th on; fails when the clusters run out. */
  function AllocateFrom(v: Variant, entries: seq<nat>, needs: seq<nat>, i: nat, next: nat): Result<seq<nat>>
    decreases |needs| - i
  {
    if i >= |needs| then Ok(entries)
    else if next + needs[i] > |entries| then Err(NoClusters)
    else AllocateFrom(v, SetChain(v, entries, next, needs[i]), needs, i + 1, next + needs[i])
  }

  /** The first cluster of node i when the nodes are numbered from `start`. */
  function First(needs: seq<nat>, start: nat, i: nat): (c: nat)
    requires i <= |needs|
    ensures c >= start
  { if i == 0 then start else First(needs, start, i - 1) + needs[i - 1] }

  lemma {:induction false} ChainsAreDisjoint(needs: seq<nat>, start: nat, i: nat, j: nat)
    requires i < j <= |needs|
    ensures First(needs, start, i) + needs[i] <= First(needs, start, j)
    decreases j
  {
    if i < j - 1 { ChainsAreDisjoint(needs, start, i, j - 1); }
  }

  predicate ChainAt(v: Variant, entries: seq<nat>, first: nat, need: nat)
  {
    && first + need <= |entries|
    && forall c | first <= c < first + need :: entries[c] == ChainEntry(v, first, need, c)
  }

  lemma {:induction false} AllocatedFrom(v: Variant, entries: seq<nat>, needs: seq<nat>, i: nat, start: nat)
    requires i <= |needs| && AllocateFrom(v, entries, needs, i, First(needs, start, i)).Ok?
    ensures var e := AllocateFrom(v, entries, needs, i, First(needs, start, i)).value;
            && |e| == |entries|
            && (forall c | 0 <= c < First(needs, start, i) && c < |e| :: e[c] == entries[c])
            && forall j | i <= j < |needs| :: ChainAt(v, e, First(needs, start, j), needs[j])
    decreases |needs| - i
  {
    if i < |needs| {
      hide First;
      FirstStep(needs, start, i);
      var next := First(needs, start, i);
      var e1 := SetChain(v, entries, next, needs[i]);
      AllocatedFrom(v, e1, needs, i + 1, start);
    }
  }

  lemma FirstStep(needs: seq<nat>, start: nat, i: nat)
    requires i < |needs|
    ensures First(needs, start, i + 1) == First(needs, start, i) + needs[i]
  {
  }

  /** Allocation fails exactly when the nodes together need more clusters than there are. */
  lemma {:induction false} AllocationFits(v: Variant, entries: seq<nat>, needs: seq<nat>, i: nat, start: nat)
    requires i <= |needs| && First(needs, start, i) <= |entries|
    ensures AllocateFrom(v, entries, needs, i, First(needs, start, i)).Ok? <==> First(needs, start, |needs|) <= |entries|
    decreases |needs| - i
  {
    if i < |needs| {
      hide First;
      FirstStep(needs, start, i);
      var next := First(needs, start, i);
      if next + needs[i] <= |entries| {
        AllocationFits(v, SetChain(v, entries, next, needs[i]), needs, i + 1, start);
      } else if i + 1 < |needs| {
        FirstGrows(needs, start, i + 1, |needs|);
      }
    }
  }

  lemma {:induction false} FirstGrows(needs: seq<nat>, start: nat, i: nat, j: nat)
    requires i <= j <= |needs|
    ensures First(needs, start, i) <= First(needs, start, j)
    decreases j
  {
    if i < j { FirstGrows(needs, start, i, j - 1); }
  }

  // ----- following a chain -----

  /** The clusters of the chain that starts at c; `fuel` bounds its length. */
  function Follow(v: Variant, entries: seq<nat>, c: nat, fuel: nat): seq<nat>
    decreases fuel
  {
    if fuel == 0 || c >= |entries| then []
    else [c] + if Last(v, entries[c]) then [] else Follow(v, entries, entries[c], fuel - 1)
  }

  function Range(first: nat, n: nat): (r: seq<nat>)
    ensures |r| == n
  { seq(n, k requires 0 <= k => first + k) }

  /** How many clusters of a chain are reached before a link reads as an end mark. */
  function Reach(v: Variant, first: nat, need: nat): (r: nat)
    ensures r <= need && (need > 0 ==> r > 0)
    decreases need
  { if need <= 1 then need else if Last(v, first + 1) then 1 else 1 + Reach(v, first + 1, need - 1) }

  /** No link of the chain carries the number of an end mark. */
  predicate Unbroken(v: Variant, first: nat, need: nat)
  {
    need <= 1 || if v.wide then first + need - 1 < 0x0FFFFFF8 else !(first < 0xFFFF < first + need)
  }

  /** Exactly the unbroken chains are reached to their last cluster. */
  lemma {:induction false} ReachIff(v: Variant, first: nat, need: nat)
    ensures Reach(v, first, need) == need <==> Unbroken(v, first, need)
    decreases need
  {
    if need > 1 { ReachIff(v, first + 1, need - 1); }
  }

  /** A chain is followed to its end mark, or to the first link that reads as one, and no further. */
  lemma {:induction false} FollowChain(v: Variant, entries: seq<nat>, first: nat, need: nat, fuel: nat)
    requires ChainAt(v, entries, first, need) && 0 < need <= fuel
    ensures Follow(v, entries, first, fuel) == Range(first, Reach(v, first, need))
    decreases need
  {
    assert entries[first] == ChainEntry(v, first, need, first);
    if need == 1 || Last(v, first + 1) {
      assert Range(first, 1) == [first];
    } else {
      RangeSplit(first, Reach(v, first, need));
      ChainTail(v, entries, first, need);
      FollowChain(v, entries, first + 1, need - 1, fuel - 1);
    }
  }

  lemma RangeSplit(first: nat, n: nat)
    requires n > 0
    ensures Range(first, n) == [first] + Range(first + 1, n - 1)
  {
  }

  lemma ChainTail(v: Variant, entries: seq<nat>, first: nat, need: nat)
    requires ChainAt(v, entries, first, need) && need > 1
    ensures ChainAt(v, entries, first + 1, need - 1)
  {
    forall c | first + 1 <= c < first + need ensures entries[c] == ChainEntry(v, first + 1, need - 1, c) {
      assert entries[c] == ChainEntry(v, first, need, c);
    }
  }

  // ----- writing along a chain -----

  /** Offset of a cluster in the data area. */
  function At(c: nat, cb: nat): nat { if c < 2 then 0 else (c - 2) * cb }

  function Take(s: seq<u8>, n: nat): seq<u8> { if n < |s| then s[..n] else s }

  function Drop(s: seq<u8>, n: nat): (r: seq<u8>)
    ensures n > 0 && s != [] ==> |r| < |s|
  { if n < |s| then s[n..] else [] }

  function WriteChain(v: Variant, data: seq<u8>, entries: seq<nat>, c: nat, rest: seq<u8>, cb: nat): seq<u8>
    requires cb > 0
    decreases |rest|
  {
    if rest == [] then data
    else
      var d := Assign(data, At(c, cb), Take(rest, cb));
      if c >= |entries| || Last(v, entries[c]) then d else WriteChain(v, d, entries, entries[c], Drop(rest, cb), cb)
  }

  /** The part of a file that the clusters reached along its chain can hold. */
  function Cut(v: Variant, first: nat, rest: seq<u8>, cb: nat): seq<u8>
    requires cb > 0
  { Take(rest, Reach(v, first, Needs(|rest|, cb)) * cb) }

  /** Writing a file chunk by chunk along its chain puts its bytes in one piece, as far as the chain reaches. */
  lemma {:induction false} ChainHoldsFile(v: Variant, data: seq<u8>, entries: seq<nat>, first: nat, rest: seq<u8>, cb: nat)
    requires cb > 0 && first >= 2 && rest != [] && ChainAt(v, entries, first, Needs(|rest|, cb))
    requires At(first, cb) + |rest| <= |data|
    ensures WriteChain(v, data, entries, first, rest, cb) == Splice(data, At(first, cb), Cut(v, first, rest, cb))
    decreases |rest|
  {
    hide Splice, Needs, At;
    var at, need := At(first, cb), Needs(|rest|, cb);
    assert entries[first] == ChainEntry(v, first, need, first);
    if |rest| <= cb {
      NeedsOne(|rest|, cb);
      assert Cut(v, first, rest, cb) == rest;
    } else {
      NeedsMore(|rest|, cb);
      var head, tail := rest[..cb], rest[cb..];
      if Last(v, first + 1) {
        assert Reach(v, first, need) == 1 && Cut(v, first, rest, cb) == head;
      } else {
        ChainTail(v, entries, first, need);
        assert At(first + 1, cb) == at + cb by { AtNext(first, cb); }
        var d := Splice(data, at, head);
        ChainHoldsFile(v, d, entries, first + 1, tail, cb);
        CutMore(v, first, rest, cb);
        SpliceTwice(data, at, head, Cut(v, first + 1, tail, cb));
      }
    }
  }

  lemma CutMore(v: Variant, first: nat, rest: seq<u8>, cb: nat)
    requires 0 < cb < |rest| && !Last(v, first + 1)
    ensures Cut(v, first, rest, cb) == rest[..cb] + Cut(v, first + 1, rest[cb..], cb)
  {
    hide Needs;
    NeedsMore(|rest|, cb);
    var r := Reach(v, first + 1, Needs(|rest| - cb, cb));
    assert Reach(v, first, Needs(|rest|, cb)) == 1 + r;
    assert (1 + r) * cb == cb + r * cb;
  }

  lemma AtNext(c: nat, cb: nat)
    requires c >= 2
    ensures At(c + 1, cb) == At(c, cb) + cb
  {
  }

  lemma NeedsOne(n: nat, cb: nat)
    requires cb > 0 && n <= cb
    ensures Needs(n, cb) == 1
  {
    if n > 0 { DivModUnique(n + cb - 1, cb, 1, n - 1); } else { DivModUnique(cb - 1, cb, 0, cb - 1); }
  }

  lemma NeedsMore(n: nat, cb: nat)
    requires cb > 0 && n > cb
    ensures Needs(n, cb) == Needs(n - cb, cb) + 1
  {
    var m := n - cb + cb - 1;
    DivModUnique(n + cb - 1, cb, m / cb + 1, m % cb);
    if n - cb == 0 { DivModUnique(m, cb, 0, cb - 1); } else { DivMono(cb, m, cb); DivModUnique(cb, cb, 1, 0); }
  }

  lemma {:induction false} NeedsCover(n: nat, cb: nat)
    requires cb > 0
    ensures n <= Needs(n, cb) * cb
    decreases n
  {
    if n > cb {
      NeedsMore(n, cb);
      NeedsCover(n - cb, cb);
    } else {
      NeedsOne(n, cb);
    }
  }

  /** A file that takes more than k clusters does not fit k. */
  lemma {:induction false} NeedsExceed(n: nat, cb: nat, k: nat)
    requires cb > 0 && k < Needs(n, cb) && k > 0
    ensures k * cb < n
    decreases n
  {
    hide Needs;
    if n > cb {
      NeedsMore(n, cb);
      if k > 1 {
        NeedsExceed(n - cb, cb, k - 1);
        assert k * cb == (k - 1) * cb + cb;
      }
    } else {
      NeedsOne(n, cb);
    }
  }
}
