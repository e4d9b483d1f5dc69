/** Mount namespaces: which mount serves a path, and the numbering of mounts and parents. */
module Mounts {
  import opened Options
  import opened Words

  const MS_UNBINDABLE: nat := 0x2_0000
  const MS_SLAVE: nat := 0x8_0000
  const MS_SHARED: nat := 0x10_0000

  datatype Propagation = Private | Shared | Slave | Unbindable

  datatype Entry = Entry(id: u32, parent: u32, source: string, target: string, fsType: string, flags: u32,
                         propagation: Propagation, peerGroup: u32)

  type Table = map<string, Entry>

  // ----- the longest prefix, found by trying prefixes from the longest down -----

  /** The longest mounted prefix of path with at most n characters, none of them empty. */
  function Scan(mounts: Table, path: string, n: nat): (r: Option<string>)
    requires n <= |path|
    ensures r.Some? ==> r.value in mounts && r.value != "" && r.value <= path && |r.value| <= n
    ensures forall k | 0 < k <= n && path[..k] in mounts :: r.Some? && k <= |r.value|
  {
    if n == 0 then None else if path[..n] in mounts then Some(path[..n]) else Scan(mounts, path, n - 1)
  }

  function Resolve(mounts: Table, path: string): Option<string> { Scan(mounts, path, |path|) }

  /** Like Resolve, but the path itself does not count. */
  function ParentOf(mounts: Table, path: string): Option<string> { if path == "" then None else Scan(mounts, path, |path| - 1) }

  /** t is the longest non-empty key among `keys` that is a prefix of path (and not path itself,
      if strict). */
  ghost predicate IsBest(keys: set<string>, path: string, strict: bool, t: Option<string>)
  {
    match t
    case None => forall u | u in keys && u <= path && u != "" :: strict && u == path
    case Some(b) =>
      && b in keys && b != "" && b <= path && (strict ==> b != path)
      && forall u | u in keys && u <= path && !(strict && u == path) :: |u| <= |b|
  }

  lemma BestIsScan(mounts: Table, path: string, strict: bool, t: Option<string>)
    requires IsBest(mounts.Keys, path, strict, t)
    ensures t == if strict then ParentOf(mounts, path) else Resolve(mounts, path)
  {
    var r := if strict then ParentOf(mounts, path) else Resolve(mounts, path);
    if t.Some? { assert path[..|t.value|] == t.value; }
    if r.Some? { assert path[..|r.value|] == r.value; }
  }

  /** The search loop of `resolve_mount` and of `find_parent_mount`, in any order of the keys. */
  method FindBest(mounts: Table, path: string, strict: bool) returns (best: Option<string>)
    ensures IsBest(mounts.Keys, path, strict, best)
    ensures best == if strict then ParentOf(mounts, path) else Resolve(mounts, path)
  {
    best := None;
    var bestLen := 0;
    var todo := mounts.Keys;
    while todo != {}
      invariant todo <= mounts.Keys && IsBest(mounts.Keys - todo, path, strict, best)
      invariant bestLen == if best.Some? then |best.value| else 0
      decreases todo
    {
      var target :| target in todo;
      assert mounts.Keys - (todo - {target}) == (mounts.Keys - todo) + {target};
      if target <= path && |target| > bestLen && !(strict && target == path) {
        bestLen := |target|;
        best := Some(target);
      }
      todo := todo - {target};
    }
    assert mounts.Keys - {} == mounts.Keys;
    BestIsScan(mounts, path, strict, best);
  }

  // ----- whole components -----

  /** t names path itself or a directory above it. */
  predicate Covers(t: string, path: string)
  {
    t <= path && t != "" && (|t| == |path| || t[|t| - 1] == '/' || path[|t|] == '/')
  }

  /** The mount that covers the path most closely, counting whole components only. */
  ghost predicate ServesByComponent(mounts: Table, path: string, t: Option<string>)
  {
    match t
    case None => forall u | u in mounts :: !Covers(u, path)
    case Some(b) => b in mounts && Covers(b, path) && forall u | u in mounts && Covers(u, path) :: |u| <= |b|
  }

  lemma FoundIsLongest(mounts: Table, path: string, u: string)
    requires u in mounts && u != "" && u <= path
    ensures Resolve(mounts, path).Some? && |u| <= |Resolve(mounts, path).value|
  {
    assert path[..|u|] == u;
  }

  /** The mount found is the one that covers the path exactly when every mounted string prefix of
      the path is at most as long as some mount that covers the path. */
  lemma ResolveByComponentIff(mounts: Table, path: string)
    ensures ServesByComponent(mounts, path, Resolve(mounts, path))
            <==> forall u | u in mounts && u != "" && u <= path :: exists c :: c in mounts && Covers(c, path) && |u| <= |c|
  {
    hide Scan;
    var r := Resolve(mounts, path);
    forall u | u in mounts && u != "" && u <= path ensures r.Some? && |u| <= |r.value| { FoundIsLongest(mounts, path, u); }
    FoundIsMounted(mounts, path);
    if r.Some? && !Covers(r.value, path) {
      forall c | c in mounts && Covers(c, path) && |r.value| <= |c| ensures false { SameLength(r.value, c, path); }
    }
  }

  lemma FoundIsMounted(mounts: Table, path: string)
    ensures var r := Resolve(mounts, path); r.Some? ==> r.value in mounts && r.value != "" && r.value <= path
  {
  }

  lemma SameLength(u: string, c: string, path: string)
    requires u <= path && c <= path && |u| == |c|
    ensures u == c
  {
  }

  /** It is not always: with /mnt mounted, /mntx resolves to it. */
  lemma NotByComponent(e: Entry)
    ensures var mounts := map["/" := e, "/mnt" := e]; !ServesByComponent(mounts, "/mntx", Resolve(mounts, "/mntx"))
  {
    var mounts := map["/" := e, "/mnt" := e];
    assert "/mntx"[..4] == "/mnt" && "/mntx"[..4] in mounts;
    var r := Resolve(mounts, "/mntx");
    assert r.Some? && r.value in {"/", "/mnt"} && |r.value| >= 4;
  }

  // ----- numbering -----

  /** A namespace: its table, the next number, and its root path. */
  datatype Ns = Ns(mounts: Table, nextId: u32, root: string)

  function NewNs(): Ns { Ns(map[], 1, "/") }

  /** A copy of the parent's table in which nothing propagates back. */
  function Fork(parent: Ns): Ns
  {
    parent.(mounts := map t | t in parent.mounts :: parent.mounts[t].(propagation := Private))
  }

  predicate HasFlag(flags: u32, flag: nat)
    requires flag > 0
  { flags / flag % 2 == 1 }

  function PropagationOf(flags: u32): Propagation
  {
    if HasFlag(flags, MS_SHARED) then Shared
    else if HasFlag(flags, MS_SLAVE) then Slave
    else if HasFlag(flags, MS_UNBINDABLE) then Unbindable
    else Private
  }

  /** The new table entry; peer is the next number of a shared group. */
  function NewEntry(ns: Ns, source: string, target: string, fsType: string, flags: u32, peer: u32): Entry
  {
    var kind := PropagationOf(flags);
    var parent := ParentOf(ns.mounts, target);
    var e := Entry(ns.nextId, 0, source, target, fsType, flags, kind, if kind.Shared? then peer else 0);
    if parent.None? then e
    else
      var p := ns.mounts[parent.value];
      e.(parent := p.id, peerGroup := if kind.Slave? && p.peerGroup > 0 then p.peerGroup else e.peerGroup)
  }

  function Mount(ns: Ns, source: string, target: string, fsType: string, flags: u32, peer: u32): Ns
  {
    ns.(mounts := ns.mounts[target := NewEntry(ns, source, target, fsType, flags, peer)], nextId := U32(ns.nextId + 1))
  }

  function Unmount(ns: Ns, target: string): Ns { if target == "/" then ns else ns.(mounts := ns.mounts - {target}) }

  function Pivot(ns: Ns, root: string): Ns { if root in ns.mounts then ns.(root := root) else ns }

  datatype Op =
    | DoMount(ns: nat, source: string, target: string, fsType: string, flags: u32, peer: u32)
    | DoUnmount(ns: nat, target: string)
    | DoPivot(ns: nat, root: string)
    | DoNew(ns: nat)
    | DoFork(parent: nat, ns: nat)

  type World = map<nat, Ns>

  function Step(w: World, op: Op): World
  {
    match op
    case DoMount(n, source, target, fsType, flags, peer) => if n in w then w[n := Mount(w[n], source, target, fsType, flags, peer)] else w
    case DoUnmount(n, target) => if n in w then w[n := Unmount(w[n], target)] else w
    case DoPivot(n, root) => if n in w then w[n := Pivot(w[n], root)] else w
    case DoNew(n) => if n in w then w else w[n := NewNs()]
    case DoFork(p, n) => if n in w then w else w[n := if p in w then Fork(w[p]) else NewNs()]
  }

  function Run(ops: seq<Op>): World { if ops == [] then map[] else Step(Run(ops[..|ops| - 1]), ops[|ops| - 1]) }

  /** Numbers are unique and below the next one, and every parent is older than its child. */
  ghost predicate Numbered(ns: Ns, n: nat)
  {
    && 1 <= ns.nextId <= n + 1
    && (forall t | t in ns.mounts :: 1 <= ns.mounts[t].id < ns.nextId && ns.mounts[t].parent < ns.mounts[t].id && ns.mounts[t].target == t)
    && (forall t, u | t in ns.mounts && u in ns.mounts && t != u :: ns.mounts[t].id != ns.mounts[u].id)
  }

  lemma MountNumbered(ns: Ns, source: string, target: string, fsType: string, flags: u32, peer: u32, n: nat)
    requires Numbered(ns, n) && n + 2 < TWO32
    ensures Numbered(Mount(ns, source, target, fsType, flags, peer), n + 1)
  {
    hide HasFlag, Scan;
  }

  lemma OtherNumbered(ns: Ns, target: string, n: nat)
    requires Numbered(ns, n)
    ensures Numbered(ns, n + 1) && Numbered(Unmount(ns, target), n + 1) && Numbered(Pivot(ns, target), n + 1) && Numbered(Fork(ns), n + 1) && Numbered(NewNs(), n + 1)
  {
  }

  lemma {:induction false} RunsAreNumbered(ops: seq<Op>, k: nat)
    requires |ops| + 1 < TWO32 && k in Run(ops)
    ensures Numbered(Run(ops)[k], |ops|)
  {
    hide Numbered, Mount, Unmount, Pivot, Fork, NewNs;
    var w, op := Run(ops[..|ops| - 1]), ops[|ops| - 1];
    if k in w {
      RunsAreNumbered(ops[..|ops| - 1], k);
      OtherNumbered(w[k], if op.DoUnmount? then op.target else if op.DoPivot? then op.root else "", |ops| - 1);
      if op.DoMount? { MountNumbered(w[k], op.source, op.target, op.fsType, op.flags, op.peer, |ops| - 1); }
    } else if op.DoFork? && op.parent in w {
      RunsAreNumbered(ops[..|ops| - 1], op.parent);
      OtherNumbered(w[op.parent], "", |ops| - 1);
    } else {
      NewNumbered(|ops|);
    }
  }

  lemma NewNumbered(n: nat)
    ensures Numbered(NewNs(), n)
  {
  }

  /** Entries linked by their parent numbers, from a mount upwards. */
  ghost predicate Chain(ns: Ns, chain: seq<string>)
  {
    && (forall i | 0 <= i < |chain| :: chain[i] in ns.mounts)
    && (forall i | 0 <= i < |chain| - 1 :: ns.mounts[chain[i]].parent == ns.mounts[chain[i + 1]].id)
  }

  lemma {:induction false} ChainFalls(ns: Ns, n: nat, chain: seq<string>, i: nat, j: nat)
    requires Numbered(ns, n) && Chain(ns, chain) && i < j < |chain|
    ensures ns.mounts[chain[j]].id < ns.mounts[chain[i]].id
    decreases j
  {
    if i < j - 1 { ChainFalls(ns, n, chain, i, j - 1); }
    assert ns.mounts[chain[j - 1]].parent == ns.mounts[chain[j - 1 + 1]].id;
  }

  /** Over every run with fewer than 2^32 - 1 calls, forks included, no chain of parents comes
      back to where it was. */
  lemma ParentChainsDoNotCycle(ops: seq<Op>, k: nat, chain: seq<string>, i: nat, j: nat)
    requires |ops| + 1 < TWO32 && k in Run(ops) && Chain(Run(ops)[k], chain) && i < j < |chain|
    ensures chain[i] != chain[j]
  {
    hide Run, Numbered;
    RunsAreNumbered(ops, k);
    ChainFalls(Run(ops)[k], |ops|, chain, i, j);
  }

  /** The call changes namespace n, if it exists. */
  predicate Touches(op: Op, n: nat) { (op.DoMount? || op.DoUnmount? || op.DoPivot?) && op.ns == n }

  lemma {:induction false} UntouchedStays(ops: seq<Op>, more: seq<Op>, n: nat)
    requires n in Run(ops) && forall i | 0 <= i < |more| :: !Touches(more[i], n)
    ensures n in Run(ops + more) && Run(ops + more)[n] == Run(ops)[n]
  {
    if more == [] {
      assert ops + more == ops;
    } else {
      var less := more[..|more| - 1];
      assert (ops + more)[..|ops + more| - 1] == ops + less;
      UntouchedStays(ops, less, n);
    }
  }

  /** However a run goes on after a fork, and whatever is done to the parent: until something is
      done to the fork itself, it resolves every path as the parent did at the fork. */
  lemma ForksAreSeparate(ops: seq<Op>, parent: nat, ns: nat, more: seq<Op>, path: string)
    requires parent in Run(ops) && ns !in Run(ops) && forall i | 0 <= i < |more| :: !Touches(more[i], ns)
    ensures var w := Run(ops + [DoFork(parent, ns)] + more);
            ns in w && Resolve(w[ns].mounts, path) == Resolve(Run(ops)[parent].mounts, path)
  {
    var forked := ops + [DoFork(parent, ns)];
    assert forked[..|ops|] == ops;
    UntouchedStays(forked, more, ns);
    SameKeys(Run(ops)[parent].mounts, Fork(Run(ops)[parent]).mounts, path, |path|);
  }

  lemma {:induction false} SameKeys(a: Table, b: Table, path: string, n: nat)
    requires n <= |path| && a.Keys == b.Keys
    ensures Scan(a, path, n) == Scan(b, path, n)
    decreases n
  {
    if n > 0 { SameKeys(a, b, path, n - 1); }
  }

  // ----- the namespace object -----

  class MountNamespace {
    var mounts: Table
    var nextId: u32
    var root: string

    function Value(): Ns
      reads this
    { Ns(mounts, nextId, root) }

    constructor ()
      ensures Value() == NewNs()
    {
      mounts, nextId, root := map[], 1, "/";
    }

    constructor ForkFrom(parent: MountNamespace)
      ensures Value() == Fork(parent.Value())
    {
      mounts := map t | t in parent.mounts :: parent.mounts[t].(propagation := Private);
      nextId, root := parent.nextId, parent.root;
    }

    method AddMount(source: string, target: string, fsType: string, flags: u32, peer: u32) returns (id: u32)
      modifies this
      ensures Value() == Mount(old(Value()), source, target, fsType, flags, peer)
      ensures id == old(nextId) && target in mounts && mounts[target].id == id
    {
      id := nextId;
      nextId := U32(nextId + 1);
      var entry := Entry(id, 0, source, target, fsType, flags, Private, 0);
      if HasFlag(flags, MS_SHARED) {
        entry := entry.(propagation := Shared, peerGroup := peer);
      } else if HasFlag(flags, MS_SLAVE) {
        entry := entry.(propagation := Slave);
      } else if HasFlag(flags, MS_UNBINDABLE) {
        entry := entry.(propagation := Unbindable);
      }
      var parent := FindBest(mounts, target, true);
      if parent.Some? && parent.value in mounts {
        var p := mounts[parent.value];
        entry := entry.(parent := p.id);
        if entry.propagation == Slave && p.peerGroup > 0 { entry := entry.(peerGroup := p.peerGroup); }
      }
      mounts := mounts[target := entry];
    }

    method RemoveMount(target: string) returns (ok: bool)
      modifies this
      ensures Value() == Unmount(old(Value()), target)
      ensures ok <==> target != "/" && target in old(mounts)
    {
      if target == "/" { return false; }
      ok := target in mounts;
      mounts := mounts - {target};
    }

    method PivotRoot(newRoot: string) returns (ok: bool)
      modifies this
      ensures Value() == Pivot(old(Value()), newRoot) && (ok <==> newRoot in old(mounts))
    {
      if newRoot !in mounts { return false; }
      root := newRoot;
      return true;
    }

    method ResolveMount(path: string) returns (r: Option<Entry>)
      ensures var t := Resolve(mounts, path); r == if t.None? then None else Some(mounts[t.value])
    {
      var best := FindBest(mounts, path, false);
      if best.None? { return None; }
      return Some(mounts[best.value]);
    }
  }
}
