/** The queued spin lock as a state machine: every atomic access of `lock` and `unlock` is one
    step, and the steps of any number of threads interleave freely. */
module TicketLock {
  import opened Words

  const NOBODY: int := -1

  datatype McsNode = McsNode(next: int, locked: bool)

  /** Where a thread stands: the next atomic step it will take. */
  datatype Local =
    | Idle
    | First(ticket: u32)
    | Limit(ticket: u32)
    | Spin(ticket: u32, loops: u32, max: u32)
    | Swap(ticket: u32)
    | Link(prev: nat)
    | AwaitFlag
    | AwaitTurn(ticket: u32)
    | Held(queued: bool)
    | LoadNext
    | ClearTail
    | SeekNext
    | WakeNext(next: nat)
    | Bump
  {
    /** Has a ticket and has not been let in. */
    predicate Waiting() { First? || Limit? || Spin? || Swap? || AwaitTurn? }

    /** Has been let in and has not yet moved on to the next ticket. */
    predicate Inside() { Held? || LoadNext? || ClearTail? || Bump? }

    /** Its node is the tail of the queue. */
    predicate Queued() { AwaitTurn? || LoadNext? || ClearTail? || this == Held(true) }
  }

  /** The lock word by word, the queue nodes by the thread that owns them, and three history
      variables that no step reads: who took a ticket, who was let in, how many left. */
  datatype State = State(owner: u32, next: u32, spin: u32, tail: int, nodes: map<nat, McsNode>, threads: map<nat, Local>,
                         takes: seq<nat>, grants: seq<nat>, releases: nat)
  {
    function At(t: nat): Local { if t in threads then threads[t] else Idle }

    function Go(t: nat, l: Local): State { this.(threads := threads[t := l]) }

    function Enter(t: nat, queued: bool): State { this.(grants := grants + [t]).Go(t, Held(queued)) }
  }

  datatype Action = Lock(t: nat) | Advance(t: nat) | Unlock(t: nat) | SetSpin(n: u32)

  function Init(): State { State(0, 0, 2048, NOBODY, map[], map[], [], [], 0) }

  predicate Enabled(s: State, a: Action)
  {
    match a
    case Lock(t) => s.At(t).Idle?
    case Unlock(t) => s.At(t).Held?
    case SetSpin(_) => true
    case Advance(t) =>
      var l := s.At(t);
      && !l.Idle? && !l.Held?
      && (l.AwaitFlag? || l.LoadNext? || l.SeekNext? ==> t in s.nodes)
      && (l.Link? ==> l.prev in s.nodes)
      && (l.WakeNext? ==> l.next in s.nodes)
  }

  function Advanced(s: State, t: nat): State
    requires Enabled(s, Advance(t))
  {
    match s.At(t)
    case First(k) => if s.owner == k then s.Enter(t, false) else s.Go(t, Limit(k))
    case Limit(k) => s.Go(t, Spin(k, 0, s.spin))
    case Spin(k, i, max) =>
      if i >= max then s.Go(t, Swap(k))
      else if s.owner == k then s.Enter(t, false)
      else s.Go(t, Spin(k, i + 1, max))
    case Swap(k) =>
      s.(tail := t, nodes := s.nodes[t := McsNode(NOBODY, true)]).Go(t, if s.tail < 0 then AwaitTurn(k) else Link(s.tail))
    case Link(prev) => s.(nodes := s.nodes[prev := s.nodes[prev].(next := t)]).Go(t, AwaitFlag)
    case AwaitFlag => if s.nodes[t].locked then s else s.Enter(t, true)
    case AwaitTurn(k) => if s.owner != k then s else s.Enter(t, true)
    case LoadNext => s.Go(t, if s.nodes[t].next < 0 then ClearTail else WakeNext(s.nodes[t].next))
    case ClearTail => if s.tail == t then s.(tail := NOBODY).Go(t, Bump) else s.Go(t, SeekNext)
    case SeekNext => if s.nodes[t].next < 0 then s else s.Go(t, WakeNext(s.nodes[t].next))
    case WakeNext(n) => s.(nodes := s.nodes[n := s.nodes[n].(locked := false)]).Go(t, Bump)
    case Bump => Bumped(s).Go(t, Idle)
    case Idle => s
    case Held(_) => s
  }

  function Bumped(s: State): State { s.(owner := U32(s.owner + 1), releases := s.releases + 1) }

  function Do(s: State, a: Action): State
    requires Enabled(s, a)
  {
    match a
    case Lock(t) => s.(next := U32(s.next + 1), takes := s.takes + [t]).Go(t, First(s.next))
    case Unlock(t) => if s.At(t).queued then s.Go(t, LoadNext) else Bumped(s).Go(t, Idle)
    case SetSpin(n) => s.(spin := if n < 64 then 64 else n)
    case Advance(t) => Advanced(s, t)
  }

  /** The state after the actions, if each was possible when its turn came. */
  datatype Outcome = Stuck | Reached(state: State)

  function Run(s: State, acts: seq<Action>): Outcome
  {
    if acts == [] then Reached(s)
    else
      var m, a := Run(s, acts[..|acts| - 1]), acts[|acts| - 1];
      if m.Reached? && Enabled(m.state, a) then Reached(Do(m.state, a)) else Stuck
  }

  // ----- the ticket path -----

  /** The step queues a thread behind another one. */
  predicate Chains(s: State, a: Action)
  {
    a.Advance? && s.At(a.t).Swap? && s.tail >= 0
  }

  function Outstanding(s: State): int { |s.takes| - s.releases }

  /** A run in which nobody queues behind another thread and at most `limit` tickets are ever outstanding. */
  predicate TicketRun(acts: seq<Action>, limit: int)
  {
    var r := Run(Init(), acts);
    && r.Reached? && Outstanding(r.state) <= limit
    && (acts != [] ==>
          var before := acts[..|acts| - 1];
          && TicketRun(before, limit)
          && Run(Init(), before).Reached?
          && !Chains(Run(Init(), before).state, acts[|acts| - 1]))
  }

  ghost predicate AtMostOneGuard(s: State)
  {
    forall t: nat, u: nat | s.At(t).Held? && s.At(u).Held? :: t == u
  }

  /** The i-th taker waits with ticket i modulo 2^32; the counters are the histories' lengths. */
  ghost predicate Inv(s: State)
  {
    && s.owner == U32(s.releases) && s.next == U32(|s.takes|)
    && s.releases <= |s.grants| <= s.releases + 1 && |s.grants| <= |s.takes| && s.grants == s.takes[..|s.grants|]
    && (forall i, j | s.releases <= i < j < |s.takes| :: s.takes[i] != s.takes[j])
    && TicketsOk(s)
    && (s.tail == NOBODY || (s.tail >= 0 && s.tail in s.nodes && s.nodes[s.tail].next == NOBODY))
    && (forall t: nat :: LocalOk(s, t))
  }

  ghost predicate TicketsOk(s: State)
  {
    forall i | |s.grants| <= i < |s.takes| :: s.At(s.takes[i]).Waiting() && s.At(s.takes[i]).ticket == U32(i)
  }

  ghost predicate LocalOk(s: State, t: nat)
    requires s.releases <= |s.grants| <= |s.takes|
  {
    var l := s.At(t);
    && (l.Idle? || l.Waiting() || l.Inside())
    && (l.Waiting() ==> t in s.takes[|s.grants|..])
    && (l.Inside() <==> s.releases < |s.grants| && t == s.takes[s.releases])
    && (l.Queued() <==> s.tail == t)
  }

  lemma SameResidue(i: nat, r: nat)
    requires r <= i < r + TWO32 && U32(i) == U32(r)
    ensures i == r
  {
    DivModUnique(r, TWO32, r / TWO32, r % TWO32);
    DivModUnique(i, TWO32, i / TWO32, i % TWO32);
  }

  lemma NextResidue(n: nat)
    ensures U32(U32(n) + 1) == U32(n + 1)
  {
    var q, r := n / TWO32, n % TWO32;
    if r == TWO32 - 1 {
      DivModUnique(n + 1, TWO32, q + 1, 0);
    } else {
      DivModUnique(n + 1, TWO32, q, r + 1);
    }
  }

  lemma HolderIsInside(s: State)
    requires Inv(s)
    ensures s.releases < |s.grants| ==> s.At(s.takes[s.releases]).Inside()
  {
    if s.releases < |s.grants| { assert LocalOk(s, s.takes[s.releases]); }
  }

  lemma IdleIsNotOutstanding(s: State, t: nat)
    requires Inv(s) && s.At(t).Idle?
    ensures forall i | s.releases <= i < |s.takes| :: s.takes[i] != t
  {
    HolderIsInside(s);
  }

  lemma LockLocal(s: State, t: nat, u: nat)
    requires s.releases <= |s.grants| <= |s.takes| && s.At(t).Idle? && LocalOk(s, t) && LocalOk(s, u)
    requires s.releases < |s.grants| ==> s.takes[s.releases] != t
    ensures LocalOk(Do(s, Lock(t)), u)
  {
    hide U32;
    assert Do(s, Lock(t)).takes[|s.grants|..] == s.takes[|s.grants|..] + [t];
  }

  lemma LockTickets(s: State, t: nat)
    requires Inv(s) && s.At(t).Idle?
    ensures TicketsOk(Do(s, Lock(t)))
  {
    hide U32, LocalOk;
    IdleIsNotOutstanding(s, t);
  }

  lemma LockKeeps(s: State, t: nat)
    requires Inv(s) && s.At(t).Idle?
    ensures Inv(Do(s, Lock(t)))
  {
    hide U32, LocalOk, TicketsOk;
    NextResidue(|s.takes|);
    IdleIsNotOutstanding(s, t);
    LockTickets(s, t);
    assert (s.takes + [t])[..|s.grants|] == s.takes[..|s.grants|];
    forall u: nat ensures LocalOk(Do(s, Lock(t)), u) {
      assert LocalOk(s, t) && LocalOk(s, u);
      LockLocal(s, t, u);
    }
  }

  /** The thread inside moves on to the next ticket and leaves. */
  lemma BumpKeeps(s: State, t: nat)
    requires Inv(s) && s.At(t).Inside() && !s.At(t).Queued()
    ensures Inv(Bumped(s).Go(t, Idle))
  {
    hide U32;
    var s' := Bumped(s).Go(t, Idle);
    assert LocalOk(s, t);
    NextResidue(s.releases);
    forall u: nat ensures LocalOk(s', u) { assert LocalOk(s, u); }
  }

  /** A waiting thread that sees its ticket is the first one outstanding, and nobody is inside. */
  lemma TurnIsUnique(s: State, t: nat)
    requires Inv(s) && Outstanding(s) <= TWO32
    requires s.At(t).Waiting() && s.owner == s.At(t).ticket
    ensures |s.grants| == s.releases < |s.takes| && s.takes[s.releases] == t
  {
    hide U32;
    assert LocalOk(s, t);
    var i :| |s.grants| <= i < |s.takes| && s.takes[i] == t;
    SameResidue(i, s.releases);
  }

  lemma EnterKeeps(s: State, t: nat)
    requires Inv(s) && Outstanding(s) <= TWO32
    requires s.At(t).Waiting() && s.owner == s.At(t).ticket
    ensures Inv(s.Enter(t, s.At(t).Queued()))
  {
    hide U32;
    var s' := s.Enter(t, s.At(t).Queued());
    TurnIsUnique(s, t);
    assert s'.grants == s.takes[..|s'.grants|];
    forall u: nat ensures LocalOk(s', u) { assert LocalOk(s, u); }
  }

  /** A step that only changes where a thread stands. */
  lemma StayKeeps(s: State, t: nat, l: Local)
    requires Inv(s) && (l.Queued() <==> s.At(t).Queued())
    requires if s.At(t).Waiting() then l.Waiting() && l.ticket == s.At(t).ticket else s.At(t).Inside() && l.Inside()
    ensures Inv(s.Go(t, l))
  {
    hide U32, LocalOk;
    forall u: nat ensures LocalOk(s.Go(t, l), u) {
      assert LocalOk(s, u);
      StayLocal(s, t, l, u);
    }
  }

  lemma StayLocal(s: State, t: nat, l: Local, u: nat)
    requires s.releases <= |s.grants| <= |s.takes| && LocalOk(s, u) && (l.Queued() <==> s.At(t).Queued())
    requires if s.At(t).Waiting() then l.Waiting() else s.At(t).Inside() && l.Inside()
    ensures LocalOk(s.Go(t, l), u)
  {
  }

  /** A thread queues alone. */
  lemma SwapKeeps(s: State, t: nat)
    requires Inv(s) && s.At(t).Swap? && s.tail < 0
    ensures Inv(Advanced(s, t))
  {
    hide U32;
    var s' := Advanced(s, t);
    forall u: nat ensures LocalOk(s', u) { assert LocalOk(s, u); }
  }

  /** The queue is empty again. */
  lemma ClearKeeps(s: State, t: nat)
    requires Inv(s) && s.At(t).ClearTail?
    ensures s.tail == t && Inv(s.(tail := NOBODY).Go(t, Bump))
  {
    hide U32;
    var s' := s.(tail := NOBODY).Go(t, Bump);
    assert LocalOk(s, t);
    forall u: nat ensures LocalOk(s', u) { assert LocalOk(s, u); }
  }

  lemma LoneNode(s: State, t: nat)
    requires Inv(s) && s.At(t).Queued()
    ensures t in s.nodes && s.nodes[t].next == NOBODY
  {
    assert LocalOk(s, t);
  }

  lemma SetSpinKeeps(s: State, n: u32)
    requires Inv(s)
    ensures Inv(s.(spin := n))
  {
    hide U32;
    forall u: nat ensures LocalOk(s.(spin := n), u) { assert LocalOk(s, u); }
  }

  lemma InvKept(s: State, a: Action)
    requires Inv(s) && Outstanding(s) <= TWO32 && Enabled(s, a) && !Chains(s, a)
    ensures Inv(Do(s, a))
  {
    hide Inv;
    match a
    case Lock(t) => LockKeeps(s, t);
    case Unlock(t) => if s.At(t).queued { StayKeeps(s, t, LoadNext); } else { BumpKeeps(s, t); }
    case SetSpin(n) => SetSpinKeeps(s, Do(s, a).spin);
    case Advance(t) =>
      LocalOf(s, t);
      var l := s.At(t);
      if l.Swap? { SwapKeeps(s, t); }
      else if l.Waiting() {
        if Advanced(s, t).At(t).Held? { EnterKeeps(s, t); }
        else if Advanced(s, t) != s { StayKeeps(s, t, Advanced(s, t).At(t)); }
      }
      else if l.LoadNext? {
        LoneNode(s, t);
        StayKeeps(s, t, ClearTail);
      }
      else if l.ClearTail? { ClearKeeps(s, t); }
      else { BumpKeeps(s, t); }
  }

  lemma LocalOf(s: State, t: nat)
    requires Inv(s)
    ensures s.At(t).Idle? || s.At(t).Waiting() || s.At(t).Inside()
  {
    assert LocalOk(s, t);
  }

  lemma {:induction false} TicketRunsKeepInv(acts: seq<Action>)
    requires TicketRun(acts, TWO32)
    ensures Inv(Run(Init(), acts).state)
  {
    if acts == [] {
      forall t: nat ensures LocalOk(Init(), t) {}
    } else {
      hide Inv, Do, Enabled, Chains;
      var before := acts[..|acts| - 1];
      TicketRunsKeepInv(before);
      InvKept(Run(Init(), before).state, acts[|acts| - 1]);
    }
  }

  /** Mutual exclusion and fairness: as long as nobody queues behind another thread and at most
      2^32 tickets are outstanding, at most one guard is live and threads enter in the order in
      which they took their tickets, also when the 32-bit counters wrap around. */
  lemma TicketPathIsFair(acts: seq<Action>)
    requires TicketRun(acts, TWO32)
    ensures var s := Run(Init(), acts).state; AtMostOneGuard(s) && s.grants <= s.takes
  {
    var s := Run(Init(), acts).state;
    hide Run, TicketRun;
    TicketRunsKeepInv(acts);
    forall t: nat, u: nat | s.At(t).Held? && s.At(u).Held? ensures t == u {
      assert LocalOk(s, t) && LocalOk(s, u);
    }
  }

  /** When the lock is free, the oldest ticket is the one on show: its holder gets in at its
      next look, and nobody else does before that. */
  lemma NextInLine(acts: seq<Action>, t: nat)
    requires TicketRun(acts, TWO32)
    requires var s := Run(Init(), acts).state; s.At(t).Waiting() && forall u: nat :: !s.At(u).Inside()
    ensures var s := Run(Init(), acts).state;
            && s.releases == |s.grants| < |s.takes|
            && (s.owner == s.At(t).ticket <==> t == s.takes[|s.grants|])
  {
    var s := Run(Init(), acts).state;
    hide Run, TicketRun, U32;
    TicketRunsKeepInv(acts);
    assert Outstanding(s) <= TWO32 by { LastBound(acts); }
    assert LocalOk(s, t);
    HolderIsInside(s);
    if s.owner == s.At(t).ticket { TurnIsUnique(s, t); }
  }

  lemma LastBound(acts: seq<Action>)
    requires TicketRun(acts, TWO32)
    ensures Outstanding(Run(Init(), acts).state) <= TWO32
  {
  }
}
