/** Where the lock stops excluding: one ticket more than the counters can tell apart, and the
    queue that impatient threads fall back on. */
module TicketLimits {
  import opened Words
  import opened TicketLock

  // ----- one ticket too many -----

  function Crowd(n: nat): seq<Action> { seq(n, i requires 0 <= i => Lock(i)) }

  /** After n threads have asked and nobody has looked yet. */
  ghost predicate Crowded(s: State, n: nat)
  {
    && s.owner == 0 && s.next == U32(n) && |s.takes| == n && s.grants == [] && s.releases == 0
    && forall t: nat :: s.At(t) == if t < n then First(U32(t)) else Idle
  }

  lemma CrowdGrows(s: State, n: nat)
    requires Crowded(s, n)
    ensures Enabled(s, Lock(n)) && Crowded(Do(s, Lock(n)), n + 1)
  {
    hide U32;
    NextResidue(n);
    assert s.At(n).Idle?;
    var s' := Do(s, Lock(n));
    forall t: nat ensures s'.At(t) == if t < n + 1 then First(U32(t)) else Idle {
      assert s.At(t) == if t < n then First(U32(t)) else Idle;
    }
  }

  lemma {:induction false} CrowdGathers(n: nat, limit: int)
    requires n <= limit
    ensures TicketRun(Crowd(n), limit) && Crowded(Run(Init(), Crowd(n)).state, n)
  {
    if n > 0 {
      hide Do, Enabled;
      CrowdGathers(n - 1, limit);
      assert Crowd(n)[..n - 1] == Crowd(n - 1);
      CrowdGrows(Run(Init(), Crowd(n - 1)).state, n - 1);
    }
  }

  lemma LookAndEnter(acts: seq<Action>, limit: int, t: nat)
    requires TicketRun(acts, limit)
    requires var s := Run(Init(), acts).state; s.At(t) == First(s.owner)
    ensures TicketRun(acts + [Advance(t)], limit)
    ensures Run(Init(), acts + [Advance(t)]).state == Run(Init(), acts).state.Enter(t, false)
  {
    assert (acts + [Advance(t)])[..|acts|] == acts;
  }

  /** The bound of 2^32 outstanding tickets is exact: with one more, two guards can be live. */
  lemma OneTicketTooMany() returns (acts: seq<Action>)
    ensures TicketRun(acts, TWO32 + 1)
    ensures !AtMostOneGuard(Run(Init(), acts).state)
  {
    hide TicketRun, Run;
    var n: nat := TWO32 + 1;
    var crowd := Crowd(n);
    CrowdGathers(n, TWO32 + 1);
    LookAndEnter(crowd, TWO32 + 1, 0);
    assert U32(TWO32) == 0;
    LookAndEnter(crowd + [Advance(0)], TWO32 + 1, TWO32);
    acts := crowd + [Advance(0)] + [Advance(TWO32)];
    var s := Run(Init(), acts).state;
    assert s.At(0).Held? && s.At(TWO32).Held?;
  }

  // ----- the queue -----

  lemma {:induction false} RunsCompose(s: State, a: seq<Action>, b: seq<Action>)
    requires Run(s, a).Reached?
    ensures Run(s, a + b) == Run(Run(s, a).state, b)
    decreases |b|
  {
    if b == [] {
      assert a + b == a;
    } else {
      RunsCompose(s, a, b[..|b| - 1]);
      assert (a + b)[..|a + b| - 1] == a + b[..|b| - 1];
    }
  }

  /** One more action at the end of a run. */
  lemma Then(s: State, acts: seq<Action>, m: State, a: Action)
    requires Run(s, acts) == Reached(m) && Enabled(m, a)
    ensures Run(s, acts + [a]) == Reached(Do(m, a))
  {
    assert (acts + [a])[..|acts|] == acts;
  }

  lemma {:induction false} SpinsOut(s: State, t: nat, n: nat)
    requires var l := s.At(t); l.Spin? && l.loops + n == l.max && s.owner != l.ticket
    ensures Run(s, seq(n, _ => Advance(t))).Reached?
    ensures Run(s, seq(n, _ => Advance(t))).state == s.Go(t, s.At(t).(loops := s.At(t).max))
  {
    SpinsOn(s, t, n);
    if n == 0 { assert s.threads[t := s.threads[t]] == s.threads; }
  }

  lemma {:induction false} SpinsOn(s: State, t: nat, n: nat)
    requires var l := s.At(t); l.Spin? && l.loops + n <= l.max && s.owner != l.ticket
    ensures Run(s, seq(n, _ => Advance(t))).Reached?
    ensures Run(s, seq(n, _ => Advance(t))).state == s.Go(t, s.At(t).(loops := s.At(t).loops + n))
  {
    var acts := seq(n, _ => Advance(t));
    if n == 0 {
      assert s.threads[t := s.threads[t]] == s.threads;
    } else {
      assert acts[..n - 1] == seq(n - 1, _ => Advance(t));
      SpinsOn(s, t, n - 1);
      var l := s.At(t).(loops := s.At(t).loops + n);
      GoTwice(s, t, s.At(t).(loops := s.At(t).loops + n - 1), l);
    }
  }

  lemma GoTwice(s: State, t: nat, l: Local, l': Local)
    ensures s.Go(t, l).Go(t, l') == s.Go(t, l')
  {
  }

  /** s' differs from s only by the ticket that t took and by where t stands. */
  ghost predicate Asked(s: State, s': State, t: nat, l: Local)
  {
    && s'.owner == s.owner && s'.next == U32(s.next + 1) && s'.spin == s.spin && s'.tail == s.tail && s'.nodes == s.nodes
    && s'.At(t) == l && forall u: nat | u != t :: s'.At(u) == s.At(u)
  }

  /** A thread that asks while another's ticket is on show spins until it gives up. */
  lemma GivesUp(s: State, t: nat) returns (acts: seq<Action>, s': State)
    requires s.At(t).Idle? && s.owner != s.next
    ensures Run(s, acts) == Reached(s') && Asked(s, s', t, Swap(s.next))
  {
    hide U32, Run;
    var k := s.next;
    var s1 := Do(s, Lock(t));
    var s2 := Do(s1, Advance(t));
    var s3 := Do(s2, Advance(t));
    assert s3.At(t) == Spin(k, 0, s.spin);
    acts := Enters(s, t);
    var spins := seq(s.spin, _ => Advance(t));
    SpinsOut(s3, t, s.spin);
    RunsCompose(s, acts, spins);
    var s4 := s3.Go(t, Spin(k, s.spin, s.spin));
    s' := Do(s4, Advance(t));
    Then(s, acts + spins, s4, Advance(t));
    acts := acts + spins + [Advance(t)];
  }

  lemma Enters(s: State, t: nat) returns (acts: seq<Action>)
    requires s.At(t).Idle? && s.owner != s.next
    ensures var s1 := Do(s, Lock(t)); var s2 := Do(s1, Advance(t));
            Enabled(s1, Advance(t)) && Enabled(s2, Advance(t)) && Run(s, acts) == Reached(Do(s2, Advance(t)))
  {
    hide Run;
    var s1 := Do(s, Lock(t));
    var s2 := Do(s1, Advance(t));
    assert Run(s, []) == Reached(s) by { Nothing(s); }
    Then(s, [], s, Lock(t));
    Then(s, [] + [Lock(t)], s1, Advance(t));
    Then(s, [] + [Lock(t)] + [Advance(t)], s2, Advance(t));
    acts := [] + [Lock(t)] + [Advance(t)] + [Advance(t)];
  }

  lemma Nothing(s: State)
    ensures Run(s, []) == Reached(s)
  {
  }

  /** Thread 0 is inside, and thread 1 has given up spinning and heads the queue. */
  ghost predicate OneQueued(s: State)
  {
    && s.owner == 0 && s.next == 2 && s.tail == 1 && s.nodes == map[1 := McsNode(NOBODY, true)]
    && s.At(0) == Held(false) && s.At(1) == AwaitTurn(1) && s.At(2) == Idle && s.At(3) == Idle
  }

  lemma ReachOneQueued() returns (acts: seq<Action>, s: State)
    ensures Run(Init(), acts) == Reached(s) && OneQueued(s)
  {
    hide Run;
    var s0 := Init();
    Nothing(s0);
    var s1 := Do(s0, Lock(0));
    Then(s0, [], s0, Lock(0));
    var s2 := Do(s1, Advance(0));
    Then(s0, [] + [Lock(0)], s1, Advance(0));
    var more, s3 := GivesUp(s2, 1);
    acts := [] + [Lock(0)] + [Advance(0)];
    RunsCompose(s0, acts, more);
    s := Do(s3, Advance(1));
    assert s.nodes == map[1 := McsNode(NOBODY, true)];
    assert forall u: nat | u != 1 :: s.At(u) == s3.At(u);
    Then(s0, acts + more, s3, Advance(1));
    acts := acts + more + [Advance(1)];
  }

  /** Thread 2 has taken ticket 2 and still spins; thread 3, with ticket 3, queues behind thread 1. */
  ghost predicate TwoQueued(s: State)
  {
    && s.owner == 0 && s.next == 4 && s.tail == 3 && s.nodes == map[1 := McsNode(3, true), 3 := McsNode(NOBODY, true)]
    && s.At(0) == Held(false) && s.At(1) == AwaitTurn(1) && s.At(2) == First(2) && s.At(3) == AwaitFlag
  }

  lemma ReachTwoQueued(s: State) returns (acts: seq<Action>, s': State)
    requires OneQueued(s)
    ensures Run(s, acts) == Reached(s') && TwoQueued(s')
  {
    hide Run;
    Nothing(s);
    var s1 := Do(s, Lock(2));
    Then(s, [], s, Lock(2));
    var more, s2 := GivesUp(s1, 3);
    RunsCompose(s, [] + [Lock(2)], more);
    acts := [] + [Lock(2)] + more;
    var s3 := Do(s2, Advance(3));
    Then(s, acts, s2, Advance(3));
    s' := Do(s3, Advance(3));
    assert s'.nodes == map[1 := McsNode(3, true), 3 := McsNode(NOBODY, true)];
    assert forall u: nat | u != 3 :: s'.At(u) == s2.At(u);
    Then(s, acts + [Advance(3)], s3, Advance(3));
    acts := acts + [Advance(3)] + [Advance(3)];
  }

  /** Thread 0 leaves, thread 1 enters from the queue and is on its way out. */
  ghost predicate Leaving(s: State)
  {
    && s.owner == 1 && s.nodes == map[1 := McsNode(3, true), 3 := McsNode(NOBODY, true)]
    && s.At(1) == LoadNext && s.At(2) == First(2) && s.At(3) == AwaitFlag
  }

  lemma ReachLeaving(s: State) returns (acts: seq<Action>, s': State)
    requires TwoQueued(s)
    ensures Run(s, acts) == Reached(s') && Leaving(s')
  {
    hide Run;
    Nothing(s);
    var s1 := Do(s, Unlock(0));
    Then(s, [], s, Unlock(0));
    var s2 := Do(s1, Advance(1));
    Then(s, [] + [Unlock(0)], s1, Advance(1));
    s' := Do(s2, Unlock(1));
    Then(s, [] + [Unlock(0)] + [Advance(1)], s2, Unlock(1));
    acts := [] + [Unlock(0)] + [Advance(1)] + [Unlock(1)];
  }

  lemma ReachTwoGuards(s: State) returns (acts: seq<Action>, s': State)
    requires Leaving(s)
    ensures Run(s, acts) == Reached(s') && s'.At(2).Held? && s'.At(3).Held?
  {
    hide Run;
    Nothing(s);
    var s1 := Do(s, Advance(1));
    Then(s, [], s, Advance(1));
    var s2 := Do(s1, Advance(1));
    acts := [] + [Advance(1)];
    Then(s, acts, s1, Advance(1));
    var s3 := Do(s2, Advance(1));
    acts := acts + [Advance(1)];
    Then(s, acts, s2, Advance(1));
    var s4 := Do(s3, Advance(2));
    acts := acts + [Advance(1)];
    Then(s, acts, s3, Advance(2));
    s' := Do(s4, Advance(3));
    acts := acts + [Advance(2)];
    Then(s, acts, s4, Advance(3));
    acts := acts + [Advance(3)];
  }

  /** The queue hands the lock on without regard to tickets: one release lets in both the next
      thread of the queue and the spinning thread whose ticket comes up. */
  lemma QueueBreaksExclusion() returns (acts: seq<Action>)
    ensures Run(Init(), acts).Reached? && !AtMostOneGuard(Run(Init(), acts).state)
  {
    hide Run, Leaving, OneQueued, TwoQueued;
    var a1, s1 := ReachOneQueued();
    var a2, s2 := ReachTwoQueued(s1);
    var a3, s3 := ReachLeaving(s2);
    var a4, s4 := ReachTwoGuards(s3);
    RunsCompose(Init(), a1, a2);
    RunsCompose(Init(), a1 + a2, a3);
    RunsCompose(Init(), a1 + a2 + a3, a4);
    acts := a1 + a2 + a3 + a4;
  }
}
