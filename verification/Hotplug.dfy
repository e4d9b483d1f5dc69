/** Bringing processors up and down, as a state machine: every atomic access is one step, the
    steps of any number of callers interleave, and callbacks, platform and reference counts
    answer as they like. The last section restricts the platform to the answers that the polling
    loops of the source can give. */
module Hotplug {
  import opened Words

  datatype CpuState = Offline | ComingUp | Online | GoingDown | Dead

  datatype Cpu = Cpu(state: CpuState, online: bool, hotplugging: bool)

  datatype Error = InvalidCpuId | AlreadyInState | InvalidStateTransition | PrepareFailed | OperationFailed

  datatype Outcome = Done | Failed(error: Error)

  /** Where a caller stands: the next atomic step it will take. Inside, up tells the direction. */
  datatype Local =
    | Idle
    | Check(up: bool, cpu: nat)
    | Mark(up: bool, cpu: nat)
    | Prepare(up: bool, cpu: nat)
    | Platform(up: bool, cpu: nat)
    | Unmark(up: bool, cpu: nat, error: Error)
    | SetState(up: bool, cpu: nat)
    | SetFlag(up: bool, cpu: nat)
    | Clear(up: bool, cpu: nat)
    | Count(up: bool, cpu: nat)
    | Record(up: bool, cpu: nat)
    | Leave(outcome: Outcome)

  /** snap is a history variable that no step reads: the processors and counters as they were
      when the gate was last taken. */
  datatype Snapshot = Snapshot(cpus: seq<Cpu>, onlineCpus: u32, ups: u32, downs: u32)

  datatype State = State(gate: bool, cpus: seq<Cpu>, onlineCpus: u32, ups: u32, downs: u32, threads: map<nat, Local>, snap: Snapshot)
  {
    function At(t: nat): Local { if t in threads then threads[t] else Idle }

    function Go(t: nat, l: Local): State { this.(threads := threads[t := l]) }

    function Now(): Snapshot { Snapshot(cpus, onlineCpus, ups, downs) }

    function With(i: nat, c: Cpu): State
      requires i < |cpus|
    { this.(cpus := cpus[i := c]) }
  }

  /** A call begins, or a caller takes its next step; `yes` is the answer of whatever the step
      asks: the callbacks, the platform, or whether somebody holds a reference. */
  datatype Action = Begin(t: nat, up: bool, cpu: u32) | Advance(t: nat, yes: bool)

  function Init(maxCpus: nat): State
  {
    var cpus := seq(maxCpus, _ => Cpu(Offline, false, false));
    State(false, cpus, 0, 0, 0, map[], Snapshot(cpus, 0, 0, 0))
  }

  predicate Marked(l: Local) { l.Mark? || l.Prepare? || l.Platform? || l.Unmark? || l.SetState? || l.SetFlag? || l.Clear? || l.Count? || l.Record? }

  predicate Enabled(s: State, a: Action)
  {
    match a
    case Begin(t, _, _) => s.At(t).Idle?
    case Advance(t, _) => !s.At(t).Idle? && (Marked(s.At(t)) ==> s.At(t).cpu < |s.cpus|)
  }

  /** The tests before anything is changed; `busy` says that the processor is referenced. */
  function Checked(s: State, up: bool, cpu: nat, busy: bool): Local
  {
    if !up && cpu == 0 then Leave(Failed(InvalidStateTransition))
    else if cpu >= |s.cpus| then Leave(Failed(InvalidCpuId))
    else
      var st := s.cpus[cpu].state;
      if st == (if up then Online else Offline) then Leave(Failed(AlreadyInState))
      else if st != (if up then Offline else Online) then Leave(Failed(InvalidStateTransition))
      else if !up && busy then Leave(Failed(InvalidStateTransition))
      else Mark(up, cpu)
  }

  function Do(s: State, a: Action): State
    requires Enabled(s, a)
  {
    match a
    case Begin(t, up, cpu) => if s.gate then s else s.(gate := true, snap := s.Now()).Go(t, Check(up, cpu))
    case Advance(t, yes) =>
      match s.At(t)
      case Check(up, cpu) => s.Go(t, Checked(s, up, cpu, yes))
      case Mark(up, i) => s.With(i, s.cpus[i].(hotplugging := true)).Go(t, Prepare(up, i))
      case Prepare(up, i) => s.Go(t, if yes then Platform(up, i) else Unmark(up, i, PrepareFailed))
      case Platform(up, i) => s.Go(t, if yes then SetState(up, i) else Unmark(up, i, OperationFailed))
      case Unmark(up, i, e) => s.With(i, s.cpus[i].(hotplugging := false)).Go(t, Leave(Failed(e)))
      case SetState(up, i) => s.With(i, s.cpus[i].(state := if up then Online else Offline)).Go(t, SetFlag(up, i))
      case SetFlag(up, i) => s.With(i, s.cpus[i].(online := up)).Go(t, Clear(up, i))
      case Clear(up, i) => s.With(i, s.cpus[i].(hotplugging := false)).Go(t, Count(up, i))
      case Count(up, i) => s.(onlineCpus := U32(if up then s.onlineCpus + 1 else s.onlineCpus - 1)).Go(t, Record(up, i))
      case Record(up, i) => (if up then s.(ups := U32(s.ups + 1)) else s.(downs := U32(s.downs + 1))).Go(t, Leave(Done))
      case Leave(_) => s.(gate := false).Go(t, Idle)
      case Idle => s
  }

  predicate Runs(maxCpus: nat, acts: seq<Action>)
    decreases |acts|, 0
  {
    acts == [] || (Runs(maxCpus, acts[..|acts| - 1]) && Enabled(After(maxCpus, acts[..|acts| - 1]), acts[|acts| - 1]))
  }

  function After(maxCpus: nat, acts: seq<Action>): State
    requires Runs(maxCpus, acts)
    decreases |acts|, 1
  {
    if acts == [] then Init(maxCpus) else Do(After(maxCpus, acts[..|acts| - 1]), acts[|acts| - 1])
  }

  // ----- counting -----

  function OnlineCount(cpus: seq<Cpu>): nat
  {
    if cpus == [] then 0 else OnlineCount(cpus[..|cpus| - 1]) + if cpus[|cpus| - 1].state == Online then 1 else 0
  }

  function One(c: Cpu): nat { if c.state == Online then 1 else 0 }

  lemma {:induction false} CountUpdate(cpus: seq<Cpu>, i: nat, c: Cpu)
    requires i < |cpus|
    ensures OnlineCount(cpus[i := c]) == OnlineCount(cpus) - One(cpus[i]) + One(c)
    decreases |cpus|
  {
    var n := |cpus| - 1;
    if i == n { assert cpus[i := c][..n] == cpus[..n]; }
    else {
      CountUpdate(cpus[..n], i, c);
      assert cpus[i := c][..n] == cpus[..n][i := c];
    }
  }

  lemma {:induction false} CountBound(cpus: seq<Cpu>)
    ensures OnlineCount(cpus) <= |cpus|
  {
    if cpus != [] { CountBound(cpus[..|cpus| - 1]); }
  }

  // ----- the invariant -----

  /** The books balance: flags follow states, nobody is being changed, and the counters agree
      with the number of processors that are online, also after the counters wrap around. */
  ghost predicate Balanced(s: Snapshot)
  {
    && (forall i | 0 <= i < |s.cpus| :: Settled(s.cpus[i]))
    && s.onlineCpus == OnlineCount(s.cpus) && U32(s.ups - s.downs) == s.onlineCpus
  }

  predicate Settled(c: Cpu) { !c.hotplugging && (c.state == Offline || c.state == Online) && (c.online <==> c.state == Online) }

  function Target(up: bool): Cpu { Cpu(if up then Online else Offline, up, false) }

  /** The descriptor of the processor being changed, at each stage. */
  function Interim(c: Cpu, l: Local): Cpu
    requires Marked(l)
  {
    if l.Mark? then c
    else if l.SetFlag? then Cpu(Target(l.up).state, c.online, true)
    else if l.Clear? then Cpu(Target(l.up).state, l.up, true)
    else if l.Count? || l.Record? then Target(l.up)
    else c.(hotplugging := true)
  }

  /** What the caller inside has changed so far, relative to the snapshot. */
  ghost predicate Changed(s: State, l: Local)
  {
    var k := s.snap;
    if l.Idle? then false
    else if l.Check? then s.Now() == k
    else if Marked(l) then
      && Starts(k, l.up, l.cpu)
      && s.Now() == k.(cpus := k.cpus[l.cpu := Interim(k.cpus[l.cpu], l)],
                       onlineCpus := if l.Record? then Counted(k.onlineCpus, l.up) else k.onlineCpus)
    else if l.outcome.Failed? then s.Now() == k
    else exists up: bool, i: nat :: Starts(k, up, i) && s.Now() == Finished(k, up, i)
  }

  function Counted(n: u32, up: bool): u32 { U32(if up then n + 1 else n - 1) }

  /** Processor i is in the state from which the call may proceed. */
  predicate Starts(k: Snapshot, up: bool, i: nat)
  {
    i < |k.cpus| && k.cpus[i].state == (if up then Offline else Online) && (up || i != 0)
  }

  /** A completed call: one processor changed, and each counter moved by one. */
  function Finished(k: Snapshot, up: bool, i: nat): Snapshot
    requires i < |k.cpus|
  {
    Snapshot(k.cpus[i := Target(up)], Counted(k.onlineCpus, up),
             if up then U32(k.ups + 1) else k.ups, if up then k.downs else U32(k.downs + 1))
  }

  ghost predicate Inv(s: State)
  {
    && |s.cpus| < TWO32 && |s.snap.cpus| == |s.cpus| && Balanced(s.snap)
    && (if s.gate then exists t: nat :: !s.At(t).Idle? else Balanced(s.Now()))
    && (forall t: nat, u: nat | !s.At(t).Idle? && !s.At(u).Idle? :: t == u)
    && (forall t: nat | !s.At(t).Idle? :: s.gate && Changed(s, s.At(t)))
  }

  lemma WrapDifference(a: u32, b: u32, n: u32)
    requires U32(a - b) == n
    ensures U32(U32(a + 1) - b) == U32(n + 1) && U32(a - U32(b + 1)) == U32(n - 1)
  {
    WrapOnce(a - b);
    WrapOnce(a + 1 - TWO32);
    WrapOnce(b + 1 - TWO32);
    hide U32;
    Wraps(a + 1);
    Wraps(b + 1);
    Wraps(U32(a + 1) - b);
    Wraps(a - U32(b + 1));
    Wraps(n + 1);
    Wraps(n - 1);
  }

  /** Reduction of a number at most one word size away from its range. */
  lemma Wraps(x: int)
    requires -TWO32 <= x < 2 * TWO32
    ensures U32(x) == if x < 0 then x + TWO32 else if x < TWO32 then x else x - TWO32
  {
    if x < 0 { DivModUnique(x, TWO32, -1, x + TWO32); }
    else if x < TWO32 { DivModUnique(x, TWO32, 0, x); }
    else { DivModUnique(x, TWO32, 1, x - TWO32); }
  }

  /** A completed call keeps the books balanced. */
  lemma FinishedBalances(k: Snapshot, up: bool, i: nat)
    requires Balanced(k) && |k.cpus| < TWO32 && Starts(k, up, i)
    ensures Balanced(Finished(k, up, i))
  {
    hide U32;
    CountUpdate(k.cpus, i, Target(up));
    CountBound(k.cpus[i := Target(up)]);
    CountBound(k.cpus);
    WrapDifference(k.ups, k.downs, k.onlineCpus);
    Wraps(k.onlineCpus + 1);
    Wraps(k.onlineCpus - 1);
    var cpus := k.cpus[i := Target(up)];
    forall j | 0 <= j < |cpus| ensures Settled(cpus[j]) {
      if j != i { assert Settled(k.cpus[j]); }
    }
  }

  lemma UpdateTwice(cpus: seq<Cpu>, i: nat, c: Cpu, d: Cpu)
    requires i < |cpus|
    ensures cpus[i := c][i := d] == cpus[i := d] && cpus[i := cpus[i]] == cpus
  {
  }

  predicate WritesCpu(l: Local) { l.Mark? || l.Unmark? || l.SetState? || l.SetFlag? || l.Clear? }

  /** What a step makes of a descriptor. */
  function Written(c: Cpu, l: Local): Cpu
    requires WritesCpu(l)
  {
    match l
    case Mark(_, _) => c.(hotplugging := true)
    case SetState(up, _) => c.(state := if up then Online else Offline)
    case SetFlag(up, _) => c.(online := up)
    case _ => c.(hotplugging := false)
  }

  lemma WritesDescriptor(s: State, t: nat, yes: bool)
    requires WritesCpu(s.At(t)) && Enabled(s, Advance(t, yes))
    ensures var l, s' := s.At(t), Do(s, Advance(t, yes));
            && s' == s.(cpus := s.cpus[l.cpu := Written(s.cpus[l.cpu], l)], threads := s'.threads)
            && s'.At(t) == (match l
                            case Mark(up, i) => Prepare(up, i)
                            case SetState(up, i) => SetFlag(up, i)
                            case SetFlag(up, i) => Clear(up, i)
                            case Clear(up, i) => Count(up, i)
                            case Unmark(_, _, e) => Leave(Failed(e)))
  {
  }

  /** The steps that write to a processor's descriptor. */
  lemma ChangedCpu(s: State, t: nat, yes: bool)
    requires |s.snap.cpus| == |s.cpus| && Balanced(s.snap) && Changed(s, s.At(t)) && WritesCpu(s.At(t)) && Enabled(s, Advance(t, yes))
    ensures var s' := Do(s, Advance(t, yes)); s'.snap == s.snap && s'.gate == s.gate && |s'.cpus| == |s.cpus| && Changed(s', s'.At(t))
  {
    hide U32, OnlineCount, Do, Finished;
    var k, l := s.snap, s.At(t);
    var c := k.cpus[l.cpu];
    assert Settled(c);
    WritesDescriptor(s, t, yes);
    UpdateTwice(k.cpus, l.cpu, Interim(c, l), Written(Interim(c, l), l));
    var s' := Do(s, Advance(t, yes));
    if l.Unmark? {
      assert Written(Interim(c, l), l) == c;
    } else {
      assert Written(Interim(c, l), l) == Interim(c, s'.At(t));
    }
  }

  lemma Asks(s: State, t: nat, yes: bool)
    requires (s.At(t).Check? || s.At(t).Prepare? || s.At(t).Platform?) && Enabled(s, Advance(t, yes))
    ensures var l, s' := s.At(t), Do(s, Advance(t, yes));
            && s' == s.(threads := s'.threads)
            && s'.At(t) == (match l
                            case Check(up, i) => Checked(s, up, i, yes)
                            case Prepare(up, i) => if yes then Platform(up, i) else Unmark(up, i, PrepareFailed)
                            case Platform(up, i) => if yes then SetState(up, i) else Unmark(up, i, OperationFailed))
  {
  }

  lemma Counts(s: State, t: nat, yes: bool)
    requires (s.At(t).Count? || s.At(t).Record?) && Enabled(s, Advance(t, yes))
    ensures var l, s' := s.At(t), Do(s, Advance(t, yes));
            && s'.cpus == s.cpus && s'.snap == s.snap && s'.gate == s.gate
            && (l.Count? ==> s'.At(t) == Record(l.up, l.cpu) && s'.Now() == s.Now().(onlineCpus := Counted(s.onlineCpus, l.up)))
            && (l.Record? ==> s'.At(t) == Leave(Done))
            && (l.Record? ==> s'.Now() == s.Now().(ups := if l.up then U32(s.ups + 1) else s.ups, downs := if l.up then s.downs else U32(s.downs + 1)))
  {
    hide U32;
  }

  /** The steps that ask, count or record. */
  lemma ChangedRest(s: State, t: nat, yes: bool)
    requires |s.snap.cpus| == |s.cpus| && Changed(s, s.At(t)) && !WritesCpu(s.At(t)) && !s.At(t).Leave? && Enabled(s, Advance(t, yes))
    ensures var s' := Do(s, Advance(t, yes)); s'.snap == s.snap && s'.gate == s.gate && |s'.cpus| == |s.cpus| && Changed(s', s'.At(t))
  {
    hide U32, Do;
    var l, s' := s.At(t), Do(s, Advance(t, yes));
    if l.Count? || l.Record? {
      Counts(s, t, yes);
      if l.Record? { assert s'.Now() == Finished(s.snap, l.up, l.cpu); }
    } else {
      Asks(s, t, yes);
      if l.Check? && l.cpu < |s.cpus| { UpdateTwice(s.cpus, l.cpu, s.cpus[l.cpu], s.cpus[l.cpu]); }
    }
  }

  /** One step of the caller inside keeps the account of what it has changed. */
  lemma ChangedStep(s: State, t: nat, yes: bool)
    requires |s.snap.cpus| == |s.cpus| && Balanced(s.snap) && Changed(s, s.At(t)) && !s.At(t).Leave? && Enabled(s, Advance(t, yes))
    ensures var s' := Do(s, Advance(t, yes)); s'.snap == s.snap && s'.gate == s.gate && |s'.cpus| == |s.cpus| && Changed(s', s'.At(t))
  {
    hide Do, Changed, Balanced;
    if WritesCpu(s.At(t)) { ChangedCpu(s, t, yes); } else { ChangedRest(s, t, yes); }
  }

  lemma LeaveBalances(s: State, t: nat)
    requires |s.snap.cpus| == |s.cpus| < TWO32 && Balanced(s.snap) && s.At(t).Leave? && Changed(s, s.At(t))
    ensures Balanced(s.Now())
  {
    hide Balanced, Finished;
    var l := s.At(t);
    if l.outcome.Done? {
      var up: bool, i: nat :| Starts(s.snap, up, i) && s.Now() == Finished(s.snap, up, i);
      FinishedBalances(s.snap, up, i);
    }
  }

  lemma OthersIdle(s: State, t: nat, s': State, l: Local)
    requires (forall u: nat, v: nat | !s.At(u).Idle? && !s.At(v).Idle? :: u == v) && (s.gate ==> !s.At(t).Idle?)
    requires (forall u: nat | !s.At(u).Idle? :: s.gate) && s'.threads == s.threads[t := l]
    ensures forall u: nat | u != t :: s'.At(u).Idle?
  {
    forall u: nat | u != t ensures s'.At(u).Idle? { assert s'.At(u) == s.At(u); }
  }

  lemma InvKept(s: State, a: Action)
    requires Inv(s) && Enabled(s, a)
    ensures Inv(Do(s, a))
  {
    hide Balanced, Changed;
    var s', t := Do(s, a), a.t;
    if a.Begin? {
      if !s.gate {
        OthersIdle(s, t, s', s'.At(t));
        assert s'.At(t).Check? && Changed(s', s'.At(t)) by { JustEntered(s', t); }
      }
    } else {
      OthersIdle(s, t, s', s'.At(t));
      if s.At(t).Leave? {
        LeaveBalances(s, t);
      } else {
        ChangedStep(s, t, a.yes);
        StaysInside(s, t, a.yes);
      }
    }
  }

  lemma JustEntered(s: State, t: nat)
    requires s.At(t).Check? && s.snap == s.Now()
    ensures Changed(s, s.At(t))
  {
  }

  lemma StaysInside(s: State, t: nat, yes: bool)
    requires Enabled(s, Advance(t, yes)) && !s.At(t).Leave?
    ensures !Do(s, Advance(t, yes)).At(t).Idle?
  {
  }

  lemma InitOk(maxCpus: nat)
    requires maxCpus < TWO32
    ensures Inv(Init(maxCpus))
  {
    NoneOnline(maxCpus);
  }

  lemma {:induction false} NoneOnline(n: nat)
    ensures OnlineCount(seq(n, _ => Cpu(Offline, false, false))) == 0
  {
    if n > 0 {
      NoneOnline(n - 1);
      assert seq(n, _ => Cpu(Offline, false, false))[..n - 1] == seq(n - 1, _ => Cpu(Offline, false, false));
    }
  }

  // ----- every run -----

  lemma {:induction false} RunsKeepInv(maxCpus: nat, acts: seq<Action>)
    requires maxCpus < TWO32 && Runs(maxCpus, acts)
    ensures Inv(After(maxCpus, acts))
  {
    if acts == [] {
      InitOk(maxCpus);
    } else {
      hide Inv, Do, Enabled;
      RunsKeepInv(maxCpus, acts[..|acts| - 1]);
      InvKept(After(maxCpus, acts[..|acts| - 1]), acts[|acts| - 1]);
    }
  }

  /** Over every run and for all answers of callbacks and platform: whenever the gate is free,
      no processor is marked as changing, and the online counter is the number of processors
      online and the difference of the success counters. */
  lemma FreeGateMeansBalanced(maxCpus: nat, acts: seq<Action>)
    requires maxCpus < TWO32 && Runs(maxCpus, acts) && !After(maxCpus, acts).gate
    ensures var s := After(maxCpus, acts);
            && (forall i | 0 <= i < |s.cpus| :: !s.cpus[i].hotplugging && (s.cpus[i].online <==> s.cpus[i].state == Online))
            && s.onlineCpus == OnlineCount(s.cpus) && U32(s.ups - s.downs) == s.onlineCpus
  {
    hide Runs, After, OnlineCount, U32;
    var s := After(maxCpus, acts);
    RunsKeepInv(maxCpus, acts);
    forall i | 0 <= i < |s.cpus| ensures !s.cpus[i].hotplugging && (s.cpus[i].online <==> s.cpus[i].state == Online) {
      assert Settled(s.Now().cpus[i]);
    }
  }

  /** At most one caller is inside at any time. */
  lemma GateExcludes(maxCpus: nat, acts: seq<Action>, t: nat, u: nat)
    requires maxCpus < TWO32 && Runs(maxCpus, acts) && !After(maxCpus, acts).At(t).Idle? && !After(maxCpus, acts).At(u).Idle?
    ensures t == u && After(maxCpus, acts).gate
  {
    hide Runs, After, Changed, Balanced;
    RunsKeepInv(maxCpus, acts);
  }

  /** A call about to return has changed nothing since it took the gate if it failed, and
      exactly one processor and one count each if it succeeded. */
  lemma CallsAreAllOrNothing(maxCpus: nat, acts: seq<Action>, t: nat)
    requires maxCpus < TWO32 && Runs(maxCpus, acts) && After(maxCpus, acts).At(t).Leave?
    ensures var s := After(maxCpus, acts);
            match s.At(t).outcome
            case Failed(_) => s.Now() == s.snap
            case Done => exists up: bool, i: nat :: Starts(s.snap, up, i) && s.Now() == Finished(s.snap, up, i)
  {
    hide Runs, After, Balanced, Finished, Starts;
    RunsKeepInv(maxCpus, acts);
    assert Changed(After(maxCpus, acts), After(maxCpus, acts).At(t));
  }

  /** The boot processor, once online, stays online. */
  lemma BootCpuStaysOnline(maxCpus: nat, acts: seq<Action>, a: Action)
    requires maxCpus < TWO32 && Runs(maxCpus, acts) && Enabled(After(maxCpus, acts), a)
    requires maxCpus > 0 && |After(maxCpus, acts).cpus| > 0 && After(maxCpus, acts).cpus[0].state == Online
    ensures |Do(After(maxCpus, acts), a).cpus| > 0 && Do(After(maxCpus, acts), a).cpus[0].state == Online
  {
    hide Runs, After, Balanced, Finished;
    var s := After(maxCpus, acts);
    RunsKeepInv(maxCpus, acts);
    if a.Advance? { assert Changed(s, s.At(a.t)); }
  }

  // ----- the polling loops -----

  /** Whenever the platform is asked, the flag that the caller polls still has its old value. */
  lemma PolledFlagIsOpposite(maxCpus: nat, acts: seq<Action>, t: nat)
    requires maxCpus < TWO32 && Runs(maxCpus, acts) && After(maxCpus, acts).At(t).Platform?
    ensures var s := After(maxCpus, acts); var l := s.At(t); l.cpu < |s.cpus| && s.cpus[l.cpu].online == !l.up
  {
    hide Runs, After, OnlineCount, U32;
    var s := After(maxCpus, acts);
    RunsKeepInv(maxCpus, acts);
    assert Changed(s, s.At(t)) && Settled(s.snap.cpus[s.At(t).cpu]);
  }

  /** The answer is one that the polling loop can give: it succeeds only when it finds the flag
      already at the value that the call is about to store. */
  predicate Polled(s: State, a: Action)
  {
    a.Advance? && a.yes && s.At(a.t).Platform? ==> s.At(a.t).cpu < |s.cpus| && s.cpus[s.At(a.t).cpu].online == s.At(a.t).up
  }

  predicate PolledRuns(maxCpus: nat, acts: seq<Action>)
    requires Runs(maxCpus, acts)
  {
    forall k | 0 <= k < |acts| :: Runs(maxCpus, acts[..k]) && Polled(After(maxCpus, acts[..k]), acts[k])
  }

  /** Nothing has been brought up, and nobody is on the way to success. */
  predicate Untouched(s: State)
  {
    && s.onlineCpus == s.ups == s.downs == 0
    && (forall i | 0 <= i < |s.cpus| :: s.cpus[i].state == Offline && !s.cpus[i].online)
    && (forall t | t in s.threads :: Futile(s.threads[t]))
  }

  predicate Futile(l: Local)
  {
    if l.Mark? || l.Prepare? || l.Platform? || l.Unmark? then l.up
    else if l.Leave? then l.outcome.Failed?
    else l.Idle? || l.Check?
  }

  lemma UntouchedStep(s: State, a: Action)
    requires Untouched(s) && Enabled(s, a) && Polled(s, a)
    ensures Untouched(Do(s, a))
  {
    hide U32;
    if a.Advance? { assert Futile(s.At(a.t)); }
  }

  /** The polling loops wait for the flag that only the call itself would set, after they end: over
      every run no call succeeds, and the counters stay at zero. */
  lemma {:induction false} NoCallSucceeds(maxCpus: nat, acts: seq<Action>)
    requires Runs(maxCpus, acts) && PolledRuns(maxCpus, acts)
    ensures Untouched(After(maxCpus, acts))
  {
    hide Do, Enabled, Polled;
    if acts != [] {
      var front := acts[..|acts| - 1];
      forall k | 0 <= k < |front| ensures Runs(maxCpus, front[..k]) && Polled(After(maxCpus, front[..k]), front[k]) {
        assert front[..k] == acts[..k] && front[k] == acts[k];
      }
      NoCallSucceeds(maxCpus, front);
      UntouchedStep(After(maxCpus, front), acts[|acts| - 1]);
    }
  }
}
