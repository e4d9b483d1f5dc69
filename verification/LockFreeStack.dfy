/** The lock-free stack as a state machine: every atomic load, store and compare-and-exchange
    of `push` and `pop` is one step, and the steps of any number of threads interleave freely.
    Node addresses are not reused, and a popped node stays readable. */
module LockFreeStack {
  import opened Options

  type Ptr = nat

  const NULL: Ptr := 0

  datatype Node<T> = Node(data: T, next: Ptr)

  /** Where a thread stands: the next atomic step it will take. */
  datatype Local =
    | Idle
    | PushLoad(node: Ptr)
    | PushStore(node: Ptr, cur: Ptr)
    | PushCas(node: Ptr, cur: Ptr)
    | PushReturn
    | PopLoad
    | PopNext(cur: Ptr)
    | PopCas(cur: Ptr, next: Ptr)
    | PopTake(cur: Ptr)
    | PopNone
  {
    predicate Pushing() { PushLoad? || PushStore? || PushCas? }

    predicate Popping() { PopNext? || PopCas? }
  }

  datatype State<T> = State(head: Ptr, mem: map<Ptr, Node<T>>, threads: map<nat, Local>)
  {
    function At(t: nat): Local { if t in threads then threads[t] else Idle }

    function Go(t: nat, l: Local): State<T> { this.(threads := threads[t := l]) }
  }

  /** A thread begins an operation, or takes the next step of the one it is in. */
  datatype Action<T> = BeginPush(t: nat, v: T, addr: Ptr) | BeginPop(t: nat) | Advance(t: nat)

  datatype Op<T> = Push(v: T) | Pop

  datatype Ret<T> = Done | Got(r: Option<T>)

  /** Call and Return are what a client sees; Effect marks the step at which the operation acts. */
  datatype Event<T> = Call(t: nat, op: Op<T>) | Effect(t: nat, op: Op<T>, ret: Ret<T>) | Return(t: nat, ret: Ret<T>)

  predicate Enabled<T>(s: State<T>, a: Action<T>)
  {
    match a
    case BeginPush(t, _, addr) => s.At(t).Idle? && addr != NULL && addr !in s.mem
    case BeginPop(t) => s.At(t).Idle?
    case Advance(t) =>
      var l := s.At(t);
      && !l.Idle?
      && (l.PushStore? || l.PushCas? ==> l.node in s.mem)
      && (l.PopNext? || l.PopCas? || l.PopTake? ==> l.cur in s.mem)
  }

  function Do<T>(s: State<T>, a: Action<T>): State<T>
    requires Enabled(s, a)
  {
    match a
    case BeginPush(t, v, addr) => s.(mem := s.mem[addr := Node(v, NULL)]).Go(t, PushLoad(addr))
    case BeginPop(t) => s.Go(t, PopLoad)
    case Advance(t) =>
      match s.At(t)
      case PushLoad(n) => s.Go(t, PushStore(n, s.head))
      case PushStore(n, cur) => s.(mem := s.mem[n := s.mem[n].(next := cur)]).Go(t, PushCas(n, cur))
      case PushCas(n, cur) => if s.head == cur then s.(head := n).Go(t, PushReturn) else s.Go(t, PushLoad(n))
      case PushReturn => s.Go(t, Idle)
      case PopLoad => if s.head == NULL then s.Go(t, PopNone) else s.Go(t, PopNext(s.head))
      case PopNext(cur) => s.Go(t, PopCas(cur, s.mem[cur].next))
      case PopCas(cur, next) => if s.head == cur then s.(head := next).Go(t, PopTake(cur)) else s.Go(t, PopLoad)
      case PopTake(_) => s.Go(t, Idle)
      case PopNone => s.Go(t, Idle)
      case Idle => s
  }

  /** The events of a step: a push acts when its exchange succeeds, a pop when its exchange
      succeeds or when it reads an empty head. */
  function Emitted<T>(s: State<T>, a: Action<T>): seq<Event<T>>
    requires Enabled(s, a)
  {
    match a
    case BeginPush(t, v, _) => [Call(t, Push(v))]
    case BeginPop(t) => [Call(t, Pop)]
    case Advance(t) =>
      match s.At(t)
      case PushCas(n, cur) => if s.head == cur then [Effect(t, Push(s.mem[n].data), Done)] else []
      case PushReturn => [Return(t, Done)]
      case PopLoad => if s.head == NULL then [Effect(t, Pop, Got(None))] else []
      case PopCas(cur, _) => if s.head == cur then [Effect(t, Pop, Got(Some(s.mem[cur].data)))] else []
      case PopTake(cur) => [Return(t, Got(Some(s.mem[cur].data)))]
      case PopNone => [Return(t, Got(None))]
      case _ => []
  }

  // ----- runs -----

  function Init<T>(): State<T> { State(NULL, map[], map[]) }

  predicate Runs<T>(acts: seq<Action<T>>)
    decreases |acts|, 0
  {
    acts == [] || (Runs(acts[..|acts| - 1]) && Enabled(After(acts[..|acts| - 1]), acts[|acts| - 1]))
  }

  /** The state and the events after a run. */
  function After<T>(acts: seq<Action<T>>): State<T>
    requires Runs(acts)
    decreases |acts|, 1
  {
    if acts == [] then Init() else Do(After(acts[..|acts| - 1]), acts[|acts| - 1])
  }

  function Word<T>(acts: seq<Action<T>>): seq<Event<T>>
    requires Runs(acts)
  {
    if acts == [] then []
    else Word(acts[..|acts| - 1]) + Emitted(After(acts[..|acts| - 1]), acts[|acts| - 1])
  }

  // ----- linearizability -----

  /** The sequential stack. */
  function Apply<T>(st: seq<T>, op: Op<T>): (seq<T>, Ret<T>)
  {
    match op
    case Push(v) => ([v] + st, Done)
    case Pop => if st == [] then (st, Got(None)) else (st[1..], Got(Some(st[0])))
  }

  /** The stack left by the effects of w, or None if some effect's result is not the stack's. */
  function Replay<T(==)>(w: seq<Event<T>>): Option<seq<T>>
  {
    if w == [] then Some([])
    else
      var before, e := Replay(w[..|w| - 1]), w[|w| - 1];
      if before.None? || !e.Effect? then before
      else if Apply(before.value, e.op).1 == e.ret then Some(Apply(before.value, e.op).0) else None
  }

  datatype Phase<T> = Quiet | Called(op: Op<T>) | Acted(op: Op<T>, ret: Ret<T>) | Broken

  function Follow<T(==)>(p: Phase<T>, e: Event<T>): Phase<T>
  {
    match e
    case Call(_, op) => if p.Quiet? then Called(op) else Broken
    case Effect(_, op, ret) => if p == Called(op) then Acted(op, ret) else Broken
    case Return(_, ret) => if p.Acted? && p.ret == ret then Quiet else Broken
  }

  /** Where thread t stands in w, which must read Call(op), Effect(op, r), Return(r) over and over. */
  function PhaseOf<T(==)>(w: seq<Event<T>>, t: nat): Phase<T>
  {
    if w == [] then Quiet
    else
      var p, e := PhaseOf(w[..|w| - 1], t), w[|w| - 1];
      if e.t == t then Follow(p, e) else p
  }

  function Observable<T>(w: seq<Event<T>>): seq<Event<T>>
  {
    if w == [] then []
    else Observable(w[..|w| - 1]) + if w[|w| - 1].Effect? then [] else [w[|w| - 1]]
  }

  ghost predicate Explains<T>(w: seq<Event<T>>, h: seq<Event<T>>)
  {
    Observable(w) == h && Replay(w).Some? && forall t: nat :: PhaseOf(w, t) != Broken
  }

  /** A history of calls and returns is linearizable when one instant can be put between each
      call and its return such that the operations, done at those instants on a sequential
      stack, give the returned results. */
  ghost predicate Linearizable<T(!new)>(h: seq<Event<T>>)
  {
    exists w: seq<Event<T>> :: Explains(w, h)
  }

  // ----- the invariant -----

  function LinkAfter(addrs: seq<Ptr>, i: nat): Ptr { if i < |addrs| then addrs[i] else NULL }

  /** The list that hangs off head is exactly addrs. */
  predicate ListIs<T>(s: State<T>, addrs: seq<Ptr>)
  {
    && s.head == LinkAfter(addrs, 0)
    && (forall i | 0 <= i < |addrs| :: addrs[i] != NULL && addrs[i] in s.mem && s.mem[addrs[i]].next == LinkAfter(addrs, i + 1))
    && (forall i, j | 0 <= i < j < |addrs| :: addrs[i] != addrs[j])
  }

  function Values<T>(mem: map<Ptr, Node<T>>, addrs: seq<Ptr>): seq<T>
    requires forall i | 0 <= i < |addrs| :: addrs[i] in mem
  {
    seq(|addrs|, i requires 0 <= i < |addrs| => mem[addrs[i]].data)
  }

  predicate Private<T>(s: State<T>, t: nat, p: Ptr) { s.At(t).Pushing() && s.At(t).node == p }

  /** A node being pushed belongs to one thread and is not yet in the list. */
  ghost predicate Separate<T>(s: State<T>, addrs: seq<Ptr>)
  {
    && (forall t: nat, p: Ptr | Private(s, t, p) :: p != NULL && p in s.mem && p !in addrs)
    && (forall t: nat, u: nat, p: Ptr | Private(s, t, p) && Private(s, u, p) :: t == u)
  }

  /** What a thread has read is still so, as far as it needs: the next field of a node that
      has been published never changes. */
  ghost predicate LocalOk<T>(s: State<T>, t: nat)
  {
    var l := s.At(t);
    && (l.PushCas? ==> l.node in s.mem && s.mem[l.node].next == l.cur)
    && (l.Popping() || l.PopTake? ==> l.cur != NULL && l.cur in s.mem && forall u: nat :: !Private(s, u, l.cur))
    && (l.PopCas? ==> s.mem[l.cur].next == l.next)
  }

  ghost predicate PhaseOk<T>(s: State<T>, t: nat, p: Phase<T>)
  {
    var l := s.At(t);
    && (l.Idle? ==> p.Quiet?)
    && (l.Pushing() ==> l.node in s.mem && p == Called(Push(s.mem[l.node].data)))
    && (l.PushReturn? ==> p.Acted? && p.ret == Done)
    && (l.PopLoad? || l.Popping() ==> p == Called(Pop))
    && (l.PopTake? ==> l.cur in s.mem && p.Acted? && p.ret == Got(Some(s.mem[l.cur].data)))
    && (l.PopNone? ==> p.Acted? && p.ret == Got(None))
  }

  ghost predicate Inv<T>(s: State<T>, addrs: seq<Ptr>)
  {
    ListIs(s, addrs) && Separate(s, addrs) && forall t: nat :: LocalOk(s, t)
  }

  /** The list after a step: it grows or shrinks at its head when an exchange succeeds. */
  function ListAfter<T>(s: State<T>, a: Action<T>, addrs: seq<Ptr>): seq<Ptr>
  {
    if !a.Advance? then addrs
    else
      var l := s.At(a.t);
      if l.PushCas? && s.head == l.cur then [l.node] + addrs
      else if l.PopCas? && s.head == l.cur && addrs != [] then addrs[1..]
      else addrs
  }

  // ----- one step keeps the invariant -----

  /** A step moves one thread, keeps all data, and writes the next field only of the node that
      this thread is still pushing. */
  lemma Frame<T>(s: State<T>, a: Action<T>)
    requires Enabled(s, a)
    ensures forall u: nat | u != a.t :: Do(s, a).At(u) == s.At(u)
    ensures forall p | p in s.mem :: p in Do(s, a).mem && Do(s, a).mem[p].data == s.mem[p].data
    ensures forall p | p in s.mem && !Private(s, a.t, p) :: Do(s, a).mem[p] == s.mem[p]
  {
  }

  lemma PrivateBefore<T>(s: State<T>, a: Action<T>, u: nat, p: Ptr)
    requires Enabled(s, a) && Private(Do(s, a), u, p)
    ensures if a.BeginPush? && u == a.t then p == a.addr && p != NULL && p !in s.mem && p in Do(s, a).mem else Private(s, u, p)
    ensures a.Advance? && u == a.t ==> !(s.At(u).PushCas? && s.head == s.At(u).cur)
  {
  }

  lemma Shrink<T>(s: State<T>, addrs: seq<Ptr>, s': State<T>)
    requires ListIs(s, addrs) && addrs != [] && s'.mem == s.mem && s'.head == s.mem[addrs[0]].next
    ensures ListIs(s', addrs[1..])
  {
    var rest := addrs[1..];
    forall i | 0 <= i < |rest| ensures rest[i] == addrs[i + 1] && LinkAfter(rest, i + 1) == LinkAfter(addrs, i + 2) {}
    assert LinkAfter(rest, 0) == LinkAfter(addrs, 1);
  }

  lemma Grow<T>(s: State<T>, addrs: seq<Ptr>, n: Ptr, s': State<T>)
    requires ListIs(s, addrs) && s'.mem == s.mem && s'.head == n
    requires n != NULL && n in s.mem && n !in addrs && s.mem[n].next == s.head
    ensures ListIs(s', [n] + addrs)
  {
    var more := [n] + addrs;
    forall i | 0 < i < |more| ensures more[i] == addrs[i - 1] && LinkAfter(more, i + 1) == LinkAfter(addrs, i) {}
    assert LinkAfter(more, 1) == LinkAfter(addrs, 0);
  }

  lemma Undisturbed<T>(s: State<T>, a: Action<T>, addrs: seq<Ptr>)
    requires Inv(s, addrs) && Enabled(s, a) && Do(s, a).head == s.head
    ensures ListIs(Do(s, a), addrs)
  {
    hide Do;
    Frame(s, a);
    forall i | 0 <= i < |addrs| ensures Do(s, a).mem[addrs[i]] == s.mem[addrs[i]] {
      assert !Private(s, a.t, addrs[i]);
    }
  }

  lemma ListKept<T>(s: State<T>, a: Action<T>, addrs: seq<Ptr>)
    requires Inv(s, addrs) && Enabled(s, a)
    ensures ListIs(Do(s, a), ListAfter(s, a, addrs))
  {
    hide ListIs;
    var l, s' := s.At(a.t), Do(s, a);
    assert LocalOk(s, a.t);
    assert ListIs(s, addrs) && s.head == LinkAfter(addrs, 0) by { HeadOf(s, addrs); }
    if a.Advance? && l.PushCas? && s.head == l.cur {
      assert Private(s, a.t, l.node);
      Grow(s, addrs, l.node, s');
    } else if a.Advance? && l.PopCas? && s.head == l.cur {
      Shrink(s, addrs, s');
    } else {
      Undisturbed(s, a, addrs);
    }
  }

  lemma HeadOf<T>(s: State<T>, addrs: seq<Ptr>)
    requires ListIs(s, addrs)
    ensures s.head == LinkAfter(addrs, 0)
    ensures s.head != NULL ==> addrs != [] && s.head in addrs && s.head in s.mem
    ensures addrs != [] ==> s.head == addrs[0] != NULL
    ensures forall i | 0 <= i < |addrs| :: addrs[i] in s.mem
  {
  }

  lemma SeparateKept<T>(s: State<T>, a: Action<T>, addrs: seq<Ptr>)
    requires Inv(s, addrs) && Enabled(s, a)
    ensures Separate(Do(s, a), ListAfter(s, a, addrs))
  {
    hide Do, Private;
    var s', addrs' := Do(s, a), ListAfter(s, a, addrs);
    Frame(s, a);
    forall t: nat, p: Ptr | Private(s', t, p) ensures p != NULL && p in s'.mem && p !in addrs' {
      PrivateBefore(s, a, t, p);
      if a.Advance? && s.At(a.t).PushCas? { PushingIsPrivate(s, a.t); }
    }
    forall t: nat, u: nat, p: Ptr | Private(s', t, p) && Private(s', u, p) ensures t == u {
      PrivateBefore(s, a, t, p);
      PrivateBefore(s, a, u, p);
    }
  }

  lemma PushingIsPrivate<T>(s: State<T>, t: nat)
    requires s.At(t).Pushing()
    ensures Private(s, t, s.At(t).node)
  {
  }

  lemma OtherLocalKept<T>(s: State<T>, a: Action<T>, addrs: seq<Ptr>, t: nat)
    requires Inv(s, addrs) && Enabled(s, a) && t != a.t
    ensures LocalOk(Do(s, a), t)
  {
    hide Do, Private;
    var s', l := Do(s, a), s.At(t);
    assert LocalOk(s, t);
    Frame(s, a);
    if l.PushCas? { PushingIsPrivate(s, t); }
    if l.Popping() || l.PopTake? { StaysPublic(s, a, l.cur); }
  }

  lemma StaysPublic<T>(s: State<T>, a: Action<T>, p: Ptr)
    requires Enabled(s, a) && p in s.mem && forall u: nat :: !Private(s, u, p)
    ensures forall u: nat :: !Private(Do(s, a), u, p)
  {
    hide Do, Private;
    forall u: nat ensures !Private(Do(s, a), u, p) {
      if Private(Do(s, a), u, p) { PrivateBefore(s, a, u, p); }
    }
  }

  lemma OwnLocalKept<T>(s: State<T>, a: Action<T>, addrs: seq<Ptr>)
    requires Inv(s, addrs) && Enabled(s, a)
    ensures LocalOk(Do(s, a), a.t)
  {
    hide Private, ListIs;
    var s', l := Do(s, a), s.At(a.t);
    assert LocalOk(s, a.t);
    HeadOf(s, addrs);
    if s'.At(a.t).Popping() || s'.At(a.t).PopTake? { StaysPublic(s, a, s'.At(a.t).cur); }
  }

  lemma InvKept<T>(s: State<T>, a: Action<T>, addrs: seq<Ptr>)
    requires Inv(s, addrs) && Enabled(s, a)
    ensures Inv(Do(s, a), ListAfter(s, a, addrs))
  {
    hide LocalOk, Do, ListAfter, ListIs, Separate;
    ListKept(s, a, addrs);
    SeparateKept(s, a, addrs);
    forall t: nat ensures LocalOk(Do(s, a), t) {
      if t == a.t { OwnLocalKept(s, a, addrs); } else { OtherLocalKept(s, a, addrs, t); }
    }
  }

  // ----- one step follows the sequential stack -----

  lemma OneMore<T>(w: seq<Event<T>>, e: Event<T>, t: nat)
    ensures PhaseOf(w + [e], t) == if e.t == t then Follow(PhaseOf(w, t), e) else PhaseOf(w, t)
    ensures Replay(w + [e]) ==
              if Replay(w).None? || !e.Effect? then Replay(w)
              else if Apply(Replay(w).value, e.op).1 == e.ret then Some(Apply(Replay(w).value, e.op).0) else None
    ensures Observable(w + [e]) == Observable(w) + if e.Effect? then [] else [e]
  {
    var w' := w + [e];
    assert w'[..|w'| - 1] == w;
  }

  lemma EmittedByOne<T>(s: State<T>, a: Action<T>)
    requires Enabled(s, a)
    ensures Emitted(s, a) == [] || (|Emitted(s, a)| == 1 && Emitted(s, a)[0].t == a.t)
  {
  }

  lemma AppendPhase<T>(s: State<T>, a: Action<T>, w: seq<Event<T>>, t: nat)
    requires Enabled(s, a)
    ensures PhaseOf(w + Emitted(s, a), t) ==
              if t == a.t && Emitted(s, a) != [] then Follow(PhaseOf(w, t), Emitted(s, a)[0]) else PhaseOf(w, t)
  {
    hide Emitted, PhaseOf, Replay, Observable;
    EmittedByOne(s, a);
    if Emitted(s, a) == [] { assert w + Emitted(s, a) == w; }
    else {
      assert Emitted(s, a) == [Emitted(s, a)[0]];
      OneMore(w, Emitted(s, a)[0], t);
    }
  }

  lemma OwnPhaseKept<T>(s: State<T>, a: Action<T>, addrs: seq<Ptr>, p: Phase<T>)
    requires Inv(s, addrs) && Enabled(s, a) && PhaseOk(s, a.t, p)
    ensures PhaseOk(Do(s, a), a.t, if Emitted(s, a) == [] then p else Follow(p, Emitted(s, a)[0]))
  {
    hide Private, ListIs, Separate;
    assert LocalOk(s, a.t);
  }

  lemma OtherPhaseKept<T>(s: State<T>, a: Action<T>, t: nat, p: Phase<T>)
    requires Enabled(s, a) && t != a.t && PhaseOk(s, t, p)
    ensures PhaseOk(Do(s, a), t, p)
  {
    hide Do;
    Frame(s, a);
  }

  lemma ValuesKept<T>(s: State<T>, a: Action<T>, addrs: seq<Ptr>)
    requires Enabled(s, a) && forall i | 0 <= i < |addrs| :: addrs[i] in s.mem
    ensures forall i | 0 <= i < |addrs| :: addrs[i] in Do(s, a).mem
    ensures Values(Do(s, a).mem, addrs) == Values(s.mem, addrs)
  {
    hide Do;
    Frame(s, a);
  }

  predicate Acts<T>(s: State<T>, a: Action<T>)
    requires Enabled(s, a)
  {
    Emitted(s, a) != [] && Emitted(s, a)[0].Effect?
  }

  /** A step acts on the list as its effect acts on the sequential stack, or leaves both alone. */
  lemma StepIsSequential<T>(s: State<T>, a: Action<T>, addrs: seq<Ptr>)
    requires Inv(s, addrs) && Enabled(s, a)
    ensures Inv(Do(s, a), ListAfter(s, a, addrs))
    ensures var st, st' := Values(s.mem, addrs), Values(Do(s, a).mem, ListAfter(s, a, addrs));
            if Acts(s, a) then Apply(st, Emitted(s, a)[0].op) == (st', Emitted(s, a)[0].ret) else st' == st
  {
    hide Private, Separate, ListIs;
    HeadOf(s, addrs);
    InvKept(s, a, addrs);
    ValuesKept(s, a, addrs);
    var l := s.At(a.t);
    assert LocalOk(s, a.t);
    if a.Advance? && l.PushCas? && s.head == l.cur {
      assert Values(s.mem, [l.node] + addrs) == [s.mem[l.node].data] + Values(s.mem, addrs);
    } else if a.Advance? && l.PopCas? && s.head == l.cur {
      assert Values(s.mem, addrs[1..]) == Values(s.mem, addrs)[1..];
    }
  }

  lemma ReplayKept<T>(s: State<T>, a: Action<T>, addrs: seq<Ptr>, w: seq<Event<T>>)
    requires Inv(s, addrs) && Enabled(s, a) && Replay(w) == Some(Values(s.mem, addrs))
    ensures Inv(Do(s, a), ListAfter(s, a, addrs))
    ensures Replay(w + Emitted(s, a)) == Some(Values(Do(s, a).mem, ListAfter(s, a, addrs)))
  {
    hide Emitted, Replay, PhaseOf, Observable, Do, ListAfter, Separate, LocalOk;
    StepIsSequential(s, a, addrs);
    EmittedByOne(s, a);
    if Emitted(s, a) == [] { assert w + Emitted(s, a) == w; }
    else {
      assert Emitted(s, a) == [Emitted(s, a)[0]];
      OneMore(w, Emitted(s, a)[0], a.t);
    }
  }

  // ----- every run -----

  /** The addresses in the list after a run, in order from the head. */
  function Live<T>(acts: seq<Action<T>>): seq<Ptr>
    requires Runs(acts)
  {
    if acts == [] then []
    else ListAfter(After(acts[..|acts| - 1]), acts[|acts| - 1], Live(acts[..|acts| - 1]))
  }

  /** After every run, the list from head is a list of distinct nodes whose values are the
      sequential stack's. */
  lemma {:induction false} ListIsTheStack<T>(acts: seq<Action<T>>)
    requires Runs(acts)
    ensures Inv(After(acts), Live(acts))
    ensures Replay(Word(acts)) == Some(Values(After(acts).mem, Live(acts)))
  {
    if acts == [] {
      assert Values(Init<T>().mem, []) == [];
    } else {
      hide ListAfter, Do, Emitted, Separate, LocalOk, Replay;
      var before := acts[..|acts| - 1];
      ListIsTheStack(before);
      ReplayKept(After(before), acts[|acts| - 1], Live(before), Word(before));
    }
  }

  lemma {:induction false} PhasesHold<T>(acts: seq<Action<T>>, t: nat)
    requires Runs(acts)
    ensures PhaseOk(After(acts), t, PhaseOf(Word(acts), t))
  {
    if acts != [] {
      hide ListAfter, Do, Emitted, Separate, LocalOk, Replay, PhaseOk;
      var before, a := acts[..|acts| - 1], acts[|acts| - 1];
      ListIsTheStack(before);
      PhasesHold(before, t);
      AppendPhase(After(before), a, Word(before), t);
      if t == a.t { OwnPhaseKept(After(before), a, Live(before), PhaseOf(Word(before), t)); }
      else { OtherPhaseKept(After(before), a, t, PhaseOf(Word(before), t)); }
    }
  }

  /** Whatever the interleaving, what the clients see is linearizable. */
  lemma EveryRunLinearizes<T(!new)>(acts: seq<Action<T>>)
    requires Runs(acts)
    ensures Linearizable(Observable(Word(acts)))
  {
    hide Replay, Observable, Inv;
    ListIsTheStack(acts);
    forall t: nat ensures PhaseOf(Word(acts), t) != Broken {
      PhasesHold(acts, t);
    }
    assert Explains(Word(acts), Observable(Word(acts)));
  }

  /** No thread ever follows a pointer to a node that was never allocated. */
  lemma NextStepIsEnabled<T>(acts: seq<Action<T>>, t: nat)
    requires Runs(acts) && !After(acts).At(t).Idle?
    ensures Enabled(After(acts), Advance(t))
  {
    hide Private, Replay, ListIs;
    ListIsTheStack(acts);
    assert LocalOk(After(acts), t);
    if After(acts).At(t).Pushing() { PushingIsPrivate(After(acts), t); }
  }

  // ----- conservation -----

  function In<T>(op: Op<T>): multiset<T> { if op.Push? then multiset{op.v} else multiset{} }

  function Out<T>(ret: Ret<T>): multiset<T> { if ret.Got? && ret.r.Some? then multiset{ret.r.value} else multiset{} }

  function Pushed<T>(w: seq<Event<T>>): multiset<T>
  {
    if w == [] then multiset{}
    else Pushed(w[..|w| - 1]) + var e := w[|w| - 1]; if e.Effect? then In(e.op) else multiset{}
  }

  function Popped<T>(w: seq<Event<T>>): multiset<T>
  {
    if w == [] then multiset{}
    else Popped(w[..|w| - 1]) + var e := w[|w| - 1]; if e.Effect? then Out(e.ret) else multiset{}
  }

  lemma ApplyConserves<T>(st: seq<T>, op: Op<T>)
    ensures In(op) + multiset(st) == Out(Apply(st, op).1) + multiset(Apply(st, op).0)
  {
    if op.Push? { assert multiset([op.v] + st) == multiset{op.v} + multiset(st); }
    else if st != [] { assert st == [st[0]] + st[1..]; }
  }

  lemma Balance<T>(p: multiset<T>, q: multiset<T>, st: multiset<T>, i: multiset<T>, o: multiset<T>, st': multiset<T>)
    requires p == q + st && i + st == o + st'
    ensures p + i == (q + o) + st'
  {
    assert p + i == q + (i + st);
  }

  lemma {:induction false} Conserved<T>(w: seq<Event<T>>)
    requires Replay(w).Some?
    ensures Pushed(w) == Popped(w) + multiset(Replay(w).value)
  {
    if w != [] {
      hide In, Out, Apply;
      var before, e := w[..|w| - 1], w[|w| - 1];
      Conserved(before);
      if e.Effect? {
        var st := Replay(before).value;
        ApplyConserves(st, e.op);
        Balance(Pushed(before), Popped(before), multiset(st), In(e.op), Out(e.ret), multiset(Apply(st, e.op).0));
      }
    }
  }

  /** Over every run, the values pushed are those popped and those still in the list. */
  lemma PushedIsPoppedPlusRemaining<T>(acts: seq<Action<T>>)
    requires Runs(acts)
    ensures Inv(After(acts), Live(acts))
    ensures Pushed(Word(acts)) == Popped(Word(acts)) + multiset(Values(After(acts).mem, Live(acts)))
  {
    hide Replay, Pushed, Popped, Inv, Word;
    ListIsTheStack(acts);
    Conserved(Word(acts));
  }

  /** The node a step takes off the list, if it does. */
  predicate Takes<T>(s: State<T>, a: Action<T>, p: Ptr)
  {
    a.Advance? && s.At(a.t).PopCas? && s.At(a.t).cur == p && s.head == p
  }

  ghost predicate Gone<T>(s: State<T>, addrs: seq<Ptr>, p: Ptr)
  {
    p != NULL && p in s.mem && p !in addrs && forall u: nat :: !Private(s, u, p)
  }

  lemma TakenIsGone<T>(s: State<T>, a: Action<T>, addrs: seq<Ptr>, p: Ptr)
    requires Inv(s, addrs) && Enabled(s, a) && Takes(s, a, p)
    ensures Gone(Do(s, a), ListAfter(s, a, addrs), p)
  {
    hide Private;
    HeadOf(s, addrs);
    assert LocalOk(s, a.t);
    StaysPublic(s, a, p);
    Frame(s, a);
  }

  lemma GoneStaysGone<T>(s: State<T>, a: Action<T>, addrs: seq<Ptr>, p: Ptr)
    requires Inv(s, addrs) && Enabled(s, a) && Gone(s, addrs, p)
    ensures Gone(Do(s, a), ListAfter(s, a, addrs), p) && !Takes(s, a, p)
  {
    hide Private, Do;
    HeadOf(s, addrs);
    StaysPublic(s, a, p);
    Frame(s, a);
    if s.At(a.t).Pushing() { PushingIsPrivate(s, a.t); }
  }

  lemma Prefix<T>(acts: seq<Action<T>>, k: nat)
    requires Runs(acts) && k <= |acts|
    ensures Runs(acts[..k])
    ensures k < |acts| ==> Enabled(After(acts[..k]), acts[k]) && acts[..k + 1][..k] == acts[..k]
    decreases |acts| - k
  {
    if k < |acts| {
      Prefix(acts, k + 1);
      assert acts[..k + 1][..k] == acts[..k];
    } else {
      assert acts[..k] == acts;
    }
  }

  lemma {:induction false} GoneForever<T>(acts: seq<Action<T>>, i: nat, j: nat, p: Ptr)
    requires Runs(acts) && i < j <= |acts|
    requires Runs(acts[..i]) && Takes(After(acts[..i]), acts[i], p)
    ensures Runs(acts[..j]) && Gone(After(acts[..j]), Live(acts[..j]), p)
    decreases j
  {
    hide Do, ListAfter, Gone, Takes, Inv, Enabled;
    Prefix(acts, j - 1);
    Prefix(acts, j);
    ListIsTheStack(acts[..j - 1]);
    if j == i + 1 {
      TakenIsGone(After(acts[..i]), acts[i], Live(acts[..i]), p);
    } else {
      GoneForever(acts, i, j - 1, p);
      GoneStaysGone(After(acts[..j - 1]), acts[j - 1], Live(acts[..j - 1]), p);
    }
  }

  /** No node is popped twice: two exchanges of one run never take the same node. */
  lemma NothingIsPoppedTwice<T>(acts: seq<Action<T>>, i: nat, j: nat, p: Ptr)
    requires Runs(acts) && i < j < |acts|
    requires Runs(acts[..i]) && Takes(After(acts[..i]), acts[i], p)
    ensures Runs(acts[..j]) && !Takes(After(acts[..j]), acts[j], p)
  {
    hide Do, ListAfter, Gone, Takes, Inv, Enabled;
    Prefix(acts, j);
    GoneForever(acts, i, j, p);
    ListIsTheStack(acts[..j]);
    GoneStaysGone(After(acts[..j]), acts[j], Live(acts[..j]), p);
  }

  // ----- progress -----

  /** The step makes an exchange that succeeds. */
  predicate Succeeds<T>(s: State<T>, a: Action<T>)
  {
    a.Advance? && var l := s.At(a.t); (l.PushCas? || l.PopCas?) && s.head == l.cur
  }

  /** The step makes an exchange that fails, so that the thread starts over. */
  predicate Retries<T>(s: State<T>, a: Action<T>)
  {
    a.Advance? && var l := s.At(a.t); (l.PushCas? || l.PopCas?) && s.head != l.cur
  }

  predicate LoadsHead(l: Local) { l.PushLoad? || l.PopLoad? }

  /** Step i of the run is the last load of head by thread t, and since then head is unchanged
      or some exchange has succeeded. */
  ghost predicate ReadAt<T>(acts: seq<Action<T>>, t: nat, cur: Ptr, i: nat)
    requires Runs(acts)
  {
    && i < |acts| && acts[i] == Advance(t) && Runs(acts[..i])
    && LoadsHead(After(acts[..i]).At(t)) && NoLoadSince(acts, t, i)
    && (After(acts).head == cur || SucceededSince(acts, i))
  }

  ghost predicate NoLoadSince<T>(acts: seq<Action<T>>, t: nat, i: nat)
  {
    forall k | i < k < |acts| && acts[k] == Advance(t) && Runs(acts[..k]) :: !LoadsHead(After(acts[..k]).At(t))
  }

  ghost predicate SucceededSince<T>(acts: seq<Action<T>>, i: nat)
  {
    exists k | i < k < |acts| :: Runs(acts[..k]) && Succeeds(After(acts[..k]), acts[k])
  }

  predicate HasRead(l: Local) { l.PushStore? || l.PushCas? || l.Popping() }

  lemma HeadMoves<T>(s: State<T>, a: Action<T>)
    requires Enabled(s, a)
    ensures Succeeds(s, a) || Do(s, a).head == s.head
    ensures HasRead(Do(s, a).At(a.t)) ==>
              if a.Advance? && LoadsHead(s.At(a.t)) then Do(s, a).At(a.t).cur == s.head
              else HasRead(s.At(a.t)) && Do(s, a).At(a.t).cur == s.At(a.t).cur
    ensures a.Advance? && LoadsHead(s.At(a.t)) ==> Do(s, a).head == s.head
  {
  }

  lemma ReadStillAt<T>(before: seq<Action<T>>, a: Action<T>, t: nat, cur: Ptr, i: nat)
    requires Runs(before) && Enabled(After(before), a) && ReadAt(before, t, cur, i)
    requires a == Advance(t) ==> !LoadsHead(After(before).At(t))
    ensures Runs(before + [a]) && ReadAt(before + [a], t, cur, i)
  {
    hide Do, Enabled;
    var acts := before + [a];
    assert acts[..|acts| - 1] == before && acts[..i] == before[..i];
    forall k | i < k < |acts| && acts[k] == Advance(t) && Runs(acts[..k]) ensures !LoadsHead(After(acts[..k]).At(t)) {
      if k < |before| { assert acts[..k] == before[..k]; } else { assert acts[..k] == before; }
    }
    HeadMoves(After(before), a);
    if SucceededSince(before, i) {
      var k :| i < k < |before| && Runs(before[..k]) && Succeeds(After(before[..k]), before[k]);
      assert acts[..k] == before[..k];
    } else if Succeeds(After(before), a) {
      assert acts[..|before|] == before;
    }
  }

  lemma {:induction false} ReadSomewhere<T>(acts: seq<Action<T>>, t: nat) returns (i: nat)
    requires Runs(acts) && HasRead(After(acts).At(t))
    ensures ReadAt(acts, t, After(acts).At(t).cur, i)
    decreases |acts|
  {
    hide Do, Enabled, ReadAt;
    var before, a := acts[..|acts| - 1], acts[|acts| - 1];
    assert acts == before + [a];
    var s := After(before);
    HeadMoves(s, a);
    Frame(s, a);
    if a == Advance(t) && LoadsHead(s.At(t)) {
      i := |before|;
      JustRead(acts, t);
    } else {
      i := ReadSomewhere(before, t);
      ReadStillAt(before, a, t, s.At(t).cur, i);
    }
  }

  lemma JustRead<T>(acts: seq<Action<T>>, t: nat)
    requires Runs(acts) && HasRead(After(acts).At(t)) && acts != [] && acts[|acts| - 1] == Advance(t)
    requires LoadsHead(After(acts[..|acts| - 1]).At(t))
    ensures ReadAt(acts, t, After(acts).At(t).cur, |acts| - 1)
  {
    hide Do, Enabled;
    HeadMoves(After(acts[..|acts| - 1]), acts[|acts| - 1]);
  }

  /** Lock-freedom: an exchange fails only if another one has succeeded since the failing
      thread last read head. */
  lemma RetryMeansProgress<T>(acts: seq<Action<T>>, t: nat) returns (i: nat, k: nat)
    requires Runs(acts) && Retries(After(acts), Advance(t))
    ensures i < k < |acts| && acts[i] == Advance(t) && Runs(acts[..i]) && Runs(acts[..k])
    ensures LoadsHead(After(acts[..i]).At(t)) && NoLoadSince(acts, t, i)
    ensures Succeeds(After(acts[..k]), acts[k])
  {
    i := ReadSomewhere(acts, t);
    k :| i < k < |acts| && Runs(acts[..k]) && Succeeds(After(acts[..k]), acts[k]);
  }
}
