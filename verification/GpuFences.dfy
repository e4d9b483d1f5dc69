/** Monotone fences of the graphics device, with a log of the last 64 values. */
module GpuFences {
  import opened Words

  const LOG_SIZE := 64
  const MAX64: u64 := 0xFFFF_FFFF_FFFF_FFFF

  datatype Fence = Fence(signaled: bool, current: u64, monitored: u64, count: u64, tick: u64, log: seq<u64>)

  function Inc(x: u64): u64 { if x == MAX64 then x else x + 1 }

  function Max(a: u64, b: u64): u64 { if a < b then b else a }

  // ----- one fence -----

  /** The value is taken only if it is larger; a full log drops its oldest value. */
  function Update(f: Fence, value: u64, now: u64): Fence
  {
    var g := if value <= f.current then f
             else f.(current := value, count := Inc(f.count), tick := now,
                     log := (if |f.log| >= LOG_SIZE then f.log[1..] else f.log) + [value]);
    g.(signaled := g.current >= g.monitored)
  }

  function Reset(f: Fence): Fence { f.(monitored := Inc(f.current), signaled := false) }

  function SetTarget(f: Fence, value: u64): Fence
  {
    var m := Max(value, f.current);
    f.(monitored := m, signaled := f.current >= m)
  }

  /** `set_fence_state`: signalling moves the value at least to the target. */
  function SetState(f: Fence, signaled: bool, now: u64): Fence
  {
    if signaled then Update(f, Max(Inc(f.current), Max(f.monitored, 1)), now) else Reset(f)
  }

  /** `register_named_fence` on a name that is already known. */
  function Reregister(f: Fence, signaled: bool, now: u64): Fence
  {
    if signaled then Update(f, Max(Inc(f.current), 1), now) else Reset(f)
  }

  function NewFence(signaled: bool, now: u64): Fence
  {
    var v: u64 := if signaled then 1 else 0;
    Fence(signaled, v, v, v, now, if signaled then [1] else [])
  }

  // ----- the device -----

  datatype Device = Device(fences: map<u64, Fence>, registry: map<string, u64>, nextHandle: u64)

  const NEW := Device(map[], map[], 1)

  /** Calls that touch fences; Other makes some other object, which takes a handle too. */
  datatype Op =
    | Register(name: string, signaled: bool)
    | State(h: u64, signaled: bool)
    | Signal(h: u64, value: u64)
    | Target(h: u64, value: u64)
    | Other

  function Do(d: Device, op: Op, now: u64): Device
  {
    match op
    case Register(name, signaled) =>
      if name in d.registry then
        var h := d.registry[name];
        if h in d.fences then d.(fences := d.fences[h := Reregister(d.fences[h], signaled, now)]) else d
      else
        Device(d.fences[d.nextHandle := NewFence(signaled, now)], d.registry[name := d.nextHandle], U64(d.nextHandle + 1))
    case State(h, signaled) => if h in d.fences then d.(fences := d.fences[h := SetState(d.fences[h], signaled, now)]) else d
    case Signal(h, value) => if h in d.fences then d.(fences := d.fences[h := Update(d.fences[h], value, now)]) else d
    case Target(h, value) => if h in d.fences then d.(fences := d.fences[h := SetTarget(d.fences[h], value)]) else d
    case Other => d.(nextHandle := U64(d.nextHandle + 1))
  }

  datatype Step = Step(op: Op, now: u64)

  function Run(steps: seq<Step>): Device
  {
    if steps == [] then NEW else Do(Run(steps[..|steps| - 1]), steps[|steps| - 1].op, steps[|steps| - 1].now)
  }

  // ----- every run -----

  /** The values that fence h has taken over a run, oldest first. */
  function History(steps: seq<Step>, h: u64): seq<u64>
  {
    if steps == [] then []
    else
      var before, after := Run(steps[..|steps| - 1]), Run(steps);
      History(steps[..|steps| - 1], h) +
      if h in after.fences && after.fences[h].current > (if h in before.fences then before.fences[h].current else 0)
      then [after.fences[h].current] else []
  }

  function LastOnes(s: seq<u64>): seq<u64> { if |s| <= LOG_SIZE then s else s[|s| - LOG_SIZE..] }

  predicate Increasing(s: seq<u64>) { forall i, j | 0 <= i < j < |s| :: s[i] < s[j] }

  /** The log is the tail of the history, which rises to the current value; the fence is
      signaled when the value has reached the target, except after a reset at the top value and
      before the first value. */
  predicate FenceOk(f: Fence, hist: seq<u64>)
  {
    && f.log == LastOnes(hist) && Increasing(hist) && (hist == [] ==> f.current == 0)
    && (hist != [] ==> hist[0] > 0 && f.current == hist[|hist| - 1])
    && (f.signaled ==> f.current >= f.monitored)
    && (!f.signaled && f.current >= f.monitored ==> f.current == MAX64 || f.current == 0)
  }

  function Extended(hist: seq<u64>, old_: u64, new_: u64): seq<u64> { if new_ > old_ then hist + [new_] else hist }

  lemma UpdateOk(f: Fence, hist: seq<u64>, value: u64, now: u64)
    requires FenceOk(f, hist)
    ensures FenceOk(Update(f, value, now), Extended(hist, f.current, Update(f, value, now).current))
    ensures Update(f, value, now).current == Max(f.current, value)
  {
    if value > f.current {
      var hist' := hist + [value];
      if |hist| >= LOG_SIZE { assert LastOnes(hist)[1..] + [value] == LastOnes(hist'); }
    }
  }

  lemma OthersOk(f: Fence, hist: seq<u64>, signaled: bool, value: u64, now: u64)
    requires FenceOk(f, hist)
    ensures FenceOk(Reset(f), hist) && FenceOk(SetTarget(f, value), hist)
    ensures FenceOk(SetState(f, signaled, now), Extended(hist, f.current, SetState(f, signaled, now).current))
    ensures FenceOk(Reregister(f, signaled, now), Extended(hist, f.current, Reregister(f, signaled, now).current))
    ensures f.current <= SetState(f, signaled, now).current && f.current <= Reregister(f, signaled, now).current
  {
    hide LastOnes, Increasing;
    UpdateOk(f, hist, Max(Inc(f.current), Max(f.monitored, 1)), now);
    UpdateOk(f, hist, Max(Inc(f.current), 1), now);
  }

  /** Handles are handed out in order, so a new fence never replaces an old one. */
  ghost predicate HandlesOk(d: Device, n: nat)
  {
    d.nextHandle <= n + 1 && forall h | h in d.fences :: h < d.nextHandle
  }

  lemma HandlesStep(d: Device, op: Op, now: u64, n: nat)
    requires HandlesOk(d, n) && n + 1 < MAX64
    ensures HandlesOk(Do(d, op, now), n + 1)
  {
    hide Update, Reregister, SetState, SetTarget, NewFence;
  }

  lemma {:induction false} HandlesKept(steps: seq<Step>)
    requires |steps| < MAX64
    ensures HandlesOk(Run(steps), |steps|)
  {
    if steps != [] {
      hide Do;
      HandlesKept(steps[..|steps| - 1]);
      HandlesStep(Run(steps[..|steps| - 1]), steps[|steps| - 1].op, steps[|steps| - 1].now, |steps| - 1);
    }
  }

  lemma NewFenceOk(signaled: bool, now: u64)
    ensures FenceOk(NewFence(signaled, now), Extended([], 0, NewFence(signaled, now).current))
  {
  }

  /** What one call does to one fence. */
  lemma FenceStep(d: Device, op: Op, now: u64, h: u64, hist: seq<u64>)
    requires forall k | k in d.fences :: k < d.nextHandle
    requires if h in d.fences then FenceOk(d.fences[h], hist) else hist == []
    ensures var d' := Do(d, op, now); var old_ := CurrentOf(d, h);
            && (h in d.fences ==> h in d'.fences && old_ <= d'.fences[h].current)
            && (h in d'.fences ==> FenceOk(d'.fences[h], Extended(hist, old_, d'.fences[h].current)))
  {
    hide FenceOk, Update, Reregister, SetState, NewFence;
    if h in d.fences {
      var f := d.fences[h];
      match op
      case Register(_, signaled) => OthersOk(f, hist, signaled, 0, now);
      case State(_, signaled) => OthersOk(f, hist, signaled, 0, now);
      case Signal(_, value) => UpdateOk(f, hist, value, now);
      case Target(_, value) => OthersOk(f, hist, false, value, now);
      case Other =>
    } else if op.Register? {
      NewFenceOk(op.signaled, now);
    }
  }

  function CurrentOf(d: Device, h: u64): u64 { if h in d.fences then d.fences[h].current else 0 }

  lemma HistoryStep(steps: seq<Step>, h: u64)
    requires steps != []
    ensures var front, last := steps[..|steps| - 1], steps[|steps| - 1];
            && Run(steps) == Do(Run(front), last.op, last.now)
            && History(steps, h) == if h in Run(steps).fences
                                    then Extended(History(front, h), CurrentOf(Run(front), h), Run(steps).fences[h].current)
                                    else History(front, h)
  {
    hide Do;
  }

  /** Over every run of fewer than 2^64 - 1 calls, every fence's log holds the last 64 values it
      has taken, strictly rising up to the current one, and it is never signaled below its
      target. */
  lemma {:induction false} FencesAreMonotone(steps: seq<Step>, h: u64)
    requires |steps| < MAX64
    ensures var d := Run(steps); if h in d.fences then FenceOk(d.fences[h], History(steps, h)) else History(steps, h) == []
  {
    if steps != [] {
      hide Do, FenceOk, Run, History, Extended;
      var front := steps[..|steps| - 1];
      FencesAreMonotone(front, h);
      HandlesKept(front);
      HistoryStep(steps, h);
      FenceStep(Run(front), steps[|steps| - 1].op, steps[|steps| - 1].now, h, History(front, h));
    }
  }

  /** No call takes a fence away or lowers its value. */
  lemma ValuesOnlyGrow(steps: seq<Step>, h: u64)
    requires 0 < |steps| < MAX64 && h in Run(steps[..|steps| - 1]).fences
    ensures h in Run(steps).fences && Run(steps[..|steps| - 1]).fences[h].current <= Run(steps).fences[h].current
  {
    hide Do, FenceOk, Run, History, Extended;
    var front := steps[..|steps| - 1];
    FencesAreMonotone(front, h);
    HandlesKept(front);
    HistoryStep(steps, h);
    FenceStep(Run(front), steps[|steps| - 1].op, steps[|steps| - 1].now, h, History(front, h));
  }

  // ----- waiting for a value -----

  function SignalAll(f: Fence, values: seq<Step>): Fence
    requires forall i | 0 <= i < |values| :: values[i].op.Signal?
  {
    if values == [] then f
    else Update(SignalAll(f, values[..|values| - 1]), values[|values| - 1].op.value, values[|values| - 1].now)
  }

  /** The largest of a fence's value and the values signaled to it. */
  function Largest(start: u64, values: seq<Step>): u64
    requires forall i | 0 <= i < |values| :: values[i].op.Signal?
  {
    if values == [] then start else Max(Largest(start, values[..|values| - 1]), values[|values| - 1].op.value)
  }

  lemma {:induction false} SignalsReach(f: Fence, values: seq<Step>)
    requires forall i | 0 <= i < |values| :: values[i].op.Signal?
    requires f.signaled <==> f.current >= f.monitored
    ensures var g := SignalAll(f, values);
            g.current == Largest(f.current, values) && g.monitored == f.monitored && (g.signaled <==> g.current >= g.monitored)
  {
    if values != [] { SignalsReach(f, values[..|values| - 1]); }
  }

  /** After a target has been set, whatever is signaled: the fence is signaled exactly when the
      largest value seen reaches the target. */
  lemma TargetIsReached(f: Fence, v: u64, values: seq<Step>)
    requires forall i | 0 <= i < |values| :: values[i].op.Signal?
    ensures SignalAll(SetTarget(f, v), values).signaled <==> Largest(f.current, values) >= v
  {
    SignalsReach(SetTarget(f, v), values);
    LargestGrows(f.current, values);
  }

  lemma {:induction false} LargestGrows(start: u64, values: seq<Step>)
    requires forall i | 0 <= i < |values| :: values[i].op.Signal?
    ensures start <= Largest(start, values)
  {
    if values != [] { LargestGrows(start, values[..|values| - 1]); }
  }

  /** Signalling by state always signals; registering a known name as signaled does so exactly
      when the target is at most one step away. */
  lemma WhoSignals(f: Fence, now: u64)
    ensures SetState(f, true, now).signaled
    ensures Reregister(f, true, now).signaled <==> f.monitored <= Max(Inc(f.current), 1)
  {
  }

  // ----- the device object -----

  datatype GpuError = InvalidHandle

  datatype Result = Ok | Err(error: GpuError)

  class GpuDevice {
    var fences: map<u64, Fence>
    var registry: map<string, u64>
    var nextHandle: u64

    function Value(): Device
      reads this
    { Device(fences, registry, nextHandle) }

    constructor ()
      ensures Value() == NEW
    {
      fences, registry, nextHandle := map[], map[], 1;
    }

    method NextHandle() returns (h: u64)
      modifies this`nextHandle
      ensures h == old(nextHandle) && nextHandle == U64(h + 1)
    {
      h := nextHandle;
      nextHandle := U64(nextHandle + 1);
    }

    method RegisterNamedFence(name: string, signaled: bool, now: u64) returns (h: u64)
      modifies this
      ensures Value() == Do(old(Value()), Register(name, signaled), now)
      ensures name in registry && h == registry[name]
    {
      if name in registry {
        h := registry[name];
        if h in fences {
          var f := fences[h];
          if signaled {
            f := Updated(f, Max(Inc(f.current), 1), now);
          } else {
            f := f.(monitored := Inc(f.current), signaled := false);
          }
          fences := fences[h := f];
        }
        return;
      }
      h := NextHandle();
      var initial: u64 := if signaled then 1 else 0;
      fences := fences[h := Fence(signaled, initial, initial, initial, now, if signaled then [initial] else [])];
      registry := registry[name := h];
    }

    method Updated(before: Fence, value: u64, now: u64) returns (f: Fence)
      ensures f == Update(before, value, now)
    {
      f := before;
      if value > f.current {
        f := f.(current := value, count := Inc(f.count), tick := now);
        if |f.log| >= LOG_SIZE { f := f.(log := f.log[1..]); }
        f := f.(log := f.log + [value]);
      }
      f := f.(signaled := f.current >= f.monitored);
    }

    method SetFenceState(h: u64, signaled: bool, now: u64) returns (r: Result)
      modifies this`fences
      ensures Value() == Do(old(Value()), State(h, signaled), now)
      ensures r == if h in old(fences) then Ok else Err(InvalidHandle)
    {
      if h !in fences { return Err(InvalidHandle); }
      var f := fences[h];
      if signaled {
        f := Updated(f, Max(Inc(f.current), Max(f.monitored, 1)), now);
      } else {
        f := f.(monitored := Inc(f.current), signaled := false);
      }
      fences := fences[h := f];
      return Ok;
    }

    method SignalFenceValue(h: u64, value: u64, now: u64) returns (r: Result)
      modifies this`fences
      ensures Value() == Do(old(Value()), Signal(h, value), now)
      ensures r == if h in old(fences) then Ok else Err(InvalidHandle)
    {
      if h !in fences { return Err(InvalidHandle); }
      var f := Updated(fences[h], value, now);
      fences := fences[h := f];
      return Ok;
    }

    method SetFenceTarget(h: u64, value: u64, now: u64) returns (r: Result)
      modifies this`fences
      ensures Value() == Do(old(Value()), Target(h, value), now)
      ensures r == if h in old(fences) then Ok else Err(InvalidHandle)
    {
      if h !in fences { return Err(InvalidHandle); }
      var f := fences[h].(monitored := Max(value, fences[h].current));
      fences := fences[h := f.(signaled := f.current >= f.monitored)];
      return Ok;
    }
  }
}
