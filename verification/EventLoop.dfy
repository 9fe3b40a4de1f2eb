/** event-loop.js as functions on its module state: queues, handles, and the kernel timeouts that wake
    the actor. A callback is the list of calls it makes, each with the callbacks it passes on. */
module EventLoop {
  import opened Wrappers

  const MIN_DELAY: nat := 10
  const MAX_DELAY: nat := 2147483647

  /** One call a callback makes, or time passing while it runs. A repeating timer lists what its
      callback does at each invocation. */
  datatype Op =
    | NextTick(cb: seq<Op>)
    | Microtask(cb: seq<Op>)
    | SetTimeout(cb: seq<Op>, delay: Option<real>)
    | SetInterval(cbs: seq<seq<Op>>, delay: Option<real>)
    | SetImmediate(cb: seq<Op>)
    | ClearTimer(id: nat)
    | ClearImmediate(id: nat)
    | Ref(id: nat)
    | Unref(id: nat)
    | Refresh(id: nat)
    | Elapse(ms: nat)

  type Script = seq<Op>

  /** TimerHandle and ImmediateHandle; an immediate has no delay and no due time. */
  datatype Handle = Handle(timer: bool, cbs: seq<Script>, delay: nat, due: nat, repeat: bool, refd: bool,
                           cancelled: bool)

  /** An outstanding kernel timeout: the generation it was armed for and when it is delivered. */
  datatype Wake = Wake(gen: nat, at: nat)

  /** A callback started by a tick; whether no nextTick or microtask was waiting then, whether its handle
      was still not cancelled, and the time. */
  datatype Start = Start(id: nat, timer: bool, quiet: bool, live: bool, at: nat)

  /** Handles are known by their position; timers and immediates list handles in insertion order. */
  datatype State = State(
    clock: nat,
    handles: seq<Handle>,
    ticks: seq<Script>,
    micro: seq<Script>,
    immediates: seq<nat>,
    timers: seq<nat>,
    wakeGen: nat,
    wakeAt: Option<nat>,
    kernel: seq<Wake>,
    log: seq<Start>)

  const INIT: State := State(0, [], [], [], [], [], 0, None, [], [])

  function Max(a: nat, b: nat): nat { if a < b then b else a }

  function Ceil(x: real): int { -((-x).Floor) }

  /** normalizeDelay; None is a delay that is not a finite number. */
  function NormalizeDelay(delay: Option<real>): (d: nat)
    ensures MIN_DELAY <= d <= MAX_DELAY
  {
    var value :=
      if delay.None? || delay.value < 0.0 then 0.0
      else if delay.value > MAX_DELAY as real then MAX_DELAY as real
      else delay.value;
    if Ceil(value) < MIN_DELAY then MIN_DELAY else Ceil(value)
  }

  /* ---- waking up ---- */

  predicate Wanted(s: State, id: nat)
  {
    id < |s.handles| && !s.handles[id].cancelled && s.handles[id].refd
  }

  /** Some immediate in the list is live and referenced. */
  predicate AnyWanted(s: State, ids: seq<nat>)
  {
    exists i :: 0 <= i < |ids| && Wanted(s, ids[i])
  }

  /** The earliest due time among the live referenced timers listed. */
  function MinDue(s: State, ids: seq<nat>): Option<nat>
  {
    if ids == [] then None
    else
      var r, id := MinDue(s, ids[1..]), ids[0];
      if !Wanted(s, id) then r
      else if r.Some? && r.value <= s.handles[id].due then r
      else Some(s.handles[id].due)
  }

  lemma {:induction false} MinDueLeast(s: State, ids: seq<nat>)
    ensures var r := MinDue(s, ids);
            && (forall id :: id in ids && Wanted(s, id) ==> r.Some? && r.value <= s.handles[id].due)
            && (r.Some? ==> exists id :: id in ids && Wanted(s, id) && r.value == s.handles[id].due)
  {
    if ids != [] {
      MinDueLeast(s, ids[1..]);
      var r1, r := MinDue(s, ids[1..]), MinDue(s, ids);
      forall id | id in ids && Wanted(s, id)
        ensures r.Some? && r.value <= s.handles[id].due
      {
        assert id == ids[0] || id in ids[1..];
      }
      if r.Some? {
        if r == r1 {
          var id :| id in ids[1..] && Wanted(s, id) && r.value == s.handles[id].due;
          assert id in ids;
        } else {
          assert ids[0] in ids;
        }
      }
    }
  }

  /** earliestWake: when, and in how many hundredths of a second. */
  function EarliestWake(s: State): Option<(nat, nat)>
  {
    if AnyWanted(s, s.immediates) then Some((s.clock, 0))
    else
      match MinDue(s, s.timers)
      case None => None
      case Some(at) =>
        var remaining := if at > s.clock then at - s.clock else 0;
        Some((at, Max(1, (remaining + 9) / 10)))
  }

  /** scheduleWake. */
  function ScheduleWake(s: State): State
  {
    match EarliestWake(s)
    case None => s
    case Some((at, centis)) =>
      if s.wakeAt.Some? && s.wakeAt.value <= at then s
      else
        s.(wakeGen := s.wakeGen + 1, wakeAt := Some(at), kernel := s.kernel + [Wake(s.wakeGen + 1, s.clock + 10 * centis)])
  }

  /* ---- the calls ---- */

  function Removed(ids: seq<nat>, id: nat): (r: seq<nat>)
    ensures forall x :: x in r <==> x in ids && x != id
  {
    if ids == [] then []
    else
      var r := Removed(ids[1..], id);
      if ids[0] == id then r else [ids[0]] + r
  }

  /** A new handle at the end of its list. */
  function Listed(s: State, h: Handle): State
  {
    if h.timer then s.(handles := s.handles + [h], timers := s.timers + [|s.handles|])
    else s.(handles := s.handles + [h], immediates := s.immediates + [|s.handles|])
  }

  /** A handle in its place. */
  function Put(s: State, id: nat, h: Handle): State
    requires id < |s.handles|
  {
    s.(handles := s.handles[id := h])
  }

  /** A timer of normalised delay d. */
  function AddTimer(s: State, cbs: seq<Script>, d: nat, repeat: bool): State
  {
    ScheduleWake(Listed(s, Handle(true, cbs, d, s.clock + d, repeat, true, false)))
  }

  function AddImmediate(s: State, cb: Script): State
  {
    ScheduleWake(Listed(s, Handle(false, [cb], 0, 0, false, true, false)))
  }

  /** The list without a timer. */
  function Unlisted(s: State, id: nat): State { s.(timers := Removed(s.timers, id)) }

  function RunOp(s: State, op: Op): State
  {
    match op
    case NextTick(cb) => s.(ticks := s.ticks + [cb])
    case Microtask(cb) => s.(micro := s.micro + [cb])
    case SetTimeout(cb, delay) => AddTimer(s, [cb], NormalizeDelay(delay), false)
    case SetInterval(cbs, delay) => AddTimer(s, cbs, NormalizeDelay(delay), true)
    case SetImmediate(cb) => AddImmediate(s, cb)
    case ClearTimer(id) =>
      if id < |s.handles| && !s.handles[id].cancelled then
        Unlisted(Put(s, id, s.handles[id].(cancelled := true)), id)
      else s
    case ClearImmediate(id) =>
      if id < |s.handles| && !s.handles[id].cancelled then
        Put(s, id, s.handles[id].(cancelled := true))
      else s
    case Ref(id) =>
      if id < |s.handles| then ScheduleWake(Put(s, id, s.handles[id].(refd := true))) else s
    case Unref(id) =>
      if id < |s.handles| then Put(s, id, s.handles[id].(refd := false)) else s
    case Refresh(id) =>
      if id < |s.handles| && s.handles[id].timer && !s.handles[id].cancelled then
        ScheduleWake(Put(s, id, s.handles[id].(due := s.clock + s.handles[id].delay)))
      else s
    case Elapse(ms) => s.(clock := s.clock + ms)
  }

  function RunOps(s: State, ops: Script): State
    decreases |ops|
  {
    if ops == [] then s else RunOps(RunOp(s, ops[0]), ops[1..])
  }

  /* ---- draining ---- */

  /** How many callbacks a script can cause to be queued as nextTick or microtask, itself included. */
  function Weight(ops: Script): (n: nat)
    ensures n > 0
    decreases ops
  {
    if ops == [] then 1
    else
      Weight(ops[1..]) +
      match ops[0]
      case NextTick(cb) => Weight(cb)
      case Microtask(cb) => Weight(cb)
      case _ => 0
  }

  function Weights(scripts: seq<Script>): nat
  {
    if scripts == [] then 0 else Weight(scripts[0]) + Weights(scripts[1..])
  }

  function Pending(s: State): nat { Weights(s.ticks) + Weights(s.micro) }

  lemma {:induction false} WeightsAppend(a: seq<Script>, b: seq<Script>)
    ensures Weights(a + b) == Weights(a) + Weights(b)
  {
    if a == [] {
      assert a + b == b;
    } else {
      WeightsAppend(a[1..], b);
      assert (a + b)[1..] == a[1..] + b;
    }
  }

  lemma WeightsSnoc(a: seq<Script>, b: Script)
    ensures Weights(a + [b]) == Weights(a) + Weight(b)
  {
    WeightsAppend(a, [b]);
    assert [b][1..] == [];
  }

  lemma {:induction false} RunOpsPending(s: State, ops: Script)
    ensures Pending(RunOps(s, ops)) < Pending(s) + Weight(ops)
    decreases |ops|
  {
    if ops != [] {
      RunOpsPending(RunOp(s, ops[0]), ops[1..]);
      match ops[0] {
        case NextTick(cb) => WeightsSnoc(s.ticks, cb);
        case Microtask(cb) => WeightsSnoc(s.micro, cb);
        case _ =>
      }
    }
  }

  /** drainNextTick: callbacks in the order they were queued, those queued meanwhile included. */
  function DrainNextTick(s: State): (r: State)
    ensures r.ticks == [] && Pending(r) <= Pending(s)
    decreases Pending(s)
  {
    if s.ticks == [] then s
    else
      RunOpsPending(s.(ticks := s.ticks[1..]), s.ticks[0]);
      DrainNextTick(RunOps(s.(ticks := s.ticks[1..]), s.ticks[0]))
  }

  /** The engine's promise jobs, until none is left. */
  function DrainMicrotasks(s: State): (r: State)
    ensures r.micro == [] && Pending(r) <= Pending(s)
    ensures s.micro != [] ==> Pending(r) < Pending(s)
    decreases Pending(s)
  {
    if s.micro == [] then s
    else
      RunOpsPending(s.(micro := s.micro[1..]), s.micro[0]);
      DrainMicrotasks(RunOps(s.(micro := s.micro[1..]), s.micro[0]))
  }

  /** drainMicrotasksAndNextTick. */
  function Drain(s: State): (r: State)
    ensures r.ticks == [] && r.micro == []
    decreases Pending(s), |s.ticks|
  {
    var s1 := DrainNextTick(s);
    var s2 := DrainMicrotasks(s1);
    if s2.ticks == [] then s2
    else
      assert s1.micro == [] ==> s2 == s1;
      Drain(s2)
  }

  predicate Quiet(s: State) { s.ticks == [] && s.micro == [] }

  function NextScript(h: Handle): Script { if h.cbs == [] then [] else h.cbs[0] }

  /** The start is recorded, and the invocation used up. */
  function Started(s: State, id: nat): State
    requires id < |s.handles|
  {
    var h := s.handles[id];
    Put(s, id, h.(cbs := if h.cbs == [] then [] else h.cbs[1..])).(log := s.log + [Start(id, h.timer, Quiet(s), !h.cancelled, s.clock)])
  }

  /** A handle's callback is started: the script of this invocation runs, then everything it queued
      with nextTick and as microtasks. */
  function Invoke(s: State, id: nat): State
    requires id < |s.handles|
  {
    Drain(RunOps(Started(s, id), NextScript(s.handles[id])))
  }

  /** runTimer. */
  function RunTimer(s: State, id: nat): State
    requires id < |s.handles|
  {
    var h := s.handles[id];
    if h.cancelled then s
    else if h.repeat then Invoke(Put(s, id, h.(due := s.clock + h.delay)), id)
    else Invoke(Unlisted(s, id), id)
  }

  function RunTimers(s: State, ids: seq<nat>): State
    decreases |ids|
  {
    if ids == [] then s
    else RunTimers(if ids[0] < |s.handles| then RunTimer(s, ids[0]) else s, ids[1..])
  }

  function RunImmediates(s: State, ids: seq<nat>): State
    decreases |ids|
  {
    if ids == [] then s
    else
      RunImmediates(if ids[0] < |s.handles| && !s.handles[ids[0]].cancelled then Invoke(s, ids[0]) else s, ids[1..])
  }

  /** drainImmediates: those queued at entry. */
  function DrainImmediates(s: State): State { RunImmediates(s.(immediates := []), s.immediates) }

  /** The order of due.sort. */
  predicate Before(s: State, a: nat, b: nat)
  {
    a < |s.handles| && b < |s.handles| &&
    (s.handles[a].due < s.handles[b].due || (s.handles[a].due == s.handles[b].due && a < b))
  }

  function Insert(s: State, ids: seq<nat>, id: nat): (r: seq<nat>)
    ensures forall x :: x in r <==> x in ids || x == id
  {
    if ids == [] then [id]
    else if Before(s, id, ids[0]) then [id] + ids
    else [ids[0]] + Insert(s, ids[1..], id)
  }

  predicate Due(s: State, id: nat)
  {
    id < |s.handles| && !s.handles[id].cancelled && s.handles[id].due <= s.clock
  }

  /** The timers of the list that are due now, by due time and then by age. */
  function DueList(s: State, ids: seq<nat>): (r: seq<nat>)
    ensures forall x :: x in r <==> x in ids && Due(s, x)
  {
    if ids == [] then []
    else
      var r := DueList(s, ids[..|ids| - 1]);
      var id := ids[|ids| - 1];
      assert ids == ids[..|ids| - 1] + [id];
      if Due(s, id) then Insert(s, r, id) else r
  }

  /** drainTimers: those due at entry. */
  function DrainTimers(s: State): State { RunTimers(s, DueList(s, s.timers)) }

  /** tick. */
  function Tick(s: State): State { ScheduleWake(DrainTimers(DrainImmediates(Drain(s)))) }

  /** What the kernel delivers: the timeout at position k. A stale generation changes nothing else. */
  function Fire(s: State, k: nat): State
    requires k < |s.kernel|
  {
    var s1 := s.(kernel := s.kernel[..k] + s.kernel[k + 1..]);
    if s.kernel[k].gen != s.wakeGen then s1 else Tick(s1.(wakeAt := None))
  }
}
