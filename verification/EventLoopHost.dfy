/** event-loop.js as it runs: module variables updated by every call, queues taken and replaced. */
module EventLoopHost {
  import opened Wrappers
  import opened EventLoop

  class Loop {
    var clock: nat
    var handles: seq<Handle>
    var ticks: seq<Script>
    var micro: seq<Script>
    var immediates: seq<nat>
    var timers: seq<nat>
    var wakeGen: nat
    var wakeAt: Option<nat>
    var kernel: seq<Wake>
    ghost var log: seq<Start>

    ghost function Abs(): State
      reads this
    {
      State(clock, handles, ticks, micro, immediates, timers, wakeGen, wakeAt, kernel, log)
    }

    constructor ()
      ensures Abs() == INIT
    {
      clock, handles, ticks, micro, immediates, timers := 0, [], [], [], [], [];
      wakeGen, wakeAt, kernel, log := 0, None, [], [];
    }

    /** earliestWake. */
    method Earliest() returns (r: Option<(nat, nat)>)
      ensures r == EarliestWake(Abs())
    {
      var i := 0;
      while i < |immediates|
        invariant 0 <= i <= |immediates|
        invariant forall j :: 0 <= j < i ==> !Wanted(Abs(), immediates[j])
      {
        var id := immediates[i];
        if id < |handles| && !handles[id].cancelled && handles[id].refd {
          assert Wanted(Abs(), immediates[i]);
          return Some((clock, 0));
        }
        i := i + 1;
      }
      var at: Option<nat> := None;
      i := |timers|;
      assert timers[i..] == [];
      while i > 0
        invariant 0 <= i <= |timers|
        invariant at == MinDue(Abs(), timers[i..])
      {
        i := i - 1;
        var id := timers[i];
        assert timers[i..][1..] == timers[i + 1..];
        if id < |handles| && !handles[id].cancelled && handles[id].refd {
          if at.None? || handles[id].due < at.value {
            at := Some(handles[id].due);
          }
        }
      }
      assert timers[0..] == timers;
      if at.None? {
        return None;
      }
      var remaining := if at.value > clock then at.value - clock else 0;
      return Some((at.value, if 1 < (remaining + 9) / 10 then (remaining + 9) / 10 else 1));
    }

    /** scheduleWake. */
    method Schedule()
      modifies this`wakeGen, this`wakeAt, this`kernel
      ensures Abs() == ScheduleWake(old(Abs()))
    {
      var next := Earliest();
      if next.None? {
        return;
      }
      if wakeAt.Some? && wakeAt.value <= next.value.0 {
        return;
      }
      wakeGen := wakeGen + 1;
      wakeAt := Some(next.value.0);
      kernel := kernel + [Wake(wakeGen, clock + 10 * next.value.1)];
    }

    /** One call made by a callback. */
    method Call(op: Op)
      modifies this
      ensures Abs() == RunOp(old(Abs()), op)
    {
      match op
      case NextTick(cb) => ticks := ticks + [cb];
      case Microtask(cb) => micro := micro + [cb];
      case SetTimeout(cb, delay) => NewTimer([cb], delay, false);
      case SetInterval(cbs, delay) => NewTimer(cbs, delay, true);
      case SetImmediate(cb) =>
        immediates := immediates + [|handles|];
        handles := handles + [Handle(false, [cb], 0, 0, false, true, false)];
        Schedule();
      case ClearTimer(id) =>
        if id < |handles| && !handles[id].cancelled {
          handles := handles[id := handles[id].(cancelled := true)];
          timers := Removed(timers, id);
        }
      case ClearImmediate(id) =>
        if id < |handles| && !handles[id].cancelled {
          handles := handles[id := handles[id].(cancelled := true)];
        }
      case Ref(id) =>
        if id < |handles| {
          handles := handles[id := handles[id].(refd := true)];
          Schedule();
        }
      case Unref(id) =>
        if id < |handles| {
          handles := handles[id := handles[id].(refd := false)];
        }
      case Refresh(id) =>
        if id < |handles| && handles[id].timer && !handles[id].cancelled {
          handles := handles[id := handles[id].(due := clock + handles[id].delay)];
          Schedule();
        }
      case Elapse(ms) => clock := clock + ms;
    }

    /** setTimeout and setInterval. */
    method NewTimer(cbs: seq<Script>, delay: Option<real>, repeat: bool)
      modifies this
      ensures Abs() == AddTimer(old(Abs()), cbs, NormalizeDelay(delay), repeat)
    {
      var d := NormalizeDelay(delay);
      timers := timers + [|handles|];
      handles := handles + [Handle(true, cbs, d, clock + d, repeat, true, false)];
      Schedule();
    }

    method Calls(ops: Script)
      modifies this
      ensures Abs() == RunOps(old(Abs()), ops)
    {
      var i := 0;
      assert ops[0..] == ops;
      while i < |ops|
        invariant 0 <= i <= |ops| && RunOps(Abs(), ops[i..]) == RunOps(old(Abs()), ops)
      {
        assert ops[i..][1..] == ops[i + 1..];
        Call(ops[i]);
        i := i + 1;
      }
    }

    /** drainNextTick: the queue is taken whole, and taken again while callbacks refill it. */
    method DrainTicks()
      modifies this
      ensures Abs() == DrainNextTick(old(Abs()))
    {
      ghost var whole := DrainNextTick(Abs());
      while ticks != []
        invariant DrainNextTick(Abs()) == whole
        decreases Pending(Abs())
      {
        var queue := ticks;
        ghost var before := Pending(Abs());
        ticks := [];
        var i := 0;
        assert queue[0..] + [] == queue;
        while i < |queue|
          invariant 0 <= i <= |queue|
          invariant DrainNextTick(WithTicks(Abs(), queue[i..])) == whole
          invariant Pending(WithTicks(Abs(), queue[i..])) <= before
          invariant i > 0 ==> Pending(WithTicks(Abs(), queue[i..])) < before
        {
          TakeTick(Abs(), queue[i], queue[i + 1..]);
          assert queue[i..] == [queue[i]] + queue[i + 1..];
          Calls(queue[i]);
          i := i + 1;
        }
        assert WithTicks(Abs(), queue[i..]) == Abs() by {
          assert queue[i..] + ticks == ticks;
        }
      }
    }

    /** The engine's job queue, run until it is empty. */
    method DrainJobs()
      modifies this
      ensures Abs() == DrainMicrotasks(old(Abs()))
    {
      while micro != []
        invariant DrainMicrotasks(Abs()) == DrainMicrotasks(old(Abs()))
        decreases Pending(Abs())
      {
        var job := micro[0];
        RunOpsPending(Abs().(micro := micro[1..]), job);
        micro := micro[1..];
        Calls(job);
      }
    }

    /** drainMicrotasksAndNextTick. */
    method DrainAll()
      modifies this
      ensures Abs() == Drain(old(Abs()))
    {
      ghost var s := Abs();
      while true
        invariant Drain(Abs()) == Drain(s)
        decreases Pending(Abs()), |ticks|
      {
        ghost var s0 := Abs();
        ghost var s1 := DrainNextTick(s0);
        ghost var s2 := DrainMicrotasks(s1);
        DrainTicks();
        DrainJobs();
        if ticks == [] {
          return;
        }
        assert s1.micro == [] ==> s2 == s1;
      }
    }

    /** A handle's callback with everything it queues. */
    method Start(id: nat)
      requires id < |handles|
      modifies this
      ensures Abs() == Invoke(old(Abs()), id)
    {
      var h := handles[id];
      log := log + [EventLoop.Start(id, h.timer, Quiet(Abs()), !h.cancelled, clock)];
      handles := handles[id := h.(cbs := if h.cbs == [] then [] else h.cbs[1..])];
      Calls(NextScript(h));
      DrainAll();
    }

    /** runTimer. */
    method RunOne(id: nat)
      requires id < |handles|
      modifies this
      ensures Abs() == RunTimer(old(Abs()), id)
    {
      var h := handles[id];
      if h.cancelled {
        return;
      }
      if h.repeat {
        handles := handles[id := h.(due := clock + h.delay)];
      } else {
        timers := Removed(timers, id);
      }
      Start(id);
    }

    /** drainTimers. */
    method DrainDue()
      modifies this
      ensures Abs() == DrainTimers(old(Abs()))
    {
      var due := DueList(State(clock, handles, [], [], [], [], 0, None, [], []), timers);
      DueListFrame(Abs(), State(clock, handles, [], [], [], [], 0, None, [], []), timers);
      var i := 0;
      assert due[0..] == due;
      while i < |due|
        invariant 0 <= i <= |due| && RunTimers(Abs(), due[i..]) == DrainTimers(old(Abs()))
      {
        assert due[i..][1..] == due[i + 1..];
        if due[i] < |handles| {
          RunOne(due[i]);
        }
        i := i + 1;
      }
    }

    /** drainImmediates. */
    method DrainQueued()
      modifies this
      ensures Abs() == DrainImmediates(old(Abs()))
    {
      var queue := immediates;
      immediates := [];
      var i := 0;
      assert queue[0..] == queue;
      while i < |queue|
        invariant 0 <= i <= |queue| && RunImmediates(Abs(), queue[i..]) == DrainImmediates(old(Abs()))
      {
        assert queue[i..][1..] == queue[i + 1..];
        if queue[i] < |handles| && !handles[queue[i]].cancelled {
          Start(queue[i]);
        }
        i := i + 1;
      }
    }

    /** tick. */
    method DoTick()
      modifies this
      ensures Abs() == Tick(old(Abs()))
    {
      DrainAll();
      DrainQueued();
      DrainDue();
      Schedule();
    }

    /** The kernel delivers timeout k. */
    method Deliver(k: nat)
      requires k < |kernel|
      modifies this
      ensures Abs() == Fire(old(Abs()), k)
    {
      var generation := kernel[k].gen;
      kernel := kernel[..k] + kernel[k + 1..];
      if generation != wakeGen {
        return;
      }
      wakeAt := None;
      DoTick();
    }
  }

  /* ---- the queue taken whole and the queue taken one by one ---- */

  /** The state with more nextTick callbacks in front of its queue. */
  ghost function WithTicks(s: State, q: seq<Script>): State { s.(ticks := q + s.ticks) }

  lemma {:induction false} MinDueFrame(s: State, q: seq<Script>, ids: seq<nat>)
    ensures MinDue(WithTicks(s, q), ids) == MinDue(s, ids)
  {
    if ids != [] {
      MinDueFrame(s, q, ids[1..]);
    }
  }

  lemma ScheduleFrame(s: State, q: seq<Script>)
    ensures ScheduleWake(WithTicks(s, q)) == WithTicks(ScheduleWake(s), q)
  {
    MinDueFrame(s, q, s.timers);
    assert forall id: nat :: Wanted(WithTicks(s, q), id) == Wanted(s, id);
    assert AnyWanted(WithTicks(s, q), s.immediates) == AnyWanted(s, s.immediates) by {
      assert forall i :: 0 <= i < |s.immediates| ==> Wanted(WithTicks(s, q), s.immediates[i]) == Wanted(s, s.immediates[i]);
    }
  }

  lemma TimerFrame(s: State, q: seq<Script>, cbs: seq<Script>, d: nat, repeat: bool)
    ensures AddTimer(WithTicks(s, q), cbs, d, repeat) == WithTicks(AddTimer(s, cbs, d, repeat), q)
  {
    ScheduleFrame(Listed(s, Handle(true, cbs, d, s.clock + d, repeat, true, false)), q);
  }

  lemma ImmediateFrame(s: State, q: seq<Script>, cb: Script)
    ensures AddImmediate(WithTicks(s, q), cb) == WithTicks(AddImmediate(s, cb), q)
  {
    ScheduleFrame(Listed(s, Handle(false, [cb], 0, 0, false, true, false)), q);
  }

  lemma PutFrame(s: State, q: seq<Script>, id: nat, h: Handle)
    requires id < |s.handles|
    ensures ScheduleWake(Put(WithTicks(s, q), id, h)) == WithTicks(ScheduleWake(Put(s, id, h)), q)
  {
    ScheduleFrame(Put(s, id, h), q);
  }

  /** No call looks at the nextTick queue; it only grows at the end. */
  lemma OpFrame(s: State, q: seq<Script>, op: Op)
    ensures RunOp(WithTicks(s, q), op) == WithTicks(RunOp(s, op), q)
  {
    match op
    case NextTick(cb) => assert q + s.ticks + [cb] == q + (s.ticks + [cb]);
    case SetTimeout(cb, delay) => TimerFrame(s, q, [cb], NormalizeDelay(delay), false);
    case SetInterval(cbs, delay) => TimerFrame(s, q, cbs, NormalizeDelay(delay), true);
    case SetImmediate(cb) => ImmediateFrame(s, q, cb);
    case Ref(id) =>
      if id < |s.handles| {
        PutFrame(s, q, id, s.handles[id].(refd := true));
      }
    case Refresh(id) =>
      if id < |s.handles| {
        PutFrame(s, q, id, s.handles[id].(due := s.clock + s.handles[id].delay));
      }
    case _ =>
  }

  lemma {:induction false} OpsFrame(s: State, q: seq<Script>, ops: Script)
    ensures RunOps(WithTicks(s, q), ops) == WithTicks(RunOps(s, ops), q)
    decreases |ops|
  {
    if ops != [] {
      OpFrame(s, q, ops[0]);
      OpsFrame(RunOp(s, ops[0]), q, ops[1..]);
    }
  }

  /** Running the first callback of a taken queue is draining one callback of the joined queue. */
  lemma TakeTick(s: State, cb: Script, q: seq<Script>)
    ensures DrainNextTick(WithTicks(s, [cb] + q)) == DrainNextTick(WithTicks(RunOps(s, cb), q))
    ensures Pending(WithTicks(RunOps(s, cb), q)) < Pending(WithTicks(s, [cb] + q))
  {
    var s1 := WithTicks(s, [cb] + q);
    assert s1.ticks[0] == cb && s1.ticks[1..] == q + s.ticks;
    OpsFrame(s, q, cb);
    RunOpsPending(WithTicks(s, q), cb);
  }

  lemma {:induction false} InsertFrame(s: State, r: State, ids: seq<nat>, id: nat)
    requires s.handles == r.handles
    ensures Insert(s, ids, id) == Insert(r, ids, id)
  {
    if ids != [] {
      InsertFrame(s, r, ids[1..], id);
    }
  }

  lemma {:induction false} DueListFrame(s: State, r: State, ids: seq<nat>)
    requires s.handles == r.handles && s.clock == r.clock
    ensures DueList(s, ids) == DueList(r, ids)
  {
    if ids != [] {
      var n := |ids| - 1;
      DueListFrame(s, r, ids[..n]);
      if Due(s, ids[n]) {
        InsertFrame(s, r, DueList(s, ids[..n]), ids[n]);
      }
    }
  }
}
