/** What every run of the event loop keeps: no wake-up is lost, callbacks start on quiet queues, a
    one-shot runs once, and a tick runs what was due, in order. */
module EventLoopRuns {
  import opened Wrappers
  import opened EventLoop

  /* ---- lists of handles ---- */

  predicate Distinct(ids: seq<nat>)
  {
    ids == [] || (ids[0] !in ids[1..] && Distinct(ids[1..]))
  }

  lemma {:induction false} DistinctSnoc(ids: seq<nat>, id: nat)
    requires Distinct(ids) && id !in ids
    ensures Distinct(ids + [id])
  {
    if ids == [] {
      assert ids + [id] == [id];
    } else {
      DistinctSnoc(ids[1..], id);
      assert (ids + [id])[1..] == ids[1..] + [id];
    }
  }

  lemma {:induction false} DistinctRemoved(ids: seq<nat>, id: nat)
    requires Distinct(ids)
    ensures Distinct(Removed(ids, id))
  {
    if ids != [] {
      DistinctRemoved(ids[1..], id);
      var r := Removed(ids[1..], id);
      assert ([ids[0]] + r)[1..] == r;
    }
  }

  /** Listed handles exist, once each, and are of the right kind; only timers repeat. */
  ghost predicate Shape(s: State)
  {
    && (forall id :: id in s.timers ==> id < |s.handles| && s.handles[id].timer)
    && (forall id :: id in s.immediates ==> id < |s.handles| && !s.handles[id].timer)
    && (forall i :: 0 <= i < |s.handles| && s.handles[i].repeat ==> s.handles[i].timer)
    && Distinct(s.timers) && Distinct(s.immediates)
  }

  /* ---- the armed wake ---- */

  /** Timeout k is the current generation's, never early and not over 10 ms late. */
  predicate Current(s: State, k: nat)
    requires s.wakeAt.Some?
  {
    && k < |s.kernel| && s.kernel[k].gen == s.wakeGen
    && s.wakeAt.value <= s.kernel[k].at <= Max(s.wakeAt.value, s.clock) + 10
  }

  /** Generations only grow, and an armed wake has its timeout outstanding. */
  ghost predicate WakeOk(s: State)
  {
    && (forall i, j :: 0 <= i < j < |s.kernel| ==> s.kernel[i].gen < s.kernel[j].gen)
    && (forall i :: 0 <= i < |s.kernel| ==> s.kernel[i].gen <= s.wakeGen)
    && (s.wakeAt.Some? ==> exists k: nat :: Current(s, k))
  }

  /** No live referenced immediate or timer waits without a wake; the wake is armed no later than the
      timer's due time, or than now. */
  ghost predicate NoLost(s: State)
  {
    && (AnyWanted(s, s.immediates) ==> s.wakeAt.Some? && s.wakeAt.value <= s.clock)
    && forall id :: id in s.timers && Wanted(s, id) ==>
         s.wakeAt.Some? && s.wakeAt.value <= Max(s.handles[id].due, s.clock)
  }

  lemma ScheduleWakeOk(s: State)
    requires WakeOk(s)
    ensures WakeOk(ScheduleWake(s)) && NoLost(ScheduleWake(s))
  {
    var r := ScheduleWake(s);
    var e := EarliestWake(s);
    if e.Some? && r != s {
      assert Current(r, |s.kernel|);
    }
    MinDueLeast(s, s.timers);
    assert AnyWanted(r, r.immediates) <==> AnyWanted(s, s.immediates) by {
      assert forall i :: 0 <= i < |s.immediates| ==> Wanted(r, s.immediates[i]) == Wanted(s, s.immediates[i]);
    }
    assert forall id: nat :: Wanted(r, id) == Wanted(s, id);
  }

  /* ---- what one step keeps ---- */

  /** s came from s0 by calls made in callbacks: nothing was started, handles keep their kind and stay
      cancelled, and only new handles were listed. */
  ghost predicate Extends(s0: State, s: State)
  {
    && s.log == s0.log && s0.clock <= s.clock && |s0.handles| <= |s.handles|
    && (forall i :: 0 <= i < |s0.handles| ==>
          && s.handles[i].repeat == s0.handles[i].repeat && s.handles[i].timer == s0.handles[i].timer
          && (s0.handles[i].cancelled ==> s.handles[i].cancelled))
    && (forall id :: id in s.timers ==> id in s0.timers || id >= |s0.handles|)
    && (forall id :: id in s.immediates ==> id in s0.immediates || id >= |s0.handles|)
  }

  ghost predicate Good(s0: State, s: State) { Shape(s) && WakeOk(s) && Extends(s0, s) }

  lemma GoodSchedule(s0: State, s: State)
    requires Good(s0, s)
    ensures Good(s0, ScheduleWake(s))
  {
    ScheduleWakeOk(s);
  }

  lemma GoodListed(s0: State, s: State, h: Handle)
    requires Good(s0, s) && (h.repeat ==> h.timer)
    ensures Good(s0, Listed(s, h))
  {
    var r := Listed(s, h);
    if h.timer {
      DistinctSnoc(s.timers, |s.handles|);
    } else {
      DistinctSnoc(s.immediates, |s.handles|);
    }
    assert forall k: nat :: s.wakeAt.Some? && Current(s, k) ==> Current(r, k);
  }

  /** A handle changed in place, keeping its kind and not un-cancelled. */
  lemma GoodPut(s0: State, s: State, id: nat, h: Handle)
    requires Good(s0, s) && id < |s.handles|
    requires h.timer == s.handles[id].timer && h.repeat == s.handles[id].repeat
    requires s.handles[id].cancelled ==> h.cancelled
    ensures Good(s0, Put(s, id, h))
  {
    var r := Put(s, id, h);
    assert forall k: nat :: s.wakeAt.Some? && Current(s, k) ==> Current(r, k);
  }

  lemma GoodUnlisted(s0: State, s: State, id: nat)
    requires Good(s0, s)
    ensures Good(s0, Unlisted(s, id))
  {
    var r := Unlisted(s, id);
    DistinctRemoved(s.timers, id);
    assert forall k: nat :: s.wakeAt.Some? && Current(s, k) ==> Current(r, k);
  }

  lemma GoodQueues(s0: State, s: State, ticks: seq<Script>, micro: seq<Script>, ms: nat)
    requires Good(s0, s)
    ensures Good(s0, s.(ticks := ticks, micro := micro, clock := s.clock + ms))
  {
    var r := s.(ticks := ticks, micro := micro, clock := s.clock + ms);
    assert forall k: nat :: s.wakeAt.Some? && Current(s, k) ==> Current(r, k);
  }

  lemma GoodPutSchedule(s0: State, s: State, id: nat, h: Handle)
    requires Good(s0, s) && id < |s.handles|
    requires h.timer == s.handles[id].timer && h.repeat == s.handles[id].repeat
    requires s.handles[id].cancelled ==> h.cancelled
    ensures Good(s0, ScheduleWake(Put(s, id, h)))
  {
    GoodPut(s0, s, id, h);
    GoodSchedule(s0, Put(s, id, h));
  }

  lemma GoodImmediate(s0: State, s: State, cb: Script)
    requires Good(s0, s)
    ensures Good(s0, AddImmediate(s, cb))
  {
    var h := Handle(false, [cb], 0, 0, false, true, false);
    GoodListed(s0, s, h);
    GoodSchedule(s0, Listed(s, h));
  }

  lemma GoodCleared(s0: State, s: State, id: nat)
    requires Good(s0, s) && id < |s.handles|
    ensures Good(s0, Unlisted(Put(s, id, s.handles[id].(cancelled := true)), id))
  {
    var h := s.handles[id].(cancelled := true);
    GoodPut(s0, s, id, h);
    GoodUnlisted(s0, Put(s, id, h), id);
  }

  /** The calls that change one handle. */
  lemma GoodHandleOp(s0: State, s: State, op: Op)
    requires Good(s0, s) && (op.ClearTimer? || op.ClearImmediate? || op.Ref? || op.Unref? || op.Refresh?)
    ensures Good(s0, RunOp(s, op))
  {
    if op.id < |s.handles| {
      var h := s.handles[op.id];
      match op
      case ClearTimer(id) => GoodCleared(s0, s, id);
      case ClearImmediate(id) => GoodPut(s0, s, id, h.(cancelled := true));
      case Ref(id) => GoodPutSchedule(s0, s, id, h.(refd := true));
      case Unref(id) => GoodPut(s0, s, id, h.(refd := false));
      case Refresh(id) => GoodPutSchedule(s0, s, id, h.(due := s.clock + h.delay));
    }
  }

  lemma GoodOp(s0: State, s: State, op: Op)
    requires Good(s0, s)
    ensures Good(s0, RunOp(s, op))
  {
    match op
    case NextTick(cb) => GoodQueues(s0, s, s.ticks + [cb], s.micro, 0);
    case Microtask(cb) => GoodQueues(s0, s, s.ticks, s.micro + [cb], 0);
    case SetTimeout(cb, delay) => GoodTimer(s0, s, [cb], NormalizeDelay(delay), false);
    case SetInterval(cbs, delay) => GoodTimer(s0, s, cbs, NormalizeDelay(delay), true);
    case SetImmediate(cb) => GoodImmediate(s0, s, cb);
    case Elapse(ms) => GoodQueues(s0, s, s.ticks, s.micro, ms);
    case _ => GoodHandleOp(s0, s, op);
  }

  lemma GoodTimer(s0: State, s: State, cbs: seq<Script>, d: nat, repeat: bool)
    requires Good(s0, s)
    ensures Good(s0, AddTimer(s, cbs, d, repeat))
  {
    var h := Handle(true, cbs, d, s.clock + d, repeat, true, false);
    GoodListed(s0, s, h);
    GoodSchedule(s0, Listed(s, h));
  }

  lemma {:induction false} GoodOps(s0: State, s: State, ops: Script)
    requires Good(s0, s)
    ensures Good(s0, RunOps(s, ops))
    decreases |ops|
  {
    if ops != [] {
      GoodOp(s0, s, ops[0]);
      GoodOps(s0, RunOp(s, ops[0]), ops[1..]);
    }
  }

  lemma {:induction false} GoodNextTick(s0: State, s: State)
    requires Good(s0, s)
    ensures Good(s0, DrainNextTick(s))
    decreases Pending(s)
  {
    if s.ticks != [] {
      var s1 := s.(ticks := s.ticks[1..]);
      RunOpsPending(s1, s.ticks[0]);
      GoodQueues(s0, s, s.ticks[1..], s.micro, 0);
      GoodOps(s0, s1, s.ticks[0]);
      GoodNextTick(s0, RunOps(s1, s.ticks[0]));
    }
  }

  lemma {:induction false} GoodMicrotasks(s0: State, s: State)
    requires Good(s0, s)
    ensures Good(s0, DrainMicrotasks(s))
    decreases Pending(s)
  {
    if s.micro != [] {
      var s1 := s.(micro := s.micro[1..]);
      RunOpsPending(s1, s.micro[0]);
      GoodQueues(s0, s, s.ticks, s.micro[1..], 0);
      GoodOps(s0, s1, s.micro[0]);
      GoodMicrotasks(s0, RunOps(s1, s.micro[0]));
    }
  }

  lemma {:induction false} GoodDrain(s0: State, s: State)
    requires Good(s0, s)
    ensures Good(s0, Drain(s))
    decreases Pending(s), |s.ticks|
  {
    var s1 := DrainNextTick(s);
    var s2 := DrainMicrotasks(s1);
    GoodNextTick(s0, s);
    GoodMicrotasks(s0, s1);
    if s2.ticks != [] {
      assert s1.micro == [] ==> s2 == s1;
      GoodDrain(s0, s2);
    }
  }

  /* ---- what each call does ---- */

  /** The calls on handles and queues, scheduleWake aside: queued callbacks go to the back, a cleared
      handle is cancelled for good, and a cleared timer leaves the list. */
  lemma CallEffects(s: State, op: Op)
    ensures var r, n := RunOp(s, op), |s.handles|;
            match op
            case NextTick(cb) => r == s.(ticks := s.ticks + [cb])
            case Microtask(cb) => r == s.(micro := s.micro + [cb])
            case SetTimeout(cb, _) =>
              && r.timers == s.timers + [n] && |r.handles| == n + 1
              && r.handles[n].timer && r.handles[n].cbs == [cb] && !r.handles[n].repeat && !r.handles[n].cancelled && r.handles[n].refd
            case SetInterval(cbs, _) =>
              && r.timers == s.timers + [n] && |r.handles| == n + 1
              && r.handles[n].timer && r.handles[n].cbs == cbs && r.handles[n].repeat && !r.handles[n].cancelled && r.handles[n].refd
            case SetImmediate(cb) =>
              && r.immediates == s.immediates + [n] && |r.handles| == n + 1
              && !r.handles[n].timer && r.handles[n].cbs == [cb] && !r.handles[n].cancelled && r.handles[n].refd
            case ClearTimer(id) => id < n ==> r.handles[id].cancelled && (!s.handles[id].cancelled ==> id !in r.timers)
            case ClearImmediate(id) => id < n ==> r.handles[id].cancelled && r.timers == s.timers
            case Ref(id) => id < n ==> r.handles[id].refd && r.timers == s.timers
            case Unref(id) => id < n ==> !r.handles[id].refd && r.timers == s.timers
            case Refresh(id) => r.timers == s.timers && r.immediates == s.immediates
            case Elapse(ms) => r == s.(clock := s.clock + ms)
  {
  }

  /* ---- the order of draining ---- */

  /** The microtasks there are and those they queue, and then whatever they left to nextTick. */
  function JobsFirst(s: State): State { Drain(DrainMicrotasks(s)) }

  /** nextTick wins at every check point: as long as a nextTick callback waits, the first of them runs
      next, whatever microtasks there are. With none waiting the first microtask runs; and then, until
      no microtask is left, the first of those, even if nextTick callbacks were queued meanwhile. */
  lemma DrainOrder(s: State)
    ensures s.ticks != [] ==> Drain(s) == Drain(RunOps(s.(ticks := s.ticks[1..]), s.ticks[0]))
    ensures s.ticks == [] && s.micro != [] ==> Drain(s) == JobsFirst(RunOps(s.(micro := s.micro[1..]), s.micro[0]))
    ensures s.micro != [] ==> JobsFirst(s) == JobsFirst(RunOps(s.(micro := s.micro[1..]), s.micro[0]))
    ensures s.micro == [] ==> JobsFirst(s) == Drain(s)
    ensures s.ticks == [] && s.micro == [] ==> Drain(s) == s
  {
    if s.ticks == [] {
      var s2 := DrainMicrotasks(s);
      if s2.ticks == [] {
        assert Drain(s2) == s2;
      }
    }
  }

  /* ---- what was started ---- */

  predicate Logged(s: State, id: nat) { exists i :: 0 <= i < |s.log| && s.log[i].id == id }

  /** Every callback started on quiet queues with its handle not cancelled; one that does not repeat
      started once and is listed no more. */
  ghost predicate LogOk(s: State)
  {
    && (forall i :: 0 <= i < |s.log| ==>
          var e := s.log[i];
          && e.id < |s.handles| && e.quiet && e.live && e.timer == s.handles[e.id].timer
          && (!s.handles[e.id].repeat ==> e.id !in s.timers && e.id !in s.immediates))
    && forall i, j :: 0 <= i < j < |s.log| && s.log[i].id == s.log[j].id ==>
         s.log[i].id < |s.handles| && s.handles[s.log[i].id].repeat
  }

  lemma LogExtends(s0: State, s: State)
    requires LogOk(s0) && Extends(s0, s)
    ensures LogOk(s)
  {
  }

  ghost predicate Inv(s: State) { Shape(s) && WakeOk(s) && LogOk(s) }

  lemma GoodSelf(s: State)
    requires Shape(s) && WakeOk(s)
    ensures Good(s, s)
  {
  }

  /** What starting a callback does: one entry more, and quiet queues again at the end. */
  lemma InvokeKeeps(s: State, id: nat)
    requires Inv(s) && Quiet(s) && id < |s.handles| && !s.handles[id].cancelled
    requires !s.handles[id].repeat ==> id !in s.timers && id !in s.immediates && !Logged(s, id)
    ensures var r := Invoke(s, id);
            && Inv(r) && Quiet(r) && r.log == s.log + [Start(id, s.handles[id].timer, true, true, s.clock)]
            && Extends(s.(log := r.log), r)
  {
    var h := s.handles[id];
    GoodSelf(s);
    GoodPut(s, s, id, h.(cbs := if h.cbs == [] then [] else h.cbs[1..]));
    var s1 := Started(s, id);
    assert forall k: nat :: s.wakeAt.Some? && Current(s, k) ==> Current(s1, k);
    StartLogged(s, s1, id);
    GoodSelf(s1);
    GoodOps(s1, s1, NextScript(h));
    GoodDrain(s1, RunOps(s1, NextScript(h)));
    LogExtends(s1, Invoke(s, id));
  }

  lemma StartLogged(s: State, s1: State, id: nat)
    requires Inv(s) && id < |s.handles|
    requires !s.handles[id].repeat ==> id !in s.timers && id !in s.immediates && !Logged(s, id)
    requires s1.log == s.log + [Start(id, s.handles[id].timer, true, true, s.clock)] && s1.timers == s.timers && s1.immediates == s.immediates
    requires |s1.handles| == |s.handles|
    requires forall i :: 0 <= i < |s.handles| ==>
               s1.handles[i].repeat == s.handles[i].repeat && s1.handles[i].timer == s.handles[i].timer
    ensures LogOk(s1)
  {
    forall i, j | 0 <= i < j < |s1.log| && s1.log[i].id == s1.log[j].id
      ensures s1.log[i].id < |s1.handles| && s1.handles[s1.log[i].id].repeat
    {
      assert s.log[i] == s1.log[i];
      assert Logged(s, s.log[i].id);
      if j < |s.log| {
        assert s.log[j] == s1.log[j];
      }
    }
  }

  /** Starting a handle runs the callback it was given, or the next of a repeating one's, and then
      drains the queues. */
  lemma InvokeRuns(s: State, id: nat)
    requires id < |s.handles| && s.handles[id].cbs != []
    ensures var h := s.handles[id];
            var s1 := s.(handles := s.handles[id := h.(cbs := h.cbs[1..])],
                         log := s.log + [Start(id, h.timer, s.ticks == [] && s.micro == [], !h.cancelled, s.clock)]);
            Invoke(s, id) == Drain(RunOps(s1, h.cbs[0]))
  {
  }

  /* ---- a tick's phases ---- */

  lemma RunTimerKeeps(s: State, id: nat)
    requires Inv(s) && Quiet(s) && id < |s.handles| && s.handles[id].timer
    requires !s.handles[id].repeat ==> !Logged(s, id)
    ensures var r := RunTimer(s, id);
            && Inv(r) && Quiet(r) && Extends(s.(log := r.log), r) && (s.handles[id].cancelled ==> r == s)
            && r.log == s.log + if s.handles[id].cancelled then [] else [Start(id, true, true, true, s.clock)]
  {
    var h := s.handles[id];
    GoodSelf(s);
    if h.cancelled {
      assert s.log + [] == s.log && s.(log := s.log) == s;
    } else if h.repeat {
      var s1 := Put(s, id, h.(due := s.clock + h.delay));
      GoodPut(s, s, id, h.(due := s.clock + h.delay));
      LogExtends(s, s1);
      InvokeKeeps(s1, id);
      ExtendsOn(s, s1, Invoke(s1, id));
    } else {
      var s1 := Unlisted(s, id);
      GoodUnlisted(s, s, id);
      LogExtends(s, s1);
      InvokeKeeps(s1, id);
      ExtendsOn(s, s1, Invoke(s1, id));
    }
  }

  lemma ExtendsOn(s: State, s1: State, r: State)
    requires Extends(s, s1) && Extends(s1.(log := r.log), r)
    ensures Extends(s.(log := r.log), r)
  {
  }

  /** a can be got from b by leaving elements out. */
  predicate Subsequence(a: seq<nat>, b: seq<nat>)
    decreases |b|
  {
    if a == [] then true
    else b != [] && ((a[0] == b[0] && Subsequence(a[1..], b[1..])) || Subsequence(a, b[1..]))
  }

  function Ids(log: seq<Start>): (r: seq<nat>)
    ensures |r| == |log| && forall i :: 0 <= i < |log| ==> r[i] == log[i].id
  {
    seq(|log|, i requires 0 <= i < |log| => log[i].id)
  }

  /** The entries a phase added. */
  function Added(s: State, r: State): (e: seq<Start>)
  {
    if |s.log| <= |r.log| then r.log[|s.log|..] else []
  }

  /** A timer list can be run: its timers exist, once each, and its one-shots were not run. */
  ghost predicate Runnable(s: State, ids: seq<nat>, timer: bool)
  {
    && Distinct(ids)
    && forall id :: id in ids ==>
         && id < |s.handles| && s.handles[id].timer == timer
         && (!s.handles[id].repeat ==> !Logged(s, id))
         && (!timer ==> id !in s.immediates)
  }

  lemma RunnableNext(s: State, r: State, ids: seq<nat>, timer: bool)
    requires ids != [] && Runnable(s, ids, timer) && Inv(s) && Extends(s.(log := r.log), r)
    requires r.log == s.log || r.log == s.log + [Start(ids[0], timer, true, true, s.clock)]
    ensures Runnable(r, ids[1..], timer)
  {
    forall id | id in ids[1..]
      ensures id < |r.handles| && r.handles[id].timer == timer && (!r.handles[id].repeat ==> !Logged(r, id))
      ensures !timer ==> id !in r.immediates
    {
      assert id in ids && id != ids[0];
      if Logged(r, id) {
        var i :| 0 <= i < |r.log| && r.log[i].id == id;
        assert i < |s.log| && s.log[i].id == id;
      }
    }
  }

  /** One handle's turn in a phase. */
  function Turn(s: State, id: nat, timer: bool): State
    requires id < |s.handles|
  {
    if timer then RunTimer(s, id) else if s.handles[id].cancelled then s else Invoke(s, id)
  }

  /** What running a list did, turn by turn: a handle is started, on quiet queues, if and only if it
      is not cancelled in the state its turn finds; otherwise its turn changes nothing. */
  ghost predicate RanList(s: State, r: State, ids: seq<nat>, timer: bool)
    decreases |ids|
  {
    if ids == [] then r == s
    else
      ids[0] < |s.handles| &&
      var id, m := ids[0], Turn(s, ids[0], timer);
      && m.log == s.log + (if s.handles[id].cancelled then [] else [Start(id, timer, true, true, s.clock)])
      && (s.handles[id].cancelled ==> m == s)
      && RanList(m, r, ids[1..], timer)
  }

  lemma {:induction false} SubsequenceSkip(a: seq<nat>, b: seq<nat>, x: nat)
    requires Subsequence(a, b)
    ensures Subsequence(a, [x] + b) && Subsequence([x] + a, [x] + b)
  {
    assert ([x] + b)[1..] == b && ([x] + a)[1..] == a;
  }

  lemma AddedNext(s: State, m: State, r: State, e: seq<Start>)
    requires m.log <= r.log && m.log == s.log + e
    ensures s.log <= r.log && Added(s, r) == e + Added(m, r) && Ids(Added(s, r)) == Ids(e) + Ids(Added(m, r))
  {
  }

  /** So what a phase started is some of its list, in the order of the list. */
  lemma {:induction false} RanInOrder(s: State, r: State, ids: seq<nat>, timer: bool)
    requires RanList(s, r, ids, timer)
    ensures s.log <= r.log && Subsequence(Ids(Added(s, r)), ids)
    ensures forall e :: e in Added(s, r) ==> e.timer == timer && e.quiet && e.live
    decreases |ids|
  {
    if ids == [] {
      assert Added(s, s) == [];
    } else {
      var id, m := ids[0], Turn(s, ids[0], timer);
      var e := if s.handles[id].cancelled then [] else [Start(id, timer, true, true, s.clock)];
      RanInOrder(m, r, ids[1..], timer);
      AddedNext(s, m, r, e);
      FirstInOrder(e, Ids(Added(m, r)), id, ids[1..]);
      assert ids == [id] + ids[1..];
    }
  }

  lemma FirstInOrder(e: seq<Start>, later: seq<nat>, id: nat, ids: seq<nat>)
    requires Subsequence(later, ids) && (e == [] || (|e| == 1 && e[0].id == id))
    ensures Subsequence(Ids(e) + later, [id] + ids)
  {
    SubsequenceSkip(later, ids, id);
    if e == [] {
      assert Ids(e) + later == later;
    } else {
      assert Ids(e) == [id];
    }
  }

  lemma {:induction false} RunTimersKeeps(s: State, ids: seq<nat>)
    requires Inv(s) && Quiet(s) && Runnable(s, ids, true)
    ensures var r := RunTimers(s, ids);
            && Inv(r) && Quiet(r) && Extends(s.(log := r.log), r) && RanList(s, r, ids, true)
    decreases |ids|
  {
    if ids == [] {
      GoodSelf(s);
      assert s.(log := s.log) == s;
    } else {
      assert ids[0] in ids;
      var m := RunTimer(s, ids[0]);
      RunTimerKeeps(s, ids[0]);
      assert s.log + [] == s.log;
      RunnableNext(s, m, ids, true);
      RunTimersKeeps(m, ids[1..]);
      ExtendsTwice(s, m, RunTimers(s, ids));
    }
  }

  lemma ExtendsTwice(s: State, m: State, r: State)
    requires Extends(s.(log := m.log), m) && Extends(m.(log := r.log), r)
    ensures Extends(s.(log := r.log), r)
  {
  }

  lemma {:induction false} RunImmediatesKeeps(s: State, ids: seq<nat>)
    requires Inv(s) && Quiet(s) && Runnable(s, ids, false)
    ensures var r := RunImmediates(s, ids);
            && Inv(r) && Quiet(r) && Extends(s.(log := r.log), r) && RanList(s, r, ids, false)
    decreases |ids|
  {
    GoodSelf(s);
    if ids == [] {
      assert s.(log := s.log) == s;
    } else {
      var id := ids[0];
      assert id in ids;
      var m := if s.handles[id].cancelled then s else Invoke(s, id);
      assert s.log + [] == s.log && s.(log := s.log) == s;
      if !s.handles[id].cancelled {
        InvokeKeeps(s, id);
      }
      RunnableNext(s, m, ids, false);
      RunImmediatesKeeps(m, ids[1..]);
      ExtendsTwice(s, m, RunImmediates(s, ids));
    }
  }

  /* ---- the due list ---- */

  /** Strictly in the order of due time and age. */
  ghost predicate Sorted(s: State, ids: seq<nat>)
  {
    ids == [] || ((forall x :: x in ids[1..] ==> Before(s, ids[0], x)) && Sorted(s, ids[1..]))
  }

  lemma {:induction false} InsertSorted(s: State, ids: seq<nat>, id: nat)
    requires Sorted(s, ids) && id !in ids && id < |s.handles| && forall x :: x in ids ==> x < |s.handles|
    ensures Sorted(s, Insert(s, ids, id))
  {
    if ids != [] {
      if Before(s, id, ids[0]) {
        assert ([id] + ids)[1..] == ids;
        forall x | x in ids
          ensures Before(s, id, x)
        {
          assert x == ids[0] || x in ids[1..];
        }
      } else {
        var r := Insert(s, ids[1..], id);
        InsertSorted(s, ids[1..], id);
        assert ([ids[0]] + r)[1..] == r;
        assert ids[0] in ids;
      }
    } else {
      assert [id][1..] == [];
    }
  }

  lemma {:induction false} DistinctInit(ids: seq<nat>)
    requires Distinct(ids) && ids != []
    ensures Distinct(ids[..|ids| - 1]) && ids[|ids| - 1] !in ids[..|ids| - 1]
  {
    var n := |ids| - 1;
    if n > 0 {
      DistinctInit(ids[1..]);
      assert ids[..n][1..] == ids[1..][..n - 1];
      assert ids[n] in ids[1..];
    }
  }

  /** drainTimers runs its list in strict order of (due, id). */
  lemma {:induction false} DueListSorted(s: State, ids: seq<nat>)
    requires Distinct(ids)
    ensures Sorted(s, DueList(s, ids))
  {
    if ids != [] {
      var n := |ids| - 1;
      DistinctInit(ids);
      DueListSorted(s, ids[..n]);
      if Due(s, ids[n]) {
        InsertSorted(s, DueList(s, ids[..n]), ids[n]);
      }
    }
  }

  lemma {:induction false} SortedDistinct(s: State, ids: seq<nat>)
    requires Sorted(s, ids)
    ensures Distinct(ids)
  {
    if ids != [] {
      SortedDistinct(s, ids[1..]);
    }
  }

  /** One tick runs, of the timers due at entry, each that is not cancelled by its turn, once, in order
      of (due, id), and no other. */
  lemma DrainTimersKeeps(s: State)
    requires Inv(s) && Quiet(s)
    ensures var r, due := DrainTimers(s), DueList(s, s.timers);
            && Inv(r) && Quiet(r) && Extends(s.(log := r.log), r)
            && Sorted(s, due) && (forall id :: id in due <==> id in s.timers && Due(s, id))
            && RanList(s, r, due, true) && s.log <= r.log
  {
    var due := DueList(s, s.timers);
    DueListSorted(s, s.timers);
    SortedDistinct(s, due);
    forall id | id in due
      ensures id < |s.handles| && s.handles[id].timer && (!s.handles[id].repeat ==> !Logged(s, id))
    {
      assert id in s.timers;
    }
    RunTimersKeeps(s, due);
    RanInOrder(s, DrainTimers(s), due, true);
  }

  /** One tick runs the immediates queued at entry, in order, except those cancelled by their turn; the
      ones queued meanwhile stay queued. */
  lemma DrainImmediatesKeeps(s: State)
    requires Inv(s) && Quiet(s)
    ensures var r := DrainImmediates(s);
            && Inv(r) && Quiet(r) && Extends(s.(log := r.log), r)
            && RanList(s.(immediates := []), r, s.immediates, false) && s.log <= r.log
            && forall id :: id in r.immediates ==> id >= |s.handles|
  {
    var s1 := s.(immediates := []);
    assert forall k: nat :: s.wakeAt.Some? && Current(s, k) ==> Current(s1, k);
    RunImmediatesKeeps(s1, s.immediates);
    RanInOrder(s1, DrainImmediates(s), s.immediates, false);
  }

  lemma TickKeeps(s: State)
    requires Inv(s)
    ensures Inv(Tick(s)) && NoLost(Tick(s)) && s.log <= Tick(s).log
  {
    GoodSelf(s);
    GoodDrain(s, s);
    var s1 := Drain(s);
    LogExtends(s, s1);
    DrainImmediatesKeeps(s1);
    var s2 := DrainImmediates(s1);
    DrainTimersKeeps(s2);
    var s3 := DrainTimers(s2);
    ScheduleWakeOk(s3);
  }

  /* ---- runs ---- */

  /** What happens to the loop from outside: a message handler makes calls, the host ends a message
      with a tick, time passes, the kernel delivers a timeout that is due. */
  datatype Event = Host(ops: Script) | HostTick | Pass(ms: nat) | Deliver(k: nat)

  function Step(s: State, e: Event): State
  {
    match e
    case Host(ops) => RunOps(s, ops)
    case HostTick => Tick(s)
    case Pass(ms) => s.(clock := s.clock + ms)
    case Deliver(k) => if k < |s.kernel| && s.kernel[k].at <= s.clock then Fire(s, k) else s
  }

  function Run(s: State, es: seq<Event>): State
    decreases |es|
  {
    if es == [] then s else Run(Step(s, es[0]), es[1..])
  }

  lemma RunThree(s: State, a: Event, b: Event, c: Event)
    ensures Run(s, [a, b, c]) == Step(Step(Step(s, a), b), c)
  {
    assert [a, b, c][1..] == [b, c] && [b, c][1..] == [c] && [c][1..] == [];
    var t := Step(Step(s, a), b);
    assert Run(t, [c]) == Step(t, c);
    assert Run(Step(s, a), [b, c]) == Run(t, [c]);
  }

  /** A current timeout is a tick from the state it leaves. */
  lemma CurrentTicks(s: State, k: nat)
    requires k < |s.kernel| && s.kernel[k].at <= s.clock && s.kernel[k].gen == s.wakeGen
    ensures Step(s, Deliver(k)) == Tick(s.(kernel := s.kernel[..k] + s.kernel[k + 1..], wakeAt := None))
  {
  }

  lemma NoLostPut(s: State, id: nat, h: Handle)
    requires Shape(s) && WakeOk(s) && id < |s.handles|
    requires h.timer == s.handles[id].timer && h.repeat == s.handles[id].repeat && h.cancelled == s.handles[id].cancelled
    ensures NoLost(ScheduleWake(Put(s, id, h)))
  {
    GoodSelf(s);
    GoodPut(s, s, id, h);
    ScheduleWakeOk(Put(s, id, h));
  }

  lemma NoLostImmediate(s: State, cb: Script)
    requires Shape(s) && WakeOk(s)
    ensures NoLost(AddImmediate(s, cb))
  {
    var h := Handle(false, [cb], 0, 0, false, true, false);
    GoodSelf(s);
    GoodListed(s, s, h);
    ScheduleWakeOk(Listed(s, h));
  }

  lemma NoLostOp(s: State, op: Op)
    requires Shape(s) && WakeOk(s) && NoLost(s)
    ensures NoLost(RunOp(s, op))
  {
    GoodSelf(s);
    match op
    case SetTimeout(cb, delay) => NoLostTimer(s, [cb], NormalizeDelay(delay), false);
    case SetInterval(cbs, delay) => NoLostTimer(s, cbs, NormalizeDelay(delay), true);
    case SetImmediate(cb) => NoLostImmediate(s, cb);
    case Ref(id) =>
      if id < |s.handles| {
        NoLostPut(s, id, s.handles[id].(refd := true));
      }
    case Refresh(id) =>
      if id < |s.handles| && s.handles[id].timer && !s.handles[id].cancelled {
        NoLostPut(s, id, s.handles[id].(due := s.clock + s.handles[id].delay));
      }
    case NextTick(_) => NoLostFewer(s, RunOp(s, op));
    case Microtask(_) => NoLostFewer(s, RunOp(s, op));
    case ClearTimer(_) => NoLostFewer(s, RunOp(s, op));
    case ClearImmediate(_) => NoLostFewer(s, RunOp(s, op));
    case Unref(_) => NoLostFewer(s, RunOp(s, op));
    case Elapse(_) => NoLostFewer(s, RunOp(s, op));
  }

  lemma NoLostTimer(s: State, cbs: seq<Script>, d: nat, repeat: bool)
    requires Shape(s) && WakeOk(s) && NoLost(s)
    ensures NoLost(AddTimer(s, cbs, d, repeat))
  {
    var h := Handle(true, cbs, d, s.clock + d, repeat, true, false);
    GoodSelf(s);
    GoodListed(s, s, h);
    ScheduleWakeOk(Listed(s, h));
  }

  /** With no more waiting than before, and the wake as it was, nothing is lost. */
  lemma NoLostFewer(s: State, r: State)
    requires NoLost(s) && r.wakeAt == s.wakeAt && s.clock <= r.clock && |r.handles| == |s.handles|
    requires r.immediates == s.immediates && forall id :: id in r.timers ==> id in s.timers
    requires forall id: nat :: Wanted(r, id) ==> Wanted(s, id) && r.handles[id].due == s.handles[id].due
    ensures NoLost(r)
  {
    if AnyWanted(r, r.immediates) {
      var i :| 0 <= i < |r.immediates| && Wanted(r, r.immediates[i]);
      assert Wanted(s, s.immediates[i]);
    }
  }

  lemma {:induction false} NoLostOps(s: State, ops: Script)
    requires Shape(s) && WakeOk(s) && NoLost(s)
    ensures NoLost(RunOps(s, ops))
    decreases |ops|
  {
    if ops != [] {
      GoodSelf(s);
      GoodOp(s, s, ops[0]);
      NoLostOp(s, ops[0]);
      NoLostOps(RunOp(s, ops[0]), ops[1..]);
    }
  }

  lemma FireKeeps(s: State, k: nat)
    requires Inv(s) && NoLost(s) && k < |s.kernel|
    ensures Inv(Fire(s, k)) && NoLost(Fire(s, k)) && s.log <= Fire(s, k).log
  {
    var s1 := s.(kernel := s.kernel[..k] + s.kernel[k + 1..]);
    assert forall i :: 0 <= i < |s1.kernel| ==> s1.kernel[i] == s.kernel[if i < k then i else i + 1];
    if s.kernel[k].gen != s.wakeGen {
      if s.wakeAt.Some? {
        var j: nat :| Current(s, j);
        assert j > k;
        assert s1.kernel[j - 1] == s.kernel[j];
        assert Current(s1, j - 1);
      }
      NoLostFewer(s, s1);
      assert Inv(s1);
    } else {
      TickKeeps(s1.(wakeAt := None));
    }
  }

  lemma StepKeeps(s: State, e: Event)
    requires Inv(s) && NoLost(s)
    ensures Inv(Step(s, e)) && NoLost(Step(s, e)) && s.log <= Step(s, e).log
  {
    match e
    case Host(ops) =>
      GoodSelf(s);
      GoodOps(s, s, ops);
      LogExtends(s, RunOps(s, ops));
      NoLostOps(s, ops);
    case HostTick => TickKeeps(s);
    case Pass(ms) =>
      GoodSelf(s);
      GoodQueues(s, s, s.ticks, s.micro, ms);
      LogExtends(s, s.(clock := s.clock + ms));
      NoLostFewer(s, s.(clock := s.clock + ms));
    case Deliver(k) =>
      if k < |s.kernel| && s.kernel[k].at <= s.clock {
        FireKeeps(s, k);
      }
  }

  lemma {:induction false} RunKeeps(s: State, es: seq<Event>)
    requires Inv(s) && NoLost(s)
    ensures Inv(Run(s, es)) && NoLost(Run(s, es))
    decreases |es|
  {
    if es != [] {
      StepKeeps(s, es[0]);
      RunKeeps(Step(s, es[0]), es[1..]);
    }
  }

  lemma InitInv()
    ensures Inv(INIT) && NoLost(INIT)
  {
  }

  /** No wake-up is lost in any run: whenever a live referenced immediate or timer is waiting, the
      kernel holds a timeout of the current generation that comes no later than 10 ms after the
      timer's due time, or after now if that has passed. */
  lemma NoLostWakeUp(es: seq<Event>)
    ensures var s := Run(INIT, es);
            && (forall id :: id in s.immediates && id < |s.handles| && !s.handles[id].cancelled && s.handles[id].refd ==>
                  exists k :: 0 <= k < |s.kernel| && s.kernel[k].gen == s.wakeGen && s.kernel[k].at <= s.clock + 10)
            && forall id :: id in s.timers && id < |s.handles| && !s.handles[id].cancelled && s.handles[id].refd ==>
                 exists k :: 0 <= k < |s.kernel| && s.kernel[k].gen == s.wakeGen &&
                             s.kernel[k].at <= Max(s.handles[id].due, s.clock) + 10
  {
    InitInv();
    RunKeeps(INIT, es);
    var s := Run(INIT, es);
    if s.wakeAt.Some? {
      var k: nat :| Current(s, k);
      assert s.kernel[k].gen == s.wakeGen;
    }
    forall id | id in s.immediates && id < |s.handles| && !s.handles[id].cancelled && s.handles[id].refd
      ensures s.wakeAt.Some? && s.wakeAt.value <= s.clock
    {
      var i :| 0 <= i < |s.immediates| && s.immediates[i] == id;
      assert Wanted(s, s.immediates[i]);
    }
    assert forall id: nat :: Wanted(s, id) <==> id < |s.handles| && !s.handles[id].cancelled && s.handles[id].refd;
  }

  /** In every run, callbacks of timers and immediates start with the nextTick and microtask queues
      empty, no cancelled handle is ever started, and no one-shot starts twice. */
  lemma StartsAreQuietAndOnce(es: seq<Event>)
    ensures var s := Run(INIT, es);
            && (forall e :: e in s.log ==> e.quiet && e.live)
            && forall i, j :: 0 <= i < j < |s.log| && s.log[i].id == s.log[j].id ==>
                 s.log[i].id < |s.handles| && s.handles[s.log[i].id].repeat
  {
    InitInv();
    RunKeeps(INIT, es);
  }

  /** What a tick does: first the queues are drained with nothing started; then the immediates queued
      by then run in order; then the timers due by then in order of (due, id); each at most once, and
      started exactly if not cancelled when its turn comes; then the next wake is armed. */
  ghost predicate Disciplined(s: State, t: State)
  {
    var s1 := Drain(s);
    var s2 := DrainImmediates(s1);
    var due := DueList(s2, s2.timers);
    var s3 := DrainTimers(s2);
    && s1.log == s.log && t.log == s3.log && t == ScheduleWake(s3)
    && RanList(s1.(immediates := []), s2, s1.immediates, false)
    && RanList(s2, s3, due, true)
    && (forall id :: id in due <==>
          id in s2.timers && id < |s2.handles| && !s2.handles[id].cancelled && s2.handles[id].due <= s2.clock)
    && (forall i, j :: 0 <= i < j < |due| ==>
          && due[i] < |s2.handles| && due[j] < |s2.handles|
          && (s2.handles[due[i]].due < s2.handles[due[j]].due
              || (s2.handles[due[i]].due == s2.handles[due[j]].due && due[i] < due[j])))
    && Distinct(s1.immediates)
  }

  lemma TickDiscipline(s: State)
    requires Inv(s)
    ensures Disciplined(s, Tick(s))
  {
    GoodSelf(s);
    GoodDrain(s, s);
    var s1 := Drain(s);
    LogExtends(s, s1);
    DrainImmediatesKeeps(s1);
    var s2 := DrainImmediates(s1);
    DrainTimersKeeps(s2);
    InOrder(s2, DueList(s2, s2.timers));
  }

  lemma {:induction false} InOrder(s: State, ids: seq<nat>)
    requires Sorted(s, ids)
    ensures forall i, j :: 0 <= i < j < |ids| ==> Before(s, ids[i], ids[j])
  {
    if ids != [] {
      InOrder(s, ids[1..]);
      forall i, j | 0 <= i < j < |ids|
        ensures Before(s, ids[i], ids[j])
      {
        if i == 0 {
          assert ids[j] == ids[1..][j - 1] && ids[j] in ids[1..];
        } else {
          assert ids[i] == ids[1..][i - 1] && ids[j] == ids[1..][j - 1];
        }
      }
    }
  }

  /** The state in which the event starts its tick: the host ticks where it stands, and the kernel's
      timeout, if it is the current one, is taken off the kernel's list and the wake disarmed. */
  function TickFrom(s: State, e: Event): Option<State>
  {
    match e
    case HostTick => Some(s)
    case Deliver(k) =>
      if k < |s.kernel| && s.kernel[k].at <= s.clock && s.kernel[k].gen == s.wakeGen then
        Some(s.(kernel := s.kernel[..k] + s.kernel[k + 1..], wakeAt := None))
      else None
    case _ => None
  }

  lemma InvWithout(s: State, k: nat)
    requires Inv(s) && k < |s.kernel|
    ensures Inv(s.(kernel := s.kernel[..k] + s.kernel[k + 1..], wakeAt := None))
  {
    var s1 := s.(kernel := s.kernel[..k] + s.kernel[k + 1..], wakeAt := None);
    assert forall i :: 0 <= i < |s1.kernel| ==> s1.kernel[i] == s.kernel[if i < k then i else i + 1];
  }

  /** In every run, an event either ticks, with the whole discipline, or starts nothing. */
  lemma EventDiscipline(es: seq<Event>, e: Event)
    ensures var s := Run(INIT, es);
            var from := TickFrom(s, e);
            if from.Some? then Disciplined(from.value, Step(s, e)) else Step(s, e).log == s.log
  {
    InitInv();
    RunKeeps(INIT, es);
    var s := Run(INIT, es);
    match e
    case HostTick => TickDiscipline(s);
    case Deliver(k) =>
      if TickFrom(s, e).Some? {
        InvWithout(s, k);
        TickDiscipline(TickFrom(s, e).value);
      }
    case Host(ops) =>
      GoodSelf(s);
      GoodOps(s, s, ops);
    case Pass(_) =>
  }

  /** A stale timeout changes nothing but the kernel's list. */
  lemma StaleChangesNothing(s: State, k: nat)
    requires k < |s.kernel|
    ensures s.kernel[k].gen != s.wakeGen ==> Fire(s, k).(kernel := s.kernel) == s
  {
  }
}
