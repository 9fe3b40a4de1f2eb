/** Delays: what is asked for, when a timer becomes due, and that it is never started before. */
module EventLoopDelays {
  import opened Wrappers
  import opened EventLoop
  import opened EventLoopRuns

  /** The delay a timer gets: the least whole number of milliseconds not below the one asked for; 10 if
      that is less than 10 or no finite number, and 2147483647 if it is more. */
  lemma DelayAsked(x: real)
    ensures var d := NormalizeDelay(Some(x));
            && (10.0 <= x <= 2147483647.0 ==> d as real >= x && d as real < x + 1.0)
            && (x < 10.0 ==> d == 10)
            && (x > 2147483647.0 ==> d == 2147483647)
    ensures NormalizeDelay(None) == 10
  {
  }

  /* ---- what any stretch of execution keeps ---- */

  predicate TimerAt(s: State, i: nat) { i < |s.handles| && s.handles[i].timer }

  /** A timer's due time is what it was, or counts from later on; its delay never changes. */
  predicate DueKept(s: State, r: State, i: nat)
    requires i < |s.handles| && i < |r.handles|
  {
    var h, g := s.handles[i], r.handles[i];
    g.timer == h.timer && g.repeat == h.repeat && g.delay == h.delay && (h.cancelled ==> g.cancelled)
    && (h.timer ==> g.due == h.due || g.due >= s.clock + h.delay)
  }

  /** A timer made since then is due no earlier than its delay from then. */
  predicate DueNew(s: State, r: State, i: nat)
    requires i < |r.handles|
  {
    r.handles[i].timer ==> r.handles[i].due >= s.clock + r.handles[i].delay
  }

  /** A live timer is listed, unless it is a one-shot that has been started. */
  predicate ListedStill(r: State, i: nat)
    requires i < |r.handles|
  {
    r.handles[i].timer && !r.handles[i].cancelled ==> i in r.timers || (!r.handles[i].repeat && Logged(r, i))
  }

  ghost predicate Later(s: State, r: State)
  {
    && s.clock <= r.clock && |s.handles| <= |r.handles| && s.log <= r.log
    && (forall i :: 0 <= i < |s.handles| ==> DueKept(s, r, i))
    && (forall i :: |s.handles| <= i < |r.handles| ==> DueNew(s, r, i))
  }

  ghost predicate AllListed(s: State) { forall i :: 0 <= i < |s.handles| ==> ListedStill(s, i) }

  lemma LaterSelf(s: State)
    ensures Later(s, s)
  {
  }

  lemma LaterTwice(s: State, m: State, r: State)
    requires Later(s, m) && Later(m, r)
    ensures Later(s, r)
  {
    forall i | 0 <= i < |s.handles|
      ensures DueKept(s, r, i)
    {
      assert DueKept(s, m, i) && DueKept(m, r, i);
    }
    forall i | |s.handles| <= i < |r.handles|
      ensures DueNew(s, r, i)
    {
      if i < |m.handles| {
        assert DueNew(s, m, i) && DueKept(m, r, i);
      } else {
        assert DueNew(m, r, i);
      }
    }
  }

  /* ---- calls ---- */

  lemma LaterSchedule(s: State)
    ensures Later(s, ScheduleWake(s)) && (AllListed(s) ==> AllListed(ScheduleWake(s)))
  {
    var r := ScheduleWake(s);
    forall i | 0 <= i < |s.handles|
      ensures DueKept(s, r, i) && (AllListed(s) ==> ListedStill(r, i))
    {
      assert AllListed(s) ==> ListedStill(s, i);
    }
  }

  /** A new handle, listed. */
  lemma LaterListed(s: State, h: Handle)
    requires h.timer ==> h.due >= s.clock + h.delay
    ensures Later(s, Listed(s, h)) && (AllListed(s) ==> AllListed(Listed(s, h)))
  {
    var r := Listed(s, h);
    forall i | 0 <= i < |r.handles|
      ensures AllListed(s) ==> ListedStill(r, i)
    {
      if i < |s.handles| {
        assert AllListed(s) ==> ListedStill(s, i);
      }
    }
  }

  lemma LaterPut(s: State, id: nat, h: Handle)
    requires id < |s.handles|
    requires var g := s.handles[id];
             h.timer == g.timer && h.repeat == g.repeat && h.delay == g.delay && (g.cancelled ==> h.cancelled)
             && (g.timer ==> h.due == g.due || h.due >= s.clock + g.delay)
    ensures Later(s, Put(s, id, h)) && (AllListed(s) ==> AllListed(Put(s, id, h)))
  {
    var r := Put(s, id, h);
    forall i | 0 <= i < |r.handles|
      ensures AllListed(s) ==> ListedStill(r, i)
    {
      assert AllListed(s) ==> ListedStill(s, i);
    }
  }

  lemma LaterCleared(s: State, id: nat)
    requires id < |s.handles|
    ensures var r := Unlisted(Put(s, id, s.handles[id].(cancelled := true)), id);
            Later(s, r) && (AllListed(s) ==> AllListed(r))
  {
    var r := Unlisted(Put(s, id, s.handles[id].(cancelled := true)), id);
    forall i | 0 <= i < |r.handles|
      ensures DueKept(s, r, i) && (AllListed(s) ==> ListedStill(r, i))
    {
      assert AllListed(s) ==> ListedStill(s, i);
    }
  }

  lemma LaterQueues(s: State, ticks: seq<Script>, micro: seq<Script>, ms: nat)
    ensures var r := s.(ticks := ticks, micro := micro, clock := s.clock + ms);
            Later(s, r) && (AllListed(s) ==> AllListed(r))
  {
    var r := s.(ticks := ticks, micro := micro, clock := s.clock + ms);
    forall i | 0 <= i < |r.handles|
      ensures AllListed(s) ==> ListedStill(r, i)
    {
      assert AllListed(s) ==> ListedStill(s, i);
    }
  }

  lemma LaterThenSchedule(s: State, m: State)
    requires Later(s, m)
    ensures Later(s, ScheduleWake(m)) && (AllListed(m) ==> AllListed(ScheduleWake(m)))
  {
    LaterSchedule(m);
    LaterTwice(s, m, ScheduleWake(m));
  }

  lemma LaterTimer(s: State, cbs: seq<Script>, d: nat, repeat: bool)
    ensures Later(s, AddTimer(s, cbs, d, repeat)) && (AllListed(s) ==> AllListed(AddTimer(s, cbs, d, repeat)))
  {
    var h := Handle(true, cbs, d, s.clock + d, repeat, true, false);
    LaterListed(s, h);
    LaterThenSchedule(s, Listed(s, h));
  }

  lemma LaterHandleOp(s: State, op: Op)
    requires (op.ClearTimer? || op.ClearImmediate? || op.Ref? || op.Unref? || op.Refresh?) && op.id < |s.handles|
    ensures Later(s, RunOp(s, op)) && (AllListed(s) ==> AllListed(RunOp(s, op)))
  {
    var h := s.handles[op.id];
    LaterSelf(s);
    match op
    case ClearTimer(id) => LaterCleared(s, id);
    case ClearImmediate(id) => LaterPut(s, id, h.(cancelled := true));
    case Ref(id) => LaterPut(s, id, h.(refd := true)); LaterThenSchedule(s, Put(s, id, h.(refd := true)));
    case Unref(id) => LaterPut(s, id, h.(refd := false));
    case Refresh(id) =>
      if h.timer {
        LaterPut(s, id, h.(due := s.clock + h.delay));
        LaterThenSchedule(s, Put(s, id, h.(due := s.clock + h.delay)));
      }
  }

  lemma LaterOp(s: State, op: Op)
    ensures Later(s, RunOp(s, op)) && (AllListed(s) ==> AllListed(RunOp(s, op)))
  {
    LaterSelf(s);
    match op
    case NextTick(cb) => LaterQueues(s, s.ticks + [cb], s.micro, 0);
    case Microtask(cb) => LaterQueues(s, s.ticks, s.micro + [cb], 0);
    case SetTimeout(cb, delay) => LaterTimer(s, [cb], NormalizeDelay(delay), false);
    case SetInterval(cbs, delay) => LaterTimer(s, cbs, NormalizeDelay(delay), true);
    case SetImmediate(cb) =>
      LaterListed(s, Handle(false, [cb], 0, 0, false, true, false));
      LaterThenSchedule(s, Listed(s, Handle(false, [cb], 0, 0, false, true, false)));
    case Elapse(ms) => LaterQueues(s, s.ticks, s.micro, ms);
    case _ =>
      if op.id < |s.handles| {
        LaterHandleOp(s, op);
      }
  }

  lemma {:induction false} LaterOps(s: State, ops: Script)
    ensures Later(s, RunOps(s, ops)) && (AllListed(s) ==> AllListed(RunOps(s, ops)))
    decreases |ops|
  {
    LaterSelf(s);
    if ops != [] {
      LaterOp(s, ops[0]);
      LaterOps(RunOp(s, ops[0]), ops[1..]);
      LaterTwice(s, RunOp(s, ops[0]), RunOps(s, ops));
    }
  }

  lemma {:induction false} LaterNextTick(s: State)
    ensures Later(s, DrainNextTick(s)) && (AllListed(s) ==> AllListed(DrainNextTick(s)))
    decreases Pending(s)
  {
    LaterSelf(s);
    if s.ticks != [] {
      var s1 := s.(ticks := s.ticks[1..]);
      var s2 := RunOps(s1, s.ticks[0]);
      RunOpsPending(s1, s.ticks[0]);
      LaterQueues(s, s.ticks[1..], s.micro, 0);
      LaterOps(s1, s.ticks[0]);
      LaterTwice(s, s1, s2);
      LaterNextTick(s2);
      LaterTwice(s, s2, DrainNextTick(s));
    }
  }

  lemma {:induction false} LaterMicrotasks(s: State)
    ensures Later(s, DrainMicrotasks(s)) && (AllListed(s) ==> AllListed(DrainMicrotasks(s)))
    decreases Pending(s)
  {
    LaterSelf(s);
    if s.micro != [] {
      var s1 := s.(micro := s.micro[1..]);
      var s2 := RunOps(s1, s.micro[0]);
      RunOpsPending(s1, s.micro[0]);
      LaterQueues(s, s.ticks, s.micro[1..], 0);
      LaterOps(s1, s.micro[0]);
      LaterTwice(s, s1, s2);
      LaterMicrotasks(s2);
      LaterTwice(s, s2, DrainMicrotasks(s));
    }
  }

  lemma {:induction false} LaterDrain(s: State)
    ensures Later(s, Drain(s)) && (AllListed(s) ==> AllListed(Drain(s)))
    decreases Pending(s), |s.ticks|
  {
    var s1 := DrainNextTick(s);
    var s2 := DrainMicrotasks(s1);
    LaterNextTick(s);
    LaterMicrotasks(s1);
    LaterTwice(s, s1, s2);
    if s2.ticks != [] {
      assert s1.micro == [] ==> s2 == s1;
      LaterDrain(s2);
      LaterTwice(s, s2, Drain(s));
    }
  }

  /* ---- starting callbacks ---- */

  lemma LaterStarted(s: State, id: nat)
    requires id < |s.handles|
    ensures Later(s, Started(s, id)) && (AllListed(s) ==> AllListed(Started(s, id)))
  {
    var r := Started(s, id);
    forall i | 0 <= i < |r.handles|
      ensures DueKept(s, r, i) && (AllListed(s) ==> ListedStill(r, i))
    {
      assert AllListed(s) ==> ListedStill(s, i);
      LoggedGrows(s, r, i);
    }
  }

  lemma LoggedGrows(s: State, r: State, i: nat)
    requires s.log <= r.log
    ensures Logged(s, i) ==> Logged(r, i)
  {
    if Logged(s, i) {
      var k :| 0 <= k < |s.log| && s.log[k].id == i;
      assert r.log[k].id == i;
    }
  }

  lemma LaterInvoke(s: State, id: nat)
    requires id < |s.handles|
    ensures Later(s, Invoke(s, id)) && (AllListed(Started(s, id)) ==> AllListed(Invoke(s, id)))
  {
    var s1 := Started(s, id);
    var s2 := RunOps(s1, NextScript(s.handles[id]));
    LaterStarted(s, id);
    LaterOps(s1, NextScript(s.handles[id]));
    LaterTwice(s, s1, s2);
    LaterDrain(s2);
    LaterTwice(s, s2, Drain(s2));
  }

  /** A one-shot leaves the list and enters the log. */
  lemma ListedOnce(s: State, id: nat)
    requires id < |s.handles| && !s.handles[id].repeat && AllListed(s)
    ensures AllListed(Started(Unlisted(s, id), id))
  {
    var r := Started(Unlisted(s, id), id);
    forall i | 0 <= i < |r.handles|
      ensures ListedStill(r, i)
    {
      assert ListedStill(s, i);
      LoggedGrows(s, r, i);
      if i == id {
        assert r.log[|s.log|].id == id;
      }
    }
  }

  lemma LaterUnlisted(s: State, id: nat)
    ensures Later(s, Unlisted(s, id))
  {
  }

  /** A timer's turn; a repeating one is due again a full delay after its callback was started. */
  lemma LaterTurn(s: State, id: nat)
    requires id < |s.handles|
    ensures Later(s, RunTimer(s, id)) && (AllListed(s) ==> AllListed(RunTimer(s, id)))
    ensures var h, r := s.handles[id], RunTimer(s, id);
            h.timer && h.repeat && !h.cancelled ==> r.handles[id].due >= s.clock + h.delay
  {
    var h := s.handles[id];
    LaterSelf(s);
    if !h.cancelled {
      if h.repeat {
        var s1 := Put(s, id, h.(due := s.clock + h.delay));
        LaterPut(s, id, h.(due := s.clock + h.delay));
        LaterStarted(s1, id);
        LaterInvoke(s1, id);
        LaterTwice(s, s1, Invoke(s1, id));
        assert DueKept(s1, Invoke(s1, id), id);
      } else {
        var s1 := Unlisted(s, id);
        LaterUnlisted(s, id);
        LaterInvoke(s1, id);
        LaterTwice(s, s1, Invoke(s1, id));
        if AllListed(s) {
          ListedOnce(s, id);
        }
      }
    }
  }

  lemma {:induction false} LaterTimers(s: State, ids: seq<nat>)
    ensures Later(s, RunTimers(s, ids)) && (AllListed(s) ==> AllListed(RunTimers(s, ids)))
    decreases |ids|
  {
    LaterSelf(s);
    if ids != [] {
      var m := if ids[0] < |s.handles| then RunTimer(s, ids[0]) else s;
      if ids[0] < |s.handles| {
        LaterTurn(s, ids[0]);
      }
      LaterTimers(m, ids[1..]);
      LaterTwice(s, m, RunTimers(s, ids));
    }
  }

  lemma {:induction false} LaterImmediates(s: State, ids: seq<nat>)
    ensures Later(s, RunImmediates(s, ids)) && (AllListed(s) ==> AllListed(RunImmediates(s, ids)))
    decreases |ids|
  {
    LaterSelf(s);
    if ids != [] {
      var id := ids[0];
      var m := if id < |s.handles| && !s.handles[id].cancelled then Invoke(s, id) else s;
      if id < |s.handles| {
        LaterStarted(s, id);
        LaterInvoke(s, id);
      }
      LaterImmediates(m, ids[1..]);
      LaterTwice(s, m, RunImmediates(s, ids));
    }
  }

  lemma LaterNoImmediates(s: State)
    ensures Later(s, s.(immediates := [])) && (AllListed(s) ==> AllListed(s.(immediates := [])))
  {
    forall i | 0 <= i < |s.handles|
      ensures AllListed(s) ==> ListedStill(s.(immediates := []), i)
    {
      assert AllListed(s) ==> ListedStill(s, i);
    }
  }

  lemma LaterDrainImmediates(s: State)
    ensures Later(s, DrainImmediates(s)) && (AllListed(s) ==> AllListed(DrainImmediates(s)))
  {
    var s1 := s.(immediates := []);
    LaterNoImmediates(s);
    LaterImmediates(s1, s.immediates);
    LaterTwice(s, s1, DrainImmediates(s));
  }

  lemma LaterTick(s: State)
    ensures Later(s, Tick(s)) && (AllListed(s) ==> AllListed(Tick(s)))
  {
    var s1 := Drain(s);
    var s2 := DrainImmediates(s1);
    var s3 := DrainTimers(s2);
    LaterDrain(s);
    LaterDrainImmediates(s1);
    LaterTwice(s, s1, s2);
    LaterTimers(s2, DueList(s2, s2.timers));
    LaterTwice(s, s2, s3);
    LaterThenSchedule(s, s3);
  }

  /* ---- starts ---- */

  /** A timer's start, seen from an earlier state: no sooner than it was due then, or than a full delay
      from then; and no sooner than a full delay from then if it was made since. */
  predicate OnTime(s: State, r: State, e: Start)
  {
    e.timer ==>
      e.id < |r.handles| && r.handles[e.id].timer &&
      if e.id < |s.handles| then e.at >= s.handles[e.id].due || e.at >= s.clock + s.handles[e.id].delay
      else e.at >= s.clock + r.handles[e.id].delay
  }

  ghost predicate AllOnTime(s: State, r: State)
  {
    s.log <= r.log && forall k :: |s.log| <= k < |r.log| ==> OnTime(s, r, r.log[k])
  }

  /** What a list of timers starts is started after the drain began. */
  lemma {:induction false} StartsIn(s: State, ids: seq<nat>)
    requires Inv(s) && Quiet(s) && Runnable(s, ids, true)
    ensures StartedFrom(s, RunTimers(s, ids), ids)
    decreases |ids|
  {
    if ids != [] {
      assert ids[0] in ids;
      var m := RunTimer(s, ids[0]);
      RunTimerKeeps(s, ids[0]);
      LaterTurn(s, ids[0]);
      assert s.log + [] == s.log;
      RunnableNext(s, m, ids, true);
      StartsIn(m, ids[1..]);
      StartedFirst(s, m, RunTimers(s, ids), ids);
    }
  }

  ghost predicate StartedFrom(s: State, r: State, ids: seq<nat>)
  {
    s.log <= r.log && forall k :: |s.log| <= k < |r.log| ==> r.log[k].id in ids && r.log[k].at >= s.clock
  }

  lemma StartedFirst(s: State, m: State, r: State, ids: seq<nat>)
    requires ids != [] && StartedFrom(m, r, ids[1..]) && s.clock <= m.clock
    requires m.log == s.log || m.log == s.log + [Start(ids[0], true, true, true, s.clock)]
    ensures StartedFrom(s, r, ids)
  {
  }

  lemma DrainOnTime(s: State)
    requires Inv(s) && Quiet(s)
    ensures AllOnTime(s, DrainTimers(s))
  {
    var due, r := DueList(s, s.timers), DrainTimers(s);
    DueListSorted(s, s.timers);
    SortedDistinct(s, due);
    assert Runnable(s, due, true) by {
      assert forall id :: id in due ==> id in s.timers;
    }
    StartsIn(s, due);
    LaterTimers(s, due);
    forall k | |s.log| <= k < |r.log|
      ensures OnTime(s, r, r.log[k])
    {
      var id := r.log[k].id;
      assert id in due && Due(s, id) && id in s.timers;
      assert DueKept(s, r, id);
    }
  }

  lemma ImmediatesOnTime(s: State)
    requires Inv(s) && Quiet(s)
    ensures AllOnTime(s, DrainImmediates(s))
  {
    var r := DrainImmediates(s);
    DrainImmediatesKeeps(s);
    RanInOrder(s.(immediates := []), r, s.immediates, false);
    forall k | |s.log| <= k < |r.log|
      ensures OnTime(s, r, r.log[k])
    {
      assert r.log[k] == Added(s.(immediates := []), r)[k - |s.log|];
    }
  }

  lemma OnTimeTwice(s: State, m: State, r: State)
    requires Later(s, m) && Later(m, r) && AllOnTime(s, m) && AllOnTime(m, r)
    ensures AllOnTime(s, r)
  {
    forall k | |s.log| <= k < |r.log|
      ensures OnTime(s, r, r.log[k])
    {
      var e := r.log[k];
      if k < |m.log| {
        assert e == m.log[k] && OnTime(s, m, e);
        if e.timer {
          assert DueKept(m, r, e.id);
        }
      } else if e.timer {
        assert OnTime(m, r, e);
        if e.id < |s.handles| {
          assert DueKept(s, m, e.id) && DueKept(m, r, e.id);
        } else if e.id < |m.handles| {
          assert DueNew(s, m, e.id) && DueKept(m, r, e.id);
        }
      }
    }
  }

  lemma NothingStarted(s: State, r: State)
    requires r.log == s.log
    ensures AllOnTime(s, r)
  {
  }

  lemma TickOnTime(s: State)
    requires Inv(s)
    ensures AllOnTime(s, Tick(s))
  {
    TickDiscipline(s);
    GoodSelf(s);
    GoodDrain(s, s);
    var s1 := Drain(s);
    LogExtends(s, s1);
    LaterDrain(s);
    NothingStarted(s, s1);
    DrainImmediatesKeeps(s1);
    LaterDrainImmediates(s1);
    ImmediatesOnTime(s1);
    var s2 := DrainImmediates(s1);
    OnTimeTwice(s, s1, s2);
    LaterTwice(s, s1, s2);
    DrainOnTime(s2);
    LaterTimers(s2, DueList(s2, s2.timers));
    var s3 := DrainTimers(s2);
    OnTimeTwice(s, s2, s3);
    LaterTwice(s, s2, s3);
    LaterSchedule(s3);
    NothingStarted(s3, Tick(s));
    OnTimeTwice(s, s3, Tick(s));
  }

  /* ---- runs ---- */

  lemma LaterKernel(s: State, kernel: seq<Wake>, wakeAt: Option<nat>)
    ensures var r := s.(kernel := kernel, wakeAt := wakeAt);
            Later(s, r) && AllOnTime(s, r) && (AllListed(s) ==> AllListed(r))
  {
    var r := s.(kernel := kernel, wakeAt := wakeAt);
    forall i | 0 <= i < |s.handles|
      ensures AllListed(s) ==> ListedStill(r, i)
    {
      assert AllListed(s) ==> ListedStill(s, i);
    }
  }

  lemma TickedFrom(s: State, e: Event, from: State)
    requires Inv(from) && TickFrom(s, e) == Some(from) && Later(s, from) && AllOnTime(s, from) && (AllListed(s) ==> AllListed(from))
    ensures Step(s, e) == Tick(from)
    ensures Later(s, Step(s, e)) && AllOnTime(s, Step(s, e)) && (AllListed(s) ==> AllListed(Step(s, e)))
  {
    LaterTick(from);
    TickOnTime(from);
    OnTimeTwice(s, from, Tick(from));
    LaterTwice(s, from, Tick(from));
  }

  lemma StepOnTime(s: State, e: Event)
    requires Inv(s)
    ensures Later(s, Step(s, e)) && AllOnTime(s, Step(s, e)) && (AllListed(s) ==> AllListed(Step(s, e)))
  {
    LaterSelf(s);
    match e
    case Host(ops) =>
      LaterOps(s, ops);
      GoodSelf(s);
      GoodOps(s, s, ops);
    case HostTick => TickedFrom(s, e, s);
    case Pass(ms) => LaterQueues(s, s.ticks, s.micro, ms);
    case Deliver(k) =>
      if k < |s.kernel| && s.kernel[k].at <= s.clock {
        var rest := s.kernel[..k] + s.kernel[k + 1..];
        if s.kernel[k].gen == s.wakeGen {
          InvWithout(s, k);
          LaterKernel(s, rest, None);
          TickedFrom(s, e, s.(kernel := rest, wakeAt := None));
        } else {
          LaterKernel(s, rest, s.wakeAt);
        }
      }
  }

  lemma {:induction false} RunOnTime(s: State, es: seq<Event>)
    requires Inv(s) && NoLost(s)
    ensures Later(s, Run(s, es)) && AllOnTime(s, Run(s, es)) && (AllListed(s) ==> AllListed(Run(s, es)))
    decreases |es|
  {
    LaterSelf(s);
    if es != [] {
      StepKeeps(s, es[0]);
      StepOnTime(s, es[0]);
      RunOnTime(Step(s, es[0]), es[1..]);
      OnTimeTwice(s, Step(s, es[0]), Run(s, es));
      LaterTwice(s, Step(s, es[0]), Run(s, es));
    }
  }

  /** In every run, whatever happens after any point of it: no timer is started before it was due at that
      point, or before its delay has passed from then if it was refreshed, repeated or made since. */
  lemma NeverEarly(es: seq<Event>, fs: seq<Event>)
    ensures AllOnTime(Run(INIT, es), Run(Run(INIT, es), fs))
  {
    InitInv();
    RunKeeps(INIT, es);
    RunOnTime(Run(INIT, es), fs);
  }

  /** In every run a live timer is listed until it is cancelled, or started if it is a one-shot. */
  lemma LiveIsListed(es: seq<Event>)
    ensures AllListed(Run(INIT, es))
  {
    InitInv();
    RunOnTime(INIT, es);
  }

  /** A timer just made: live, referenced, listed and due after its delay. */
  lemma TimerMade(s: State, cbs: seq<Script>, d: nat, repeat: bool)
    ensures var r, id := AddTimer(s, cbs, d, repeat), |s.handles|;
            && |r.handles| == id + 1 && id in r.timers && r.clock == s.clock
            && r.handles[id] == Handle(true, cbs, d, s.clock + d, repeat, true, false)
  {
  }

  /** setTimeout or setInterval with a delay of x ms, 10 at least: from then on it is never started
      before x ms have passed, and is listed until it is cancelled, or started if it is a one-shot. */
  lemma SetNeverEarly(es: seq<Event>, op: Op, x: real, fs: seq<Event>)
    requires op.SetTimeout? || op.SetInterval?
    requires op.delay == Some(x) && 10.0 <= x <= 2147483647.0
    ensures var s, id := Run(INIT, es), |Run(INIT, es).handles|;
            var m := Step(s, Host([op]));
            var r := Run(m, fs);
            && id < |m.handles| <= |r.handles| && m.handles[id].timer && m.handles[id].repeat == op.SetInterval? && |m.log| <= |r.log|
            && (forall k :: |m.log| <= k < |r.log| && r.log[k].timer && r.log[k].id == id ==> r.log[k].at as real >= s.clock as real + x)
            && ListedStill(r, id)
  {
    var s := Run(INIT, es);
    InitInv();
    RunKeeps(INIT, es);
    LiveIsListed(es);
    StepKeeps(s, Host([op]));
    StepOnTime(s, Host([op]));
    var m := Step(s, Host([op]));
    OneCall(s, op);
    RunOnTime(m, fs);
    DelayAsked(x);
    SetStarts(s, m, Run(m, fs), |s.handles|, NormalizeDelay(op.delay));
    var r := Run(m, fs);
    forall k | |m.log| <= k < |r.log| && r.log[k].timer && r.log[k].id == |s.handles|
      ensures r.log[k].at as real >= s.clock as real + x
    {
      assert r.log[k].at >= s.clock + NormalizeDelay(op.delay);
    }
  }

  lemma OneCall(s: State, op: Op)
    requires op.SetTimeout? || op.SetInterval?
    ensures var m, d := Step(s, Host([op])), NormalizeDelay(op.delay);
            && |m.handles| == |s.handles| + 1 && m.clock == s.clock
            && m.handles[|s.handles|].timer && m.handles[|s.handles|].repeat == op.SetInterval?
            && m.handles[|s.handles|].delay == d && m.handles[|s.handles|].due == s.clock + d
  {
    assert [op][1..] == [];
    assert RunOps(s, [op]) == RunOp(s, op);
  }

  lemma SetStarts(s: State, m: State, r: State, id: nat, d: nat)
    requires id < |m.handles| && m.handles[id].due == s.clock + d && m.handles[id].delay == d && m.clock == s.clock
    requires AllOnTime(m, r)
    ensures forall k :: |m.log| <= k < |r.log| && r.log[k].timer && r.log[k].id == id ==> r.log[k].at >= s.clock + d
  {
    forall k | |m.log| <= k < |r.log| && r.log[k].timer && r.log[k].id == id
      ensures r.log[k].at >= s.clock + d
    {
      assert OnTime(m, r, r.log[k]);
    }
  }

  /** refresh() on a live timer: it is due a full delay from now. */
  lemma Refreshed(s: State, id: nat)
    requires id < |s.handles| && s.handles[id].timer && !s.handles[id].cancelled
    ensures RunOp(s, Refresh(id)).handles[id].due == s.clock + s.handles[id].delay
  {
  }

  /* ---- refreshed too late ---- */

  /** A drain starts the timers that were due when it began. One of them is started before it is due
      only if it was refreshed by a callback of that drain. */
  lemma EarlyOnlyIfRefreshed(s: State, m: State, id: nat)
    requires Due(s, id) && Later(s, m) && s.handles[id].timer && m.handles[id].due > m.clock
    ensures m.handles[id].due != s.handles[id].due && m.handles[id].due >= s.clock + s.handles[id].delay
  {
    assert DueKept(s, m, id);
  }

  /** Two timers due at 10, and a callback of the first that refreshes the second. */
  const REFRESH_RUN: seq<Event> := [Host([SetTimeout([Refresh(1)], None), SetTimeout([], None)]), Pass(15), Deliver(0)]

  function Pair(clock: nat, wakeAt: Option<nat>, kernel: seq<Wake>): State
  {
    State(clock, [Handle(true, [[Refresh(1)]], 10, 10, false, true, false), Handle(true, [[]], 10, 10, false, true, false)],
          [], [], [], [0, 1], 1, wakeAt, kernel, [])
  }

  lemma FirstMade(h: Handle)
    requires h == Handle(true, [[Refresh(1)]], 10, 10, false, true, false)
    ensures RunOp(INIT, SetTimeout([Refresh(1)], None)) == State(0, [h], [], [], [], [0], 1, Some(10), [Wake(1, 10)], [])
  {
    assert MinDue(Listed(INIT, h), [0]) == Some(10);
  }

  lemma SecondMade(s: State, h: Handle)
    requires h == Handle(true, [[Refresh(1)]], 10, 10, false, true, false)
    requires s == State(0, [h], [], [], [], [0], 1, Some(10), [Wake(1, 10)], [])
    ensures RunOp(s, SetTimeout([], None)) == Pair(0, Some(10), [Wake(1, 10)])
  {
    var r := Listed(s, Handle(true, [[]], 10, 10, false, true, false));
    assert [0, 1][1..] == [1];
    assert MinDue(r, [1]) == Some(10);
    assert MinDue(r, [0, 1]) == Some(10);
  }

  lemma PairMade()
    ensures Step(INIT, REFRESH_RUN[0]) == Pair(0, Some(10), [Wake(1, 10)])
  {
    var ops, h := REFRESH_RUN[0].ops, Handle(true, [[Refresh(1)]], 10, 10, false, true, false);
    FirstMade(h);
    SecondMade(RunOp(INIT, ops[0]), h);
    assert ops[1..] == [SetTimeout([], None)] && ops[1..][1..] == [];
  }

  /** The first turn: the second timer is due at 25 now. */
  lemma FirstTurn(s: State)
    requires s == Pair(15, None, [])
    ensures var m := RunTimer(s, 0);
            && m.clock == 15 && |m.handles| == 2 && m.handles[1] == Handle(true, [[]], 10, 25, false, true, false)
            && m.timers == [1] && m.immediates == [] && Quiet(m) && m.log == [Start(0, true, true, true, 15)]
  {
    var s1 := Started(Unlisted(s, 0), 0);
    assert [0, 1][1..] == [1] && [1][1..] == [] && [Refresh(1)][1..] == [];
    var m := RunOps(s1, [Refresh(1)]);
    assert m == RunOp(s1, Refresh(1));
    assert Quiet(m) && Drain(m) == m;
  }

  lemma SecondTurn(m: State)
    requires m.clock == 15 && |m.handles| == 2 && m.handles[1] == Handle(true, [[]], 10, 25, false, true, false) && Quiet(m)
    ensures var r := RunTimer(m, 1);
            && r.clock == 15 && |r.handles| == 2 && r.handles[1].due == 25 && r.log == m.log + [Start(1, true, true, true, 15)]
            && r.immediates == m.immediates
  {
    var r := RunOps(Started(Unlisted(m, 1), 1), []);
    assert Quiet(r) && Drain(r) == r;
  }

  lemma BothTurns(s: State)
    requires s == Pair(15, None, [])
    ensures var r := RunTimers(s, [0, 1]);
            r.log == [Start(0, true, true, true, 15), Start(1, true, true, true, 15)] && |r.handles| == 2 && r.handles[1].due == 25
  {
    FirstTurn(s);
    var m := RunTimer(s, 0);
    SecondTurn(m);
    var r := RunTimer(m, 1);
    FirstTimer(s, 0, m, [1]);
    FirstTimer(m, 1, r, []);
    assert [0] + [1] == [0, 1] && [1] + [] == [1];
  }

  lemma FirstTimer(s: State, id: nat, m: State, z: seq<nat>)
    requires id < |s.handles| && m == RunTimer(s, id)
    ensures RunTimers(s, [id] + z) == RunTimers(m, z)
  {
    assert ([id] + z)[1..] == z;
  }

  lemma PairTick(s: State)
    requires s == Pair(15, None, [])
    ensures Tick(s).log == [Start(0, true, true, true, 15), Start(1, true, true, true, 15)]
    ensures |Tick(s).handles| == 2 && Tick(s).handles[1].due == 25
  {
    assert Drain(s) == s && DrainImmediates(s) == s;
    DueBoth(s);
    BothTurns(s);
    TickParts(s, s, s, RunTimers(s, [0, 1]));
  }

  lemma PairDelivered(s: State)
    requires s == Pair(15, Some(10), [Wake(1, 10)])
    ensures Step(s, Deliver(0)) == Tick(Pair(15, None, []))
  {
    CurrentTicks(s, 0);
    assert s.kernel[..0] + s.kernel[1..] == [];
  }

  /** It is started at 15 all the same. */
  lemma RefreshedTooLate()
    ensures var s := Run(INIT, REFRESH_RUN);
            s.log == [Start(0, true, true, true, 15), Start(1, true, true, true, 15)] && |s.handles| == 2 && s.handles[1].due == 25
  {
    PairMade();
    PairTick(Pair(15, None, []));
    PairDelivered(Pair(15, Some(10), [Wake(1, 10)]));
    RunThree(INIT, REFRESH_RUN[0], REFRESH_RUN[1], REFRESH_RUN[2]);
    assert REFRESH_RUN == [REFRESH_RUN[0], REFRESH_RUN[1], REFRESH_RUN[2]];
  }

  lemma DueBoth(s: State)
    requires s == Pair(15, None, [])
    ensures DueList(s, s.timers) == [0, 1]
  {
    assert [0, 1][..1] == [0] && [0][..0] == [];
    assert DueList(s, [0]) == [0];
    assert [0][1..] == [];
    assert Insert(s, [0], 1) == [0, 1];
  }

  lemma TickParts(s: State, a: State, b: State, r: State)
    requires a == Drain(s) && b == DrainImmediates(a) && r == DrainTimers(b)
    ensures Tick(s).log == r.log && Tick(s).handles == r.handles
  {
  }
}
