/** How early the wake is: armed no later than the live referenced timers are due, except behind an
    immediate. */
module EventLoopWakes {
  import opened Wrappers
  import opened EventLoop
  import opened EventLoopRuns

  /** The wake is armed no later than any live referenced timer is due. */
  ghost predicate Bound(s: State)
  {
    forall id :: id in s.timers && Wanted(s, id) ==> s.wakeAt.Some? && s.wakeAt.value <= s.handles[id].due
  }

  /** A live referenced timer is already overdue, and no wake is armed as early as that. */
  predicate Late(s: State, id: nat)
  {
    Wanted(s, id) && s.handles[id].due < s.clock && (s.wakeAt.None? || s.handles[id].due < s.wakeAt.value)
  }

  /** Where earliestWake goes by the immediates alone: one is waiting while some timer is late. */
  ghost predicate Overtakes(s: State)
  {
    AnyWanted(s, s.immediates) && exists id :: id in s.timers && Late(s, id)
  }

  /** After a scheduleWake the wake is no later than every live referenced timer's due time, exactly
      if no late timer was overtaken by an immediate. */
  lemma WakeBeforeDueIff(s: State)
    ensures Bound(ScheduleWake(s)) <==> !Overtakes(s)
  {
    var r := ScheduleWake(s);
    MinDueLeast(s, s.timers);
    assert forall id: nat :: Wanted(r, id) == Wanted(s, id);
    if Overtakes(s) {
      var id :| id in s.timers && Late(s, id);
      assert Wanted(r, id) && id in r.timers;
    }
  }

  /* ---- calls ---- */

  /** The state in which a call calls scheduleWake, if it does. */
  function Scheduling(s: State, op: Op): Option<State>
  {
    match op
    case SetTimeout(cb, delay) => Some(WithTimer(s, [cb], NormalizeDelay(delay), false))
    case SetInterval(cbs, delay) => Some(WithTimer(s, cbs, NormalizeDelay(delay), true))
    case SetImmediate(cb) => Some(Listed(s, Handle(false, [cb], 0, 0, false, true, false)))
    case Ref(id) => if id < |s.handles| then Some(Put(s, id, s.handles[id].(refd := true))) else None
    case Refresh(id) =>
      if id < |s.handles| && s.handles[id].timer && !s.handles[id].cancelled then
        Some(Put(s, id, s.handles[id].(due := s.clock + s.handles[id].delay)))
      else None
    case _ => None
  }

  function WithTimer(s: State, cbs: seq<Script>, d: nat, repeat: bool): State
  {
    Listed(s, Handle(true, cbs, d, s.clock + d, repeat, true, false))
  }

  lemma SchedulingIs(s: State, op: Op)
    ensures Scheduling(s, op).Some? ==> RunOp(s, op) == ScheduleWake(Scheduling(s, op).value)
  {
  }

  /** With fewer timers waiting and the wake as it was, the bound stays. */
  lemma BoundFewer(s: State, r: State)
    requires Bound(s) && r.wakeAt == s.wakeAt && forall id :: id in r.timers ==> id in s.timers
    requires forall id: nat :: Wanted(r, id) ==> Wanted(s, id) && r.handles[id].due == s.handles[id].due
    ensures Bound(r)
  {
  }

  /** One call, outside a tick or in one: it keeps the bound exactly if its scheduleWake, if it makes
      one, does not find a late timer behind an immediate. */
  lemma OpBound(s: State, op: Op)
    requires Bound(s)
    ensures Bound(RunOp(s, op)) <==> !(Scheduling(s, op).Some? && Overtakes(Scheduling(s, op).value))
  {
    if Scheduling(s, op).Some? {
      SchedulingIs(s, op);
      WakeBeforeDueIff(Scheduling(s, op).value);
    } else {
      BoundFewer(s, RunOp(s, op));
    }
  }

  /** While the bound holds, of all calls only ref() can make an immediate overtake a timer. */
  lemma OnlyRefOvertakes(s: State, op: Op)
    requires Bound(s) && Shape(s) && Scheduling(s, op).Some? && !op.Ref?
    ensures !Overtakes(Scheduling(s, op).value)
  {
    var x := Scheduling(s, op).value;
    forall id | id in x.timers
      ensures !Late(x, id)
    {
    }
  }

  /** Some call of the list, when its turn comes, overtakes a late timer. */
  ghost predicate OpsOvertake(s: State, ops: Script)
    decreases |ops|
  {
    ops != [] &&
    ((Scheduling(s, ops[0]).Some? && Overtakes(Scheduling(s, ops[0]).value)) || OpsOvertake(RunOp(s, ops[0]), ops[1..]))
  }

  lemma {:induction false} OpsBound(s: State, ops: Script)
    requires Bound(s) && !OpsOvertake(s, ops)
    ensures Bound(RunOps(s, ops))
    decreases |ops|
  {
    if ops != [] {
      OpBound(s, ops[0]);
      OpsBound(RunOp(s, ops[0]), ops[1..]);
    }
  }

  /* ---- events ---- */

  /** A tick up to its last scheduleWake. */
  function Ran(s: State): State { DrainTimers(DrainImmediates(Drain(s))) }

  /** The event's calls, or the last scheduleWake of its tick, overtake a late timer. */
  ghost predicate EventOvertakes(s: State, e: Event)
  {
    match e
    case Host(ops) => OpsOvertake(s, ops)
    case _ => TickFrom(s, e).Some? && Overtakes(Ran(TickFrom(s, e).value))
  }

  /** Whatever went before and inside, after a tick the bound holds exactly if the tick does not end
      with an immediate waiting ahead of a late timer. */
  lemma TickBoundIff(s: State, e: Event)
    requires TickFrom(s, e).Some?
    ensures Bound(Step(s, e)) <==> !Overtakes(Ran(TickFrom(s, e).value))
  {
    WakeBeforeDueIff(Ran(TickFrom(s, e).value));
  }

  lemma EventBound(s: State, e: Event)
    requires Bound(s) && !EventOvertakes(s, e)
    ensures Bound(Step(s, e))
  {
    if TickFrom(s, e).Some? {
      TickBoundIff(s, e);
    } else if e.Host? {
      OpsBound(s, e.ops);
    } else {
      BoundFewer(s, Step(s, e));
    }
  }

  ghost predicate NoneOvertakes(s: State, es: seq<Event>)
    decreases |es|
  {
    es == [] || (!EventOvertakes(s, es[0]) && NoneOvertakes(Step(s, es[0]), es[1..]))
  }

  lemma {:induction false} RunBound(s: State, es: seq<Event>)
    requires Bound(s) && NoneOvertakes(s, es)
    ensures Bound(Run(s, es))
    decreases |es|
  {
    if es != [] {
      EventBound(s, es[0]);
      RunBound(Step(s, es[0]), es[1..]);
    }
  }

  /** In every run, between ticks, the wake is armed no later than each live referenced timer is due,
      as long as no event lets an immediate overtake a late timer. */
  lemma WakeBeforeDue(es: seq<Event>)
    requires NoneOvertakes(INIT, es)
    ensures Bound(Run(INIT, es))
  {
    RunBound(INIT, es);
  }

  /* ---- a run in which it does not hold ---- */

  /** Timers due at 10 and 20; the kernel wakes the actor at 15, and the first callback lets the clock
      run to 25 and then asks for an immediate. */
  const LATE_RUN: seq<Event> :=
    [Host([SetTimeout([Elapse(10), SetImmediate([])], None), SetTimeout([], Some(20.0))]), Pass(15), Deliver(0)]

  function FirstTimer(): Handle { Handle(true, [[Elapse(10), SetImmediate([])]], 10, 10, false, true, false) }
  function SecondTimer(): Handle { Handle(true, [[]], 20, 20, false, true, false) }

  /** Both timers set, at a time when the kernel's list is `kernel`. */
  function BothSet(clock: nat, wakeAt: Option<nat>, kernel: seq<Wake>): State
  {
    State(clock, [FirstTimer(), SecondTimer()], [], [], [], [0, 1], 1, wakeAt, kernel, [])
  }

  lemma AddFirst()
    ensures RunOp(INIT, LATE_RUN[0].ops[0]) == State(0, [FirstTimer()], [], [], [], [0], 1, Some(10), [Wake(1, 10)], [])
  {
    assert MinDue(Listed(INIT, FirstTimer()), [0]) == Some(10);
  }

  lemma AddSecond(s: State)
    requires s == State(0, [FirstTimer()], [], [], [], [0], 1, Some(10), [Wake(1, 10)], [])
    ensures RunOp(s, SetTimeout([], Some(20.0))) == BothSet(0, Some(10), [Wake(1, 10)])
  {
    assert Ceil(20.0) == 20;
    var r := Listed(s, SecondTimer());
    assert NormalizeDelay(Some(20.0)) == 20;
    assert MinDue(r, [1]) == Some(20) && [0, 1][1..] == [1];
    assert MinDue(r, [0, 1]) == Some(10);
  }

  lemma LateStart()
    ensures Step(INIT, LATE_RUN[0]) == BothSet(0, Some(10), [Wake(1, 10)])
  {
    var ops := LATE_RUN[0].ops;
    AddFirst();
    AddSecond(RunOp(INIT, ops[0]));
    assert ops[1..] == [SetTimeout([], Some(20.0))] && ops[1..][1..] == [];
  }

  /** The first timer's callback has run, and an immediate waits. */
  lemma LateTick(s: State)
    requires s == BothSet(15, None, [])
    ensures var r := Ran(s);
            && r.clock == 25 && r.immediates == [2] && r.timers == [1] && r.wakeAt == Some(25) && |r.handles| == 3
            && r.handles[1] == SecondTimer() && Wanted(r, 2)
  {
    assert Drain(s) == s && DrainImmediates(s) == s;
    assert DueList(s, [0]) == [0] && [0, 1][..1] == [0];
    assert DueList(s, [0, 1]) == [0];
    FirstRuns(Unlisted(s, 0));
    var r := RunTimer(s, 0);
    assert RunTimers(s, [0]) == r by {
      assert [0][1..] == [];
    }
  }

  lemma FirstRuns(s: State)
    requires s == BothSet(15, None, []).(timers := Removed([0, 1], 0))
    ensures var r := Invoke(s, 0);
            && r.clock == 25 && r.immediates == [2] && r.timers == [1] && r.wakeAt == Some(25) && |r.handles| == 3
            && r.handles[1] == SecondTimer() && Wanted(r, 2)
  {
    var ops := NextScript(s.handles[0]);
    assert ops == [Elapse(10), SetImmediate([])] && ops[1..] == [SetImmediate([])] && ops[1..][1..] == [];
    assert [0, 1][1..] == [1] && [1][1..] == [];
    var s1 := RunOp(Started(s, 0), Elapse(10));
    var x := Listed(s1, Handle(false, [[]], 0, 0, false, true, false));
    assert x.immediates == [2] && Wanted(x, x.immediates[0]);
    var r := ScheduleWake(x);
    assert RunOps(Started(s, 0), ops) == r;
    assert Quiet(r) && Drain(r) == r;
  }

  /** The kernel's timeout comes at 15. */
  lemma LateDelivery(s: State)
    requires s == BothSet(15, Some(10), [Wake(1, 10)])
    ensures var r := Step(s, Deliver(0));
            1 in r.timers && Wanted(r, 1) && r.handles[1].due == 20 && r.wakeAt == Some(25)
  {
    var s1 := BothSet(15, None, []);
    assert s.kernel[..0] + s.kernel[1..] == [];
    assert Step(s, Deliver(0)) == Tick(s1);
    LateTick(s1);
    var r := Ran(s1);
    assert Wanted(r, r.immediates[0]);
    assert Tick(s1) == r;
  }

  /** After it the wake is armed for 25, with a live referenced timer due at 20. */
  lemma WakeCanBeLate()
    ensures var s := Run(INIT, LATE_RUN);
            1 in s.timers && Wanted(s, 1) && s.handles[1].due == 20 && s.wakeAt == Some(25) && !Bound(s)
  {
    LateStart();
    LateDelivery(BothSet(15, Some(10), [Wake(1, 10)]));
    RunThree(INIT, LATE_RUN[0], LATE_RUN[1], LATE_RUN[2]);
    assert LATE_RUN == [LATE_RUN[0], LATE_RUN[1], LATE_RUN[2]];
  }
}
