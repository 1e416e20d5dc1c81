/** src/recovery-startup-lifecycle.mjs: bounded, non-overlapping startup attempts driven by timers. */
module StartupLifecycle {
  import opened Wrappers
  import opened StartupErrors

  const ATTEMPT_TIMEOUT_MS: int := 60000
  const RETRY_DELAYS_MS: seq<int> := [15000, 30000, 60000, 60000]

  // ---- the event loop ----

  datatype Action = Watchdog | Retry
  datatype Timer = Timer(action: Action, due: int)

  /** What the platform holds: armed timers by handle, attempts whose first microtask has not run, and
      readiness calls in progress, each under the generation that asked for it. */
  datatype Loop = Loop(timers: map<nat, Timer>, nextHandle: nat, queued: set<nat>, running: set<nat>)

  const IDLE_LOOP: Loop := Loop(map[], 0, {}, {})

  // ---- the lifecycle ----

  datatype Phase = Waking | Ready | Failed
  datatype Failure = TimedOut | Stopped | Rejected(heap: Heap, error: Option<nat>)

  datatype Life = Life(started: bool, stopped: bool, generation: nat, attempts: nat, timer: Option<nat>, phase: Phase,
                       failure: Option<Failure>)

  const NEW_LIFE: Life := Life(false, false, 0, 0, None, Waking, None)

  datatype World = World(life: Life, loop: Loop)
  const NEW_WORLD: World := World(NEW_LIFE, IDLE_LOOP)

  datatype Outcome = Succeeded | Rejection(heap: Heap, error: Option<nat>)

  // ---- one event at a time ----

  function ClearTimer(w: World): World {
    if w.life.timer.None? then w
    else World(w.life.(timer := None), w.loop.(timers := w.loop.timers - {w.life.timer.value}))
  }

  function Schedule(w: World, action: Action, due: int): World {
    var handle := w.loop.nextHandle;
    World(w.life.(timer := Some(handle)),
          w.loop.(timers := w.loop.timers[handle := Timer(action, due)], nextHandle := handle + 1))
  }

  function Fail(w: World, failure: Failure): World {
    var cleared := ClearTimer(w);
    cleared.(life := cleared.life.(generation := w.life.generation + 1, phase := Failed, failure := Some(failure)))
  }

  function Attempt(w: World, at: int): World {
    if w.life.stopped || !w.life.phase.Waking? then w
    else
      var generation := w.life.generation + 1;
      var begun := w.(life := w.life.(attempts := w.life.attempts + 1, generation := generation));
      var armed := Schedule(begun, Watchdog, at + ATTEMPT_TIMEOUT_MS);
      armed.(loop := armed.loop.(queued := armed.loop.queued + {generation}))
  }

  function StartStep(w: World, at: int): World {
    if w.life.started || w.life.stopped then w else Attempt(w.(life := w.life.(started := true)), at)
  }

  function StopStep(w: World): World {
    Fail(w.(life := w.life.(stopped := true)), Stopped)
  }

  /** Whether a settled or queued promise still speaks for the current attempt. */
  predicate Current(w: World, generation: nat) { !w.life.stopped && generation == w.life.generation }

  /** The attempt's first microtask; it calls readiness unless it has been overtaken. */
  function MicrotaskStep(w: World, generation: nat): World {
    var taken := w.(loop := w.loop.(queued := w.loop.queued - {generation}));
    if Current(w, generation) then taken.(loop := taken.loop.(running := w.loop.running + {generation})) else taken
  }

  function SettleStep(w: World, generation: nat, outcome: Outcome, at: int): World {
    var settled := w.(loop := w.loop.(running := w.loop.running - {generation}));
    if !Current(w, generation) then settled
    else
      var cleared := ClearTimer(settled);
      match outcome
      case Succeeded => cleared.(life := cleared.life.(phase := Ready, failure := None))
      case Rejection(heap, error) =>
        var retry := w.life.attempts - 1;
        if !Retryable(heap, error) || !(0 <= retry < |RETRY_DELAYS_MS|) then Fail(cleared, Rejected(heap, error))
        else Schedule(cleared, Retry, at + RETRY_DELAYS_MS[retry])
  }

  function FireStep(w: World, handle: nat, at: int): World
    requires handle in w.loop.timers
  {
    var fired := World(w.life.(timer := None), w.loop.(timers := w.loop.timers - {handle}));
    match w.loop.timers[handle].action
    case Watchdog => Fail(fired, TimedOut)
    case Retry => Attempt(fired, at)
  }

  datatype Event =
    | Start
    | Stop
    | Microtask(generation: nat)
    | Settle(generation: nat, outcome: Outcome)
    | Fire(handle: nat)

  /** The platform delivers only what it holds: queued microtasks, calls in progress, armed timers. */
  predicate Deliverable(w: World, e: Event) {
    match e
    case Start => true
    case Stop => true
    case Microtask(g) => g in w.loop.queued
    case Settle(g, _) => g in w.loop.running
    case Fire(h) => h in w.loop.timers
  }

  function Step(w: World, e: Event, at: int): World {
    if !Deliverable(w, e) then w
    else match e
         case Start => StartStep(w, at)
         case Stop => StopStep(w)
         case Microtask(g) => MicrotaskStep(w, g)
         case Settle(g, outcome) => SettleStep(w, g, outcome, at)
         case Fire(h) => FireStep(w, h, at)
  }

  // ---- the objects ----

  class EventLoop {
    var timers: map<nat, Timer>
    var nextHandle: nat
    var queued: set<nat>
    var running: set<nat>

    function Value(): Loop
      reads this
    {
      Loop(timers, nextHandle, queued, running)
    }

    constructor ()
      ensures Value() == IDLE_LOOP
    {
      timers, nextHandle, queued, running := map[], 0, {}, {};
    }

    method SetTimeout(action: Action, due: int) returns (handle: nat)
      modifies this`timers, this`nextHandle
      ensures handle == old(nextHandle)
      ensures Value() == old(Value()).(timers := old(timers)[handle := Timer(action, due)], nextHandle := handle + 1)
    {
      handle := nextHandle;
      timers, nextHandle := timers[handle := Timer(action, due)], handle + 1;
    }

    method ClearTimeout(handle: nat)
      modifies this`timers
      ensures Value() == old(Value()).(timers := old(timers) - {handle})
    {
      timers := timers - {handle};
    }
  }

  class RecoveryStartupLifecycle {
    const loop: EventLoop
    var started: bool
    var stopped: bool
    var generation: nat
    var attempts: nat
    var timer: Option<nat>
    var phase: Phase
    var failure: Option<Failure>

    ghost function Value(): World
      reads this, loop
    {
      World(Life(started, stopped, generation, attempts, timer, phase, failure), loop.Value())
    }

    constructor (loop: EventLoop)
      ensures this.loop == loop
      ensures Value() == World(NEW_LIFE, loop.Value())
    {
      this.loop := loop;
      started, stopped, generation, attempts := false, false, 0, 0;
      timer, phase, failure := None, Waking, None;
    }

    method ClearCurrentTimer()
      modifies this`timer, loop
      ensures Value() == ClearTimer(old(Value()))
    {
      if timer.Some? {
        loop.ClearTimeout(timer.value);
        timer := None;
      }
    }

    method Arm(action: Action, due: int)
      modifies this`timer, loop
      ensures Value() == Schedule(old(Value()), action, due)
    {
      var handle := loop.SetTimeout(action, due);
      timer := Some(handle);
    }

    method FailWith(reason: Failure)
      modifies this, loop
      ensures Value() == Fail(old(Value()), reason)
    {
      ClearCurrentTimer();
      generation := generation + 1;
      phase, failure := Failed, Some(reason);
    }

    method BeginAttempt(at: int)
      modifies this, loop
      ensures Value() == Attempt(old(Value()), at)
    {
      if stopped || !phase.Waking? {
        return;
      }
      attempts := attempts + 1;
      generation := generation + 1;
      Arm(Watchdog, at + ATTEMPT_TIMEOUT_MS);
      loop.queued := loop.queued + {generation};
    }

    method StartUp(at: int)
      modifies this, loop
      ensures Value() == Step(old(Value()), Start, at)
    {
      if started || stopped {
        return;
      }
      started := true;
      BeginAttempt(at);
    }

    method ShutDown(at: int)
      modifies this, loop
      ensures Value() == Step(old(Value()), Stop, at)
    {
      stopped := true;
      FailWith(Stopped);
    }

    method RunMicrotask(current: nat, at: int)
      requires current in loop.queued
      modifies this, loop
      ensures Value() == Step(old(Value()), Microtask(current), at)
    {
      loop.queued := loop.queued - {current};
      if !stopped && current == generation {
        loop.running := loop.running + {current};
      }
    }

    method OnSettled(current: nat, outcome: Outcome, at: int)
      requires current in loop.running
      modifies this, loop
      ensures Value() == Step(old(Value()), Settle(current, outcome), at)
    {
      loop.running := loop.running - {current};
      if stopped || current != generation {
        return;
      }
      ClearCurrentTimer();
      match outcome {
        case Succeeded =>
          phase, failure := Ready, None;
        case Rejection(heap, error) =>
          var retryable := IsRetryableRecoveryStartupError(heap, error);
          var retry := attempts - 1;
          if !retryable || !(0 <= retry < |RETRY_DELAYS_MS|) {
            FailWith(Rejected(heap, error));
          } else {
            Arm(Retry, at + RETRY_DELAYS_MS[retry]);
          }
      }
    }

    method OnTimer(handle: nat, at: int)
      requires handle in loop.timers
      modifies this, loop
      ensures Value() == Step(old(Value()), Fire(handle), at)
    {
      var fired := loop.timers[handle].action;
      loop.ClearTimeout(handle);
      timer := None;
      if fired.Watchdog? {
        FailWith(TimedOut);
      } else {
        BeginAttempt(at);
      }
    }
  }

  // ---- runs: any events in any order, at any readings ----

  datatype Occurrence = Occurrence(event: Event, at: int)

  function StateAt(run: seq<Occurrence>, i: nat): World
    requires i <= |run|
  {
    if i == 0 then NEW_WORLD else Step(StateAt(run, i - 1), run[i - 1].event, run[i - 1].at)
  }

  /** How often readiness has been called: the steps that put a generation into progress. */
  function ReadinessCalls(run: seq<Occurrence>, i: nat): nat
    requires i <= |run|
  {
    if i == 0 then 0
    else ReadinessCalls(run, i - 1) + |StateAt(run, i).loop.running - StateAt(run, i - 1).loop.running|
  }

  /** What every reachable state satisfies. The armed timers are exactly the remembered one; a pending
      retry has nothing in progress; a watchdog guards exactly the current attempt. */
  ghost predicate Inv(w: World) {
    var l, p := w.life, w.loop;
    && (forall h | h in p.timers :: l.timer == Some(h))
    && (l.timer.Some? ==> l.timer.value in p.timers && l.timer.value < p.nextHandle)
    && (l.timer.Some? ==> l.started && !l.stopped && l.phase.Waking?)
    && (l.started && l.phase.Waking? ==> l.timer.Some?)
    && (l.stopped ==> l.phase.Failed?)
    && (!l.started ==> l.attempts == 0 && p.queued == {} && p.running == {} && (l.phase.Waking? || l.stopped))
    && l.attempts <= |RETRY_DELAYS_MS| + 1
    && (l.phase.Waking? ==> (l.started <==> l.attempts > 0))
    && (forall g | g in p.queued || g in p.running :: g <= l.generation)
    && (forall g, h | g in p.queued + p.running && h in p.queued + p.running :: g == h)
    && p.queued !! p.running
    && (l.generation in p.queued + p.running ==> l.timer.Some? && p.timers[l.timer.value].action.Watchdog?)
    && (l.timer.Some? && p.timers[l.timer.value].action.Retry? ==>
          p.queued == {} && p.running == {} && l.attempts <= |RETRY_DELAYS_MS|)
    && (l.timer.Some? && p.timers[l.timer.value].action.Watchdog? ==> p.queued + p.running == {l.generation})
  }

  lemma ClearTimerClears(w: World)
    requires forall h | h in w.loop.timers :: w.life.timer == Some(h)
    ensures ClearTimer(w).life == w.life.(timer := None) && ClearTimer(w).loop == w.loop.(timers := map[])
  {
  }

  lemma FailKeepsInv(w: World, stopped: bool, failure: Failure)
    requires Inv(w) && (stopped || (w.life.started && !w.life.stopped))
    ensures Inv(Fail(w.(life := w.life.(stopped := stopped)), failure))
  {
    ClearTimerClears(w);
  }

  lemma AttemptKeepsInv(w: World, at: int)
    requires w.life.started && !w.life.stopped && w.life.phase.Waking? && w.life.attempts <= |RETRY_DELAYS_MS|
    requires w.life.timer == None && w.loop.timers == map[] && w.loop.queued == {} && w.loop.running == {}
    ensures Inv(Attempt(w, at))
  {
  }

  lemma SettleKeepsInv(w: World, g: nat, outcome: Outcome, at: int)
    requires Inv(w) && g in w.loop.running
    ensures Inv(SettleStep(w, g, outcome, at))
  {
    hide Retryable;
    var settled := w.(loop := w.loop.(running := w.loop.running - {g}));
    assert w.loop.queued == {} by { assert g in w.loop.queued + w.loop.running; }
    assert forall x | x in w.loop.running :: x in w.loop.queued + w.loop.running;
    assert settled.loop.running == {};
    if Current(w, g) {
      assert ClearTimer(settled) == World(w.life.(timer := None), Loop(map[], w.loop.nextHandle, {}, {}));
    }
  }

  /** Every event keeps it, delivered or not. */
  lemma StepKeepsInv(w: World, e: Event, at: int)
    requires Inv(w)
    ensures Inv(Step(w, e, at))
  {
    hide Retryable;
    match e
    case Start =>
    case Stop => FailKeepsInv(w, true, Stopped);
    case Microtask(g) =>
      if g in w.loop.queued {
        assert g in w.loop.queued + w.loop.running;
        assert forall x | x in w.loop.queued :: x in w.loop.queued + w.loop.running;
        assert forall x | x in w.loop.running :: x in w.loop.queued + w.loop.running;
        assert w.loop.queued == {g} && w.loop.running == {};
        assert MicrotaskStep(w, g).loop.queued == {};
      }
    case Settle(g, outcome) =>
      if g in w.loop.running { SettleKeepsInv(w, g, outcome, at); }
    case Fire(h) =>
      if h in w.loop.timers {
        var fired := World(w.life.(timer := None), w.loop.(timers := w.loop.timers - {h}));
        assert fired.loop.timers == map[];
        if w.loop.timers[h].action.Retry? { AttemptKeepsInv(fired, at); }
      }
  }

  lemma {:induction false} RunKeepsInv(run: seq<Occurrence>, i: nat)
    requires i <= |run|
    ensures Inv(StateAt(run, i))
  {
    hide Inv, Step;
    if i == 0 {
      NewWorldInv();
    } else {
      RunKeepsInv(run, i - 1);
      StepKeepsInv(StateAt(run, i - 1), run[i - 1].event, run[i - 1].at);
    }
  }

  lemma NewWorldInv()
    ensures Inv(NEW_WORLD)
  {
  }

  // ---- how often, and never two at once ----

  function Waiting(w: World): nat { if w.life.generation in w.loop.queued then 1 else 0 }

  lemma StepCalls(w: World, e: Event, at: int)
    requires Inv(w)
    ensures var after := Step(w, e, at);
            |after.loop.running - w.loop.running| + Waiting(after) + w.life.attempts <= Waiting(w) + after.life.attempts
    ensures var after := Step(w, e, at); after.loop.running - w.loop.running != {} ==> w.loop.running == {}
  {
    hide Retryable;
    ClearTimerClears(w);
    var after := Step(w, e, at);
    if e.Microtask? && e.generation in w.loop.queued {
      assert e.generation in w.loop.queued + w.loop.running;
      assert forall x | x in w.loop.running :: x in w.loop.queued + w.loop.running;
      assert w.loop.running == {};
      assert after.loop.running - w.loop.running <= {e.generation};
      assert |{e.generation}| == 1;
    } else {
      assert after.loop.running - w.loop.running == {};
      StepWaits(w, e, at);
    }
  }

  lemma StepWaits(w: World, e: Event, at: int)
    requires Inv(w) && !(e.Microtask? && e.generation in w.loop.queued)
    ensures Waiting(Step(w, e, at)) + w.life.attempts <= Waiting(w) + Step(w, e, at).life.attempts
  {
    hide Retryable;
    match e
    case Settle(g, outcome) =>
      if g in w.loop.running {
        assert g in w.loop.queued + w.loop.running;
        assert forall x | x in w.loop.queued :: x in w.loop.queued + w.loop.running;
        assert w.loop.queued == {};
      }
    case _ =>
      assert forall x | x in w.loop.queued :: x in w.loop.queued + w.loop.running;
  }

  lemma {:induction false} CallsWithinAttempts(run: seq<Occurrence>, i: nat)
    requires i <= |run|
    ensures ReadinessCalls(run, i) + Waiting(StateAt(run, i)) <= StateAt(run, i).life.attempts
  {
    hide Inv, Step;
    if i > 0 {
      CallsWithinAttempts(run, i - 1);
      RunKeepsInv(run, i - 1);
      StepCalls(StateAt(run, i - 1), run[i - 1].event, run[i - 1].at);
    }
  }

  /** In every interleaving readiness is called at most five times, a call begins only when none is in
      progress, and at most one timer is armed: the one remembered. */
  lemma AtMostFiveCallsNeverTwoAtOnce(run: seq<Occurrence>, i: nat)
    requires i <= |run|
    ensures ReadinessCalls(run, i) <= 5
    ensures |StateAt(run, i).loop.running| <= 1
    ensures i < |run| && StateAt(run, i + 1).loop.running - StateAt(run, i).loop.running != {} ==>
              StateAt(run, i).loop.running == {}
    ensures forall h, k | h in StateAt(run, i).loop.timers && k in StateAt(run, i).loop.timers :: h == k
  {
    hide Step;
    CallsWithinAttempts(run, i);
    RunKeepsInv(run, i);
    var w := StateAt(run, i);
    if g: nat :| g in w.loop.running {
      assert forall x | x in w.loop.running :: x in w.loop.queued + w.loop.running;
      assert w.loop.running == {g};
    }
    if i < |run| {
      StepCalls(w, run[i].event, run[i].at);
    }
  }

  // ---- what a decided lifecycle still does ----

  /** Once it is no longer waking, a settlement or a microtask changes nothing the caller can see, and arms no timer. */
  lemma LateEventsChangeNothing(run: seq<Occurrence>, i: nat, e: Event, at: int)
    requires i <= |run| && !StateAt(run, i).life.phase.Waking? && (e.Settle? || e.Microtask?)
    ensures var w := StateAt(run, i);
            Step(w, e, at).life == w.life && Step(w, e, at).loop.timers == w.loop.timers == map[]
    ensures Step(StateAt(run, i), e, at).loop.running <= StateAt(run, i).loop.running
  {
    RunKeepsInv(run, i);
    var w := StateAt(run, i);
    if e.generation in w.loop.queued || e.generation in w.loop.running {
      assert e.generation in w.loop.queued + w.loop.running;
      assert !Current(w, e.generation);
    }
  }

  lemma DecidedStep(w: World, e: Event, at: int)
    requires Inv(w) && !w.life.phase.Waking?
    ensures var after := Step(w, e, at);
            && !after.life.phase.Waking? && after.life.attempts == w.life.attempts
            && after.loop.running <= w.loop.running
            && (w.life.phase.Failed? || e == Stop ==> after.life.phase.Failed?)
            && (e != Stop ==> after.life == w.life)
  {
    hide Retryable;
    if (e.Settle? || e.Microtask?) && (e.generation in w.loop.queued || e.generation in w.loop.running) {
      assert e.generation in w.loop.queued + w.loop.running;
      assert !Current(w, e.generation);
    }
  }

  /** Failure is absorbing, and a decided lifecycle never calls readiness again: only stopping it can still
      change the answer, and only to failure. */
  lemma {:induction false} DecidedForGood(run: seq<Occurrence>, i: nat, j: nat)
    requires i <= j <= |run| && !StateAt(run, i).life.phase.Waking?
    ensures var a, b := StateAt(run, i).life, StateAt(run, j).life;
            && (a.phase.Failed? ==> b.phase.Failed?) && !b.phase.Waking?
            && b.attempts == a.attempts && ReadinessCalls(run, j) == ReadinessCalls(run, i)
            && ((forall k | i <= k < j :: run[k].event != Stop) ==> b == a)
  {
    hide Inv, Step;
    if i < j {
      DecidedForGood(run, i, j - 1);
      RunKeepsInv(run, j - 1);
      DecidedStep(StateAt(run, j - 1), run[j - 1].event, run[j - 1].at);
      assert StateAt(run, j).loop.running - StateAt(run, j - 1).loop.running == {};
    }
  }

  // ---- only retryable failures are retried ----

  predicate IsRetryableRejection(e: Event) {
    e.Settle? && e.outcome.Rejection? && Retryable(e.outcome.heap, e.outcome.error)
  }

  function RetryableFailures(run: seq<Occurrence>, i: nat): nat
    requires i <= |run|
  {
    if i == 0 then 0 else RetryableFailures(run, i - 1) + if IsRetryableRejection(run[i - 1].event) then 1 else 0
  }

  function RetryArmed(w: World): nat {
    if w.life.timer.Some? && w.life.timer.value in w.loop.timers && w.loop.timers[w.life.timer.value].action.Retry?
    then 1 else 0
  }

  lemma StepRetries(w: World, e: Event, at: int)
    requires Inv(w)
    ensures Step(w, e, at).life.attempts + RetryArmed(Step(w, e, at)) <=
            w.life.attempts + RetryArmed(w) + (if IsRetryableRejection(e) then 1 else 0)
            + (if !w.life.started && Step(w, e, at).life.started then 1 else 0)
    ensures w.life.started ==> Step(w, e, at).life.started
  {
    hide Retryable;
    ClearTimerClears(w);
    if e.Settle? && e.generation in w.loop.running {
      ClearTimerClears(w.(loop := w.loop.(running := w.loop.running - {e.generation})));
    }
  }

  /** Every attempt after the first was preceded by its own retryable failure. */
  lemma {:induction false} RetriesNeedRetryableFailures(run: seq<Occurrence>, i: nat)
    requires i <= |run|
    ensures var w := StateAt(run, i);
            w.life.attempts + RetryArmed(w) <= RetryableFailures(run, i) + (if w.life.started then 1 else 0)
  {
    hide Inv, Step, IsRetryableRejection;
    if i > 0 {
      RetriesNeedRetryableFailures(run, i - 1);
      RunKeepsInv(run, i - 1);
      StepRetries(StateAt(run, i - 1), run[i - 1].event, run[i - 1].at);
    }
  }

  // ---- how long it may stay waking ----

  function StartTime(run: seq<Occurrence>, i: nat): Option<int>
    requires i <= |run|
  {
    if i == 0 then None
    else if StartTime(run, i - 1).Some? then StartTime(run, i - 1)
    else if run[i - 1].event.Start? then Some(run[i - 1].at) else None
  }

  /** No armed timer is overdue at this reading. */
  predicate NotOverdue(w: World, now: int) {
    forall h | h in w.loop.timers :: now <= w.loop.timers[h].due
  }

  /** Timers fire on time: nothing happens while an earlier-due timer is still armed. */
  ghost predicate OnTime(run: seq<Occurrence>) {
    forall i | 0 <= i < |run| :: NotOverdue(StateAt(run, i), run[i].at)
  }

  /** The delays before the first `n` retries. */
  function Delays(n: nat): int
    requires n <= |RETRY_DELAYS_MS|
  {
    if n == 0 then 0 else Delays(n - 1) + RETRY_DELAYS_MS[n - 1]
  }

  /** The latest the armed timer can be due, counted from the start. */
  function Budget(attempts: nat, action: Action): int
    requires 0 < attempts <= |RETRY_DELAYS_MS| + 1 && (action.Retry? ==> attempts <= |RETRY_DELAYS_MS|)
  {
    attempts * ATTEMPT_TIMEOUT_MS + if action.Retry? then Delays(attempts) else Delays(attempts - 1)
  }

  lemma BudgetWithin(attempts: nat, action: Action)
    requires 0 < attempts <= |RETRY_DELAYS_MS| + 1 && (action.Retry? ==> attempts <= |RETRY_DELAYS_MS|)
    ensures Budget(attempts, action) <= 5 * 60000 + 165000
  {
    assert Delays(1) == 15000 && Delays(2) == 45000 && Delays(3) == 105000 && Delays(4) == 165000;
  }

  ghost predicate DueWithin(w: World, start: int)
    requires Inv(w)
  {
    w.life.timer.Some? ==>
      var t := w.loop.timers[w.life.timer.value];
      w.life.attempts > 0 && t.due <= start + Budget(w.life.attempts, t.action)
  }

  lemma StepKeepsDue(w: World, e: Event, at: int, start: int)
    requires Inv(w) && Inv(Step(w, e, at)) && DueWithin(w, start) && NotOverdue(w, at)
    requires e.Start? && !w.life.started && !w.life.stopped ==> at == start
    ensures DueWithin(Step(w, e, at), start)
  {
    hide Retryable;
    if e.Settle? && e.generation in w.loop.running {
      ClearTimerClears(w.(loop := w.loop.(running := w.loop.running - {e.generation})));
    }
  }

  lemma {:induction false} DueInTime(run: seq<Occurrence>, i: nat)
    requires i <= |run| && OnTime(run)
    ensures Inv(StateAt(run, i)) && (StateAt(run, i).life.started ==> StartTime(run, i).Some?)
    ensures StartTime(run, i).Some? ==> DueWithin(StateAt(run, i), StartTime(run, i).value)
    ensures StartTime(run, i).Some? ==> StateAt(run, i).life.started || StateAt(run, i).life.stopped
  {
    hide Inv, Step, DueWithin, NotOverdue;
    RunKeepsInv(run, i);
    if i > 0 {
      DueInTime(run, i - 1);
      var w, e, at := StateAt(run, i - 1), run[i - 1].event, run[i - 1].at;
      OnlyStartStarts(w, e, at);
      if StartTime(run, i).Some? {
        if !w.life.started { UnstartedDue(w, StartTime(run, i).value); }
        StepKeepsDue(w, e, at, StartTime(run, i).value);
      }
    }
  }

  lemma OnlyStartStarts(w: World, e: Event, at: int)
    requires Inv(w)
    ensures Step(w, e, at).life.started ==> w.life.started || (e.Start? && !w.life.stopped)
    ensures w.life.started || w.life.stopped || e.Start? ==> Step(w, e, at).life.started || Step(w, e, at).life.stopped
  {
    hide Retryable;
    ClearTimerClears(w);
  }

  lemma UnstartedDue(w: World, start: int)
    requires Inv(w) && !w.life.started
    ensures DueWithin(w, start)
  {
  }

  /** When timers fire on time, waking ends within five minutes of attempts and 165 seconds of delays. */
  lemma WakingEnds(run: seq<Occurrence>, i: nat, now: int)
    requires i <= |run| && OnTime(run) && NotOverdue(StateAt(run, i), now)
    requires StateAt(run, i).life.started && StateAt(run, i).life.phase.Waking?
    ensures StartTime(run, i).Some? && now <= StartTime(run, i).value + 5 * 60000 + 165000
  {
    hide Step;
    DueInTime(run, i);
    var w := StateAt(run, i);
    BudgetWithin(w.life.attempts, w.loop.timers[w.life.timer.value].action);
  }
}
