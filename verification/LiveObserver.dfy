/** src/recovery-v2-live-observer.mjs: a background sample that keeps a bounded readiness alive. */
module LiveObserver {
  import opened Wrappers
  import opened Numbers

  const INTERVAL_MS: int := 15000
  const TIMEOUT_MS: int := 25000
  const MAX_AGE_MS: int := 45000

  // ---- one observation ----

  datatype Report = Report(status: int, ok: bool, revision: string, network: int, mode: string, state: string,
                           observers: int, reason: string)

  /** `report` is None when the observation threw; `reading` is None when the clock threw. */
  datatype Outcome = Outcome(report: Option<Report>, reading: Option<int>)

  predicate Verified(revision: string, r: Report) {
    && r.status == 200 && r.ok && r.revision == revision && r.network == 102031
    && r.mode == "observation-only" && r.state == "observed" && r.observers == 2
    && r.reason == "CANONICAL_DEPLOYMENT_OBSERVED_PLUS_TWO"
  }

  predicate IsClock(reading: Option<int>) { reading.Some? && 0 <= reading.value <= MAX_SAFE_INTEGER }

  predicate Succeeds(revision: string, o: Outcome) {
    o.report.Some? && Verified(revision, o.report.value) && IsClock(o.reading)
  }

  // ---- the observer and what the platform holds for it ----

  /** Armed timers and observations in progress, by handle, with the time they are due and the time they began. */
  datatype Platform = Platform(timers: map<nat, int>, observations: map<nat, int>, nextHandle: nat)

  const IDLE_PLATFORM: Platform := Platform(map[], map[], 0)

  datatype Observer = Observer(stopped: bool, started: bool, flight: Option<nat>, timer: Option<nat>,
                               verifiedAt: Option<int>)

  const NEW_OBSERVER: Observer := Observer(false, false, None, None, None)

  datatype World = World(o: Observer, p: Platform)
  const NEW_WORLD: World := World(NEW_OBSERVER, IDLE_PLATFORM)

  predicate ReadyAt(o: Observer, reading: Option<int>) {
    && !o.stopped && o.verifiedAt.Some?
    && reading.Some? && -MAX_SAFE_INTEGER <= reading.value <= MAX_SAFE_INTEGER
    && o.verifiedAt.value <= reading.value < o.verifiedAt.value + MAX_AGE_MS
  }

  function Sample(w: World, at: int): World {
    if w.o.stopped || w.o.flight.Some? then w
    else
      var handle := w.p.nextHandle;
      World(w.o.(flight := Some(handle)),
            w.p.(observations := w.p.observations[handle := at], nextHandle := handle + 1))
  }

  function StartStep(w: World, at: int): World {
    if w.o.started then w else Sample(w.(o := w.o.(started := true)), at)
  }

  function StopStep(w: World): World {
    var timers := if w.o.timer.Some? then w.p.timers - {w.o.timer.value} else w.p.timers;
    World(w.o.(stopped := true, verifiedAt := None, timer := None), w.p.(timers := timers))
  }

  function FireStep(w: World, handle: nat, at: int): World {
    Sample(World(w.o.(timer := None), w.p.(timers := w.p.timers - {handle})), at)
  }

  /** An observation ends; `armed` is false when setting the next timer throws. */
  function FinishStep(revision: string, w: World, handle: nat, outcome: Outcome, armed: bool, at: int): World {
    var ended := w.p.(observations := w.p.observations - {handle});
    var verifiedAt := if !w.o.stopped && Succeeds(revision, outcome) then outcome.reading else None;
    var landed := w.o.(flight := None, verifiedAt := verifiedAt);
    if w.o.stopped then World(landed, ended)
    else if !armed then World(landed.(verifiedAt := None), ended)
    else
      var timer := ended.nextHandle;
      World(landed.(timer := Some(timer)),
            ended.(timers := ended.timers[timer := at + INTERVAL_MS], nextHandle := timer + 1))
  }

  datatype Event =
    | Start
    | Stop
    | Fire(handle: nat)
    | Finish(handle: nat, outcome: Outcome, armed: bool)

  /** The platform delivers only armed timers and observations in progress. */
  function Step(revision: string, w: World, e: Event, at: int): World {
    match e
    case Start => StartStep(w, at)
    case Stop => StopStep(w)
    case Fire(h) => if h in w.p.timers then FireStep(w, h, at) else w
    case Finish(h, outcome, armed) =>
      if h in w.p.observations then FinishStep(revision, w, h, outcome, armed, at) else w
  }

  // ---- the objects ----

  class Runtime {
    var timers: map<nat, int>
    var observations: map<nat, int>
    var nextHandle: nat

    function Value(): Platform
      reads this
    {
      Platform(timers, observations, nextHandle)
    }

    constructor ()
      ensures Value() == IDLE_PLATFORM
    {
      timers, observations, nextHandle := map[], map[], 0;
    }
  }

  class RecoveryV2LiveObserver {
    const runtime: Runtime
    const revision: string
    var stopped: bool
    var started: bool
    var flight: Option<nat>
    var timer: Option<nat>
    var verifiedAt: Option<int>

    ghost function Value(): World
      reads this, runtime
    {
      World(Observer(stopped, started, flight, timer, verifiedAt), runtime.Value())
    }

    constructor (runtime: Runtime, revision: string)
      ensures this.runtime == runtime && this.revision == revision
      ensures Value() == World(NEW_OBSERVER, runtime.Value())
    {
      this.runtime, this.revision := runtime, revision;
      stopped, started, flight, timer, verifiedAt := false, false, None, None, None;
    }

    method Readiness(reading: Option<int>) returns (ready: bool)
      ensures ready == ReadyAt(Value().o, reading)
    {
      ready := !stopped && verifiedAt.Some? && reading.Some?
      && -MAX_SAFE_INTEGER <= reading.value <= MAX_SAFE_INTEGER
      && reading.value >= verifiedAt.value && reading.value - verifiedAt.value < MAX_AGE_MS;
    }

    method TakeSample(at: int)
      modifies this`flight, runtime
      ensures Value() == Sample(old(Value()), at)
    {
      if stopped || flight.Some? {
        return;
      }
      var handle := runtime.nextHandle;
      runtime.observations := runtime.observations[handle := at];
      runtime.nextHandle := handle + 1;
      flight := Some(handle);
    }

    method StartUp(at: int)
      modifies this`started, this`flight, runtime
      ensures Value() == Step(revision, old(Value()), Start, at)
    {
      if started {
        return;
      }
      started := true;
      TakeSample(at);
    }

    method ShutDown(at: int)
      modifies this`stopped, this`verifiedAt, this`timer, runtime
      ensures Value() == Step(revision, old(Value()), Stop, at)
    {
      stopped, verifiedAt := true, None;
      if timer.Some? {
        runtime.timers := runtime.timers - {timer.value};
      }
      timer := None;
    }

    method OnTimer(handle: nat, at: int)
      requires handle in runtime.timers
      modifies this`timer, this`flight, runtime
      ensures Value() == Step(revision, old(Value()), Fire(handle), at)
    {
      runtime.timers := runtime.timers - {handle};
      timer := None;
      TakeSample(at);
    }

    method OnObserved(handle: nat, outcome: Outcome, armed: bool, at: int)
      requires handle in runtime.observations
      modifies this, runtime
      ensures Value() == Step(revision, old(Value()), Finish(handle, outcome, armed), at)
    {
      runtime.observations := runtime.observations - {handle};
      verifiedAt := if !stopped && Succeeds(revision, outcome) then outcome.reading else None;
      flight := None;
      if !stopped {
        if armed {
          var next := runtime.nextHandle;
          runtime.timers := runtime.timers[next := at + INTERVAL_MS];
          runtime.nextHandle := next + 1;
          timer := Some(next);
        } else {
          verifiedAt := None;
        }
      }
    }
  }

  // ---- runs: any events, in any order, at any readings ----

  datatype Occurrence = Occurrence(event: Event, at: int)

  function StateAt(revision: string, run: seq<Occurrence>, i: nat): World
    requires i <= |run|
  {
    if i == 0 then NEW_WORLD
    else Step(revision, StateAt(revision, run, i - 1), run[i - 1].event, run[i - 1].at)
  }

  /** The observation in progress and the armed timer are the remembered ones, and never both. */
  ghost predicate Inv(w: World) {
    && (forall h | h in w.p.timers :: w.o.timer == Some(h))
    && (forall h | h in w.p.observations :: w.o.flight == Some(h))
    && (w.o.timer.Some? ==> w.o.timer.value in w.p.timers && w.o.flight.None?)
    && (w.o.flight.Some? ==> w.o.flight.value in w.p.observations)
    && (w.o.stopped ==> w.o.verifiedAt.None? && w.o.timer.None?)
    && (!w.o.started ==> w.o.flight.None? && w.o.timer.None? && w.o.verifiedAt.None?)
    && (w.o.verifiedAt.Some? ==> w.o.flight.Some? || w.o.timer.Some?)
  }

  lemma StepKeepsInv(revision: string, w: World, e: Event, at: int)
    requires Inv(w)
    ensures Inv(Step(revision, w, e, at))
  {
    hide Succeeds;
  }

  lemma {:induction false} RunKeepsInv(revision: string, run: seq<Occurrence>, i: nat)
    requires i <= |run|
    ensures Inv(StateAt(revision, run, i))
  {
    hide Step;
    if i > 0 {
      RunKeepsInv(revision, run, i - 1);
      StepKeepsInv(revision, StateAt(revision, run, i - 1), run[i - 1].event, run[i - 1].at);
    }
  }

  /** Samples never overlap, at most one timer is armed, and never beside a sample. */
  lemma NeverOverlaps(revision: string, run: seq<Occurrence>, i: nat)
    requires i <= |run|
    ensures var p := StateAt(revision, run, i).p;
            && (forall g, h | g in p.observations && h in p.observations :: g == h)
            && (forall g, h | g in p.timers && h in p.timers :: g == h)
            && (p.timers == map[] || p.observations == map[])
  {
    RunKeepsInv(revision, run, i);
    var w := StateAt(revision, run, i);
    if h: nat :| h in w.p.timers {
      assert forall g | g in w.p.observations :: false;
      assert w.p.observations == map[];
    } else {
      assert w.p.timers == map[];
    }
  }

  lemma {:induction false} StaysStopped(revision: string, run: seq<Occurrence>, i: nat, j: nat)
    requires i <= j <= |run| && StateAt(revision, run, i).o.stopped
    ensures StateAt(revision, run, j).o.stopped
    ensures forall h | h in StateAt(revision, run, j).p.observations :: h in StateAt(revision, run, i).p.observations
  {
    if i < j {
      StaysStopped(revision, run, i, j - 1);
    }
  }

  /** After stop it is never ready again, whatever a sample in flight reports, and begins no new sample. */
  lemma NeverReadyAfterStop(revision: string, run: seq<Occurrence>, i: nat, j: nat, reading: Option<int>)
    requires i < j <= |run| && run[i].event.Stop?
    ensures !ReadyAt(StateAt(revision, run, j).o, reading) && StateAt(revision, run, j).p.timers == map[]
    ensures forall h | h in StateAt(revision, run, j).p.observations :: h in StateAt(revision, run, i).p.observations
  {
    StaysStopped(revision, run, i + 1, j);
    RunKeepsInv(revision, run, j);
    assert StateAt(revision, run, i + 1).p.observations == StateAt(revision, run, i).p.observations;
  }

  // ---- readiness never lapses while observations succeed in time ----

  /** At this time no timer is five seconds late and no observation has taken longer than its timeout. */
  predicate Prompt(w: World, now: int) {
    && (forall h | h in w.p.timers :: now < w.p.timers[h] + 5000)
    && (forall h | h in w.p.observations :: now <= w.p.observations[h] + TIMEOUT_MS)
  }

  /** Every observation that ends reports the deployment at a sound reading taken as it ends, and re-arms. */
  predicate EndsWell(revision: string, e: Event, at: int) {
    e.Finish? ==> Succeeds(revision, e.outcome) && e.outcome.reading == Some(at) && e.armed
  }

  ghost predicate Healthy(revision: string, run: seq<Occurrence>) {
    && (forall i | 0 <= i < |run| :: !run[i].event.Stop? && EndsWell(revision, run[i].event, run[i].at))
    && (forall i | 0 <= i < |run| :: Prompt(StateAt(revision, run, i), run[i].at))
    && (forall i | 0 < i < |run| :: run[i - 1].at <= run[i].at)
  }

  /** What keeps readiness alive: the pending work began soon enough after the last success. */
  ghost predicate Alive(w: World, now: int) {
    && !w.o.stopped && w.o.verifiedAt.Some? && 0 <= w.o.verifiedAt.value <= now
    && (w.o.timer.Some? && w.o.timer.value in w.p.timers ==>
          w.p.timers[w.o.timer.value] <= w.o.verifiedAt.value + INTERVAL_MS)
    && (w.o.flight.Some? && w.o.flight.value in w.p.observations ==>
          w.p.observations[w.o.flight.value] < w.o.verifiedAt.value + INTERVAL_MS + 5000)
  }

  lemma StepKeepsAlive(revision: string, w: World, e: Event, before: int, at: int)
    requires Inv(w) && Alive(w, before) && before <= at && Prompt(w, at) && !e.Stop? && EndsWell(revision, e, at)
    ensures Alive(Step(revision, w, e, at), at)
  {
  }

  lemma SuccessIsAlive(revision: string, w: World, e: Event, at: int)
    requires Inv(w) && !w.o.stopped && e.Finish? && e.handle in w.p.observations && EndsWell(revision, e, at)
    ensures Alive(Step(revision, w, e, at), at)
  {
  }

  lemma AliveIsReady(w: World, before: int, now: int)
    requires Inv(w) && Alive(w, before) && before <= now && Prompt(w, now) && now <= MAX_SAFE_INTEGER
    ensures ReadyAt(w.o, Some(now))
  {
  }

  lemma {:induction false} AliveAfterSuccess(revision: string, run: seq<Occurrence>, i: nat, j: nat)
    requires i < j <= |run| && Healthy(revision, run)
    requires run[i].event.Finish? && run[i].event.handle in StateAt(revision, run, i).p.observations
    ensures Inv(StateAt(revision, run, j)) && Alive(StateAt(revision, run, j), run[j - 1].at)
    decreases j
  {
    hide Prompt, Inv, Alive, EndsWell, Step;
    RunKeepsInv(revision, run, j);
    RunKeepsInv(revision, run, j - 1);
    if i + 1 < j {
      AliveAfterSuccess(revision, run, i, j - 1);
      StepKeepsAlive(revision, StateAt(revision, run, j - 1), run[j - 1].event, run[j - 2].at, run[j - 1].at);
    } else {
      NotStopped(revision, run, i);
      SuccessIsAlive(revision, StateAt(revision, run, i), run[i].event, run[i].at);
    }
  }

  lemma {:induction false} NotStopped(revision: string, run: seq<Occurrence>, i: nat)
    requires i <= |run| && forall k | 0 <= k < |run| :: !run[k].event.Stop?
    ensures !StateAt(revision, run, i).o.stopped
  {
    if i > 0 {
      NotStopped(revision, run, i - 1);
    }
  }

  /** If observations succeed within 25 seconds and timers are less than five seconds late, then from the
      first success on it is ready at every reading, also between events. */
  lemma ReadinessNeverLapses(revision: string, run: seq<Occurrence>, i: nat, j: nat, now: int)
    requires i < j <= |run| && Healthy(revision, run)
    requires run[i].event.Finish? && run[i].event.handle in StateAt(revision, run, i).p.observations
    requires run[j - 1].at <= now <= MAX_SAFE_INTEGER && Prompt(StateAt(revision, run, j), now)
    ensures ReadyAt(StateAt(revision, run, j).o, Some(now))
  {
    hide Prompt, Healthy;
    AliveAfterSuccess(revision, run, i, j);
    AliveIsReady(StateAt(revision, run, j), run[j - 1].at, now);
  }

  /** Five seconds is the exact slack: a timer fired that late, and then a full-length observation, leave
      a reading at which it is not ready although nothing failed. */
  lemma FiveSecondsLateLapses(revision: string, success: Report)
    requires Verified(revision, success)
    ensures var run := [Occurrence(Start, 0), Occurrence(Finish(0, Outcome(Some(success), Some(0)), true), 0),
                        Occurrence(Fire(1), INTERVAL_MS + 5000)];
            var now := INTERVAL_MS + 5000 + TIMEOUT_MS;
            var w := StateAt(revision, run, 3);
            && w.p.observations == map[2 := INTERVAL_MS + 5000] && now <= w.p.observations[2] + TIMEOUT_MS
            && ReadyAt(w.o, Some(now - 1)) && !ReadyAt(w.o, Some(now))
  {
    hide Verified;
    var run := [Occurrence(Start, 0), Occurrence(Finish(0, Outcome(Some(success), Some(0)), true), 0),
                Occurrence(Fire(1), INTERVAL_MS + 5000)];
    assert StateAt(revision, run, 0) == NEW_WORLD;
    assert StateAt(revision, run, 1) ==
        World(Observer(false, true, Some(0), None, None), Platform(map[], map[0 := 0], 1));
    var w := StateAt(revision, run, 2);
    assert w.o == Observer(false, true, None, Some(1), Some(0));
    assert w.p.timers == map[1 := INTERVAL_MS] && w.p.observations == map[] && w.p.nextHandle == 2;
  }
}
