/** What every event does to a startup lifecycle in any run, and which events make it ready or failed. */
module StartupLaws {
  import opened Wrappers
  import opened Text
  import opened StartupErrors
  import opened StartupLifecycle

  // ---- which errors are retried ----

  /** Nothing but a wrapper, or an object without a code that is not a worker error: its cause decides. */
  ghost predicate AsksItsCause(e: ErrorValue) {
    e.code in {"RECOVERY_MISCONFIGURED", "RECOVERY_STATE_UNAVAILABLE"} || (e.code == "" && !e.worker)
  }

  /** A transport failure, a network error other than a changed chain, or a server that answered 429 or 5xx,
      unless it is one of the service's own errors. */
  ghost predicate IsOutage(e: ErrorValue) {
    && !e.worker
    && (|| e.code in {"TIMEOUT", "ECONNRESET", "ECONNREFUSED", "ETIMEDOUT", "EAI_AGAIN", "ENETUNREACH", "EHOSTUNREACH",
                      "UND_ERR_CONNECT_TIMEOUT", "UND_ERR_SOCKET", "UND_ERR_HEADERS_TIMEOUT", "UND_ERR_BODY_TIMEOUT"}
        || (e.code == "NETWORK_ERROR" && e.event != "changed")
        || (e.code == "SERVER_ERROR"
            && exists status: nat :: StatusOf(e, status) && (status == 429 || 500 <= status <= 599)))
  }

  /** The recorded status code, or the number the status text begins with, alone or before a space. */
  ghost predicate StatusOf(e: ErrorValue, status: nat) {
    if e.statusCode.Some? then e.statusCode.value == status
    else
      var text := Decimal(status);
      text <= e.info && |text| == 3 && (|e.info| == 3 || e.info[3] == ' ')
  }

  lemma ThreeDigits(s: string)
    requires |s| == 3 && forall i | 0 <= i < 3 :: '0' <= s[i] <= '9'
    ensures var a, b, c := s[0] as nat - '0' as nat, s[1] as nat - '0' as nat, s[2] as nat - '0' as nat;
            ParseDecimal(s) == 100 * a + 10 * b + c && s == [Digit(a), Digit(b), Digit(c)]
  {
    var t, u := s[..2], s[..1];
    assert t[..1] == u && u[..0] == "";
    assert ParseDecimal(u) == s[0] as nat - '0' as nat;
    assert ParseDecimal(t) == 10 * ParseDecimal(u) + (s[1] as nat - '0' as nat);
  }

  lemma PrintThreeDigits(a: nat, b: nat, c: nat)
    requires 0 < a < 10 && b < 10 && c < 10
    ensures Decimal(100 * a + 10 * b + c) == [Digit(a), Digit(b), Digit(c)]
  {
    hide Decimal;
    PrintDigit(10 * a + b, c);
    PrintDigit(a, b);
    assert Decimal(a) == [Digit(a)] by { OneDigit(a); }
  }

  lemma PrintDigit(n: nat, d: nat)
    requires 0 < n && d < 10
    ensures Decimal(10 * n + d) == Decimal(n) + [Digit(d)]
  {
    var m := 10 * n + d;
    assert m / 10 == n && m % 10 == d;
  }

  lemma OneDigit(d: nat)
    requires d < 10
    ensures Decimal(d) == [Digit(d)]
  {
  }

  /** The pattern match reads a status of three digits exactly when the text begins with its decimal form. */
  lemma LeadingIs(s: string, status: nat)
    requires 100 <= status
    ensures LeadingStatus(s) == Some(status) <==>
              Decimal(status) <= s && |Decimal(status)| == 3 && (|s| == 3 || s[3] == ' ')
  {
    hide ParseDecimal, Decimal;
    if LeadingStatus(s).Some? {
      ThreeDigits(s[..3]);
      var a, b, c := s[0] as nat - '0' as nat, s[1] as nat - '0' as nat, s[2] as nat - '0' as nat;
      if a > 0 { PrintThreeDigits(a, b, c); }
    }
    DecimalRoundTrip(status);
    if Decimal(status) <= s && |Decimal(status)| == 3 {
      assert s[..3] == Decimal(status);
    }
  }

  lemma OutageIff(e: ErrorValue)
    ensures IsServerOutage(e) <==> exists status: nat :: StatusOf(e, status) && (status == 429 || 500 <= status <= 599)
  {
    hide ParseDecimal, Decimal, LeadingStatus;
    if IsServerOutage(e) {
      var status: nat := if e.statusCode.Some? then e.statusCode.value else LeadingStatus(e.info).value;
      LeadingIs(e.info, status);
      assert StatusOf(e, status);
    }
    forall status: nat | StatusOf(e, status) && (status == 429 || 500 <= status <= 599) ensures IsServerOutage(e) {
      LeadingIs(e.info, status);
    }
  }

  /** What an error object decides by itself. */
  lemma VerdictIs(e: ErrorValue)
    ensures Verdict(e) == if AsksItsCause(e) then None else Some(IsOutage(e))
  {
    OutageIff(e);
    hide IsServerOutage, StatusOf;
  }

  /** Each object of the chain is the cause of the one before it. */
  ghost predicate IsChain(heap: Heap, error: Option<nat>, chain: seq<nat>) {
    && 1 <= |chain| && error == Some(chain[0]) && (forall k | 0 <= k < |chain| :: chain[k] in heap)
    && (forall k | 0 <= k < |chain| - 1 :: heap[chain[k]].cause == Some(chain[k + 1]))
  }

  /** At most four objects that leave the decision to their cause, and then an outage. */
  ghost predicate LeadsToOutage(heap: Heap, error: Option<nat>, chain: seq<nat>) {
    && IsChain(heap, error, chain) && |chain| <= 5 && IsOutage(heap[chain[|chain| - 1]])
    && (forall k | 0 <= k < |chain| - 1 :: AsksItsCause(heap[chain[k]]))
  }

  lemma {:induction false} ChainIsCauses(heap: Heap, error: Option<nat>, chain: seq<nat>, k: nat)
    requires IsChain(heap, error, chain) && k < |chain|
    ensures CauseAt(heap, error, k) == Some(chain[k])
  {
    if k > 0 {
      ChainIsCauses(heap, error, chain, k - 1);
      CauseStep(heap, error, k - 1);
    }
  }

  lemma {:induction false} CausesAreChain(heap: Heap, error: Option<nat>, n: nat) returns (chain: seq<nat>)
    requires CauseAt(heap, error, n).Some?
    ensures IsChain(heap, error, chain) && |chain| == n + 1
  {
    CauseStep(heap, error, n);
    if n == 0 {
      chain := [error.value];
    } else {
      CauseStep(heap, error, n - 1);
      chain := CausesAreChain(heap, error, n - 1);
      ChainIsCauses(heap, error, chain, n - 1);
      chain := chain + [CauseAt(heap, error, n).value];
    }
  }

  /** An error is retried exactly when its cause chain leads to an outage within five objects. */
  lemma RetryableIff(heap: Heap, error: Option<nat>)
    ensures Retryable(heap, error) <==> exists chain :: LeadsToOutage(heap, error, chain)
  {
    hide CauseAt, Verdict, IsOutage, AsksItsCause;
    if Retryable(heap, error) {
      var d :| 0 <= d < MAX_DEPTH && ApprovedFirstAt(heap, error, d);
      var chain := CausesAreChain(heap, error, d);
      forall k | 0 <= k <= d ensures CauseAt(heap, error, k) == Some(chain[k]) {
        ChainIsCauses(heap, error, chain, k);
      }
      forall k | 0 <= k < d ensures AsksItsCause(heap[chain[k]]) {
        assert PassesOn(heap, error, k);
        VerdictIs(heap[chain[k]]);
      }
      VerdictIs(heap[chain[d]]);
      assert LeadsToOutage(heap, error, chain);
    }
    if exists chain :: LeadsToOutage(heap, error, chain) {
      var chain :| LeadsToOutage(heap, error, chain);
      var d := |chain| - 1;
      forall k | 0 <= k <= d ensures CauseAt(heap, error, k) == Some(chain[k]) {
        ChainIsCauses(heap, error, chain, k);
      }
      forall k | 0 <= k < d ensures PassesOn(heap, error, k) { VerdictIs(heap[chain[k]]); }
      VerdictIs(heap[chain[d]]);
      OutageAsksNobody(heap[chain[d]]);
      assert ApprovedFirstAt(heap, error, d);
    }
  }

  lemma OutageAsksNobody(e: ErrorValue)
    ensures !(IsOutage(e) && AsksItsCause(e))
  {
  }

  // ---- one event of a run ----

  /** The armed timers are this one alone, and it is the remembered one. */
  ghost predicate ArmedOnly(w: World, action: Action, due: int) {
    w.life.timer.Some? && w.loop.timers == map[w.life.timer.value := Timer(action, due)]
  }

  ghost predicate NothingArmed(w: World) { w.life.timer == None && w.loop.timers == map[] }

  /** A new attempt: one more, guarded for a minute, with one call queued under a generation of its own. */
  ghost predicate Begins(w: World, t: World, at: int) {
    && t.life.attempts == w.life.attempts + 1 && t.life.generation == w.life.generation + 1
    && t.life.phase.Waking? && t.life.failure == w.life.failure && t.life.stopped == w.life.stopped
    && ArmedOnly(t, Watchdog, at + 60000)
    && t.loop.queued == {t.life.generation} && t.loop.running == {}
  }

  /** Failed for this reason, with no timer, every outstanding call and microtask overtaken. */
  ghost predicate FailsAs(w: World, t: World, reason: Failure) {
    && t.life.phase.Failed? && t.life.failure == Some(reason) && NothingArmed(t)
    && t.life.generation == w.life.generation + 1 && t.life.attempts == w.life.attempts
    && t.loop.queued <= w.loop.queued && t.loop.running <= w.loop.running
  }

  /** The delay after this many attempts. */
  ghost function DelayAfter(attempts: nat): int {
    if attempts == 1 then 15000 else if attempts == 2 then 30000 else 60000
  }

  /** Start begins the first attempt, once, unless stop came first. */
  lemma StartIs(run: seq<Occurrence>, i: nat)
    requires i < |run| && run[i].event == Start
    ensures var w, t := StateAt(run, i), StateAt(run, i + 1);
            if w.life.started || w.life.stopped then t == w
            else Begins(w, t, run[i].at) && t.life.started && t.life.attempts == 1
  {
    RunKeepsInv(run, i);
    var w := StateAt(run, i);
    assert StateAt(run, i + 1) == Step(w, Start, run[i].at);
    if !w.life.started && !w.life.stopped { assert w.loop.timers == map[]; }
  }

  /** Stop fails the lifecycle from every state, whatever it was. */
  lemma StopIs(run: seq<Occurrence>, i: nat)
    requires i < |run| && run[i].event == Stop
    ensures var w, t := StateAt(run, i), StateAt(run, i + 1);
            && FailsAs(w, t, Stopped) && t.life.stopped && t.life.started == w.life.started
            && t.loop.queued == w.loop.queued && t.loop.running == w.loop.running
  {
    RunKeepsInv(run, i);
    var w := StateAt(run, i);
    ClearTimerClears(w.(life := w.life.(stopped := true)));
    assert StateAt(run, i + 1) == Step(w, Stop, run[i].at);
  }

  /** A microtask of a waking lifecycle is that of its only attempt and calls readiness; any other calls
      nothing. */
  lemma MicrotaskIs(run: seq<Occurrence>, i: nat, g: nat)
    requires i < |run| && run[i].event == Microtask(g) && g in StateAt(run, i).loop.queued
    ensures var w, t := StateAt(run, i), StateAt(run, i + 1);
            && w.loop.queued == {g} && w.loop.running == {}
            && t == World(w.life, w.loop.(queued := {}, running := if w.life.phase.Waking? then {g} else {}))
  {
    hide Retryable;
    RunKeepsInv(run, i);
    var w := StateAt(run, i);
    assert StateAt(run, i + 1) == Step(w, Microtask(g), run[i].at);
    assert g in w.loop.queued + w.loop.running;
    assert forall x | x in w.loop.queued || x in w.loop.running :: x in w.loop.queued + w.loop.running;
    assert w.loop.queued == {g} && w.loop.running == {};
    assert w.loop.queued - {g} == {};
    OutstandingIsCurrent(w, g);
  }

  /** What is outstanding belongs to the current attempt exactly while the lifecycle is waking. */
  lemma OutstandingIsCurrent(w: World, g: nat)
    requires Inv(w) && (g in w.loop.queued || g in w.loop.running)
    ensures Current(w, g) <==> w.life.phase.Waking?
  {
    assert g in w.loop.queued + w.loop.running;
  }

  /** A settlement reaches a waking lifecycle only from its own call. Success makes it ready, with no failure
      and no timer; a retryable rejection with fewer than five attempts made keeps it waking with the next delay
      armed; any other rejection fails it. Of a lifecycle no longer waking it changes nothing but the call. */
  lemma SettlementIs(run: seq<Occurrence>, i: nat, g: nat, outcome: Outcome)
    requires i < |run| && run[i].event == Settle(g, outcome) && g in StateAt(run, i).loop.running
    ensures var w, t := StateAt(run, i), StateAt(run, i + 1);
            && w.loop.running == {g} && w.loop.queued == {} && t.loop.running == {} && t.loop.queued == {}
            && if !w.life.phase.Waking? then t.life == w.life && t.loop.timers == w.loop.timers
               else
                 && t.life.attempts == w.life.attempts && t.life.stopped == w.life.stopped
                 && t.life.started == w.life.started
                 && match outcome
                    case Succeeded => t.life.phase.Ready? && t.life.failure == None && NothingArmed(t)
                    case Rejection(heap, error) =>
                      if (exists chain :: LeadsToOutage(heap, error, chain)) && w.life.attempts < 5 then
                        && t.life.phase.Waking? && t.life.failure == w.life.failure
                        && ArmedOnly(t, Retry, run[i].at + DelayAfter(w.life.attempts))
                      else FailsAs(w, t, Rejected(heap, error))
  {
    hide Retryable, LeadsToOutage;
    if outcome.Rejection? { RetryableIff(outcome.heap, outcome.error); }
    RunKeepsInv(run, i);
    var w := StateAt(run, i);
    assert g in w.loop.queued + w.loop.running;
    assert forall x | x in w.loop.queued || x in w.loop.running :: x in w.loop.queued + w.loop.running;
    assert w.loop.running == {g} && w.loop.queued == {};
    OutstandingIsCurrent(w, g);
    SettledLeaves(w, g, outcome, run[i].at);
    assert StateAt(run, i + 1) == Step(w, Settle(g, outcome), run[i].at);
  }

  lemma SettledLeaves(w: World, g: nat, outcome: Outcome, at: int)
    requires Inv(w) && w.loop.running == {g} && w.loop.queued == {}
    ensures var t := SettleStep(w, g, outcome, at);
            && t.loop.running == {} && t.loop.queued == {}
            && if !Current(w, g) then t.life == w.life && t.loop.timers == w.loop.timers
               else
                 && t.life.attempts == w.life.attempts && t.life.stopped == w.life.stopped
                 && t.life.started == w.life.started
                 && match outcome
                    case Succeeded => t.life.phase.Ready? && t.life.failure == None && NothingArmed(t)
                    case Rejection(heap, error) =>
                      if Retryable(heap, error) && w.life.attempts < 5 then
                        && t.life.phase.Waking? && t.life.failure == w.life.failure
                        && ArmedOnly(t, Retry, at + DelayAfter(w.life.attempts))
                      else FailsAs(w, t, Rejected(heap, error))
  {
    hide Retryable;
    var settled := w.(loop := w.loop.(running := w.loop.running - {g}));
    assert settled.loop.running == {};
    if Current(w, g) {
      assert g in w.loop.queued + w.loop.running;
      ClearTimerClears(settled);
      assert w.life.attempts > 0;
    }
  }

  /** A watchdog that fires fails the lifecycle as timed out; a retry that fires begins the next attempt. */
  lemma FiringIs(run: seq<Occurrence>, i: nat, h: nat)
    requires i < |run| && run[i].event == Fire(h) && h in StateAt(run, i).loop.timers
    ensures var w, t := StateAt(run, i), StateAt(run, i + 1);
            if w.loop.timers[h].action.Watchdog? then FailsAs(w, t, TimedOut) && !t.life.stopped
            else Begins(w, t, run[i].at)
  {
    RunKeepsInv(run, i);
    var w := StateAt(run, i);
    assert StateAt(run, i + 1) == Step(w, Fire(h), run[i].at);
    assert w.loop.timers - {h} == map[];
    assert w.life.timer == Some(h);
  }

  /** What the platform does not hold is not delivered. */
  lemma UndeliveredIs(run: seq<Occurrence>, i: nat)
    requires i < |run|
    requires match run[i].event
             case Microtask(g) => g !in StateAt(run, i).loop.queued
             case Settle(g, _) => g !in StateAt(run, i).loop.running
             case Fire(h) => h !in StateAt(run, i).loop.timers
             case _ => false
    ensures StateAt(run, i + 1) == StateAt(run, i)
  {
  }

  // ---- which events decide ----

  /** Event i is the success of the call in progress of a waking lifecycle. */
  ghost predicate SucceedsAt(run: seq<Occurrence>, i: nat)
    requires i < |run|
  {
    var w, e := StateAt(run, i), run[i].event;
    e.Settle? && e.outcome.Succeeded? && e.generation in w.loop.running && w.life.phase.Waking?
  }

  /** Event i is a stop, a watchdog, or a rejection that is not an outage or is that of the fifth attempt. */
  ghost predicate FailsAt(run: seq<Occurrence>, i: nat, reason: Failure)
    requires i < |run|
  {
    var w := StateAt(run, i);
    match run[i].event
    case Start => false
    case Stop => reason == Stopped
    case Microtask(_) => false
    case Settle(g, outcome) =>
      && g in w.loop.running && w.life.phase.Waking? && outcome.Rejection?
      && reason == Rejected(outcome.heap, outcome.error)
      && (w.life.attempts >= 5 || forall chain :: !LeadsToOutage(outcome.heap, outcome.error, chain))
    case Fire(h) => h in w.loop.timers && w.loop.timers[h].action.Watchdog? && reason == TimedOut
  }

  ghost predicate NoStop(run: seq<Occurrence>, from: nat, to: nat)
    requires to <= |run|
  {
    forall k | from <= k < to :: run[k].event != Stop
  }

  ghost predicate FailureKnown(w: World) { w.life.phase.Failed? <==> w.life.failure.Some? }

  lemma DecidingEvent(run: seq<Occurrence>, i: nat, reason: Failure)
    requires i < |run| && FailureKnown(StateAt(run, i))
    ensures var w, t, stop := StateAt(run, i), StateAt(run, i + 1), run[i].event == Stop;
            && FailureKnown(t)
            && (t.life.phase.Ready? <==> SucceedsAt(run, i) || (w.life.phase.Ready? && !stop))
            && (t.life.failure == Some(reason) <==>
                  FailsAt(run, i, reason) || (w.life.failure == Some(reason) && !stop))
  {
    hide Step, LeadsToOutage;
    RunKeepsInv(run, i);
    var w := StateAt(run, i);
    match run[i].event
    case Start =>
      StartIs(run, i);
    case Stop => StopIs(run, i);
    case Microtask(g) => if g in w.loop.queued { MicrotaskIs(run, i, g); } else { UndeliveredIs(run, i); }
    case Settle(g, outcome) =>
      if g in w.loop.running { SettlementIs(run, i, g, outcome); } else { UndeliveredIs(run, i); }
    case Fire(h) => if h in w.loop.timers { FiringIs(run, i, h); } else { UndeliveredIs(run, i); }
  }

  /** Ready exactly when the call in progress of the waking lifecycle succeeded and no stop followed. */
  lemma {:induction false} ReadyIff(run: seq<Occurrence>, n: nat)
    requires n <= |run|
    ensures FailureKnown(StateAt(run, n))
    ensures StateAt(run, n).life.phase.Ready? <==>
              exists i: nat | i < n :: SucceedsAt(run, i) && NoStop(run, i + 1, n)
  {
    hide Step, SucceedsAt, FailsAt;
    if n > 0 {
      ReadyIff(run, n - 1);
      DecidingEvent(run, n - 1, Stopped);
      assert NoStop(run, n, n);
    }
  }

  /** Failed for a reason exactly when an event of that kind occurred and, unless the reason is the stop, no stop
      followed; and there is a reason exactly when it failed. */
  lemma {:induction false} FailureIff(run: seq<Occurrence>, n: nat, reason: Failure)
    requires n <= |run|
    ensures StateAt(run, n).life.failure == Some(reason) <==>
              exists i: nat | i < n ::
                FailsAt(run, i, reason) && (reason.Stopped? || NoStop(run, i + 1, n))
    ensures FailureKnown(StateAt(run, n))
  {
    hide Step, FailsAt, SucceedsAt;
    if n > 0 {
      FailureIff(run, n - 1, reason);
      DecidingEvent(run, n - 1, reason);
      if run[n - 1].event == Stop { StopFails(run, n - 1, reason); }
      assert NoStop(run, n, n);
    }
  }

  lemma StopFails(run: seq<Occurrence>, i: nat, reason: Failure)
    requires i < |run| && run[i].event == Stop
    ensures FailsAt(run, i, reason) <==> reason == Stopped
  {
  }
}
