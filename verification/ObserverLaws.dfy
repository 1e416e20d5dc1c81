/** What every event does to the live observer in any run, and which observation a verified reading comes from. */
module ObserverLaws {
  import opened Wrappers
  import opened Numbers
  import opened LiveObserver

  // ---- which observation verifies ----

  /** The canonical success of the configured revision, seen at a safe reading that is not negative. */
  ghost predicate Verifies(revision: string, outcome: Outcome, ms: int) {
    && outcome.reading == Some(ms) && 0 <= ms <= MAX_SAFE_INTEGER
    && outcome.report == Some(Report(200, true, revision, 102031, "observation-only", "observed", 2,
                                     "CANONICAL_DEPLOYMENT_OBSERVED_PLUS_TWO"))
  }

  lemma SuccessIs(revision: string, outcome: Outcome)
    ensures Succeeds(revision, outcome) <==> exists ms :: Verifies(revision, outcome, ms)
    ensures forall ms :: Verifies(revision, outcome, ms) <==>
                           Succeeds(revision, outcome) && outcome.reading == Some(ms)
  {
    if Succeeds(revision, outcome) { assert Verifies(revision, outcome, outcome.reading.value); }
  }

  /** Ready means less than 45 seconds after the verified reading, not before it, and not stopped. */
  lemma ReadyIs(o: Observer, reading: Option<int>)
    ensures ReadyAt(o, reading) <==>
              && !o.stopped && o.verifiedAt.Some? && reading.Some?
              && -MAX_SAFE_INTEGER <= reading.value <= MAX_SAFE_INTEGER
              && 0 <= reading.value - o.verifiedAt.value < 45000
  {
  }

  // ---- one event of a run ----

  ghost predicate BeginsSample(w: World, t: World, at: int) {
    && w.p.observations == map[] && t.o.flight.Some? && t.p.observations == map[t.o.flight.value := at]
    && t.o.timer == None && t.p.timers == map[]
  }

  /** Start begins the first sample, once; a stopped observer only remembers that it was started. */
  lemma StartIs(revision: string, run: seq<Occurrence>, i: nat)
    requires i < |run| && run[i].event == Start
    ensures var w, t := StateAt(revision, run, i), StateAt(revision, run, i + 1);
            if w.o.started then t == w
            else
              && t.o.started && t.o.stopped == w.o.stopped && t.o.verifiedAt == None
              && if w.o.stopped then t.p == w.p else BeginsSample(w, t, run[i].at)
  {
    RunKeepsInv(revision, run, i);
    var w := StateAt(revision, run, i);
    assert StateAt(revision, run, i + 1) == Step(revision, w, Start, run[i].at);
    if !w.o.started { assert w.p.timers == map[] && w.p.observations == map[]; }
  }

  /** Stop forgets the verified reading and cancels the timer; a sample in progress goes on. */
  lemma StopIs(revision: string, run: seq<Occurrence>, i: nat)
    requires i < |run| && run[i].event == Stop
    ensures var w, t := StateAt(revision, run, i), StateAt(revision, run, i + 1);
            && t.o == Observer(true, w.o.started, w.o.flight, None, None)
            && t.p.timers == map[] && t.p.observations == w.p.observations
  {
    RunKeepsInv(revision, run, i);
    var w := StateAt(revision, run, i);
    assert StateAt(revision, run, i + 1) == Step(revision, w, Stop, run[i].at);
    assert forall h | h in w.p.timers :: w.o.timer == Some(h);
  }

  /** A firing timer is forgotten and begins the next sample; the verified reading stays. */
  lemma FiringIs(revision: string, run: seq<Occurrence>, i: nat, h: nat)
    requires i < |run| && run[i].event == Fire(h) && h in StateAt(revision, run, i).p.timers
    ensures var w, t := StateAt(revision, run, i), StateAt(revision, run, i + 1);
            && BeginsSample(w, t, run[i].at) && t.o.verifiedAt == w.o.verifiedAt
            && !t.o.stopped && !w.o.stopped && t.o.started == w.o.started
  {
    RunKeepsInv(revision, run, i);
    var w := StateAt(revision, run, i);
    assert StateAt(revision, run, i + 1) == Step(revision, w, Fire(h), run[i].at);
    assert w.o.timer == Some(h) && w.p.timers - {h} == map[] && w.p.observations == map[];
  }

  /** The end of a sample sets the verified reading to that of a canonical success, or forgets it; unless stopped
      it arms the next sample 15 seconds later, and forgets the reading when that fails. */
  lemma FinishIs(revision: string, run: seq<Occurrence>, i: nat, h: nat, outcome: Outcome, armed: bool)
    requires i < |run| && run[i].event == Finish(h, outcome, armed)
    requires h in StateAt(revision, run, i).p.observations
    ensures var w, t := StateAt(revision, run, i), StateAt(revision, run, i + 1);
            && t.o.flight == None && t.p.observations == map[]
            && t.o.started == w.o.started && t.o.stopped == w.o.stopped
            && (forall ms :: t.o.verifiedAt == Some(ms) <==>
                               !w.o.stopped && armed && Verifies(revision, outcome, ms))
            && if w.o.stopped || !armed then t.o.timer == None && t.p.timers == map[]
               else t.o.timer.Some? && t.p.timers == map[t.o.timer.value := run[i].at + 15000]
  {
    SuccessIs(revision, outcome);
    hide Succeeds, Verifies;
    RunKeepsInv(revision, run, i);
    var w := StateAt(revision, run, i);
    assert StateAt(revision, run, i + 1) == Step(revision, w, Finish(h, outcome, armed), run[i].at);
    assert w.o.flight == Some(h) && w.p.observations - {h} == map[] && w.p.timers == map[] && w.o.timer == None;
    if Succeeds(revision, outcome) {
      var ms :| Verifies(revision, outcome, ms);
    }
  }

  lemma UndeliveredIs(revision: string, run: seq<Occurrence>, i: nat)
    requires i < |run|
    requires match run[i].event
             case Fire(h) => h !in StateAt(revision, run, i).p.timers
             case Finish(h, _, _) => h !in StateAt(revision, run, i).p.observations
             case _ => false
    ensures StateAt(revision, run, i + 1) == StateAt(revision, run, i)
  {
  }

  // ---- where a verified reading comes from ----

  /** Event i ends the sample in progress. */
  ghost predicate EndsSample(revision: string, run: seq<Occurrence>, i: nat)
    requires i < |run|
  {
    run[i].event.Finish? && run[i].event.handle in StateAt(revision, run, i).p.observations
  }

  ghost predicate VerifiesAt(revision: string, run: seq<Occurrence>, i: nat, ms: int)
    requires i < |run|
  {
    && EndsSample(revision, run, i) && run[i].event.armed && !StateAt(revision, run, i).o.stopped
    && Verifies(revision, run[i].event.outcome, ms)
  }

  /** No sample ends and no stop comes among these events. */
  ghost predicate Quiet(revision: string, run: seq<Occurrence>, from: nat, to: nat)
    requires to <= |run|
  {
    forall k | from <= k < to :: run[k].event != Stop && !EndsSample(revision, run, k)
  }

  lemma VerifiedStep(revision: string, run: seq<Occurrence>, i: nat, ms: int)
    requires i < |run|
    ensures StateAt(revision, run, i + 1).o.verifiedAt == Some(ms) <==>
              || VerifiesAt(revision, run, i, ms)
              || (StateAt(revision, run, i).o.verifiedAt == Some(ms) && run[i].event != Stop
                  && !EndsSample(revision, run, i))
  {
    hide Step, Verifies;
    RunKeepsInv(revision, run, i);
    match run[i].event
    case Start => StartIs(revision, run, i);
    case Stop => StopIs(revision, run, i);
    case Fire(h) =>
      if h in StateAt(revision, run, i).p.timers { FiringIs(revision, run, i, h); }
      else { UndeliveredIs(revision, run, i); }
    case Finish(h, outcome, armed) =>
      if h in StateAt(revision, run, i).p.observations { FinishIs(revision, run, i, h, outcome, armed); }
      else { UndeliveredIs(revision, run, i); }
  }

  /** The verified reading of every state of a run is that of the last sample that ended, if that was a canonical
      success whose next timer was armed, and no stop came before or since. */
  lemma {:induction false} VerifiedIff(revision: string, run: seq<Occurrence>, n: nat, ms: int)
    requires n <= |run|
    ensures StateAt(revision, run, n).o.verifiedAt == Some(ms) <==>
              exists i: nat | i < n :: VerifiesAt(revision, run, i, ms) && Quiet(revision, run, i + 1, n)
  {
    hide Step, VerifiesAt, EndsSample;
    if n > 0 {
      VerifiedIff(revision, run, n - 1, ms);
      VerifiedStep(revision, run, n - 1, ms);
      assert Quiet(revision, run, n, n);
    }
  }
}
