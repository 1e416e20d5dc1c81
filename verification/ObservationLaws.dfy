/** What the observation cache keeps, stores and answers, said of the observer's own responses, the stored
    value and the readings alone. */
module ObservationLaws {
  import opened Wrappers
  import opened Numbers
  import opened ObservationCache
  import opened ObservationRuns
  import opened ObservationReplies

  // ---- the two canonical observations ----

  ghost predicate Observes(v: RecoveryV2) {
    && v.mode == "observation-only" && v.publicProfile == "v1" && v.state == "observed"
    && v.reason == "CANONICAL_DEPLOYMENT_OBSERVED_PLUS_TWO" && v.observers == Some(2)
  }

  ghost predicate Blocks(v: RecoveryV2) {
    && v.mode == "observation-only" && v.publicProfile == "v1" && v.state == "blocked"
    && v.reason == "RECOVERY_V2_OBSERVATION_FAILED" && v.observers == None
  }

  /** A status with the observation that belongs to it. */
  ghost predicate Canonical(status: int, ok: bool, v: RecoveryV2) {
    (status == 200 && ok && Observes(v)) || (status == 503 && !ok && Blocks(v))
  }

  /** The observer returned one of the two canonical responses of this service. */
  ghost predicate Kept(result: Option<Response>) {
    && result.Some? && result.value.body.service == "retrycredit" && result.value.body.network == 102031
    && Canonical(result.value.status, result.value.body.ok, result.value.body.recoveryV2)
  }

  /** A response of this configuration, with the revision of whoever answers. */
  ghost predicate Answers(cfg: Config, r: Response, status: int, ok: bool, v: RecoveryV2) {
    r.status == status && r.body == Body(ok, "retrycredit", 102031, v, cfg.revision)
  }

  ghost predicate IsUnavailable(cfg: Config, r: Response) {
    exists v :: Blocks(v) && Answers(cfg, r, 503, false, v)
  }

  lemma OkIsCanonical(status: int, value: Observed)
    ensures ObservationOk(status, value) <==> Canonical(status, value.ok, value.recoveryV2)
  {
  }

  lemma UnavailableIs(cfg: Config)
    ensures IsUnavailable(cfg, Unavailable(cfg))
  {
    assert Blocks(BLOCKED);
  }

  // ---- one step ----

  /** The end of an observation: a kept response goes on to the commit unchanged, anything else decides the
      flight as unavailable. */
  lemma ObserveAnswer(cfg: Config, i: Instance, result: Option<Response>, ms: int)
    requires i.flight.Observing?
    ensures var j := ObserveStep(cfg, i, result, ms);
            && j.memory == i.memory
            && if Kept(result) then
                 j.flight == Committing(i.flight.lease, result.value.status,
                                        Observed(result.value.body.ok, result.value.body.recoveryV2))
               else j.flight.Decided? && j.flight.decidedAtMs == ms && IsUnavailable(cfg, j.flight.response)
  {
    UnavailableIs(cfg);
    if result.Some? {
      OkIsCanonical(result.value.status, Observed(result.value.body.ok, result.value.body.recoveryV2));
    }
    hide ObservationOk, Canonical, Unavailable;
  }

  /** An unexpired snapshot. */
  ghost predicate Fresh(s: State, ms: int) { s.snapshot.Some? && ms < s.snapshot.value.expiresAtMs }

  /** A read without a clock forgets the memory and is unavailable; otherwise it joins the flight under way, or
      answers the remembered unexpired snapshot, or is unavailable before the next probe, or starts a flight. */
  lemma ReadAnswerIs(cfg: Config, i: Instance, ms: int)
    ensures var (j, answer) := ReadStep(cfg, i, ms);
            var clock, m := 0 <= ms <= MAX_SAFE_INTEGER, i.memory;
            && j == (if !clock then Instance(None, i.flight)
                     else if answer.Started? then Instance(m, Starting) else i)
            && (answer.Joined? <==> clock && !i.flight.Idle?)
            && (answer.Started? <==>
                  clock && i.flight.Idle? && (m.Some? ==> !Fresh(m.value, ms) && m.value.nextProbeAtMs <= ms))
            && (answer.Now? ==>
                  if clock && m.Some? && Fresh(m.value, ms) then
                    var sn := m.value.snapshot.value;
                    Answers(cfg, answer.response, sn.status, sn.value.ok, sn.value.recoveryV2)
                  else IsUnavailable(cfg, answer.response))
  {
    UnavailableIs(cfg);
    hide Blocks, Unavailable;
  }

  /** The stored value of this identity's own record, if it is one. */
  ghost predicate Own(cfg: Config, stored: Stored) { stored.Present? && stored.state.identity == cfg.identity }

  /** A stored value that a transaction goes on with: nothing, a sound record of another identity, or an own
      record at most a time to live ahead whose snapshot, if any, is canonical and not from the future. */
  ghost predicate Usable(cfg: Config, stored: Stored, ms: int) {
    && !stored.Unreadable?
    && (stored.Present? ==>
          var s := stored.state;
          && s.version == 1 && 1 <= |s.identity| <= 8320 && 0 <= s.nextProbeAtMs <= MAX_SAFE_INTEGER
          && (s.identity == cfg.identity ==>
                && s.nextProbeAtMs - ms <= cfg.ttlMs
                && (s.snapshot.Some? ==>
                      var sn := s.snapshot.value;
                      && 0 <= sn.checkedAtMs <= ms && sn.checkedAtMs <= sn.expiresAtMs == s.nextProbeAtMs
                      && sn.checkedAtMs <= MAX_SAFE_INTEGER
                      && Canonical(sn.status, sn.value.ok, sn.value.recoveryV2))))
  }

  lemma StateIs(cfg: Config, stored: Stored, ms: int)
    ensures var r := NormalizeState(cfg, stored, ms);
            && (r.Some? <==> Usable(cfg, stored, ms))
            && (r.Some? ==> r.value == if Own(cfg, stored) then stored.state else State(1, cfg.identity, 0, None))
  {
    if stored.Present? && stored.state.snapshot.Some? {
      OkIsCanonical(stored.state.snapshot.value.status, stored.state.snapshot.value.value);
    }
    hide ObservationOk, Canonical;
  }

  /** The lease transaction: what it needs to grant the lease, what it writes then, and what it decides
      otherwise. */
  lemma LeaseAnswer(cfg: Config, stored: Stored, i: Instance, ms: int, fails: bool)
    requires i.flight.Starting?
    ensures var (t, j) := LeaseStep(cfg, stored, i, ms, fails);
            var works := !fails && 0 <= ms <= MAX_SAFE_INTEGER && Usable(cfg, stored, ms);
            var own := Own(cfg, stored);
            var lease := State(1, cfg.identity, ms + cfg.ttlMs, None);
            var due := own ==> !Fresh(stored.state, ms) && stored.state.nextProbeAtMs <= ms;
            if works && due && ms + cfg.ttlMs <= MAX_SAFE_INTEGER then
              t == Present(lease) && j == Instance(Some(lease), Observing(lease))
            else
              && t == stored && j.flight.Decided? && j.flight.decidedAtMs == ms
              && j.memory == (if !works || due then None else Some(stored.state))
              && if works && own && Fresh(stored.state, ms) then
                   var sn := stored.state.snapshot.value;
                   Answers(cfg, j.flight.response, sn.status, sn.value.ok, sn.value.recoveryV2)
                 else IsUnavailable(cfg, j.flight.response)
  {
    UnavailableIs(cfg);
    StateIs(cfg, stored, ms);
    hide NormalizeState, Usable, Blocks, Unavailable;
  }

  /** The commit transaction: it stores and answers its observation exactly when it finds a usable record of
      its own with the lease's next probe and no snapshot. */
  lemma CommitAnswer(cfg: Config, stored: Stored, i: Instance, ms: int, fails: bool)
    requires i.flight.Committing? && i.flight.lease.nextProbeAtMs > 0
    ensures var (t, j) := CommitStep(cfg, stored, i, ms, fails);
            var (status, value) := (i.flight.status, i.flight.value);
            if && !fails && 0 <= ms && ms + cfg.ttlMs <= MAX_SAFE_INTEGER && ms <= MAX_SAFE_INTEGER
               && Usable(cfg, stored, ms) && Own(cfg, stored)
               && stored.state.nextProbeAtMs == i.flight.lease.nextProbeAtMs && stored.state.snapshot.None?
            then
              && t == Present(State(1, cfg.identity, ms + cfg.ttlMs,
                                    Some(Snapshot(ms, ms + cfg.ttlMs, status, value))))
              && j.memory == Some(t.state) && j.flight.Decided? && j.flight.decidedAtMs == ms
              && Answers(cfg, j.flight.response, status, value.ok, value.recoveryV2)
            else
              && t == stored && j.memory == Some(i.flight.lease) && j.flight.Decided? && j.flight.decidedAtMs == ms
              && IsUnavailable(cfg, j.flight.response)
  {
    UnavailableIs(cfg);
    StateIs(cfg, stored, ms);
    hide NormalizeState, Usable, Blocks, Unavailable;
  }

  // ---- runs: every answer is an observer's own response ----

  /** Event o hands the observer's response to the flight of instance x, and the flight still carries its status
      and observation after n events. */
  ghost predicate CarriedFrom(cfgs: Configs, stored: Stored, run: seq<Event>, o: nat, n: nat, x: nat) {
    && o < n <= |run| && run[o].instance == x && run[o].action.Observe? && Kept(run[o].action.result)
    && var r, f := run[o].action.result.value, Get(At(cfgs, stored, run, o), x).flight;
    && f.Observing?
    && forall k | o < k <= n ::
         Get(At(cfgs, stored, run, k), x).flight ==
         Committing(f.lease, r.status, Observed(r.body.ok, r.body.recoveryV2))
  }

  /** A flight about to commit appears only where its observation ends, and is otherwise left alone. */
  lemma CommittingSince(cfgs: Configs, sys: System, e: Event, x: nat)
    requires Get(Step(cfgs, sys, e), x).flight.Committing?
    ensures || Get(Step(cfgs, sys, e), x).flight == Get(sys, x).flight
            || (e.instance == x && e.action.Observe? && Get(sys, x).flight.Observing?
                && Get(Step(cfgs, sys, e), x) == ObserveStep(cfgs(x), Get(sys, x), e.action.result, e.action.seenMs))
  {
    hide NormalizeState, ObservationOk, Decide, NormalizeObservation;
  }

  /** What a flight is about to commit is the response its own observer returned to it. */
  lemma {:induction false} ObservationOrigin(cfgs: Configs, stored: Stored, run: seq<Event>, n: nat, x: nat)
      returns (o: nat)
    requires n <= |run| && Get(At(cfgs, stored, run, n), x).flight.Committing?
    ensures CarriedFrom(cfgs, stored, run, o, n, x)
  {
    hide Step, Kept;
    var sys, e := At(cfgs, stored, run, n - 1), run[n - 1];
    CommittingSince(cfgs, sys, e, x);
    if e.instance == x && e.action.Observe? && Get(sys, x).flight.Observing? {
      o := n - 1;
      ObserveAnswer(cfgs(x), Get(sys, x), e.action.result, e.action.seenMs);
      ObservedOnly(cfgs, sys, e);
    } else {
      o := ObservationOrigin(cfgs, stored, run, n - 1, x);
    }
  }

  lemma ObservedOnly(cfgs: Configs, sys: System, e: Event)
    requires e.action.Observe? && Get(sys, e.instance).flight.Observing?
    ensures Get(Step(cfgs, sys, e), e.instance) ==
            ObserveStep(cfgs(e.instance), Get(sys, e.instance), e.action.result, e.action.seenMs)
  {
    hide ObserveStep;
  }

  /** A commit stores the status and the observation of the response returned to its own flight. */
  lemma CommitOrigin(cfgs: Configs, stored: Stored, run: seq<Event>, k: nat) returns (o: nat)
    requires k < |run| && CommitsAt(cfgs, stored, run, k)
    ensures CarriedFrom(cfgs, stored, run, o, k, run[k].instance)
    ensures var sn, r := SnapshotAt(cfgs, stored, run, k), run[o].action.result.value;
            sn.status == r.status && sn.value == Observed(r.body.ok, r.body.recoveryV2)
  {
    hide Step, CommitStep, Kept;
    o := ObservationOrigin(cfgs, stored, run, k, run[k].instance);
  }

  /** The reply is the observer's response of event o, under the answering instance's revision. */
  ghost predicate ShowsObservation(run: seq<Event>, o: nat, cfg: Config, reply: Response) {
    && o < |run| && run[o].action.Observe? && Kept(run[o].action.result)
    && var r := run[o].action.result.value; reply == Response(r.status, r.body.(revision := cfg.revision))
  }

  lemma FreshShowsObservation(cfgs: Configs, stored: Stored, run: seq<Event>, n: nat, x: nat, reply: Response,
      reading: int) returns (o: nat)
    requires n <= |run| && FreshAt(cfgs, stored, run, n, x, reply, reading)
    ensures o < n && ShowsObservation(run, o, cfgs(x), reply)
  {
    hide CommitsAt, SnapshotAt, Kept;
    var sn :| LastCommitted(cfgs, stored, run, n, sn) && reply == Materialize(cfgs(x), sn) && reading < sn.expiresAtMs;
    var k: nat :| IsLastCommit(cfgs, stored, run, n, k) && sn == SnapshotAt(cfgs, stored, run, k);
    o := CommitOrigin(cfgs, stored, run, k);
    KeptBody(run[o].action.result);
  }

  lemma KeptBody(result: Option<Response>)
    ensures Kept(result) ==> result.Some? && result.value.body.service == "retrycredit"
                             && result.value.body.network == 102031
  {
  }

  /** A success that a flight hands out, and one answered from memory, is the 200 response an observer returned
      earlier in the run: nothing blocked, malformed or thrown is ever served as a success. */
  lemma SuccessShowsObservation(cfgs: Configs, stored: Stored, run: seq<Event>, n: nat, x: nat, readAtMs: int)
      returns (flown: nat, remembered: nat)
    requires Deployment(cfgs) && Initial(cfgs, stored) && n <= |run|
    ensures var f := Get(At(cfgs, stored, run, n), x).flight;
            f.Decided? && f.response.status == 200 ==>
              flown < n && ShowsObservation(run, flown, cfgs(x), f.response)
    ensures var answer := ReadStep(cfgs(x), Get(At(cfgs, stored, run, n), x), readAtMs).1;
            answer.Now? && answer.response.status == 200 ==>
              remembered < n && ShowsObservation(run, remembered, cfgs(x), answer.response)
  {
    hide Step, FreshAt, ReadStep, ShowsObservation, Deployment, Initial;
    flown, remembered := 0, 0;
    var i := Get(At(cfgs, stored, run, n), x);
    InstanceIsKnown(cfgs, stored, run, n, x);
    MemoryReplyIsLast(cfgs, stored, run, n, x, readAtMs);
    var m := AsOf(cfgs, stored, run, n, x);
    if i.flight.Decided? && i.flight.response.status == 200 {
      flown := FreshShowsObservation(cfgs, stored, run, m, x, i.flight.response, i.flight.decidedAtMs);
    }
    var answer := ReadStep(cfgs(x), i, readAtMs).1;
    if answer.Now? && answer.response.status == 200 {
      remembered := FreshShowsObservation(cfgs, stored, run, m, x, answer.response, readAtMs);
    }
  }

  // ---- runs: every answer is canonical ----

  ghost predicate Sound(cfg: Config, i: Instance) {
    && (i.memory.Some? && i.memory.value.snapshot.Some? ==>
          var sn := i.memory.value.snapshot.value; Canonical(sn.status, sn.value.ok, sn.value.recoveryV2))
    && (i.flight.Committing? ==> Canonical(i.flight.status, i.flight.value.ok, i.flight.value.recoveryV2))
    && (i.flight.Observing? || i.flight.Committing? ==> i.flight.lease.snapshot.None?)
    && (i.flight.Decided? ==> IsReply(cfg, i.flight.response))
  }

  /** The canonical success or the canonical failure, of this configuration. */
  ghost predicate IsReply(cfg: Config, r: Response) {
    exists status, ok, v :: Canonical(status, ok, v) && Answers(cfg, r, status, ok, v)
  }

  lemma UnavailableIsReply(cfg: Config, r: Response)
    requires IsUnavailable(cfg, r)
    ensures IsReply(cfg, r)
  {
    hide Blocks;
    var v :| Blocks(v) && Answers(cfg, r, 503, false, v);
    assert Canonical(503, false, v);
  }

  lemma AnswerIsReply(cfg: Config, r: Response, status: int, ok: bool, v: RecoveryV2)
    requires Canonical(status, ok, v) && Answers(cfg, r, status, ok, v)
    ensures IsReply(cfg, r)
  {
  }

  lemma LeaseKeepsSound(cfg: Config, stored: Stored, i: Instance, ms: int, fails: bool)
    requires i.flight.Starting?
    ensures Sound(cfg, LeaseStep(cfg, stored, i, ms, fails).1)
  {
    hide LeaseStep, Canonical, Answers, IsReply, IsUnavailable;
    LeaseAnswer(cfg, stored, i, ms, fails);
    var j := LeaseStep(cfg, stored, i, ms, fails).1;
    if j.flight.Decided? {
      if IsUnavailable(cfg, j.flight.response) {
        UnavailableIsReply(cfg, j.flight.response);
      } else {
        var sn := stored.state.snapshot.value;
        AnswerIsReply(cfg, j.flight.response, sn.status, sn.value.ok, sn.value.recoveryV2);
      }
    }
  }

  lemma CommitKeepsSound(cfg: Config, stored: Stored, i: Instance, ms: int, fails: bool)
    requires Sound(cfg, i) && i.flight.Committing? && i.flight.lease.nextProbeAtMs > 0
    ensures Sound(cfg, CommitStep(cfg, stored, i, ms, fails).1)
  {
    hide CommitStep, Canonical, Answers, IsReply, IsUnavailable, Usable;
    CommitAnswer(cfg, stored, i, ms, fails);
    var j := CommitStep(cfg, stored, i, ms, fails).1;
    if IsUnavailable(cfg, j.flight.response) {
      UnavailableIsReply(cfg, j.flight.response);
    } else {
      AnswerIsReply(cfg, j.flight.response, i.flight.status, i.flight.value.ok, i.flight.value.recoveryV2);
    }
  }

  lemma ObserveKeepsSound(cfg: Config, i: Instance, result: Option<Response>, ms: int)
    requires Sound(cfg, i) && i.flight.Observing?
    ensures Sound(cfg, ObserveStep(cfg, i, result, ms))
  {
    hide ObserveStep, Canonical, Answers, IsReply, IsUnavailable;
    ObserveAnswer(cfg, i, result, ms);
    if !Kept(result) { UnavailableIsReply(cfg, ObserveStep(cfg, i, result, ms).flight.response); }
  }

  lemma ReadKeepsSound(cfg: Config, i: Instance, ms: int)
    requires Sound(cfg, i)
    ensures Sound(cfg, ReadStep(cfg, i, ms).0)
    ensures ReadStep(cfg, i, ms).1.Now? ==> IsReply(cfg, ReadStep(cfg, i, ms).1.response)
  {
    hide ReadStep, Canonical, Answers, IsReply, IsUnavailable;
    ReadAnswerIs(cfg, i, ms);
    var answer := ReadStep(cfg, i, ms).1;
    if answer.Now? {
      if IsUnavailable(cfg, answer.response) {
        UnavailableIsReply(cfg, answer.response);
      } else {
        var sn := i.memory.value.snapshot.value;
        AnswerIsReply(cfg, answer.response, sn.status, sn.value.ok, sn.value.recoveryV2);
      }
    }
  }

  lemma StepKeepsSound(cfgs: Configs, sys: System, e: Event, x: nat)
    requires Deployment(cfgs) && Records(cfgs, sys) && Sound(cfgs(x), Get(sys, x))
    ensures Sound(cfgs(x), Get(Step(cfgs, sys, e), x))
  {
    var cfg, i := cfgs(x), Get(sys, x);
    HeldIsLease(cfgs, sys, x);
    assert Legal(cfg);
    hide Deployment, Records, Sound, ReadStep, LeaseStep, ObserveStep, CommitStep, Kept;
    if e.instance == x {
      SoundOfPart(cfg, i);
      match e.action
      case Read(ms) => ReadKeepsSound(cfg, i, ms);
      case Lease(ms, fails) => if i.flight.Starting? { LeaseKeepsSound(cfg, sys.stored, i, ms, fails); }
      case Observe(result, ms) => if i.flight.Observing? { ObserveKeepsSound(cfg, i, result, ms); }
      case Commit(ms, fails) => if i.flight.Committing? { CommitKeepsSound(cfg, sys.stored, i, ms, fails); }
      case Finish =>
      case Evict =>
    }
  }

  lemma SoundOfPart(cfg: Config, i: Instance)
    requires Sound(cfg, i)
    ensures Sound(cfg, i.(flight := Idle)) && Sound(cfg, NEW_INSTANCE)
  {
  }

  /** Every response of every run, from memory or from a flight, is the canonical success or the canonical
      failure of the answering configuration, whatever observers return and storage holds. */
  lemma {:induction false} RepliesAreCanonical(cfgs: Configs, stored: Stored, run: seq<Event>, n: nat, x: nat,
      readAtMs: int)
    requires Deployment(cfgs) && n <= |run|
    ensures Sound(cfgs(x), Get(At(cfgs, stored, run, n), x))
    ensures var i := Get(At(cfgs, stored, run, n), x); var answer := ReadStep(cfgs(x), i, readAtMs).1;
            (i.flight.Decided? ==> IsReply(cfgs(x), i.flight.response))
            && (answer.Now? ==> IsReply(cfgs(x), answer.response))
  {
    hide Step, ReadStep, Deployment, IsReply, Canonical;
    if n > 0 {
      RepliesAreCanonical(cfgs, stored, run, n - 1, x, readAtMs);
      RecordsAt(cfgs, stored, run, n - 1);
      StepKeepsSound(cfgs, At(cfgs, stored, run, n - 1), run[n - 1], x);
    }
    ReadKeepsSound(cfgs(x), Get(At(cfgs, stored, run, n), x), readAtMs);
  }
}
