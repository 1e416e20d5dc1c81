/** Runs of the observation cache: any number of instances over one storage key, each with its own
    configuration, created and evicted at will, with failing transactions and clock readings that may jump
    either way. */
module ObservationRuns {
  import opened Wrappers
  import opened Numbers
  import opened ObservationCache
  import opened ObservationIdentity

  /** The configuration of every instance. */
  type Configs = nat -> Config

  /** Every configuration is legal, and instances that store one identity are configured alike. */
  ghost predicate Deployment(cfgs: Configs) {
    && (forall x :: Legal(cfgs(x)))
    && (forall x, y | cfgs(x).identity == cfgs(y).identity :: cfgs(x) == cfgs(y))
  }

  /** What instances are made by the constructor is such a deployment. */
  lemma ConstructedIsDeployment(cfgs: Configs, value: nat -> string, ttlMs: nat -> int, revision: nat -> Option<string>)
    requires forall x :: Configure(value(x), ttlMs(x), revision(x)) == Some(cfgs(x))
    ensures Deployment(cfgs)
  {
    hide Wrapped;
    forall x: nat ensures Legal(cfgs(x)) {
      assert Configure(value(x), ttlMs(x), revision(x)) == Some(cfgs(x));
      StorableIff(value(x), ttlMs(x), revision(x));
    }
    forall x: nat, y: nat | cfgs(x).identity == cfgs(y).identity ensures cfgs(x) == cfgs(y) {
      IdentityDeterminesConfig(value(x), ttlMs(x), revision(x), value(y), ttlMs(y), revision(y));
    }
  }

  datatype System = System(stored: Stored, instances: map<nat, Instance>)

  datatype Action =
    | Read(atMs: int)
    | Lease(nowMs: int, fails: bool)
    | Observe(result: Option<Response>, seenMs: int)
    | Commit(commitMs: int, failed: bool)
    | Finish
    | Evict

  /** One action of one instance; an instance that is not in memory starts anew. */
  datatype Event = Event(instance: nat, action: Action)

  function Get(sys: System, n: nat): Instance {
    if n in sys.instances then sys.instances[n] else NEW_INSTANCE
  }

  function Put(sys: System, stored: Stored, n: nat, i: Instance): System {
    System(stored, sys.instances[n := i])
  }

  /** An action that its flight does not allow at this moment changes nothing. */
  function Step(cfgs: Configs, sys: System, e: Event): System {
    var cfg, i := cfgs(e.instance), Get(sys, e.instance);
    match e.action
    case Read(ms) => Put(sys, sys.stored, e.instance, ReadStep(cfg, i, ms).0)
    case Lease(ms, fails) =>
      if !i.flight.Starting? then sys
      else var (stored, i') := LeaseStep(cfg, sys.stored, i, ms, fails); Put(sys, stored, e.instance, i')
    case Observe(result, ms) =>
      if !i.flight.Observing? then sys else Put(sys, sys.stored, e.instance, ObserveStep(cfg, i, result, ms))
    case Commit(ms, fails) =>
      if !i.flight.Committing? then sys
      else var (stored, i') := CommitStep(cfg, sys.stored, i, ms, fails); Put(sys, stored, e.instance, i')
    case Finish => if !i.flight.Decided? then sys else Put(sys, sys.stored, e.instance, i.(flight := Idle))
    case Evict => System(sys.stored, sys.instances - {e.instance})
  }

  /** No instance is in memory at the start; the key may hold anything but a snapshot of a configured identity. */
  ghost predicate Initial(cfgs: Configs, stored: Stored) {
    forall x :: stored.Present? && stored.state.identity == cfgs(x).identity ==> stored.state.snapshot.None?
  }

  ghost function At(cfgs: Configs, stored: Stored, run: seq<Event>, n: nat): System
    requires n <= |run|
  {
    if n == 0 then System(stored, map[]) else Step(cfgs, At(cfgs, stored, run, n - 1), run[n - 1])
  }

  // ---- the two writes ----

  /** The step is a granted lease: the only point where the provider is asked. */
  ghost predicate Leases(cfgs: Configs, sys: System, e: Event) {
    && e.action.Lease? && Get(sys, e.instance).flight.Starting?
    && LeaseStep(cfgs(e.instance), sys.stored, Get(sys, e.instance), e.action.nowMs, e.action.fails).1.flight.Observing?
  }

  ghost predicate Commits(cfgs: Configs, sys: System, e: Event) {
    && e.action.Commit? && Get(sys, e.instance).flight.Committing?
    && CommitStep(cfgs(e.instance), sys.stored, Get(sys, e.instance), e.action.commitMs, e.action.failed).1.memory !=
         Some(Get(sys, e.instance).flight.lease)
  }

  ghost predicate LeasesAt(cfgs: Configs, stored: Stored, run: seq<Event>, k: nat)
    requires k < |run|
  {
    Leases(cfgs, At(cfgs, stored, run, k), run[k])
  }

  ghost predicate CommitsAt(cfgs: Configs, stored: Stored, run: seq<Event>, k: nat)
    requires k < |run|
  {
    Commits(cfgs, At(cfgs, stored, run, k), run[k])
  }

  ghost function LeaseAt(cfg: Config, nowMs: int): State { State(VERSION, cfg.identity, nowMs + cfg.ttlMs, None) }

  ghost function CommittedSnapshot(cfgs: Configs, sys: System, e: Event): Snapshot
    requires Commits(cfgs, sys, e)
  {
    var f := Get(sys, e.instance).flight;
    Snapshot(e.action.commitMs, e.action.commitMs + cfgs(e.instance).ttlMs, f.status, f.value)
  }

  /** The identity an event's instance stores under. */
  ghost function Owner(cfgs: Configs, e: Event): string { cfgs(e.instance).identity }

  ghost predicate Owned(identity: string, stored: Stored) { stored.Present? && stored.state.identity == identity }

  /** The next probe the key allows to this identity. */
  ghost function Gate(identity: string, stored: Stored): int {
    if Owned(identity, stored) then stored.state.nextProbeAtMs else 0
  }

  ghost predicate IsLease(cfg: Config, s: State) {
    s == State(VERSION, cfg.identity, s.nextProbeAtMs, None) && s.nextProbeAtMs >= cfg.ttlMs
  }

  /** Every flight under a lease holds a lease record of its instance's identity. */
  ghost predicate LeaseRecord(cfg: Config, f: Flight) {
    && (f.Observing? ==> IsLease(cfg, f.lease))
    && (f.Committing? ==> IsLease(cfg, f.lease) && ObservationOk(f.status, f.value))
  }

  ghost predicate Records(cfgs: Configs, sys: System) {
    forall n | n in sys.instances :: LeaseRecord(cfgs(n), sys.instances[n].flight)
  }

  lemma StepRecords(cfgs: Configs, sys: System, e: Event)
    requires Records(cfgs, sys)
    ensures Records(cfgs, Step(cfgs, sys, e))
  {
    hide NormalizeState, ObservationOk, Decide;
    assert LeaseRecord(cfgs(e.instance), Get(sys, e.instance).flight);
  }

  lemma {:induction false} RecordsAt(cfgs: Configs, stored: Stored, run: seq<Event>, n: nat)
    requires n <= |run|
    ensures Records(cfgs, At(cfgs, stored, run, n))
  {
    hide Step;
    if n > 0 {
      RecordsAt(cfgs, stored, run, n - 1);
      StepRecords(cfgs, At(cfgs, stored, run, n - 1), run[n - 1]);
    }
  }

  lemma HeldIsLease(cfgs: Configs, sys: System, x: nat)
    requires Records(cfgs, sys)
    ensures LeaseRecord(cfgs(x), Get(sys, x).flight)
  {
  }

  /** The storage key changes only by a granted lease or a successful commit, and what each requires. */
  lemma WriteFacts(cfgs: Configs, sys: System, e: Event)
    requires Legal(cfgs(e.instance)) && Records(cfgs, sys)
    ensures var t, cfg := Step(cfgs, sys, e), cfgs(e.instance);
            && (Leases(cfgs, sys, e) ==>
                  && t.stored == Present(LeaseAt(cfg, e.action.nowMs)) && IsClock(e.action.nowMs)
                  && e.action.nowMs >= Gate(cfg.identity, sys.stored)
                  && Get(t, e.instance).flight == Observing(LeaseAt(cfg, e.action.nowMs)))
            && (Commits(cfgs, sys, e) ==>
                  && sys.stored == Present(Get(sys, e.instance).flight.lease) && Storable(cfg)
                  && t.stored == Present(State(VERSION, cfg.identity, e.action.commitMs + cfg.ttlMs,
                                               Some(CommittedSnapshot(cfgs, sys, e))))
                  && e.action.commitMs + cfg.ttlMs >= Gate(cfg.identity, sys.stored))
            && (!Leases(cfgs, sys, e) && !Commits(cfgs, sys, e) ==> t.stored == sys.stored)
  {
    hide ObservationOk;
    HeldIsLease(cfgs, sys, e.instance);
    if Commits(cfgs, sys, e) {
      var cfg, i := cfgs(e.instance), Get(sys, e.instance);
      var current := NormalizeState(cfg, sys.stored, e.action.commitMs).value;
      assert i.flight.lease.nextProbeAtMs == current.nextProbeAtMs;
      CommitNeedsRecord(cfg, sys.stored, i.flight.lease, e.action.commitMs);
    }
  }

  lemma CommitNeedsRecord(cfg: Config, stored: Stored, lease: State, nowMs: int)
    requires Legal(cfg) && IsLease(cfg, lease)
    requires NormalizeState(cfg, stored, nowMs) == Some(lease)
    ensures stored == Present(lease) && Storable(cfg)
  {
  }

  /** The same at a step of a run, with the actions named. */
  lemma WritesAt(cfgs: Configs, stored: Stored, run: seq<Event>, k: nat)
    requires Deployment(cfgs) && k < |run|
    ensures var s, t, e := At(cfgs, stored, run, k), At(cfgs, stored, run, k + 1), run[k];
            var cfg := cfgs(e.instance);
            && (LeasesAt(cfgs, stored, run, k) ==>
                  && e.action.Lease? && t.stored == Present(LeaseAt(cfg, e.action.nowMs))
                  && e.action.nowMs >= Gate(cfg.identity, s.stored))
            && (CommitsAt(cfgs, stored, run, k) ==>
                  && e.action.Commit? && Get(s, e.instance).flight.Committing?
                  && IsLease(cfg, Get(s, e.instance).flight.lease)
                  && s.stored == Present(Get(s, e.instance).flight.lease)
                  && t.stored.Present? && t.stored.state.identity == cfg.identity && t.stored.state.snapshot.Some?
                  && t.stored.state.nextProbeAtMs == e.action.commitMs + cfg.ttlMs
                  && t.stored.state.nextProbeAtMs >= Gate(cfg.identity, s.stored))
            && (!LeasesAt(cfgs, stored, run, k) && !CommitsAt(cfgs, stored, run, k) ==> t.stored == s.stored)
  {
    hide Step;
    var s, e := At(cfgs, stored, run, k), run[k];
    RecordsAt(cfgs, stored, run, k);
    HeldIsLease(cfgs, s, e.instance);
    hide Records, LeaseStep, CommitStep;
    WriteFacts(cfgs, s, e);
  }

  // ---- the provider budget ----

  /** No other identity is granted a lease among these events. */
  ghost predicate Undivided(cfgs: Configs, stored: Stored, run: seq<Event>, identity: string, from: nat, to: nat)
    requires to <= |run|
  {
    forall k | from <= k < to && LeasesAt(cfgs, stored, run, k) :: Owner(cfgs, run[k]) == identity
  }

  /** The gate of an identity never moves back, and its record stays, unless another identity leases. */
  lemma {:induction false} GateAdvances(cfgs: Configs, stored: Stored, run: seq<Event>, identity: string,
                                         i: nat, j: nat)
    requires Deployment(cfgs) && i <= j <= |run| && Undivided(cfgs, stored, run, identity, i, j)
    ensures Gate(identity, At(cfgs, stored, run, i).stored) <= Gate(identity, At(cfgs, stored, run, j).stored)
    ensures Owned(identity, At(cfgs, stored, run, i).stored) ==> Owned(identity, At(cfgs, stored, run, j).stored)
  {
    hide Step, LeasesAt, CommitsAt;
    if i < j {
      GateAdvances(cfgs, stored, run, identity, i, j - 1);
      WritesAt(cfgs, stored, run, j - 1);
    }
  }

  /** Two leases granted to one identity are at least its time to live apart, whatever happens between them,
      unless another identity is granted one. */
  lemma LeasesAreSpaced(cfgs: Configs, stored: Stored, run: seq<Event>, i: nat, j: nat)
    requires Deployment(cfgs) && i < j < |run|
    requires LeasesAt(cfgs, stored, run, i) && LeasesAt(cfgs, stored, run, j)
    requires Owner(cfgs, run[i]) == Owner(cfgs, run[j])
    requires Undivided(cfgs, stored, run, Owner(cfgs, run[i]), i + 1, j)
    ensures run[i].action.Lease? && run[j].action.Lease?
    ensures run[j].action.nowMs >= run[i].action.nowMs + cfgs(run[i].instance).ttlMs
  {
    hide Step, LeasesAt, CommitsAt, Undivided;
    WritesAt(cfgs, stored, run, i);
    GateAdvances(cfgs, stored, run, Owner(cfgs, run[i]), i + 1, j);
    WritesAt(cfgs, stored, run, j);
  }

  // ---- commits belong to the latest lease ----

  /** A later lease or a snapshot of the identity has superseded its lease that ends at `until`. */
  ghost predicate Superseded(identity: string, stored: Stored, until: int) {
    && Owned(identity, stored)
    && (Gate(identity, stored) > until || (Gate(identity, stored) == until && stored.state.snapshot.Some?))
  }

  lemma {:induction false} SupersededForever(cfgs: Configs, stored: Stored, run: seq<Event>, identity: string,
                                             until: int, i: nat, j: nat)
    requires Deployment(cfgs) && i <= j <= |run| && Undivided(cfgs, stored, run, identity, i, j)
    requires Superseded(identity, At(cfgs, stored, run, i).stored, until)
    ensures Superseded(identity, At(cfgs, stored, run, j).stored, until)
  {
    hide Step, LeasesAt, CommitsAt;
    if i < j {
      SupersededForever(cfgs, stored, run, identity, until, i, j - 1);
      WritesAt(cfgs, stored, run, j - 1);
      if LeasesAt(cfgs, stored, run, j - 1) { PositiveTtl(cfgs, run[j - 1]); }
    }
  }

  lemma PositiveTtl(cfgs: Configs, e: Event)
    requires Deployment(cfgs)
    ensures cfgs(e.instance).ttlMs > 0
  {
  }

  /** A write of an identity supersedes its lease that the gate was at. */
  lemma WriteSupersedes(cfgs: Configs, stored: Stored, run: seq<Event>, k: nat, until: int)
    requires Deployment(cfgs) && k < |run| && until <= Gate(Owner(cfgs, run[k]), At(cfgs, stored, run, k).stored)
    requires LeasesAt(cfgs, stored, run, k) || CommitsAt(cfgs, stored, run, k)
    ensures Superseded(Owner(cfgs, run[k]), At(cfgs, stored, run, k + 1).stored, until)
  {
    hide Step, LeasesAt, CommitsAt;
    WritesAt(cfgs, stored, run, k);
    PositiveTtl(cfgs, run[k]);
  }

  /** While no other identity is granted a lease, a late commit never overwrites a newer lease or snapshot:
      once anything was written after a lease was granted, no flight commits under that lease. */
  lemma LateCommitFails(cfgs: Configs, stored: Stored, run: seq<Event>, i: nat, k: nat, j: nat)
    requires Deployment(cfgs) && i < k < j < |run|
    requires LeasesAt(cfgs, stored, run, i) && CommitsAt(cfgs, stored, run, j)
    requires LeasesAt(cfgs, stored, run, k) || CommitsAt(cfgs, stored, run, k)
    requires Undivided(cfgs, stored, run, Owner(cfgs, run[i]), i + 1, j)
    ensures run[i].action.Lease? && Get(At(cfgs, stored, run, j), run[j].instance).flight.Committing?
    ensures Get(At(cfgs, stored, run, j), run[j].instance).flight.lease !=
            LeaseAt(cfgs(run[i].instance), run[i].action.nowMs)
  {
    hide Step, LeasesAt, CommitsAt;
    var identity := Owner(cfgs, run[i]);
    WritesAt(cfgs, stored, run, i);
    var until := run[i].action.nowMs + cfgs(run[i].instance).ttlMs;
    GateAdvances(cfgs, stored, run, identity, i + 1, k);
    WritesAt(cfgs, stored, run, k);
    assert Owner(cfgs, run[k]) == identity;
    WriteSupersedes(cfgs, stored, run, k, until);
    SupersededForever(cfgs, stored, run, identity, until, k + 1, j);
    WritesAt(cfgs, stored, run, j);
  }

  /** A successful commit finds exactly the record its own lease wrote. */
  lemma CommitNeedsItsLease(cfgs: Configs, stored: Stored, run: seq<Event>, j: nat)
    requires Deployment(cfgs) && j < |run| && CommitsAt(cfgs, stored, run, j)
    ensures var sys := At(cfgs, stored, run, j); var f := Get(sys, run[j].instance).flight;
            f.Committing? && IsLease(cfgs(run[j].instance), f.lease) && sys.stored == Present(f.lease)
  {
    hide Step, CommitsAt, LeasesAt;
    WritesAt(cfgs, stored, run, j);
  }

  /** Every flight under a lease was granted it by an earlier lease step of the same instance. */
  ghost function HeldLease(f: Flight): Option<State> {
    match f case Observing(l) => Some(l) case Committing(l, _, _) => Some(l) case _ => None
  }

  lemma {:induction false} LeaseOrigin(cfgs: Configs, stored: Stored, run: seq<Event>, n: nat, x: nat) returns (i: nat)
    requires n <= |run| && HeldLease(Get(At(cfgs, stored, run, n), x).flight).Some?
    ensures i < n && run[i].instance == x && LeasesAt(cfgs, stored, run, i) && run[i].action.Lease?
    ensures HeldLease(Get(At(cfgs, stored, run, n), x).flight) == Some(LeaseAt(cfgs(x), run[i].action.nowMs))
  {
    var s, e := At(cfgs, stored, run, n - 1), run[n - 1];
    if Leases(cfgs, s, e) && e.instance == x {
      i := n - 1;
    } else {
      HeldBefore(cfgs, s, e, x);
      hide Step;
      i := LeaseOrigin(cfgs, stored, run, n - 1, x);
    }
  }

  lemma HeldBefore(cfgs: Configs, sys: System, e: Event, x: nat)
    requires HeldLease(Get(Step(cfgs, sys, e), x).flight).Some? && !(Leases(cfgs, sys, e) && e.instance == x)
    ensures HeldLease(Get(Step(cfgs, sys, e), x).flight) == HeldLease(Get(sys, x).flight)
  {
    hide NormalizeState, ObservationOk, Decide;
  }

  /** Two successful commits belong to two different lease records, unless another identity leased between. */
  lemma OneCommitPerLease(cfgs: Configs, stored: Stored, run: seq<Event>, k: nat, j: nat)
    requires Deployment(cfgs) && k < j < |run|
    requires CommitsAt(cfgs, stored, run, k) && CommitsAt(cfgs, stored, run, j)
    requires Undivided(cfgs, stored, run, Owner(cfgs, run[k]), k + 1, j)
    ensures Get(At(cfgs, stored, run, k), run[k].instance).flight.Committing?
            && Get(At(cfgs, stored, run, j), run[j].instance).flight.Committing?
    ensures Get(At(cfgs, stored, run, k), run[k].instance).flight.lease !=
            Get(At(cfgs, stored, run, j), run[j].instance).flight.lease
  {
    hide Step, LeasesAt, CommitsAt, Undivided;
    var until := Gate(Owner(cfgs, run[k]), At(cfgs, stored, run, k).stored);
    WritesAt(cfgs, stored, run, k);
    WriteSupersedes(cfgs, stored, run, k, until);
    SupersededForever(cfgs, stored, run, Owner(cfgs, run[k]), until, k + 1, j);
    WritesAt(cfgs, stored, run, j);
  }

  // ---- two identities on one key ----

  /** The condition is needed. Two instances of one identity are granted leases at the same reading when
      another identity is granted one between them, and then the first one's late commit replaces the
      newer lease. */
  lemma AnotherIdentityResetsBudget(a: Config, b: Config, success: Response)
    requires Legal(a) && Legal(b) && Storable(a) && Storable(b) && a.identity != b.identity
    requires NormalizeObservation(Some(success)).Some?
    ensures var cfgs := (x: nat) => if x == 1 then b else a;
            var run := [Event(0, Read(0)), Event(0, Lease(0, false)), Event(1, Read(0)), Event(1, Lease(0, false)),
                        Event(2, Read(0)), Event(2, Lease(0, false)), Event(0, Observe(Some(success), 0)),
                        Event(0, Commit(0, false))];
            && Deployment(cfgs) && Owner(cfgs, run[1]) == Owner(cfgs, run[5]) == Owner(cfgs, run[7])
            && LeasesAt(cfgs, Absent, run, 1) && LeasesAt(cfgs, Absent, run, 5) && CommitsAt(cfgs, Absent, run, 7)
  {
    hide ObservationOk;
    var cfgs := (x: nat) => if x == 1 then b else a;
    var run := [Event(0, Read(0)), Event(0, Lease(0, false)), Event(1, Read(0)), Event(1, Lease(0, false)),
                Event(2, Read(0)), Event(2, Lease(0, false)), Event(0, Observe(Some(success), 0)),
                Event(0, Commit(0, false))];
    FirstLease(cfgs, Absent, map[], 0);
    var s0 := System(Absent, map[]);
    assert At(cfgs, Absent, run, 0) == s0;
    var s2 := Step(cfgs, Step(cfgs, s0, run[0]), run[1]);
    assert At(cfgs, Absent, run, 1) == Step(cfgs, s0, run[0]);
    assert At(cfgs, Absent, run, 2) == s2;
    FirstLease(cfgs, s2.stored, s2.instances, 1);
    var s4 := Step(cfgs, Step(cfgs, s2, run[2]), run[3]);
    assert At(cfgs, Absent, run, 3) == Step(cfgs, s2, run[2]);
    assert At(cfgs, Absent, run, 4) == s4;
    FirstLease(cfgs, s4.stored, s4.instances, 2);
    var s6 := Step(cfgs, Step(cfgs, s4, run[4]), run[5]);
    assert At(cfgs, Absent, run, 5) == Step(cfgs, s4, run[4]);
    assert At(cfgs, Absent, run, 6) == s6;
    assert Get(s6, 0).flight == Observing(LeaseAt(a, 0));
    var s7 := Step(cfgs, s6, run[6]);
    assert At(cfgs, Absent, run, 7) == s7;
    assert s7.stored == Present(LeaseAt(a, 0));
    assert Get(s7, 0).flight.Committing? && Get(s7, 0).flight.lease == LeaseAt(a, 0);
  }

  /** A new instance that finds the key free, or held by another identity it can read, is granted a lease. */
  lemma FirstLease(cfgs: Configs, stored: Stored, instances: map<nat, Instance>, x: nat)
    requires Legal(cfgs(x)) && x !in instances
    requires stored == Absent || (exists other :: Legal(other) && Storable(other) && other.identity != cfgs(x).identity
                                                  && stored == Present(LeaseAt(other, 0)))
    ensures var s := Step(cfgs, System(stored, instances), Event(x, Read(0)));
            var t := Step(cfgs, s, Event(x, Lease(0, false)));
            && Leases(cfgs, s, Event(x, Lease(0, false)))
            && t == System(Present(LeaseAt(cfgs(x), 0)),
                           instances[x := Instance(Some(LeaseAt(cfgs(x), 0)), Observing(LeaseAt(cfgs(x), 0)))])
  {
    hide ObservationOk;
    var s := Step(cfgs, System(stored, instances), Event(x, Read(0)));
    assert s == System(stored, instances[x := Instance(None, Starting)]);
    var t := Step(cfgs, s, Event(x, Lease(0, false)));
    assert s.instances[x := Get(t, x)] == instances[x := Get(t, x)];
  }

  // ---- identities that cannot be stored ----

  /** No configuration accepts what the key holds, at any reading. */
  ghost predicate Frozen(stored: Stored) {
    forall cfg, ms :: NormalizeState(cfg, stored, ms).None?
  }

  /** A granted lease freezes the key exactly when its identity cannot be stored. */
  lemma LeaseFreezesIff(cfgs: Configs, stored: Stored, run: seq<Event>, i: nat)
    requires Deployment(cfgs) && i < |run| && LeasesAt(cfgs, stored, run, i)
    ensures Frozen(At(cfgs, stored, run, i + 1).stored) <==> !Storable(cfgs(run[i].instance))
  {
    RecordsAt(cfgs, stored, run, i);
    var cfg := cfgs(run[i].instance);
    WriteFacts(cfgs, At(cfgs, stored, run, i), run[i]);
    assert At(cfgs, stored, run, i + 1).stored == Present(LeaseAt(cfg, run[i].action.nowMs));
    hide Step, Leases, Records, At;
    var written := Present(LeaseAt(cfg, run[i].action.nowMs));
    if Storable(cfg) {
      assert NormalizeState(cfg, written, run[i].action.nowMs).Some?;
    }
  }

  lemma FrozenStep(cfgs: Configs, sys: System, e: Event, x: nat)
    requires Frozen(sys.stored)
    ensures Step(cfgs, sys, e).stored == sys.stored && !Leases(cfgs, sys, e) && !Commits(cfgs, sys, e)
    ensures var f := Get(Step(cfgs, sys, e), x).flight;
            f.Decided? && f != Get(sys, x).flight ==> f.response == Unavailable(cfgs(x))
  {
    hide NormalizeState, ObservationOk;
    if e.action.Lease? { assert NormalizeState(cfgs(e.instance), sys.stored, e.action.nowMs).None?; }
    if e.action.Commit? { assert NormalizeState(cfgs(e.instance), sys.stored, e.action.commitMs).None?; }
  }

  /** A frozen key stays as it is: no instance of any configuration is granted a lease or commits, and every
      flight decided from then on answers unavailable. */
  lemma {:induction false} FrozenForever(cfgs: Configs, stored: Stored, run: seq<Event>, i: nat, n: nat, x: nat)
    requires i <= n <= |run| && Frozen(At(cfgs, stored, run, i).stored)
    ensures At(cfgs, stored, run, n).stored == At(cfgs, stored, run, i).stored
    ensures n < |run| ==> !LeasesAt(cfgs, stored, run, n) && !CommitsAt(cfgs, stored, run, n)
    ensures var f := Get(At(cfgs, stored, run, n), x).flight;
            f.Decided? && f.response != Unavailable(cfgs(x)) ==> f == Get(At(cfgs, stored, run, i), x).flight
  {
    hide Step, Frozen, Leases, Commits, Unavailable;
    if i < n {
      FrozenForever(cfgs, stored, run, i, n - 1, x);
      FrozenStep(cfgs, At(cfgs, stored, run, n - 1), run[n - 1], x);
    }
    if n < |run| {
      FrozenStep(cfgs, At(cfgs, stored, run, n), run[n], x);
    }
  }

  /** So the first lease granted under an identity that cannot be stored ends the service of the key for
      every configuration. */
  lemma OverlongLeaseIsFinal(cfgs: Configs, stored: Stored, run: seq<Event>, i: nat, n: nat, x: nat)
    requires Deployment(cfgs) && i < n <= |run| && LeasesAt(cfgs, stored, run, i) && !Storable(cfgs(run[i].instance))
    ensures At(cfgs, stored, run, n).stored == At(cfgs, stored, run, i + 1).stored
    ensures n < |run| ==> !LeasesAt(cfgs, stored, run, n) && !CommitsAt(cfgs, stored, run, n)
    ensures var f := Get(At(cfgs, stored, run, n), x).flight;
            f.Decided? && f.response != Unavailable(cfgs(x)) ==> f == Get(At(cfgs, stored, run, i + 1), x).flight
  {
    hide Step, Frozen, LeasesAt, CommitsAt, Unavailable;
    LeaseFreezesIff(cfgs, stored, run, i);
    FrozenForever(cfgs, stored, run, i + 1, n, x);
  }

  /** An input that does so: an instance given 8192 double quotes, on a fresh key. */
  lemma QuotesFreezeKey(ttlMs: int, revision: Option<string>)
    requires TtlOk(ttlMs)
    ensures var configured := Configure(Quotes(MAX_GIVEN_IDENTITY), ttlMs, revision);
            && configured.Some?
            && var cfgs := (x: nat) => configured.value;
            var run := [Event(0, Read(0)), Event(0, Lease(0, false))];
            && Deployment(cfgs) && LeasesAt(cfgs, Absent, run, 1) && Frozen(At(cfgs, Absent, run, 2).stored)
  {
    hide Wrapped, Quotes;
    QuotesAreNotStorable(ttlMs, revision);
    var cfg := Configure(Quotes(MAX_GIVEN_IDENTITY), ttlMs, revision).value;
    StorableIff(Quotes(MAX_GIVEN_IDENTITY), ttlMs, revision);
    hide Configure, MAX_GIVEN_IDENTITY, Storable;
    var cfgs := (x: nat) => cfg;
    var run := [Event(0, Read(0)), Event(0, Lease(0, false))];
    FirstLease(cfgs, Absent, map[], 0);
    assert At(cfgs, Absent, run, 0) == System(Absent, map[]);
    assert At(cfgs, Absent, run, 1) == Step(cfgs, System(Absent, map[]), run[0]);
    LeaseFreezesIff(cfgs, Absent, run, 1);
  }
}
