/** Progress of the observation cache: exactly when a flight gets its observation committed, and how long
    that observation is then served. */
module ObservationProgress {
  import opened Wrappers
  import opened Numbers
  import opened ObservationCache
  import opened ObservationRuns
  import opened ObservationReplies

  /** Among these events the instance only reads. */
  ghost predicate OnlyReads(run: seq<Event>, x: nat, from: nat, to: nat)
    requires to <= |run|
  {
    forall k | from <= k < to && run[k].instance == x :: run[k].action.Read?
  }

  /** Nothing is written to storage by these events. */
  ghost predicate Unwritten(cfgs: Configs, stored: Stored, run: seq<Event>, from: nat, to: nat)
    requires to <= |run|
  {
    forall k | from <= k < to :: !LeasesAt(cfgs, stored, run, k) && !CommitsAt(cfgs, stored, run, k)
  }

  lemma {:induction false} StorageStays(cfgs: Configs, stored: Stored, run: seq<Event>, i: nat, j: nat)
    requires Deployment(cfgs) && i <= j <= |run| && Unwritten(cfgs, stored, run, i, j)
    ensures At(cfgs, stored, run, j).stored == At(cfgs, stored, run, i).stored
  {
    hide Step, LeasesAt, CommitsAt;
    if i < j {
      StorageStays(cfgs, stored, run, i, j - 1);
      WritesAt(cfgs, stored, run, j - 1);
    }
  }

  /** A read, and any step of another instance, leaves a flight under way as it is. */
  lemma FlightKept(cfgs: Configs, sys: System, e: Event, x: nat)
    requires e.instance == x ==> e.action.Read? && !Get(sys, x).flight.Idle?
    ensures Get(Step(cfgs, sys, e), x).flight == Get(sys, x).flight
  {
    hide NormalizeState, ObservationOk, Decide;
  }

  lemma {:induction false} FlightStays(cfgs: Configs, stored: Stored, run: seq<Event>, i: nat, j: nat, x: nat)
    requires i <= j <= |run| && OnlyReads(run, x, i, j) && !Get(At(cfgs, stored, run, i), x).flight.Idle?
    ensures Get(At(cfgs, stored, run, j), x).flight == Get(At(cfgs, stored, run, i), x).flight
  {
    hide Step;
    if i < j {
      FlightStays(cfgs, stored, run, i, j - 1, x);
      FlightKept(cfgs, At(cfgs, stored, run, j - 1), run[j - 1], x);
    }
  }

  // ---- the lease, the observation and the commit ----

  /** A lease is granted exactly at a sound reading at or after the gate, on a key that can be read. */
  ghost predicate LeaseHealthy(cfg: Config, stored: Stored, e: Event)
    requires e.action.Lease?
  {
    var ms := e.action.nowMs;
    && !e.action.fails && IsClock(ms) && ms + cfg.ttlMs <= MAX_SAFE_INTEGER
    && NormalizeState(cfg, stored, ms).Some? && ms >= Gate(cfg.identity, stored)
  }

  ghost predicate ObservationHealthy(e: Event)
    requires e.action.Observe?
  {
    NormalizeObservation(e.action.result).Some?
  }

  /** A commit succeeds exactly at a sound reading not before the lease, for an identity that can be stored. */
  ghost predicate CommitHealthy(cfg: Config, leasedMs: int, e: Event)
    requires e.action.Commit?
  {
    var ms := e.action.commitMs;
    !e.action.failed && IsClock(ms) && leasedMs <= ms && ms + cfg.ttlMs <= MAX_SAFE_INTEGER && Storable(cfg)
  }

  lemma LeaseGrantedIff(cfgs: Configs, sys: System, e: Event)
    requires Legal(cfgs(e.instance)) && e.action.Lease? && Get(sys, e.instance).flight.Starting?
    ensures var f := Get(Step(cfgs, sys, e), e.instance).flight;
            && (Leases(cfgs, sys, e) <==> LeaseHealthy(cfgs(e.instance), sys.stored, e))
            && (if Leases(cfgs, sys, e) then f == Observing(LeaseAt(cfgs(e.instance), e.action.nowMs)) else f.Decided?)
  {
    hide ObservationOk;
  }

  lemma ObservedIff(cfgs: Configs, sys: System, e: Event, lease: State)
    requires e.action.Observe? && Get(sys, e.instance).flight == Observing(lease)
    ensures var f := Get(Step(cfgs, sys, e), e.instance).flight;
            if ObservationHealthy(e) then f.Committing? && f.lease == lease else f.Decided?
  {
    hide NormalizeState, ObservationOk, Decide;
  }

  lemma CommittedIff(cfgs: Configs, sys: System, e: Event, leasedMs: int)
    requires var cfg := cfgs(e.instance);
             && Legal(cfg) && e.action.Commit? && IsClock(leasedMs)
             && Get(sys, e.instance).flight.Committing? && Get(sys, e.instance).flight.lease == LeaseAt(cfg, leasedMs)
             && leasedMs + cfg.ttlMs <= MAX_SAFE_INTEGER && sys.stored == Present(LeaseAt(cfg, leasedMs))
    ensures Commits(cfgs, sys, e) <==> CommitHealthy(cfgs(e.instance), leasedMs, e)
  {
    hide ObservationOk;
    if IsClock(e.action.commitMs) {
      var cfg := cfgs(e.instance);
      Accepted(cfg, LeaseAt(cfg, leasedMs), leasedMs, e.action.commitMs);
    }
  }

  lemma IdleObserve(cfgs: Configs, sys: System, e: Event)
    requires e.action.Observe? && !Get(sys, e.instance).flight.Observing?
    ensures Step(cfgs, sys, e) == sys
  {
  }

  /** The observation of a flight is committed if and only if its lease was granted at or after the gate of
      a readable key, the observation is canonical, and the commit reads a time not before the lease, all with
      storage healthy and readings in range, and the identity can be stored. Nobody else writes in between;
      other instances may read, fail and be evicted, and callers may join. */
  lemma FlightCommitsIff(cfgs: Configs, stored: Stored, run: seq<Event>, l: nat, o: nat, c: nat, x: nat)
    requires Deployment(cfgs) && l < o < c < |run|
    requires run[l].instance == x && run[o].instance == x && run[c].instance == x
    requires run[l].action.Lease? && run[o].action.Observe? && run[c].action.Commit?
    requires Get(At(cfgs, stored, run, l), x).flight.Starting?
    requires OnlyReads(run, x, l + 1, o) && OnlyReads(run, x, o + 1, c) && Unwritten(cfgs, stored, run, l + 1, c)
    ensures CommitsAt(cfgs, stored, run, c) <==>
              && LeaseHealthy(cfgs(x), At(cfgs, stored, run, l).stored, run[l])
              && ObservationHealthy(run[o])
              && CommitHealthy(cfgs(x), run[l].action.nowMs, run[c])
  {
    hide Step, LeaseHealthy, ObservationHealthy, CommitHealthy, LeaseStep, CommitStep;
    var s := At(cfgs, stored, run, l);
    LeaseGrantedIff(cfgs, s, run[l]);
    RecordsAt(cfgs, stored, run, l);
    FlightStays(cfgs, stored, run, l + 1, o, x);
    if LeasesAt(cfgs, stored, run, l) {
      WritesAt(cfgs, stored, run, l);
      HealthyReading(cfgs(x), s.stored, run[l]);
      ObservedIff(cfgs, At(cfgs, stored, run, o), run[o], LeaseAt(cfgs(x), run[l].action.nowMs));
      FlightStays(cfgs, stored, run, o + 1, c, x);
      StorageStays(cfgs, stored, run, l + 1, c);
      if ObservationHealthy(run[o]) {
        CommittedIff(cfgs, At(cfgs, stored, run, c), run[c], run[l].action.nowMs);
      }
    } else {
      IdleObserve(cfgs, At(cfgs, stored, run, o), run[o]);
      FlightStays(cfgs, stored, run, o + 1, c, x);
    }
  }

  lemma HealthyReading(cfg: Config, stored: Stored, e: Event)
    requires e.action.Lease? && LeaseHealthy(cfg, stored, e)
    ensures IsClock(e.action.nowMs) && e.action.nowMs + cfg.ttlMs <= MAX_SAFE_INTEGER
  {
    hide NormalizeState;
  }

  // ---- how long it is served ----

  /** Among these events the instance only reads, at sound readings before `expiry`. */
  ghost predicate ReadsBefore(run: seq<Event>, x: nat, from: nat, to: nat, expiry: int)
    requires to <= |run|
  {
    forall k | from <= k < to && run[k].instance == x ::
      run[k].action.Read? && IsClock(run[k].action.atMs) && run[k].action.atMs < expiry
  }

  /** What a committing step leaves in its instance. */
  lemma CommitLeaves(cfgs: Configs, sys: System, e: Event)
    requires Commits(cfgs, sys, e)
    ensures var i, sn := Get(Step(cfgs, sys, e), e.instance), CommittedSnapshot(cfgs, sys, e);
            && Remembers(i) && i.memory.value.snapshot.value == sn && i.memory.value.nextProbeAtMs == sn.expiresAtMs
            && i.flight.Decided? && i.flight.response == Materialize(cfgs(e.instance), sn)
  {
    hide NormalizeState, ObservationOk;
  }

  /** A sound read that joins a flight, or that memory can serve, leaves the instance as it is. */
  lemma SoundRead(cfgs: Configs, sys: System, e: Event, x: nat)
    requires e.instance == x ==>
               && e.action.Read? && IsClock(e.action.atMs)
               && (!Get(sys, x).flight.Idle? || Decide(Get(sys, x).memory, e.action.atMs).Serve?)
    ensures Get(Step(cfgs, sys, e), x) == Get(sys, x)
  {
    hide NormalizeState, ObservationOk;
  }

  lemma {:induction false} MemoryStays(cfgs: Configs, stored: Stored, run: seq<Event>, i: nat, j: nat, x: nat)
    requires i <= j <= |run| && Remembers(Get(At(cfgs, stored, run, i), x))
    requires ReadsBefore(run, x, i, j, Get(At(cfgs, stored, run, i), x).memory.value.snapshot.value.expiresAtMs)
    ensures Get(At(cfgs, stored, run, j), x) == Get(At(cfgs, stored, run, i), x)
  {
    hide Step;
    if i < j {
      MemoryStays(cfgs, stored, run, i, j - 1, x);
      SoundRead(cfgs, At(cfgs, stored, run, j - 1), run[j - 1], x);
    }
  }

  /** Among these events the instance only reads, at sound readings. */
  ghost predicate SoundReads(run: seq<Event>, x: nat, from: nat, to: nat)
    requires to <= |run|
  {
    forall k | from <= k < to && run[k].instance == x :: run[k].action.Read? && IsClock(run[k].action.atMs)
  }

  lemma {:induction false} JoinedStays(cfgs: Configs, stored: Stored, run: seq<Event>, i: nat, j: nat, x: nat)
    requires i <= j <= |run| && !Get(At(cfgs, stored, run, i), x).flight.Idle? && SoundReads(run, x, i, j)
    ensures Get(At(cfgs, stored, run, j), x) == Get(At(cfgs, stored, run, i), x)
  {
    hide Step;
    if i < j {
      JoinedStays(cfgs, stored, run, i, j - 1, x);
      SoundRead(cfgs, At(cfgs, stored, run, j - 1), run[j - 1], x);
    }
  }

  lemma Cleared(cfgs: Configs, sys: System, e: Event, x: nat)
    requires e == Event(x, Finish) && Get(sys, x).flight.Decided?
    ensures Get(Step(cfgs, sys, e), x) == Get(sys, x).(flight := Idle)
  {
  }

  /** After its flight is cleared, the committing instance answers every sound reading from memory with the
      committed observation if and only if the reading is before its expiry; at the expiry it starts a new
      flight. */
  lemma ServedUntilExpiry(cfgs: Configs, stored: Stored, run: seq<Event>, c: nat, f: nat, n: nat, x: nat, readAtMs: int)
    requires c < f < n <= |run| && CommitsAt(cfgs, stored, run, c) && run[c].instance == x && run[f] == Event(x, Finish)
    requires SoundReads(run, x, c + 1, f)
    requires ReadsBefore(run, x, f + 1, n, SnapshotAt(cfgs, stored, run, c).expiresAtMs)
    requires IsClock(readAtMs)
    ensures var sn := SnapshotAt(cfgs, stored, run, c);
            && Get(At(cfgs, stored, run, f), x).flight.Decided?
            && Get(At(cfgs, stored, run, f), x).flight.response == Materialize(cfgs(x), sn)
            && ReadStep(cfgs(x), Get(At(cfgs, stored, run, n), x), readAtMs).1 ==
               if readAtMs < sn.expiresAtMs then Now(Materialize(cfgs(x), sn)) else Started
  {
    hide Step, Commits, Materialize;
    CommitLeaves(cfgs, At(cfgs, stored, run, c), run[c]);
    JoinedStays(cfgs, stored, run, c + 1, f, x);
    Cleared(cfgs, At(cfgs, stored, run, f), run[f], x);
    MemoryStays(cfgs, stored, run, f + 1, n, x);
  }

  /** Until then every other instance of the identity is served it too: a lease transaction that finds the
      committed success untouched answers with it if and only if storage works and the reading is from the
      commit up to, but not including, the expiry. */
  lemma SharedUntilExpiry(cfgs: Configs, stored: Stored, run: seq<Event>, c: nat, k: nat, y: nat)
    requires Deployment(cfgs) && c < k < |run| && CommitsAt(cfgs, stored, run, c)
    requires Unwritten(cfgs, stored, run, c + 1, k) && cfgs(y).identity == Owner(cfgs, run[c])
    requires run[k].instance == y && run[k].action.Lease? && Get(At(cfgs, stored, run, k), y).flight.Starting?
    requires SnapshotAt(cfgs, stored, run, c).status == 200
    ensures var sn, f := SnapshotAt(cfgs, stored, run, c), Get(At(cfgs, stored, run, k + 1), y).flight;
            f.Decided? && f.response == Materialize(cfgs(y), sn) <==>
              && !run[k].action.fails && IsClock(run[k].action.nowMs)
              && sn.checkedAtMs <= run[k].action.nowMs < sn.expiresAtMs
  {
    hide Step, LeasesAt, Commits;
    RecordsAt(cfgs, stored, run, c);
    CommittedRecord(cfgs, At(cfgs, stored, run, c), run[c]);
    StorageStays(cfgs, stored, run, c + 1, k);
    LeaseFindsSnapshot(cfgs, At(cfgs, stored, run, k), run[k], SnapshotAt(cfgs, stored, run, c));
  }

  /** The stored form of a committed observation. */
  ghost predicate Holds(cfg: Config, stored: Stored, sn: Snapshot) {
    && stored == Present(State(VERSION, cfg.identity, sn.expiresAtMs, Some(sn)))
    && IsClock(sn.checkedAtMs) && sn.expiresAtMs == sn.checkedAtMs + cfg.ttlMs <= MAX_SAFE_INTEGER
    && ObservationOk(sn.status, sn.value) && Storable(cfg)
  }

  lemma CommittedRecord(cfgs: Configs, sys: System, e: Event)
    requires Legal(cfgs(e.instance)) && Records(cfgs, sys) && Commits(cfgs, sys, e)
    ensures Holds(cfgs(e.instance), Step(cfgs, sys, e).stored, CommittedSnapshot(cfgs, sys, e))
  {
    HeldIsLease(cfgs, sys, e.instance);
    WriteFacts(cfgs, sys, e);
    hide ObservationOk, NormalizeState;
  }

  lemma LeaseFindsSnapshot(cfgs: Configs, sys: System, e: Event, sn: Snapshot)
    requires var cfg := cfgs(e.instance); Legal(cfg) && Holds(cfg, sys.stored, sn)
    requires e.action.Lease? && Get(sys, e.instance).flight.Starting? && sn.status == 200
    ensures var f := Get(Step(cfgs, sys, e), e.instance).flight;
            f.Decided? && f.response == Materialize(cfgs(e.instance), sn) <==>
              !e.action.fails && IsClock(e.action.nowMs) && sn.checkedAtMs <= e.action.nowMs < sn.expiresAtMs
  {
    hide ObservationOk;
  }
}
