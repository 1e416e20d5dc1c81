/** What the observation cache answers, in terms of the commits of the whole run: which commit a success
    shows, and which callers of a shared flight get it unexpired. */
module ObservationReplies {
  import opened Wrappers
  import opened ObservationCache
  import opened ObservationRuns

  // ---- the last commit ----

  ghost function SnapshotAt(cfgs: Configs, stored: Stored, run: seq<Event>, k: nat): Snapshot
    requires k < |run| && CommitsAt(cfgs, stored, run, k)
  {
    CommittedSnapshot(cfgs, At(cfgs, stored, run, k), run[k])
  }

  /** Step k is the last successful commit, by any instance, among the first n events. */
  ghost predicate IsLastCommit(cfgs: Configs, stored: Stored, run: seq<Event>, n: nat, k: nat)
    requires n <= |run|
  {
    k < n && CommitsAt(cfgs, stored, run, k) && forall j | k < j < n :: !CommitsAt(cfgs, stored, run, j)
  }

  /** The snapshot the last successful commit among the first n events wrote. */
  ghost predicate LastCommitted(cfgs: Configs, stored: Stored, run: seq<Event>, n: nat, sn: Snapshot)
    requires n <= |run|
  {
    exists k: nat :: IsLastCommit(cfgs, stored, run, n, k) && sn == SnapshotAt(cfgs, stored, run, k)
  }

  lemma LastCommitIsUnique(cfgs: Configs, stored: Stored, run: seq<Event>, n: nat, a: Snapshot, b: Snapshot)
    requires n <= |run| && LastCommitted(cfgs, stored, run, n, a) && LastCommitted(cfgs, stored, run, n, b)
    ensures a == b
  {
    hide CommitsAt;
    var j: nat :| IsLastCommit(cfgs, stored, run, n, j) && a == SnapshotAt(cfgs, stored, run, j);
    var k: nat :| IsLastCommit(cfgs, stored, run, n, k) && b == SnapshotAt(cfgs, stored, run, k);
    assert j == k;
  }

  lemma LastCommitAfter(cfgs: Configs, stored: Stored, run: seq<Event>, n: nat)
    requires n < |run|
    ensures CommitsAt(cfgs, stored, run, n) ==>
              LastCommitted(cfgs, stored, run, n + 1, SnapshotAt(cfgs, stored, run, n))
    ensures !CommitsAt(cfgs, stored, run, n) ==>
              forall sn :: LastCommitted(cfgs, stored, run, n, sn) ==> LastCommitted(cfgs, stored, run, n + 1, sn)
  {
    hide CommitsAt, SnapshotAt;
    if CommitsAt(cfgs, stored, run, n) {
      assert IsLastCommit(cfgs, stored, run, n + 1, n);
    } else {
      forall sn | LastCommitted(cfgs, stored, run, n, sn) ensures LastCommitted(cfgs, stored, run, n + 1, sn) {
        var k: nat :| IsLastCommit(cfgs, stored, run, n, k) && sn == SnapshotAt(cfgs, stored, run, k);
        assert IsLastCommit(cfgs, stored, run, n + 1, k);
      }
    }
  }

  ghost predicate OwnSnapshot(cfg: Config, s: Stored) {
    s.Present? && s.state.identity == cfg.identity && s.state.snapshot.Some?
  }

  /** A stored snapshot of an instance's identity is that of the last commit of the whole run. */
  lemma {:induction false} StoredIsLastCommit(cfgs: Configs, stored: Stored, run: seq<Event>, n: nat, x: nat)
    requires Deployment(cfgs) && Initial(cfgs, stored) && n <= |run|
    ensures var s := At(cfgs, stored, run, n).stored;
            OwnSnapshot(cfgs(x), s) ==> LastCommitted(cfgs, stored, run, n, s.state.snapshot.value)
  {
    hide Step, Leases, Commits, LastCommitted;
    if n > 0 {
      StoredIsLastCommit(cfgs, stored, run, n - 1, x);
      RecordsAt(cfgs, stored, run, n - 1);
      WriteFacts(cfgs, At(cfgs, stored, run, n - 1), run[n - 1]);
      LastCommitAfter(cfgs, stored, run, n - 1);
    }
  }

  // ---- what an instance knows ----

  /** The step is a storage transaction of this instance. */
  ghost predicate Transacts(sys: System, e: Event, x: nat) {
    && e.instance == x
    && (|| (e.action.Lease? && Get(sys, x).flight.Starting?)
        || (e.action.Commit? && Get(sys, x).flight.Committing?))
  }

  /** The events up to and including the instance's latest transaction: how far it has seen storage. */
  ghost function AsOf(cfgs: Configs, stored: Stored, run: seq<Event>, n: nat, x: nat): (m: nat)
    requires n <= |run|
    ensures m <= n
  {
    if n == 0 then 0
    else if Transacts(At(cfgs, stored, run, n - 1), run[n - 1], x) then n
    else AsOf(cfgs, stored, run, n - 1, x)
  }

  ghost predicate OwnMemory(cfg: Config, i: Instance) {
    i.memory.Some? ==> i.memory.value.identity == cfg.identity
  }

  ghost predicate Remembers(i: Instance) {
    i.memory.Some? && i.memory.value.snapshot.Some?
  }

  ghost predicate Succeeded(f: Flight) {
    f.Decided? && f.response.status == 200
  }

  /** A transaction leaves the memory empty of a snapshot, or holding the stored one, or the one it committed;
      and a success it decides on is the remembered snapshot, unexpired. */
  lemma TransactionFacts(cfgs: Configs, sys: System, e: Event)
    requires Legal(cfgs(e.instance)) && Records(cfgs, sys) && Transacts(sys, e, e.instance)
    ensures var j := Get(Step(cfgs, sys, e), e.instance);
            && OwnMemory(cfgs(e.instance), j)
            && (Remembers(j) ==>
                  if Commits(cfgs, sys, e) then j.memory.value.snapshot.value == CommittedSnapshot(cfgs, sys, e)
                  else OwnSnapshot(cfgs(e.instance), sys.stored)
                       && j.memory.value.snapshot == sys.stored.state.snapshot)
            && (Succeeded(j.flight) ==>
                  && Remembers(j) && j.flight.response == Materialize(cfgs(e.instance), j.memory.value.snapshot.value)
                  && j.flight.decidedAtMs == (if e.action.Commit? then e.action.commitMs else e.action.nowMs)
                  && j.flight.decidedAtMs < j.memory.value.snapshot.value.expiresAtMs
                  && (Commits(cfgs, sys, e) <==> e.action.Commit?))
  {
    hide ObservationOk, SnapshotOk;
    HeldIsLease(cfgs, sys, e.instance);
  }

  /** Every other step keeps the memory or forgets it, and decides on no success. */
  lemma OtherStepFacts(cfgs: Configs, sys: System, e: Event, x: nat)
    requires !Transacts(sys, e, x)
    ensures var i, j := Get(sys, x), Get(Step(cfgs, sys, e), x);
            && (j.memory == i.memory || j.memory.None?)
            && (Succeeded(j.flight) ==> j.flight == i.flight && j.flight.Decided?)
  {
    hide NormalizeState, ObservationOk, Decide;
  }

  ghost predicate KnownInstance(cfgs: Configs, stored: Stored, run: seq<Event>, n: nat, x: nat)
    requires n <= |run|
  {
    var i, m := Get(At(cfgs, stored, run, n), x), AsOf(cfgs, stored, run, n, x);
    && OwnMemory(cfgs(x), i)
    && (Remembers(i) ==> LastCommitted(cfgs, stored, run, m, i.memory.value.snapshot.value))
    && (Succeeded(i.flight) ==> FreshAt(cfgs, stored, run, m, x, i.flight.response, i.flight.decidedAtMs))
  }

  /** The response shows the last commit among the first n events, and that is unexpired at the reading. */
  ghost predicate FreshAt(cfgs: Configs, stored: Stored, run: seq<Event>, n: nat, x: nat, r: Response, reading: int)
    requires n <= |run|
  {
    exists sn :: LastCommitted(cfgs, stored, run, n, sn) && r == Materialize(cfgs(x), sn) && reading < sn.expiresAtMs
  }

  lemma ShownIsFresh(cfgs: Configs, stored: Stored, run: seq<Event>, n: nat, x: nat, sn: Snapshot, reading: int)
    requires n <= |run| && LastCommitted(cfgs, stored, run, n, sn) && reading < sn.expiresAtMs
    ensures FreshAt(cfgs, stored, run, n, x, Materialize(cfgs(x), sn), reading)
  {
    hide LastCommitted;
  }

  /** What an instance remembers, and the success its flight hands out, is the last commit of the whole run
      as of its own latest transaction. */
  lemma {:induction false} InstanceIsKnown(cfgs: Configs, stored: Stored, run: seq<Event>, n: nat, x: nat)
    requires Deployment(cfgs) && Initial(cfgs, stored) && n <= |run|
    ensures KnownInstance(cfgs, stored, run, n, x)
  {
    hide Step, Commits, Leases, LastCommitted, FreshAt, Materialize, Records;
    if n > 0 {
      InstanceIsKnown(cfgs, stored, run, n - 1, x);
      var s, e := At(cfgs, stored, run, n - 1), run[n - 1];
      if Transacts(s, e, x) {
        RecordsAt(cfgs, stored, run, n - 1);
        StoredIsLastCommit(cfgs, stored, run, n - 1, x);
        LastCommitAfter(cfgs, stored, run, n - 1);
        TransactionFacts(cfgs, s, e);
        var j := Get(At(cfgs, stored, run, n), x);
        if Succeeded(j.flight) {
          ShownIsFresh(cfgs, stored, run, n, x, j.memory.value.snapshot.value, j.flight.decidedAtMs);
        }
      } else {
        OtherStepFacts(cfgs, s, e, x);
      }
    }
  }

  // ---- answers from memory and from a flight ----

  /** A success answered from memory is the last commit known to the instance, unexpired at the caller's
      own reading. */
  lemma MemoryReplyIsLast(cfgs: Configs, stored: Stored, run: seq<Event>, n: nat, x: nat, readAtMs: int)
    requires Deployment(cfgs) && Initial(cfgs, stored) && n <= |run|
    ensures var answer := ReadStep(cfgs(x), Get(At(cfgs, stored, run, n), x), readAtMs).1;
            answer.Now? && answer.response.status == 200 ==>
              FreshAt(cfgs, stored, run, AsOf(cfgs, stored, run, n, x), x, answer.response, readAtMs)
  {
    hide LastCommitted, Step, Materialize, FreshAt, At;
    InstanceIsKnown(cfgs, stored, run, n, x);
    var i := Get(At(cfgs, stored, run, n), x);
    if Decide(i.memory, readAtMs).Serve? {
      ShownIsFresh(cfgs, stored, run, AsOf(cfgs, stored, run, n, x), x, i.memory.value.snapshot.value, readAtMs);
    }
  }

  /** The flight of an instance is decided by this step. */
  ghost predicate Decides(cfgs: Configs, stored: Stored, run: seq<Event>, d: nat, x: nat)
    requires d < |run|
  {
    !Get(At(cfgs, stored, run, d), x).flight.Decided? && Get(At(cfgs, stored, run, d + 1), x).flight.Decided?
  }

  /** When the snapshot shown by the deciding step expires: a time to live after its commit, or when the
      stored snapshot it found does. */
  ghost function ShownExpiry(cfgs: Configs, stored: Stored, run: seq<Event>, d: nat): int
    requires d < |run|
  {
    var s := At(cfgs, stored, run, d).stored;
    if run[d].action.Commit? then run[d].action.commitMs + cfgs(run[d].instance).ttlMs
    else if OwnSnapshot(cfgs(run[d].instance), s) then s.state.snapshot.value.expiresAtMs
    else 0
  }

  ghost function DecidingReading(e: Event): int {
    match e.action
    case Lease(ms, _) => ms
    case Commit(ms, _) => ms
    case _ => 0
  }

  /** A success is decided by a transaction, at its reading, and shows the last commit of the whole run
      including that step; its expiry lies after the reading, for a commit by exactly the time to live. */
  lemma SuccessShowsLastCommit(cfgs: Configs, stored: Stored, run: seq<Event>, d: nat, x: nat, reading: int)
    requires Deployment(cfgs) && Initial(cfgs, stored) && d < |run| && Decides(cfgs, stored, run, d, x)
    requires Get(At(cfgs, stored, run, d + 1), x).flight.response.status == 200
    ensures var f := Get(At(cfgs, stored, run, d + 1), x).flight;
            && f.decidedAtMs == DecidingReading(run[d]) < ShownExpiry(cfgs, stored, run, d)
            && (run[d].action.Commit? ==> ShownExpiry(cfgs, stored, run, d) == f.decidedAtMs + cfgs(x).ttlMs)
            && (FreshAt(cfgs, stored, run, d + 1, x, f.response, reading) <==>
                  reading < ShownExpiry(cfgs, stored, run, d))
  {
    hide Step, Commits, Leases, LastCommitted, FreshAt, Materialize, Records;
    var s, e := At(cfgs, stored, run, d), run[d];
    if !Transacts(s, e, x) {
      OtherStepFacts(cfgs, s, e, x);
      assert false;
    }
    RecordsAt(cfgs, stored, run, d);
    StoredIsLastCommit(cfgs, stored, run, d, x);
    LastCommitAfter(cfgs, stored, run, d);
    TransactionFacts(cfgs, s, e);
    var j := Get(At(cfgs, stored, run, d + 1), x);
    var sn := j.memory.value.snapshot.value;
    CommitExpiry(cfgs, s, e);
    FreshIff(cfgs, stored, run, d + 1, x, sn, reading);
  }

  lemma CommitExpiry(cfgs: Configs, sys: System, e: Event)
    ensures Commits(cfgs, sys, e) ==>
              && e.action.Commit?
              && CommittedSnapshot(cfgs, sys, e).expiresAtMs == e.action.commitMs + cfgs(e.instance).ttlMs
  {
  }

  lemma FreshIff(cfgs: Configs, stored: Stored, run: seq<Event>, n: nat, x: nat, sn: Snapshot, reading: int)
    requires n <= |run| && LastCommitted(cfgs, stored, run, n, sn)
    ensures FreshAt(cfgs, stored, run, n, x, Materialize(cfgs(x), sn), reading) <==> reading < sn.expiresAtMs
  {
    hide LastCommitted, Materialize;
    if FreshAt(cfgs, stored, run, n, x, Materialize(cfgs(x), sn), reading) {
      var other :| LastCommitted(cfgs, stored, run, n, other) && Materialize(cfgs(x), sn) == Materialize(cfgs(x), other)
                   && reading < other.expiresAtMs;
      LastCommitIsUnique(cfgs, stored, run, n, sn, other);
    }
  }

  // ---- the callers of a flight ----

  /** No step of the instance clears its flight, or its memory, among these events. */
  ghost predicate Undisturbed(run: seq<Event>, x: nat, from: nat, to: nat)
    requires to <= |run|
  {
    forall k | from <= k < to :: !(run[k].instance == x && (run[k].action.Finish? || run[k].action.Evict?))
  }

  /** Event i is a read of this instance that starts a flight or joins the one under way. */
  ghost predicate IsCaller(cfgs: Configs, stored: Stored, run: seq<Event>, i: nat, x: nat)
    requires i < |run|
  {
    && run[i].instance == x && run[i].action.Read?
    && !ReadStep(cfgs(x), Get(At(cfgs, stored, run, i), x), run[i].action.atMs).1.Now?
  }

  /** Event f clears a decided flight and so answers this caller. */
  ghost predicate Answered(cfgs: Configs, stored: Stored, run: seq<Event>, i: nat, f: nat, x: nat) {
    && i < f < |run| && IsCaller(cfgs, stored, run, i, x)
    && run[f].instance == x && run[f].action.Finish? && Get(At(cfgs, stored, run, f), x).flight.Decided?
    && Undisturbed(run, x, i, f)
  }

  lemma StepKeepsDecided(cfgs: Configs, sys: System, e: Event, x: nat)
    requires Get(sys, x).flight.Decided? && !(e.instance == x && (e.action.Finish? || e.action.Evict?))
    ensures Get(Step(cfgs, sys, e), x).flight == Get(sys, x).flight
  {
    hide NormalizeState, ObservationOk, Decide;
  }

  lemma StepClearsDecided(cfgs: Configs, sys: System, e: Event, x: nat)
    requires e.instance == x && (e.action.Finish? || e.action.Evict?)
    ensures !Get(Step(cfgs, sys, e), x).flight.Decided?
  {
  }

  lemma {:induction false} DecidedStays(cfgs: Configs, stored: Stored, run: seq<Event>, d: nat, n: nat, x: nat)
    requires d <= n <= |run| && Get(At(cfgs, stored, run, d), x).flight.Decided? && Undisturbed(run, x, d, n)
    ensures Get(At(cfgs, stored, run, n), x).flight == Get(At(cfgs, stored, run, d), x).flight
  {
    hide Step;
    if d < n {
      DecidedStays(cfgs, stored, run, d, n - 1, x);
      StepKeepsDecided(cfgs, At(cfgs, stored, run, n - 1), run[n - 1], x);
    }
  }

  /** Every decided flight was decided by one step and has not been cleared since. */
  lemma {:induction false} DecidingStep(cfgs: Configs, stored: Stored, run: seq<Event>, n: nat, x: nat) returns (d: nat)
    requires n <= |run| && Get(At(cfgs, stored, run, n), x).flight.Decided?
    ensures d < n && Decides(cfgs, stored, run, d, x) && Undisturbed(run, x, d + 1, n)
    ensures Get(At(cfgs, stored, run, d + 1), x).flight == Get(At(cfgs, stored, run, n), x).flight
  {
    hide Step;
    if Get(At(cfgs, stored, run, n - 1), x).flight.Decided? {
      if run[n - 1].instance == x && (run[n - 1].action.Finish? || run[n - 1].action.Evict?) {
        StepClearsDecided(cfgs, At(cfgs, stored, run, n - 1), run[n - 1], x);
        assert false;
      }
      d := DecidingStep(cfgs, stored, run, n - 1, x);
      StepKeepsDecided(cfgs, At(cfgs, stored, run, n - 1), run[n - 1], x);
    } else {
      d := n - 1;
    }
  }

  /** The caller asked before the deciding step exactly when it found the flight undecided. */
  lemma CameBefore(cfgs: Configs, stored: Stored, run: seq<Event>, i: nat, d: nat, f: nat, x: nat)
    requires Answered(cfgs, stored, run, i, f, x) && d < f && Decides(cfgs, stored, run, d, x)
             && Undisturbed(run, x, d + 1, f)
    ensures i <= d <==> !Get(At(cfgs, stored, run, i), x).flight.Decided?
  {
    hide Step, IsCaller;
    if i <= d && Get(At(cfgs, stored, run, i), x).flight.Decided? {
      DecidedStays(cfgs, stored, run, i, d, x);
    } else if i > d {
      DecidedStays(cfgs, stored, run, d + 1, i, x);
    }
  }

  /** A caller answered with a success by a flight it started or joined gets the last commit of the run as
      of the deciding step. That is unexpired at the caller's own reading if and only if the reading is
      before a time to live after the commit that decided the flight, or before the expiry of the stored
      snapshot that did. */
  lemma AnswerIsFreshIff(cfgs: Configs, stored: Stored, run: seq<Event>, i: nat, f: nat, x: nat) returns (d: nat)
    requires Deployment(cfgs) && Initial(cfgs, stored) && Answered(cfgs, stored, run, i, f, x)
    requires Get(At(cfgs, stored, run, f), x).flight.response.status == 200
    ensures d < f && Decides(cfgs, stored, run, d, x)
            && (i <= d <==> !Get(At(cfgs, stored, run, i), x).flight.Decided?)
    ensures FreshAt(cfgs, stored, run, d + 1, x, Get(At(cfgs, stored, run, f), x).flight.response,
                    run[i].action.atMs) <==>
              run[i].action.atMs < ShownExpiry(cfgs, stored, run, d)
  {
    hide Step, FreshAt, ShownExpiry;
    d := DecidingStep(cfgs, stored, run, f, x);
    CameBefore(cfgs, stored, run, i, d, f, x);
    SuccessShowsLastCommit(cfgs, stored, run, d, x, run[i].action.atMs);
  }

  /** A caller that found the flight undecided, and whose reading is not after the deciding one, always
      gets a success unexpired at its own reading. */
  lemma EarlyCallerIsFresh(cfgs: Configs, stored: Stored, run: seq<Event>, i: nat, f: nat, x: nat) returns (d: nat)
    requires Deployment(cfgs) && Initial(cfgs, stored) && Answered(cfgs, stored, run, i, f, x)
    requires Get(At(cfgs, stored, run, f), x).flight.response.status == 200
    requires !Get(At(cfgs, stored, run, i), x).flight.Decided?
    ensures i <= d < f && Decides(cfgs, stored, run, d, x)
    ensures run[i].action.atMs <= DecidingReading(run[d]) ==>
              FreshAt(cfgs, stored, run, d + 1, x, Get(At(cfgs, stored, run, f), x).flight.response, run[i].action.atMs)
  {
    hide Step, FreshAt, ShownExpiry;
    d := DecidingStep(cfgs, stored, run, f, x);
    CameBefore(cfgs, stored, run, i, d, f, x);
    SuccessShowsLastCommit(cfgs, stored, run, d, x, run[i].action.atMs);
  }

  /** How soon a decided success must be cleared: every caller the flight answers gets it unexpired if and
      only if no caller before the decision read the shown expiry or later, and no read of the instance
      between the decision and its clearing comes at or after it. That expiry lies after the deciding
      reading, and a full time to live after it when a commit decided. */
  lemma ClearedInTimeIff(cfgs: Configs, stored: Stored, run: seq<Event>, d: nat, f: nat, x: nat)
    requires Deployment(cfgs) && Initial(cfgs, stored) && d < f < |run| && Decides(cfgs, stored, run, d, x)
    requires Get(At(cfgs, stored, run, d + 1), x).flight.response.status == 200
    requires run[f].instance == x && run[f].action.Finish? && Undisturbed(run, x, d + 1, f)
    ensures (forall i | 0 <= i < f && Answered(cfgs, stored, run, i, f, x) ::
               FreshAt(cfgs, stored, run, d + 1, x, Get(At(cfgs, stored, run, f), x).flight.response,
                       run[i].action.atMs)) <==>
            && (forall i | 0 <= i <= d && Answered(cfgs, stored, run, i, f, x) ::
                  run[i].action.atMs < ShownExpiry(cfgs, stored, run, d))
            && (forall i | d < i < f && IsCaller(cfgs, stored, run, i, x) ::
                  run[i].action.atMs < ShownExpiry(cfgs, stored, run, d))
    ensures DecidingReading(run[d]) < ShownExpiry(cfgs, stored, run, d)
    ensures run[d].action.Commit? ==> ShownExpiry(cfgs, stored, run, d) == DecidingReading(run[d]) + cfgs(x).ttlMs
  {
    hide Step, FreshAt, ShownExpiry, ReadStep;
    DecidedStays(cfgs, stored, run, d + 1, f, x);
    SuccessShowsLastCommit(cfgs, stored, run, d, x, 0);
    assert forall i | d < i < f && IsCaller(cfgs, stored, run, i, x) :: Answered(cfgs, stored, run, i, f, x);
    forall i | 0 <= i < f && Answered(cfgs, stored, run, i, f, x)
      ensures FreshAt(cfgs, stored, run, d + 1, x, Get(At(cfgs, stored, run, f), x).flight.response,
                      run[i].action.atMs) <==>
              run[i].action.atMs < ShownExpiry(cfgs, stored, run, d)
    {
      SuccessShowsLastCommit(cfgs, stored, run, d, x, run[i].action.atMs);
    }
  }

  /** The condition can fail: a flight that has been decided but not yet cleared can still be joined, so a
      caller that reads the expiry itself is answered with the expired success. */
  lemma LateJoinerIsStale(cfg: Config, success: Response)
    requires Legal(cfg) && Storable(cfg) && success.status == 200 && NormalizeObservation(Some(success)).Some?
    ensures var cfgs := (x: nat) => cfg;
            var run := [Event(0, Read(0)), Event(0, Lease(0, false)), Event(0, Observe(Some(success), 0)),
                        Event(0, Commit(0, false)), Event(0, Read(cfg.ttlMs)), Event(0, Finish)];
            && Decides(cfgs, Absent, run, 3, 0) && Answered(cfgs, Absent, run, 4, 5, 0)
            && Succeeded(Get(At(cfgs, Absent, run, 5), 0).flight)
            && !FreshAt(cfgs, Absent, run, 4, 0, Get(At(cfgs, Absent, run, 5), 0).flight.response, cfg.ttlMs)
  {
    hide ObservationOk, FreshAt;
    var cfgs := (x: nat) => cfg;
    var run := [Event(0, Read(0)), Event(0, Lease(0, false)), Event(0, Observe(Some(success), 0)),
                Event(0, Commit(0, false)), Event(0, Read(cfg.ttlMs)), Event(0, Finish)];
    var s0 := System(Absent, map[]);
    assert At(cfgs, Absent, run, 0) == s0;
    var s1 := Step(cfgs, s0, run[0]);
    assert At(cfgs, Absent, run, 1) == s1;
    assert Get(s1, 0) == Instance(None, Starting) && s1.stored == Absent;
    var s2 := Step(cfgs, s1, run[1]);
    assert At(cfgs, Absent, run, 2) == s2;
    assert Get(s2, 0) == Instance(Some(LeaseAt(cfg, 0)), Observing(LeaseAt(cfg, 0)))
        && s2.stored == Present(LeaseAt(cfg, 0));
    var s3 := Step(cfgs, s2, run[2]);
    assert At(cfgs, Absent, run, 3) == s3;
    assert Get(s3, 0).flight.Committing? && s3.stored == s2.stored;
    var s4 := Step(cfgs, s3, run[3]);
    assert At(cfgs, Absent, run, 4) == s4;
    assert Succeeded(Get(s4, 0).flight);
    assert At(cfgs, Absent, run, 5) == Step(cfgs, s4, run[4]);
    SuccessShowsLastCommit(cfgs, Absent, run, 3, 0, cfg.ttlMs);
  }
}
