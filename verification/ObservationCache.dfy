/** src/cloudflare-v2-observation-cache.mjs: one leased provider observation per interval, shared by
    any number of object instances over one storage key. */
module ObservationCache {
  import opened Wrappers
  import opened Numbers

  const VERSION: int := 1

  /** The longest identity a stored record may carry. */
  const MAX_STORED_IDENTITY := 8320

  /** `identity` is the text an instance stores, which wraps the identity it was given. */
  datatype Config = Config(identity: string, ttlMs: int, revision: Option<string>)

  predicate TtlOk(ttlMs: int) { 5000 <= ttlMs <= 300000 && ttlMs % 1000 == 0 }

  /** What the constructor checks; it does not bound the length of the wrapped identity. */
  predicate Legal(cfg: Config) { TtlOk(cfg.ttlMs) && cfg.identity != "" }

  predicate Storable(cfg: Config) { |cfg.identity| <= MAX_STORED_IDENTITY }

  // ---- observations ----

  datatype RecoveryV2 = RecoveryV2(mode: string, state: string, publicProfile: string, reason: string,
                                   observers: Option<int>)
  datatype Observed = Observed(ok: bool, recoveryV2: RecoveryV2)
  datatype Body = Body(ok: bool, service: string, network: int, recoveryV2: RecoveryV2, revision: Option<string>)
  datatype Response = Response(status: int, body: Body)

  const BLOCKED: RecoveryV2 :=
    RecoveryV2("observation-only", "blocked", "v1", "RECOVERY_V2_OBSERVATION_FAILED", None)

  /** normalizeStoredObservation: exactly the canonical success or the canonical failure. */
  predicate ObservationOk(status: int, value: Observed) {
    var r := value.recoveryV2;
    && (status == 200 || status == 503)
    && value.ok == (status == 200)
    && r.mode == "observation-only" && r.publicProfile == "v1"
    && (status == 200 ==>
          r.state == "observed" && r.reason == "CANONICAL_DEPLOYMENT_OBSERVED_PLUS_TWO" && r.observers == Some(2))
    && (status == 503 ==> r.state == "blocked" && r.reason == "RECOVERY_V2_OBSERVATION_FAILED" && r.observers == None)
  }

  /** normalizeObservation; None stands for a thrown or malformed observation. */
  function NormalizeObservation(result: Option<Response>): Option<(int, Observed)> {
    if result.None? then None else
    var r := result.value;
    var value := Observed(r.body.ok, r.body.recoveryV2);
    if r.body.service == "retrycredit" && r.body.network == 102031 && ObservationOk(r.status, value)
    then Some((r.status, value)) else None
  }

  // ---- stored and remembered state ----

  datatype Snapshot = Snapshot(checkedAtMs: int, expiresAtMs: int, status: int, value: Observed)
  datatype State = State(version: int, identity: string, nextProbeAtMs: int, snapshot: Option<Snapshot>)

  /** The storage key: unset, a value of another shape, or a state record. */
  datatype Stored = Absent | Unreadable | Present(state: State)

  predicate IsClock(ms: int) { 0 <= ms <= MAX_SAFE_INTEGER }

  predicate SnapshotOk(s: State, sn: Snapshot, nowMs: int) {
    && IsClock(sn.checkedAtMs) && sn.checkedAtMs <= nowMs
    && IsClock(sn.expiresAtMs) && sn.expiresAtMs == s.nextProbeAtMs && sn.expiresAtMs >= sn.checkedAtMs
    && ObservationOk(sn.status, sn.value)
  }

  /** None when the stored value is rejected. */
  function NormalizeState(cfg: Config, stored: Stored, nowMs: int): Option<State> {
    match stored
    case Absent => Some(State(VERSION, cfg.identity, 0, None))
    case Unreadable => None
    case Present(s) =>
      if s.version != VERSION || !(1 <= |s.identity| <= MAX_STORED_IDENTITY) || !IsClock(s.nextProbeAtMs) then None
      else if s.identity != cfg.identity then Some(State(VERSION, cfg.identity, 0, None))
      else if s.nextProbeAtMs > nowMs + cfg.ttlMs then None
      else if s.snapshot.Some? && !SnapshotOk(s, s.snapshot.value, nowMs) then None
      else Some(s)
  }

  datatype Decision = Serve(snapshot: Snapshot) | Leased | Refresh

  function Decide(s: Option<State>, atMs: int): Decision {
    if s.None? then Refresh
    else if s.value.snapshot.Some? && atMs < s.value.snapshot.value.expiresAtMs then Serve(s.value.snapshot.value)
    else if atMs < s.value.nextProbeAtMs then Leased
    else Refresh
  }

  function Materialize(cfg: Config, sn: Snapshot): Response {
    Response(sn.status, Body(sn.value.ok, "retrycredit", 102031, sn.value.recoveryV2, cfg.revision))
  }

  function Unavailable(cfg: Config): Response {
    Response(503, Body(false, "retrycredit", 102031, BLOCKED, cfg.revision))
  }

  /** A blocked snapshot is served as exactly the unavailable response; every other reply is a success. */
  lemma BlockedIsUnavailable(cfg: Config, sn: Snapshot)
    requires ObservationOk(sn.status, sn.value)
    ensures sn.status == 503 <==> Materialize(cfg, sn) == Unavailable(cfg)
  {
  }

  // ---- one instance ----

  /** The single flight of an instance: not yet leased, observing under a lease, about to commit, or
      decided at a reading but not yet cleared (callers may still join it). */
  datatype Flight =
    | Idle
    | Starting
    | Observing(lease: State)
    | Committing(lease: State, status: int, value: Observed)
    | Decided(response: Response, decidedAtMs: int)

  datatype Instance = Instance(memory: Option<State>, flight: Flight)
  const NEW_INSTANCE: Instance := Instance(None, Idle)

  /** How a read call is answered: now, by the flight it joined, or by the flight it started. */
  datatype ReadAnswer = Now(response: Response) | Joined | Started

  function ReadStep(cfg: Config, i: Instance, readAtMs: int): (Instance, ReadAnswer) {
    if !IsClock(readAtMs) then (i.(memory := None), Now(Unavailable(cfg)))
    else if !i.flight.Idle? then (i, Joined)
    else match Decide(i.memory, readAtMs)
         case Serve(sn) => (i, Now(Materialize(cfg, sn)))
         case Leased => (i, Now(Unavailable(cfg)))
         case Refresh => (i.(flight := Starting), Started)
  }

  /** The lease transaction; `fails` is a storage failure, which writes nothing. */
  function LeaseStep(cfg: Config, stored: Stored, i: Instance, nowMs: int, fails: bool): (Stored, Instance)
    requires i.flight.Starting?
  {
    var current := if fails || !IsClock(nowMs) then None else NormalizeState(cfg, stored, nowMs);
    if current.None? then (stored, Instance(None, Decided(Unavailable(cfg), nowMs)))
    else match Decide(current, nowMs)
         case Serve(sn) => (stored, Instance(current, Decided(Materialize(cfg, sn), nowMs)))
         case Leased => (stored, Instance(current, Decided(Unavailable(cfg), nowMs)))
         case Refresh =>
           if nowMs + cfg.ttlMs > MAX_SAFE_INTEGER then (stored, Instance(None, Decided(Unavailable(cfg), nowMs)))
           else
             var lease := State(VERSION, cfg.identity, nowMs + cfg.ttlMs, None);
             (Present(lease), Instance(Some(lease), Observing(lease)))
  }

  function ObserveStep(cfg: Config, i: Instance, result: Option<Response>, nowMs: int): Instance
    requires i.flight.Observing?
  {
    var observation := NormalizeObservation(result);
    if observation.None? then i.(flight := Decided(Unavailable(cfg), nowMs))
    else i.(flight := Committing(i.flight.lease, observation.value.0, observation.value.1))
  }

  function CommitStep(cfg: Config, stored: Stored, i: Instance, nowMs: int, fails: bool): (Stored, Instance)
    requires i.flight.Committing?
  {
    var lease := i.flight.lease;
    var current := if fails || !IsClock(nowMs) then None else NormalizeState(cfg, stored, nowMs);
    if current.None? || current.value.nextProbeAtMs != lease.nextProbeAtMs || current.value.snapshot.Some?
       || nowMs + cfg.ttlMs > MAX_SAFE_INTEGER
    then (stored, Instance(Some(lease), Decided(Unavailable(cfg), nowMs)))
    else
      var sn := Snapshot(nowMs, nowMs + cfg.ttlMs, i.flight.status, i.flight.value);
      var committed := State(VERSION, cfg.identity, nowMs + cfg.ttlMs, Some(sn));
      (Present(committed), Instance(Some(committed), Decided(Materialize(cfg, sn), nowMs)))
  }

  // ---- the object ----

  class Storage {
    var stored: Stored

    constructor (stored: Stored)
      ensures this.stored == stored
    {
      this.stored := stored;
    }
  }

  class RecoveryV2ObservationCache {
    const cfg: Config
    const storage: Storage
    var memoryState: Option<State>
    var refreshFlight: Flight

    ghost function Value(): Instance
      reads this
    {
      Instance(memoryState, refreshFlight)
    }

    constructor (cfg: Config, storage: Storage)
      ensures this.cfg == cfg && this.storage == storage && Value() == NEW_INSTANCE
    {
      this.cfg, this.storage := cfg, storage;
      memoryState, refreshFlight := None, Idle;
    }

    method Read(readAtMs: int) returns (answer: ReadAnswer)
      modifies this
      ensures (Value(), answer) == ReadStep(cfg, old(Value()), readAtMs)
    {
      if !IsClock(readAtMs) {
        memoryState := None;
        return Now(Unavailable(cfg));
      }
      if !refreshFlight.Idle? {
        return Joined;
      }
      var decision := Decide(memoryState, readAtMs);
      if decision.Serve? {
        return Now(Materialize(cfg, decision.snapshot));
      }
      if decision.Leased? {
        return Now(Unavailable(cfg));
      }
      refreshFlight := Starting;
      answer := Started;
    }

    method AcquireLease(nowMs: int, fails: bool)
      requires refreshFlight.Starting?
      modifies this, storage
      ensures (storage.stored, Value()) == LeaseStep(cfg, old(storage.stored), old(Value()), nowMs, fails)
    {
      var current := if fails || !IsClock(nowMs) then None else NormalizeState(cfg, storage.stored, nowMs);
      if current.None? {
        memoryState, refreshFlight := None, Decided(Unavailable(cfg), nowMs);
        return;
      }
      var decision := Decide(current, nowMs);
      if decision.Refresh? {
        if nowMs + cfg.ttlMs > MAX_SAFE_INTEGER {
          memoryState, refreshFlight := None, Decided(Unavailable(cfg), nowMs);
          return;
        }
        var lease := State(VERSION, cfg.identity, nowMs + cfg.ttlMs, None);
        storage.stored := Present(lease);
        memoryState, refreshFlight := Some(lease), Observing(lease);
      } else {
        memoryState := current;
        var response := if decision.Serve? then Materialize(cfg, decision.snapshot) else Unavailable(cfg);
        refreshFlight := Decided(response, nowMs);
      }
    }

    method Observe(result: Option<Response>, nowMs: int)
      requires refreshFlight.Observing?
      modifies this`refreshFlight
      ensures Value() == ObserveStep(cfg, old(Value()), result, nowMs)
    {
      var observation := NormalizeObservation(result);
      if observation.None? {
        refreshFlight := Decided(Unavailable(cfg), nowMs);
      } else {
        refreshFlight := Committing(refreshFlight.lease, observation.value.0, observation.value.1);
      }
    }

    method CommitObservation(nowMs: int, fails: bool)
      requires refreshFlight.Committing?
      modifies this, storage
      ensures (storage.stored, Value()) == CommitStep(cfg, old(storage.stored), old(Value()), nowMs, fails)
    {
      var lease := refreshFlight.lease;
      var current := if fails || !IsClock(nowMs) then None else NormalizeState(cfg, storage.stored, nowMs);
      if current.None? || current.value.nextProbeAtMs != lease.nextProbeAtMs || current.value.snapshot.Some?
         || nowMs + cfg.ttlMs > MAX_SAFE_INTEGER {
        memoryState, refreshFlight := Some(lease), Decided(Unavailable(cfg), nowMs);
        return;
      }
      var sn := Snapshot(nowMs, nowMs + cfg.ttlMs, refreshFlight.status, refreshFlight.value);
      var committed := State(VERSION, cfg.identity, nowMs + cfg.ttlMs, Some(sn));
      storage.stored := Present(committed);
      memoryState, refreshFlight := Some(committed), Decided(Materialize(cfg, sn), nowMs);
    }

    /** Clears the flight and hands its response to everyone who joined it. */
    method Finish() returns (response: Response)
      requires refreshFlight.Decided?
      modifies this`refreshFlight
      ensures response == old(refreshFlight).response && Value() == old(Value()).(flight := Idle)
    {
      response := refreshFlight.response;
      refreshFlight := Idle;
    }
  }

  // ---- what a write is accepted as ----

  /** A lease written at a reading is accepted at exactly the readings not before it, if its identity can be
      stored; otherwise it is refused at every reading. */
  lemma LeaseAcceptedIff(cfg: Config, stored: Stored, i: Instance, nowMs: int, later: int)
    requires Legal(cfg) && i.flight.Starting? && IsClock(later)
    requires LeaseStep(cfg, stored, i, nowMs, false).1.flight.Observing?
    ensures NormalizeState(cfg, LeaseStep(cfg, stored, i, nowMs, false).0, later).Some? <==>
              nowMs <= later && Storable(cfg)
  {
    hide NormalizeState;
    LeaseWrites(cfg, stored, i, nowMs);
    Accepted(cfg, State(VERSION, cfg.identity, nowMs + cfg.ttlMs, None), nowMs, later);
  }

  lemma LeaseWrites(cfg: Config, stored: Stored, i: Instance, nowMs: int)
    requires i.flight.Starting? && LeaseStep(cfg, stored, i, nowMs, false).1.flight.Observing?
    ensures LeaseStep(cfg, stored, i, nowMs, false).0 == Present(State(VERSION, cfg.identity, nowMs + cfg.ttlMs, None))
    ensures IsClock(nowMs) && nowMs + cfg.ttlMs <= MAX_SAFE_INTEGER
  {
    hide NormalizeState;
  }

  lemma Accepted(cfg: Config, s: State, nowMs: int, later: int)
    requires Legal(cfg) && IsClock(nowMs) && IsClock(later) && nowMs + cfg.ttlMs <= MAX_SAFE_INTEGER
    requires s.version == VERSION && s.identity == cfg.identity && s.nextProbeAtMs == nowMs + cfg.ttlMs
    requires s.snapshot.Some? ==>
               s.snapshot.value.checkedAtMs == nowMs && s.snapshot.value.expiresAtMs == nowMs + cfg.ttlMs
               && ObservationOk(s.snapshot.value.status, s.snapshot.value.value)
    ensures NormalizeState(cfg, Present(s), later).Some? <==> nowMs <= later && Storable(cfg)
  {
    hide ObservationOk;
  }

  /** And so is a committed snapshot. */
  lemma CommitAcceptedIff(cfg: Config, stored: Stored, i: Instance, nowMs: int, later: int)
    requires Legal(cfg) && i.flight.Committing? && ObservationOk(i.flight.status, i.flight.value) && IsClock(later)
    requires IsClock(nowMs) && CommitStep(cfg, stored, i, nowMs, false).0 != stored
    ensures NormalizeState(cfg, CommitStep(cfg, stored, i, nowMs, false).0, later).Some? <==>
              nowMs <= later && Storable(cfg)
  {
    hide NormalizeState, ObservationOk;
    var sn := Snapshot(nowMs, nowMs + cfg.ttlMs, i.flight.status, i.flight.value);
    Accepted(cfg, State(VERSION, cfg.identity, nowMs + cfg.ttlMs, Some(sn)), nowMs, later);
  }
}
