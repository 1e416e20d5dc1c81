/** The value-level specification of src/helper-ledger-worker.mjs: what each request does to the
    policy row and the operation rows, and what it answers. */
module LedgerModel {
  import opened Wrappers
  import opened Numbers
  import opened Text
  import opened LedgerPolicy

  datatype OpState = Admitted | BroadcastPrepared | Settled | Reverted | Stopped

  datatype Row = Row(
    operationId: string, mode: string, requester: string, sourceWallet: string,
    failedHash: string, successHash: string, state: OpState, permitDigest: string,
    maxFeeWei: int, creditWei: int, transactionHash: Option<string>, nonce: Option<int>,
    receiptStatus: Option<int>, blockNumber: Option<int>, reason: Option<string>,
    createdAt: int, updatedAt: int)

  datatype Meta = Meta(policy: Policy, attempts: int, payouts: int, reservedFeeWei: int,
                       activeOperation: Option<string>)

  /** The helper_policy row, if any, and the helper_operations rows in insertion order. */
  datatype State = State(meta: Option<Meta>, rows: seq<Row>)

  const EMPTY: State := State(None, [])

  datatype Operation = Operation(
    operationId: string, mode: string, requester: string, sourceWallet: string, pair: Pair,
    state: OpState, maxFeeWei: int, creditWei: int, transactionHash: Option<string>, nonce: Option<int>,
    receiptStatus: Option<int>, blockNumber: Option<int>, reason: Option<string>,
    createdAt: int, updatedAt: int)

  function Public(r: Row): Operation {
    Operation(r.operationId, r.mode, r.requester, r.sourceWallet, Pair(r.failedHash, r.successHash),
              r.state, r.maxFeeWei, r.creditWei, r.transactionHash, r.nonce, r.receiptStatus, r.blockNumber,
              r.reason, r.createdAt, r.updatedAt)
  }

  // ---- requests, outside inputs and replies ----

  datatype Request =
    | Reserve(input: Reservation)
    | Prepare(operationId: string, permitToken: string, transactionHash: string, nonce: int, maxFeeWei: int)
    | FailBefore(operationId: string, permitToken: string, reason: string)
    | Abandon(operationId: string)
    | Complete(operationId: string, transactionHash: string, receiptStatus: int, blockNumber: int)
    | Read(operationId: string)
    | Inspect
    | AdmissionOf(sourceWallet: string)
    | ReadSource(sourceWallet: string)

  /** What the outside world supplies to one call: the configured policy, the enable flag and the
      clock when the request arrives and again inside the transaction, and the random token.
      Other calls may run between arrival and transaction. */
  datatype Env = Env(configured: Policy, arriveEnabled: bool, arriveMs: nat, freshToken: string,
                     enabled: bool, gateMs: nat, nowMs: int)

  datatype Call = Call(env: Env, received: Policy, request: Request)

  datatype Totals = Totals(identity: Identity, limits: Limits, enabled: bool, attempts: int, payouts: int,
                           reservedFeeWei: int, activeOperationId: Option<string>)

  datatype Reply =
    | ReserveReply(created: bool, permitToken: Option<string>, operation: Operation)
    | PrepareReply(broadcastPermit: bool, operation: Operation)
    | OperationReply(found: Option<Operation>)
    | InspectReply(totals: Totals)
    | AdmissionReply(totals: Totals, sourceWallet: string, found: Option<Operation>)
    | Error(code: LedgerError)

  // ---- lookups ----

  function FindId(rows: seq<Row>, id: string): (r: Option<nat>)
    ensures r.Some? ==> r.value < |rows| && rows[r.value].operationId == id
                        && forall j | 0 <= j < r.value :: rows[j].operationId != id
    ensures r.None? ==> forall j | 0 <= j < |rows| :: rows[j].operationId != id
  {
    if rows == [] then None
    else if rows[|rows| - 1].operationId == id && FindId(rows[..|rows| - 1], id).None? then Some(|rows| - 1)
    else FindId(rows[..|rows| - 1], id)
  }

  function FindSource(rows: seq<Row>, source: string): (r: Option<nat>)
    ensures r.Some? ==> r.value < |rows| && rows[r.value].sourceWallet == source
                        && forall j | 0 <= j < r.value :: rows[j].sourceWallet != source
    ensures r.None? ==> forall j | 0 <= j < |rows| :: rows[j].sourceWallet != source
  {
    if rows == [] then None
    else if rows[|rows| - 1].sourceWallet == source && FindSource(rows[..|rows| - 1], source).None?
    then Some(|rows| - 1)
    else FindSource(rows[..|rows| - 1], source)
  }

  // ---- the check every transaction starts with ----

  predicate IsActive(s: OpState) { s.Admitted? || s.BroadcastPrepared? }
  predicate HasTransaction(s: OpState) { s.BroadcastPrepared? || s.Settled? || s.Reverted? }
  predicate IsFinished(s: OpState) { s.Settled? || s.Reverted? }

  function RowReservation(r: Row): Reservation {
    Reservation(r.operationId, r.mode, r.requester, r.sourceWallet, Pair(r.failedHash, r.successHash), r.maxFeeWei)
  }

  predicate ShapeOk(r: Row) {
    && (if HasTransaction(r.state)
        then r.transactionHash.Some? && LedgerHash(r.transactionHash.value).Some?
             && r.nonce.Some? && IsInteger(r.nonce.value, true, MAX_SAFE_INTEGER)
        else r.transactionHash.None? && r.nonce.None?)
    && (if IsFinished(r.state)
        then r.blockNumber.Some? && IsInteger(r.blockNumber.value, false, MAX_SAFE_INTEGER)
             && r.receiptStatus == Some(if r.state.Settled? then 1 else 0)
        else r.receiptStatus.None? && r.blockNumber.None?)
    && (if r.state.Stopped? then r.reason.Some? && r.reason.value in STOP_REASONS + ["operator-abandoned"]
        else r.reason.None?)
  }

  predicate TimesOk(r: Row) {
    0 < r.createdAt <= r.updatedAt <= MAX_SAFE_INTEGER
  }

  predicate RowOk(c: Crypto, p: Policy, r: Row) {
    && NormalizeReservation(c, p.identity, RowReservation(r)).Some?
    && IsDigest(r.permitDigest)
    && r.maxFeeWei == p.limits.maxFeeWei && r.creditWei == p.limits.creditWei
    && TimesOk(r) && ShapeOk(r)
  }

  function SumFees(rows: seq<Row>): int {
    if rows == [] then 0 else SumFees(rows[..|rows| - 1]) + rows[|rows| - 1].maxFeeWei
  }

  function ActiveIds(rows: seq<Row>): seq<string> {
    if rows == [] then []
    else ActiveIds(rows[..|rows| - 1])
         + (if IsActive(rows[|rows| - 1].state) then [rows[|rows| - 1].operationId] else [])
  }

  function First(ids: seq<string>): Option<string> {
    if ids == [] then None else Some(ids[0])
  }

  predicate TotalsOk(p: Policy, m: Meta, rows: seq<Row>) {
    && |ActiveIds(rows)| <= 1 && First(ActiveIds(rows)) == m.activeOperation
    && m.attempts == |rows| && m.payouts == |rows|
    && IsUint(m.reservedFeeWei, true) && m.reservedFeeWei == SumFees(rows)
    && m.attempts <= p.limits.maxAttempts && m.payouts <= p.limits.maxPayouts
    && SumFees(rows) <= p.limits.maxTotalFeeWei
  }

  predicate Consistent(c: Crypto, p: Policy, m: Meta, rows: seq<Row>) {
    (forall i | 0 <= i < |rows| :: RowOk(c, p, rows[i])) && TotalsOk(p, m, rows)
  }

  /** None when the stored state passes, otherwise the reported error. */
  function Checked(c: Crypto, p: Policy, s: State): Option<LedgerError> {
    if |s.rows| > 32 || (s.meta.None? && s.rows != []) then Some(StateInvalid)
    else if s.meta.None? then None
    else if s.meta.value.policy != p then Some(PolicyChanged)
    else if !Consistent(c, p, s.meta.value, s.rows) then Some(StateInvalid)
    else None
  }

  /** The PRIMARY KEY and UNIQUE constraints of helper_operations. */
  predicate Unique(rows: seq<Row>) {
    forall i, j | 0 <= i < j < |rows| :: Distinct(rows[i], rows[j])
  }

  predicate Distinct(a: Row, b: Row) {
    && a.operationId != b.operationId && a.sourceWallet != b.sourceWallet
    && a.failedHash != b.failedHash && a.successHash != b.successHash
    && (a.transactionHash.Some? ==> a.transactionHash != b.transactionHash)
    && (a.nonce.Some? ==> a.nonce != b.nonce)
  }

  // ---- before the transaction ----

  function Gate(p: Policy, enabled: bool, ms: nat): Option<LedgerError> {
    if !enabled then Some(Disabled)
    else if ms / 1000 >= p.limits.expiresAt then Some(Expired)
    else None
  }

  function CheckRequest(configured: Policy, received: Policy): Result<Policy, LedgerError> {
    var policy, other := NormalizePolicy(configured), NormalizePolicy(received);
    if policy.None? then Err(ConfigInvalid)
    else if other.None? then Err(InputInvalid)
    else if other != policy then Err(PolicyChanged)
    else Ok(policy.value)
  }

  predicate IsToken(s: string) {
    |s| == 72 && forall i | 0 <= i < 72 :: '0' <= s[i] <= '9' || 'a' <= s[i] <= 'f' || s[i] == '-'
  }

  /** A request whose input has been validated, with the policy and the permit digest it carries. */
  datatype Work = Work(policy: Policy, request: Request, digest: string)

  function Arrive(c: Crypto, call: Call): Result<Work, LedgerError> {
    var checked := CheckRequest(call.env.configured, call.received);
    if checked.Err? then Err(checked.error) else
    var p := checked.value;
    match call.request
    case Reserve(input) =>
      var gate := Gate(p, call.env.arriveEnabled, call.env.arriveMs);
      if gate.Some? then Err(gate.value) else
      var normal := NormalizeReservation(c, p.identity, input);
      if normal.None? then Err(InputInvalid)
      else if normal.value.maxFeeWei != p.limits.maxFeeWei then Err(FeeCap)
      else Ok(Work(p, Reserve(normal.value), c.permit(call.env.freshToken)))
    case Prepare(id, token, hash, nonce, fee) =>
      var gate := Gate(p, call.env.arriveEnabled, call.env.arriveMs);
      if gate.Some? then Err(gate.value) else
      var id', hash' := LedgerHash(id), LedgerHash(hash);
      if id'.None? || hash'.None? || !IsInteger(nonce, true, MAX_SAFE_INTEGER) || !IsUint(fee, false)
      then Err(InputInvalid)
      else if fee != p.limits.maxFeeWei then Err(FeeCap)
      else if !IsToken(token) then Err(PermitInvalid)
      else Ok(Work(p, Prepare(id'.value, token, hash'.value, nonce, fee), c.permit(token)))
    case FailBefore(id, token, reason) =>
      var id' := LedgerHash(id);
      if id'.None? || reason !in STOP_REASONS then Err(InputInvalid)
      else if !IsToken(token) then Err(PermitInvalid)
      else Ok(Work(p, FailBefore(id'.value, token, reason), c.permit(token)))
    case Abandon(id) =>
      var id' := LedgerHash(id);
      if id'.None? then Err(InputInvalid) else Ok(Work(p, Abandon(id'.value), ""))
    case Complete(id, hash, status, block) =>
      var id', hash' := LedgerHash(id), LedgerHash(hash);
      if id'.None? || hash'.None? || !IsInteger(block, false, MAX_SAFE_INTEGER) || status !in [0, 1]
      then Err(InputInvalid)
      else Ok(Work(p, Complete(id'.value, hash'.value, status, block), ""))
    case Read(id) =>
      var id' := LedgerHash(id);
      if id'.None? then Err(InputInvalid) else Ok(Work(p, Read(id'.value), ""))
    case Inspect => Ok(Work(p, Inspect, ""))
    case AdmissionOf(source) =>
      var source' := LedgerAddress(source);
      if source'.None? then Err(InputInvalid) else Ok(Work(p, AdmissionOf(source'.value), ""))
    case ReadSource(source) =>
      var source' := LedgerAddress(source);
      if source'.None? then Err(InputInvalid) else Ok(Work(p, ReadSource(source'.value), ""))
  }

  // ---- the transactions ----

  predicate SourceTaken(rows: seq<Row>, input: Reservation) {
    exists i | 0 <= i < |rows| ::
      || rows[i].sourceWallet == input.sourceWallet
      || rows[i].failedHash == input.pair.failedTransactionHash
      || rows[i].successHash == input.pair.successfulTransactionHash
  }

  function NewRow(p: Policy, input: Reservation, digest: string, nowMs: int): Row {
    Row(input.operationId, input.mode, input.requester, input.sourceWallet,
        input.pair.failedTransactionHash, input.pair.successfulTransactionHash, Admitted, digest,
        input.maxFeeWei, p.limits.creditWei, None, None, None, None, None, nowMs, nowMs)
  }

  function Count(s: State): (int, int, int) {
    if s.meta.None? then (0, 0, 0)
    else (s.meta.value.attempts, s.meta.value.payouts, s.meta.value.reservedFeeWei)
  }

  function ReserveStep(c: Crypto, p: Policy, s: State, input: Reservation, digest: string, env: Env): (State, Reply) {
    var gate := Gate(p, env.enabled, env.gateMs);
    if gate.Some? then (s, Error(gate.value)) else
    var failure := Checked(c, p, s);
    if failure.Some? then (s, Error(failure.value)) else
    var existing := FindId(s.rows, input.operationId);
    if existing.Some? then (s, ReserveReply(false, None, Public(s.rows[existing.value])))
    else if SourceTaken(s.rows, input) then (s, Error(SourceReserved))
    else if s.meta.Some? && s.meta.value.activeOperation.Some? then (s, Error(Busy)) else
    var (attempts, payouts, reserved) := Count(s);
    if || attempts + 1 > p.limits.maxAttempts || payouts + 1 > p.limits.maxPayouts
       || reserved + input.maxFeeWei > p.limits.maxTotalFeeWei then (s, Error(BudgetExhausted)) else
    var row := NewRow(p, input, digest, env.nowMs);
    if !Unique(s.rows + [row]) then (s, Error(Unavailable)) else
    var stored := if s.meta.Some? then s.meta.value.policy else p;
    (State(Some(Meta(stored, attempts + 1, payouts + 1, reserved + input.maxFeeWei, Some(input.operationId))),
           s.rows + [row]),
     ReserveReply(true, Some(env.freshToken), Public(row)))
  }

  predicate NonceTaken(rows: seq<Row>, nonce: int, hash: string) {
    exists i | 0 <= i < |rows| ::
      (rows[i].nonce.Some? && rows[i].nonce.value >= nonce) || rows[i].transactionHash == Some(hash)
  }

  function PrepareStep(c: Crypto, p: Policy, s: State, id: string, hash: string, nonce: int, digest: string, env: Env)
    : (State, Reply)
  {
    var gate := Gate(p, env.enabled, env.gateMs);
    if gate.Some? then (s, Error(gate.value)) else
    var failure := Checked(c, p, s);
    if failure.Some? then (s, Error(failure.value)) else
    var found := FindId(s.rows, id);
    if found.None? || s.rows[found.value].permitDigest != digest then (s, Error(PermitInvalid)) else
    var row := s.rows[found.value];
    if row.state.BroadcastPrepared? && row.transactionHash == Some(hash) && row.nonce == Some(nonce)
    then (s, PrepareReply(false, Public(row)))
    else if !row.state.Admitted? then (s, Error(StateConflict))
    else if NonceTaken(s.rows, nonce, hash) then (s, Error(NonceReserved)) else
    var row' := row.(state := BroadcastPrepared, transactionHash := Some(hash), nonce := Some(nonce),
                     updatedAt := env.nowMs);
    if !Unique(s.rows[found.value := row']) then (s, Error(Unavailable))
    else (State(s.meta, s.rows[found.value := row']), PrepareReply(true, Public(row')))
  }

  function ClearActive(m: Option<Meta>): Option<Meta> {
    if m.None? then None else Some(m.value.(activeOperation := None))
  }

  function StopAdmitted(s: State, found: Option<nat>, reason: string, nowMs: int): (State, Reply)
    requires found.Some? ==> found.value < |s.rows|
  {
    if found.None? then (s, Error(NotFound)) else
    var row := s.rows[found.value];
    if row.state.Stopped? then (s, OperationReply(Some(Public(row))))
    else if !row.state.Admitted? then (s, Error(StateConflict)) else
    var row' := row.(state := Stopped, reason := Some(reason), updatedAt := nowMs);
    (State(ClearActive(s.meta), s.rows[found.value := row']), OperationReply(Some(Public(row'))))
  }

  function FailStep(c: Crypto, p: Policy, s: State, id: string, reason: string, digest: string, env: Env)
    : (State, Reply)
  {
    var failure := Checked(c, p, s);
    if failure.Some? then (s, Error(failure.value)) else
    var found := FindId(s.rows, id);
    if found.None? || s.rows[found.value].permitDigest != digest then (s, Error(PermitInvalid))
    else StopAdmitted(s, found, reason, env.nowMs)
  }

  function AbandonStep(c: Crypto, p: Policy, s: State, id: string, env: Env): (State, Reply) {
    var failure := Checked(c, p, s);
    if failure.Some? then (s, Error(failure.value))
    else StopAdmitted(s, FindId(s.rows, id), "operator-abandoned", env.nowMs)
  }

  function CompleteStep(c: Crypto, p: Policy, s: State, id: string, hash: string, status: int, block: int, env: Env)
    : (State, Reply)
  {
    var failure := Checked(c, p, s);
    if failure.Some? then (s, Error(failure.value)) else
    var found := FindId(s.rows, id);
    if found.None? || s.rows[found.value].transactionHash != Some(hash) then (s, Error(StateConflict)) else
    var row := s.rows[found.value];
    if IsFinished(row.state) && row.receiptStatus == Some(status) && row.blockNumber == Some(block)
    then (s, OperationReply(Some(Public(row))))
    else if !row.state.BroadcastPrepared? then (s, Error(StateConflict)) else
    var row' := row.(state := if status == 1 then Settled else Reverted, receiptStatus := Some(status),
                     blockNumber := Some(block), updatedAt := env.nowMs);
    (State(ClearActive(s.meta), s.rows[found.value := row']), OperationReply(Some(Public(row'))))
  }

  function PublicAt(rows: seq<Row>, found: Option<nat>): Option<Operation>
    requires found.Some? ==> found.value < |rows|
  {
    if found.None? then None else Some(Public(rows[found.value]))
  }

  function TotalsOf(p: Policy, s: State, env: Env): Totals {
    var (attempts, payouts, reserved) := Count(s);
    Totals(p.identity, p.limits, Gate(p, env.enabled, env.gateMs).None?, attempts, payouts, reserved,
           if s.meta.None? then None else s.meta.value.activeOperation)
  }

  function ReadStep(c: Crypto, p: Policy, s: State, request: Request, env: Env): Reply
    requires request.Read? || request.Inspect? || request.AdmissionOf? || request.ReadSource?
  {
    var failure := Checked(c, p, s);
    if failure.Some? then Error(failure.value) else
    match request
    case Read(id) => OperationReply(PublicAt(s.rows, FindId(s.rows, id)))
    case Inspect => InspectReply(TotalsOf(p, s, env))
    case AdmissionOf(source) =>
      AdmissionReply(TotalsOf(p, s, env), source, PublicAt(s.rows, FindSource(s.rows, source)))
    case ReadSource(source) => OperationReply(PublicAt(s.rows, FindSource(s.rows, source)))
  }

  /** One transactionSync body. */
  function Transact(c: Crypto, s: State, w: Work, env: Env): (State, Reply) {
    match w.request
    case Reserve(input) => ReserveStep(c, w.policy, s, input, w.digest, env)
    case Prepare(id, _, hash, nonce, _) => PrepareStep(c, w.policy, s, id, hash, nonce, w.digest, env)
    case FailBefore(id, _, reason) => FailStep(c, w.policy, s, id, reason, w.digest, env)
    case Abandon(id) => AbandonStep(c, w.policy, s, id, env)
    case Complete(id, hash, status, block) => CompleteStep(c, w.policy, s, id, hash, status, block, env)
    case _ => (s, ReadStep(c, w.policy, s, w.request, env))
  }

  /** A whole call. Arrival reads no stored state, so a run is the order of the transactions. */
  function Step(c: Crypto, s: State, call: Call): (State, Reply) {
    var work := Arrive(c, call);
    if work.Err? then (s, Error(work.error)) else Transact(c, s, work.value, call.env)
  }
}
