/** The ledger invariant: every state reached under a non-decreasing clock passes its own check, so
    no call reports invalid state and no SQL constraint can fire; and the exact clock condition. */
module LedgerSafety {
  import opened Wrappers
  import opened Numbers
  import opened Text
  import opened LedgerPolicy
  import opened LedgerModel
  import opened LedgerHistory

  // ---- the invariant ----

  /** What a stored row satisfies whatever the clock did: canonical text and a consistent shape. */
  ghost predicate RowCore(c: Crypto, p: Policy, r: Row) {
    && NormalizeReservation(c, p.identity, RowReservation(r)) == Some(RowReservation(r))
    && IsDigest(r.permitDigest)
    && r.maxFeeWei == p.limits.maxFeeWei && r.creditWei == p.limits.creditWei
    && ShapeOk(r)
    && (r.transactionHash.Some? ==> LedgerHash(r.transactionHash.value) == r.transactionHash)
  }

  ghost predicate Core(c: Crypto, s: State) {
    if s.meta.None? then s.rows == []
    else
      var m := s.meta.value;
      && PolicyOk(m.policy)
      && (forall i | 0 <= i < |s.rows| :: RowCore(c, m.policy, s.rows[i]))
      && TotalsOk(m.policy, m, s.rows)
      && Unique(s.rows)
  }

  ghost predicate AllTimesOk(rows: seq<Row>) {
    forall i | 0 <= i < |rows| :: TimesOk(rows[i])
  }

  ghost predicate Inv(c: Crypto, s: State) {
    Core(c, s) && AllTimesOk(s.rows)
  }

  /** A state with a sound core passes the ledger's check exactly when its row times are sound. */
  lemma CheckedIffTimes(c: Crypto, s: State)
    requires Core(c, s)
    ensures s.meta.Some? ==> (Checked(c, s.meta.value.policy, s).None? <==> AllTimesOk(s.rows))
    ensures s.meta.None? ==> forall p :: Checked(c, p, s).None?
  {
    hide NormalizeReservation, ShapeOk, IsDigest, Unique, ActiveIds, SumFees, TimesOk;
    if s.meta.Some? {
      var p := s.meta.value.policy;
      assert |s.rows| <= 32;
      if AllTimesOk(s.rows) {
        assert forall i | 0 <= i < |s.rows| :: RowOk(c, p, s.rows[i]);
      } else {
        var i :| 0 <= i < |s.rows| && !TimesOk(s.rows[i]);
        assert !RowOk(c, p, s.rows[i]);
      }
    }
  }

  // ---- totals under the two kinds of change ----

  lemma Appended(rows: seq<Row>, r: Row)
    ensures SumFees(rows + [r]) == SumFees(rows) + r.maxFeeWei
    ensures ActiveIds(rows + [r]) == ActiveIds(rows) + (if IsActive(r.state) then [r.operationId] else [])
  {
    assert (rows + [r])[..|rows|] == rows;
  }

  lemma {:induction false} Updated(rows: seq<Row>, k: nat, r: Row)
    requires k < |rows| && r.operationId == rows[k].operationId && r.maxFeeWei == rows[k].maxFeeWei
    requires IsActive(r.state) ==> IsActive(rows[k].state)
    ensures SumFees(rows[k := r]) == SumFees(rows)
    ensures if IsActive(r.state) == IsActive(rows[k].state) then ActiveIds(rows[k := r]) == ActiveIds(rows)
            else |ActiveIds(rows[k := r])| == |ActiveIds(rows)| - 1
  {
    hide IsActive;
    var n := |rows| - 1;
    if k == n {
      assert rows[k := r][..n] == rows[..n];
    } else {
      assert rows[k := r][..n] == rows[..n][k := r];
      Updated(rows[..n], k, r);
    }
  }

  lemma {:induction false} ActiveMember(rows: seq<Row>, id: string)
    ensures id in ActiveIds(rows) <==>
            exists k | 0 <= k < |rows| :: rows[k].operationId == id && IsActive(rows[k].state)
  {
    if rows != [] {
      ActiveMember(rows[..|rows| - 1], id);
    }
  }

  /** Replacing one row by a later version of it keeps the constraints when its keys are fresh. */
  lemma UniqueUpdate(rows: seq<Row>, k: nat, r: Row)
    requires Unique(rows) && k < |rows|
    requires r.operationId == rows[k].operationId && r.sourceWallet == rows[k].sourceWallet
    requires r.failedHash == rows[k].failedHash && r.successHash == rows[k].successHash
    requires (r.transactionHash == rows[k].transactionHash && r.nonce == rows[k].nonce)
             || (r.transactionHash.Some? && r.nonce.Some? && !NonceTaken(rows, r.nonce.value, r.transactionHash.value))
    ensures Unique(rows[k := r])
  {
    var rows' := rows[k := r];
    forall i, j | 0 <= i < j < |rows'| ensures Distinct(rows'[i], rows'[j]) {
      assert Distinct(rows[i], rows[j]);
    }
  }

  // ---- what arrival guarantees ----

  ghost predicate WorkOk(c: Crypto, w: Work) {
    && PolicyOk(w.policy)
    && match w.request
       case Reserve(input) =>
         && NormalizeReservation(c, w.policy.identity, input) == Some(input)
         && input.maxFeeWei == w.policy.limits.maxFeeWei && IsDigest(w.digest)
       case Prepare(_, _, hash, nonce, _) => LedgerHash(hash) == Some(hash) && IsInteger(nonce, true, MAX_SAFE_INTEGER)
       case FailBefore(_, _, reason) => reason in STOP_REASONS
       case Complete(_, _, status, block) => status in [0, 1] && IsInteger(block, false, MAX_SAFE_INTEGER)
       case _ => true
  }

  lemma ArrivalOk(c: Crypto, call: Call)
    requires CryptoOk(c) && Arrive(c, call).Ok?
    ensures WorkOk(c, Arrive(c, call).value)
  {
    hide NormalizePolicy, NormalizeReservation, LedgerHash, LedgerAddress, IsToken, PolicyOk, IsDigest, Gate;
    NormalizePolicyIsCanonical(call.env.configured);
    var p := Arrive(c, call).value.policy;
    match call.request
    case Reserve(input) => ReservationIsCanonical(c, p.identity, input);
    case Prepare(_, _, hash, _, _) => HashIsCanonical(hash);
    case _ =>
  }

  /** The check of an invariant state can only fail because another policy is configured. */
  lemma CheckPasses(c: Crypto, p: Policy, s: State)
    requires Inv(c, s) && Checked(c, p, s).Some?
    ensures Checked(c, p, s) == Some(PolicyChanged) && s.meta.Some? && s.meta.value.policy != p
  {
    hide AllTimesOk, Consistent, Unique, RowCore, PolicyOk;
    CheckedIffTimes(c, s);
    if s.meta.Some? {
      RowsBounded(c, s);
    }
  }

  lemma RowsBounded(c: Crypto, s: State)
    requires Core(c, s) && s.meta.Some?
    ensures |s.rows| <= 32 && LimitsOk(s.meta.value.policy.limits)
  {
    hide RowCore, Unique;
  }

  // ---- one step ----

  /** The new state keeps the core, and the answer reports neither a broken state nor a constraint. */
  ghost predicate Sound(c: Crypto, t: State, r: Reply) {
    Core(c, t) && r != Error(StateInvalid) && r != Error(Unavailable)
  }

  /** Storing a later version of one row, and clearing the pointer when that row stops being active. */
  lemma CoreUpdate(c: Crypto, s: State, k: nat, r: Row)
    requires Core(c, s) && s.meta.Some? && k < |s.rows|
    requires RowCore(c, s.meta.value.policy, r)
    requires r.operationId == s.rows[k].operationId && (IsActive(r.state) ==> IsActive(s.rows[k].state))
    requires Unique(s.rows[k := r])
    ensures var meta := if IsActive(r.state) == IsActive(s.rows[k].state) then s.meta else ClearActive(s.meta);
            Core(c, State(meta, s.rows[k := r]))
  {
    hide RowCore, Unique, PolicyOk;
    assert RowCore(c, s.meta.value.policy, s.rows[k]);
    SameFee(c, s.meta.value.policy, s.rows[k], r);
    Updated(s.rows, k, r);
  }

  lemma SameFee(c: Crypto, p: Policy, a: Row, b: Row)
    requires RowCore(c, p, a) && RowCore(c, p, b)
    ensures a.maxFeeWei == b.maxFeeWei
  {
  }

  /** Storing a fresh row whose fee still fits makes it the one active row. */
  lemma CoreAppend(c: Crypto, p: Policy, s: State, row: Row)
    requires Core(c, s) && PolicyOk(p)
             && (s.meta.Some? ==> s.meta.value.policy == p && s.meta.value.activeOperation.None?)
    requires RowCore(c, p, row) && row.state.Admitted? && Unique(s.rows + [row])
    requires var (attempts, payouts, reserved) := Count(s);
             && attempts + 1 <= p.limits.maxAttempts && payouts + 1 <= p.limits.maxPayouts
             && reserved + row.maxFeeWei <= p.limits.maxTotalFeeWei
    ensures var (attempts, payouts, reserved) := Count(s);
            Core(c, State(Some(Meta(p, attempts + 1, payouts + 1, reserved + row.maxFeeWei, Some(row.operationId))),
                          s.rows + [row]))
  {
    hide RowCore, Unique, PolicyOk, SumFees, ActiveIds;
    Appended(s.rows, row);
    BudgetBound(c, p, s);
    FeeOf(c, p, row);
    forall i | 0 <= i < |s.rows + [row]| ensures RowCore(c, p, (s.rows + [row])[i]) {
      assert i < |s.rows| ==> RowCore(c, p, s.rows[i]);
    }
  }

  lemma FeeOf(c: Crypto, p: Policy, row: Row)
    requires RowCore(c, p, row)
    ensures row.maxFeeWei == p.limits.maxFeeWei
  {
  }

  lemma NewRowCore(c: Crypto, p: Policy, input: Reservation, digest: string, nowMs: int)
    requires NormalizeReservation(c, p.identity, input) == Some(input) && input.maxFeeWei == p.limits.maxFeeWei
             && IsDigest(digest)
    ensures RowCore(c, p, NewRow(p, input, digest, nowMs))
  {
    hide NormalizeReservation, IsDigest;
    assert RowReservation(NewRow(p, input, digest, nowMs)) == input;
  }

  lemma ReserveKeepsCore(c: Crypto, s: State, w: Work, env: Env)
    requires Inv(c, s) && w.request.Reserve? && WorkOk(c, w)
    ensures var (t, r) := ReserveStep(c, w.policy, s, w.request.input, w.digest, env); Sound(c, t, r)
  {
    hide Core, Checked, PolicyOk, NormalizeReservation, IsDigest, FindId, SourceTaken, Unique, LedgerHash, AllTimesOk,
         RowCore, NewRow;
    var p, input := w.policy, w.request.input;
    if Checked(c, p, s).Some? {
      CheckPasses(c, p, s);
    } else {
      StoredPolicy(c, p, s);
      var row := NewRow(p, input, w.digest, env.nowMs);
      if FindId(s.rows, input.operationId).None? && !SourceTaken(s.rows, input)
          && (s.meta.Some? ==> s.meta.value.activeOperation.None?) {
        var (attempts, payouts, reserved) := Count(s);
        if && attempts + 1 <= p.limits.maxAttempts && payouts + 1 <= p.limits.maxPayouts
           && reserved + input.maxFeeWei <= p.limits.maxTotalFeeWei {
          RowOfInput(p, input, w.digest, env.nowMs);
          RowsUnique(c, s);
          FreshIsUnique(s.rows, row, input);
          NewRowCore(c, p, input, w.digest, env.nowMs);
          CoreAppend(c, p, s, row);
        }
      }
    }
  }

  lemma RowOfInput(p: Policy, input: Reservation, digest: string, nowMs: int)
    ensures var row := NewRow(p, input, digest, nowMs);
            && RowReservation(row) == input && row.transactionHash.None? && row.nonce.None? && row.state.Admitted?
            && row.maxFeeWei == input.maxFeeWei && row.operationId == input.operationId
  {
  }

  lemma RowsUnique(c: Crypto, s: State)
    requires Core(c, s)
    ensures Unique(s.rows)
  {
    hide RowCore;
  }

  lemma BudgetBound(c: Crypto, p: Policy, s: State)
    requires Core(c, s) && PolicyOk(p) && (s.meta.Some? ==> s.meta.value.policy == p)
    ensures 0 <= Count(s).2 && LimitsOk(p.limits) && p.limits.maxTotalFeeWei <= MAX_UINT && 0 < p.limits.maxFeeWei
    ensures s.meta.None? ==> SumFees(s.rows) == 0 && ActiveIds(s.rows) == []
  {
    hide RowCore, Unique;
  }

  lemma StoredPolicy(c: Crypto, p: Policy, s: State)
    requires Checked(c, p, s).None?
    ensures s.meta.Some? ==> s.meta.value.policy == p
  {
    hide Consistent;
  }

  lemma FreshIsUnique(rows: seq<Row>, row: Row, input: Reservation)
    requires Unique(rows) && RowReservation(row) == input && row.transactionHash.None? && row.nonce.None?
    requires FindId(rows, input.operationId).None? && !SourceTaken(rows, input)
    ensures Unique(rows + [row])
  {
    hide FindId;
    var rows' := rows + [row];
    forall i, j | 0 <= i < j < |rows'| ensures Distinct(rows'[i], rows'[j]) {
      if j < |rows| {
        assert Distinct(rows[i], rows[j]);
      } else {
        assert rows[i].operationId != input.operationId;
      }
    }
  }

  lemma PrepareKeepsCore(c: Crypto, s: State, w: Work, env: Env)
    requires Inv(c, s) && w.request.Prepare? && WorkOk(c, w)
    ensures var q := w.request;
            var (t, r) := PrepareStep(c, w.policy, s, q.operationId, q.transactionHash, q.nonce, w.digest, env);
            Sound(c, t, r)
  {
    hide Checked, PolicyOk, NormalizeReservation, IsDigest, FindId, LedgerHash, AllTimesOk, NonceTaken, Unique,
         TotalsOk;
    var p := w.policy;
    if Checked(c, p, s).Some? {
      CheckPasses(c, p, s);
    } else {
      var found := FindId(s.rows, w.request.operationId);
      if found.Some? && s.rows[found.value].state.Admitted?
          && !NonceTaken(s.rows, w.request.nonce, w.request.transactionHash) {
        var k := found.value;
        var row := s.rows[k].(state := BroadcastPrepared, transactionHash := Some(w.request.transactionHash),
                              nonce := Some(w.request.nonce), updatedAt := env.nowMs);
        assert RowCore(c, s.meta.value.policy, s.rows[k]);
        assert RowReservation(row) == RowReservation(s.rows[k]);
        UniqueUpdate(s.rows, k, row);
        CoreUpdate(c, s, k, row);
      }
    }
  }

  lemma StopKeepsCore(c: Crypto, s: State, id: string, reason: string, nowMs: int)
    requires Inv(c, s) && reason in STOP_REASONS + ["operator-abandoned"]
    ensures var (t, r) := StopAdmitted(s, FindId(s.rows, id), reason, nowMs); Sound(c, t, r)
  {
    hide PolicyOk, NormalizeReservation, IsDigest, FindId, LedgerHash, AllTimesOk, Unique, TotalsOk;
    var found := FindId(s.rows, id);
    if found.Some? && s.rows[found.value].state.Admitted? {
      var k := found.value;
      var row := s.rows[k].(state := Stopped, reason := Some(reason), updatedAt := nowMs);
      assert RowCore(c, s.meta.value.policy, s.rows[k]);
      assert RowReservation(row) == RowReservation(s.rows[k]);
      UniqueUpdate(s.rows, k, row);
      CoreUpdate(c, s, k, row);
    }
  }

  lemma CompleteKeepsCore(c: Crypto, s: State, w: Work, env: Env)
    requires Inv(c, s) && w.request.Complete? && WorkOk(c, w)
    ensures var q := w.request;
            var (t, r) := CompleteStep(c, w.policy, s, q.operationId, q.transactionHash, q.receiptStatus,
                                       q.blockNumber, env);
            Sound(c, t, r)
  {
    hide Checked, PolicyOk, NormalizeReservation, IsDigest, FindId, LedgerHash, AllTimesOk, Unique, TotalsOk;
    var p, q := w.policy, w.request;
    if Checked(c, p, s).Some? {
      CheckPasses(c, p, s);
    } else {
      var found := FindId(s.rows, q.operationId);
      if found.Some? && s.rows[found.value].state.BroadcastPrepared? {
        var k := found.value;
        var row := s.rows[k].(state := if q.receiptStatus == 1 then Settled else Reverted,
                              receiptStatus := Some(q.receiptStatus), blockNumber := Some(q.blockNumber),
                              updatedAt := env.nowMs);
        assert RowCore(c, s.meta.value.policy, s.rows[k]);
        assert RowReservation(row) == RowReservation(s.rows[k]);
        UniqueUpdate(s.rows, k, row);
        CoreUpdate(c, s, k, row);
      }
    }
  }

  /** One step keeps the core invariant and never reports invalid state or a constraint failure. */
  lemma StepKeepsCore(c: Crypto, s: State, call: Call)
    requires CryptoOk(c) && Inv(c, s)
    ensures var (t, r) := Step(c, s, call); Sound(c, t, r)
  {
    hide Core, AllTimesOk, Checked, WorkOk, ReserveStep, PrepareStep, StopAdmitted, CompleteStep;
    var work := Arrive(c, call);
    if work.Err? {
      ArrivalErrors(c, call);
      return;
    }
    var w := work.value;
    ArrivalOk(c, call);
    if Checked(c, w.policy, s).Some? {
      CheckPasses(c, w.policy, s);
    }
    match w.request
    case Reserve(input) => ReserveKeepsCore(c, s, w, call.env);
    case Prepare(_, _, _, _, _) => PrepareKeepsCore(c, s, w, call.env);
    case FailBefore(id, _, reason) => ReasonListed(c, w); StopKeepsCore(c, s, id, reason, call.env.nowMs);
    case Abandon(id) => StopKeepsCore(c, s, id, "operator-abandoned", call.env.nowMs);
    case Complete(_, _, _, _) => CompleteKeepsCore(c, s, w, call.env);
    case _ =>
  }

  lemma ReasonListed(c: Crypto, w: Work)
    requires WorkOk(c, w) && w.request.FailBefore?
    ensures w.request.reason in STOP_REASONS + ["operator-abandoned"]
  {
    hide PolicyOk;
  }

  lemma ArrivalErrors(c: Crypto, call: Call)
    requires Arrive(c, call).Err?
    ensures Arrive(c, call).error != StateInvalid && Arrive(c, call).error != Unavailable
  {
    hide NormalizePolicy, NormalizeReservation, LedgerHash, LedgerAddress, IsToken;
  }

  // ---- the clock ----

  /** The row a call addresses, if its input is valid and names a stored operation. */
  ghost function TargetRow(c: Crypto, s: State, call: Call): (r: Option<nat>)
    ensures r.Some? ==> r.value < |s.rows|
  {
    var work := Arrive(c, call);
    if work.Err? then None
    else match work.value.request
         case Prepare(id, _, _, _, _) => FindId(s.rows, id)
         case FailBefore(id, _, _) => FindId(s.rows, id)
         case Abandon(id) => FindId(s.rows, id)
         case Complete(id, _, _, _) => FindId(s.rows, id)
         case _ => None
  }

  /** The reading a call would store is positive, safe and not before the creation of the row it addresses. */
  ghost predicate StampOk(c: Crypto, s: State, call: Call) {
    && 0 < call.env.nowMs <= MAX_SAFE_INTEGER
    && var target := TargetRow(c, s, call);
    (target.Some? ==> s.rows[target.value].createdAt <= call.env.nowMs)
  }

  /** A mutating step rewrites exactly one row, the addressed one or a new one, and stamps it with the
      transaction's reading. */
  lemma WrittenRow(c: Crypto, s: State, call: Call) returns (w: nat)
    requires Step(c, s, call).0 != s
    ensures var t := Step(c, s, call).0;
            && w < |t.rows| && |t.rows| == (if w < |s.rows| then |s.rows| else |s.rows| + 1)
            && TargetRow(c, s, call) == (if w < |s.rows| then Some(w) else None)
            && (w < |s.rows| ==> t.rows[w] != s.rows[w])
            && t.rows[w].updatedAt == call.env.nowMs
            && t.rows[w].createdAt == (if w < |s.rows| then s.rows[w].createdAt else call.env.nowMs)
            && (forall i | 0 <= i < |t.rows| && i != w :: i < |s.rows| && t.rows[i] == s.rows[i])
            && t.meta.Some?
            && !Step(c, s, call).1.Error?
  {
    hide Unique, NonceTaken, SourceTaken, NormalizeReservation, CheckRequest, LedgerHash, LedgerAddress, IsToken,
         FindId, Consistent;
    var work := Arrive(c, call);
    match work.value.request
    case Reserve(_) => w := |s.rows|;
    case Prepare(id, _, _, _, _) => w := FindId(s.rows, id).value;
    case FailBefore(id, _, _) => w := FindId(s.rows, id).value;
    case Abandon(id) => w := FindId(s.rows, id).value;
    case Complete(id, _, _, _) => w := FindId(s.rows, id).value;
    case _ =>
  }

  /** The exact clock condition of one step: the state a mutating call leaves passes the check on the
      next call if and only if its stamp is sound. */
  lemma ClockCondition(c: Crypto, s: State, call: Call)
    requires CryptoOk(c) && Inv(c, s) && Step(c, s, call).0 != s
    ensures var t := Step(c, s, call).0;
            && t.meta.Some? && Core(c, t) && (Inv(c, t) <==> StampOk(c, s, call))
            && (Checked(c, t.meta.value.policy, t).None? <==> StampOk(c, s, call))
  {
    hide Step, Core, Checked, TargetRow;
    var w := WrittenRow(c, s, call);
    StepKeepsCore(c, s, call);
    var t := Step(c, s, call).0;
    CheckedIffTimes(c, t);
    assert w < |s.rows| ==> TimesOk(s.rows[w]);
    if TimesOk(t.rows[w]) {
      forall i | 0 <= i < |t.rows| ensures TimesOk(t.rows[i]) {
        assert i == w || TimesOk(s.rows[i]);
      }
    }
  }

  /** The state fails the check whatever policy is configured. */
  ghost predicate Broken(c: Crypto, s: State) {
    forall p :: Checked(c, p, s).Some?
  }

  /** A state that fails its own check is never changed again: corruption is not repaired or reset. */
  lemma BrokenStateIsFrozen(c: Crypto, s: State, call: Call)
    requires Broken(c, s)
    ensures Step(c, s, call).0 == s && (Arrive(c, call).Ok? ==> Step(c, s, call).1.Error?)
  {
    hide Checked, Unique, NonceTaken, SourceTaken, NormalizeReservation, CheckRequest, LedgerHash, LedgerAddress,
         IsToken;
    if Arrive(c, call).Ok? {
      var w := Arrive(c, call).value;
      assert Checked(c, w.policy, s).Some?;
    }
  }

  // ---- the clock over a run ----

  /** Every one of the first n calls that changed the tables had a sound stamp. Calls that only read, or
      fail, may carry any reading. */
  ghost predicate InOrder(c: Crypto, calls: seq<Call>, n: nat)
    requires n <= |calls|
  {
    forall i | 0 <= i < n && StateAt(c, calls, i + 1) != StateAt(c, calls, i) ::
      StampOk(c, StateAt(c, calls, i), calls[i])
  }

  /** Every state reached in order satisfies the invariant. */
  lemma {:induction false} Reachable(c: Crypto, calls: seq<Call>, n: nat)
    requires CryptoOk(c) && n <= |calls| && InOrder(c, calls, n)
    ensures Inv(c, StateAt(c, calls, n))
  {
    hide Step, Inv, StampOk;
    if n == 0 {
      EmptyInv(c);
    } else {
      assert InOrder(c, calls, n - 1);
      Reachable(c, calls, n - 1);
      if StateAt(c, calls, n) != StateAt(c, calls, n - 1) {
        ClockCondition(c, StateAt(c, calls, n - 1), calls[n - 1]);
      }
    }
  }

  lemma EmptyInv(c: Crypto)
    ensures Inv(c, EMPTY)
  {
  }

  /** The first change out of order. */
  lemma {:induction false} FirstDisorder(c: Crypto, calls: seq<Call>, n: nat) returns (i: nat)
    requires n <= |calls| && !InOrder(c, calls, n)
    ensures i < n && InOrder(c, calls, i) && StateAt(c, calls, i + 1) != StateAt(c, calls, i)
    ensures !StampOk(c, StateAt(c, calls, i), calls[i])
  {
    hide Step, StampOk;
    i := n - 1;
    if !InOrder(c, calls, n - 1) {
      i := FirstDisorder(c, calls, n - 1);
    }
  }

  /** What it leaves fails the check for every policy, and stays. */
  lemma DisorderBreaks(c: Crypto, calls: seq<Call>, i: nat)
    requires CryptoOk(c) && i < |calls| && InOrder(c, calls, i)
    requires StateAt(c, calls, i + 1) != StateAt(c, calls, i) && !StampOk(c, StateAt(c, calls, i), calls[i])
    ensures var t := StateAt(c, calls, i + 1);
            Core(c, t) && t.meta.Some? && Broken(c, t) && Checked(c, t.meta.value.policy, t).Some?
  {
    hide Step, Core, StampOk, AllTimesOk, Checked, InOrder;
    Reachable(c, calls, i);
    ClockCondition(c, StateAt(c, calls, i), calls[i]);
    var t := StateAt(c, calls, i + 1);
    assert t == Step(c, StateAt(c, calls, i), calls[i]).0;
    forall p ensures Checked(c, p, t).Some? { FailsForAll(c, p, t); }
  }

  /** The first call out of order, after which the tables are frozen: they fail the check for every
      policy, and every later valid call is an error, for the stored policy the invalid state. */
  lemma OutOfOrderFreezes(c: Crypto, calls: seq<Call>, n: nat) returns (i: nat)
    requires CryptoOk(c) && n <= |calls| && !InOrder(c, calls, n)
    ensures i < n && InOrder(c, calls, i) && StateAt(c, calls, i + 1) != StateAt(c, calls, i)
    ensures !StampOk(c, StateAt(c, calls, i), calls[i])
    ensures forall j | i < j <= |calls| :: StateAt(c, calls, j) == StateAt(c, calls, i + 1)
    ensures Broken(c, StateAt(c, calls, i + 1))
    ensures StateAt(c, calls, i + 1).meta.Some?
    ensures forall j | i < j < |calls| && Arrive(c, calls[j]).Ok? :: ReplyAt(c, calls, j).Error?
    ensures forall j | i < j < |calls| && UngatedFor(c, calls[j], StateAt(c, calls, i + 1).meta.value.policy) ::
              ReplyAt(c, calls, j) == Error(StateInvalid)
  {
    hide *;
    i := FirstDisorder(c, calls, n);
    DisorderBreaks(c, calls, i);
    forall j | i < j <= |calls| ensures StateAt(c, calls, j) == StateAt(c, calls, i + 1) {
      Frozen(c, calls, i + 1, j);
    }
    forall j | i < j < |calls| && Arrive(c, calls[j]).Ok? ensures ReplyAt(c, calls, j).Error? {
      FrozenReply(c, calls, i + 1, j);
    }
    forall j | i < j < |calls| && UngatedFor(c, calls[j], StateAt(c, calls, i + 1).meta.value.policy)
      ensures ReplyAt(c, calls, j) == Error(StateInvalid)
    {
      FrozenReply(c, calls, i + 1, j);
    }
  }

  /** What a call is told once the tables are frozen. */
  lemma FrozenReply(c: Crypto, calls: seq<Call>, i: nat, j: nat)
    requires i <= j < |calls| && Broken(c, StateAt(c, calls, i)) && StateAt(c, calls, j) == StateAt(c, calls, i)
    requires var t := StateAt(c, calls, i);
             Core(c, t) && t.meta.Some? && Checked(c, t.meta.value.policy, t).Some?
    ensures Arrive(c, calls[j]).Ok? ==> ReplyAt(c, calls, j).Error?
    ensures UngatedFor(c, calls[j], StateAt(c, calls, i).meta.value.policy) ==>
              ReplyAt(c, calls, j) == Error(StateInvalid)
  {
    hide Step, Core, Checked, UngatedFor, Broken, Arrive, StateAt;
    var t := StateAt(c, calls, i);
    BrokenStateIsFrozen(c, t, calls[j]);
    if UngatedFor(c, calls[j], t.meta.value.policy) {
      BrokenReply(c, t, calls[j]);
    }
  }

  /** A valid call under this policy that no enable or expiry gate turns away. */
  ghost predicate UngatedFor(c: Crypto, call: Call, p: Policy) {
    var work := Arrive(c, call);
    && work.Ok? && work.value.policy == p
    && (work.value.request.Reserve? || work.value.request.Prepare? ==> Gate(p, call.env.enabled, call.env.gateMs).None?)
  }

  /** A broken state tells every ungated call under its own policy that it is invalid. */
  lemma BrokenReply(c: Crypto, t: State, call: Call)
    requires Core(c, t) && t.meta.Some? && Checked(c, t.meta.value.policy, t).Some?
    requires UngatedFor(c, call, t.meta.value.policy)
    ensures Step(c, t, call).1 == Error(StateInvalid)
  {
    hide Arrive, Gate, Consistent, Core;
    RowsBounded(c, t);
  }

  lemma FailsForAll(c: Crypto, p: Policy, t: State)
    requires t.meta.Some? && Checked(c, t.meta.value.policy, t).Some?
    ensures Checked(c, p, t).Some?
  {
    hide Consistent;
  }

  lemma {:induction false} Frozen(c: Crypto, calls: seq<Call>, i: nat, j: nat)
    requires i <= j <= |calls| && Broken(c, StateAt(c, calls, i))
    ensures StateAt(c, calls, j) == StateAt(c, calls, i)
  {
    hide Step, Broken;
    if i < j {
      Frozen(c, calls, i, j - 1);
      BrokenStateIsFrozen(c, StateAt(c, calls, i), calls[j - 1]);
    }
  }

  /** The run-level equivalence: a state satisfies the invariant if and only if every change before it
      was in order. */
  lemma InvariantIffInOrder(c: Crypto, calls: seq<Call>, n: nat)
    requires CryptoOk(c) && n <= |calls|
    ensures Inv(c, StateAt(c, calls, n)) <==> InOrder(c, calls, n)
  {
    hide Step, Inv, InOrder, StampOk, Broken, Arrive, UngatedFor;
    if InOrder(c, calls, n) {
      Reachable(c, calls, n);
    } else {
      var i := OutOfOrderFreezes(c, calls, n);
      BrokenIsNotInv(c, StateAt(c, calls, n));
    }
  }

  lemma BrokenIsNotInv(c: Crypto, s: State)
    requires Broken(c, s) && s.meta.Some?
    ensures !Inv(c, s)
  {
    hide Core, Checked;
    if Inv(c, s) { CheckedIffTimes(c, s); }
  }

  /** No call of a run reports invalid state or trips an SQL constraint while the calls before it were in
      order; its own reading may be anything. */
  lemma NoInternalFailure(c: Crypto, calls: seq<Call>, i: nat)
    requires CryptoOk(c) && i < |calls| && InOrder(c, calls, i)
    ensures ReplyAt(c, calls, i) != Error(StateInvalid) && ReplyAt(c, calls, i) != Error(Unavailable)
  {
    hide Step, Core, InOrder;
    Reachable(c, calls, i);
    StepKeepsCore(c, StateAt(c, calls, i), calls[i]);
  }

  // ---- clocks that keep order ----

  /** The readings of the calls that changed the tables are positive, safe and never go back. */
  ghost predicate SteadyWrites(c: Crypto, calls: seq<Call>) {
    && (forall i | 0 <= i < |calls| && Changes(c, calls, i) :: 0 < calls[i].env.nowMs <= MAX_SAFE_INTEGER)
    && (forall i, j | 0 <= i < j < |calls| && Changes(c, calls, i) && Changes(c, calls, j) ::
          calls[i].env.nowMs <= calls[j].env.nowMs)
  }

  ghost predicate Changes(c: Crypto, calls: seq<Call>, i: nat)
    requires i < |calls|
  {
    StateAt(c, calls, i + 1) != StateAt(c, calls, i)
  }

  /** Every stored row was created at the reading of an earlier call that changed the tables. */
  lemma {:induction false} CreationReading(c: Crypto, calls: seq<Call>, n: nat, k: nat) returns (i: nat)
    requires n <= |calls| && k < |StateAt(c, calls, n).rows|
    ensures i < n && Changes(c, calls, i) && StateAt(c, calls, n).rows[k].createdAt == calls[i].env.nowMs
  {
    hide Step, TargetRow;
    if Changes(c, calls, n - 1) {
      var w := WrittenRow(c, StateAt(c, calls, n - 1), calls[n - 1]);
      if k < |StateAt(c, calls, n - 1).rows| {
        i := CreationReading(c, calls, n - 1, k);
      } else {
        i := n - 1;
      }
    } else {
      i := CreationReading(c, calls, n - 1, k);
    }
  }

  /** So a clock that does not go back between two changes keeps every run in order. */
  lemma SteadyIsInOrder(c: Crypto, calls: seq<Call>, n: nat)
    requires SteadyWrites(c, calls) && n <= |calls|
    ensures InOrder(c, calls, n)
  {
    hide Step, TargetRow;
    forall i | 0 <= i < n && StateAt(c, calls, i + 1) != StateAt(c, calls, i)
      ensures StampOk(c, StateAt(c, calls, i), calls[i])
    {
      assert Changes(c, calls, i);
      var target := TargetRow(c, StateAt(c, calls, i), calls[i]);
      if target.Some? {
        var k := CreationReading(c, calls, i, target.value);
        assert Changes(c, calls, k);
      }
    }
  }

  /** At most one operation is unresolved, and it is the one the policy row points at. */
  lemma OneUnresolved(c: Crypto, s: State, i: nat)
    requires Core(c, s) && i < |s.rows|
    ensures s.meta.Some? && (IsActive(s.rows[i].state) <==> s.meta.value.activeOperation == Some(s.rows[i].operationId))
  {
    hide RowCore, PolicyOk;
    ActiveMember(s.rows, s.rows[i].operationId);
    if s.meta.value.activeOperation == Some(s.rows[i].operationId) {
      var k :| 0 <= k < |s.rows| && s.rows[k].operationId == s.rows[i].operationId && IsActive(s.rows[k].state);
      assert k < i ==> Distinct(s.rows[k], s.rows[i]);
      assert i < k ==> Distinct(s.rows[i], s.rows[k]);
    }
  }
}
