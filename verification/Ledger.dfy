/** The durable object itself: two tables changed in place, one method per transaction body. */
module Ledger {
  import opened Wrappers
  import opened LedgerPolicy
  import opened LedgerModel

  class HelperSpendingLedger {
    const crypto: Crypto
    var meta: Option<Meta>   // helper_policy; CHECK (id = 1) keeps it to one row
    var rows: seq<Row>       // helper_operations

    ghost function Value(): State
      reads this
    {
      State(meta, rows)
    }

    constructor (crypto: Crypto)
      ensures this.crypto == crypto && Value() == EMPTY
    {
      this.crypto := crypto;
      meta, rows := None, [];
    }

    /** Re-validates the stored totals against the individual rows. */
    method CheckedState(p: Policy) returns (failure: Option<LedgerError>)
      ensures failure == Checked(crypto, p, Value())
    {
      hide RowOk, IsActive;
      if |rows| > 32 || (meta.None? && rows != []) {
        return Some(StateInvalid);
      }
      if meta.None? {
        return None;
      }
      var m := meta.value;
      if m.policy != p {
        return Some(PolicyChanged);
      }
      var reserved := 0;
      var active: seq<string> := [];
      assert rows[..0] == [];
      for k := 0 to |rows|
        invariant forall i | 0 <= i < k :: RowOk(crypto, p, rows[i])
        invariant reserved == SumFees(rows[..k])
        invariant active == ActiveIds(rows[..k])
      {
        var row := rows[k];
        if !RowOk(crypto, p, row) {
          return Some(StateInvalid);
        }
        if IsActive(row.state) {
          active := active + [row.operationId];
        }
        reserved := reserved + row.maxFeeWei;
        assert rows[..k + 1][..k] == rows[..k];
      }
      assert rows[..|rows|] == rows;
      if || |active| > 1 || First(active) != m.activeOperation
         || m.attempts != |rows| || m.payouts != |rows|
         || !IsUint(m.reservedFeeWei, true) || m.reservedFeeWei != reserved
         || m.attempts > p.limits.maxAttempts || m.payouts > p.limits.maxPayouts
         || reserved > p.limits.maxTotalFeeWei {
        return Some(StateInvalid);
      }
      return None;
    }

    method ReserveTransaction(p: Policy, input: Reservation, digest: string, env: Env) returns (reply: Reply)
      modifies this
      ensures (Value(), reply) == ReserveStep(crypto, p, old(Value()), input, digest, env)
    {
      hide Checked, FindId, SourceTaken, Unique;
      var gate := Gate(p, env.enabled, env.gateMs);
      if gate.Some? { return Error(gate.value); }
      var failure := CheckedState(p);
      if failure.Some? { return Error(failure.value); }
      var existing := FindId(rows, input.operationId);
      if existing.Some? { return ReserveReply(false, None, Public(rows[existing.value])); }
      if SourceTaken(rows, input) { return Error(SourceReserved); }
      if meta.Some? && meta.value.activeOperation.Some? { return Error(Busy); }
      var (attempts, payouts, reserved) := Count(State(meta, rows));
      if || attempts + 1 > p.limits.maxAttempts || payouts + 1 > p.limits.maxPayouts
         || reserved + input.maxFeeWei > p.limits.maxTotalFeeWei { return Error(BudgetExhausted); }
      var row := NewRow(p, input, digest, env.nowMs);
      if !Unique(rows + [row]) { return Error(Unavailable); }
      rows := rows + [row];
      var stored := if meta.Some? then meta.value.policy else p;
      meta := Some(Meta(stored, attempts + 1, payouts + 1, reserved + input.maxFeeWei, Some(input.operationId)));
      return ReserveReply(true, Some(env.freshToken), Public(row));
    }

    method PrepareTransaction(p: Policy, id: string, hash: string, nonce: int, digest: string, env: Env)
        returns (reply: Reply)
      modifies this`rows
      ensures (Value(), reply) == PrepareStep(crypto, p, old(Value()), id, hash, nonce, digest, env)
    {
      var gate := Gate(p, env.enabled, env.gateMs);
      if gate.Some? { return Error(gate.value); }
      var failure := CheckedState(p);
      if failure.Some? { return Error(failure.value); }
      var found := FindId(rows, id);
      if found.None? || rows[found.value].permitDigest != digest { return Error(PermitInvalid); }
      var row := rows[found.value];
      if row.state.BroadcastPrepared? && row.transactionHash == Some(hash) && row.nonce == Some(nonce) {
        return PrepareReply(false, Public(row));
      }
      if !row.state.Admitted? { return Error(StateConflict); }
      if NonceTaken(rows, nonce, hash) { return Error(NonceReserved); }
      row := row.(state := BroadcastPrepared, transactionHash := Some(hash), nonce := Some(nonce),
                  updatedAt := env.nowMs);
      if !Unique(rows[found.value := row]) { return Error(Unavailable); }
      rows := rows[found.value := row];
      return PrepareReply(true, Public(row));
    }

    method Stop(found: Option<nat>, reason: string, nowMs: int) returns (reply: Reply)
      requires found.Some? ==> found.value < |rows|
      modifies this
      ensures (Value(), reply) == StopAdmitted(old(Value()), found, reason, nowMs)
    {
      if found.None? { return Error(NotFound); }
      var row := rows[found.value];
      if row.state.Stopped? { return OperationReply(Some(Public(row))); }
      if !row.state.Admitted? { return Error(StateConflict); }
      row := row.(state := Stopped, reason := Some(reason), updatedAt := nowMs);
      rows := rows[found.value := row];
      meta := ClearActive(meta);
      return OperationReply(Some(Public(row)));
    }

    method FailTransaction(p: Policy, id: string, reason: string, digest: string, env: Env) returns (reply: Reply)
      modifies this
      ensures (Value(), reply) == FailStep(crypto, p, old(Value()), id, reason, digest, env)
    {
      var failure := CheckedState(p);
      if failure.Some? { return Error(failure.value); }
      var found := FindId(rows, id);
      if found.None? || rows[found.value].permitDigest != digest { return Error(PermitInvalid); }
      reply := Stop(found, reason, env.nowMs);
    }

    method AbandonTransaction(p: Policy, id: string, env: Env) returns (reply: Reply)
      modifies this
      ensures (Value(), reply) == AbandonStep(crypto, p, old(Value()), id, env)
    {
      var failure := CheckedState(p);
      if failure.Some? { return Error(failure.value); }
      reply := Stop(FindId(rows, id), "operator-abandoned", env.nowMs);
    }

    method CompleteTransaction(p: Policy, id: string, hash: string, status: int, block: int, env: Env)
        returns (reply: Reply)
      modifies this
      ensures (Value(), reply) == CompleteStep(crypto, p, old(Value()), id, hash, status, block, env)
    {
      var failure := CheckedState(p);
      if failure.Some? { return Error(failure.value); }
      var found := FindId(rows, id);
      if found.None? || rows[found.value].transactionHash != Some(hash) { return Error(StateConflict); }
      var row := rows[found.value];
      if IsFinished(row.state) && row.receiptStatus == Some(status) && row.blockNumber == Some(block) {
        return OperationReply(Some(Public(row)));
      }
      if !row.state.BroadcastPrepared? { return Error(StateConflict); }
      row := row.(state := if status == 1 then Settled else Reverted, receiptStatus := Some(status),
                  blockNumber := Some(block), updatedAt := env.nowMs);
      rows := rows[found.value := row];
      meta := ClearActive(meta);
      return OperationReply(Some(Public(row)));
    }

    /** One call whose transaction runs now; the four reads change nothing. */
    method Dispatch(call: Call) returns (reply: Reply)
      modifies this
      ensures (Value(), reply) == Step(crypto, old(Value()), call)
    {
      var arrival := Arrive(crypto, call);
      if arrival.Err? { return Error(arrival.error); }
      var w := arrival.value;
      match w.request
      case Reserve(input) => reply := ReserveTransaction(w.policy, input, w.digest, call.env);
      case Prepare(id, _, hash, nonce, _) => reply := PrepareTransaction(w.policy, id, hash, nonce, w.digest, call.env);
      case FailBefore(id, _, reason) => reply := FailTransaction(w.policy, id, reason, w.digest, call.env);
      case Abandon(id) => reply := AbandonTransaction(w.policy, id, call.env);
      case Complete(id, hash, status, block) =>
        reply := CompleteTransaction(w.policy, id, hash, status, block, call.env);
      case _ => reply := ReadStep(crypto, w.policy, State(meta, rows), w.request, call.env);
    }
  }
}
