/** What holds of every run of the ledger, whatever the clock, the flags and the configured
    policies do: rows only move forward, so grants are unique and ordered. */
module LedgerHistory {
  import opened Wrappers
  import opened LedgerPolicy
  import opened LedgerModel

  /** The state after the first n calls, starting from empty tables. */
  ghost function StateAt(c: Crypto, calls: seq<Call>, n: nat): State
    requires n <= |calls|
  {
    if n == 0 then EMPTY else Step(c, StateAt(c, calls, n - 1), calls[n - 1]).0
  }

  ghost function ReplyAt(c: Crypto, calls: seq<Call>, i: nat): Reply
    requires i < |calls|
  {
    Step(c, StateAt(c, calls, i), calls[i]).1
  }

  // ---- how rows evolve ----

  /** The identity of a row never changes, and its state only moves forward; a recorded transaction
      hash and nonce stay, and a finished or stopped row is final. */
  ghost predicate RowEvolves(a: Row, b: Row) {
    && b.operationId == a.operationId && b.mode == a.mode && b.requester == a.requester
    && b.sourceWallet == a.sourceWallet && b.failedHash == a.failedHash && b.successHash == a.successHash
    && b.permitDigest == a.permitDigest && b.maxFeeWei == a.maxFeeWei && b.creditWei == a.creditWei
    && b.createdAt == a.createdAt
    && match a.state
       case Admitted => true
       case BroadcastPrepared =>
         b == a || (IsFinished(b.state) && b.transactionHash == a.transactionHash && b.nonce == a.nonce)
       case _ => b == a
  }

  ghost predicate Evolves(s: State, t: State) {
    && |s.rows| <= |t.rows|
    && (forall i | 0 <= i < |s.rows| :: RowEvolves(s.rows[i], t.rows[i]))
    && (s.meta.Some? ==> t.meta.Some? && t.meta.value.policy == s.meta.value.policy)
  }

  lemma StepEvolves(c: Crypto, s: State, call: Call)
    ensures var (t, reply) := Step(c, s, call);
            Evolves(s, t) && (reply.Error? ==> t == s)
  {
    hide Arrive, Transact;
    if Arrive(c, call).Ok? {
      TransactEvolves(c, s, Arrive(c, call).value, call.env);
    } else {
      EvolvesReflexive(s);
    }
  }

  lemma TransactEvolves(c: Crypto, s: State, w: Work, env: Env)
    ensures var (t, reply) := Transact(c, s, w, env);
            Evolves(s, t) && (reply.Error? ==> t == s)
  {
    hide Checked, Unique, NonceTaken, SourceTaken, Gate, FindId, FindSource, Public, ReserveStep, PrepareStep, FailStep,
         AbandonStep, CompleteStep, ReadStep, Evolves;
    match w.request
    case Reserve(input) => ReserveEvolves(c, w.policy, s, input, w.digest, env);
    case Prepare(id, _, hash, nonce, _) => PrepareEvolves(c, w.policy, s, id, hash, nonce, w.digest, env);
    case FailBefore(id, _, reason) => FailEvolves(c, w.policy, s, id, reason, w.digest, env);
    case Abandon(id) => AbandonEvolves(c, w.policy, s, id, env);
    case Complete(id, hash, status, block) => CompleteEvolves(c, w.policy, s, id, hash, status, block, env);
    case _ => EvolvesReflexive(s);
  }

  lemma ReserveEvolves(c: Crypto, p: Policy, s: State, input: Reservation, digest: string, env: Env)
    ensures var (t, reply) := ReserveStep(c, p, s, input, digest, env);
            Evolves(s, t) && (reply.Error? ==> t == s)
  {
    hide Checked, Unique, SourceTaken, Gate, FindId, Public;
  }

  lemma PrepareEvolves(c: Crypto, p: Policy, s: State, id: string, hash: string, nonce: int, digest: string, env: Env)
    ensures var (t, reply) := PrepareStep(c, p, s, id, hash, nonce, digest, env);
            Evolves(s, t) && (reply.Error? ==> t == s)
  {
    hide Checked, Unique, NonceTaken, Gate, FindId, Public;
  }

  lemma StopEvolves(s: State, found: Option<nat>, reason: string, nowMs: int)
    requires found.Some? ==> found.value < |s.rows|
    ensures var (t, reply) := StopAdmitted(s, found, reason, nowMs);
            Evolves(s, t) && (reply.Error? ==> t == s)
  {
    hide Public;
  }

  lemma FailEvolves(c: Crypto, p: Policy, s: State, id: string, reason: string, digest: string, env: Env)
    ensures var (t, reply) := FailStep(c, p, s, id, reason, digest, env);
            Evolves(s, t) && (reply.Error? ==> t == s)
  {
    hide Checked, FindId, StopAdmitted, Evolves;
    StopEvolves(s, FindId(s.rows, id), reason, env.nowMs);
    EvolvesReflexive(s);
  }

  lemma AbandonEvolves(c: Crypto, p: Policy, s: State, id: string, env: Env)
    ensures var (t, reply) := AbandonStep(c, p, s, id, env);
            Evolves(s, t) && (reply.Error? ==> t == s)
  {
    hide Checked, FindId, StopAdmitted, Evolves;
    StopEvolves(s, FindId(s.rows, id), "operator-abandoned", env.nowMs);
    EvolvesReflexive(s);
  }

  lemma CompleteEvolves(c: Crypto, p: Policy, s: State, id: string, hash: string, status: int, block: int, env: Env)
    ensures var (t, reply) := CompleteStep(c, p, s, id, hash, status, block, env);
            Evolves(s, t) && (reply.Error? ==> t == s)
  {
    hide Checked, FindId, Public;
  }

  lemma {:induction false} RunEvolves(c: Crypto, calls: seq<Call>, i: nat, j: nat)
    requires i <= j <= |calls|
    ensures Evolves(StateAt(c, calls, i), StateAt(c, calls, j))
  {
    hide Step, Evolves;
    if i < j {
      RunEvolves(c, calls, i, j - 1);
      StepEvolves(c, StateAt(c, calls, j - 1), calls[j - 1]);
      EvolvesTransitive(StateAt(c, calls, i), StateAt(c, calls, j - 1), StateAt(c, calls, j));
    } else {
      EvolvesReflexive(StateAt(c, calls, i));
    }
  }

  lemma EvolvesReflexive(s: State)
    ensures Evolves(s, s)
  {
  }

  lemma EvolvesTransitive(s: State, t: State, u: State)
    requires Evolves(s, t) && Evolves(t, u)
    ensures Evolves(s, u)
  {
    forall i | 0 <= i < |s.rows| ensures RowEvolves(s.rows[i], u.rows[i]) {
      assert RowEvolves(s.rows[i], t.rows[i]) && RowEvolves(t.rows[i], u.rows[i]);
    }
  }

  /** The first row with an id stays the first row with that id. */
  lemma FoundStays(s: State, t: State, id: string)
    requires Evolves(s, t) && FindId(s.rows, id).Some?
    ensures FindId(t.rows, id) == FindId(s.rows, id)
  {
    hide FindId;
  }

  // ---- the three kinds of irrevocable answer ----

  ghost predicate Created(r: Reply, id: string) { r.ReserveReply? && r.created && r.operation.operationId == id }
  ghost predicate Granted(r: Reply, id: string) {
    r.PrepareReply? && r.broadcastPermit && r.operation.operationId == id
  }


  /** A successful stop, by the worker or by an operator. */
  ghost predicate StopAnswered(r: Reply, call: Call, id: string) {
    && (call.request.FailBefore? || call.request.Abandon?)
    && r.OperationReply? && r.found.Some? && r.found.value.operationId == id
  }

  ghost predicate Carries(rows: seq<Row>, id: string, state: OpState, nonce: Option<int>, hash: Option<string>) {
    var found := FindId(rows, id);
    && found.Some? && rows[found.value].state == state && rows[found.value].nonce == nonce
    && rows[found.value].transactionHash == hash
  }

  /** What an irrevocable answer says about the rows before and after it. */
  lemma AnswerFacts(c: Crypto, s: State, call: Call, id: string)
    ensures var (t, r) := Step(c, s, call);
            && (Created(r, id) ==> FindId(s.rows, id).None? && Carries(t.rows, id, Admitted, None, None))
            && (Granted(r, id) ==>
                  && (exists n, h :: Carries(s.rows, id, Admitted, n, h))
                  && r.operation.nonce.Some? && r.operation.transactionHash.Some?
                  && Carries(t.rows, id, BroadcastPrepared, r.operation.nonce, r.operation.transactionHash)
                  && !NonceTaken(s.rows, r.operation.nonce.value, r.operation.transactionHash.value))
            && (StopAnswered(r, call, id) ==> exists n, h :: Carries(t.rows, id, Stopped, n, h))
  {
    hide Checked, Unique, NonceTaken, SourceTaken, NormalizeReservation, CheckRequest, LedgerHash, LedgerAddress,
         IsToken, FindId;
    var work := Arrive(c, call);
    if work.Err? { return; }
    var w := work.value;
    var (t, r) := Transact(c, s, w, call.env);
    match w.request
    case Reserve(input) =>
      if Created(r, id) {
        assert t.rows[|t.rows| - 1].operationId == id;
        assert FindId(t.rows, id) == Some(|s.rows|);
      }
    case Prepare(id', _, hash, nonce, _) =>
      if Granted(r, id) {
        var k := FindId(s.rows, id').value;
        assert s.rows[k].operationId == id' && t.rows[k].operationId == id;
        assert FindId(t.rows, id) == Some(k);
        assert Carries(s.rows, id, Admitted, s.rows[k].nonce, s.rows[k].transactionHash);
      }
    case FailBefore(found, _, reason) =>
      StopFacts(s, found, reason, call.env.nowMs, id);
    case Abandon(found) =>
      StopFacts(s, found, "operator-abandoned", call.env.nowMs, id);
    case Complete(_, _, _, _) =>
    case _ =>
  }

  lemma StopFacts(s: State, found: string, reason: string, ms: int, id: string)
    ensures var (t, r) := StopAdmitted(s, FindId(s.rows, found), reason, ms);
            r.OperationReply? && r.found.Some? && r.found.value.operationId == id ==>
              exists n, h :: Carries(t.rows, id, Stopped, n, h)
  {
    hide FindId;
    var (t, r) := StopAdmitted(s, FindId(s.rows, found), reason, ms);
    if r.OperationReply? && r.found.Some? && r.found.value.operationId == id {
      var k := FindId(s.rows, found).value;
      assert forall j | 0 <= j < |s.rows| :: t.rows[j].operationId == s.rows[j].operationId;
      assert FindId(t.rows, id) == Some(k);
      assert Carries(t.rows, id, Stopped, t.rows[k].nonce, t.rows[k].transactionHash);
    }
  }

  // ---- whole-run theorems ----

  /** At most one created answer, the only one that carries a permit token, per operation. */
  lemma CreatedOnce(c: Crypto, calls: seq<Call>, i: nat, j: nat, id: string)
    requires i < j < |calls|
    requires Created(ReplyAt(c, calls, i), id)
    ensures !Created(ReplyAt(c, calls, j), id)
  {
    hide Step;
    AnswerFacts(c, StateAt(c, calls, i), calls[i], id);
    RunEvolves(c, calls, i + 1, j);
    FoundStays(StateAt(c, calls, i + 1), StateAt(c, calls, j), id);
    AnswerFacts(c, StateAt(c, calls, j), calls[j], id);
  }

  /** At most one broadcast permission per operation; a later one for another operation has a larger
      nonce and another transaction hash. */
  lemma GrantsAreOrdered(c: Crypto, calls: seq<Call>, i: nat, j: nat, a: string, b: string)
    requires i < j < |calls|
    requires Granted(ReplyAt(c, calls, i), a) && Granted(ReplyAt(c, calls, j), b)
    ensures a != b
    ensures ReplyAt(c, calls, i).operation.nonce.Some? && ReplyAt(c, calls, j).operation.nonce.Some?
    ensures ReplyAt(c, calls, i).operation.nonce.value < ReplyAt(c, calls, j).operation.nonce.value
    ensures ReplyAt(c, calls, i).operation.transactionHash != ReplyAt(c, calls, j).operation.transactionHash
  {
    hide Step, FindId;
    AnswerFacts(c, StateAt(c, calls, i), calls[i], a);
    RunEvolves(c, calls, i + 1, j);
    FoundStays(StateAt(c, calls, i + 1), StateAt(c, calls, j), a);
    AnswerFacts(c, StateAt(c, calls, j), calls[j], b);
    var k := FindId(StateAt(c, calls, j).rows, a).value;
    assert RowEvolves(StateAt(c, calls, i + 1).rows[k], StateAt(c, calls, j).rows[k]);
  }

  /** No operation is both granted broadcast and stopped, in either order. */
  lemma NeverGrantedAndStopped(c: Crypto, calls: seq<Call>, i: nat, j: nat, id: string)
    requires i < |calls| && j < |calls|
    requires Granted(ReplyAt(c, calls, i), id)
    ensures !StopAnswered(ReplyAt(c, calls, j), calls[j], id)
  {
    hide Step, FindId;
    AnswerFacts(c, StateAt(c, calls, i), calls[i], id);
    AnswerFacts(c, StateAt(c, calls, j), calls[j], id);
    if StopAnswered(ReplyAt(c, calls, j), calls[j], id) {
      if i <= j {
        RunEvolves(c, calls, i + 1, j + 1);
        FoundStays(StateAt(c, calls, i + 1), StateAt(c, calls, j + 1), id);
      } else {
        RunEvolves(c, calls, j + 1, i);
        FoundStays(StateAt(c, calls, j + 1), StateAt(c, calls, i), id);
      }
    }
  }

  /** A recorded nonce and hash are those of every later state. */
  lemma RecordedBroadcastStays(c: Crypto, calls: seq<Call>, i: nat, j: nat, id: string)
    requires i < j <= |calls|
    requires Granted(ReplyAt(c, calls, i), id)
    ensures var found := FindId(StateAt(c, calls, j).rows, id);
            && found.Some? && HasTransaction(StateAt(c, calls, j).rows[found.value].state)
            && StateAt(c, calls, j).rows[found.value].nonce == ReplyAt(c, calls, i).operation.nonce
            && StateAt(c, calls, j).rows[found.value].transactionHash == ReplyAt(c, calls, i).operation.transactionHash
  {
    hide Step, FindId;
    AnswerFacts(c, StateAt(c, calls, i), calls[i], id);
    RunEvolves(c, calls, i + 1, j);
    FoundStays(StateAt(c, calls, i + 1), StateAt(c, calls, j), id);
  }

  // ---- permits ----

  /** Every row was written by an earlier created answer whose token has the stored digest. */
  lemma {:induction false} RowOrigin(c: Crypto, calls: seq<Call>, n: nat, k: nat) returns (i: nat)
    requires n <= |calls| && k < |StateAt(c, calls, n).rows|
    ensures i < n && Created(ReplyAt(c, calls, i), StateAt(c, calls, n).rows[k].operationId)
    ensures StateAt(c, calls, n).rows[k].permitDigest == c.permit(calls[i].env.freshToken)
    ensures ReplyAt(c, calls, i).permitToken == Some(calls[i].env.freshToken)
  {
    hide Step;
    var s := StateAt(c, calls, n - 1);
    StepEvolves(c, s, calls[n - 1]);
    if k < |s.rows| {
      i := RowOrigin(c, calls, n - 1, k);
    } else {
      i := n - 1;
      GrowthIsCreation(c, s, calls[i]);
    }
  }

  lemma GrowthIsCreation(c: Crypto, s: State, call: Call)
    ensures var (t, r) := Step(c, s, call);
            |t.rows| > |s.rows| ==>
              && |t.rows| == |s.rows| + 1
              && Created(r, t.rows[|s.rows|].operationId) && r.permitToken == Some(call.env.freshToken)
              && t.rows[|s.rows|].permitDigest == c.permit(call.env.freshToken)
  {
    hide Checked, Unique, NonceTaken, SourceTaken, NormalizeReservation, CheckRequest, LedgerHash, LedgerAddress,
         IsToken, FindId;
  }

  /** A broadcast is granted only to a caller whose token digests to that of the token handed out by
      the one earlier created answer for the same operation. */
  lemma GrantNeedsIssuedPermit(c: Crypto, calls: seq<Call>, j: nat, id: string) returns (i: nat)
    requires j < |calls| && Granted(ReplyAt(c, calls, j), id)
    ensures i < j && Created(ReplyAt(c, calls, i), id) && ReplyAt(c, calls, i).permitToken.Some?
    ensures calls[j].request.Prepare?
    ensures c.permit(calls[j].request.permitToken) == c.permit(ReplyAt(c, calls, i).permitToken.value)
  {
    var s := StateAt(c, calls, j);
    GrantChecksPermit(c, s, calls[j], id);
    hide Step;
    i := RowOrigin(c, calls, j, FindId(s.rows, id).value);
  }

  lemma GrantChecksPermit(c: Crypto, s: State, call: Call, id: string)
    ensures Granted(Step(c, s, call).1, id) ==>
            && call.request.Prepare? && FindId(s.rows, id).Some?
              && s.rows[FindId(s.rows, id).value].permitDigest == c.permit(call.request.permitToken)
  {
    hide Checked, Unique, NonceTaken, SourceTaken, NormalizeReservation, CheckRequest, LedgerHash, LedgerAddress,
         IsToken, FindId;
  }
}
