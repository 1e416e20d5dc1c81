/** Progress of the ledger: a reserved operation can be broadcast with its own permit, and completing it
    leaves the ledger idle again. */
module LedgerProgress {
  import opened Wrappers
  import opened LedgerPolicy
  import opened LedgerModel
  import opened LedgerHistory
  import opened LedgerSafety

  /** The call arrives with the stored policy while the ledger is enabled and unexpired, also inside
      its transaction. */
  ghost predicate Welcome(c: Crypto, s: State, call: Call, w: Work) {
    && Arrive(c, call) == Ok(w)
    && s.meta.Some? && w.policy == s.meta.value.policy
    && Gate(w.policy, call.env.enabled, call.env.gateMs).None?
  }

  /** What a created answer leaves: one more row, admitted, holding the digest of the token handed out. */
  lemma CreatedRow(c: Crypto, s: State, call: Call, id: string)
    ensures var (t, r) := Step(c, s, call);
            Created(r, id) ==>
              && |t.rows| == |s.rows| + 1 && t.rows[..|s.rows|] == s.rows && FindId(t.rows, id) == Some(|s.rows|)
              && t.rows[|s.rows|].state.Admitted? && t.rows[|s.rows|].nonce.None?
              && t.rows[|s.rows|].transactionHash.None?
              && r.permitToken.Some? && t.rows[|s.rows|].permitDigest == c.permit(r.permitToken.value)
  {
    hide Checked, Unique, SourceTaken, NormalizeReservation, CheckRequest, LedgerHash, LedgerAddress, IsToken,
         NonceTaken, FindId;
    var (t, r) := Step(c, s, call);
    if Created(r, id) {
      assert t.rows[|s.rows|].operationId == id;
      assert FindId(s.rows, id).None?;
    }
  }

  /** What the created answer left is still there at any later call: the row under its id, with the
      digest of the token handed out. */
  lemma ReservedRowStays(c: Crypto, calls: seq<Call>, i: nat, j: nat, id: string)
    requires i < j <= |calls| && Created(ReplyAt(c, calls, i), id)
    ensures var found := FindId(StateAt(c, calls, j).rows, id);
            && found.Some? && ReplyAt(c, calls, i).permitToken.Some?
            && StateAt(c, calls, j).rows[found.value].permitDigest == c.permit(ReplyAt(c, calls, i).permitToken.value)
  {
    hide Step, FindId;
    var s, t, u := StateAt(c, calls, i), StateAt(c, calls, i + 1), StateAt(c, calls, j);
    CreatedRow(c, s, calls[i], id);
    RunEvolves(c, calls, i + 1, j);
    FoundStays(t, u, id);
    assert RowEvolves(t.rows[|s.rows|], u.rows[|s.rows|]);
  }

  /** At any later call, whatever ran in between, an operation presented with its own token is granted its
      broadcast if and only if it is still admitted, its nonce is above every recorded one and its hash is
      new; and otherwise the answer says which of these failed, or repeats the recorded broadcast. */
  lemma ReservedIsGrantedIff(c: Crypto, calls: seq<Call>, i: nat, j: nat, id: string, w: Work)
    requires CryptoOk(c) && i < j < |calls| && InOrder(c, calls, j)
    requires Created(ReplyAt(c, calls, i), id) && Welcome(c, StateAt(c, calls, j), calls[j], w)
    requires w.request.Prepare? && w.request.operationId == id
    requires Some(w.request.permitToken) == ReplyAt(c, calls, i).permitToken
    ensures var s := StateAt(c, calls, j);
            && FindId(s.rows, id).Some?
            && var row := s.rows[FindId(s.rows, id).value];
            && (Granted(ReplyAt(c, calls, j), id) <==>
                  row.state.Admitted? && !NonceTaken(s.rows, w.request.nonce, w.request.transactionHash))
            && (!Granted(ReplyAt(c, calls, j), id) ==> ReplyAt(c, calls, j) == Ungranted(row, w.request))
  {
    hide Step, Arrive, Inv, Core, Checked, NonceTaken, FindId, InOrder, CryptoOk;
    var s := StateAt(c, calls, j);
    ReservedRowStays(c, calls, i, j, id);
    Reachable(c, calls, j);
    if Checked(c, w.policy, s).Some? { CheckPasses(c, w.policy, s); }
    NoInternalFailure(c, calls, j);
    PermitMatches(c, calls[j], w);
    GrantOutcome(c, s, calls[j], w, FindId(s.rows, id).value);
  }

  /** The answer to a permit holder whose broadcast is not granted. */
  ghost function Ungranted(row: Row, request: Request): Reply
    requires request.Prepare?
  {
    if row.state.Admitted? then Error(NonceReserved)
    else if row.state.BroadcastPrepared? && row.transactionHash == Some(request.transactionHash)
            && row.nonce == Some(request.nonce)
    then PrepareReply(false, Public(row))
    else Error(StateConflict)
  }

  lemma PermitMatches(c: Crypto, call: Call, w: Work)
    requires Arrive(c, call) == Ok(w) && w.request.Prepare?
    ensures w.digest == c.permit(w.request.permitToken)
  {
    hide NormalizePolicy, LedgerHash, LedgerAddress, IsToken, NormalizeReservation;
  }

  lemma GrantOutcome(c: Crypto, s: State, call: Call, w: Work, k: nat)
    requires Welcome(c, s, call, w) && w.request.Prepare? && Checked(c, w.policy, s).None?
    requires FindId(s.rows, w.request.operationId) == Some(k) && k < |s.rows| && s.rows[k].permitDigest == w.digest
    requires Step(c, s, call).1 != Error(Unavailable)
    ensures if s.rows[k].state.Admitted? && !NonceTaken(s.rows, w.request.nonce, w.request.transactionHash)
            then Granted(Step(c, s, call).1, w.request.operationId)
            else Step(c, s, call).1 == Ungranted(s.rows[k], w.request)
  {
    hide Arrive, Checked, NonceTaken, FindId, Unique;
  }

  /** The answer to a receipt of the recorded transaction. */
  ghost predicate Completes(r: Reply, row: Row, request: Request)
    requires request.Complete?
  {
    && r.OperationReply? && r.found.Some?
    && r.found.value.operationId == row.operationId && r.found.value.nonce == row.nonce
    && r.found.value.transactionHash == row.transactionHash
    && r.found.value.state == (if request.receiptStatus == 1 then Settled else Reverted)
    && r.found.value.blockNumber == Some(request.blockNumber)
  }

  /** At any call after its grant, whatever ran in between, a receipt of the recorded transaction resolves
      an operation that is still broadcast-prepared, settled or reverted, and the ledger is then idle; on
      one already resolved, the same receipt is answered again and another is a conflict, and nothing changes. */
  lemma GrantedIsCompleted(c: Crypto, calls: seq<Call>, i: nat, j: nat, id: string, w: Work)
    requires CryptoOk(c) && i < j < |calls| && InOrder(c, calls, j)
    requires Granted(ReplyAt(c, calls, i), id) && Arrive(c, calls[j]) == Ok(w)
    requires StateAt(c, calls, j).meta.Some? && w.policy == StateAt(c, calls, j).meta.value.policy
    requires w.request.Complete? && w.request.operationId == id
    requires Some(w.request.transactionHash) == ReplyAt(c, calls, i).operation.transactionHash
    ensures var s, t, r := StateAt(c, calls, j), StateAt(c, calls, j + 1), ReplyAt(c, calls, j);
            && FindId(s.rows, id).Some?
            && var row := s.rows[FindId(s.rows, id).value];
            && row.nonce == ReplyAt(c, calls, i).operation.nonce
            && (row.state.BroadcastPrepared? ==>
                  && Completes(r, row, w.request)
                  && t.meta.Some? && t.meta.value.activeOperation.None?
                  && forall k | 0 <= k < |t.rows| :: !IsActive(t.rows[k].state))
            && (!row.state.BroadcastPrepared? ==>
                  && t == s && IsFinished(row.state)
                  && (if row.receiptStatus == Some(w.request.receiptStatus)
                         && row.blockNumber == Some(w.request.blockNumber)
                      then r == OperationReply(Some(Public(row))) else r == Error(StateConflict)))
  {
    hide Step, Arrive, Inv, Core, Checked, FindId, InOrder, CryptoOk;
    var s := StateAt(c, calls, j);
    RecordedBroadcastStays(c, calls, i, j, id);
    Reachable(c, calls, j);
    if Checked(c, w.policy, s).Some? { CheckPasses(c, w.policy, s); }
    CompletionOutcome(c, s, calls[j], w, FindId(s.rows, id).value);
    var t := StateAt(c, calls, j + 1);
    StepKeepsCore(c, s, calls[j]);
    assert t == Step(c, s, calls[j]).0;
    forall k | 0 <= k < |t.rows| && s.rows[FindId(s.rows, id).value].state.BroadcastPrepared?
      ensures !IsActive(t.rows[k].state)
    {
      OneUnresolved(c, t, k);
    }
  }

  lemma CompletionOutcome(c: Crypto, s: State, call: Call, w: Work, k: nat)
    requires Arrive(c, call) == Ok(w) && w.request.Complete? && Checked(c, w.policy, s).None? && s.meta.Some?
    requires FindId(s.rows, w.request.operationId) == Some(k) && k < |s.rows| && HasTransaction(s.rows[k].state)
    requires s.rows[k].transactionHash == Some(w.request.transactionHash)
    ensures var (t, r) := Step(c, s, call);
            if s.rows[k].state.BroadcastPrepared? then
              Completes(r, s.rows[k], w.request) && t.meta.Some? && t.meta.value.activeOperation.None?
            else
              && t == s
              && (if s.rows[k].receiptStatus == Some(w.request.receiptStatus)
                     && s.rows[k].blockNumber == Some(w.request.blockNumber)
                  then r == OperationReply(Some(Public(s.rows[k]))) else r == Error(StateConflict))
  {
    hide Arrive, Checked, FindId;
  }
}
