/** src/helper-ledger-client.mjs: the caller's own validation of a reply, and the agreement of
    both sides over every reachable ledger state. */
module LedgerClient {
  import opened Wrappers
  import opened Numbers
  import opened Text
  import opened LedgerPolicy
  import opened LedgerModel
  import opened LedgerHistory
  import opened LedgerSafety
  import opened LedgerBudget

  function OperationReservation(o: Operation): Reservation {
    Reservation(o.operationId, o.mode, o.requester, o.sourceWallet, o.pair, o.maxFeeWei)
  }

  predicate OperationOk(c: Crypto, p: Policy, o: Operation) {
    && NormalizeReservation(c, p.identity, OperationReservation(o)).Some?
    && o.maxFeeWei == p.limits.maxFeeWei && o.creditWei == p.limits.creditWei
    && IsInteger(o.updatedAt, false, MAX_SAFE_INTEGER) && IsInteger(o.createdAt, false, MAX_SAFE_INTEGER)
    && o.updatedAt >= o.createdAt
    && (if HasTransaction(o.state)
        then o.transactionHash.Some? && LedgerHash(o.transactionHash.value).Some?
             && o.nonce.Some? && IsInteger(o.nonce.value, true, MAX_SAFE_INTEGER)
        else o.transactionHash.None? && o.nonce.None?)
    && (if IsFinished(o.state)
        then o.blockNumber.Some? && IsInteger(o.blockNumber.value, false, MAX_SAFE_INTEGER)
             && o.receiptStatus == Some(if o.state.Settled? then 1 else 0)
        else o.receiptStatus.None? && o.blockNumber.None?)
    && (if o.state.Stopped? then o.reason.Some? && o.reason.value in STOP_REASONS + ["operator-abandoned"]
        else o.reason.None?)
  }

  predicate TotalsAccepted(p: Policy, t: Totals) {
    && NormalizePolicy(Policy(t.identity, t.limits)) == Some(p)
    && IsInteger(t.attempts, true, p.limits.maxAttempts) && IsInteger(t.payouts, true, p.limits.maxPayouts)
    && t.payouts == t.attempts
    && t.reservedFeeWei == t.attempts * p.limits.maxFeeWei
    && t.reservedFeeWei <= p.limits.maxTotalFeeWei
    && (t.activeOperationId.Some? ==> LedgerHash(t.activeOperationId.value) == t.activeOperationId && t.attempts != 0)
  }

  predicate AdmissionAccepted(c: Crypto, p: Policy, t: Totals, source: string, o: Operation) {
    var canonical := NormalizeReservation(c, p.identity, OperationReservation(o));
    && OperationOk(c, p, o)
    && t.attempts != 0 && o.sourceWallet == source
    && o.operationId == canonical.value.operationId && o.requester == canonical.value.requester
    && o.pair == canonical.value.pair
    && (o.transactionHash.Some? ==> LedgerHash(o.transactionHash.value) == o.transactionHash)
    && (IsActive(o.state) <==> t.activeOperationId == Some(o.operationId))
    && (!IsActive(o.state) && t.activeOperationId.Some? ==> t.attempts >= 2)
  }

  /** validateResult: whether the caller accepts a successful reply to its request. */
  predicate Accepts(c: Crypto, p: Policy, request: Request, reply: Reply) {
    match request
    case Inspect => reply.InspectReply? && TotalsAccepted(p, reply.totals)
    case AdmissionOf(source) =>
      && reply.AdmissionReply? && TotalsAccepted(p, reply.totals)
      && LedgerAddress(source) == Some(reply.sourceWallet)
      && (reply.found.Some? ==> AdmissionAccepted(c, p, reply.totals, reply.sourceWallet, reply.found.value))
    case Read(id) =>
      && reply.OperationReply?
      && (reply.found.Some? ==>
            && OperationOk(c, p, reply.found.value)
            && LedgerHash(id) == Some(reply.found.value.operationId))
    case ReadSource(source) =>
      && reply.OperationReply?
      && (reply.found.Some? ==>
            && OperationOk(c, p, reply.found.value)
            && LedgerAddress(source) == Some(reply.found.value.sourceWallet))
    case Reserve(input) =>
      && reply.ReserveReply? && OperationOk(c, p, reply.operation)
      && LedgerHash(input.operationId) == Some(reply.operation.operationId)
      && (if reply.created then
            && reply.operation.state.Admitted? && reply.operation.mode == input.mode
            && LedgerAddress(input.requester) == Some(reply.operation.requester)
            && HelperOperationId(c, p.identity, input.sourceWallet, input.pair) == Some(reply.operation.operationId)
            && reply.permitToken.Some? && IsToken(reply.permitToken.value)
          else reply.permitToken.None?)
    case Prepare(id, _, hash, nonce, _) =>
      && reply.PrepareReply? && OperationOk(c, p, reply.operation)
      && LedgerHash(id) == Some(reply.operation.operationId)
      && reply.operation.state.BroadcastPrepared?
      && reply.operation.transactionHash.Some? && LedgerHash(hash) == reply.operation.transactionHash
      && reply.operation.nonce == Some(nonce)
    case FailBefore(id, _, _) => StopAccepted(c, p, id, reply)
    case Abandon(id) => StopAccepted(c, p, id, reply)
    case Complete(id, hash, status, block) =>
      && reply.OperationReply? && reply.found.Some? && OperationOk(c, p, reply.found.value)
      && LedgerHash(id) == Some(reply.found.value.operationId)
      && reply.found.value.state == (if status == 1 then Settled else Reverted)
      && reply.found.value.transactionHash.Some? && LedgerHash(hash) == reply.found.value.transactionHash
      && reply.found.value.blockNumber == Some(block)
  }

  predicate StopAccepted(c: Crypto, p: Policy, id: string, reply: Reply) {
    && reply.OperationReply? && reply.found.Some? && OperationOk(c, p, reply.found.value)
    && LedgerHash(id) == Some(reply.found.value.operationId)
    && reply.found.value.state.Stopped?
  }

  // ---- agreement ----

  lemma RowAccepted(c: Crypto, p: Policy, r: Row)
    requires RowCore(c, p, r) && TimesOk(r)
    ensures OperationOk(c, p, Public(r))
  {
    hide NormalizeReservation, LedgerHash, IsDigest;
    assert OperationReservation(Public(r)) == RowReservation(r);
  }

  lemma SnapshotAccepted(c: Crypto, p: Policy, s: State, env: Env)
    requires PolicyOk(p) && Inv(c, s) && Checked(c, p, s).None?
    ensures TotalsAccepted(p, TotalsOf(p, s, env))
  {
    hide NormalizeReservation, LedgerHash, Checked, ShapeOk, TimesOk, Unique;
    StoredPolicy(c, p, s);
    if s.meta.Some? {
      SumIsProduct(c, p, s);
      if s.meta.value.activeOperation.Some? {
        ActiveMember(s.rows, s.meta.value.activeOperation.value);
        var k :| 0 <= k < |s.rows| && s.rows[k].operationId == s.meta.value.activeOperation.value;
        CanonicalId(c, p, s.rows[k]);
      }
    }
  }

  lemma SumIsProduct(c: Crypto, p: Policy, s: State)
    requires Inv(c, s) && s.meta.Some? && s.meta.value.policy == p
    ensures s.meta.value.reservedFeeWei == |s.rows| * p.limits.maxFeeWei
  {
    hide NormalizeReservation, ShapeOk;
    forall i | 0 <= i < |s.rows| ensures s.rows[i].maxFeeWei == p.limits.maxFeeWei {
      assert RowCore(c, p, s.rows[i]);
    }
    EqualFees(s.rows, p.limits.maxFeeWei);
  }

  lemma CanonicalId(c: Crypto, p: Policy, r: Row)
    requires RowCore(c, p, r)
    ensures LedgerHash(r.operationId) == Some(r.operationId)
  {
  }

  lemma AdmissionIsAccepted(c: Crypto, p: Policy, s: State, env: Env, k: nat)
    requires PolicyOk(p) && Inv(c, s) && Checked(c, p, s).None? && k < |s.rows|
    ensures AdmissionAccepted(c, p, TotalsOf(p, s, env), s.rows[k].sourceWallet, Public(s.rows[k]))
  {
    hide NormalizeReservation, LedgerHash, Checked, ShapeOk, Unique, OperationOk;
    StoredPolicy(c, p, s);
    var r := s.rows[k];
    assert RowCore(c, p, r) && TimesOk(r);
    RowAccepted(c, p, r);
    OneUnresolved(c, s, k);
    assert OperationReservation(Public(r)) == RowReservation(r);
    if !IsActive(r.state) && s.meta.value.activeOperation.Some? {
      ActiveMember(s.rows, s.meta.value.activeOperation.value);
      var j :| 0 <= j < |s.rows| && s.rows[j].operationId == s.meta.value.activeOperation.value
          && IsActive(s.rows[j].state);
      assert j != k;
    }
  }

  /** The operation a successful reply shows. */
  ghost function ShownOperation(r: Reply): Option<Operation> {
    match r
    case ReserveReply(_, _, o) => Some(o)
    case PrepareReply(_, o) => Some(o)
    case OperationReply(found) => found
    case _ => None
  }

  /** It is a row of the new state. */
  lemma ReplyShowsRow(c: Crypto, s: State, call: Call)
    ensures var (t, r) := Step(c, s, call);
            !call.request.AdmissionOf? && ShownOperation(r).Some? ==> Shown(t.rows, ShownOperation(r).value)
  {
    hide Checked, Unique, NonceTaken, SourceTaken, CheckRequest, LedgerHash, LedgerAddress, IsToken, FindId, FindSource,
         NormalizeReservation;
    var work := Arrive(c, call);
    var (t, r) := Step(c, s, call);
    if work.Err? || ShownOperation(r).None? { return; }
    match work.value.request
    case Reserve(input) =>
      var k := FindId(s.rows, input.operationId);
      assert r.operation == Public(t.rows[if k.None? then |s.rows| else k.value]);
    case Prepare(id, _, _, _, _) => assert r.operation == Public(t.rows[FindId(s.rows, id).value]);
    case FailBefore(id, _, _) => assert r.found.value == Public(t.rows[FindId(s.rows, id).value]);
    case Abandon(id) => assert r.found.value == Public(t.rows[FindId(s.rows, id).value]);
    case Complete(id, _, _, _) => assert r.found.value == Public(t.rows[FindId(s.rows, id).value]);
    case Read(id) => assert r.found.value == Public(t.rows[FindId(s.rows, id).value]);
    case ReadSource(source) => assert r.found.value == Public(t.rows[FindSource(s.rows, source).value]);
    case _ =>
  }

  /** And it answers the request: same identifiers, recorded values and resulting state. */
  lemma ReplyMatches(c: Crypto, s: State, call: Call, p: Policy)
    requires CheckRequest(call.env.configured, call.received) == Ok(p) && Core(c, s)
    requires !call.request.Inspect? && !call.request.AdmissionOf?
    ensures var r := Step(c, s, call).1;
            if ShownOperation(r).Some? then RequestMatches(c, p, call, r, ShownOperation(r).value)
            else r.Error? || (r.OperationReply? && (call.request.Read? || call.request.ReadSource?))
  {
    hide Checked, Unique, NonceTaken, SourceTaken, CheckRequest, LedgerHash, LedgerAddress, IsToken, FindId, FindSource,
         NormalizeReservation, HelperOperationId, Core;
    var work := Arrive(c, call);
    if work.Err? { return; }
    match work.value.request
    case Reserve(_) => NormalizedFields(c, p, call.request.input);
    case Complete(id, _, _, _) => if FindId(s.rows, id).Some? { StatusOfState(c, s, FindId(s.rows, id).value); }
    case _ =>
  }

  ghost predicate Shown(rows: seq<Row>, o: Operation) {
    exists k | 0 <= k < |rows| :: o == Public(rows[k])
  }

  ghost predicate RequestMatches(c: Crypto, p: Policy, call: Call, r: Reply, o: Operation) {
    match call.request
    case Read(id) => r.OperationReply? && LedgerHash(id) == Some(o.operationId)
    case ReadSource(source) => r.OperationReply? && LedgerAddress(source) == Some(o.sourceWallet)
    case Reserve(input) =>
      && r.ReserveReply? && LedgerHash(input.operationId) == Some(o.operationId)
      && (if r.created then
            && o.state.Admitted? && o.mode == input.mode && LedgerAddress(input.requester) == Some(o.requester)
            && HelperOperationId(c, p.identity, input.sourceWallet, input.pair) == Some(o.operationId)
            && r.permitToken == Some(call.env.freshToken)
          else r.permitToken.None?)
    case Prepare(id, _, hash, nonce, _) =>
      && r.PrepareReply? && LedgerHash(id) == Some(o.operationId) && o.state.BroadcastPrepared?
      && LedgerHash(hash).Some? && LedgerHash(hash) == o.transactionHash && o.nonce == Some(nonce)
    case Complete(id, hash, status, block) =>
      && r.OperationReply? && LedgerHash(id) == Some(o.operationId)
      && o.state == (if status == 1 then Settled else Reverted)
      && LedgerHash(hash).Some? && LedgerHash(hash) == o.transactionHash && o.blockNumber == Some(block)
    case FailBefore(id, _, _) => r.OperationReply? && LedgerHash(id) == Some(o.operationId) && o.state.Stopped?
    case Abandon(id) => r.OperationReply? && LedgerHash(id) == Some(o.operationId) && o.state.Stopped?
    case _ => false
  }

  lemma NormalizedFields(c: Crypto, p: Policy, input: Reservation)
    ensures var n := NormalizeReservation(c, p.identity, input);
            n.Some? ==>
              && LedgerHash(input.operationId) == Some(n.value.operationId) && n.value.mode == input.mode
              && LedgerAddress(input.requester) == Some(n.value.requester)
              && HelperOperationId(c, p.identity, input.sourceWallet, input.pair) == Some(n.value.operationId)
  {
    if NormalizeReservation(c, p.identity, input).Some? {
      AddressIsCanonical(input.sourceWallet);
      PairIsCanonical(input.pair);
    }
  }

  lemma StatusOfState(c: Crypto, s: State, k: nat)
    requires Core(c, s) && k < |s.rows|
    ensures IsFinished(s.rows[k].state) ==> s.rows[k].receiptStatus == Some(if s.rows[k].state.Settled? then 1 else 0)
  {
    hide NormalizeReservation, LedgerHash;
    assert RowCore(c, s.meta.value.policy, s.rows[k]);
  }

  /** Both sides agree: from an invariant state, under a clock that keeps the new row times sound,
      every successful reply passes the caller's check. */
  lemma CallerAccepts(c: Crypto, s: State, call: Call, p: Policy)
    requires CryptoOk(c) && PolicyOk(p) && call.received == p && IsToken(call.env.freshToken)
    requires Inv(c, s) && Inv(c, Step(c, s, call).0)
    ensures var r := Step(c, s, call).1; r.Error? || Accepts(c, p, call.request, r)
  {
    hide Step, Core, Checked, OperationOk, NormalizeReservation, LedgerHash, LedgerAddress, HelperOperationId, IsToken,
         Shown, TotalsAccepted, AdmissionAccepted;
    var (t, r) := Step(c, s, call);
    if r.Error? { return; }
    SuccessIsChecked(c, s, call, p);
    if call.request.Inspect? || call.request.AdmissionOf? {
      SnapshotReply(c, s, call, p);
      SnapshotAccepted(c, p, s, call.env);
    } else {
      ReplyShowsRow(c, s, call);
      ReplyMatches(c, s, call, p);
      if ShownOperation(r).Some? {
        ShownAccepted(c, p, t, ShownOperation(r).value);
      }
    }
  }

  lemma SuccessIsChecked(c: Crypto, s: State, call: Call, p: Policy)
    requires PolicyOk(p) && call.received == p && !Step(c, s, call).1.Error?
    ensures CheckRequest(call.env.configured, call.received) == Ok(p) && Checked(c, p, s).None?
    ensures var t := Step(c, s, call).0; t.meta.Some? ==> t.meta.value.policy == p
  {
    hide Consistent, Unique, NonceTaken, SourceTaken, NormalizeReservation, LedgerHash, LedgerAddress, IsToken, FindId,
         FindSource, NormalizePolicy;
  }

  lemma ShownAccepted(c: Crypto, p: Policy, t: State, o: Operation)
    requires Inv(c, t) && Shown(t.rows, o) && (t.meta.Some? ==> t.meta.value.policy == p)
    ensures OperationOk(c, p, o)
  {
    hide RowCore, TotalsOk, Unique;
    var k :| 0 <= k < |t.rows| && o == Public(t.rows[k]);
    assert RowCore(c, p, t.rows[k]) && TimesOk(t.rows[k]);
    RowAccepted(c, p, t.rows[k]);
  }

  lemma SnapshotReply(c: Crypto, s: State, call: Call, p: Policy)
    requires PolicyOk(p) && Inv(c, s) && Checked(c, p, s).None?
    requires CheckRequest(call.env.configured, call.received) == Ok(p)
    requires call.request.Inspect? || call.request.AdmissionOf?
    ensures var r := Step(c, s, call).1;
            match call.request
            case Inspect => r == InspectReply(TotalsOf(p, s, call.env))
            case AdmissionOf(source) =>
              r.Error? || (&& r.AdmissionReply? && r.totals == TotalsOf(p, s, call.env)
                           && LedgerAddress(source) == Some(r.sourceWallet)
                           && (r.found.Some? ==> AdmissionAccepted(c, p, r.totals, r.sourceWallet, r.found.value)))
            case _ => true
  {
    hide Inv, Checked, LedgerAddress, FindSource, CheckRequest, AdmissionAccepted, TotalsOf, PolicyOk;
    if call.request.AdmissionOf? && LedgerAddress(call.request.sourceWallet).Some? {
      var found := FindSource(s.rows, LedgerAddress(call.request.sourceWallet).value);
      if found.Some? {
        AdmissionIsAccepted(c, p, s, call.env, found.value);
      }
    }
  }

  /** A call that changes the tables shows the row it stamped. */
  lemma ShownStamp(c: Crypto, s: State, call: Call)
    requires Step(c, s, call).0 != s
    ensures var o := ShownOperation(Step(c, s, call).1);
            var target := TargetRow(c, s, call);
            && o.Some? && o.value.updatedAt == call.env.nowMs
            && o.value.createdAt == (if target.Some? then s.rows[target.value].createdAt else call.env.nowMs)
  {
    hide Checked, Unique, NonceTaken, SourceTaken, CheckRequest, LedgerHash, LedgerAddress, IsToken, FindId, FindSource,
         NormalizeReservation;
    match Arrive(c, call).value.request
    case Reserve(_) =>
    case Prepare(_, _, _, _, _) =>
    case FailBefore(_, _, _) =>
    case Abandon(_) =>
    case Complete(_, _, _, _) =>
    case _ =>
  }

  lemma AcceptedTimes(c: Crypto, p: Policy, request: Request, r: Reply)
    requires Accepts(c, p, request, r) && ShownOperation(r).Some?
    ensures var o := ShownOperation(r).value; 0 < o.createdAt <= o.updatedAt <= MAX_SAFE_INTEGER
  {
    hide NormalizeReservation, LedgerHash, LedgerAddress, HelperOperationId, IsToken, TotalsAccepted, AdmissionAccepted;
  }

  /** The exact agreement: from an invariant state a successful reply passes the caller's check if and
      only if the call changed nothing or its stamp is sound. The caller detects a bad clock at once. */
  lemma CallerAcceptsIff(c: Crypto, s: State, call: Call, p: Policy)
    requires CryptoOk(c) && PolicyOk(p) && call.received == p && IsToken(call.env.freshToken) && Inv(c, s)
    ensures var (t, r) := Step(c, s, call);
            r.Error? || (Accepts(c, p, call.request, r) <==> t == s || StampOk(c, s, call))
  {
    hide Step, Inv, Accepts, PolicyOk, IsToken, TargetRow, CryptoOk;
    var (t, r) := Step(c, s, call);
    if t == s {
      CallerAccepts(c, s, call, p);
    } else {
      ClockCondition(c, s, call);
      if StampOk(c, s, call) {
        CallerAccepts(c, s, call, p);
      } else if Accepts(c, p, call.request, r) {
        ShownStamp(c, s, call);
        AcceptedTimes(c, p, call.request, r);
      }
    }
  }

  /** Over a run in order, every successful reply to a caller with the configured policy is accepted,
      also of a call whose own reading is wrong, unless that call changed the tables. */
  lemma RunIsAccepted(c: Crypto, calls: seq<Call>, i: nat)
    requires CryptoOk(c) && i < |calls| && InOrder(c, calls, i)
    requires PolicyOk(calls[i].received) && IsToken(calls[i].env.freshToken)
    ensures var r := ReplyAt(c, calls, i);
            r.Error? || (Accepts(c, calls[i].received, calls[i].request, r) <==> InOrder(c, calls, i + 1))
  {
    hide Step, Core, Accepts, PolicyOk, IsToken, StampOk, CryptoOk;
    Reachable(c, calls, i);
    CallerAcceptsIff(c, StateAt(c, calls, i), calls[i], calls[i].received);
    assert StateAt(c, calls, i + 1) == Step(c, StateAt(c, calls, i), calls[i]).0;
  }
}
