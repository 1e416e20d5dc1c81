/** Which replies the ledger's caller accepts, said of the reply itself: whatever the transport delivers, only a
    reply that sound tables could give to this very request gets through. */
module LedgerCallerLaws {
  import opened Wrappers
  import opened Numbers
  import opened Text
  import opened LedgerPolicy
  import opened LedgerModel
  import opened LedgerClient
  import opened LedgerLaws
  import opened LedgerAnswers

  /** An operation that some sound row of this policy shows. */
  ghost predicate Plausible(c: Crypto, p: Policy, o: Operation) {
    exists r :: SoundRow(c, p, r) && Shows(o, r)
  }

  function AnyDigest(): (s: string)
    ensures IsDigest(s)
  {
    seq(64, _ => '0')
  }

  /** The caller's check of an operation is whether a sound row could show it. */
  lemma OperationIs(c: Crypto, p: Policy, o: Operation)
    requires PolicyOk(p)
    ensures OperationOk(c, p, o) <==> Plausible(c, p, o)
  {
    hide NormalizeReservation, SoundReservation, IsHexText, IsDigest, PolicyOk, STOP_REASONS;
    var r := Row(o.operationId, o.mode, o.requester, o.sourceWallet, o.pair.failedTransactionHash,
                 o.pair.successfulTransactionHash, o.state, AnyDigest(), o.maxFeeWei, o.creditWei, o.transactionHash,
                 o.nonce, o.receiptStatus, o.blockNumber, o.reason, o.createdAt, o.updatedAt);
    assert Shows(o, r) && OperationReservation(o) == RowReservation(r);
    PolicyIdentity(p);
    ReservationIs(c, p.identity, OperationReservation(o));
    OkIsSound(c, p, o, r);
    forall q | SoundRow(c, p, q) && Shows(o, q) ensures SoundRow(c, p, r) {
      assert q.(permitDigest := r.permitDigest) == r;
    }
  }

  lemma PolicyIdentity(p: Policy)
    requires PolicyOk(p)
    ensures NormalizeIdentity(p.identity).Some?
  {
  }

  lemma OkIsSound(c: Crypto, p: Policy, o: Operation, r: Row)
    requires Shows(o, r) && IsDigest(r.permitDigest) && OperationReservation(o) == RowReservation(r)
    requires NormalizeReservation(c, p.identity, OperationReservation(o)).Some?
             <==> SoundReservation(c, p.identity, RowReservation(r))
    ensures OperationOk(c, p, o) <==> SoundRow(c, p, r)
  {
    hide NormalizeReservation, SoundReservation, IsDigest, STOP_REASONS, Lower;
  }

  /** Totals of this very policy: as many payouts as attempts, within both limits, their fees reserved within the
      total, and a pointer in lower case only when something was attempted. */
  ghost predicate SoundReport(p: Policy, t: Totals) {
    && SoundPolicy(Policy(t.identity, t.limits)) && Plainly(Policy(t.identity, t.limits)) == p
    && 0 <= t.attempts <= p.limits.maxAttempts && t.attempts == t.payouts <= p.limits.maxPayouts
    && t.reservedFeeWei == t.attempts * p.limits.maxFeeWei <= p.limits.maxTotalFeeWei
    && (t.activeOperationId.Some? ==>
          t.attempts > 0 && IsHexText(t.activeOperationId.value, 64)
          && Lower(t.activeOperationId.value) == t.activeOperationId.value)
  }

  lemma ReportIs(p: Policy, t: Totals)
    requires PolicyOk(p)
    ensures TotalsAccepted(p, t) <==> SoundReport(p, t)
  {
    PolicyIs(Policy(t.identity, t.limits));
    if t.activeOperationId.Some? { HashIs(t.activeOperationId.value); }
    hide NormalizeIdentity, SoundPolicy, IsHexText, Lower, LedgerHash;
  }

  /** The operation of the queried source, in lower case throughout, whose being unresolved agrees with the
      reported pointer. */
  ghost predicate AgreesWith(c: Crypto, p: Policy, t: Totals, source: string, o: Operation) {
    && Plausible(c, p, o) && t.attempts > 0 && o.sourceWallet == source
    && Lower(o.operationId) == o.operationId && Lower(o.requester) == o.requester
    && Lower(o.pair.failedTransactionHash) == o.pair.failedTransactionHash
    && Lower(o.pair.successfulTransactionHash) == o.pair.successfulTransactionHash
    && (o.transactionHash.Some? ==>
          IsHexText(o.transactionHash.value, 64) && Lower(o.transactionHash.value) == o.transactionHash.value)
    && (if o.state in {Admitted, BroadcastPrepared} then t.activeOperationId == Some(o.operationId)
        else t.activeOperationId != Some(o.operationId) && (t.activeOperationId.Some? ==> t.attempts > 1))
  }

  lemma AgreementIs(c: Crypto, p: Policy, t: Totals, source: string, o: Operation)
    requires PolicyOk(p)
    requires 0 <= t.attempts
    ensures OperationOk(c, p, o) ==> (AdmissionAccepted(c, p, t, source, o) <==> AgreesWith(c, p, t, source, o))
    ensures AgreesWith(c, p, t, source, o) ==> OperationOk(c, p, o)
  {
    OperationIs(c, p, o);
    PolicyIdentity(p);
    ReservationIs(c, p.identity, OperationReservation(o));
    if o.transactionHash.Some? { HashIs(o.transactionHash.value); }
    if OperationOk(c, p, o) { ReservationPasses(c, p, o); }
    hide NormalizeReservation, SoundReservation, IsHexText, Lower, LedgerHash, OperationOk, Plausible, PolicyOk;
  }

  lemma ReservationPasses(c: Crypto, p: Policy, o: Operation)
    requires OperationOk(c, p, o)
    ensures NormalizeReservation(c, p.identity, OperationReservation(o)).Some?
  {
  }

  /** The shown operation is the one asked about. */
  ghost predicate IsOf(o: Operation, id: string) { IsHexText(id, 64) && o.operationId == Lower(id) }

  ghost predicate IsFor(source: string, wallet: string) { IsAddress(source) && wallet == Lower(source) }

  ghost predicate HasSent(o: Operation, hash: string) {
    IsHexText(hash, 64) && o.transactionHash == Some(Lower(hash))
  }

  /** A reply that sound tables could give to this request. */
  ghost predicate Fits(c: Crypto, p: Policy, request: Request, reply: Reply) {
    match request
    case Inspect => reply.InspectReply? && SoundReport(p, reply.totals)
    case AdmissionOf(source) =>
      && reply.AdmissionReply? && SoundReport(p, reply.totals) && IsFor(source, reply.sourceWallet)
      && (reply.found.Some? ==> AgreesWith(c, p, reply.totals, reply.sourceWallet, reply.found.value))
    case Read(id) =>
      reply.OperationReply? && (reply.found.Some? ==> Plausible(c, p, reply.found.value) && IsOf(reply.found.value, id))
    case ReadSource(source) =>
      reply.OperationReply?
      && (reply.found.Some? ==> Plausible(c, p, reply.found.value) && IsFor(source, reply.found.value.sourceWallet))
    case Reserve(v) =>
      && reply.ReserveReply? && Plausible(c, p, reply.operation) && IsOf(reply.operation, v.operationId)
      && (if reply.created then
            && reply.operation.state == Admitted && reply.operation.mode == v.mode
            && IsFor(v.requester, reply.operation.requester)
            && IsAddress(v.sourceWallet)
            && SoundPair(v.pair.failedTransactionHash, v.pair.successfulTransactionHash)
            && reply.operation.operationId ==
               c.operation(p.identity.chainId, Lower(p.identity.poolAddress), p.identity.campaignNumber,
                           Lower(v.sourceWallet), Pair(Lower(v.pair.failedTransactionHash),
                                                       Lower(v.pair.successfulTransactionHash)))
            && reply.permitToken.Some? && IsPermit(reply.permitToken.value)
          else reply.permitToken == None)
    case Prepare(id, _, hash, nonce, _) =>
      && reply.PrepareReply? && Plausible(c, p, reply.operation) && IsOf(reply.operation, id)
      && reply.operation.state == BroadcastPrepared && HasSent(reply.operation, hash)
      && reply.operation.nonce == Some(nonce)
    case FailBefore(id, _, _) => FitsStop(c, p, id, reply)
    case Abandon(id) => FitsStop(c, p, id, reply)
    case Complete(id, hash, status, block) =>
      && reply.OperationReply? && reply.found.Some?
      && Plausible(c, p, reply.found.value) && IsOf(reply.found.value, id) && HasSent(reply.found.value, hash)
      && reply.found.value.state == (if status == 1 then Settled else Reverted)
      && reply.found.value.blockNumber == Some(block)
  }

  ghost predicate FitsStop(c: Crypto, p: Policy, id: string, reply: Reply) {
    && reply.OperationReply? && reply.found.Some?
    && Plausible(c, p, reply.found.value) && IsOf(reply.found.value, id)
    && reply.found.value.state == OpState.Stopped
  }

  /** The caller accepts a reply exactly when it fits the request. */
  lemma AcceptedIff(c: Crypto, p: Policy, request: Request, reply: Reply)
    requires PolicyOk(p)
    ensures Accepts(c, p, request, reply) <==> Fits(c, p, request, reply)
  {
    hide OperationOk, Plausible, TotalsAccepted, SoundReport, AdmissionAccepted, AgreesWith, LedgerHash, LedgerAddress,
         IsHexText, IsAddress, Lower, IsToken, IsPermit, NormalizePair, SoundPair, PolicyOk, NormalizeIdentity;
    match request
    case Inspect => if reply.InspectReply? { ReportIs(p, reply.totals); }
    case AdmissionOf(source) =>
      AddressIs(source);
      if reply.AdmissionReply? { AdmissionIs(c, p, reply); }
    case Read(id) =>
      HashIs(id);
      if reply.OperationReply? && reply.found.Some? { OperationIs(c, p, reply.found.value); }
    case ReadSource(source) =>
      AddressIs(source);
      if reply.OperationReply? && reply.found.Some? { OperationIs(c, p, reply.found.value); }
    case Reserve(v) =>
      HashIs(v.operationId);
      if reply.ReserveReply? { ReserveIs(c, p, v, reply); }
    case Prepare(id, _, hash, _, _) =>
      HashIs(id);
      HashIs(hash);
      if reply.PrepareReply? { OperationIs(c, p, reply.operation); }
    case FailBefore(id, _, _) =>
      HashIs(id);
      if reply.OperationReply? && reply.found.Some? { OperationIs(c, p, reply.found.value); }
    case Abandon(id) =>
      HashIs(id);
      if reply.OperationReply? && reply.found.Some? { OperationIs(c, p, reply.found.value); }
    case Complete(id, hash, _, _) =>
      HashIs(id);
      HashIs(hash);
      if reply.OperationReply? && reply.found.Some? { OperationIs(c, p, reply.found.value); }
  }

  lemma AdmissionIs(c: Crypto, p: Policy, reply: Reply)
    requires PolicyOk(p) && reply.AdmissionReply?
    ensures TotalsAccepted(p, reply.totals) <==> SoundReport(p, reply.totals)
    ensures TotalsAccepted(p, reply.totals) && reply.found.Some? ==>
              (AdmissionAccepted(c, p, reply.totals, reply.sourceWallet, reply.found.value) <==>
               AgreesWith(c, p, reply.totals, reply.sourceWallet, reply.found.value))
  {
    hide PolicyOk, OperationOk, AgreesWith, NormalizeReservation, SoundPolicy, NormalizePolicy;
    ReportIs(p, reply.totals);
    if TotalsAccepted(p, reply.totals) && reply.found.Some? {
      AgreementIs(c, p, reply.totals, reply.sourceWallet, reply.found.value);
    }
  }

  lemma ReserveIs(c: Crypto, p: Policy, v: Reservation, reply: Reply)
    requires PolicyOk(p) && reply.ReserveReply?
    ensures OperationOk(c, p, reply.operation) <==> Plausible(c, p, reply.operation)
    ensures LedgerAddress(v.requester) == if IsAddress(v.requester) then Some(Lower(v.requester)) else None
    ensures reply.permitToken.Some? ==> (IsToken(reply.permitToken.value) <==> IsPermit(reply.permitToken.value))
    ensures HelperOperationId(c, p.identity, v.sourceWallet, v.pair) ==
            if IsAddress(v.sourceWallet)
               && SoundPair(v.pair.failedTransactionHash, v.pair.successfulTransactionHash) then
              Some(c.operation(p.identity.chainId, Lower(p.identity.poolAddress), p.identity.campaignNumber,
                               Lower(v.sourceWallet), Pair(Lower(v.pair.failedTransactionHash),
                                                           Lower(v.pair.successfulTransactionHash))))
            else None
  {
    hide OperationOk, Plausible, IsAddress, LedgerAddress, IsHexText, Lower, NormalizePair, SoundPair, PolicyOk,
         IsToken, IsPermit;
    OperationIs(c, p, reply.operation);
    PolicyIdentity(p);
    AddressIs(v.requester);
    AddressIs(v.sourceWallet);
    AddressIs(p.identity.poolAddress);
    PairIs(v.pair);
    if reply.permitToken.Some? { PermitIs(reply.permitToken.value); }
  }
}
