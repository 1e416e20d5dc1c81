/** Every answer of the spending ledger and the tables it leaves, said of the call, the configured policy and
    the stored rows alone. */
module LedgerLaws {
  import opened Wrappers
  import opened Numbers
  import opened Text
  import opened TextLaws
  import opened LedgerPolicy
  import opened LedgerModel
  import opened LedgerHistory
  import LedgerBudget
  import LedgerSafety

  // ---- policies ----

  ghost predicate IsAddress(s: string) { IsHexText(s, 40) && exists i | 2 <= i < |s| :: s[i] != '0' }

  ghost predicate SoundPolicy(p: Policy) {
    var i, l := p.identity, p.limits;
    && 0 < i.chainId <= MAX_SAFE_INTEGER && 0 < i.campaignNumber <= MAX_SAFE_INTEGER
    && IsAddress(i.poolAddress) && IsAddress(i.relayerAddress)
    && 0 < l.maxAttempts <= 32 && 0 < l.maxPayouts <= 32 && 0 < l.expiresAt <= MAX_SAFE_INTEGER
    && 0 < l.maxFeeWei <= l.maxTotalFeeWei <= MAX_UINT && 0 < l.creditWei <= MAX_UINT
  }

  /** The policy with its two addresses in lower case. */
  ghost function Plainly(p: Policy): Policy {
    var i := p.identity;
    p.(identity := i.(poolAddress := Lower(i.poolAddress), relayerAddress := Lower(i.relayerAddress)))
  }

  /** The configured policy is valid and the caller's is the same one, whatever the case of its addresses. */
  ghost predicate Agreed(call: Call) {
    SoundPolicy(call.env.configured) && SoundPolicy(call.received)
    && Plainly(call.received) == Plainly(call.env.configured)
  }

  lemma AddressIs(s: string)
    ensures LedgerAddress(s) == if IsAddress(s) then Some(Lower(s)) else None
  {
    hide IsHexText, Lower;
  }

  lemma PolicyIs(p: Policy)
    ensures NormalizePolicy(p) == if SoundPolicy(p) then Some(Plainly(p)) else None
  {
    hide LedgerAddress, IsAddress, Lower;
    AddressIs(p.identity.poolAddress);
    AddressIs(p.identity.relayerAddress);
  }

  /** A call is answered with anything but an error only under the configured policy itself: an invalid
      configuration, an invalid policy of the caller and a different one are each reported and change nothing. */
  lemma PolicyAnswer(c: Crypto, s: State, call: Call)
    ensures var (t, reply) := Step(c, s, call);
            if !SoundPolicy(call.env.configured) then (t, reply) == (s, Error(ConfigInvalid))
            else if !SoundPolicy(call.received) then (t, reply) == (s, Error(InputInvalid))
            else if Plainly(call.received) != Plainly(call.env.configured) then (t, reply) == (s, Error(PolicyChanged))
            else Agreed(call)
    ensures !Step(c, s, call).1.Error? ==> Agreed(call)
  {
    hide NormalizePolicy, SoundPolicy, Plainly, Transact, NormalizeReservation, LedgerHash, LedgerAddress, IsToken,
         Gate;
    PolicyIs(call.env.configured);
    PolicyIs(call.received);
  }

  lemma ArrivesUnder(c: Crypto, call: Call)
    requires Arrive(c, call).Ok?
    ensures Agreed(call) && Arrive(c, call).value.policy == Plainly(call.env.configured)
  {
    hide NormalizePolicy, SoundPolicy, Plainly, NormalizeReservation, LedgerHash, LedgerAddress, IsToken, Gate;
    PolicyIs(call.env.configured);
    PolicyIs(call.received);
  }

  /** A stored policy stays; one is stored only by a created answer, and it is the configured one; and once one is
      stored, no other configuration is answered. */
  lemma StoredPolicyStep(c: Crypto, s: State, call: Call)
    ensures var (t, reply) := Step(c, s, call); var p := Plainly(call.env.configured);
            && (s.meta.Some? ==> t.meta.Some? && t.meta.value.policy == s.meta.value.policy)
            && (s.meta.Some? && !reply.Error? ==> s.meta.value.policy == p)
            && (s.meta.None? && t.meta.Some? ==> t.meta.value.policy == p && reply.ReserveReply? && reply.created)
            && (reply.ReserveReply? && reply.created ==> t.meta.Some?)
  {
    hide Arrive, Consistent, Unique, NonceTaken, SourceTaken, FindId, FindSource, Plainly, Gate;
    if Arrive(c, call).Ok? { ArrivesUnder(c, call); }
  }

  /** Call i is the first one that created an operation. */
  ghost predicate FirstCreated(c: Crypto, calls: seq<Call>, i: nat) {
    && i < |calls| && ReplyAt(c, calls, i).ReserveReply? && ReplyAt(c, calls, i).created
    && forall k: nat | k < i :: !(ReplyAt(c, calls, k).ReserveReply? && ReplyAt(c, calls, k).created)
  }

  /** In every run the stored policy is the configured policy of the first call that created an operation. */
  lemma {:induction false} StoredPolicyOrigin(c: Crypto, calls: seq<Call>, n: nat) returns (i: nat)
    requires n <= |calls|
    ensures var s := StateAt(c, calls, n);
            if s.meta.Some? then
              && i < n && FirstCreated(c, calls, i)
              && SoundPolicy(calls[i].env.configured) && s.meta.value.policy == Plainly(calls[i].env.configured)
            else forall k: nat | k < n :: !(ReplyAt(c, calls, k).ReserveReply? && ReplyAt(c, calls, k).created)
  {
    hide Step, Plainly, SoundPolicy;
    i := 0;
    if n > 0 {
      i := StoredPolicyOrigin(c, calls, n - 1);
      StoredPolicyStep(c, StateAt(c, calls, n - 1), calls[n - 1]);
      if StateAt(c, calls, n - 1).meta.None? {
        i := n - 1;
        PolicyAnswer(c, StateAt(c, calls, n - 1), calls[n - 1]);
      }
    }
  }

  /** So the spending of a run is bounded by the configuration itself: at every call that is not answered with an
      error, the broadcasts granted are at most the operations created, and these fit the limits configured for that
      very call. */
  lemma ConfiguredLimitsBound(c: Crypto, calls: seq<Call>, j: nat)
    requires j < |calls| && !ReplyAt(c, calls, j).Error?
    ensures var l, created := calls[j].env.configured.limits, LedgerBudget.CreatedCount(c, calls, j + 1);
            && LedgerBudget.GrantedCount(c, calls, j + 1) <= created
            && created <= l.maxAttempts && created <= l.maxPayouts && created * l.maxFeeWei <= l.maxTotalFeeWei
            && SoundPolicy(calls[j].env.configured) && SoundPolicy(calls[j].received)
            && Plainly(calls[j].received) == Plainly(calls[j].env.configured)
  {
    hide Step, Cap;
    var s, t := StateAt(c, calls, j), StateAt(c, calls, j + 1);
    PolicyAnswer(c, s, calls[j]);
    StoredPolicyStep(c, s, calls[j]);
    LedgerBudget.RunSpends(c, calls, j + 1);
    LedgerBudget.GrantedAtMost(t.rows);
    if t.meta.Some? {
      var l := t.meta.value.policy.limits;
      assert l == calls[j].env.configured.limits;
      CapIs(l, |t.rows|);
    }
  }

  lemma CapIs(l: Limits, n: int)
    requires LimitsOk(l) && n <= Cap(l)
    ensures n <= l.maxAttempts && n <= l.maxPayouts && n * l.maxFeeWei <= l.maxTotalFeeWei
  {
    FeesFit(l.maxFeeWei, l.maxTotalFeeWei, n);
  }

  /** The object that holds a campaign's spending is named by chain, pool and campaign, and by nothing else. */
  lemma AtomIs(i: Identity)
    ensures Atom(i) ==
            if 0 < i.chainId <= MAX_SAFE_INTEGER && 0 < i.campaignNumber <= MAX_SAFE_INTEGER
               && IsAddress(i.poolAddress) && IsAddress(i.relayerAddress)
            then Some("retrycredit-spending" + ":" + Decimal(Nat(i.chainId)) + ":" + Lower(i.poolAddress) + ":"
                      + Decimal(Nat(i.campaignNumber)))
            else None
  {
    AddressIs(i.poolAddress);
    AddressIs(i.relayerAddress);
    hide LedgerAddress, IsAddress, Lower, Decimal;
    if NormalizeIdentity(i).Some? {
      var a, b, c, d := "retrycredit-spending", Decimal(Nat(i.chainId)), Lower(i.poolAddress),
                        Decimal(Nat(i.campaignNumber));
      JoinFour(':', a, b, c, d);
    }
  }

  /** In every run and whatever the clock, two rows differ in operation, source and both hashes, and in transaction
      and nonce once these are recorded: the tables keep their constraints. */
  lemma ConstraintsHold(c: Crypto, calls: seq<Call>, n: nat)
    requires n <= |calls|
    ensures Unique(StateAt(c, calls, n).rows)
    ensures var rows := StateAt(c, calls, n).rows;
            forall i, j | 0 <= i < j < |rows| ::
              && rows[i].operationId != rows[j].operationId && rows[i].sourceWallet != rows[j].sourceWallet
              && rows[i].failedHash != rows[j].failedHash && rows[i].successHash != rows[j].successHash
              && (rows[i].transactionHash != rows[j].transactionHash || rows[i].transactionHash.None?)
              && (rows[i].nonce != rows[j].nonce || rows[i].nonce.None?)
  {
    hide StateAt;
    ConstraintsStay(c, calls, n);
    var rows := StateAt(c, calls, n).rows;
    assert forall i, j | 0 <= i < j < |rows| :: Distinct(rows[i], rows[j]);
  }

  lemma {:induction false} ConstraintsStay(c: Crypto, calls: seq<Call>, n: nat)
    requires n <= |calls|
    ensures Unique(StateAt(c, calls, n).rows)
  {
    hide Step, Unique;
    if n > 0 {
      ConstraintsStay(c, calls, n - 1);
      ConstraintsStep(c, StateAt(c, calls, n - 1), calls[n - 1]);
    } else {
      NoRowsUnique();
    }
  }

  lemma NoRowsUnique()
    ensures Unique([])
  {
  }

  lemma ConstraintsStep(c: Crypto, s: State, call: Call)
    requires Unique(s.rows)
    ensures Unique(Step(c, s, call).0.rows)
  {
    hide Arrive, Checked, Unique, NonceTaken, SourceTaken, FindId, FindSource, Gate;
    if Arrive(c, call).Ok? {
      match Arrive(c, call).value.request
      case FailBefore(id, _, _) => RowStaysUnique(s, Step(c, s, call).0, FindId(s.rows, id));
      case Abandon(id) => RowStaysUnique(s, Step(c, s, call).0, FindId(s.rows, id));
      case Complete(id, _, _, _) => RowStaysUnique(s, Step(c, s, call).0, FindId(s.rows, id));
      case _ =>
    }
  }

  lemma RowStaysUnique(s: State, t: State, k: Option<nat>)
    requires Unique(s.rows) && (k.Some? ==> k.value < |s.rows|)
    requires t.rows == s.rows || (k.Some? && |t.rows| == |s.rows| && t.rows == s.rows[k.value := t.rows[k.value]]
                                  && var r, q := s.rows[k.value], t.rows[k.value];
                                  q.operationId == r.operationId && q.sourceWallet == r.sourceWallet
                                  && q.failedHash == r.failedHash && q.successHash == r.successHash
                                  && q.transactionHash == r.transactionHash && q.nonce == r.nonce)
    ensures Unique(t.rows)
  {
    hide Unique;
    if t.rows != s.rows { LedgerSafety.UniqueUpdate(s.rows, k.value, t.rows[k.value]); }
  }
}
