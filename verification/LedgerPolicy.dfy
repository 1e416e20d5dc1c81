/** src/helper-ledger-policy.mjs: normalising the spending policy, reservations and identities. */
module LedgerPolicy {
  import opened Wrappers
  import opened Numbers
  import opened Text

  const MAX_UINT: int := 115792089237316195423570985008687907853269984665640564039457584007913129639935

  const STOP_REASONS: seq<string> := [
    "eligibility-changed", "proof-unavailable", "proof-invalid", "simulation-rejected",
    "fee-cap", "prebroadcast-failed"]

  datatype LedgerError =
    | ConfigInvalid | InputInvalid | PolicyChanged | StateInvalid | Disabled | Expired | FeeCap
    | SourceReserved | Busy | BudgetExhausted | PermitInvalid | StateConflict | NonceReserved
    | NotFound
    | Unavailable  // what an escaping SQL constraint failure is reported as

  // ---- field checks ----

  function LedgerHash(s: string): Option<string> {
    if IsHexText(s, 64) then Some(Lower(s)) else None
  }

  predicate IsZeroAddress(s: string) {
    forall i | 2 <= i < |s| :: s[i] == '0'
  }

  function LedgerAddress(s: string): Option<string> {
    if IsHexText(s, 40) && !IsZeroAddress(s) then Some(Lower(s)) else None
  }

  /** Canonical decimal texts below 2^256 are represented by their value. */
  predicate IsUint(v: int, zero: bool) {
    (if zero then 0 else 1) <= v <= MAX_UINT
  }

  predicate IsInteger(v: int, zero: bool, max: int) {
    (if zero then 0 else 1) <= v <= max && v <= MAX_SAFE_INTEGER
  }

  lemma HashIsCanonical(s: string)
    requires LedgerHash(s).Some?
    ensures LedgerHash(LedgerHash(s).value) == LedgerHash(s)
  {
    LowerIsCanonical(s, 64);
  }

  lemma AddressIsCanonical(s: string)
    requires LedgerAddress(s).Some?
    ensures LedgerAddress(LedgerAddress(s).value) == LedgerAddress(s)
  {
    LowerIsCanonical(s, 40);
    var i :| 2 <= i < |s| && s[i] != '0';
    assert Lower(s)[i] != '0';
  }

  // ---- policy ----

  datatype Identity = Identity(chainId: int, poolAddress: string, campaignNumber: int, relayerAddress: string)
  datatype Limits = Limits(maxAttempts: int, maxPayouts: int, maxTotalFeeWei: int, maxFeeWei: int,
                           creditWei: int, expiresAt: int)
  datatype Policy = Policy(identity: Identity, limits: Limits)

  function NormalizeIdentity(v: Identity): Option<Identity> {
    var pool, relayer := LedgerAddress(v.poolAddress), LedgerAddress(v.relayerAddress);
    if IsInteger(v.chainId, false, MAX_SAFE_INTEGER) && pool.Some?
       && IsInteger(v.campaignNumber, false, MAX_SAFE_INTEGER) && relayer.Some?
    then Some(Identity(v.chainId, pool.value, v.campaignNumber, relayer.value)) else None
  }

  predicate LimitsOk(l: Limits) {
    && IsInteger(l.maxAttempts, false, 32) && IsInteger(l.maxPayouts, false, 32)
    && IsUint(l.maxTotalFeeWei, false) && IsUint(l.maxFeeWei, false) && IsUint(l.creditWei, false)
    && IsInteger(l.expiresAt, false, MAX_SAFE_INTEGER)
    && l.maxFeeWei <= l.maxTotalFeeWei
  }

  function NormalizePolicy(v: Policy): Option<Policy> {
    var identity := NormalizeIdentity(v.identity);
    if identity.Some? && LimitsOk(v.limits) then Some(Policy(identity.value, v.limits)) else None
  }

  /** A policy that normalisation would leave as it is. */
  predicate PolicyOk(p: Policy) {
    NormalizePolicy(p) == Some(p)
  }

  lemma NormalizePolicyIsCanonical(v: Policy)
    requires NormalizePolicy(v).Some?
    ensures PolicyOk(NormalizePolicy(v).value)
  {
    AddressIsCanonical(v.identity.poolAddress);
    AddressIsCanonical(v.identity.relayerAddress);
  }

  /** The most operations a policy can ever admit. */
  function Cap(l: Limits): int
    requires LimitsOk(l)
  {
    Min(Min(l.maxAttempts, l.maxPayouts), l.maxTotalFeeWei / l.maxFeeWei)
  }

  function Min(a: int, b: int): int { if a <= b then a else b }

  /** A number of equal fees fits the total exactly when it is at most the quotient. */
  lemma FeesFit(fee: int, total: int, n: int)
    requires 0 < fee && 0 <= total
    ensures n * fee <= total <==> n <= total / fee
  {
    var q := total / fee;
    Multiples(fee, n, q);
    Multiples(fee, q + 1, n);
  }

  // ---- the spending atom and operation identity ----

  function Atom(v: Identity): Option<string> {
    var scope := NormalizeIdentity(v);
    if scope.Some? then Some(Join(':', AtomParts(scope.value))) else None
  }

  function AtomParts(scope: Identity): seq<string> {
    ["retrycredit-spending", Decimal(Nat(scope.chainId)), scope.poolAddress, Decimal(Nat(scope.campaignNumber))]
  }

  /** Two identities address the same durable object exactly when chain, pool and campaign agree;
      neither the relayer nor any limit can reset the spending. */
  lemma AtomIdentifiesCampaign(a: Identity, b: Identity)
    requires NormalizeIdentity(a).Some? && NormalizeIdentity(b).Some?
    ensures Atom(a) == Atom(b) <==>
            && a.chainId == b.chainId && a.campaignNumber == b.campaignNumber
              && Lower(a.poolAddress) == Lower(b.poolAddress)
  {
    var x, y := NormalizeIdentity(a).value, NormalizeIdentity(b).value;
    if Atom(a) == Atom(b) {
      LowerIsCanonical(a.poolAddress, 40);
      LowerIsCanonical(b.poolAddress, 40);
      JoinInjective(':', AtomParts(x), AtomParts(y));
      assert AtomParts(x)[1] == AtomParts(y)[1] && AtomParts(x)[2] == AtomParts(y)[2]
          && AtomParts(x)[3] == AtomParts(y)[3];
      DecimalInjective(Nat(x.chainId), Nat(y.chainId));
      DecimalInjective(Nat(x.campaignNumber), Nat(y.campaignNumber));
    }
  }

  datatype Pair = Pair(failedTransactionHash: string, successfulTransactionHash: string)
  datatype Reservation = Reservation(operationId: string, mode: string, requester: string,
                                     sourceWallet: string, pair: Pair, maxFeeWei: int)

  /** The two digests of the ledger, as arbitrary functions: the keccak of a scope, a source and a
      pair, and the SHA-256 of a permit token. Nothing below needs them to be injective. */
  datatype Crypto = Crypto(operation: (int, string, int, string, Pair) -> string, permit: string -> string)

  ghost predicate CryptoOk(c: Crypto) {
    forall token :: IsDigest(c.permit(token))
  }

  function NormalizePair(v: Pair): Option<Pair> {
    var failed, successful := LedgerHash(v.failedTransactionHash), LedgerHash(v.successfulTransactionHash);
    if failed.Some? && successful.Some? && failed != successful
    then Some(Pair(failed.value, successful.value)) else None
  }

  function HelperOperationId(c: Crypto, identity: Identity, sourceWallet: string, pair: Pair): Option<string> {
    var scope, source, evidence := NormalizeIdentity(identity), LedgerAddress(sourceWallet), NormalizePair(pair);
    if scope.Some? && source.Some? && evidence.Some?
    then Some(c.operation(scope.value.chainId, scope.value.poolAddress, scope.value.campaignNumber,
                          source.value, evidence.value))
    else None
  }

  function NormalizeReservation(c: Crypto, identity: Identity, v: Reservation): Option<Reservation> {
    var id, requester, source, pair :=
      LedgerHash(v.operationId), LedgerAddress(v.requester), LedgerAddress(v.sourceWallet), NormalizePair(v.pair);
    if && id.Some? && requester.Some? && source.Some? && pair.Some? && IsUint(v.maxFeeWei, false)
       && v.mode in ["owner", "community-helper-v1"]
       && (v.mode == "owner" ==> requester == source)
       && (v.mode == "community-helper-v1" ==> requester != source)
       && Some(id.value) == HelperOperationId(c, identity, source.value, pair.value)
    then Some(Reservation(id.value, v.mode, requester.value, source.value, pair.value, v.maxFeeWei)) else None
  }

  lemma PairIsCanonical(v: Pair)
    requires NormalizePair(v).Some?
    ensures NormalizePair(NormalizePair(v).value) == NormalizePair(v)
  {
    HashIsCanonical(v.failedTransactionHash);
    HashIsCanonical(v.successfulTransactionHash);
  }

  /** A normalised reservation passes the same checks again and is left unchanged. */
  lemma ReservationIsCanonical(c: Crypto, identity: Identity, v: Reservation)
    requires NormalizeReservation(c, identity, v).Some?
    ensures var n := NormalizeReservation(c, identity, v);
            NormalizeReservation(c, identity, n.value) == n
  {
    HashIsCanonical(v.operationId);
    AddressIsCanonical(v.requester);
    AddressIsCanonical(v.sourceWallet);
    PairIsCanonical(v.pair);
  }
}
