/** What each request to the spending ledger is answered under an agreed policy, said of its own fields, the
    flags and readings of the call and the stored rows. */
module LedgerAnswers {
  import opened Wrappers
  import opened Numbers
  import opened Text
  import opened LedgerPolicy
  import opened LedgerModel
  import opened LedgerLaws
  import LedgerBudget
  import LedgerSafety

  // ---- rows ----

  /** The public operation of a row: all its fields but the permit digest. */
  ghost predicate Shows(o: Operation, r: Row) {
    && o.operationId == r.operationId && o.mode == r.mode && o.requester == r.requester
    && o.sourceWallet == r.sourceWallet && o.pair.failedTransactionHash == r.failedHash
    && o.pair.successfulTransactionHash == r.successHash && o.state == r.state
    && o.maxFeeWei == r.maxFeeWei && o.creditWei == r.creditWei
    && o.transactionHash == r.transactionHash && o.nonce == r.nonce && o.receiptStatus == r.receiptStatus
    && o.blockNumber == r.blockNumber && o.reason == r.reason
    && o.createdAt == r.createdAt && o.updatedAt == r.updatedAt
  }

  /** The row of this operation, if there is one. */
  ghost predicate IsRowOf(rows: seq<Row>, id: string, k: Option<nat>) {
    match k
    case Some(i) => i < |rows| && rows[i].operationId == id
    case None => forall i | 0 <= i < |rows| :: rows[i].operationId != id
  }

  /** The row of this source wallet, if there is one. */
  ghost predicate IsRowFor(rows: seq<Row>, source: string, k: Option<nat>) {
    match k
    case Some(i) => i < |rows| && rows[i].sourceWallet == source
    case None => forall i | 0 <= i < |rows| :: rows[i].sourceWallet != source
  }

  lemma RowIsFound(rows: seq<Row>, id: string, k: Option<nat>)
    requires Unique(rows) && IsRowOf(rows, id, k)
    ensures FindId(rows, id) == k
  {
    hide FindId;
  }

  lemma SourceIsFound(rows: seq<Row>, source: string, k: Option<nat>)
    requires Unique(rows) && IsRowFor(rows, source, k)
    ensures FindSource(rows, source) == k
  {
    hide FindSource;
  }

  // ---- the stored tables ----

  ghost predicate SoundPair(failed: string, successful: string) {
    IsHexText(failed, 64) && IsHexText(successful, 64) && Lower(failed) != Lower(successful)
  }

  /** A reservation of this campaign: well-formed texts, a mode that fits its two wallets, a fee, and the
      operation identity that the campaign, the source and the pair have. */
  ghost predicate SoundReservation(c: Crypto, i: Identity, v: Reservation) {
    var failed, successful := v.pair.failedTransactionHash, v.pair.successfulTransactionHash;
    && IsHexText(v.operationId, 64) && IsAddress(v.requester) && IsAddress(v.sourceWallet)
    && SoundPair(failed, successful) && 0 < v.maxFeeWei <= MAX_UINT
    && (if Lower(v.requester) == Lower(v.sourceWallet) then v.mode == "owner" else v.mode == "community-helper-v1")
    && Lower(v.operationId) == c.operation(i.chainId, Lower(i.poolAddress), i.campaignNumber, Lower(v.sourceWallet),
                                           Pair(Lower(failed), Lower(successful)))
  }

  /** What a row of each state carries. */
  ghost predicate SoundShape(r: Row) {
    var sent := r.transactionHash.Some? && IsHexText(r.transactionHash.value, 64)
                && r.nonce.Some? && 0 <= r.nonce.value <= MAX_SAFE_INTEGER;
    var unsent := r.transactionHash == None && r.nonce == None;
    var mined := r.blockNumber.Some? && 0 < r.blockNumber.value <= MAX_SAFE_INTEGER;
    var unmined := r.blockNumber == None && r.receiptStatus == None;
    match r.state
    case Admitted => unsent && unmined && r.reason == None
    case BroadcastPrepared => sent && unmined && r.reason == None
    case Settled => sent && mined && r.receiptStatus == Some(1) && r.reason == None
    case Reverted => sent && mined && r.receiptStatus == Some(0) && r.reason == None
    case Stopped =>
      unsent && unmined && r.reason.Some? && (r.reason.value in STOP_REASONS || r.reason.value == "operator-abandoned")
  }

  ghost predicate SoundRow(c: Crypto, p: Policy, r: Row) {
    && SoundReservation(c, p.identity, RowReservation(r)) && IsDigest(r.permitDigest)
    && r.maxFeeWei == p.limits.maxFeeWei && r.creditWei == p.limits.creditWei
    && 0 < r.createdAt <= r.updatedAt <= MAX_SAFE_INTEGER && SoundShape(r)
  }

  ghost predicate Unresolved(r: Row) { r.state == Admitted || r.state == BroadcastPrepared }

  /** The totals are those of the rows, within the limits, and the active operation is the one unresolved row. */
  ghost predicate SoundTotals(p: Policy, m: Meta, rows: seq<Row>) {
    && m.attempts == |rows| && m.payouts == |rows| && m.reservedFeeWei == |rows| * p.limits.maxFeeWei
    && |rows| <= p.limits.maxAttempts && |rows| <= p.limits.maxPayouts
    && |rows| * p.limits.maxFeeWei <= p.limits.maxTotalFeeWei
    && match m.activeOperation
       case None => forall i | 0 <= i < |rows| :: !Unresolved(rows[i])
       case Some(id) =>
         exists k :: OnlyUnresolved(rows, k) && rows[k].operationId == id
  }

  ghost predicate OnlyUnresolved(rows: seq<Row>, k: int) {
    0 <= k < |rows| && forall i | 0 <= i < |rows| :: Unresolved(rows[i]) <==> i == k
  }

  /** The error the stored tables cause under this policy, if any. */
  ghost function TableError(c: Crypto, p: Policy, s: State): Option<LedgerError> {
    if |s.rows| > 32 then Some(StateInvalid)
    else if s.meta.None? then if s.rows == [] then None else Some(StateInvalid)
    else if s.meta.value.policy != p then Some(PolicyChanged)
    else if (forall r | r in s.rows :: SoundRow(c, p, r)) && SoundTotals(p, s.meta.value, s.rows) then None
    else Some(StateInvalid)
  }

  lemma HashIs(s: string)
    ensures LedgerHash(s) == if IsHexText(s, 64) then Some(Lower(s)) else None
  {
    hide IsHexText, Lower;
  }

  /** A reservation passes exactly when it is sound, and is then stored in lower case. */
  lemma ReservationIs(c: Crypto, i: Identity, v: Reservation)
    requires NormalizeIdentity(i).Some?
    ensures NormalizeReservation(c, i, v) ==
            if SoundReservation(c, i, v) then
              Some(Reservation(Lower(v.operationId), v.mode, Lower(v.requester), Lower(v.sourceWallet),
                               Pair(Lower(v.pair.failedTransactionHash), Lower(v.pair.successfulTransactionHash)),
                               v.maxFeeWei))
            else None
  {
    HashIs(v.operationId);
    HashIs(v.pair.failedTransactionHash);
    HashIs(v.pair.successfulTransactionHash);
    AddressIs(v.requester);
    AddressIs(v.sourceWallet);
    AddressIs(i.poolAddress);
    hide IsHexText, Lower, LedgerHash, IsAddress;
    PairIs(v.pair);
    if NormalizePair(v.pair).Some? { PairIsCanonical(v.pair); }
    if LedgerAddress(v.sourceWallet).Some? { AddressIsCanonical(v.sourceWallet); }
    hide LedgerAddress;
  }

  lemma PairIs(v: Pair)
    ensures NormalizePair(v) == if SoundPair(v.failedTransactionHash, v.successfulTransactionHash)
                                then Some(Pair(Lower(v.failedTransactionHash), Lower(v.successfulTransactionHash)))
                                else None
  {
    hide IsHexText, Lower;
  }

  lemma UnresolvedIs(r: Row)
    ensures IsActive(r.state) <==> Unresolved(r)
  {
  }

  lemma LastActive(rows: seq<Row>)
    requires rows != []
    ensures var n := |rows| - 1;
            ActiveIds(rows) == ActiveIds(rows[..n]) + if Unresolved(rows[n]) then [rows[n].operationId] else []
  {
    UnresolvedIs(rows[|rows| - 1]);
    hide IsActive, Unresolved;
  }

  lemma {:induction false} NoneActive(rows: seq<Row>)
    ensures ActiveIds(rows) == [] <==> forall i | 0 <= i < |rows| :: !Unresolved(rows[i])
  {
    if rows != [] {
      hide ActiveIds, Unresolved;
      LastActive(rows);
      NoneActive(rows[..|rows| - 1]);
    }
  }

  lemma {:induction false} OneActive(rows: seq<Row>, k: nat)
    requires OnlyUnresolved(rows, k)
    ensures ActiveIds(rows) == [rows[k].operationId]
  {
    hide ActiveIds, Unresolved;
    var n := |rows| - 1;
    LastActive(rows);
    if k < n { OneActive(rows[..n], k); } else { NoneActive(rows[..n]); }
  }

  lemma {:induction false} ActiveOne(rows: seq<Row>) returns (k: nat)
    requires |ActiveIds(rows)| == 1
    ensures OnlyUnresolved(rows, k)
  {
    hide ActiveIds, Unresolved;
    NoneActive(rows);
    var n := |rows| - 1;
    LastActive(rows);
    NoneActive(rows[..n]);
    if Unresolved(rows[n]) {
      k := n;
    } else {
      k := ActiveOne(rows[..n]);
    }
  }

  lemma PointerIs(rows: seq<Row>, active: Option<string>)
    ensures |ActiveIds(rows)| <= 1 && First(ActiveIds(rows)) == active <==>
              match active
              case None => forall i | 0 <= i < |rows| :: !Unresolved(rows[i])
              case Some(id) => exists k :: OnlyUnresolved(rows, k) && rows[k].operationId == id
  {
    hide ActiveIds, Unresolved;
    NoneActive(rows);
    if |ActiveIds(rows)| == 1 {
      var k := ActiveOne(rows);
      OneActive(rows, k);
    }
    forall k | OnlyUnresolved(rows, k) ensures ActiveIds(rows) == [rows[k].operationId] {
      OneActive(rows, k);
    }
  }

  lemma RowIs(c: Crypto, p: Policy, r: Row)
    requires PolicyOk(p)
    ensures RowOk(c, p, r) <==> SoundRow(c, p, r)
  {
    hide NormalizeReservation, SoundReservation, IsDigest, SoundShape, ShapeOk;
    ReservationIs(c, p.identity, RowReservation(r));
    ShapeIs(r);
  }

  lemma ShapeIs(r: Row)
    ensures ShapeOk(r) <==> SoundShape(r)
  {
    hide IsHexText, Lower;
    hide STOP_REASONS;
  }

  lemma TotalsIs(p: Policy, m: Meta, rows: seq<Row>)
    requires PolicyOk(p) && forall i | 0 <= i < |rows| :: rows[i].maxFeeWei == p.limits.maxFeeWei
    ensures TotalsOk(p, m, rows) <==> SoundTotals(p, m, rows)
  {
    hide ActiveIds, Unresolved, OnlyUnresolved, SumFees;
    PointerIs(rows, m.activeOperation);
    LedgerBudget.EqualFees(rows, p.limits.maxFeeWei);
    Multiples(p.limits.maxFeeWei, 0, |rows|);
  }

  /** The check every transaction starts with passes exactly the sound tables of its own policy. */
  lemma TableErrorIs(c: Crypto, p: Policy, s: State)
    requires PolicyOk(p)
    ensures Checked(c, p, s) == TableError(c, p, s)
  {
    hide PolicyOk, RowOk, SoundRow, TotalsOk, SoundTotals;
    forall r | r in s.rows ensures RowOk(c, p, r) <==> SoundRow(c, p, r) { RowIs(c, p, r); }
    if s.meta.Some? && forall r | r in s.rows :: RowOk(c, p, r) {
      forall i | 0 <= i < |s.rows| ensures s.rows[i].maxFeeWei == p.limits.maxFeeWei { FeeOf(c, p, s.rows[i]); }
      TotalsIs(p, s.meta.value, s.rows);
    }
  }

  lemma FeeOf(c: Crypto, p: Policy, r: Row)
    requires RowOk(c, p, r)
    ensures r.maxFeeWei == p.limits.maxFeeWei
  {
  }

  // ---- the flag and the expiry ----

  /** Reservations and broadcasts are refused while the ledger is disabled, then from the expiry second on. */
  ghost function GateError(p: Policy, enabled: bool, ms: nat): Option<LedgerError> {
    if !enabled then Some(Disabled) else if 1000 * p.limits.expiresAt <= ms then Some(Expired) else None
  }

  lemma GateIs(p: Policy, enabled: bool, ms: nat)
    ensures Gate(p, enabled, ms) == GateError(p, enabled, ms)
  {
  }

  /** A permit token: 72 characters of two joined random identifiers. */
  ghost predicate IsPermit(s: string) {
    |s| == 72 && forall ch | ch in s :: ch == '-' || '0' <= ch <= '9' || 'a' <= ch <= 'f'
  }

  lemma PermitIs(s: string)
    ensures IsToken(s) <==> IsPermit(s)
  {
    if IsPermit(s) {
      forall i | 0 <= i < |s| ensures s[i] == '-' || '0' <= s[i] <= '9' || 'a' <= s[i] <= 'f' { assert s[i] in s; }
    }
  }

  // ---- reservations ----

  ghost predicate SourceIsTaken(rows: seq<Row>, v: Reservation) {
    exists r | r in rows ::
      || r.sourceWallet == Lower(v.sourceWallet) || r.failedHash == Lower(v.pair.failedTransactionHash)
      || r.successHash == Lower(v.pair.successfulTransactionHash)
  }

  /** What a created answer adds: one admitted row with the request in lower case, the digest of the token handed
      out and the time, and the totals one operation further with the pointer on it. */
  ghost predicate Reserves(c: Crypto, p: Policy, s: State, t: State, v: Reservation, env: Env) {
    && |t.rows| == |s.rows| + 1 && t.rows[..|s.rows|] == s.rows
    && t.rows[|s.rows|] ==
       Row(Lower(v.operationId), v.mode, Lower(v.requester), Lower(v.sourceWallet),
           Lower(v.pair.failedTransactionHash), Lower(v.pair.successfulTransactionHash), Admitted,
           c.permit(env.freshToken), p.limits.maxFeeWei, p.limits.creditWei, None, None, None, None, None,
           env.nowMs, env.nowMs)
    && t.meta == Some(Meta(p, |s.rows| + 1, |s.rows| + 1, (|s.rows| + 1) * p.limits.maxFeeWei,
                           Some(Lower(v.operationId))))
  }

  /** A reservation, in the order of its refusals; `k` is where its operation is stored, if it is. */
  lemma ReserveAnswer(c: Crypto, s: State, call: Call, k: Option<nat>)
    requires Agreed(call) && call.request.Reserve? && Unique(s.rows)
    requires IsRowOf(s.rows, Lower(call.request.input.operationId), k)
    ensures var (t, reply) := Step(c, s, call);
            var p, v, env := Plainly(call.env.configured), call.request.input, call.env;
            var early, late := GateError(p, env.arriveEnabled, env.arriveMs), GateError(p, env.enabled, env.gateMs);
            var tables, n, fee := TableError(c, p, s), |s.rows|, p.limits.maxFeeWei;
            if early.Some? then (t, reply) == (s, Error(early.value))
            else if !SoundReservation(c, p.identity, v) then (t, reply) == (s, Error(InputInvalid))
            else if v.maxFeeWei != fee then (t, reply) == (s, Error(FeeCap))
            else if late.Some? then (t, reply) == (s, Error(late.value))
            else if tables.Some? then (t, reply) == (s, Error(tables.value))
            else if k.Some? then
              t == s && reply.ReserveReply? && !reply.created && reply.permitToken == None
              && Shows(reply.operation, s.rows[k.value])
            else if SourceIsTaken(s.rows, v) then (t, reply) == (s, Error(SourceReserved))
            else if exists r | r in s.rows :: Unresolved(r) then (t, reply) == (s, Error(Busy))
            else if n >= p.limits.maxAttempts || n >= p.limits.maxPayouts || (n + 1) * fee > p.limits.maxTotalFeeWei
            then (t, reply) == (s, Error(BudgetExhausted))
            else
              Reserves(c, p, s, t, v, env) && reply.ReserveReply? && reply.created
              && reply.permitToken == Some(env.freshToken) && Shows(reply.operation, t.rows[n])
  {
    var p, v := Plainly(call.env.configured), call.request.input;
    ReserveArrives(c, call);
    RowIsFound(s.rows, Lower(v.operationId), k);
    hide Arrive, ReserveStep, GateError, TableError, SoundReservation, Unique, SourceIsTaken, Plainly, Agreed, Lower,
         Reserves, Shows, FindId;
    if Arrive(c, call).Ok? {
      ReserveTransacts(c, p, s, v, call.env, k);
    }
  }

  /** A reservation in lower case. */
  ghost function PlainRequest(v: Reservation): Reservation {
    Reservation(Lower(v.operationId), v.mode, Lower(v.requester), Lower(v.sourceWallet),
                Pair(Lower(v.pair.failedTransactionHash), Lower(v.pair.successfulTransactionHash)), v.maxFeeWei)
  }

  lemma ReserveArrives(c: Crypto, call: Call)
    requires Agreed(call) && call.request.Reserve?
    ensures var p, v, env := Plainly(call.env.configured), call.request.input, call.env;
            var early := GateError(p, env.arriveEnabled, env.arriveMs);
            Arrive(c, call) ==
            if early.Some? then Err(early.value)
            else if !SoundReservation(c, p.identity, v) then Err(InputInvalid)
            else if v.maxFeeWei != p.limits.maxFeeWei then Err(FeeCap)
            else Ok(Work(p, Reserve(PlainRequest(v)), c.permit(env.freshToken)))
    ensures PolicyOk(Plainly(call.env.configured))
  {
    var p := Plainly(call.env.configured);
    AgreedPolicy(call);
    GateIs(p, call.env.arriveEnabled, call.env.arriveMs);
    ReservationIs(c, p.identity, call.request.input);
    hide NormalizePolicy, NormalizeReservation, Gate, GateError, SoundReservation, Plainly, Agreed, PolicyOk, Lower;
  }

  lemma ReserveTransacts(c: Crypto, p: Policy, s: State, v: Reservation, env: Env, k: Option<nat>)
    requires PolicyOk(p) && Unique(s.rows) && FindId(s.rows, Lower(v.operationId)) == k
    requires v.maxFeeWei == p.limits.maxFeeWei
    ensures var (t, reply) := ReserveStep(c, p, s, PlainRequest(v), c.permit(env.freshToken), env);
            var late, tables, n := GateError(p, env.enabled, env.gateMs), TableError(c, p, s), |s.rows|;
            var fee := p.limits.maxFeeWei;
            if late.Some? then (t, reply) == (s, Error(late.value))
            else if tables.Some? then (t, reply) == (s, Error(tables.value))
            else if k.Some? then
              t == s && reply.ReserveReply? && !reply.created && reply.permitToken == None
              && Shows(reply.operation, s.rows[k.value])
            else if SourceIsTaken(s.rows, v) then (t, reply) == (s, Error(SourceReserved))
            else if exists r | r in s.rows :: Unresolved(r) then (t, reply) == (s, Error(Busy))
            else if n >= p.limits.maxAttempts || n >= p.limits.maxPayouts || (n + 1) * fee > p.limits.maxTotalFeeWei
            then (t, reply) == (s, Error(BudgetExhausted))
            else
              Reserves(c, p, s, t, v, env) && reply.ReserveReply? && reply.created
              && reply.permitToken == Some(env.freshToken) && Shows(reply.operation, t.rows[n])
  {
    hide PolicyOk, Gate, GateError, Checked, TableError, FindId, Unresolved, Unique, SourceTaken, SourceIsTaken, Lower;
    GateIs(p, env.enabled, env.gateMs);
    TableErrorIs(c, p, s);
    TakenIs(s.rows, v, PlainRequest(v));
    if TableError(c, p, s).None? { TablesSay(c, p, s); }
    if k.None? && !SourceIsTaken(s.rows, v) { FreshRow(c, p, s.rows, PlainRequest(v), env); }
    assert |s.rows| * p.limits.maxFeeWei + p.limits.maxFeeWei == (|s.rows| + 1) * p.limits.maxFeeWei;
  }

  lemma AgreedPolicy(call: Call)
    requires Agreed(call)
    ensures var p := Plainly(call.env.configured);
            && CheckRequest(call.env.configured, call.received) == Ok(p)
            && PolicyOk(p) && NormalizeIdentity(p.identity).Some?
  {
    hide SoundPolicy, Plainly, LimitsOk, LedgerAddress;
    PolicyIs(call.env.configured);
    PolicyIs(call.received);
    NormalizePolicyIsCanonical(call.env.configured);
  }

  lemma TakenIs(rows: seq<Row>, v: Reservation, input: Reservation)
    requires input.sourceWallet == Lower(v.sourceWallet)
             && input.pair.failedTransactionHash == Lower(v.pair.failedTransactionHash)
             && input.pair.successfulTransactionHash == Lower(v.pair.successfulTransactionHash)
    ensures SourceTaken(rows, input) <==> SourceIsTaken(rows, v)
  {
    hide Lower;
    if SourceTaken(rows, input) {
      var i :| 0 <= i < |rows| && (rows[i].sourceWallet == input.sourceWallet
                                   || rows[i].failedHash == input.pair.failedTransactionHash
                                   || rows[i].successHash == input.pair.successfulTransactionHash);
      assert rows[i] in rows;
    }
  }

  /** What sound tables say of the totals: they are those of the rows, and the pointer is set exactly when a row
      is unresolved. */
  lemma TablesSay(c: Crypto, p: Policy, s: State)
    requires TableError(c, p, s).None?
    ensures Count(s) == (|s.rows|, |s.rows|, |s.rows| * p.limits.maxFeeWei)
    ensures s.meta.Some? ==> s.meta.value.policy == p
    ensures s.meta.Some? && s.meta.value.activeOperation.Some? <==> exists r | r in s.rows :: Unresolved(r)
  {
    hide SoundRow;
    if s.meta.Some? && s.meta.value.activeOperation.Some? {
      var k :| OnlyUnresolved(s.rows, k) && s.rows[k].operationId == s.meta.value.activeOperation.value;
      assert s.rows[k] in s.rows;
    }
  }

  lemma FreshRow(c: Crypto, p: Policy, rows: seq<Row>, input: Reservation, env: Env)
    requires Unique(rows) && FindId(rows, input.operationId).None? && !SourceTaken(rows, input)
    ensures Unique(rows + [NewRow(p, input, c.permit(env.freshToken), env.nowMs)])
  {
    hide FindId;
    LedgerSafety.FreshIsUnique(rows, NewRow(p, input, c.permit(env.freshToken), env.nowMs), input);
  }

  // ---- broadcasts ----

  /** The row once its transaction is recorded. */
  ghost function Sent(r: Row, hash: string, nonce: int, nowMs: int): Row {
    r.(state := BroadcastPrepared, transactionHash := Some(Lower(hash)), nonce := Some(nonce), updatedAt := nowMs)
  }

  ghost predicate NonceIsTaken(rows: seq<Row>, nonce: int, hash: string) {
    exists r | r in rows :: (r.nonce.Some? && r.nonce.value >= nonce) || r.transactionHash == Some(hash)
  }

  lemma NonceTakenIs(rows: seq<Row>, nonce: int, hash: string)
    ensures NonceTaken(rows, nonce, hash) <==> NonceIsTaken(rows, nonce, hash)
  {
    if NonceTaken(rows, nonce, hash) {
      var i :| 0 <= i < |rows| && ((rows[i].nonce.Some? && rows[i].nonce.value >= nonce)
                                   || rows[i].transactionHash == Some(hash));
      assert rows[i] in rows;
    }
  }

  /** A broadcast preparation, in the order of its refusals: the permission is granted once, to the holder of the
      row's token, for an admitted row and a nonce above every recorded one. */
  lemma PrepareAnswer(c: Crypto, s: State, call: Call, k: Option<nat>)
    requires Agreed(call) && call.request.Prepare? && Unique(s.rows)
    requires IsRowOf(s.rows, Lower(call.request.operationId), k)
    ensures var (t, reply) := Step(c, s, call);
            var p, q, env := Plainly(call.env.configured), call.request, call.env;
            var early, late := GateError(p, env.arriveEnabled, env.arriveMs), GateError(p, env.enabled, env.gateMs);
            var tables := TableError(c, p, s);
            if early.Some? then (t, reply) == (s, Error(early.value))
            else if !IsHexText(q.operationId, 64) || !IsHexText(q.transactionHash, 64)
                    || !(0 <= q.nonce <= MAX_SAFE_INTEGER) || !(0 < q.maxFeeWei <= MAX_UINT)
            then (t, reply) == (s, Error(InputInvalid))
            else if q.maxFeeWei != p.limits.maxFeeWei then (t, reply) == (s, Error(FeeCap))
            else if !IsPermit(q.permitToken) then (t, reply) == (s, Error(PermitInvalid))
            else if late.Some? then (t, reply) == (s, Error(late.value))
            else if tables.Some? then (t, reply) == (s, Error(tables.value))
            else if k.None? || s.rows[k.value].permitDigest != c.permit(q.permitToken)
            then (t, reply) == (s, Error(PermitInvalid))
            else
              var row := s.rows[k.value];
              if row.state == BroadcastPrepared && row.transactionHash == Some(Lower(q.transactionHash))
                 && row.nonce == Some(q.nonce)
              then t == s && reply.PrepareReply? && !reply.broadcastPermit && Shows(reply.operation, row)
              else if row.state != Admitted then (t, reply) == (s, Error(StateConflict))
              else if NonceIsTaken(s.rows, q.nonce, Lower(q.transactionHash))
              then (t, reply) == (s, Error(NonceReserved))
              else
                var sent := Sent(row, q.transactionHash, q.nonce, env.nowMs);
                t == State(s.meta, s.rows[k.value := sent])
                && reply.PrepareReply? && reply.broadcastPermit && Shows(reply.operation, sent)
  {
    hide PolicyOk, Gate, GateError, Checked, TableError, FindId, Unique, NonceTaken, NonceIsTaken, Lower, IsToken,
         IsPermit, NormalizePolicy, Agreed, Plainly, IsHexText, LedgerHash, CheckRequest, IsRowOf;
    var p, q := Plainly(call.env.configured), call.request;
    AgreedPolicy(call);
    GateIs(p, call.env.arriveEnabled, call.env.arriveMs);
    GateIs(p, call.env.enabled, call.env.gateMs);
    HashIs(q.operationId);
    HashIs(q.transactionHash);
    PermitIs(q.permitToken);
    TableErrorIs(c, p, s);
    RowIsFound(s.rows, Lower(q.operationId), k);
    NonceTakenIs(s.rows, q.nonce, Lower(q.transactionHash));
    if k.Some? && !NonceTaken(s.rows, q.nonce, Lower(q.transactionHash)) {
      LedgerSafety.UniqueUpdate(s.rows, k.value, Sent(s.rows[k.value], q.transactionHash, q.nonce, call.env.nowMs));
    }
  }

  // ---- stops ----

  /** The row is stopped for this reason and the pointer cleared. */
  ghost predicate Stops(s: State, t: State, i: nat, reason: string, nowMs: int)
    requires i < |s.rows|
  {
    && t.rows == s.rows[i := s.rows[i].(state := OpState.Stopped, reason := Some(reason), updatedAt := nowMs)]
    && s.meta.Some? && t.meta == Some(s.meta.value.(activeOperation := None))
  }

  /** What a stop answers of a row: an admitted one is stopped for this reason, a stopped one is shown as it is,
      reason included, and any other is a conflict. */
  ghost predicate StopAnswers(s: State, t: State, reply: Reply, i: nat, reason: string, nowMs: int)
    requires i < |s.rows|
  {
    var state := s.rows[i].state;
    if state == OpState.Stopped then
      t == s && reply.OperationReply? && reply.found.Some? && Shows(reply.found.value, s.rows[i])
    else if state != Admitted then (t, reply) == (s, Error(StateConflict))
    else
      Stops(s, t, i, reason, nowMs) && reply.OperationReply? && reply.found.Some? && Shows(reply.found.value, t.rows[i])
  }

  lemma StopIs(c: Crypto, p: Policy, s: State, i: nat, reason: string, nowMs: int)
    requires i < |s.rows| && TableError(c, p, s).None?
    ensures var (t, reply) := StopAdmitted(s, Some(i), reason, nowMs); StopAnswers(s, t, reply, i, reason, nowMs)
  {
    hide SoundRow, SoundTotals;
  }

  /** A worker's stop needs one of the listed reasons and the row's own token, and records that reason. */
  lemma FailAnswer(c: Crypto, s: State, call: Call, k: Option<nat>)
    requires Agreed(call) && call.request.FailBefore? && Unique(s.rows)
    requires IsRowOf(s.rows, Lower(call.request.operationId), k)
    ensures var (t, reply) := Step(c, s, call);
            var p, q := Plainly(call.env.configured), call.request;
            var tables := TableError(c, p, s);
            if !IsHexText(q.operationId, 64) || q.reason !in STOP_REASONS then (t, reply) == (s, Error(InputInvalid))
            else if !IsPermit(q.permitToken) then (t, reply) == (s, Error(PermitInvalid))
            else if tables.Some? then (t, reply) == (s, Error(tables.value))
            else if k.None? || s.rows[k.value].permitDigest != c.permit(q.permitToken)
            then (t, reply) == (s, Error(PermitInvalid))
            else StopAnswers(s, t, reply, k.value, q.reason, call.env.nowMs)
  {
    hide PolicyOk, Checked, TableError, FindId, Unique, Lower, IsToken, IsPermit, NormalizePolicy, Agreed, Plainly,
         IsHexText, LedgerHash, CheckRequest, IsRowOf, STOP_REASONS, StopAdmitted, StopAnswers;
    var p, q := Plainly(call.env.configured), call.request;
    AgreedPolicy(call);
    HashIs(q.operationId);
    PermitIs(q.permitToken);
    TableErrorIs(c, p, s);
    RowIsFound(s.rows, Lower(q.operationId), k);
    if k.Some? && TableError(c, p, s).None? { StopIs(c, p, s, k.value, q.reason, call.env.nowMs); }
  }

  /** An operator's stop needs no token and records that an operator abandoned the operation. */
  lemma AbandonAnswer(c: Crypto, s: State, call: Call, k: Option<nat>)
    requires Agreed(call) && call.request.Abandon? && Unique(s.rows)
    requires IsRowOf(s.rows, Lower(call.request.operationId), k)
    ensures var (t, reply) := Step(c, s, call);
            var p := Plainly(call.env.configured);
            var tables := TableError(c, p, s);
            if !IsHexText(call.request.operationId, 64) then (t, reply) == (s, Error(InputInvalid))
            else if tables.Some? then (t, reply) == (s, Error(tables.value))
            else if k.None? then (t, reply) == (s, Error(NotFound))
            else StopAnswers(s, t, reply, k.value, "operator-abandoned", call.env.nowMs)
  {
    hide PolicyOk, Checked, TableError, FindId, Unique, Lower, NormalizePolicy, Agreed, Plainly, IsHexText, LedgerHash,
         CheckRequest, IsRowOf, StopAnswers;
    var p, q := Plainly(call.env.configured), call.request;
    AgreedPolicy(call);
    HashIs(q.operationId);
    TableErrorIs(c, p, s);
    RowIsFound(s.rows, Lower(q.operationId), k);
    if k.Some? && TableError(c, p, s).None? { StopIs(c, p, s, k.value, "operator-abandoned", call.env.nowMs); }
  }

  // ---- receipts ----

  /** The row with its receipt recorded and the pointer cleared. */
  ghost predicate Resolves(s: State, t: State, i: nat, status: int, block: int, nowMs: int)
    requires i < |s.rows|
  {
    && t.rows == s.rows[i := s.rows[i].(state := if status == 1 then Settled else Reverted,
                                        receiptStatus := Some(status), blockNumber := Some(block), updatedAt := nowMs)]
    && s.meta.Some? && t.meta == Some(s.meta.value.(activeOperation := None))
  }

  /** A receipt is recorded for the row that carries its transaction, once; the same receipt again is shown, and
      anything else is a conflict. */
  lemma CompleteAnswer(c: Crypto, s: State, call: Call, k: Option<nat>)
    requires Agreed(call) && call.request.Complete? && Unique(s.rows)
    requires IsRowOf(s.rows, Lower(call.request.operationId), k)
    ensures var (t, reply) := Step(c, s, call);
            var p, q := Plainly(call.env.configured), call.request;
            var tables := TableError(c, p, s);
            if !IsHexText(q.operationId, 64) || !IsHexText(q.transactionHash, 64)
               || !(0 < q.blockNumber <= MAX_SAFE_INTEGER) || (q.receiptStatus != 0 && q.receiptStatus != 1)
            then (t, reply) == (s, Error(InputInvalid))
            else if tables.Some? then (t, reply) == (s, Error(tables.value))
            else if k.None? || s.rows[k.value].transactionHash != Some(Lower(q.transactionHash))
            then (t, reply) == (s, Error(StateConflict))
            else
              var row := s.rows[k.value];
              if row.state == BroadcastPrepared then
                Resolves(s, t, k.value, q.receiptStatus, q.blockNumber, call.env.nowMs)
                && reply.OperationReply? && reply.found.Some? && Shows(reply.found.value, t.rows[k.value])
              else if row.state in {Settled, Reverted} && row.receiptStatus == Some(q.receiptStatus)
                      && row.blockNumber == Some(q.blockNumber)
              then t == s && reply.OperationReply? && reply.found.Some? && Shows(reply.found.value, row)
              else (t, reply) == (s, Error(StateConflict))
  {
    hide PolicyOk, Checked, TableError, FindId, Unique, Lower, NormalizePolicy, Agreed, Plainly, IsHexText, LedgerHash,
         CheckRequest, IsRowOf;
    var p, q := Plainly(call.env.configured), call.request;
    AgreedPolicy(call);
    HashIs(q.operationId);
    HashIs(q.transactionHash);
    TableErrorIs(c, p, s);
    RowIsFound(s.rows, Lower(q.operationId), k);
    if k.Some? && TableError(c, p, s).None? { RowsNeedPolicy(c, p, s); }
  }

  lemma RowsNeedPolicy(c: Crypto, p: Policy, s: State)
    requires TableError(c, p, s).None? && s.rows != []
    ensures s.meta.Some?
  {
  }

  // ---- reads ----

  /** The totals an answer reports: the policy, whether a reservation would pass the flag and the expiry now, the
      counts and fees of the rows, and the one unresolved operation. */
  ghost predicate Reports(p: Policy, s: State, env: Env, totals: Totals) {
    && totals.identity == p.identity && totals.limits == p.limits
    && (totals.enabled <==> env.enabled && env.gateMs < 1000 * p.limits.expiresAt)
    && totals.attempts == |s.rows| && totals.payouts == |s.rows|
    && totals.reservedFeeWei == |s.rows| * p.limits.maxFeeWei
    && match totals.activeOperationId
       case None => forall r | r in s.rows :: !Unresolved(r)
       case Some(id) => exists r | r in s.rows :: Unresolved(r) && r.operationId == id
  }

  ghost predicate ShowsRow(found: Option<Operation>, rows: seq<Row>, k: Option<nat>) {
    match k
    case None => found == None
    case Some(i) => found.Some? && i < |rows| && Shows(found.value, rows[i])
  }

  lemma ReportsIs(c: Crypto, p: Policy, s: State, env: Env)
    requires TableError(c, p, s).None?
    ensures Reports(p, s, env, TotalsOf(p, s, env))
  {
    hide SoundRow, Unresolved;
    if s.meta.Some? {
      match s.meta.value.activeOperation
      case None =>
        forall r | r in s.rows ensures !Unresolved(r) { var i :| 0 <= i < |s.rows| && s.rows[i] == r; }
      case Some(id) =>
        var k :| OnlyUnresolved(s.rows, k) && s.rows[k].operationId == id;
        assert s.rows[k] in s.rows;
    }
  }

  /** Reads by operation answer its row exactly when there is one, and reads by source likewise; nothing is
      changed. */
  lemma ReadAnswer(c: Crypto, s: State, call: Call, k: Option<nat>)
    requires Agreed(call) && (call.request.Read? || call.request.ReadSource? || call.request.AdmissionOf?)
    requires Unique(s.rows)
    requires if call.request.Read? then IsRowOf(s.rows, Lower(call.request.operationId), k)
             else IsRowFor(s.rows, Lower(call.request.sourceWallet), k)
    ensures var (t, reply) := Step(c, s, call);
            var p, q := Plainly(call.env.configured), call.request;
            var tables := TableError(c, p, s);
            && t == s
            && if (if q.Read? then !IsHexText(q.operationId, 64) else !IsAddress(q.sourceWallet))
               then reply == Error(InputInvalid)
               else if tables.Some? then reply == Error(tables.value)
               else if q.AdmissionOf? then
                 reply.AdmissionReply? && reply.sourceWallet == Lower(q.sourceWallet)
                 && Reports(p, s, call.env, reply.totals) && ShowsRow(reply.found, s.rows, k)
               else reply.OperationReply? && ShowsRow(reply.found, s.rows, k)
  {
    hide PolicyOk, Checked, TableError, FindId, FindSource, Unique, Lower, NormalizePolicy, Agreed, Plainly, IsHexText,
         LedgerHash, LedgerAddress, IsAddress, CheckRequest, IsRowOf, IsRowFor, TotalsOf, Reports;
    var p, q := Plainly(call.env.configured), call.request;
    AgreedPolicy(call);
    TableErrorIs(c, p, s);
    if q.Read? {
      HashIs(q.operationId);
      RowIsFound(s.rows, Lower(q.operationId), k);
    } else {
      AddressIs(q.sourceWallet);
      SourceIsFound(s.rows, Lower(q.sourceWallet), k);
    }
    if TableError(c, p, s).None? { ReportsIs(c, p, s, call.env); }
  }

  /** An inspection reports the totals and changes nothing. */
  lemma InspectAnswer(c: Crypto, s: State, call: Call)
    requires Agreed(call) && call.request.Inspect?
    ensures var (t, reply) := Step(c, s, call);
            var p := Plainly(call.env.configured);
            var tables := TableError(c, p, s);
            && t == s
            && if tables.Some? then reply == Error(tables.value)
               else reply.InspectReply? && Reports(p, s, call.env, reply.totals)
  {
    hide PolicyOk, Checked, TableError, NormalizePolicy, Agreed, Plainly, CheckRequest, TotalsOf, Reports;
    var p := Plainly(call.env.configured);
    AgreedPolicy(call);
    TableErrorIs(c, p, s);
    if TableError(c, p, s).None? { ReportsIs(c, p, s, call.env); }
  }
}
