/** The spending bound: nothing is given back, a fresh reservation succeeds exactly below the cap,
    and a run of any length changes the tables at most three times per admitted operation. */
module LedgerBudget {
  import opened Wrappers
  import opened Text
  import opened Numbers
  import opened LedgerPolicy
  import opened LedgerModel
  import opened LedgerHistory
  import opened LedgerSafety

  lemma {:induction false} EqualFees(rows: seq<Row>, fee: int)
    requires forall i | 0 <= i < |rows| :: rows[i].maxFeeWei == fee
    ensures SumFees(rows) == |rows| * fee
  {
    if rows != [] {
      var n := |rows| - 1;
      EqualFees(rows[..n], fee);
      assert n * fee + fee == (n + 1) * fee;
    }
  }

  /** The reserved fee of a state that passes its check is the row count times the fee cap. */
  lemma CheckedTotals(c: Crypto, p: Policy, s: State)
    requires Checked(c, p, s).None? && s.meta.Some?
    ensures var m := s.meta.value;
            && m.policy == p && m.attempts == |s.rows| && m.payouts == |s.rows|
            && m.reservedFeeWei == |s.rows| * p.limits.maxFeeWei
            && m.reservedFeeWei <= p.limits.maxTotalFeeWei
  {
    hide NormalizeReservation, IsDigest, ShapeOk, TimesOk, ActiveIds;
    assert forall i | 0 <= i < |s.rows| :: RowOk(c, p, s.rows[i]);
    EqualFees(s.rows, p.limits.maxFeeWei);
  }

  /** The budget test of a reservation is the comparison of the row count with the cap. */
  lemma BudgetIsCap(p: Policy, n: int)
    requires PolicyOk(p) && 0 <= n
    ensures LimitsOk(p.limits)
    ensures && n + 1 <= p.limits.maxAttempts && n + 1 <= p.limits.maxPayouts
            && n * p.limits.maxFeeWei + p.limits.maxFeeWei <= p.limits.maxTotalFeeWei
            <==> n < Cap(p.limits)
  {
    FeesFit(p.limits.maxFeeWei, p.limits.maxTotalFeeWei, n + 1);
    assert n * p.limits.maxFeeWei + p.limits.maxFeeWei == (n + 1) * p.limits.maxFeeWei;
  }

  /** When the ledger is enabled, unexpired and idle, a reservation of a fresh operation on a free
      source succeeds if and only if fewer rows exist than the cap allows. */
  lemma ReservationSucceedsIff(c: Crypto, s: State, call: Call, w: Work)
    requires CryptoOk(c) && Inv(c, s) && Arrive(c, call) == Ok(w) && w.request.Reserve?
    requires Gate(w.policy, call.env.enabled, call.env.gateMs).None?
    requires s.meta.Some? ==> s.meta.value.policy == w.policy && s.meta.value.activeOperation.None?
    requires FindId(s.rows, w.request.input.operationId).None? && !SourceTaken(s.rows, w.request.input)
    ensures LimitsOk(w.policy.limits)
    ensures var r := Step(c, s, call).1;
            if |s.rows| < Cap(w.policy.limits) then r.ReserveReply? && r.created else r == Error(BudgetExhausted)
  {
    hide Inv, Arrive, Checked, Unique, PolicyOk, FindId, SourceTaken, NormalizeReservation, IsDigest;
    ArrivalOk(c, call);
    if Checked(c, w.policy, s).Some? { CheckPasses(c, w.policy, s); }
    if s.meta.Some? { CheckedTotals(c, w.policy, s); } else { NoRows(c, s); }
    BudgetIsCap(w.policy, |s.rows|);
    RowsFit(c, s, w, call);
  }

  lemma NoRows(c: Crypto, s: State)
    requires Inv(c, s) && s.meta.None?
    ensures s.rows == []
  {
  }

  lemma RowsFit(c: Crypto, s: State, w: Work, call: Call)
    requires Inv(c, s) && w.request.Reserve?
    requires FindId(s.rows, w.request.input.operationId).None? && !SourceTaken(s.rows, w.request.input)
    ensures Unique(s.rows + [NewRow(w.policy, w.request.input, w.digest, call.env.nowMs)])
  {
    hide FindId, SourceTaken, RowCore, TotalsOk;
    FreshIsUnique(s.rows, NewRow(w.policy, w.request.input, w.digest, call.env.nowMs), w.request.input);
  }

  // ---- the bound over a run, for every clock ----

  ghost predicate WithinCap(s: State) {
    if s.meta.None? then s.rows == []
    else LimitsOk(s.meta.value.policy.limits) && |s.rows| <= Cap(s.meta.value.policy.limits)
  }

  function Rank(s: OpState): nat {
    match s case Admitted => 2 case BroadcastPrepared => 1 case _ => 0
  }

  function RankSum(rows: seq<Row>): nat {
    if rows == [] then 0 else RankSum(rows[..|rows| - 1]) + Rank(rows[|rows| - 1].state)
  }

  function GrantedRows(rows: seq<Row>): nat {
    if rows == [] then 0
    else GrantedRows(rows[..|rows| - 1]) + (if HasTransaction(rows[|rows| - 1].state) then 1 else 0)
  }

  lemma RanksAppended(rows: seq<Row>, r: Row)
    ensures RankSum(rows + [r]) == RankSum(rows) + Rank(r.state)
    ensures GrantedRows(rows + [r]) == GrantedRows(rows) + (if HasTransaction(r.state) then 1 else 0)
  {
    assert (rows + [r])[..|rows|] == rows;
  }

  lemma {:induction false} RanksUpdated(rows: seq<Row>, k: nat, r: Row)
    requires k < |rows|
    ensures RankSum(rows[k := r]) == RankSum(rows) - Rank(rows[k].state) + Rank(r.state)
    ensures GrantedRows(rows[k := r]) ==
              GrantedRows(rows) - (if HasTransaction(rows[k].state) then 1 else 0)
              + (if HasTransaction(r.state) then 1 else 0)
  {
    var n := |rows| - 1;
    if k == n {
      assert rows[k := r][..n] == rows[..n];
    } else {
      assert rows[k := r][..n] == rows[..n][k := r];
      RanksUpdated(rows[..n], k, r);
    }
  }

  /** Three for every operation still affordable, plus what the stored rows can still do. */
  ghost function Measure(s: State): int
    requires WithinCap(s) && s.meta.Some?
  {
    3 * (Cap(s.meta.value.policy.limits) - |s.rows|) + RankSum(s.rows)
  }

  /** What one step does to the counts: the totals never fall, a created answer adds a row, a granted
      answer adds a row with a transaction, and every change lowers the measure. */
  lemma StepSpends(c: Crypto, s: State, call: Call)
    requires WithinCap(s)
    ensures var (t, r) := Step(c, s, call);
            && WithinCap(t)
            && (s.meta.Some? ==> t.meta.Some? && t.meta.value.policy == s.meta.value.policy
                                 && t.meta.value.attempts >= s.meta.value.attempts
                                 && t.meta.value.payouts >= s.meta.value.payouts
                                 && t.meta.value.reservedFeeWei >= s.meta.value.reservedFeeWei)
            && |t.rows| == |s.rows| + (if r.ReserveReply? && r.created then 1 else 0)
            && GrantedRows(t.rows) == GrantedRows(s.rows) + (if r.PrepareReply? && r.broadcastPermit then 1 else 0)
            && (t != s ==>
                  && t.meta.Some?
                  && Measure(t) < if s.meta.Some? then Measure(s) else 3 * Cap(t.meta.value.policy.limits))
  {
    hide Checked, Unique, NonceTaken, SourceTaken, NormalizeReservation, LedgerHash, LedgerAddress, IsToken, FindId,
         PolicyOk, NormalizePolicy, Cap, LimitsOk, RankSum, GrantedRows;
    var work := Arrive(c, call);
    if work.Err? { return; }
    var w := work.value;
    var (t, r) := Step(c, s, call);
    NormalizePolicyIsCanonical(call.env.configured);
    match w.request
    case Reserve(input) =>
      if r.ReserveReply? && r.created {
        if s.meta.Some? { CheckedTotals(c, w.policy, s); }
        assert input.maxFeeWei == w.policy.limits.maxFeeWei by { SameFeeCap(c, call); }
        BudgetIsCap(w.policy, |s.rows|);
        PositiveFee(w.policy);
        RanksAppended(s.rows, t.rows[|s.rows|]);
        if s.meta.None? { NothingRanked(s.rows); }
      }
    case Prepare(id, _, _, _, _) =>
      if t != s { RanksUpdated(s.rows, FindId(s.rows, id).value, t.rows[FindId(s.rows, id).value]); }
    case FailBefore(id, _, _) =>
      if t != s { RanksUpdated(s.rows, FindId(s.rows, id).value, t.rows[FindId(s.rows, id).value]); }
    case Abandon(id) => if t != s { RanksUpdated(s.rows, FindId(s.rows, id).value, t.rows[FindId(s.rows, id).value]); }
    case Complete(id, _, _, _) =>
      if t != s { RanksUpdated(s.rows, FindId(s.rows, id).value, t.rows[FindId(s.rows, id).value]); }
    case _ =>
  }

  lemma NothingRanked(rows: seq<Row>)
    ensures rows == [] ==> RankSum(rows) == 0 && GrantedRows(rows) == 0
  {
  }

  lemma PositiveFee(p: Policy)
    requires PolicyOk(p)
    ensures 0 < p.limits.maxFeeWei && 0 < Cap(p.limits)
  {
    FeesFit(p.limits.maxFeeWei, p.limits.maxTotalFeeWei, 1);
  }

  lemma SameFeeCap(c: Crypto, call: Call)
    requires Arrive(c, call).Ok? && Arrive(c, call).value.request.Reserve?
    ensures Arrive(c, call).value.request.input.maxFeeWei == Arrive(c, call).value.policy.limits.maxFeeWei
  {
    hide NormalizeReservation, NormalizePolicy, LedgerHash, LedgerAddress, IsToken;
  }

  /** The number of calls among the first n that changed the tables. */
  ghost function Mutations(c: Crypto, calls: seq<Call>, n: nat): nat
    requires n <= |calls|
  {
    if n == 0 then 0
    else Mutations(c, calls, n - 1) + (if StateAt(c, calls, n) != StateAt(c, calls, n - 1) then 1 else 0)
  }

  ghost function CreatedCount(c: Crypto, calls: seq<Call>, n: nat): nat
    requires n <= |calls|
  {
    if n == 0 then 0
    else
      var r := ReplyAt(c, calls, n - 1);
      CreatedCount(c, calls, n - 1) + (if r.ReserveReply? && r.created then 1 else 0)
  }

  ghost function GrantedCount(c: Crypto, calls: seq<Call>, n: nat): nat
    requires n <= |calls|
  {
    if n == 0 then 0
    else
      var r := ReplyAt(c, calls, n - 1);
      GrantedCount(c, calls, n - 1) + (if r.PrepareReply? && r.broadcastPermit then 1 else 0)
  }

  /** For every run, clock and sequence of configured policies: the rows are exactly the created
      answers and stay within the cap, the rows with a transaction are exactly the broadcast
      permissions, and the tables changed at most three times the cap. */
  lemma {:induction false} RunSpends(c: Crypto, calls: seq<Call>, n: nat)
    requires n <= |calls|
    ensures var s := StateAt(c, calls, n);
            && WithinCap(s)
            && CreatedCount(c, calls, n) == |s.rows|
            && GrantedCount(c, calls, n) == GrantedRows(s.rows)
            && (if s.meta.None? then Mutations(c, calls, n) == 0
                else Mutations(c, calls, n) + Measure(s) <= 3 * Cap(s.meta.value.policy.limits)
                     && Mutations(c, calls, n) <= 3 * Cap(s.meta.value.policy.limits))
  {
    hide Step, Cap, LimitsOk;
    if n > 0 {
      RunSpends(c, calls, n - 1);
      StepSpends(c, StateAt(c, calls, n - 1), calls[n - 1]);
    }
  }

  /** The credit that the settled operations release. */
  function SettledCredit(rows: seq<Row>): int {
    if rows == [] then 0
    else
      var last := rows[|rows| - 1];
      SettledCredit(rows[..|rows| - 1]) + (if last.state.Settled? then last.creditWei else 0)
  }

  lemma {:induction false} SettledWithin(rows: seq<Row>, credit: int)
    requires 0 <= credit && forall i | 0 <= i < |rows| :: rows[i].creditWei == credit
    ensures 0 <= SettledCredit(rows) <= GrantedRows(rows) * credit
  {
    if rows != [] {
      var n := |rows| - 1;
      SettledWithin(rows[..n], credit);
      var before := GrantedRows(rows[..n]);
      assert (before + 1) * credit == before * credit + credit;
    }
  }

  /** The money bound at every state reached in order: the reserved fee is the fee cap times the number
      of created answers, covers every broadcast and never exceeds the total; and the credit released by
      settled operations is covered by the broadcasts granted, hence by the payouts allocated. */
  lemma MoneyBound(c: Crypto, calls: seq<Call>, n: nat)
    requires CryptoOk(c) && n <= |calls| && InOrder(c, calls, n)
    ensures var s := StateAt(c, calls, n);
            s.meta.Some? ==>
              var m, l := s.meta.value, s.meta.value.policy.limits;
              && m.reservedFeeWei == CreatedCount(c, calls, n) * l.maxFeeWei
              && GrantedCount(c, calls, n) * l.maxFeeWei <= m.reservedFeeWei <= l.maxTotalFeeWei
              && SettledCredit(s.rows) <= GrantedCount(c, calls, n) * l.creditWei
              && SettledCredit(s.rows) <= m.payouts * l.creditWei <= l.maxPayouts * l.creditWei
  {
    hide Step, Core, Checked, InOrder;
    var s := StateAt(c, calls, n);
    Reachable(c, calls, n);
    RunSpends(c, calls, n);
    if s.meta.Some? {
      var p := s.meta.value.policy;
      CheckedIffTimes(c, s);
      CheckedTotals(c, p, s);
      GrantedAtMost(s.rows);
      SameCredit(c, s);
      SettledWithin(s.rows, p.limits.creditWei);
      Multiples(p.limits.maxFeeWei, GrantedRows(s.rows), |s.rows|);
      Multiples(p.limits.creditWei, GrantedRows(s.rows), |s.rows|);
      Multiples(p.limits.creditWei, |s.rows|, p.limits.maxPayouts);
    }
  }

  lemma SameCredit(c: Crypto, s: State)
    requires Core(c, s) && s.meta.Some?
    ensures var p := s.meta.value.policy;
            && 0 < p.limits.creditWei && |s.rows| <= p.limits.maxPayouts
            && forall i | 0 <= i < |s.rows| :: s.rows[i].creditWei == p.limits.creditWei
  {
    hide NormalizeReservation, ShapeOk, Unique;
    var p := s.meta.value.policy;
    forall i | 0 <= i < |s.rows| ensures s.rows[i].creditWei == p.limits.creditWei {
      assert RowCore(c, p, s.rows[i]);
    }
  }

  lemma {:induction false} GrantedAtMost(rows: seq<Row>)
    ensures GrantedRows(rows) <= |rows|
  {
    if rows != [] { GrantedAtMost(rows[..|rows| - 1]); }
  }
}
