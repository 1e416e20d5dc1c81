/** Which batch proofs are accepted and with which reply, said of the proof, the hashes and the rule alone. */
module BatchLaws {
  import opened Wrappers
  import opened Numbers
  import opened Text
  import opened BatchProof

  // ---- the conditions ----

  ghost predicate FundedRule(r: Rule) {
    && (forall id | id in {Lower(r.policyId), Lower(r.actionId)} ::
          IsHexText(id, 64) && exists i | 2 <= i < |id| :: id[i] != '0')
    && r.router == ROUTER && r.weth == WETH && r.usdc == USDC && r.pool == POOL
    && r.trader != 0 && r.routeSigner != 0 && r.routeSigner != r.trader
    && (r.beneficiary.None? || r.beneficiary.value !in {0, r.trader, r.routeSigner})
    && 0 < r.amountIn && 0 < r.minimumSuccessfulOut
    && 0 <= r.startBlock < r.endBlock <= MAX_SAFE_INTEGER && 0 < r.maxBlockGap <= 1000
    && 0 < r.maxFailureGasUsed < r.minimumAttemptGasLimit <= MAX_UINT64
  }

  /** The rule with its two identifiers in lower case. */
  ghost function Funded(r: Rule): Rule { r.(policyId := Lower(r.policyId), actionId := Lower(r.actionId)) }

  ghost predicate RequestedPair(q: Request) {
    IsHexText(q.failedHash, 64) && IsHexText(q.successfulHash, 64) && Lower(q.failedHash) != Lower(q.successfulHash)
  }

  /** The proof is of the one source chain, over at most a thousand blocks, and every outer key is among them. */
  ghost predicate OnSourceChain(q: Request) {
    && q.expectedSourceChainId == 11155111 && q.expectedChainKey == 1 && q.proof.chainKey == 1
    && 0 <= q.proof.fromHeader <= q.proof.toHeader <= MAX_SAFE_INTEGER
    && q.proof.toHeader - q.proof.fromHeader <= 1000
    && (forall b | b in q.proof.merkleProofs :: q.proof.fromHeader <= b.number <= q.proof.toHeader)
    && (forall t | t in [q.proof.continuityProof.lowerEndpointDigest] + q.proof.continuityProof.roots ::
          IsHexText(t, 64))
  }

  /** This transaction of the proof, filed under this block and index, is the requested one and decodes to
      this entry. */
  ghost predicate FiledAs(c: Codec, item: Item, hash: string, e: Entry) {
    && IsHexText(item.raw.txHash, 64) && Lower(item.raw.txHash) == Lower(hash)
    && 0 <= item.index <= MAX_SAFE_INTEGER
    && (forall t | t in [item.raw.merkleProof.root] + item.raw.merkleProof.siblings :: IsHexText(t, 64))
    && c.decode(item.raw.txBytes, 11155111) == Some(e.attempt)
    && e == Entry(Lower(hash), item.block, item.index, item.raw.txBytes, item.raw.merkleProof, e.attempt)
  }

  /** The proof holds these two transactions, once each, and no other. */
  ghost predicate Holds(c: Codec, q: Request, f: Entry, s: Entry) {
    exists a, b :: FiledAs(c, a, q.failedHash, f) && FiledAs(c, b, q.successfulHash, s)
                   && multiset(Flatten(q.proof.merkleProofs)) == multiset{a, b}
  }

  /** A reverted transaction without logs and a later successful one, both from the trader to the router, with
      other calldata, inside the rule's blocks and gas bounds. */
  ghost predicate FailureThenRetry(rule: Rule, f: Entry, s: Entry) {
    var failed, retry := f.attempt.metadata, s.attempt.metadata;
    && failed.receiptStatus == 0 && |f.attempt.receiptLogs| == 0 && retry.receiptStatus == 1
    && failed.sender == rule.trader && retry.sender == rule.trader
    && failed.target == Some(rule.router) && retry.target == Some(rule.router)
    && failed.calldataHash != retry.calldataHash && failed.nonce < retry.nonce
    && rule.startBlock <= f.sourceBlock < s.sourceBlock <= rule.endBlock
    && s.sourceBlock <= f.sourceBlock + rule.maxBlockGap
    && rule.minimumAttemptGasLimit <= failed.gasLimit && rule.minimumAttemptGasLimit <= retry.gasLimit
    && failed.receiptGasUsed <= rule.maxFailureGasUsed
  }

  /** The retry's route is the failed route again, the rule's own, but for the second quote, a fresh nonce, a
      deadline not earlier and a lower minimum that the rule still funds. */
  ghost predicate RouteRefreshed(c: Codec, rule: Rule, f: Route, s: Route) {
    && s == f.(data := 2, nonce := s.nonce, deadline := s.deadline, amountOutMinimum := s.amountOutMinimum)
    && f.data == 1 && f.nonce != s.nonce && f.deadline <= s.deadline
    && rule.minimumSuccessfulOut <= s.amountOutMinimum < f.amountOutMinimum
    && f.sourceChainId == 11155111 && f.routeSigner == rule.routeSigner && f.amountIn == rule.amountIn
    && f.intent == c.intent(rule)
    && f.recipient == (if rule.beneficiary.Some? then rule.beneficiary.value else 1)
  }

  ghost function Payee(rule: Rule): int { if rule.beneficiary.Some? then rule.beneficiary.value else rule.trader }

  ghost predicate PoolSwap(c: Codec, rule: Rule, log: Log) {
    log.address == rule.pool && [c.swapEvent] <= log.topics
  }

  ghost predicate PoolPayment(c: Codec, rule: Rule, log: Log) {
    log.address == rule.usdc && |log.topics| == 3 && [c.transferEvent, rule.pool] <= log.topics && log.data.AmountData?
  }

  /** The one Swap of the pool, or the one counted payment, is this log. */
  ghost predicate OnlySwap(c: Codec, rule: Rule, logs: seq<Log>, i: int) {
    0 <= i < |logs| && forall k | 0 <= k < |logs| :: PoolSwap(c, rule, logs[k]) <==> k == i
  }

  ghost predicate OnlyPayment(c: Codec, rule: Rule, logs: seq<Log>, j: int) {
    0 <= j < |logs| && forall k | 0 <= k < |logs| :: PoolPayment(c, rule, logs[k]) <==> k == j
  }

  /** One log is a Swap of the pool and one a counted transfer out of it, and both give this amount to the
      payee. */
  ghost predicate Settles(c: Codec, rule: Rule, logs: seq<Log>, minimum: int, out: int) {
    && 0 < out && minimum <= out && rule.minimumSuccessfulOut <= out
    && exists i, j ::
         && OnlySwap(c, rule, logs, i) && OnlyPayment(c, rule, logs, j)
         && logs[i].topics == [c.swapEvent, rule.router, Payee(rule)]
         && logs[i].data.SwapData? && logs[i].data.amount0 == -out && logs[i].data.amount1 == rule.amountIn
         && logs[i].data.sqrtPriceX96 != 0 && logs[i].data.liquidity != 0
         && logs[j].topics == [c.transferEvent, rule.pool, Payee(rule)] && logs[j].data == AmountData(out)
  }

  // ---- settlement ----

  lemma SameSwap(c: Codec, rule: Rule, log: Log)
    ensures PoolSwap(c, rule, log) == IsSwap(c, rule, log)
  {
  }

  lemma SamePayment(c: Codec, rule: Rule, log: Log)
    ensures PoolPayment(c, rule, log) == IsPoolTransfer(c, rule, log)
  {
  }

  lemma {:induction false} SwapsAt(c: Codec, rule: Rule, logs: seq<Log>)
    ensures Swaps(c, rule, logs) == [] <==> forall k | 0 <= k < |logs| :: !PoolSwap(c, rule, logs[k])
    ensures |Swaps(c, rule, logs)| == 1 ==>
              exists i :: OnlySwap(c, rule, logs, i) && Swaps(c, rule, logs) == [logs[i]]
    ensures forall i | OnlySwap(c, rule, logs, i) :: Swaps(c, rule, logs) == [logs[i]]
  {
    hide IsSwap, PoolSwap;
    if logs != [] {
      var n := |logs| - 1;
      SameSwap(c, rule, logs[n]);
      var init, r := logs[..n], Swaps(c, rule, logs);
      SwapsAt(c, rule, init);
      assert forall k | 0 <= k < n :: init[k] == logs[k];
      if |r| == 1 {
        if PoolSwap(c, rule, logs[n]) {
          assert OnlySwap(c, rule, logs, n);
        } else {
          var i :| OnlySwap(c, rule, init, i) && Swaps(c, rule, init) == [init[i]];
          assert OnlySwap(c, rule, logs, i);
        }
      }
      forall i | OnlySwap(c, rule, logs, i) ensures r == [logs[i]] {
        if i < n { assert OnlySwap(c, rule, init, i); }
      }
    }
  }

  lemma {:induction false} TransfersAt(c: Codec, rule: Rule, logs: seq<Log>)
    ensures PoolTransfers(c, rule, logs) == [] <==> forall k | 0 <= k < |logs| :: !PoolPayment(c, rule, logs[k])
    ensures |PoolTransfers(c, rule, logs)| == 1 ==>
              exists i :: OnlyPayment(c, rule, logs, i) && PoolTransfers(c, rule, logs) == [logs[i]]
    ensures forall i | OnlyPayment(c, rule, logs, i) :: PoolTransfers(c, rule, logs) == [logs[i]]
  {
    hide IsPoolTransfer, PoolPayment;
    if logs != [] {
      var n := |logs| - 1;
      SamePayment(c, rule, logs[n]);
      var init, r := logs[..n], PoolTransfers(c, rule, logs);
      TransfersAt(c, rule, init);
      assert forall k | 0 <= k < n :: init[k] == logs[k];
      if |r| == 1 {
        if PoolPayment(c, rule, logs[n]) {
          assert OnlyPayment(c, rule, logs, n);
        } else {
          var i :| OnlyPayment(c, rule, init, i) && PoolTransfers(c, rule, init) == [init[i]];
          assert OnlyPayment(c, rule, logs, i);
        }
      }
      forall i | OnlyPayment(c, rule, logs, i) ensures r == [logs[i]] {
        if i < n { assert OnlyPayment(c, rule, init, i); }
      }
    }
  }

  /** The counting decides exactly that description, and the output is determined by it. */
  lemma SettlementIff(c: Codec, rule: Rule, minimum: int, logs: seq<Log>, out: int)
    ensures Settlement(c, rule, minimum, logs) == Some(out) <==> Settles(c, rule, logs, minimum, out)
  {
    hide Swaps, PoolTransfers, OnlySwap, OnlyPayment;
    SwapsAt(c, rule, logs);
    TransfersAt(c, rule, logs);
  }

  // ---- the pair ----

  /** The pair is paid for exactly when it is a failure and its refreshed retry, the settlement is as described
      and the stale minimum exceeds its output. */
  lemma RelationshipIff(c: Codec, f: Entry, s: Entry, rule: Rule, out: int)
    ensures Relationship(c, f, s, rule, 11155111) == Some(out) <==>
              && FailureThenRetry(rule, f, s) && RouteRefreshed(c, rule, f.attempt.route, s.attempt.route)
              && Settles(c, rule, s.attempt.receiptLogs, s.attempt.route.amountOutMinimum, out)
              && out < f.attempt.route.amountOutMinimum
  {
    hide Settlement, Settles;
    SettlementIff(c, rule, s.attempt.route.amountOutMinimum, s.attempt.receiptLogs, out);
  }

  // ---- the rule ----

  lemma RuleIff(r: Rule)
    ensures NormalizeRule(r) == if FundedRule(r) then Some(Funded(r)) else None
  {
    hide IsHexText, Lower;
  }

  // ---- the proof ----

  lemma FiledIff(c: Codec, item: Item, hash: string, e: Entry)
    ensures Decode(c, 11155111, item) == Some(e) && e.transactionHash == Lower(hash) <==> FiledAs(c, item, hash, e)
  {
    hide IsHexText, Lower;
  }

  lemma HeldIff(c: Codec, q: Request, f: Entry, s: Entry)
    ensures HeaderOk(q) && ContinuityOk(q.proof.continuityProof) && Selects(c, q, f, s) <==>
              OnSourceChain(q) && Holds(c, q, f, s)
  {
    hide IsHexText, Lower, Flatten, Decode, FiledAs;
    SourceChainIff(q);
    if q.expectedSourceChainId == 11155111 {
      forall a, b ensures SelectsItems(c, q, a, b, f, s) && f.transactionHash == Lower(q.failedHash)
                          && s.transactionHash == Lower(q.successfulHash) <==>
                          && FiledAs(c, a, q.failedHash, f) && FiledAs(c, b, q.successfulHash, s)
                          && multiset(Flatten(q.proof.merkleProofs)) == multiset{a, b}
      {
        FiledIff(c, a, q.failedHash, f);
        FiledIff(c, b, q.successfulHash, s);
      }
    }
  }

  lemma SourceChainIff(q: Request)
    ensures HeaderOk(q) && ContinuityOk(q.proof.continuityProof) && BlocksOk(q.proof) <==> OnSourceChain(q)
  {
    hide IsHexText;
    var blocks := q.proof.merkleProofs;
    if HeaderOk(q) {
      if OnSourceChain(q) {
        forall i | 0 <= i < |blocks| ensures BlockOk(q.proof, blocks[i]) { assert blocks[i] in blocks; }
      }
    }
  }

  /** Acceptance as one equivalence: the two requested hashes differ, the rule is funded, the proof is of the
      source chain and holds exactly the two transactions, they are a failure and its refreshed retry, and the
      logs settle the output below the stale minimum; the reply then carries exactly these values. */
  lemma AcceptedIff(c: Codec, q: Request, r: Result<Normalized, BatchError>, n: Normalized)
    requires Normalizes(c, q, r)
    ensures var rule, f, s := Funded(q.rule), n.failed, n.successful;
            r == Ok(n) <==>
              && RequestedPair(q) && FundedRule(q.rule) && OnSourceChain(q) && Holds(c, q, f, s)
              && FailureThenRetry(rule, f, s) && RouteRefreshed(c, rule, f.attempt.route, s.attempt.route)
              && Settles(c, rule, s.attempt.receiptLogs, s.attempt.route.amountOutMinimum, n.amountOut)
              && n.amountOut < f.attempt.route.amountOutMinimum
              && n.fromHeader == q.proof.fromHeader && n.toHeader == q.proof.toHeader
              && n.continuityProof == q.proof.continuityProof
  {
    hide IsHexText, Lower, Relationship, NormalizeRule, FundedRule, Funded, HeaderOk, ContinuityOk, Selects,
         OnSourceChain, Holds, FailureThenRetry, RouteRefreshed, Settles;
    RuleIff(q.rule);
    HeldIff(c, q, n.failed, n.successful);
    RelationshipIff(c, n.failed, n.successful, Funded(q.rule), n.amountOut);
    OnOneChain(q);
    if r.Ok? && r != Ok(n) && RequestedPair(q) && OnSourceChain(q) && Holds(c, q, n.failed, n.successful) {
      HeldIff(c, q, r.value.failed, r.value.successful);
      OneReply(c, q, r, n);
    }
  }

  lemma OnOneChain(q: Request)
    ensures HeaderOk(q) || OnSourceChain(q) ==> q.expectedSourceChainId == 11155111
  {
    hide IsHexText;
  }

  lemma OneReply(c: Codec, q: Request, r: Result<Normalized, BatchError>, n: Normalized)
    requires Normalizes(c, q, r) && HashesOk(q) && r.Ok? && Selects(c, q, n.failed, n.successful)
    ensures r.value.failed == n.failed && r.value.successful == n.successful
  {
    hide IsHexText, Lower, Relationship, NormalizeRule, HeaderOk, ContinuityOk, Selects;
    SelectionIsUnique(c, q, q, r.value.failed, r.value.successful, n.failed, n.successful);
  }

  /** A rule that is not funded is named as the reason exactly when the hashes were in order; anything else
      that is not accepted is an invalid proof. */
  lemma RefusalReason(c: Codec, q: Request, r: Result<Normalized, BatchError>)
    requires Normalizes(c, q, r)
    ensures r == Err(InvalidRetryCreditRule) <==> RequestedPair(q) && !FundedRule(q.rule)
  {
    hide IsHexText, Lower, Relationship, NormalizeRule, FundedRule, Funded, HeaderOk, ContinuityOk, Selects;
    RuleIff(q.rule);
  }

  // ---- the bag of transactions ----

  /** The transactions of a proof, block by block: no block has none, and the last block adds its own. */
  lemma ItemsOfBlocks(blocks: seq<Block>, last: Block)
    ensures Flatten([]) == []
    ensures |Flatten(blocks + [last])| == |Flatten(blocks)| + |last.entries|
    ensures Flatten(blocks) <= Flatten(blocks + [last])
    ensures forall k | 0 <= k < |last.entries| ::
              Flatten(blocks + [last])[|Flatten(blocks)| + k] == Item(last.number, last.entries[k].0, last.entries[k].1)
  {
    FlattenLast(blocks, last);
  }
}
