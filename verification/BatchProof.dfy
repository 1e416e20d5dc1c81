/** src/proof-worker.mjs: the batch proof of a failed transaction and its successful retry.
    Addresses, 32-byte words and amounts stand for their numeric values. */
module BatchProof {
  import opened Wrappers
  import opened Numbers
  import opened Text
  import opened Sorting

  const MAX_UINT64: int := 18446744073709551615
  const RETRY_BATCH_SIZE := 2
  const MAX_BATCH_BLOCK_SPAN := 1000
  const SOURCE_CHAIN_KEY := 1
  const SOURCE_CHAIN_ID := 11155111
  const ROUTER: int := 0x7DfD4F31be6814D2906BDE155c3e1B146EAc1468
  const WETH: int := 0xfFf9976782d46CC05630D1f6eBAb18b2324d6B14
  const USDC: int := 0x1c7D4B196Cb0C7B01d743Fbc6116a902379C7238
  const POOL: int := 0x3289680dD4d6C10bb19b899729cda5eEF58AEfF1
  const MSG_SENDER_RECIPIENT: int := 1

  // ---- decoded transactions ----

  /** Log data of 160 bytes, of 32 bytes, or of any other length. */
  datatype LogData =
    | SwapData(amount0: int, amount1: int, sqrtPriceX96: int, liquidity: int)
    | AmountData(amount: int)
    | OtherData

  datatype Log = Log(address: int, topics: seq<int>, data: LogData)

  datatype Metadata = Metadata(nonce: int, gasLimit: int, sender: int, target: Option<int>, calldataHash: string,
                               receiptStatus: int, receiptGasUsed: int)

  datatype Route = Route(sourceChainId: int, router: int, routeSigner: int, trader: int, recipient: int, intent: int,
                         data: int, nonce: int, deadline: int, commands: string, path: string, amountIn: int,
                         amountOutMinimum: int)

  datatype Attempt = Attempt(metadata: Metadata, route: Route, receiptLogs: seq<Log>)

  // ---- the funded rule ----

  datatype Rule = Rule(routeSigner: int, trader: int, beneficiary: Option<int>, router: int, weth: int, usdc: int,
                       pool: int, policyId: string, actionId: string, amountIn: int, minimumSuccessfulOut: int,
                       startBlock: int, endBlock: int, maxBlockGap: int, minimumAttemptGasLimit: int,
                       maxFailureGasUsed: int)

  predicate IsSafe(v: int) { 0 <= v <= MAX_SAFE_INTEGER }

  predicate IsIdentifier(s: string) {
    IsHexText(s, 64) && exists i | 2 <= i < |s| :: s[i] != '0'
  }

  predicate RuleOk(r: Rule) {
    && IsSafe(r.startBlock) && IsSafe(r.endBlock) && IsSafe(r.maxBlockGap)
    && IsIdentifier(r.policyId) && IsIdentifier(r.actionId)
    && r.router == ROUTER && r.weth == WETH && r.usdc == USDC && r.pool == POOL
    && r.routeSigner != r.trader
    && (r.beneficiary.Some? ==>
          r.beneficiary.value != r.trader && r.beneficiary.value != r.routeSigner && r.beneficiary.value != 0)
    && r.amountIn > 0 && r.minimumSuccessfulOut > 0
    && r.startBlock < r.endBlock
    && 0 < r.maxBlockGap <= MAX_BATCH_BLOCK_SPAN
    && 0 < r.minimumAttemptGasLimit <= MAX_UINT64
    && 0 < r.maxFailureGasUsed <= MAX_UINT64
    && r.maxFailureGasUsed < r.minimumAttemptGasLimit
    && r.routeSigner != 0 && r.trader != 0
  }

  function NormalizeRule(rule: Rule): Option<Rule> {
    var normalized := rule.(policyId := Lower(rule.policyId), actionId := Lower(rule.actionId));
    if RuleOk(normalized) then Some(normalized) else None
  }

  /** Calls into code that is not part of this model: envelope and route decoding for a source chain,
      the signed intent of a rule, and the two event signatures. Nothing is assumed about them. */
  datatype Codec = Codec(decode: (string, int) -> Option<Attempt>, intent: Rule -> int,
                         swapEvent: int, transferEvent: int)

  // ---- settlement logs ----

  function Recipient(rule: Rule): int { rule.beneficiary.GetOr(rule.trader) }

  predicate IsSwap(c: Codec, rule: Rule, log: Log) {
    log.address == rule.pool && |log.topics| > 0 && log.topics[0] == c.swapEvent
  }

  predicate SwapOk(rule: Rule, log: Log) {
    && |log.topics| == 3 && log.topics[1] == rule.router && log.topics[2] == Recipient(rule)
    && log.data.SwapData?
    && log.data.amount0 < 0 && log.data.amount1 == rule.amountIn
    && log.data.sqrtPriceX96 != 0 && log.data.liquidity != 0
  }

  predicate IsPoolTransfer(c: Codec, rule: Rule, log: Log) {
    && log.address == rule.usdc && |log.topics| == 3 && log.topics[0] == c.transferEvent
    && log.topics[1] == rule.pool && log.data.AmountData?
  }

  /** The pool's Swap logs, in log order. */
  function Swaps(c: Codec, rule: Rule, logs: seq<Log>): (r: seq<Log>)
    ensures forall i | 0 <= i < |r| :: IsSwap(c, rule, r[i])
  {
    if logs == [] then []
    else
      var n := |logs| - 1;
      Swaps(c, rule, logs[..n]) + if IsSwap(c, rule, logs[n]) then [logs[n]] else []
  }

  /** The counted USDC transfers out of the pool, in log order. */
  function PoolTransfers(c: Codec, rule: Rule, logs: seq<Log>): (r: seq<Log>)
    ensures forall i | 0 <= i < |r| :: IsPoolTransfer(c, rule, r[i])
  {
    if logs == [] then []
    else
      var n := |logs| - 1;
      PoolTransfers(c, rule, logs[..n]) + if IsPoolTransfer(c, rule, logs[n]) then [logs[n]] else []
  }

  lemma {:induction false} EverySwap(c: Codec, rule: Rule, logs: seq<Log>, k: nat)
    requires k < |logs| && IsSwap(c, rule, logs[k])
    ensures logs[k] in Swaps(c, rule, logs)
  {
    hide IsSwap;
    if k < |logs| - 1 {
      EverySwap(c, rule, logs[..|logs| - 1], k);
    }
  }

  lemma {:induction false} EveryTransfer(c: Codec, rule: Rule, logs: seq<Log>, k: nat)
    requires k < |logs| && IsPoolTransfer(c, rule, logs[k])
    ensures logs[k] in PoolTransfers(c, rule, logs)
  {
    hide IsPoolTransfer;
    if k < |logs| - 1 {
      EveryTransfer(c, rule, logs[..|logs| - 1], k);
    }
  }

  lemma NoLogs(c: Codec, rule: Rule)
    ensures Swaps(c, rule, []) == [] && PoolTransfers(c, rule, []) == []
  {
  }

  lemma SwapsStep(c: Codec, rule: Rule, logs: seq<Log>, i: nat)
    requires i < |logs|
    ensures Swaps(c, rule, logs[..i + 1]) ==
            Swaps(c, rule, logs[..i]) + if IsSwap(c, rule, logs[i]) then [logs[i]] else []
  {
    assert logs[..i + 1][..i] == logs[..i];
  }

  lemma TransfersStep(c: Codec, rule: Rule, logs: seq<Log>, i: nat)
    requires i < |logs|
    ensures PoolTransfers(c, rule, logs[..i + 1]) ==
            PoolTransfers(c, rule, logs[..i]) + if IsPoolTransfer(c, rule, logs[i]) then [logs[i]] else []
  {
    assert logs[..i + 1][..i] == logs[..i];
  }

  /** The settled output: the logs hold one well-formed Swap and one matching transfer, and the output
      meets the signed and the funded minimum. */
  function Settlement(c: Codec, rule: Rule, minimum: int, logs: seq<Log>): Option<int> {
    var swaps, transfers := Swaps(c, rule, logs), PoolTransfers(c, rule, logs);
    if |swaps| != 1 || !SwapOk(rule, swaps[0]) then None
    else
      var amountOut := -swaps[0].data.amount0;
      if amountOut < minimum || amountOut < rule.minimumSuccessfulOut || |transfers| != 1 then None
      else if transfers[0].topics[2] != Recipient(rule) || transfers[0].data.amount != amountOut then None
      else Some(amountOut)
  }

  /** The two counting loops compute the settlement. */
  method RequireSettlementLogs(c: Codec, rule: Rule, minimum: int, logs: seq<Log>) returns (out: Option<int>)
    ensures out == Settlement(c, rule, minimum, logs)
  {
    hide Swaps, PoolTransfers, IsSwap;
    var poolSwaps, poolTransfers, amountOut := 0, 0, 0;
    NoLogs(c, rule);
    assert logs[..0] == [] && logs[..|logs|] == logs;
    for i := 0 to |logs|
      invariant var swaps := Swaps(c, rule, logs[..i]);
                && poolSwaps == |swaps| && (forall k | 0 <= k < |swaps| :: SwapOk(rule, swaps[k]))
                && (swaps != [] ==> amountOut == -swaps[|swaps| - 1].data.amount0)
    {
      var log := logs[i];
      SwapsStep(c, rule, logs, i);
      if IsSwap(c, rule, log) {
        poolSwaps := poolSwaps + 1;
        if !SwapOk(rule, log) {
          EverySwap(c, rule, logs, i);
          return None;
        }
        amountOut := -log.data.amount0;
      }
    }
    if poolSwaps != 1 || amountOut < minimum || amountOut < rule.minimumSuccessfulOut {
      return None;
    }
    for i := 0 to |logs|
      invariant var transfers := PoolTransfers(c, rule, logs[..i]);
                && poolTransfers == |transfers|
                && (forall k | 0 <= k < |transfers| ::
                      transfers[k].topics[2] == Recipient(rule) && transfers[k].data.amount == amountOut)
    {
      var log := logs[i];
      TransfersStep(c, rule, logs, i);
      if IsPoolTransfer(c, rule, log) {
        poolTransfers := poolTransfers + 1;
        if log.topics[2] != Recipient(rule) || log.data.amount != amountOut {
          EveryTransfer(c, rule, logs, i);
          return None;
        }
      }
    }
    out := if poolTransfers == 1 then Some(amountOut) else None;
  }

  /** What the pool's Swap logs say it gave out, and what its counted transfers moved. */
  function SwappedOut(c: Codec, rule: Rule, logs: seq<Log>): int {
    if logs == [] then 0
    else
      var last := logs[|logs| - 1];
      SwappedOut(c, rule, logs[..|logs| - 1])
      + if IsSwap(c, rule, last) && last.data.SwapData? then -last.data.amount0 else 0
  }

  function TransferredOut(c: Codec, rule: Rule, logs: seq<Log>): int {
    if logs == [] then 0
    else
      var last := logs[|logs| - 1];
      TransferredOut(c, rule, logs[..|logs| - 1]) + if IsPoolTransfer(c, rule, last) then last.data.amount else 0
  }

  lemma {:induction false} OneSwap(c: Codec, rule: Rule, logs: seq<Log>)
    requires forall k | 0 <= k < |Swaps(c, rule, logs)| :: Swaps(c, rule, logs)[k].data.SwapData?
    ensures Swaps(c, rule, logs) == [] ==> SwappedOut(c, rule, logs) == 0
    ensures |Swaps(c, rule, logs)| == 1 ==> SwappedOut(c, rule, logs) == -Swaps(c, rule, logs)[0].data.amount0
  {
    hide IsSwap;
    if logs != [] {
      var before := Swaps(c, rule, logs[..|logs| - 1]);
      assert forall k | 0 <= k < |before| :: before[k] == Swaps(c, rule, logs)[k];
      OneSwap(c, rule, logs[..|logs| - 1]);
    }
  }

  lemma {:induction false} OneTransfer(c: Codec, rule: Rule, logs: seq<Log>)
    ensures PoolTransfers(c, rule, logs) == [] ==> TransferredOut(c, rule, logs) == 0
    ensures |PoolTransfers(c, rule, logs)| == 1 ==>
              TransferredOut(c, rule, logs) == PoolTransfers(c, rule, logs)[0].data.amount
  {
    if logs != [] {
      OneTransfer(c, rule, logs[..|logs| - 1]);
    }
  }

  /** Conservation: all USDC counted out of the pool is the output of the pool's Swap, and it all goes to
      the rule's recipient. */
  lemma SettlementConserves(c: Codec, rule: Rule, minimum: int, logs: seq<Log>)
    requires Settlement(c, rule, minimum, logs).Some?
    ensures var out := Settlement(c, rule, minimum, logs).value;
            && SwappedOut(c, rule, logs) == out == TransferredOut(c, rule, logs)
            && out > 0 && out >= minimum && out >= rule.minimumSuccessfulOut
    ensures forall k | 0 <= k < |logs| && IsPoolTransfer(c, rule, logs[k]) :: logs[k].topics[2] == Recipient(rule)
  {
    OneSwap(c, rule, logs);
    OneTransfer(c, rule, logs);
    forall k | 0 <= k < |logs| && IsPoolTransfer(c, rule, logs[k]) ensures logs[k].topics[2] == Recipient(rule) {
      EveryTransfer(c, rule, logs, k);
    }
  }

  // ---- the two attempts against the rule ----

  datatype MerkleProof = MerkleProof(root: string, siblings: seq<string>)
  datatype ContinuityProof = ContinuityProof(lowerEndpointDigest: string, roots: seq<string>)

  predicate MerkleOk(p: MerkleProof) { IsHexText(p.root, 64) && forall s | s in p.siblings :: IsHexText(s, 64) }

  predicate ContinuityOk(p: ContinuityProof) {
    IsHexText(p.lowerEndpointDigest, 64) && forall s | s in p.roots :: IsHexText(s, 64)
  }

  datatype Entry = Entry(transactionHash: string, sourceBlock: int, transactionIndex: int, encodedTransaction: string,
                         merkleProof: MerkleProof, attempt: Attempt)

  predicate SameRoute(a: Route, b: Route) {
    && a.sourceChainId == b.sourceChainId && a.router == b.router && a.routeSigner == b.routeSigner
    && a.trader == b.trader && a.recipient == b.recipient && a.intent == b.intent
    && a.commands == b.commands && a.path == b.path && a.amountIn == b.amountIn
  }

  predicate AttemptsMatch(failed: Entry, successful: Entry, rule: Rule) {
    var f, s := failed.attempt.metadata, successful.attempt.metadata;
    && f.receiptStatus == 0 && s.receiptStatus == 1 && failed.attempt.receiptLogs == []
    && f.sender == s.sender == rule.trader
    && f.target == s.target == Some(rule.router)
    && f.calldataHash != s.calldataHash
    && s.nonce > f.nonce
    && failed.sourceBlock < successful.sourceBlock
    && rule.startBlock <= failed.sourceBlock && successful.sourceBlock <= rule.endBlock
    && successful.sourceBlock - failed.sourceBlock <= rule.maxBlockGap
    && f.gasLimit >= rule.minimumAttemptGasLimit && s.gasLimit >= rule.minimumAttemptGasLimit
    && f.receiptGasUsed <= rule.maxFailureGasUsed
  }

  predicate RoutesMatch(c: Codec, f: Route, s: Route, rule: Rule, chainId: int) {
    && SameRoute(f, s)
    && f.sourceChainId == chainId && f.routeSigner == rule.routeSigner
    && f.recipient == rule.beneficiary.GetOr(MSG_SENDER_RECIPIENT)
    && f.amountIn == rule.amountIn && f.intent == c.intent(rule)
    && f.data == 1 && s.data == 2 && f.nonce != s.nonce
    && s.deadline >= f.deadline
    && s.amountOutMinimum < f.amountOutMinimum && s.amountOutMinimum >= rule.minimumSuccessfulOut
  }

  /** The settled output when the two attempts are the failure and the retry the rule pays for. */
  function Relationship(c: Codec, failed: Entry, successful: Entry, rule: Rule, chainId: int): Option<int> {
    var f, s := failed.attempt.route, successful.attempt.route;
    if !AttemptsMatch(failed, successful, rule) || !RoutesMatch(c, f, s, rule, chainId) then None
    else
      var amountOut := Settlement(c, rule, s.amountOutMinimum, successful.attempt.receiptLogs);
      if amountOut.Some? && f.amountOutMinimum > amountOut.value then amountOut else None
  }

  method ValidateRelationship(c: Codec, failed: Entry, successful: Entry, rule: Rule, chainId: int)
    returns (amountOut: Option<int>)
    ensures amountOut == Relationship(c, failed, successful, rule, chainId)
  {
    var f, s := failed.attempt.route, successful.attempt.route;
    if !AttemptsMatch(failed, successful, rule) || !RoutesMatch(c, f, s, rule, chainId) {
      return None;
    }
    amountOut := RequireSettlementLogs(c, rule, s.amountOutMinimum, successful.attempt.receiptLogs);
    if amountOut.Some? && f.amountOutMinimum <= amountOut.value {
      amountOut := None;
    }
  }

  // ---- the batch ----

  datatype RawEntry = RawEntry(txHash: string, txBytes: string, merkleProof: MerkleProof)

  /** One outer map entry: the source block and its transactions, both in iteration order. */
  datatype Block = Block(number: int, entries: seq<(int, RawEntry)>)

  datatype Proof = Proof(chainKey: int, fromHeader: int, toHeader: int, merkleProofs: seq<Block>,
                         continuityProof: ContinuityProof)

  datatype Request = Request(proof: Proof, failedHash: string, successfulHash: string, rule: Rule,
                             expectedChainKey: int, expectedSourceChainId: int)

  datatype BatchError = BatchProofInvalid | InvalidRetryCreditRule
  datatype Normalized = Normalized(fromHeader: int, toHeader: int, failed: Entry, successful: Entry, amountOut: int,
                                   continuityProof: ContinuityProof)

  /** One transaction of the proof with the block and index it is filed under. */
  datatype Item = Item(block: int, index: int, raw: RawEntry)

  function Items(b: Block): (r: seq<Item>)
    ensures |r| == |b.entries|
    ensures forall k | 0 <= k < |r| :: r[k] == Item(b.number, b.entries[k].0, b.entries[k].1)
  {
    seq(|b.entries|, k requires 0 <= k < |b.entries| => Item(b.number, b.entries[k].0, b.entries[k].1))
  }

  function Flatten(blocks: seq<Block>): seq<Item> {
    if blocks == [] then [] else Flatten(blocks[..|blocks| - 1]) + Items(blocks[|blocks| - 1])
  }

  function Decode(c: Codec, chainId: int, item: Item): (r: Option<Entry>)
    ensures r.Some? ==> r.value.transactionHash == Lower(item.raw.txHash)
  {
    if !IsSafe(item.index) || !IsHexText(item.raw.txHash, 64) || !MerkleOk(item.raw.merkleProof) then None
    else
      var attempt := c.decode(item.raw.txBytes, chainId);
      if attempt.None? then None
      else Some(Entry(Lower(item.raw.txHash), item.block, item.index, item.raw.txBytes, item.raw.merkleProof,
                      attempt.value))
  }

  predicate HashesOk(q: Request) {
    IsHexText(q.failedHash, 64) && IsHexText(q.successfulHash, 64) && Lower(q.failedHash) != Lower(q.successfulHash)
  }

  predicate HeaderOk(q: Request) {
    && q.expectedChainKey == SOURCE_CHAIN_KEY && q.expectedSourceChainId == SOURCE_CHAIN_ID
    && q.proof.chainKey == q.expectedChainKey
    && IsSafe(q.proof.fromHeader) && IsSafe(q.proof.toHeader)
    && q.proof.fromHeader <= q.proof.toHeader <= q.proof.fromHeader + MAX_BATCH_BLOCK_SPAN
  }

  predicate BlockOk(p: Proof, b: Block) { IsSafe(b.number) && p.fromHeader <= b.number <= p.toHeader }

  predicate BlocksOk(p: Proof) { forall i | 0 <= i < |p.merkleProofs| :: BlockOk(p, p.merkleProofs[i]) }

  /** The proof holds exactly these two transactions, once each, whatever order its maps are iterated in. */
  ghost predicate Selects(c: Codec, q: Request, failed: Entry, successful: Entry) {
    && BlocksOk(q.proof)
    && failed.transactionHash == Lower(q.failedHash) && successful.transactionHash == Lower(q.successfulHash)
    && exists f, s :: SelectsItems(c, q, f, s, failed, successful)
  }

  ghost predicate SelectsItems(c: Codec, q: Request, f: Item, s: Item, failed: Entry, successful: Entry) {
    && multiset(Flatten(q.proof.merkleProofs)) == multiset{f, s}
    && Decode(c, q.expectedSourceChainId, f) == Some(failed)
    && Decode(c, q.expectedSourceChainId, s) == Some(successful)
  }

  /** What the normaliser promises of its reply, with no mention of how it walks the maps. */
  ghost predicate Normalizes(c: Codec, q: Request, r: Result<Normalized, BatchError>) {
    var rule := NormalizeRule(q.rule);
    if !HashesOk(q) then r == Err(BatchProofInvalid)
    else if rule.None? then r == Err(InvalidRetryCreditRule)
    else match r
         case Ok(n) =>
           && HeaderOk(q) && ContinuityOk(q.proof.continuityProof) && Selects(c, q, n.failed, n.successful)
           && Relationship(c, n.failed, n.successful, rule.value, q.expectedSourceChainId) == Some(n.amountOut)
           && n.fromHeader == q.proof.fromHeader && n.toHeader == q.proof.toHeader
           && n.continuityProof == q.proof.continuityProof
         case Err(e) =>
           && e == BatchProofInvalid
           && (HeaderOk(q) && ContinuityOk(q.proof.continuityProof) ==>
                 forall f, s | Selects(c, q, f, s) :: Relationship(c, f, s, rule.value, q.expectedSourceChainId).None?)
  }

  // ---- collecting the entries ----

  predicate ItemOk(c: Codec, q: Request, item: Item) {
    var e := Decode(c, q.expectedSourceChainId, item);
    e.Some? && (e.value.transactionHash == Lower(q.failedHash) || e.value.transactionHash == Lower(q.successfulHash))
  }

  /** Every transaction is a requested one and none occurs twice. */
  predicate Consistent(c: Codec, q: Request, items: seq<Item>) {
    && (forall k | 0 <= k < |items| :: ItemOk(c, q, items[k]))
    && (forall k, l | 0 <= k < l < |items| :: Lower(items[k].raw.txHash) != Lower(items[l].raw.txHash))
  }

  /** The map from hash to entry holds exactly the items seen. */
  ghost predicate Records(c: Codec, q: Request, items: seq<Item>, entries: map<string, Entry>) {
    && |entries| == |items|
    && (forall h | h in entries :: exists k :: 0 <= k < |items| && h == Lower(items[k].raw.txHash))
    && (forall k | 0 <= k < |items| ::
          && Lower(items[k].raw.txHash) in entries
          && Decode(c, q.expectedSourceChainId, items[k]) == Some(entries[Lower(items[k].raw.txHash)]))
  }

  lemma {:induction false} FlattenPrefix(blocks: seq<Block>, i: nat)
    requires i <= |blocks|
    ensures Flatten(blocks[..i]) <= Flatten(blocks)
    decreases |blocks| - i
  {
    if i < |blocks| {
      FlattenPrefix(blocks, i + 1);
      assert blocks[..i + 1][..i] == blocks[..i];
    } else {
      assert blocks[..i] == blocks;
    }
  }

  lemma PrefixInconsistent(c: Codec, q: Request, prefix: seq<Item>, items: seq<Item>)
    requires prefix <= items && !Consistent(c, q, prefix)
    ensures !Consistent(c, q, items)
  {
    hide ItemOk;
  }

  lemma RecordsOne(c: Codec, q: Request, items: seq<Item>, entries: map<string, Entry>, item: Item)
    requires Consistent(c, q, items) && Records(c, q, items, entries) && ItemOk(c, q, item)
    ensures var hash := Lower(item.raw.txHash);
            if hash in entries then !Consistent(c, q, items + [item])
            else
              && Consistent(c, q, items + [item])
              && Records(c, q, items + [item], entries[hash := Decode(c, q.expectedSourceChainId, item).value])
  {
    hide Decode, Lower, IsHexText;
    var hash := Lower(item.raw.txHash);
    var all := items + [item];
    if hash in entries {
      var k :| 0 <= k < |items| && hash == Lower(items[k].raw.txHash);
      assert Lower(all[k].raw.txHash) == Lower(all[|items|].raw.txHash);
    } else {
      forall k | 0 <= k < |items| ensures Lower(all[k].raw.txHash) != hash {
        assert all[k] == items[k];
      }
      var added := entries[hash := Decode(c, q.expectedSourceChainId, item).value];
      forall h | h in added ensures exists k :: 0 <= k < |all| && h == Lower(all[k].raw.txHash) {
        if h == hash {
          assert all[|items|] == item;
        } else {
          var k :| 0 <= k < |items| && h == Lower(items[k].raw.txHash);
          assert all[k] == items[k];
        }
      }
    }
  }

  lemma NothingSeen(c: Codec, q: Request)
    ensures Consistent(c, q, []) && Records(c, q, [], map[])
  {
  }

  lemma FlattenStep(blocks: seq<Block>, i: nat, j: nat)
    requires i < |blocks| && j <= |blocks[i].entries|
    ensures Flatten(blocks[..i]) + Items(blocks[i])[..j] <= Flatten(blocks)
    ensures j == |blocks[i].entries| ==> Flatten(blocks[..i]) + Items(blocks[i])[..j] == Flatten(blocks[..i + 1])
  {
    FlattenPrefix(blocks, i + 1);
    assert blocks[..i + 1][..i] == blocks[..i];
    assert Items(blocks[i])[..j] <= Items(blocks[i]);
    assert Items(blocks[i])[..|blocks[i].entries|] == Items(blocks[i]);
  }

  /** The walk over the nested maps: it succeeds exactly when every block is inside the range and the
      transactions are consistent, and then the map holds them all. */
  method CollectEntries(c: Codec, q: Request) returns (entriesByHash: Option<map<string, Entry>>)
    ensures entriesByHash.Some? <==> BlocksOk(q.proof) && Consistent(c, q, Flatten(q.proof.merkleProofs))
    ensures entriesByHash.Some? ==> Records(c, q, Flatten(q.proof.merkleProofs), entriesByHash.value)
  {
    hide Consistent, Records, Flatten, Decode;
    var blocks := q.proof.merkleProofs;
    var entries: map<string, Entry> := map[];
    ghost var seen: seq<Item> := [];
    NothingSeen(c, q);
    NoBlocks();
    assert blocks[..0] == [] && blocks[..|blocks|] == blocks;
    for i := 0 to |blocks|
      invariant forall k | 0 <= k < i :: BlockOk(q.proof, blocks[k])
      invariant seen == Flatten(blocks[..i]) && Consistent(c, q, seen) && Records(c, q, seen, entries)
    {
      var block := blocks[i];
      if !BlockOk(q.proof, block) {
        return None;
      }
      var items := Items(block);
      for j := 0 to |items|
        invariant seen == Flatten(blocks[..i]) + items[..j] && Consistent(c, q, seen) && Records(c, q, seen, entries)
      {
        FlattenStep(blocks, i, j + 1);
        assert seen + [items[j]] == Flatten(blocks[..i]) + items[..j + 1];
        if !ItemOk(c, q, items[j]) {
          BadItem(c, q, seen, items[j]);
          PrefixInconsistent(c, q, seen + [items[j]], Flatten(blocks));
          return None;
        }
        var entry := Decode(c, q.expectedSourceChainId, items[j]).value;
        RecordsOne(c, q, seen, entries, items[j]);
        if entry.transactionHash in entries {
          PrefixInconsistent(c, q, seen + [items[j]], Flatten(blocks));
          return None;
        }
        entries := entries[entry.transactionHash := entry];
        seen := seen + [items[j]];
      }
      FlattenStep(blocks, i, |items|);
    }
    entriesByHash := Some(entries);
  }

  lemma NoBlocks()
    ensures Flatten([]) == []
  {
  }

  lemma BadItem(c: Codec, q: Request, seen: seq<Item>, item: Item)
    requires !ItemOk(c, q, item)
    ensures !Consistent(c, q, seen + [item])
  {
    assert (seen + [item])[|seen|] == item;
  }

  // ---- the normaliser ----

  /** A consistent proof of two transactions holds exactly the requested pair. */
  lemma PairSelected(c: Codec, q: Request, entries: map<string, Entry>)
    requires HashesOk(q) && BlocksOk(q.proof) && Consistent(c, q, Flatten(q.proof.merkleProofs))
    requires Records(c, q, Flatten(q.proof.merkleProofs), entries) && |entries| == RETRY_BATCH_SIZE
    ensures Lower(q.failedHash) in entries && Lower(q.successfulHash) in entries
    ensures Selects(c, q, entries[Lower(q.failedHash)], entries[Lower(q.successfulHash)])
  {
    hide Decode, IsHexText, Lower, BlocksOk;
    var items := Flatten(q.proof.merkleProofs);
    assert items == [items[0], items[1]];
    assert ItemOk(c, q, items[0]) && ItemOk(c, q, items[1]);
    var h0, h1 := Lower(items[0].raw.txHash), Lower(items[1].raw.txHash);
    assert h0 != h1;
    if h0 == Lower(q.failedHash) {
      assert SelectsItems(c, q, items[0], items[1], entries[h0], entries[h1]);
    } else {
      assert multiset(items) == multiset{items[1], items[0]};
      assert SelectsItems(c, q, items[1], items[0], entries[h1], entries[h0]);
    }
  }

  /** And only such a proof selects a pair at all. */
  lemma SelectedIsConsistent(c: Codec, q: Request, failed: Entry, successful: Entry)
    requires HashesOk(q) && Selects(c, q, failed, successful)
    ensures Consistent(c, q, Flatten(q.proof.merkleProofs)) && |Flatten(q.proof.merkleProofs)| == RETRY_BATCH_SIZE
  {
    hide Decode, IsHexText, Lower, BlocksOk, Flatten;
    var items := Flatten(q.proof.merkleProofs);
    var f, s :| SelectsItems(c, q, f, s, failed, successful);
    TwoItems(items, f, s);
    assert ItemOk(c, q, f) && ItemOk(c, q, s);
    assert Lower(f.raw.txHash) != Lower(s.raw.txHash);
  }

  lemma TwoItems(items: seq<Item>, f: Item, s: Item)
    requires multiset(items) == multiset{f, s}
    ensures items == [f, s] || items == [s, f]
  {
    assert |items| == |multiset(items)| == 2;
    assert items == [items[0], items[1]];
    assert items[0] in multiset{f, s};
    CancelOne(multiset{items[1]}, multiset{if items[0] == f then s else f}, items[0]);
    assert items[1] in multiset{items[1]};
  }

  /** One pair at most: the selected entries are determined by the bag of transactions alone. */
  lemma SelectionIsUnique(c: Codec, p: Request, q: Request, f0: Entry, s0: Entry, f1: Entry, s1: Entry)
    requires HashesOk(p) && p.failedHash == q.failedHash && p.successfulHash == q.successfulHash
    requires p.expectedSourceChainId == q.expectedSourceChainId
    requires multiset(Flatten(p.proof.merkleProofs)) == multiset(Flatten(q.proof.merkleProofs))
    requires Selects(c, p, f0, s0) && Selects(c, q, f1, s1)
    ensures f0 == f1 && s0 == s1
  {
    hide Decode, IsHexText, Lower, BlocksOk, Flatten;
    var a, b :| SelectsItems(c, p, a, b, f0, s0);
    var d, e :| SelectsItems(c, q, d, e, f1, s1);
    assert a in multiset{d, e} && b in multiset{d, e};
    assert a != b;
  }

  method NormalizeUniswapRetryCreditBatchProof(c: Codec, q: Request) returns (r: Result<Normalized, BatchError>)
    ensures Normalizes(c, q, r)
  {
    hide Consistent, Records, Flatten, Relationship, NormalizeRule, IsHexText, Lower, Selects;
    if !HashesOk(q) {
      return Err(BatchProofInvalid);
    }
    var rule := NormalizeRule(q.rule);
    if rule.None? {
      return Err(InvalidRetryCreditRule);
    }
    if !HeaderOk(q) {
      return Err(BatchProofInvalid);
    }
    var entriesByHash := CollectEntries(c, q);
    if entriesByHash.None? || |entriesByHash.value| != RETRY_BATCH_SIZE {
      forall f, s | Selects(c, q, f, s) ensures false {
        SelectedBlocks(c, q, f, s);
        SelectedIsConsistent(c, q, f, s);
        if entriesByHash.Some? { RecordedCount(c, q, entriesByHash.value); }
      }
      return Err(BatchProofInvalid);
    }
    PairSelected(c, q, entriesByHash.value);
    if !ContinuityOk(q.proof.continuityProof) {
      return Err(BatchProofInvalid);
    }
    var failed := entriesByHash.value[Lower(q.failedHash)];
    var successful := entriesByHash.value[Lower(q.successfulHash)];
    var amountOut := ValidateRelationship(c, failed, successful, rule.value, q.expectedSourceChainId);
    if amountOut.None? {
      forall f, s | Selects(c, q, f, s) ensures f == failed && s == successful {
        SelectionIsUnique(c, q, q, f, s, failed, successful);
      }
      return Err(BatchProofInvalid);
    }
    r := Ok(Normalized(q.proof.fromHeader, q.proof.toHeader, failed, successful, amountOut.value,
                       q.proof.continuityProof));
  }

  lemma SelectedBlocks(c: Codec, q: Request, f: Entry, s: Entry)
    requires Selects(c, q, f, s)
    ensures BlocksOk(q.proof)
  {
  }

  lemma RecordedCount(c: Codec, q: Request, entries: map<string, Entry>)
    requires Records(c, q, Flatten(q.proof.merkleProofs), entries)
    ensures |entries| == |Flatten(q.proof.merkleProofs)|
  {
  }

  // ---- independence of iteration order ----

  /** The proof as bags: which transactions are filed under each outer key, in no order. */
  function Bags(blocks: seq<Block>): (r: seq<(int, multiset<(int, RawEntry)>)>)
    ensures |r| == |blocks|
    ensures forall i | 0 <= i < |r| :: r[i] == (blocks[i].number, multiset(blocks[i].entries))
  {
    seq(|blocks|, i requires 0 <= i < |blocks| => (blocks[i].number, multiset(blocks[i].entries)))
  }

  lemma {:induction false} ItemCount(b: Block, x: Item)
    ensures multiset(Items(b))[x] == if x.block == b.number then multiset(b.entries)[(x.index, x.raw)] else 0
    decreases |b.entries|
  {
    if b.entries != [] {
      var n := |b.entries| - 1;
      var init := Block(b.number, b.entries[..n]);
      ItemCount(init, x);
      assert b.entries == init.entries + [b.entries[n]];
      assert Items(b) == Items(init) + [Item(b.number, b.entries[n].0, b.entries[n].1)];
    }
  }

  lemma ItemBag(a: Block, b: Block)
    requires a.number == b.number && multiset(a.entries) == multiset(b.entries)
    ensures multiset(Items(a)) == multiset(Items(b))
  {
    hide Items;
    forall x: Item ensures multiset(Items(a))[x] == multiset(Items(b))[x] {
      ItemCount(a, x);
      ItemCount(b, x);
    }
  }

  lemma FlattenLast(blocks: seq<Block>, last: Block)
    ensures Flatten(blocks + [last]) == Flatten(blocks) + Items(last)
  {
    assert (blocks + [last])[..|blocks|] == blocks;
  }

  lemma {:induction false} FlattenDrop(blocks: seq<Block>, k: nat)
    requires k < |blocks|
    ensures multiset(Flatten(blocks)) == multiset(Flatten(Drop(blocks, k))) + multiset(Items(blocks[k]))
  {
    hide Items, Flatten;
    var n := |blocks| - 1;
    assert blocks == blocks[..n] + [blocks[n]];
    FlattenLast(blocks[..n], blocks[n]);
    if k < n {
      FlattenDrop(blocks[..n], k);
      assert Drop(blocks, k) == Drop(blocks[..n], k) + [blocks[n]];
      FlattenLast(Drop(blocks[..n], k), blocks[n]);
    } else {
      assert Drop(blocks, k) == blocks[..n];
    }
  }

  lemma BagsDrop(blocks: seq<Block>, k: nat)
    requires k < |blocks|
    ensures Bags(Drop(blocks, k)) == Drop(Bags(blocks), k)
  {
    hide Items, Flatten;
    forall i | 0 <= i < |blocks| - 1 ensures Bags(Drop(blocks, k))[i] == Drop(Bags(blocks), k)[i] {
      assert Drop(blocks, k)[i] == if i < k then blocks[i] else blocks[i + 1];
    }
  }

  lemma DropBlock(blocks: seq<Block>, k: nat)
    requires k < |blocks|
    ensures multiset(Bags(blocks)) == multiset(Bags(Drop(blocks, k))) + multiset{Bags(blocks)[k]}
    ensures multiset(Flatten(blocks)) == multiset(Flatten(Drop(blocks, k))) + multiset(Items(blocks[k]))
  {
    hide Items, Flatten, Bags, Drop;
    BagsDrop(blocks, k);
    DropBag(Bags(blocks), k);
    FlattenDrop(blocks, k);
  }

  lemma MatchingBlock(a: seq<Block>, b: seq<Block>) returns (k: nat)
    requires a != [] && multiset(Bags(a)) == multiset(Bags(b))
    ensures |a| == |b| && k < |b| && Bags(a)[|a| - 1] == Bags(b)[k]
    ensures a[|a| - 1].number == b[k].number && multiset(a[|a| - 1].entries) == multiset(b[k].entries)
  {
    assert |a| == |multiset(Bags(a))| == |multiset(Bags(b))| == |b|;
    assert Bags(a)[|a| - 1] in multiset(Bags(b));
    k :| 0 <= k < |b| && Bags(b)[k] == Bags(a)[|a| - 1];
  }

  /** Reordering the outer map and the inner maps leaves the bag of transactions. */
  lemma {:induction false} FlattenBags(a: seq<Block>, b: seq<Block>)
    requires multiset(Bags(a)) == multiset(Bags(b))
    ensures multiset(Flatten(a)) == multiset(Flatten(b))
    decreases |a|
  {
    hide Items, Flatten, Bags;
    if a != [] {
      var n := |a| - 1;
      var k := MatchingBlock(a, b);
      DropBlock(a, n);
      DropBlock(b, k);
      CancelOne(multiset(Bags(Drop(a, n))), multiset(Bags(Drop(b, k))), Bags(a)[n]);
      FlattenBags(Drop(a, n), Drop(b, k));
      ItemBag(a[n], b[k]);
    } else {
      assert |b| == |multiset(Bags(b))| == |multiset(Bags(a))| == 0;
      assert b == a;
    }
  }

  lemma BlocksReordered(p: Proof, q: Proof)
    requires multiset(Bags(p.merkleProofs)) == multiset(Bags(q.merkleProofs))
    requires p.fromHeader == q.fromHeader && p.toHeader == q.toHeader && BlocksOk(p)
    ensures BlocksOk(q)
  {
    var a, b := p.merkleProofs, q.merkleProofs;
    forall i | 0 <= i < |b| ensures BlockOk(q, b[i]) {
      assert Bags(b)[i] in multiset(Bags(a));
      var k :| 0 <= k < |a| && Bags(a)[k] == Bags(b)[i];
      assert BlockOk(p, a[k]);
    }
  }

  lemma SelectsReordered(c: Codec, p: Request, q: Request, f: Entry, s: Entry)
    requires q == p.(proof := p.proof.(merkleProofs := q.proof.merkleProofs))
    requires multiset(Bags(p.proof.merkleProofs)) == multiset(Bags(q.proof.merkleProofs))
    requires Selects(c, p, f, s)
    ensures Selects(c, q, f, s)
  {
    hide Decode, IsHexText, Lower, Flatten, Bags, BlocksOk;
    FlattenBags(p.proof.merkleProofs, q.proof.merkleProofs);
    BlocksReordered(p.proof, q.proof);
    var a, b :| SelectsItems(c, p, a, b, f, s);
    assert SelectsItems(c, q, a, b, f, s);
  }

  /** The reply, accepted or not, is the same for every iteration order of the outer and inner maps. */
  lemma OrderDoesNotMatter(c: Codec, p: Request, q: Request,
                           r0: Result<Normalized, BatchError>, r1: Result<Normalized, BatchError>)
    requires q == p.(proof := p.proof.(merkleProofs := q.proof.merkleProofs))
    requires multiset(Bags(p.proof.merkleProofs)) == multiset(Bags(q.proof.merkleProofs))
    requires Normalizes(c, p, r0) && Normalizes(c, q, r1)
    ensures r0 == r1
  {
    hide Decode, IsHexText, Lower, Flatten, Bags, BlocksOk, Selects, Relationship, NormalizeRule, ContinuityOk;
    FlattenBags(p.proof.merkleProofs, q.proof.merkleProofs);
    forall f, s ensures Selects(c, p, f, s) <==> Selects(c, q, f, s) {
      if Selects(c, p, f, s) { SelectsReordered(c, p, q, f, s); }
      if Selects(c, q, f, s) { SelectsReordered(c, q, p, f, s); }
    }
    if r0.Ok? && r1.Ok? {
      SelectionIsUnique(c, p, q, r0.value.failed, r0.value.successful, r1.value.failed, r1.value.successful);
    }
  }

  // ---- what acceptance means ----

  /** Acceptance pins the proof down: two transactions, the requested ones, filed inside the shared range,
      failure before retry and both inside the rule's window; a reverted transaction without logs that stopped
      short of its gas limit and a successful one, from the trader to the router; the same route but for the
      quote, the nonce, a deadline not earlier and the minimum; and the minimum the rule funds, the refreshed
      minimum, the output and the stale minimum are ordered. */
  lemma AcceptedPair(c: Codec, q: Request, n: Normalized)
    requires Normalizes(c, q, Ok(n))
    ensures |Flatten(q.proof.merkleProofs)| == 2
    ensures multiset{n.failed.transactionHash, n.successful.transactionHash} ==
            multiset{Lower(Flatten(q.proof.merkleProofs)[0].raw.txHash),
                     Lower(Flatten(q.proof.merkleProofs)[1].raw.txHash)}
    ensures n.failed.transactionHash == Lower(q.failedHash) != Lower(q.successfulHash) == n.successful.transactionHash
    ensures n.fromHeader <= n.failed.sourceBlock < n.successful.sourceBlock <= n.toHeader
    ensures q.rule.startBlock <= n.failed.sourceBlock
            && n.successful.sourceBlock <= q.rule.endBlock
            && n.successful.sourceBlock - n.failed.sourceBlock <= q.rule.maxBlockGap
    ensures NormalizeRule(q.rule).Some?
    ensures var f, s := n.failed.attempt.metadata, n.successful.attempt.metadata;
            && f.receiptStatus == 0 && s.receiptStatus == 1 && |n.failed.attempt.receiptLogs| == 0
            && f.sender == q.rule.trader && s.sender == q.rule.trader
            && f.target == Some(q.rule.router) && s.target == Some(q.rule.router)
            && f.nonce < s.nonce && f.calldataHash != s.calldataHash
            && q.rule.minimumAttemptGasLimit <= f.gasLimit && q.rule.minimumAttemptGasLimit <= s.gasLimit
            && f.receiptGasUsed <= q.rule.maxFailureGasUsed < f.gasLimit
    ensures var f, s := n.failed.attempt.route, n.successful.attempt.route;
            && s == f.(data := 2, nonce := s.nonce, deadline := s.deadline, amountOutMinimum := s.amountOutMinimum)
            && f.data == 1 && f.nonce != s.nonce && f.deadline <= s.deadline
            && f.sourceChainId == SOURCE_CHAIN_ID && f.routeSigner == q.rule.routeSigner
            && f.amountIn == q.rule.amountIn && f.intent == c.intent(NormalizeRule(q.rule).value)
            && f.recipient == q.rule.beneficiary.GetOr(MSG_SENDER_RECIPIENT)
    ensures q.rule.minimumSuccessfulOut <= n.successful.attempt.route.amountOutMinimum <= n.amountOut
            < n.failed.attempt.route.amountOutMinimum
  {
    hide Decode, IsHexText, Lower, Flatten, Settlement;
    assert Selects(c, q, n.failed, n.successful);
    SelectedPlaces(c, q, n.failed, n.successful);
    AcceptedAttempts(c, q, n);
  }

  lemma {:induction false} FlattenPlaces(p: Proof, blocks: seq<Block>)
    requires forall i | 0 <= i < |blocks| :: BlockOk(p, blocks[i])
    ensures forall k | 0 <= k < |Flatten(blocks)| :: p.fromHeader <= Flatten(blocks)[k].block <= p.toHeader
  {
    if blocks != [] {
      FlattenPlaces(p, blocks[..|blocks| - 1]);
      assert BlockOk(p, blocks[|blocks| - 1]);
    }
  }

  lemma SelectedPlaces(c: Codec, q: Request, failed: Entry, successful: Entry)
    requires HashesOk(q) && Selects(c, q, failed, successful)
    ensures var items := Flatten(q.proof.merkleProofs);
            && |items| == 2
            && multiset{failed.transactionHash, successful.transactionHash} ==
               multiset{Lower(items[0].raw.txHash), Lower(items[1].raw.txHash)}
            && q.proof.fromHeader <= failed.sourceBlock <= q.proof.toHeader
            && q.proof.fromHeader <= successful.sourceBlock <= q.proof.toHeader
  {
    hide IsHexText, Lower, Flatten;
    var items := Flatten(q.proof.merkleProofs);
    FlattenPlaces(q.proof, q.proof.merkleProofs);
    SelectedIsConsistent(c, q, failed, successful);
    var f, s :| SelectsItems(c, q, f, s, failed, successful);
    assert items == [items[0], items[1]];
    assert f in multiset(items) && s in multiset(items);
  }

  lemma AcceptedAttempts(c: Codec, q: Request, n: Normalized)
    requires Normalizes(c, q, Ok(n))
    ensures q.rule.startBlock <= n.failed.sourceBlock < n.successful.sourceBlock <= q.rule.endBlock
            && n.successful.sourceBlock - n.failed.sourceBlock <= q.rule.maxBlockGap
    ensures NormalizeRule(q.rule).Some?
    ensures var f, s := n.failed.attempt.metadata, n.successful.attempt.metadata;
            && f.receiptStatus == 0 && s.receiptStatus == 1 && |n.failed.attempt.receiptLogs| == 0
            && f.sender == q.rule.trader && s.sender == q.rule.trader
            && f.target == Some(q.rule.router) && s.target == Some(q.rule.router)
            && f.nonce < s.nonce && f.calldataHash != s.calldataHash
            && q.rule.minimumAttemptGasLimit <= f.gasLimit && q.rule.minimumAttemptGasLimit <= s.gasLimit
            && f.receiptGasUsed <= q.rule.maxFailureGasUsed < f.gasLimit
    ensures var f, s := n.failed.attempt.route, n.successful.attempt.route;
            && s == f.(data := 2, nonce := s.nonce, deadline := s.deadline, amountOutMinimum := s.amountOutMinimum)
            && f.data == 1 && f.nonce != s.nonce && f.deadline <= s.deadline
            && f.sourceChainId == SOURCE_CHAIN_ID && f.routeSigner == q.rule.routeSigner
            && f.amountIn == q.rule.amountIn && f.intent == c.intent(NormalizeRule(q.rule).value)
            && f.recipient == q.rule.beneficiary.GetOr(MSG_SENDER_RECIPIENT)
    ensures q.rule.minimumSuccessfulOut <= n.successful.attempt.route.amountOutMinimum <= n.amountOut
            < n.failed.attempt.route.amountOutMinimum
  {
    hide Selects, Swaps, PoolTransfers, IsHexText, Lower;
  }

  /** And the USDC counted out of the pool is exactly that output, all of it to the rule's recipient. */
  lemma AcceptedOutput(c: Codec, q: Request, n: Normalized)
    requires Normalizes(c, q, Ok(n))
    ensures var rule, logs := NormalizeRule(q.rule).value, n.successful.attempt.receiptLogs;
            && NormalizeRule(q.rule).Some?
            && SwappedOut(c, rule, logs) == n.amountOut == TransferredOut(c, rule, logs)
            && forall k | 0 <= k < |logs| && IsPoolTransfer(c, rule, logs[k]) :: logs[k].topics[2] == Recipient(rule)
  {
    hide Selects, NormalizeRule, Settlement;
    var rule := NormalizeRule(q.rule).value;
    SettlementConserves(c, rule, n.successful.attempt.route.amountOutMinimum, n.successful.attempt.receiptLogs);
  }

  // ---- re-validation ----

  /** A normalised rule is its own normal form. */
  lemma RuleIsCanonical(rule: Rule)
    requires NormalizeRule(rule).Some?
    ensures NormalizeRule(NormalizeRule(rule).value) == NormalizeRule(rule)
  {
    LowerIsCanonical(rule.policyId, 64);
    LowerIsCanonical(rule.actionId, 64);
  }

  /** An accepted pair passes the later validation against the rule, raw or normalised, on the fixed
      source chain, with the same output. */
  lemma RevalidationAccepts(c: Codec, q: Request, n: Normalized)
    requires Normalizes(c, q, Ok(n))
    ensures NormalizeRule(q.rule).Some?
    ensures var rule := NormalizeRule(q.rule).value;
            && NormalizeRule(rule) == Some(rule)
            && Relationship(c, n.failed, n.successful, rule, SOURCE_CHAIN_ID) == Some(n.amountOut)
  {
    hide Selects, NormalizeRule, Relationship;
    RuleIsCanonical(q.rule);
  }
}
