# RetryCredit service models

RetryCredit recovers the cost of a failed swap that was retried: a sponsor-funded helper relays one
settlement transaction per source wallet, a public edge serves bounded reads, and a proof worker turns a
block-chain batch proof into a normalised pair of attempts. The modules here model the parts of that
system whose state has to survive interleaving, restarts and clocks, and prove what those parts are for.
Addresses, 256-bit numbers and 32-byte words are represented by their values; hashes, addresses and times
that the code normalises as text are text.

| files | subject |
|---|---|
| `LedgerPolicy`, `LedgerModel`, `Ledger`, `LedgerHistory`, `LedgerSafety`, `LedgerWitness`, `LedgerBudget`, `LedgerProgress`, `LedgerClient`, `LedgerLaws`, `LedgerAnswers`, `LedgerCallerLaws` | the helper spending ledger: a durable object over one policy row and a table of operations, and the caller that re-validates its replies |
| `Consent`, `Base64Url`, `FreshRead`, `FreshReadRuns`, `FreshReadCapacity`, `FreshReadLaws` | the signed texts, the base64url form, and the gate that admits a signed fresh read once and at a minimum interval |
| `ObservationIdentity`, `ObservationCache`, `ObservationRuns`, `ObservationReplies`, `ObservationProgress`, `ObservationLaws` | the leased provider observation shared by any number of object instances, each with its own configuration |
| `ExpiringCache`, `BatchProof`, `BatchLaws` | the proof worker's LRU cache and its two-transaction batch normaliser |
| `Sorting`, `ImmutableRanges`, `RangeLaws` | canonical form and disjointness of immutable byte ranges in the artifact generator |
| `StartupErrors`, `StartupLifecycle`, `StartupLaws`, `LiveObserver`, `ObserverLaws` | the two timer-driven lifecycles |
| `Wrappers`, `Numbers`, `Text`, `TextLaws` | options, results, integer bounds, hex, decimal and line-separated text |

Code that changes state is a class whose methods are proved equal to a step function on values; the
theorems are about runs of those step functions. What each operation answers and leaves is also stated
apart from its step function, in the modules whose names end in `Laws` and in `LedgerAnswers`: over the raw
inputs, with conditions of their own and in both directions, so that a step function that skipped a check or
answered otherwise would contradict them. A run is a sequence of steps in the order in which their
transactions or callbacks take effect, so it covers every interleaving of calls: everything a call does
before its transaction reads no stored state, or is a separate step. Clocks, random tokens, enable flags,
storage failures and the outcomes of network calls are inputs of a step and are unconstrained unless a
theorem says otherwise.

Five promises of the code hold under a condition:

* The ledger re-checks `updated_at >= created_at` on every row, so its invariant depends on the clock. A
  state of a run satisfies the invariant if and only if every earlier call that changed the tables stored a
  reading that is positive, a safe integer and not before the creation of the row it addressed
  (`LedgerSafety.InvariantIffInOrder`); calls that only read or fail may carry any reading. The first call
  out of order freezes the tables, and every later valid call is an error
  (`LedgerSafety.OutOfOrderFreezes`). `LedgerWitness.BackwardClockBreaksLedger` is such a run, for
  any digests: a reservation at 1000 and its abandonment at 999, both answered as successes.
* A caller of the observation cache that joins a flight after it has decided and before it is cleared gets
  its answer without an expiry comparison. The answer is unexpired at the caller's reading if and only if
  that reading is before a time to live after the deciding commit, or before the expiry of the stored
  snapshot that decided (`ObservationReplies.AnswerIsFreshIff`); `ClearedInTimeIff` says how soon the flight
  must be cleared so that nobody gets an expired success, and `LateJoinerIsStale` is a run in which one does.
* An instance of the observation cache accepts any identity of up to 8192 characters and stores it wrapped as
  JSON text, but a stored identity of more than 8320 characters is refused by everyone. A lease is accepted at
  the readings not before it if and only if the wrapped identity fits (`ObservationCache.LeaseAcceptedIff`),
  which is whether the characters its escapes add fit the slack (`ObservationIdentity.StorableIff`). The first
  lease of an identity that does not fit freezes the key: no instance of any configuration ever writes it
  again, and every flight decided afterwards answers unavailable (`ObservationRuns.OverlongLeaseIsFinal`).
  8192 double quotes are such an identity (`ObservationRuns.QuotesFreezeKey`).
* The provider budget holds for one identity while no other identity is granted a lease on the same key: a
  foreign record is treated as an empty one, so after another identity's lease the first one is granted a new
  lease at once, and a late commit can replace it (`ObservationRuns.AnotherIdentityResetsBudget`).
* A signed text with plain fields, which hold no newline, belongs to one challenge only, plain or not
  (`Consent.OwnerInjective`, `Consent.HelperInjective`). Two challenges that both hold newlines can share a
  text (`Consent.NewlineBreaksInjectivity`). The services normalise every field to plain text first, which
  replay safety uses.

## Model

| member | source | states |
|---|---|---|
| `LedgerPolicy.HashIsCanonical` | src/helper-ledger-policy.mjs:27-30 | a normalised hash is accepted again and left unchanged |
| `LedgerPolicy.AddressIsCanonical` | src/helper-ledger-policy.mjs:32-37 | a normalised address is nonzero, accepted again and left unchanged |
| `LedgerPolicy.NormalizePolicyIsCanonical` | src/helper-ledger-policy.mjs:52-81 | an accepted policy is a fixed point of its normalisation, so the comparison of two policies compares what they mean |
| `LedgerPolicy.PairIsCanonical` | src/helper-ledger-policy.mjs:92-100 | a normalised pair of distinct transaction hashes normalises to itself |
| `LedgerPolicy.ReservationIsCanonical` | src/helper-ledger-policy.mjs:113-130 | a normalised reservation passes every check again unchanged, including its operation identity; this is why stored rows can be re-validated as requests |
| `LedgerPolicy.AtomIdentifiesCampaign` | src/helper-ledger-policy.mjs:86-90 | two identities address the same durable object if and only if chain, pool (case aside) and campaign agree, so no relayer or limit change resets the spending |
| `LedgerLaws.AddressIs` | src/helper-ledger-policy.mjs:32-37 | an address is accepted exactly when it is 40 hex digits, not all zero, and is then its lower case |
| `LedgerLaws.PolicyIs` | src/helper-ledger-policy.mjs:52-81 | a policy is accepted exactly when its identity and every limit are in their stated ranges, and is then itself with lower-case addresses |
| `LedgerLaws.AtomIs` | src/helper-ledger-policy.mjs:86-90 | the object name is the prefix, the chain, the pool in lower case and the campaign, joined by colons |
| `LedgerAnswers.ReservationIs` | src/helper-ledger-policy.mjs:92-130 | a reservation passes exactly when its texts, wallets, mode and fee are sound and its operation identity is the one of chain, pool, campaign, source and pair, and is then itself in lower case |
| `Ledger.HelperSpendingLedger.constructor` | src/helper-ledger-worker.mjs:56-73 | a new object's tables exist and are empty |
| `Ledger.HelperSpendingLedger.CheckedState` | src/helper-ledger-worker.mjs:91-137 | the accumulating loop reports exactly the declarative check: every row sound, fee sum, row counts, at most one active row and the pointer on it, within the limits |
| `Ledger.HelperSpendingLedger.ReserveTransaction` | src/helper-ledger-worker.mjs:152-188 | the whole new state and reply of a reservation, in the order of its refusals, with the UNIQUE constraints as an outcome |
| `Ledger.HelperSpendingLedger.PrepareTransaction` | src/helper-ledger-worker.mjs:246-276 | the whole new state and reply of a broadcast preparation, including the idempotent repeat that grants nothing |
| `Ledger.HelperSpendingLedger.Stop` | src/helper-ledger-worker.mjs:320-327 | stopping an admitted row, clearing the pointer, and the repeat that changes nothing |
| `Ledger.HelperSpendingLedger.FailTransaction` | src/helper-ledger-worker.mjs:293-305 | a permit holder's stop, refused without the permit |
| `Ledger.HelperSpendingLedger.AbandonTransaction` | src/helper-ledger-worker.mjs:309-318 | an operator's stop, without a permit |
| `Ledger.HelperSpendingLedger.CompleteTransaction` | src/helper-ledger-worker.mjs:332-353 | recording a receipt once, only for the recorded hash, and the idempotent repeat |
| `Ledger.HelperSpendingLedger.Dispatch` | src/helper-ledger-worker.mjs:78-87 | one call of any kind: arrival checks, then its transaction; the four reads change nothing |
| `LedgerLaws.PolicyAnswer` | src/helper-ledger-worker.mjs:139-145 | any answer other than an error comes from a call whose configured and received policies are valid and one and the same; an invalid configuration, an invalid received policy and a different one are each named and change nothing |
| `LedgerLaws.StoredPolicyOrigin` | src/helper-ledger-worker.mjs:139-187 | in every run the stored policy is the configured policy of the first call that created an operation |
| `LedgerLaws.ConfiguredLimitsBound` | src/helper-ledger-worker.mjs:139-187 | in every run, at every call not answered with an error, the broadcasts granted so far are at most the operations created, and these fit the attempts, the payouts and the total fee configured for that very call |
| `LedgerLaws.ConstraintsHold` | src/helper-ledger-worker.mjs:59-73 | operation, source, hashes, transaction and nonce stay unique in every run, whatever the clock, which the answers below rely on |
| `LedgerAnswers.TableErrorIs` | src/helper-ledger-worker.mjs:91-137 | the stored tables pass exactly when every row is sound, shaped by its state, and the totals and the pointer are those of the rows; otherwise which error they cause |
| `LedgerAnswers.ReserveAnswer` | src/helper-ledger-worker.mjs:147-188 | every answer to a reservation and the tables it leaves, from the flag, the two readings, the request and the rows: disabled, expired, invalid, wrong fee, repeated, source taken, busy, budget, or one new admitted row with the totals one further |
| `LedgerAnswers.PrepareAnswer` | src/helper-ledger-worker.mjs:246-291 | every answer to a broadcast preparation: it is granted exactly to the holder of the row's token, for an admitted row, an enabled unexpired ledger, the fee cap and a nonce above all recorded ones with a new hash, and records just that |
| `LedgerAnswers.FailAnswer` | src/helper-ledger-worker.mjs:293-327 | a worker's stop needs a listed reason and the row's own token and records that very reason |
| `LedgerAnswers.AbandonAnswer` | src/helper-ledger-worker.mjs:309-327 | an operator's stop needs no token and records that an operator abandoned the operation |
| `LedgerAnswers.CompleteAnswer` | src/helper-ledger-worker.mjs:332-353 | a receipt is recorded once, as settled or reverted by its status, for the row that carries its transaction; the same receipt is shown again and anything else is a conflict |
| `LedgerAnswers.ReadAnswer` | src/helper-ledger-worker.mjs:190-242 | reads by operation and by source show the row with all its fields exactly when there is one, and change nothing |
| `LedgerAnswers.InspectAnswer` | src/helper-ledger-worker.mjs:204-221 | the reported totals are those of the rows, the active operation is the unresolved one, and enabled means that the flag is set and the expiry has not come |
| `LedgerHistory.StepEvolves` | src/helper-ledger-worker.mjs:152-353 | a step never removes a row, changes who or what a row is for, or moves a row backwards, and an error changes nothing |
| `LedgerHistory.RunEvolves` | src/helper-ledger-worker.mjs:152-353 | the same from any state of a run to any later one, for every clock and every sequence of configured policies |
| `LedgerHistory.AnswerFacts` | src/helper-ledger-worker.mjs:159-327 | what a created, granted or stopped answer says about the row before and after it |
| `LedgerHistory.CreatedOnce` | src/helper-ledger-worker.mjs:159-187 | at most one created answer per operation in any run, so at most one permit token |
| `LedgerHistory.GrantsAreOrdered` | src/helper-ledger-worker.mjs:256-275 | of two broadcast permissions in a run, the operations differ, the later nonce is larger and the transaction hashes differ |
| `LedgerHistory.NeverGrantedAndStopped` | src/helper-ledger-worker.mjs:256-327 | no operation is both granted broadcast and answered as stopped, in either order |
| `LedgerHistory.RecordedBroadcastStays` | src/helper-ledger-worker.mjs:272-352 | the nonce and hash of a granted broadcast are those of every later state |
| `LedgerHistory.RowOrigin` | src/helper-ledger-worker.mjs:157-187 | every stored row was written by one earlier created answer, and holds the digest of the token that answer handed out |
| `LedgerHistory.GrantNeedsIssuedPermit` | src/helper-ledger-worker.mjs:255-291 | a broadcast is granted only to a token that digests like the one the operation's created answer handed out |
| `LedgerSafety.CheckedIffTimes` | src/helper-ledger-worker.mjs:91-137 | a state with a sound core passes the check if and only if its row times are sound |
| `LedgerSafety.StepKeepsCore` | src/helper-ledger-worker.mjs:91-353 | from a sound state, no step reports invalid state or trips a UNIQUE constraint, and the new state's text, shapes, totals, pointer and uniqueness are sound whatever the clock says |
| `LedgerSafety.WrittenRow` | src/helper-ledger-worker.mjs:174-351 | a step that changes the tables writes exactly one row, the addressed one or a new one, stamped with its reading, and leaves all others |
| `LedgerSafety.ClockCondition` | src/helper-ledger-worker.mjs:114-116 | the state a mutating step leaves satisfies the invariant, and passes its own check, if and only if the stored reading is positive, safe and not before the addressed row's creation |
| `LedgerSafety.BrokenStateIsFrozen` | src/helper-ledger-worker.mjs:91-137 | a state that fails the check is never changed again and every validated call reports an error |
| `LedgerSafety.Reachable` | src/helper-ledger-worker.mjs:91-353 | every state of a run whose changes were in order satisfies the whole invariant, whatever readings the other calls carry |
| `LedgerSafety.OutOfOrderFreezes` | src/helper-ledger-worker.mjs:91-137 | the first change out of order leaves tables that fail the check for every policy and never change again; every later valid call is an error, for the stored policy the invalid state |
| `LedgerSafety.InvariantIffInOrder` | src/helper-ledger-worker.mjs:91-353 | a state of a run satisfies the invariant if and only if every change before it was in order |
| `LedgerSafety.SteadyIsInOrder` | src/helper-ledger-worker.mjs:114-116 | a clock that stays positive and safe and does not go back between two changes keeps every run in order |
| `LedgerWitness.BackwardClockBreaksLedger` | src/helper-ledger-worker.mjs:91-353 | whatever the digests are, a reservation at 1000 and its abandonment at 999 under one policy are both answered as successes, and every valid call after them is an error |
| `LedgerSafety.NoInternalFailure` | src/helper-ledger-worker.mjs:59-137 | no call reports invalid state or an SQL failure while the changes before it were in order; its own reading may be anything |
| `LedgerSafety.OneUnresolved` | src/helper-ledger-worker.mjs:128-134 | a row is unresolved if and only if the policy row points at it, so at most one is |
| `LedgerBudget.CheckedTotals` | src/helper-ledger-worker.mjs:101-134 | in a checked state the reserved fee is the number of rows times the fee cap, within the total |
| `LedgerBudget.BudgetIsCap` | src/helper-ledger-policy.mjs:62-76 | the three budget comparisons together compare the row count with one cap, the least of attempts, payouts and the quotient of the fee limits |
| `LedgerBudget.ReservationSucceedsIff` | src/helper-ledger-worker.mjs:160-187 | enabled and idle, a reservation of a fresh operation on free sources succeeds if and only if fewer rows exist than the cap, and otherwise reports the exhausted budget |
| `LedgerBudget.StepSpends` | src/helper-ledger-worker.mjs:160-350 | totals never fall, rows grow only by created answers, granted rows only by permissions, and every change lowers a measure bounded by three times the cap |
| `LedgerBudget.RunSpends` | src/helper-ledger-worker.mjs:152-353 | over every run: rows are exactly the created answers, within the cap; rows with a transaction are exactly the permissions; at most three times the cap steps change anything |
| `LedgerBudget.MoneyBound` | src/helper-ledger-worker.mjs:169-187 | while changes were in order the reserved fee is the fee cap per created answer, covers every broadcast and never exceeds the total, and the credit released by settled operations is covered by the broadcasts granted and the payouts allocated |
| `LedgerProgress.ReservedIsGrantedIff` | src/helper-ledger-worker.mjs:246-276 | at any later call, whatever ran in between, an operation presented with its own token is granted its broadcast if and only if it is still admitted, the nonce is above every recorded one and the hash is new; otherwise the answer says which failed or repeats the recorded broadcast |
| `LedgerProgress.GrantedIsCompleted` | src/helper-ledger-worker.mjs:332-353 | at any call after its grant, a receipt of the recorded transaction resolves an operation still broadcast-prepared, settled or reverted, and leaves nothing unresolved; once resolved, the same receipt is answered again, another is a conflict, and nothing changes |
| `LedgerClient.SnapshotAccepted` | src/helper-ledger-client.mjs:104-156 | the totals of every invariant state pass the caller's own arithmetic |
| `LedgerClient.AdmissionIsAccepted` | src/helper-ledger-client.mjs:104-156 | the totals and the source's row agree as the caller demands, including that a finished source beside another unresolved operation implies at least two attempts |
| `LedgerClient.ReplyShowsRow` | src/helper-ledger-worker.mjs:190-353 | the operation in a successful reply is a row of the new state |
| `LedgerClient.ReplyMatches` | src/helper-ledger-client.mjs:104-156 | and it carries the identifiers, values and resulting state of the request it answers, also on the idempotent repeats |
| `LedgerClient.CallerAccepts` | src/helper-ledger-client.mjs:82-156 | from an invariant state to an invariant state, every successful reply is accepted by the caller's independent validation |
| `LedgerClient.CallerAcceptsIff` | src/helper-ledger-client.mjs:82-156 | from an invariant state a successful reply passes the caller's validation if and only if the call changed nothing or stored a reading in order, so the caller detects a bad clock at once |
| `LedgerClient.RunIsAccepted` | src/helper-ledger-client.mjs:82-156 | over a run in order, a successful reply is accepted if and only if its own call kept the order |
| `LedgerCallerLaws.OperationIs` | src/helper-ledger-client.mjs:82-102 | the caller's check of an operation passes exactly when some sound row of its policy could show it |
| `LedgerCallerLaws.AcceptedIff` | src/helper-ledger-client.mjs:104-156 | whatever is delivered, the caller accepts a reply exactly when it has the form, the identifiers, the values and the state its own request asks for and shows only plausible operations and totals |
| `Consent.OwnerInjective` | src/recovery-consent.mjs:6-30 | an owner challenge with plain fields is the only challenge, plain or not, with its text |
| `Consent.HelperInjective` | src/recovery-helper-consent.mjs:7-27 | a helper request with plain fields is the only request, plain or not, with its text |
| `Consent.ReceiptInjective` | src/cloudflare-fresh-read-admission.mjs:400-408 | a receipt text determines the challenge text inside it, with no condition |
| `Consent.KindsAreDisjoint` | src/recovery-consent.mjs:6-30 | no owner text, helper text and receipt text ever coincide, whatever their fields hold |
| `Consent.NewlineBreaksInjectivity` | src/recovery-consent.mjs:6-30 | for any challenge, two different challenges that both hold newlines share one text, so some condition is needed |
| `Consent.OwnerTextIs` | src/recovery-consent.mjs:6-30 | the owner's text is these eleven lines, each label followed by its own field |
| `Consent.HelperTextIs` | src/recovery-helper-consent.mjs:7-27 | the helper's text is these thirteen lines, each label followed by its own field |
| `Consent.ReceiptTextIs` | src/cloudflare-fresh-read-admission.mjs:400-408 | the receipt text is four fixed lines and the challenge text |
| `TextLaws.SameHexIff` | src/cloudflare-fresh-read-admission.mjs:434-437 | two hashes have one normal form exactly when they spell the same digits, whatever their case |
| `TextLaws.DigestIs` | src/cloudflare-fresh-read-admission.mjs:170-172 | a stored key or identity is 64 hex digits without a capital |
| `TextLaws.DecimalDigit` | src/recovery-consent.mjs:6-30 | a number is printed digit by digit by its places, without a leading zero |
| `Base64Url.EncodeIsSextets` | src/cloudflare-fresh-read-admission.mjs:508-512 | padding, translating and stripping yields the unpadded alphabet text of the six-bit groups |
| `Base64Url.DecodeIsBytes` | src/cloudflare-fresh-read-admission.mjs:514-519 | decoding any text of the alphabet with a possible length succeeds and yields the bytes of its six-bit values |
| `Base64Url.DecodeEncode` | src/cloudflare-fresh-read-admission.mjs:508-519 | decoding an encoding gives back the bytes, for every byte sequence, and the encoding passes the re-encode check |
| `Base64Url.CanonicalIffSpareBitsZero` | src/cloudflare-fresh-read-admission.mjs:261-279 | the re-encode check accepts a text if and only if the bits left over by a short last group are zero |
| `Base64Url.OneTextPerValue` | src/cloudflare-fresh-read-admission.mjs:410-421 | accepted texts with the same bytes are the same text |
| `Base64Url.AlphabetIff` | src/cloudflare-fresh-read-admission.mjs:508-519 | a character is accepted exactly when it stands for one of the 64 values |
| `Base64Url.GroupsAreBits` | src/cloudflare-fresh-read-admission.mjs:508-512 | each three bytes are, most significant first, the 24 bits of their four characters, and a short last group is filled up with zero bits |
| `FreshRead.SignedFreshReadControl.constructor` | src/cloudflare-fresh-read-admission.mjs:29-67 | the control starts from whatever storage holds |
| `FreshRead.SignedFreshReadControl.LoadReceiptKey` | src/cloudflare-fresh-read-admission.mjs:149-184 | the receipt key is created once, on request, and never replaced; a missing or malformed stored key is refused |
| `FreshRead.SignedFreshReadControl.NormalizeUsed` | src/cloudflare-fresh-read-admission.mjs:359-398 | the loop accepts exactly the well-formed lists of distinct identities, and splits off exactly the expired entries |
| `FreshRead.SignedFreshReadControl.CommitAdmission` | src/cloudflare-fresh-read-admission.mjs:186-252 | the whole stored state and outcome of one admission transaction, with its refusals in order |
| `FreshRead.SignedFreshReadControl.Admit` | src/cloudflare-fresh-read-admission.mjs:91-147 | verification at one reading and the transaction at another; a failed verification changes nothing |
| `FreshReadRuns.AdmitIsStep` | src/cloudflare-fresh-read-admission.mjs:91-147 | a verified admission is a step of the run model although its replay identity was derived at an earlier reading |
| `FreshReadLaws.LegalIs` | src/cloudflare-fresh-read-admission.mjs:472-487 | which intervals, lifetimes and skews a control can be configured with |
| `FreshReadLaws.SurvivingConcat` | src/cloudflare-fresh-read-admission.mjs:388-397 | pruning goes entry by entry and keeps the order |
| `FreshReadLaws.SurvivingOne` | src/cloudflare-fresh-read-admission.mjs:389-393 | an entry stays exactly up to its expiry second |
| `FreshReadLaws.DecodedIff` | src/cloudflare-fresh-read-admission.mjs:261-293 | a text decodes exactly when it is, within the length bound, the one spelling of the JSON of a credential with a signature and a receipt of their forms |
| `FreshReadLaws.ReceiptIff` | src/cloudflare-fresh-read-admission.mjs:410-421 | a receipt is accepted as a code exactly when it is the prefix and the one spelling of that code of 32 bytes |
| `FreshReadLaws.ChallengeAnswer` | src/cloudflare-fresh-read-admission.mjs:295-357 | which challenges pass at a second, what is then signed, and which of the three refusals all others get |
| `FreshReadLaws.VerifiedIff` | src/cloudflare-fresh-read-admission.mjs:91-128 | verification passes exactly for a carried, well-formed, current credential whose receipt is the stored key's code of its receipt text and whose signature recovers to its own wallet |
| `FreshReadLaws.AdmitIff` | src/cloudflare-fresh-read-admission.mjs:91-252 | a call admits exactly when the text carries such a credential, its challenge is current at both readings, the stored gate and list are sound, the gate is open, the digest of the signed text is not remembered and there is room |
| `FreshReadLaws.VerifiedAnswer` | src/cloudflare-fresh-read-admission.mjs:186-252 | for a verified credential, the exact condition of every answer and the storage each leaves |
| `FreshReadLaws.UnverifiedAnswer` | src/cloudflare-fresh-read-admission.mjs:91-128 | anything else is refused and writes nothing: without a clock as unavailable, and a text that carries no credential of the right form as invalid |
| `FreshReadLaws.UnverifiedReason` | src/cloudflare-fresh-read-admission.mjs:91-128 | a credential of the right form that fails is refused for its fields, its times, the missing key, or because no wallet vouches for it, in this order, and nothing is written |
| `FreshReadLaws.SignedCredentialIsAdmitted` | src/cloudflare-fresh-read-admission.mjs:69-252 | end to end: a current challenge signed by its wallet, with the receipt issued for it under a stored key, is admitted by a control that has admitted nobody yet |
| `FreshReadLaws.KeyTextIs` | src/cloudflare-fresh-read-admission.mjs:500-502 | the stored key text spells its bytes, two hex digits each, and 32 bytes make an accepted key |
| `FreshReadRuns.StepFacts` | src/cloudflare-fresh-read-admission.mjs:186-252 | what an admission requires and writes; any other outcome writes at most a pruned list, and only while the gate is closed |
| `FreshReadRuns.GateAdvances` | src/cloudflare-fresh-read-admission.mjs:197-245 | the gate never moves back in any run, clocks jumping either way |
| `FreshReadRuns.AdmissionsAreSpaced` | src/cloudflare-fresh-read-admission.mjs:225-246 | any two admissions are at least the interval apart |
| `FreshReadRuns.DroppedEntry` | src/cloudflare-fresh-read-admission.mjs:209-236 | an entry a step drops had expired at its reading, and the gate is then past that reading |
| `FreshReadRuns.PrunedIsExpiredLater` | src/cloudflare-fresh-read-admission.mjs:209-246 | a dropped entry is expired at every later reading that admits, even if the clock went back meanwhile |
| `FreshReadRuns.SpentForever` | src/cloudflare-fresh-read-admission.mjs:186-252 | an admitted authorization stays remembered, or expired for every reading the gate can still admit |
| `FreshReadRuns.SpentIsRefused` | src/cloudflare-fresh-read-admission.mjs:217-223 | and such an authorization is never admitted |
| `FreshReadRuns.NoMessageAdmittedTwice` | src/cloudflare-fresh-read-admission.mjs:91-252 | no signed message is admitted twice in any run, from any starting storage, with readings that may go backwards |
| `FreshReadCapacity.FewSurvive` | src/cloudflare-fresh-read-admission.mjs:56-58 | with the gate open, at least two fewer entries survive than the list may hold |
| `FreshReadCapacity.ListFits` | src/cloudflare-fresh-read-admission.mjs:225-246 | from empty storage every reached list has admission readings an interval apart and stays below its bound |
| `FreshReadCapacity.CapacityBound` | src/cloudflare-fresh-read-admission.mjs:238-240 | at any reading with the gate open at most ceil(span / interval) - 1 entries survive, so the full-list and oversize-list refusals are unreachable |
| `FreshReadCapacity.WithinHardLimit` | src/cloudflare-fresh-read-admission.mjs:56-61 | every legal interval, lifetime and skew stays within the hard limit of 2048 entries |
| `FreshReadCapacity.StateInvalidIff` | src/cloudflare-fresh-read-admission.mjs:197-216 | a reachable list is refused as invalid if and only if the gate is no safe integer or more than an interval ahead, or an entry expires later than any current challenge could |
| `FreshReadCapacity.ForwardClockIsValid` | src/cloudflare-fresh-read-admission.mjs:197-216 | a clock that has not gone back behind a listed admission never finds the state invalid |
| `FreshReadCapacity.AdmittedIff` | src/cloudflare-fresh-read-admission.mjs:186-252 | over the reachable lists, a verified credential is admitted if and only if its challenge is current, the gate is sound and open, it was not used, and no listed entry lies further ahead than a current challenge could |
| `FreshReadCapacity.OverflowingGateIsFinal` | src/cloudflare-fresh-read-admission.mjs:197-245 | an admission writes a gate that is no safe integer exactly when its reading is within an interval of the largest one; every later call is then refused and the storage never changes again |
| `FreshReadCapacity.RetryAfterIsLeast` | src/cloudflare-fresh-read-admission.mjs:225-236 | the answered delay is the least whole second, at least one, after which the gate opens |
| `FreshReadCapacity.RetryAfterIsExact` | src/cloudflare-fresh-read-admission.mjs:186-246 | a throttled authorization is not consumed: presented again k whole seconds later, unexpired and with nothing admitted between, it is admitted if and only if k is at least the answered delay |
| `FreshReadCapacity.RetryAfterSurvives` | src/cloudflare-worker-core.mjs:450-454 | the delay of every throttled answer, printed in decimal, passes the error's own check unchanged, so the caller always sees it |
| `FreshReadCapacity.IssuedReceiptVerifies` | src/cloudflare-fresh-read-admission.mjs:69-89 | a receipt the service issued passes its own format and decodes to the code it was made from |
| `ObservationCache.RecoveryV2ObservationCache.constructor` | src/cloudflare-v2-observation-cache.mjs:24-27 | a new instance remembers nothing and has no flight |
| `ObservationCache.RecoveryV2ObservationCache.Read` | src/cloudflare-v2-observation-cache.mjs:29-47 | a read is answered from memory, joins the flight or starts one, and an unusable clock forgets the memory |
| `ObservationCache.RecoveryV2ObservationCache.AcquireLease` | src/cloudflare-v2-observation-cache.mjs:49-83 | the lease transaction on shared storage and what the instance remembers of it, also when storage fails |
| `ObservationCache.RecoveryV2ObservationCache.Observe` | src/cloudflare-v2-observation-cache.mjs:230-277 | an observation is kept only in one of its two canonical forms |
| `ObservationCache.RecoveryV2ObservationCache.CommitObservation` | src/cloudflare-v2-observation-cache.mjs:98-132 | the commit transaction: only under the unchanged lease, otherwise the lease is remembered and the answer is unavailable |
| `ObservationCache.RecoveryV2ObservationCache.Finish` | src/cloudflare-v2-observation-cache.mjs:43-46 | clearing the flight hands out its decided response and keeps the memory |
| `ObservationCache.BlockedIsUnavailable` | src/cloudflare-v2-observation-cache.mjs:248-308 | a stored failure is served as exactly the unavailable response, so every other reply is a success |
| `ObservationLaws.ObserveAnswer` | src/cloudflare-v2-observation-cache.mjs:230-277 | an observation is kept, unchanged, exactly when it is one of the two canonical responses of this service; anything else decides the flight as unavailable |
| `ObservationLaws.ReadAnswerIs` | src/cloudflare-v2-observation-cache.mjs:29-47 | when a read is answered from memory and with what, when it joins, when it starts a flight, and what it leaves |
| `ObservationLaws.StateIs` | src/cloudflare-v2-observation-cache.mjs:185-228 | which stored values a transaction goes on with, and as what |
| `ObservationLaws.LeaseAnswer` | src/cloudflare-v2-observation-cache.mjs:49-83 | when the lease is granted, what is then written, and what is decided and remembered otherwise |
| `ObservationLaws.CommitAnswer` | src/cloudflare-v2-observation-cache.mjs:98-132 | when the observation is stored and answered, and what is decided and remembered otherwise |
| `ObservationCache.LeaseAcceptedIff` | src/cloudflare-v2-observation-cache.mjs:65-228 | a written lease is accepted at a reading if and only if the reading is not before the write and the identity fits a stored record |
| `ObservationCache.CommitAcceptedIff` | src/cloudflare-v2-observation-cache.mjs:111-228 | and so is a committed snapshot |
| `ObservationIdentity.StorableIff` | src/cloudflare-v2-observation-cache.mjs:310-315 | an identity the constructor accepts fits a stored record if and only if its length plus the characters its JSON escapes add is at most 8320 less the length of the wrapping |
| `ObservationIdentity.FewEscapesAreStorable` | src/cloudflare-v2-observation-cache.mjs:310-315 | every accepted identity whose escapes add at most 72 characters fits, one without escapes in particular |
| `ObservationIdentity.QuotesAreNotStorable` | src/cloudflare-v2-observation-cache.mjs:310-315 | 8192 double quotes are accepted by the constructor and do not fit |
| `ObservationIdentity.IdentityDeterminesConfig` | src/cloudflare-v2-observation-cache.mjs:310-319 | two instances that store the same wrapped identity were given the same one and agree on time to live and revision |
| `ObservationIdentity.ConfigureIs` | src/cloudflare-v2-observation-cache.mjs:21-25 | which identities and times to live the constructor accepts, which revisions it keeps, and the text it stores: the JSON list of the version, the time to live, the revision and the identity |
| `ObservationIdentity.EscapeIs` | src/cloudflare-v2-observation-cache.mjs:310-315 | every character of the identity is escaped as JSON prescribes |
| `ObservationIdentity.EscapedConcat` | src/cloudflare-v2-observation-cache.mjs:310-315 | and the text character by character |
| `ObservationRuns.ConstructedIsDeployment` | src/cloudflare-v2-observation-cache.mjs:6-27 | instances made by the constructor are legal, and those that share a stored identity are configured alike |
| `ObservationRuns.WriteFacts` | src/cloudflare-v2-observation-cache.mjs:49-133 | storage changes only by a granted lease at or after the gate, or by a commit that found its own lease there |
| `ObservationRuns.GateAdvances` | src/cloudflare-v2-observation-cache.mjs:49-133 | an identity's next allowed probe never moves back, for any instances, evictions, failures and clocks, unless another identity is granted a lease |
| `ObservationRuns.LeasesAreSpaced` | src/cloudflare-v2-observation-cache.mjs:49-79 | any two observe calls of one identity are leased at least its time to live apart, unless another identity is granted a lease between them |
| `ObservationRuns.LeaseOrigin` | src/cloudflare-v2-observation-cache.mjs:49-133 | every observation or commit in progress was granted its lease by an earlier step of the same instance |
| `ObservationRuns.CommitNeedsItsLease` | src/cloudflare-v2-observation-cache.mjs:98-110 | a successful commit finds exactly the record its own lease wrote |
| `ObservationRuns.LateCommitFails` | src/cloudflare-v2-observation-cache.mjs:98-126 | once anything was written after a lease was granted, nothing commits under that lease, unless another identity was granted one |
| `ObservationRuns.OneCommitPerLease` | src/cloudflare-v2-observation-cache.mjs:98-126 | two successful commits of an identity belong to two different leases, unless another identity is granted a lease between them |
| `ObservationRuns.AnotherIdentityResetsBudget` | src/cloudflare-v2-observation-cache.mjs:205-212 | for any two identities that fit, a run in which one is granted two leases at the same reading around a lease of the other, and its first late commit then replaces the newer lease |
| `ObservationRuns.LeaseFreezesIff` | src/cloudflare-v2-observation-cache.mjs:185-204 | a granted lease leaves a key that every configuration refuses at every reading if and only if its identity does not fit |
| `ObservationRuns.FrozenForever` | src/cloudflare-v2-observation-cache.mjs:49-133 | such a key never changes: no instance of any configuration is granted a lease or commits, and every flight decided from then on answers unavailable |
| `ObservationRuns.OverlongLeaseIsFinal` | src/cloudflare-v2-observation-cache.mjs:49-133 | so the first lease granted to an identity that does not fit ends the service of the key for every configuration |
| `ObservationRuns.QuotesFreezeKey` | src/cloudflare-v2-observation-cache.mjs:310-315 | an instance given 8192 double quotes is legal, is granted a lease on a fresh key, and freezes it |
| `ObservationProgress.FlightCommitsIff` | src/cloudflare-v2-observation-cache.mjs:49-133 | with nobody else writing in between, a flight's observation is committed if and only if its lease came at or after the gate of a readable key, the observation is canonical, the commit reads a time not before the lease, storage worked, readings were in range and the identity fits |
| `ObservationProgress.ServedUntilExpiry` | src/cloudflare-v2-observation-cache.mjs:29-47 | the committing instance hands the committed observation to its callers and then answers a sound reading with it from memory if and only if the reading is before its expiry, starting a new flight otherwise |
| `ObservationProgress.SharedUntilExpiry` | src/cloudflare-v2-observation-cache.mjs:52-83 | any other instance of the identity whose lease transaction finds the committed success answers with it if and only if storage works and the reading is from the commit up to its expiry |
| `ObservationReplies.StoredIsLastCommit` | src/cloudflare-v2-observation-cache.mjs:49-133 | a stored snapshot is that of the last successful commit of the whole run, by any instance |
| `ObservationReplies.InstanceIsKnown` | src/cloudflare-v2-observation-cache.mjs:29-133 | the snapshot an instance remembers, and the success its flight hands out, is the last commit of the whole run as of the instance's own latest storage transaction |
| `ObservationReplies.MemoryReplyIsLast` | src/cloudflare-v2-observation-cache.mjs:29-38 | a success answered from memory is the last commit known to the instance, unexpired at the caller's own reading |
| `ObservationReplies.SuccessShowsLastCommit` | src/cloudflare-v2-observation-cache.mjs:81-133 | a success decided by a flight is the last commit of the whole run including the deciding step, unexpired at its reading; it is unexpired at any reading exactly before the deciding commit plus a time to live, or before the expiry of the stored snapshot found |
| `ObservationReplies.AnswerIsFreshIff` | src/cloudflare-v2-observation-cache.mjs:29-47 | a caller that started or joined a flight and is answered by its clearing gets a success unexpired at its own reading if and only if the reading is before that expiry |
| `ObservationReplies.EarlyCallerIsFresh` | src/cloudflare-v2-observation-cache.mjs:29-47 | a caller that found the flight undecided, with a reading not after the deciding one, always gets an unexpired success |
| `ObservationReplies.ClearedInTimeIff` | src/cloudflare-v2-observation-cache.mjs:29-47 | every caller a flight answers gets an unexpired success if and only if no caller before its deciding read that expiry or later and no read of the instance between its deciding and its clearing comes at or after it; the expiry is a full time to live after a deciding commit |
| `ObservationReplies.LateJoinerIsStale` | src/cloudflare-v2-observation-cache.mjs:29-47 | for every configuration, a run in which a caller joins a decided flight at the expiry and is answered with the expired success |
| `ObservationLaws.ObservationOrigin` | src/cloudflare-v2-observation-cache.mjs:92-97 | in every run, what a flight is about to commit is the response its own observer returned to it |
| `ObservationLaws.CommitOrigin` | src/cloudflare-v2-observation-cache.mjs:98-126 | so a commit stores the status and the observation of that response |
| `ObservationLaws.SuccessShowsObservation` | src/cloudflare-v2-observation-cache.mjs:29-133 | every success of a run, from memory or from a flight, is the 200 response an observer returned earlier in it, under the answering revision; nothing blocked, malformed or thrown is served as a success |
| `ObservationLaws.RepliesAreCanonical` | src/cloudflare-v2-observation-cache.mjs:29-133 | every answer of every run is the canonical success or the canonical failure, whatever observers return and storage holds |
| `ExpiringCache.ExpiringCache.Get` | src/proof-worker.mjs:149-159 | a get drops an expired entry, moves a live one last and returns its value |
| `ExpiringCache.ExpiringCache.Set` | src/proof-worker.mjs:161-168 | a set puts the key last with a new expiry, and the eviction loop keeps exactly the newest entries |
| `ExpiringCache.Bounded` | src/proof-worker.mjs:161-168 | after any history at most the bound of entries remain |
| `ExpiringCache.Invariant` | src/proof-worker.mjs:142-169 | after any history keys are distinct, each entry holds its key's latest set, and all later entries belong to keys touched since |
| `ExpiringCache.OrderedByTouch` | src/proof-worker.mjs:142-169 | the list is in order of last touch |
| `ExpiringCache.GetIsFaithful` | src/proof-worker.mjs:149-159 | a hit returns the key's latest set value before its expiry; a live value is missed only if at least the bound of other keys were touched since the key's own last touch |
| `BatchProof.RequireSettlementLogs` | src/proof-worker.mjs:1526-1587 | the two counting loops accept exactly logs with one well-formed pool Swap and one matching USDC transfer out of the pool, at or above both minimums |
| `BatchProof.SettlementConserves` | src/proof-worker.mjs:1526-1587 | the output equals the sum of the pool's Swap outputs and the sum of all counted USDC transfers out of the pool, all of them to the rule's recipient |
| `BatchLaws.SettlementIff` | src/proof-worker.mjs:1526-1587 | the output is settled exactly when one log is a Swap of the pool and one a counted transfer out of it, both with their exact topics and this amount, at or above both minimums |
| `BatchProof.ValidateRelationship` | src/proof-worker.mjs:1458-1524 | the pair is accepted with the settled output exactly when attempts and routes match the rule and the stale minimum exceeds that output |
| `BatchLaws.RelationshipIff` | src/proof-worker.mjs:1458-1524 | a pair is paid for exactly when it is a reverted transaction and its refreshed successful retry in every respect the rule names, the settlement is as described and the stale minimum exceeds its output |
| `BatchLaws.RuleIff` | src/proof-worker.mjs:1249-1311 | which rules are funded, and that one is then itself with lower-case identifiers |
| `BatchProof.CollectEntries` | src/proof-worker.mjs:1174-1202 | the nested walk succeeds if and only if every block is inside the range and every transaction is a requested one occurring once, and then the map holds them all |
| `BatchProof.PairSelected` | src/proof-worker.mjs:1204-1211 | a consistent walk that found two transactions found both requested ones |
| `BatchProof.SelectedIsConsistent` | src/proof-worker.mjs:1174-1206 | only a proof whose transactions are exactly the requested pair selects anything |
| `BatchProof.SelectionIsUnique` | src/proof-worker.mjs:1210-1211 | the selected entries are determined by the bag of transactions |
| `BatchProof.NormalizeUniswapRetryCreditBatchProof` | src/proof-worker.mjs:1149-1247 | the reply and its error code satisfy a specification that does not mention the walk: exactly the requested pair, in range, related by the rule; a bad rule is reported as such only after valid hashes |
| `BatchProof.FlattenBags` | src/proof-worker.mjs:1174-1180 | reordering the outer map and the inner maps leaves the bag of transactions |
| `BatchProof.OrderDoesNotMatter` | src/proof-worker.mjs:1174-1219 | the reply, accepted or refused, is the same for every iteration order of the outer and inner maps |
| `BatchLaws.HeldIff` | src/proof-worker.mjs:1159-1211 | which proofs are of the source chain and hold exactly the two requested transactions, each as the entry it decodes to |
| `BatchLaws.AcceptedIff` | src/proof-worker.mjs:1149-1247 | acceptance as one equivalence over the proof, the hashes and the rule, in both directions, with every field of the reply |
| `BatchLaws.RefusalReason` | src/proof-worker.mjs:1236-1246 | a rule that is not funded is named exactly when the hashes were in order; anything else is an invalid proof |
| `BatchLaws.ItemsOfBlocks` | src/proof-worker.mjs:1174-1180 | the transactions of a proof are those of its blocks, each under its block and index |
| `BatchProof.AcceptedPair` | src/proof-worker.mjs:1149-1247 | acceptance means exactly two transactions with the requested hashes, failure before retry inside the shared range and the rule's window, a failure that stopped short of its gas limit, and rule minimum <= refreshed minimum <= output < stale minimum |
| `BatchProof.AcceptedOutput` | src/proof-worker.mjs:1526-1587 | and the accepted output is all the USDC counted out of the pool |
| `BatchProof.RuleIsCanonical` | src/proof-worker.mjs:1249-1311 | a normalised rule passes its own bounds again unchanged |
| `BatchProof.RevalidationAccepts` | src/proof-worker.mjs:1313-1325 | an accepted pair passes the later validation against the same rule, raw or normalised, with the same output |
| `ImmutableRanges.CompareImmutableGroups` | scripts/generate-recovery-v2-artifact.mjs:196-203 | the index loop computes the lexicographic comparison |
| `ImmutableRanges.GroupsOrdered` | scripts/generate-recovery-v2-artifact.mjs:192-203 | the comparison is a total order in which only equal groups compare equal |
| `Sorting.SortCanonical` | scripts/generate-recovery-v2-artifact.mjs:178-182 | sorting by a total order depends only on which elements there are |
| `ImmutableRanges.NormalizeImmutableReferences` | scripts/generate-recovery-v2-artifact.mjs:158-190 | accepts if and only if every range is well formed and inside the runtime and all input ranges are pairwise disjoint; the result is then the canonical form |
| `ImmutableRanges.NeighboursSuffice` | scripts/generate-recovery-v2-artifact.mjs:182-188 | on sorted ranges of positive length, comparing neighbours decides all pairs |
| `ImmutableRanges.AcceptedLengthsFit` | scripts/generate-recovery-v2-artifact.mjs:158-190 | accepted lengths sum to at most the runtime size |
| `ImmutableRanges.OrderDoesNotMatter` | scripts/generate-recovery-v2-artifact.mjs:158-190 | acceptance and result are the same for every reordering of the groups and of the positions inside them |
| `RangeLaws.AcceptedIff` | scripts/generate-recovery-v2-artifact.mjs:158-188 | in bytes: accepted exactly when every group has a position, every position lies in the runtime with at least one byte, and no byte belongs to two positions |
| `RangeLaws.GroupOrderIs` | scripts/generate-recovery-v2-artifact.mjs:192-203 | one group comes before another when the first difference says so, by start and then length, or when it is a proper prefix |
| `RangeLaws.CanonicalIs` | scripts/generate-recovery-v2-artifact.mjs:158-190 | the result is the input's own groups, each with its own positions in order, in lexicographic order |
| `StartupErrors.IsRetryableRecoveryStartupError` | src/recovery-startup-lifecycle.mjs:17-37 | the loop with its seen set answers whether, among the first five objects of the cause chain, the first that decides says yes; cyclic chains included |
| `StartupErrors.CyclesDecideNothing` | src/recovery-startup-lifecycle.mjs:18-21 | once undecided objects close a cycle nothing later decides, so giving up on a repeated object never changes the answer |
| `StartupLaws.VerdictIs` | src/recovery-startup-lifecycle.mjs:17-33 | what one error object decides: wrappers and plain objects without a code ask their cause, outages are retried, anything else is not |
| `StartupLaws.RetryableIff` | src/recovery-startup-lifecycle.mjs:17-37 | an error is retried exactly when a cause chain of at most four undecided objects leads from it to an outage |
| `StartupLifecycle.RecoveryStartupLifecycle.constructor` | src/recovery-startup-lifecycle.mjs:47-52 | a new lifecycle is waking, not started, with no timer |
| `StartupLifecycle.RecoveryStartupLifecycle.ClearCurrentTimer` | src/recovery-startup-lifecycle.mjs:54-57 | cancels and forgets the remembered timer |
| `StartupLifecycle.RecoveryStartupLifecycle.Arm` | src/recovery-startup-lifecycle.mjs:59-62 | arms a timer and remembers only that one |
| `StartupLifecycle.RecoveryStartupLifecycle.FailWith` | src/recovery-startup-lifecycle.mjs:64-69 | fails, overtaking every outstanding promise |
| `StartupLifecycle.RecoveryStartupLifecycle.BeginAttempt` | src/recovery-startup-lifecycle.mjs:71-82 | a waking lifecycle counts an attempt, guards it with a watchdog and queues its call |
| `StartupLifecycle.RecoveryStartupLifecycle.RunMicrotask` | src/recovery-startup-lifecycle.mjs:80-83 | readiness is called only if the attempt has not been overtaken |
| `StartupLifecycle.RecoveryStartupLifecycle.OnSettled` | src/recovery-startup-lifecycle.mjs:83-102 | what a settlement does: nothing when overtaken, ready, a delayed retry, or failure |
| `StartupLifecycle.RecoveryStartupLifecycle.OnTimer` | src/recovery-startup-lifecycle.mjs:59-79 | a firing watchdog fails the lifecycle, a firing retry begins the next attempt |
| `StartupLifecycle.RecoveryStartupLifecycle.StartUp` | src/recovery-startup-lifecycle.mjs:105-109 | starts once, and never after stop |
| `StartupLifecycle.RecoveryStartupLifecycle.ShutDown` | src/recovery-startup-lifecycle.mjs:111-114 | stops from any state |
| `StartupLifecycle.StepKeepsInv` | src/recovery-startup-lifecycle.mjs:39-117 | every event keeps: the armed timers are exactly the remembered one, a watchdog guards exactly the current call, a pending retry has nothing outstanding |
| `StartupLaws.StartIs` | src/recovery-startup-lifecycle.mjs:105-109 | start begins the first attempt with its one-minute watchdog, once, unless stop came first |
| `StartupLaws.StopIs` | src/recovery-startup-lifecycle.mjs:111-114 | stop fails the lifecycle from every state |
| `StartupLaws.MicrotaskIs` | src/recovery-startup-lifecycle.mjs:80-83 | a microtask calls readiness exactly while the lifecycle is waking, and is then that of its only attempt |
| `StartupLaws.SettlementIs` | src/recovery-startup-lifecycle.mjs:83-102 | in every run a success of the waking lifecycle's call makes it ready, with no failure and no timer; a retryable rejection with fewer than five attempts arms the next delay; any other fails it; late settlements change nothing |
| `StartupLaws.FiringIs` | src/recovery-startup-lifecycle.mjs:59-79 | a watchdog that fires fails the lifecycle as timed out, a retry begins the next attempt |
| `StartupLaws.ReadyIff` | src/recovery-startup-lifecycle.mjs:83-89 | at any point of any run it is ready exactly when the call in progress of the waking lifecycle succeeded and no stop followed |
| `StartupLaws.FailureIff` | src/recovery-startup-lifecycle.mjs:64-114 | and failed for a reason exactly when that kind of event occurred: a stop, a watchdog, or a rejection that is no outage or is the fifth |
| `StartupLifecycle.AtMostFiveCallsNeverTwoAtOnce` | src/recovery-startup-lifecycle.mjs:71-103 | in every interleaving readiness is called at most five times, a call begins only when none is in progress, and at most one timer is armed |
| `StartupLifecycle.LateEventsChangeNothing` | src/recovery-startup-lifecycle.mjs:81-91 | after timeout, stop or success, a late settlement or microtask changes nothing the caller sees and arms no timer |
| `StartupLifecycle.DecidedForGood` | src/recovery-startup-lifecycle.mjs:64-114 | failure is absorbing; once decided, readiness is never called again and only stop can change the answer, to failure |
| `StartupLifecycle.RetriesNeedRetryableFailures` | src/recovery-startup-lifecycle.mjs:90-100 | every attempt after the first was preceded by its own retryable failure |
| `StartupLifecycle.WakingEnds` | src/recovery-startup-lifecycle.mjs:71-103 | when timers fire on time, waking ends within five minutes of attempts plus 165 seconds of delays after the start |
| `LiveObserver.RecoveryV2LiveObserver.constructor` | src/recovery-v2-live-observer.mjs:29-33 | a new observer has no sample, timer or verified reading |
| `LiveObserver.RecoveryV2LiveObserver.Readiness` | src/recovery-v2-live-observer.mjs:35-47 | ready exactly while not stopped and the reading is within 45 seconds after the verified one, not before it |
| `LiveObserver.RecoveryV2LiveObserver.TakeSample` | src/recovery-v2-live-observer.mjs:48-56 | begins an observation unless stopped or one is in progress |
| `LiveObserver.RecoveryV2LiveObserver.OnObserved` | src/recovery-v2-live-observer.mjs:51-76 | what the end of an observation leaves, also when it, the clock or the timer throws, or stop came first |
| `LiveObserver.RecoveryV2LiveObserver.OnTimer` | src/recovery-v2-live-observer.mjs:70 | a firing timer is forgotten and begins the next sample |
| `LiveObserver.RecoveryV2LiveObserver.StartUp` | src/recovery-v2-live-observer.mjs:81 | starts once |
| `LiveObserver.RecoveryV2LiveObserver.ShutDown` | src/recovery-v2-live-observer.mjs:82 | stops, forgetting the verified reading and cancelling the timer, but not a sample in progress |
| `LiveObserver.NeverOverlaps` | src/recovery-v2-live-observer.mjs:48-83 | in every run at most one observation is in progress, at most one timer is armed, and never both |
| `ObserverLaws.ReadyIs` | src/recovery-v2-live-observer.mjs:35-39 | ready exactly while not stopped and less than 45 seconds after the verified reading |
| `ObserverLaws.StartIs` | src/recovery-v2-live-observer.mjs:81 | start begins the first sample, once |
| `ObserverLaws.StopIs` | src/recovery-v2-live-observer.mjs:82 | stop forgets the reading and cancels the timer while a sample goes on |
| `ObserverLaws.FiringIs` | src/recovery-v2-live-observer.mjs:70 | a firing timer begins the next sample and the reading stays |
| `ObserverLaws.FinishIs` | src/recovery-v2-live-observer.mjs:51-76 | the end of a sample sets the reading exactly for the canonical success of the configured revision at a sound clock, and arms the next sample 15 seconds later unless stopped |
| `ObserverLaws.VerifiedIff` | src/recovery-v2-live-observer.mjs:48-82 | at any point of any run the verified reading is that of the last sample that ended, if it was such a success and no stop came before or since |
| `LiveObserver.NeverReadyAfterStop` | src/recovery-v2-live-observer.mjs:49-82 | after stop it is never ready again, arms no timer and begins no observation, even if a sample in progress succeeds |
| `LiveObserver.ReadinessNeverLapses` | src/recovery-v2-live-observer.mjs:35-75 | if every observation succeeds within 25 seconds and timers are less than five seconds late, then from the first success on it is ready at every reading |
| `LiveObserver.FiveSecondsLateLapses` | src/recovery-v2-live-observer.mjs:35-75 | that slack is exact: a timer five seconds late before a full-length observation leaves a reading at which it is not ready |

## Left out

- LedgerClient.CallerAcceptsIff: assumes that the random token has the form of two joined UUIDs.
- ObservationReplies.StoredIsLastCommit: storage may start with anything except a snapshot of a configured identity, whose origin no run could account for.
- FreshReadRuns.NoMessageAdmittedTwice: assumes that the configured origin and pool and every checksummed address hold no newline, as the configuration and address forms guarantee.
- LiveObserver.ReadinessNeverLapses: assumes that the clock the observer reads is the one its timers follow.
- Keccak, HMAC, SHA-256, signature recovery, address checksums and ABI and JSON decoding are arbitrary functions or decoded values; nothing needs them to be injective.
- Values of a wrong JSON type, non-integer numbers and objects with extra keys: stored or decoded values already have their types, apart from a stored value of another shape in the observation cache.
- Decimal texts of 256-bit numbers in the ledger are their values; non-canonical decimal texts are refused by the code and are not values here.
- The order in which SQL returns rows is insertion order; no result depends on it where identifiers are unique.
- A storage transaction is atomic: it writes everything or fails and writes nothing.
- A stored receipt key that is not text at all.
- ObservationIdentity.StorableIff: counts every character as one; the code counts two for a character outside the basic plane, and six for an unpaired surrogate.
- White space that the platform's base64 decoder would ignore, and the JSON text of a credential.
- `createFreshReadDutyCycle`, the weaker predecessor that shares the gate's key; the gate may start at any stored value instead.
- The sort of the artifact generator is a stable insertion sort on values; sorting in place is not modelled.
- Decoding of a signed router envelope and of an attested transaction, and the proof builder that fetches them; the decoded attempt of a transaction is unconstrained.
- Timers are cancelled or fire, and a cancelled timer does not fire; arming a startup timer does not throw.
- HTTP routing, CORS, bearer comparison, request and response streams with their size limits, Durable Object calls and deployment configuration.
- The web client, the campaign, spike and discovery scripts, the deployment supervisor, the candidate catalog, role keys, RPC transports and diagnostics texts.
