/** The replay list never fills: spacing of admissions against the lifetime of an entry; and the
    exactness of Retry-After. */
module FreshReadCapacity {
  import opened Wrappers
  import opened Numbers
  import opened Text
  import opened Consent
  import opened FreshRead
  import opened FreshReadRuns
  import opened Base64Url

  // ---- admission times of the listed entries (ghost) ----

  /** A well-formed entry admitted at the reading `ms`: it does not outlive that reading by more than the
      span, and the gate lies an interval after it. */
  ghost predicate EntryTimed(cfg: Config, notBefore: Option<int>, e: Entry, ms: int) {
    && IsDigest(e.id) && 0 < e.expiresAt <= MAX_SAFE_INTEGER
    && e.expiresAt <= ms / 1000 + cfg.skew + cfg.lifetime
    && notBefore.Some? && ms + cfg.intervalMs <= notBefore.value
  }

  ghost predicate Spaced(at: seq<int>, interval: int) {
    forall k, l | 0 <= k < l < |at| :: at[k] + interval <= at[l]
  }

  /** The list is well formed, and `at` gives each entry's admission reading, an interval apart. */
  ghost predicate Timed(cfg: Config, s: Store, at: seq<int>) {
    var used := Used(s);
    && |at| == |used| && DistinctIds(used) && Spaced(at, cfg.intervalMs)
    && forall k | 0 <= k < |at| :: EntryTimed(cfg, s.notBefore, used[k], at[k])
  }

  /** The admission readings of the surviving entries. */
  ghost function SurvivingTimes(entries: seq<Entry>, at: seq<int>, nowSeconds: int): (r: seq<int>)
    requires |at| == |entries|
    ensures |r| == |Surviving(entries, nowSeconds)|
  {
    if entries == [] then []
    else
      var n := |entries| - 1;
      SurvivingTimes(entries[..n], at[..n], nowSeconds) + (if entries[n].expiresAt < nowSeconds then [] else [at[n]])
  }

  /** Pruning keeps entries with their readings, in order. */
  lemma {:induction false} SurvivorsFrom(entries: seq<Entry>, at: seq<int>, nowSeconds: int, k: nat) returns (i: nat)
    requires |at| == |entries| && k < |Surviving(entries, nowSeconds)|
    ensures i < |entries| && k <= i && Surviving(entries, nowSeconds)[k] == entries[i]
    ensures SurvivingTimes(entries, at, nowSeconds)[k] == at[i] && entries[i].expiresAt >= nowSeconds
  {
    var n := |entries| - 1;
    if k < |Surviving(entries[..n], nowSeconds)| {
      i := SurvivorsFrom(entries[..n], at[..n], nowSeconds, k);
    } else {
      i := n;
    }
  }

  lemma TimedPrefix(cfg: Config, s: Store, at: seq<int>)
    requires Timed(cfg, s, at) && at != []
    ensures var n := |at| - 1; Timed(cfg, s.(used := Some(Used(s)[..n])), at[..n])
  {
    hide EntryTimed;
    var n := |at| - 1;
    forall k | 0 <= k < n ensures EntryTimed(cfg, s.notBefore, Used(s)[..n][k], at[..n][k]) {
      assert EntryTimed(cfg, s.notBefore, Used(s)[k], at[k]);
    }
  }

  /** One more entry read an interval after all the others. */
  lemma TimedLonger(cfg: Config, s: Store, at: seq<int>, e: Entry, ms: int)
    requires Timed(cfg, s, at) && EntryTimed(cfg, s.notBefore, e, ms)
    requires forall k | 0 <= k < |at| :: Used(s)[k].id != e.id && at[k] + cfg.intervalMs <= ms
    ensures Timed(cfg, s.(used := Some(Used(s) + [e])), at + [ms])
  {
    hide EntryTimed;
    forall k | 0 <= k <= |at| ensures EntryTimed(cfg, s.notBefore, (Used(s) + [e])[k], (at + [ms])[k]) {
      assert k < |at| ==> EntryTimed(cfg, s.notBefore, Used(s)[k], at[k]);
    }
  }

  lemma {:induction false} SurvivorsTimed(cfg: Config, s: Store, at: seq<int>, nowSeconds: int)
    requires Timed(cfg, s, at)
    ensures Timed(cfg, s.(used := Some(Surviving(Used(s), nowSeconds))), SurvivingTimes(Used(s), at, nowSeconds))
    decreases |at|
  {
    hide EntryTimed;
    var used := Used(s);
    if used != [] {
      var n := |used| - 1;
      var s' := s.(used := Some(used[..n]));
      TimedPrefix(cfg, s, at);
      SurvivorsTimed(cfg, s', at[..n], nowSeconds);
      var r, rt := Surviving(used[..n], nowSeconds), SurvivingTimes(used[..n], at[..n], nowSeconds);
      if used[n].expiresAt >= nowSeconds {
        forall k | 0 <= k < |r| ensures r[k].id != used[n].id && rt[k] + cfg.intervalMs <= at[n] {
          var i := SurvivorsFrom(used[..n], at[..n], nowSeconds, k);
          assert used[..n][i] == used[i] && at[..n][i] == at[i];
        }
        assert EntryTimed(cfg, s.notBefore, used[n], at[n]);
        hide Timed, DistinctIds, Spaced;
        TimedLonger(cfg, s.(used := Some(r)), rt, used[n], at[n]);
      }
    }
  }

  /** The gate lies at least one interval per listed entry after the first entry's reading. */
  lemma {:induction false} SpanOf(at: seq<int>, interval: int, gate: int)
    requires at != [] && 0 < interval
    requires forall k | 0 <= k < |at| :: at[k] + interval <= gate
    requires Spaced(at, interval)
    ensures at[0] + |at| * interval <= gate
  {
    var n := |at| - 1;
    if n > 0 {
      SpanOf(at[..n], interval, at[n]);
      assert n * interval + interval == (n + 1) * interval;
    }
  }

  /** Whenever the gate is open, fewer entries survive than intervals fit the span. */
  lemma FewSurvive(cfg: Config, s: Store, at: seq<int>, nowMs: int)
    requires Legal(cfg) && Timed(cfg, s, at) && 0 <= nowMs && (s.notBefore.Some? ==> s.notBefore.value <= nowMs)
    ensures |Surviving(Used(s), nowMs / 1000)| + 2 <= MaxUsed(cfg)
  {
    hide IsDigest, DistinctIds;
    var now := nowMs / 1000;
    var t, rt := Surviving(Used(s), now), SurvivingTimes(Used(s), at, now);
    SurvivorsTimed(cfg, s, at, now);
    if t != [] {
      var i := SurvivorsFrom(Used(s), at, now, 0);
      SpanOf(rt, cfg.intervalMs, s.notBefore.value);
      assert nowMs < rt[0] + SpanMs(cfg);
    }
    CountBelow(|t|, cfg.intervalMs, SpanMs(cfg));
  }

  lemma CountBelow(n: nat, interval: int, span: int)
    requires 0 < interval && 0 < span && (n > 0 ==> n * interval < span)
    ensures n + 1 <= CeilDiv(span, interval)
  {
    var q := CeilDiv(span, interval);
    assert q * interval >= span by { CeilCovers(span, interval); }
    if q <= n {
      Multiples(interval, q, n);
    }
  }

  /** The list also stays below the size that would be refused. */
  ghost predicate Fits(cfg: Config, s: Store, at: seq<int>)
    requires Legal(cfg)
  {
    Timed(cfg, s, at) && |Used(s)| < MaxUsed(cfg)
  }

  lemma StepFits(cfg: Config, o: Outside, s: Store, at: seq<int>, a: Attempt) returns (at': seq<int>)
    requires Legal(cfg) && OutsideOk(o) && Fits(cfg, s, at)
    ensures Fits(cfg, Step(cfg, o, s, a).0, at')
  {
    hide Step, NormalizeChallenge, HasId, IsDigest, MaxUsed, OutsideOk, DistinctIds;
    var now := a.nowMs / 1000;
    var (t, outcome) := Step(cfg, o, s, a);
    StepFacts(cfg, o, s, a);
    if t == s {
      at' := at;
    } else {
      SurvivorsTimed(cfg, s, at, now);
      at' := SurvivingTimes(Used(s), at, now);
      if outcome.Admitted? {
        AdmittedReading(cfg, o, s, a);
        FewSurvive(cfg, s, at, a.nowMs);
        AppendTimed(cfg, s.(used := Some(Surviving(Used(s), now))), at', t, a.nowMs);
        at' := at' + [a.nowMs];
      }
    }
  }

  lemma AdmittedReading(cfg: Config, o: Outside, s: Store, a: Attempt)
    requires Legal(cfg) && OutsideOk(o) && Step(cfg, o, s, a).1.Admitted?
    ensures 0 <= a.nowMs <= MAX_SAFE_INTEGER && 0 < a.credential.expiresAt <= MAX_SAFE_INTEGER
    ensures IsDigest(ReplayId(cfg, o, a.credential, a.nowMs))
    ensures var entries := Surviving(Used(s), a.nowMs / 1000);
            Step(cfg, o, s, a).0 == s.(notBefore := Some(a.nowMs + cfg.intervalMs),
                                      used := Some(entries + [Entry(ReplayId(cfg, o, a.credential, a.nowMs),
                                                                         a.credential.expiresAt)]))
            && !HasId(entries, ReplayId(cfg, o, a.credential, a.nowMs))
  {
    hide IsDigest, EntriesOk, Surviving, HasId, MaxUsed, RetrySeconds, OwnerMessage, CredentialHash;
  }

  lemma AppendTimed(cfg: Config, s: Store, at: seq<int>, t: Store, nowMs: int)
    requires Timed(cfg, s, at) && 0 < cfg.intervalMs
    requires t.notBefore == Some(nowMs + cfg.intervalMs) && |Used(t)| == |Used(s)| + 1
             && Used(t)[..|Used(s)|] == Used(s)
    requires var e := Used(t)[|Used(s)|];
             && IsDigest(e.id) && 0 < e.expiresAt <= MAX_SAFE_INTEGER
             && e.expiresAt <= nowMs / 1000 + cfg.skew + cfg.lifetime
             && !HasId(Used(s), e.id)
    requires s.notBefore.Some? ==> s.notBefore.value <= nowMs
    ensures Timed(cfg, t, at + [nowMs])
  {
    hide IsDigest;
    var u, v := Used(s), Used(t);
    assert forall k | 0 <= k < |u| :: v[k] == u[k];
  }

  /** From a store without used entries, every reached list fits, whatever the clock and first gate. */
  lemma {:induction false} ListFits(cfg: Config, o: Outside, s0: Store, attempts: seq<Attempt>, n: nat)
      returns (at: seq<int>)
    requires Legal(cfg) && OutsideOk(o) && Used(s0) == [] && n <= |attempts|
    ensures Fits(cfg, StoreAt(cfg, o, s0, attempts, n), at)
  {
    if n == 0 {
      at := [];
      CountBelow(0, cfg.intervalMs, SpanMs(cfg));
    } else {
      hide Step, Fits, OutsideOk;
      at := ListFits(cfg, o, s0, attempts, n - 1);
      at := StepFits(cfg, o, StoreAt(cfg, o, s0, attempts, n - 1), at, attempts[n - 1]);
    }
  }

  /** The capacity bound: at any reading with the gate open, at most ceil(span/interval) - 1 entries
      survive, so neither the full-list nor the oversize-list refusal can be reached. */
  lemma CapacityBound(cfg: Config, o: Outside, s0: Store, attempts: seq<Attempt>, n: nat, nowMs: int)
    requires Legal(cfg) && OutsideOk(o) && Used(s0) == [] && n <= |attempts| && 0 <= nowMs
    ensures var s := StoreAt(cfg, o, s0, attempts, n);
            && |Used(s)| <= CeilDiv(SpanMs(cfg), cfg.intervalMs)
            && ((s.notBefore.Some? ==> s.notBefore.value <= nowMs) ==>
                  |Surviving(Used(s), nowMs / 1000)| <= CeilDiv(SpanMs(cfg), cfg.intervalMs) - 1)
  {
    hide Step, Timed, OutsideOk;
    var at := ListFits(cfg, o, s0, attempts, n);
    var s := StoreAt(cfg, o, s0, attempts, n);
    if s.notBefore.Some? ==> s.notBefore.value <= nowMs {
      FewSurvive(cfg, s, at, nowMs);
    }
  }

  /** Every legal configuration passes the constructor's hard limit of 2048 list entries. */
  lemma WithinHardLimit(cfg: Config)
    requires Legal(cfg)
    ensures MaxUsed(cfg) <= 2048
  {
    var q := CeilDiv(SpanMs(cfg), cfg.intervalMs);
    CeilCovers(SpanMs(cfg), cfg.intervalMs);
    if q > 1202 {
      Multiples(cfg.intervalMs, 1202, q - 1);
    }
  }

  /** A reachable list is refused as invalid exactly when the stored gate is no safe integer or lies more
      than an interval ahead, or an entry expires later than any current challenge could. */
  lemma StateInvalidIff(cfg: Config, o: Outside, s: Store, at: seq<int>, a: Attempt)
    requires Legal(cfg) && Fits(cfg, s, at) && 0 <= a.nowMs <= MAX_SAFE_INTEGER
    requires NormalizeChallenge(cfg, o, a.credential, a.nowMs / 1000).Ok?
    ensures Step(cfg, o, s, a).1 == Refused(StateInvalid) <==>
              || !GateOk(cfg, s.notBefore, a.nowMs)
              || (exists k | 0 <= k < |Used(s)| :: Used(s)[k].expiresAt > a.nowMs / 1000 + cfg.lifetime + cfg.skew + 1)
  {
    hide NormalizeChallenge, HasId, IsDigest, MaxUsed, DistinctIds, RetrySeconds, Decimal;
  }

  /** So a clock that has not gone back behind a listed admission never finds the state invalid. */
  lemma ForwardClockIsValid(cfg: Config, o: Outside, s: Store, at: seq<int>, a: Attempt)
    requires Legal(cfg) && Fits(cfg, s, at) && 0 <= a.nowMs <= MAX_SAFE_INTEGER
    requires GateOk(cfg, s.notBefore, a.nowMs)
    requires forall k | 0 <= k < |at| :: at[k] <= a.nowMs
    ensures Step(cfg, o, s, a).1 != Refused(StateInvalid)
  {
    hide Step, NormalizeChallenge, IsDigest, DistinctIds, MaxUsed;
    if NormalizeChallenge(cfg, o, a.credential, a.nowMs / 1000).Ok? {
      StateInvalidIff(cfg, o, s, at, a);
      forall k | 0 <= k < |Used(s)| ensures Used(s)[k].expiresAt <= a.nowMs / 1000 + cfg.lifetime + cfg.skew + 1 {
        SecondsMonotone(at[k], a.nowMs);
      }
    } else {
      RefusedChallenge(cfg, o, s, a);
    }
  }

  lemma RefusedChallenge(cfg: Config, o: Outside, s: Store, a: Attempt)
    requires Legal(cfg) && 0 <= a.nowMs <= MAX_SAFE_INTEGER
             && NormalizeChallenge(cfg, o, a.credential, a.nowMs / 1000).Err?
    ensures Step(cfg, o, s, a).1 != Refused(StateInvalid)
  {
    hide CredentialHash, OwnerMessage;
  }

  /** Over the reachable lists, a verified credential is admitted if and only if its challenge is current,
      the gate is sound and open, it was not used, and no listed entry lies further ahead than a current
      challenge could: the list bound plays no part. */
  lemma AdmittedIff(cfg: Config, o: Outside, s: Store, at: seq<int>, a: Attempt)
    requires Legal(cfg) && Fits(cfg, s, at) && 0 <= a.nowMs <= MAX_SAFE_INTEGER
    ensures Step(cfg, o, s, a).1.Admitted? <==>
            && NormalizeChallenge(cfg, o, a.credential, a.nowMs / 1000).Ok?
              && (s.notBefore.Some? ==> 0 <= s.notBefore.value <= a.nowMs)
              && (forall k | 0 <= k < |Used(s)| :: Used(s)[k].expiresAt <= a.nowMs / 1000 + cfg.lifetime + cfg.skew + 1)
              && !HasId(Surviving(Used(s), a.nowMs / 1000), ReplayId(cfg, o, a.credential, a.nowMs))
  {
    hide NormalizeChallenge, HasId, IsDigest, MaxUsed, DistinctIds, RetrySeconds, Decimal;
  }

  /** An admission writes a gate past the safe integers exactly when its reading is within an interval of
      the largest one; such a gate refuses every later call and is never changed again. */
  lemma OverflowingGateIsFinal(cfg: Config, o: Outside, s: Store, a: Attempt, later: seq<Attempt>, n: nat)
    requires Legal(cfg) && Step(cfg, o, s, a).1.Admitted? && n <= |later|
    ensures var t := Step(cfg, o, s, a).0;
            && t.notBefore.Some? && (t.notBefore.value > MAX_SAFE_INTEGER <==>
                                     a.nowMs > MAX_SAFE_INTEGER - cfg.intervalMs)
            && (t.notBefore.value > MAX_SAFE_INTEGER ==>
                  && StoreAt(cfg, o, t, later, n) == t
                  && forall i | 0 <= i < n :: Step(cfg, o, StoreAt(cfg, o, t, later, i), later[i]).1.Refused?)
  {
    hide Step, NormalizeChallenge, Surviving, HasId;
    StepFacts(cfg, o, s, a);
    var t := Step(cfg, o, s, a).0;
    if t.notBefore.value > MAX_SAFE_INTEGER {
      RefusedForever(cfg, o, t, later, n);
    }
  }

  lemma {:induction false} RefusedForever(cfg: Config, o: Outside, t: Store, later: seq<Attempt>, n: nat)
    requires Legal(cfg) && n <= |later| && t.notBefore.Some? && t.notBefore.value > MAX_SAFE_INTEGER
    ensures StoreAt(cfg, o, t, later, n) == t
    ensures forall i | 0 <= i < n :: Step(cfg, o, StoreAt(cfg, o, t, later, i), later[i]).1.Refused?
  {
    hide Step;
    if n > 0 {
      RefusedForever(cfg, o, t, later, n - 1);
      RefusedOnce(cfg, o, t, later[n - 1]);
    }
  }

  lemma RefusedOnce(cfg: Config, o: Outside, t: Store, a: Attempt)
    requires Legal(cfg) && t.notBefore.Some? && t.notBefore.value > MAX_SAFE_INTEGER
    ensures Step(cfg, o, t, a).0 == t && Step(cfg, o, t, a).1.Refused?
  {
    hide NormalizeChallenge, EntriesOk, Surviving, HasId, MaxUsed, RetrySeconds, Decimal;
  }

  // ---- Retry-After ----

  /** normalizeRetryAfter: one to three digits, no leading zero, at most 300. */
  function NormalizeRetryAfter(value: string): Option<string> {
    if 1 <= |value| <= 3 && '1' <= value[0] <= '9' && (forall i | 0 <= i < |value| :: '0' <= value[i] <= '9')
       && ParseDecimal(value) <= 300 then Some(value) else None
  }

  lemma SmallDecimal(n: nat)
    requires 1 <= n < 100
    ensures |Decimal(n)| <= 2 && '1' <= Decimal(n)[0] <= '9' && ParseDecimal(Decimal(n)) == n
  {
    DecimalRoundTrip(n);
    if n >= 10 {
      assert Decimal(n) == Decimal(n / 10) + [Digit(n % 10)];
      assert Decimal(n / 10) == [Digit(n / 10)];
    }
  }

  /** What a throttled call says and leaves. */
  lemma ThrottleFacts(cfg: Config, o: Outside, s: Store, a: Attempt)
    requires Legal(cfg) && Step(cfg, o, s, a).1.Throttled?
    ensures s.notBefore.Some? && a.nowMs < s.notBefore.value <= a.nowMs + cfg.intervalMs
            && s.notBefore.value <= MAX_SAFE_INTEGER
    ensures 0 <= a.nowMs && NormalizeChallenge(cfg, o, a.credential, a.nowMs / 1000).Ok?
    ensures EntriesOk(cfg, Used(s), a.nowMs / 1000)
    ensures !HasId(Surviving(Used(s), a.nowMs / 1000), ReplayId(cfg, o, a.credential, a.nowMs))
    ensures Step(cfg, o, s, a).1.retryAfter == Decimal(Nat(RetrySeconds(s.notBefore.value, a.nowMs)))
  {
    hide NormalizeChallenge, HasId, EntriesOk, RetrySeconds, Decimal, Surviving, MaxUsed;
  }

  /** The text of a throttled answer always survives the error's own check. */
  lemma RetryAfterSurvives(cfg: Config, o: Outside, s: Store, a: Attempt)
    requires Legal(cfg) && Step(cfg, o, s, a).1.Throttled?
    ensures NormalizeRetryAfter(Step(cfg, o, s, a).1.retryAfter) == Some(Step(cfg, o, s, a).1.retryAfter)
  {
    hide Step;
    ThrottleFacts(cfg, o, s, a);
    SmallDecimal(RetrySeconds(s.notBefore.value, a.nowMs));
  }

  /** The throttled answer carries the least whole second, at least one, after which the gate opens. */
  lemma RetryAfterIsLeast(cfg: Config, o: Outside, s: Store, a: Attempt)
    requires Legal(cfg) && Step(cfg, o, s, a).1.Throttled?
    ensures var text := Step(cfg, o, s, a).1.retryAfter;
            && NormalizeRetryAfter(text).Some?
            && var seconds := ParseDecimal(text);
            && 1 <= seconds <= 60
            && s.notBefore.Some?
            && (forall k | 1 <= k :: a.nowMs + 1000 * k >= s.notBefore.value <==> k >= seconds)
  {
    hide Step, NormalizeRetryAfter;
    ThrottleFacts(cfg, o, s, a);
    RetryAfterSurvives(cfg, o, s, a);
    SmallDecimal(RetrySeconds(s.notBefore.value, a.nowMs));
  }

  /** Storage after calls that admitted nothing: the same gate, and no new entries. */
  ghost predicate Thinned(s: Store, t: Store) {
    && t.notBefore == s.notBefore && |Used(t)| <= |Used(s)|
    && (forall e | e in Used(t) :: e in Used(s))
    && (DistinctIds(Used(s)) ==> DistinctIds(Used(t)))
  }

  lemma {:induction false} SurvivorsDistinct(entries: seq<Entry>, nowSeconds: int)
    requires DistinctIds(entries)
    ensures DistinctIds(Surviving(entries, nowSeconds))
  {
    if entries != [] {
      var n := |entries| - 1;
      SurvivorsDistinct(entries[..n], nowSeconds);
      var r := Surviving(entries[..n], nowSeconds);
      forall i | 0 <= i < |r| ensures r[i].id != entries[n].id {
        SurvivingMembers(entries[..n], nowSeconds, r[i]);
        var k :| 0 <= k < n && entries[..n][k] == r[i];
        assert entries[k].id == r[i].id;
      }
    }
  }

  lemma StepThins(cfg: Config, o: Outside, s: Store, a: Attempt)
    requires Legal(cfg) && !Step(cfg, o, s, a).1.Admitted?
    ensures Thinned(s, Step(cfg, o, s, a).0)
  {
    hide Step, DistinctIds, Surviving;
    StepFacts(cfg, o, s, a);
    var now := a.nowMs / 1000;
    forall e ensures e in Surviving(Used(s), now) ==> e in Used(s) { SurvivingMembers(Used(s), now, e); }
    if DistinctIds(Used(s)) { SurvivorsDistinct(Used(s), now); }
  }

  lemma {:induction false} RunThins(cfg: Config, o: Outside, s: Store, between: seq<Attempt>, n: nat)
    requires Legal(cfg) && n <= |between| && forall i | 0 <= i < n :: !AdmittedAt(cfg, o, s, between, i)
    ensures Thinned(s, StoreAt(cfg, o, s, between, n))
  {
    hide Step, DistinctIds;
    if n > 0 {
      RunThins(cfg, o, s, between, n - 1);
      assert !AdmittedAt(cfg, o, s, between, n - 1);
      StepThins(cfg, o, StoreAt(cfg, o, s, between, n - 1), between[n - 1]);
    }
  }

  /** A throttled authorization is not consumed: presented again k whole seconds later, while it has not
      expired and after any calls that admitted nothing, it is admitted if and only if k is at least the
      Retry-After that was answered. */
  lemma RetryAfterIsExact(cfg: Config, o: Outside, s: Store, at: seq<int>, a: Attempt, between: seq<Attempt>, k: int)
    requires Legal(cfg) && Fits(cfg, s, at) && Step(cfg, o, s, a).1.Throttled?
    requires forall i | 0 <= i < |between| :: !AdmittedAt(cfg, o, Step(cfg, o, s, a).0, between, i)
    requires 1 <= k && a.nowMs + 1000 * k <= MAX_SAFE_INTEGER && (a.nowMs + 1000 * k) / 1000 <= a.credential.expiresAt
    ensures var t := StoreAt(cfg, o, Step(cfg, o, s, a).0, between, |between|);
            Step(cfg, o, t, Attempt(a.credential, a.nowMs + 1000 * k)).1.Admitted? <==>
              k >= ParseDecimal(Step(cfg, o, s, a).1.retryAfter)
  {
    hide Step, NormalizeChallenge, EntriesOk, Surviving, HasId, MaxUsed, DistinctIds, IsDigest, NormalizeRetryAfter;
    var later := a.nowMs + 1000 * k;
    var u := Step(cfg, o, s, a).0;
    var t := StoreAt(cfg, o, u, between, |between|);
    ThrottleFacts(cfg, o, s, a);
    RetryAfterIsLeast(cfg, o, s, a);
    StepThins(cfg, o, s, a);
    RunThins(cfg, o, u, between, |between|);
    assert (later >= s.notBefore.value) <==> k >= ParseDecimal(Step(cfg, o, s, a).1.retryAfter);
    LaterChallenge(cfg, o, a.credential, a.nowMs / 1000, later / 1000);
    LaterEntries(cfg, s, t, a.nowMs / 1000, later / 1000, ReplayId(cfg, o, a.credential, a.nowMs));
    SameReplayId(cfg, o, a.credential, a.nowMs, later);
    RetryOutcome(cfg, o, t, Attempt(a.credential, later));
  }

  lemma LaterChallenge(cfg: Config, o: Outside, c: Credential, now: int, later: int)
    requires NormalizeChallenge(cfg, o, c, now).Ok? && now <= later <= c.expiresAt
    ensures NormalizeChallenge(cfg, o, c, later) == NormalizeChallenge(cfg, o, c, now)
  {
    hide CredentialHash, OwnerMessage;
  }

  lemma SameReplayId(cfg: Config, o: Outside, c: Credential, nowMs: int, laterMs: int)
    requires NormalizeChallenge(cfg, o, c, nowMs / 1000) == NormalizeChallenge(cfg, o, c, laterMs / 1000)
    ensures ReplayId(cfg, o, c, nowMs) == ReplayId(cfg, o, c, laterMs)
  {
    hide NormalizeChallenge;
  }

  lemma LaterEntries(cfg: Config, s: Store, t: Store, now: int, later: int, id: string)
    requires Legal(cfg) && Thinned(s, t) && EntriesOk(cfg, Used(s), now) && now <= later
    requires !HasId(Surviving(Used(s), now), id) && |Used(s)| < MaxUsed(cfg)
    ensures EntriesOk(cfg, Used(t), later) && !HasId(Surviving(Used(t), later), id)
    ensures |Surviving(Used(t), later)| < MaxUsed(cfg)
  {
    hide Surviving, MaxUsed, IsDigest, DistinctIds;
    forall i | 0 <= i < |Used(t)| ensures EntryOk(cfg, Used(t)[i], later) {
      assert Used(t)[i] in Used(s);
    }
    var x, y := Surviving(Used(s), now), Surviving(Used(t), later);
    forall i | 0 <= i < |y| ensures y[i].id != id {
      SurvivingMembers(Used(t), later, y[i]);
      SurvivingMembers(Used(s), now, y[i]);
      var k :| 0 <= k < |x| && x[k] == y[i];
      assert x[k].id != id;
    }
  }

  lemma RetryOutcome(cfg: Config, o: Outside, t: Store, a: Attempt)
    requires Legal(cfg) && 0 <= a.nowMs <= MAX_SAFE_INTEGER
             && NormalizeChallenge(cfg, o, a.credential, a.nowMs / 1000).Ok?
    requires t.notBefore.Some? && 0 <= t.notBefore.value <= MAX_SAFE_INTEGER
             && t.notBefore.value <= a.nowMs + cfg.intervalMs
    requires EntriesOk(cfg, Used(t), a.nowMs / 1000)
             && !HasId(Surviving(Used(t), a.nowMs / 1000), ReplayId(cfg, o, a.credential, a.nowMs))
    requires |Surviving(Used(t), a.nowMs / 1000)| < MaxUsed(cfg)
    ensures Step(cfg, o, t, a).1.Admitted? <==> a.nowMs >= t.notBefore.value
  {
    hide NormalizeChallenge, EntriesOk, Surviving, HasId, MaxUsed, RetrySeconds, Decimal;
  }

  // ---- receipts ----

  /** A receipt the service issued passes its own verification, for every message and key, provided
      the HMAC has 32 bytes. */
  lemma IssuedReceiptVerifies(o: Outside, key: string, message: string)
    requires |o.mac(key, ReceiptMessage(message))| == 32
    ensures var text := IssueText(o, key, message);
            IsReceiptText(text) && DecodeReceipt(text) == Some(o.mac(key, ReceiptMessage(message)))
  {
    hide Encode, Decode, ReceiptMessage, Canonical;
    var b := o.mac(key, ReceiptMessage(message));
    DecodeEncode(b);
    ReceiptLength(b);
    assert ("v1." + Encode(b))[3..] == Encode(b);
  }

  lemma ReceiptLength(b: seq<byte>)
    requires |b| == 32
    ensures |Encode(b)| == 43 && forall i | 0 <= i < 43 :: IsUrlChar(Encode(b)[i])
  {
    EncodeIsSextets(b);
    SextetLength(b);
    forall i | 0 <= i < 43 ensures IsUrlChar(Encode(b)[i]) { UrlChars(Sextets(b)[i]); }
  }

  lemma {:induction false} SextetLength(b: seq<byte>)
    ensures |Sextets(b)| == (4 * |b| + 2) / 3
  {
    hide S0, S1, S2, S3;
    if |b| >= 3 { SextetLength(b[3..]); }
  }
}
