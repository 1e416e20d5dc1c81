/** What holds of every run of the signed gate, for clock readings that may jump either way. */
module FreshReadRuns {
  import opened Wrappers
  import opened Text
  import opened Consent
  import opened FreshRead
  import Base64Url

  /** One verified credential presented to the transaction at a reading. */
  datatype Attempt = Attempt(credential: Credential, nowMs: int)

  function Step(cfg: Config, o: Outside, s: Store, a: Attempt): (Store, Outcome)
    requires Legal(cfg)
  {
    Commit(cfg, o, s, a.credential, ReplayId(cfg, o, a.credential, a.nowMs), a.nowMs)
  }

  ghost function StoreAt(cfg: Config, o: Outside, s0: Store, attempts: seq<Attempt>, n: nat): Store
    requires Legal(cfg) && n <= |attempts|
  {
    if n == 0 then s0 else Step(cfg, o, StoreAt(cfg, o, s0, attempts, n - 1), attempts[n - 1]).0
  }

  ghost predicate AdmittedAt(cfg: Config, o: Outside, s0: Store, attempts: seq<Attempt>, i: nat)
    requires Legal(cfg) && i < |attempts|
  {
    Step(cfg, o, StoreAt(cfg, o, s0, attempts, i), attempts[i]).1.Admitted?
  }

  /** A call of admit is such a step whenever its verification succeeds, although it derives the
      replay identity at an earlier reading. */
  lemma AdmitIsStep(cfg: Config, o: Outside, s: Store, text: string, startMs: int, commitMs: int)
    requires Legal(cfg) && Verify(cfg, o, s, text, startMs).Ok?
    ensures var c := Verify(cfg, o, s, text, startMs).value;
            Commit(cfg, o, s, c, ReplayId(cfg, o, c, startMs), commitMs) == Step(cfg, o, s, Attempt(c, commitMs))
  {
    hide EntriesOk, Surviving, HasId, MaxUsed, RetrySeconds, DecodeCredential, DecodeReceipt, OwnerMessage;
  }

  // ---- one step ----

  ghost predicate NotBefore(s: Store, ms: int) { s.notBefore.Some? && ms <= s.notBefore.value }

  /** What an admission requires and writes. */
  ghost predicate AdmissionFacts(cfg: Config, o: Outside, s: Store, t: Store, a: Attempt)
    requires Legal(cfg)
  {
    var nowSeconds := a.nowMs / 1000;
    var challenge := NormalizeChallenge(cfg, o, a.credential, nowSeconds);
    var entries := Surviving(Used(s), nowSeconds);
    && challenge.Ok?
    && nowSeconds <= a.credential.expiresAt <= nowSeconds + cfg.skew + cfg.lifetime
    && (s.notBefore.Some? ==> s.notBefore.value <= a.nowMs)
    && !HasId(entries, o.digest(challenge.value.message))
    && t == Store(s.key, Some(a.nowMs + cfg.intervalMs),
                  Some(entries + [Entry(o.digest(challenge.value.message), a.credential.expiresAt)]))
  }

  /** What any other outcome leaves: everything, or the list pruned at a reading before the gate opens. */
  ghost predicate OtherFacts(s: Store, t: Store, nowMs: int) {
    || t == s
    || (t == s.(used := Some(Surviving(Used(s), nowMs / 1000))) && s.notBefore.Some? && nowMs < s.notBefore.value)
  }

  lemma StepFacts(cfg: Config, o: Outside, s: Store, a: Attempt)
    requires Legal(cfg)
    ensures var (t, outcome) := Step(cfg, o, s, a);
            if outcome.Admitted? then AdmissionFacts(cfg, o, s, t, a) else OtherFacts(s, t, a.nowMs)
  {
    hide EntriesOk, Surviving, HasId, MaxUsed, RetrySeconds, OwnerMessage, CredentialHash;
  }

  /** The gate never moves back. */
  lemma {:induction false} GateAdvances(cfg: Config, o: Outside, s0: Store, attempts: seq<Attempt>, i: nat, j: nat)
    requires Legal(cfg) && i <= j <= |attempts|
    ensures var s, t := StoreAt(cfg, o, s0, attempts, i), StoreAt(cfg, o, s0, attempts, j);
            s.notBefore.Some? ==> NotBefore(t, s.notBefore.value)
  {
    hide Step, NormalizeChallenge, Surviving, HasId;
    if i < j {
      GateAdvances(cfg, o, s0, attempts, i, j - 1);
      StepFacts(cfg, o, StoreAt(cfg, o, s0, attempts, j - 1), attempts[j - 1]);
    }
  }

  /** Two admissions are at least the interval apart. */
  lemma AdmissionsAreSpaced(cfg: Config, o: Outside, s0: Store, attempts: seq<Attempt>, i: nat, j: nat)
    requires Legal(cfg) && i < j < |attempts|
    requires AdmittedAt(cfg, o, s0, attempts, i) && AdmittedAt(cfg, o, s0, attempts, j)
    ensures attempts[j].nowMs >= attempts[i].nowMs + cfg.intervalMs
  {
    hide Step, NormalizeChallenge, Surviving, HasId;
    StepFacts(cfg, o, StoreAt(cfg, o, s0, attempts, i), attempts[i]);
    GateAdvances(cfg, o, s0, attempts, i + 1, j);
    StepFacts(cfg, o, StoreAt(cfg, o, s0, attempts, j), attempts[j]);
  }

  // ---- pruning and replay ----

  lemma {:induction false} SurvivingMembers(entries: seq<Entry>, nowSeconds: int, e: Entry)
    ensures e in Surviving(entries, nowSeconds) <==> e in entries && e.expiresAt >= nowSeconds
  {
    if entries != [] {
      var n := |entries| - 1;
      SurvivingMembers(entries[..n], nowSeconds, e);
      assert entries == entries[..n] + [entries[n]];
    }
  }

  /** An entry that a step drops had expired at that reading, and the gate is now past it. */
  lemma DroppedEntry(cfg: Config, o: Outside, s: Store, a: Attempt, e: Entry)
    requires Legal(cfg) && e in Used(s) && e !in Used(Step(cfg, o, s, a).0)
    ensures e.expiresAt < a.nowMs / 1000 && NotBefore(Step(cfg, o, s, a).0, a.nowMs + 1)
  {
    hide Step, NormalizeChallenge, HasId;
    StepFacts(cfg, o, s, a);
    SurvivingMembers(Used(s), a.nowMs / 1000, e);
  }

  /** So it is expired at every later reading that admits. */
  lemma PrunedIsExpiredLater(cfg: Config, o: Outside, s0: Store, attempts: seq<Attempt>, i: nat, j: nat, e: Entry)
    requires Legal(cfg) && i < j < |attempts| && AdmittedAt(cfg, o, s0, attempts, j)
    requires e in Used(StoreAt(cfg, o, s0, attempts, i)) && e !in Used(StoreAt(cfg, o, s0, attempts, i + 1))
    ensures e.expiresAt < attempts[j].nowMs / 1000
  {
    hide Step, NormalizeChallenge, Surviving, HasId;
    DroppedEntry(cfg, o, StoreAt(cfg, o, s0, attempts, i), attempts[i], e);
    GateAdvances(cfg, o, s0, attempts, i + 1, j);
    StepFacts(cfg, o, StoreAt(cfg, o, s0, attempts, j), attempts[j]);
  }

  /** Remembered as used, or expired before the gate can open again. */
  ghost predicate Spent(s: Store, e: Entry) {
    e in Used(s) || (s.notBefore.Some? && e.expiresAt < (s.notBefore.value - 1) / 1000)
  }

  lemma {:induction false} SpentForever(cfg: Config, o: Outside, s0: Store, attempts: seq<Attempt>, i: nat, j: nat,
      e: Entry)
    requires Legal(cfg) && i <= j <= |attempts| && Spent(StoreAt(cfg, o, s0, attempts, i), e)
    ensures Spent(StoreAt(cfg, o, s0, attempts, j), e)
  {
    hide Step, NormalizeChallenge, Surviving, HasId;
    if i < j {
      SpentForever(cfg, o, s0, attempts, i, j - 1, e);
      var s, a := StoreAt(cfg, o, s0, attempts, j - 1), attempts[j - 1];
      var t := Step(cfg, o, s, a).0;
      if e in Used(s) && e !in Used(t) {
        DroppedEntry(cfg, o, s, a, e);
        SecondsMonotone(a.nowMs, t.notBefore.value - 1);
      } else if e !in Used(s) {
        GateAdvances(cfg, o, s0, attempts, j - 1, j);
        SecondsMonotone(s.notBefore.value - 1, t.notBefore.value - 1);
      }
    }
  }

  lemma SecondsMonotone(a: int, b: int)
    ensures a <= b ==> a / 1000 <= b / 1000
  {
  }

  /** A spent entry cannot be admitted again: its identity is refused or its challenge has expired. */
  lemma SpentIsRefused(cfg: Config, o: Outside, s: Store, a: Attempt, e: Entry)
    requires Legal(cfg) && Spent(s, e) && Step(cfg, o, s, a).1.Admitted?
    ensures NormalizeChallenge(cfg, o, a.credential, a.nowMs / 1000).Ok?
    ensures e != Entry(o.digest(NormalizeChallenge(cfg, o, a.credential, a.nowMs / 1000).value.message),
              a.credential.expiresAt)
  {
    hide Step, NormalizeChallenge, Surviving;
    StepFacts(cfg, o, s, a);
    SurvivingMembers(Used(s), a.nowMs / 1000, e);
    if e in Used(s) && e.expiresAt >= a.nowMs / 1000 {
      var entries := Surviving(Used(s), a.nowMs / 1000);
      var k :| 0 <= k < |entries| && entries[k] == e;
      assert entries[k].id == e.id;
    } else if e !in Used(s) {
      SecondsMonotone(s.notBefore.value - 1, a.nowMs);
    }
  }

  ghost predicate PlainBoundary(cfg: Config) { Plain(cfg.publicOrigin) && Plain(cfg.poolAddress) }

  lemma HashPlain(s: string)
    ensures CredentialHash(s).Some? ==> Plain(CredentialHash(s).value)
  {
  }

  lemma FieldsPlain(cfg: Config, o: Outside, c: Credential, nowSeconds: int)
    requires PlainBoundary(cfg) && OutsideOk(o) && NormalizeChallenge(cfg, o, c, nowSeconds).Ok?
    ensures OwnerPlain(NormalizeChallenge(cfg, o, c, nowSeconds).value.fields)
    ensures NormalizeChallenge(cfg, o, c, nowSeconds).value.message ==
              OwnerMessage(NormalizeChallenge(cfg, o, c, nowSeconds).value.fields)
    ensures NormalizeChallenge(cfg, o, c, nowSeconds).value.fields.expiresAt == c.expiresAt
  {
    hide CredentialHash, OwnerMessage;
    HashPlain(c.failedTransactionHash);
    HashPlain(c.successfulTransactionHash);
    assert o.address(c.wallet).Some?;
  }

  /** Replay safety: no signed message is ever admitted twice, whatever the clock and whatever the
      gate held at the start. */
  lemma NoMessageAdmittedTwice(cfg: Config, o: Outside, s0: Store, attempts: seq<Attempt>, i: nat, j: nat)
    requires Legal(cfg) && PlainBoundary(cfg) && OutsideOk(o) && i < j < |attempts|
    requires AdmittedAt(cfg, o, s0, attempts, i) && AdmittedAt(cfg, o, s0, attempts, j)
    ensures var a := NormalizeChallenge(cfg, o, attempts[i].credential, attempts[i].nowMs / 1000);
            var b := NormalizeChallenge(cfg, o, attempts[j].credential, attempts[j].nowMs / 1000);
            a.Ok? && b.Ok? && a.value.message != b.value.message
  {
    hide Step, NormalizeChallenge, Surviving, HasId, OwnerMessage, OutsideOk, PlainBoundary;
    StepFacts(cfg, o, StoreAt(cfg, o, s0, attempts, i), attempts[i]);
    var a := NormalizeChallenge(cfg, o, attempts[i].credential, attempts[i].nowMs / 1000);
    var e := Entry(o.digest(a.value.message), attempts[i].credential.expiresAt);
    SpentForever(cfg, o, s0, attempts, i + 1, j, e);
    SpentIsRefused(cfg, o, StoreAt(cfg, o, s0, attempts, j), attempts[j], e);
    var b := NormalizeChallenge(cfg, o, attempts[j].credential, attempts[j].nowMs / 1000);
    FieldsPlain(cfg, o, attempts[i].credential, attempts[i].nowMs / 1000);
    FieldsPlain(cfg, o, attempts[j].credential, attempts[j].nowMs / 1000);
    if a.value.message == b.value.message {
      OwnerInjective(a.value.fields, b.value.fields);
    }
  }
}
