/** Who is admitted and why anyone else is refused, said of the presented text, the stored values and the
    two clock readings alone. */
module FreshReadLaws {
  import opened Wrappers
  import opened Numbers
  import opened Text
  import opened Consent
  import opened FreshRead
  import FreshReadCapacity
  import FreshReadRuns
  import opened TextLaws
  import opened Base64Url

  // ---- the configuration ----

  /** Intervals of one second to a minute in whole seconds, lifetimes of one minute to fifteen, and at most five
      minutes of skew. */
  lemma LegalIs(cfg: Config)
    ensures Legal(cfg) <==>
              && (exists seconds :: 1 <= seconds <= 60 && cfg.intervalMs == seconds * 1000)
              && 60 <= cfg.lifetime <= 15 * 60 && 0 <= cfg.skew <= 5 * 60
  {
    if Legal(cfg) { assert cfg.intervalMs == cfg.intervalMs / 1000 * 1000; }
  }

  // ---- what a credential has to be ----

  /** The presented text is the one base64url spelling of the JSON of this credential. */
  ghost predicate Carries(o: Outside, text: string, c: Credential) {
    1 <= |text| <= 2048 && exists b :: Encode(b) == text && o.json(b) == Some(c)
  }

  /** A nonzero wallet, two different transaction hashes whatever their case, and two positive safe times. */
  ghost predicate WellFormed(o: Outside, c: Credential, wallet: string) {
    && o.address(c.wallet) == Some(wallet) && wallet != ZERO_ADDRESS
    && IsHexText(c.failedTransactionHash, 64) && IsHexText(c.successfulTransactionHash, 64)
    && Lower(c.failedTransactionHash) != Lower(c.successfulTransactionHash)
    && 0 < c.issuedAt <= MAX_SAFE_INTEGER && 0 < c.expiresAt <= MAX_SAFE_INTEGER
  }

  ghost predicate Current(cfg: Config, c: Credential, ms: int) {
    && 0 <= ms <= MAX_SAFE_INTEGER
    && c.issuedAt - cfg.skew <= ms / 1000 <= c.expiresAt && c.expiresAt - c.issuedAt == cfg.lifetime
  }

  /** The consent text of this wallet for this pair, at the configured boundary. */
  ghost function SignedText(cfg: Config, c: Credential, wallet: string): string {
    OwnerMessage(OwnerChallenge(
      cfg.publicOrigin, cfg.settlementChainId, cfg.poolAddress, cfg.campaignNumber, wallet,
      Lower(c.failedTransactionHash), Lower(c.successfulTransactionHash), Nat(c.issuedAt), Nat(c.expiresAt)))
  }

  /** The receipt is the stored key's code of the receipt text, and the signature recovers to the wallet. */
  ghost predicate Vouched(cfg: Config, o: Outside, key: string, c: Credential, wallet: string) {
    var text := SignedText(cfg, c, wallet);
    var code := o.mac(key, ReceiptMessage(text));
    && |code| == 32 && c.receipt == "v1." + Encode(code)
    && o.signer(text, c.signature) == Some(wallet)
  }

  ghost predicate Verified(cfg: Config, o: Outside, s: Store, text: string, ms: int, c: Credential, wallet: string) {
    && Carries(o, text, c) && WellFormed(o, c, wallet) && IsHexText(c.signature, 130)
    && s.key.Some? && IsDigest(s.key.value) && Vouched(cfg, o, s.key.value, c, wallet)
    && Current(cfg, c, ms)
  }

  // ---- what storage has to hold ----

  /** No stored gate, or one a safe integer at most an interval ahead. */
  ghost predicate GateSound(cfg: Config, s: Store, ms: int) {
    s.notBefore.None? || (0 <= s.notBefore.value <= MAX_SAFE_INTEGER && s.notBefore.value - ms <= cfg.intervalMs)
  }

  ghost function Bound(cfg: Config): int
    requires Legal(cfg)
  {
    CeilDiv((cfg.lifetime + cfg.skew + 1) * 1000, cfg.intervalMs) + 1
  }

  ghost predicate ListSound(cfg: Config, s: Store, sec: int)
    requires Legal(cfg)
  {
    var used := Used(s);
    && |used| <= Bound(cfg)
    && (forall i, j | 0 <= i < j < |used| :: used[i].id != used[j].id)
    && (forall i | 0 <= i < |used| :: IsDigest(used[i].id) && 0 < used[i].expiresAt <= MAX_SAFE_INTEGER
                                      && used[i].expiresAt - sec <= cfg.lifetime + cfg.skew + 1)
  }

  /** An unexpired entry holds the digest. */
  ghost predicate Spent(s: Store, sec: int, id: string) {
    exists i | 0 <= i < |Used(s)| :: Used(s)[i].id == id && sec <= Used(s)[i].expiresAt
  }

  ghost predicate Open(s: Store, ms: int) { s.notBefore.Some? ==> s.notBefore.value <= ms }

  // ---- pruning ----

  /** Pruning goes entry by entry and keeps the order. */
  lemma {:induction false} SurvivingConcat(a: seq<Entry>, b: seq<Entry>, sec: int)
    ensures Surviving(a + b, sec) == Surviving(a, sec) + Surviving(b, sec)
  {
    if b == [] {
      assert a + b == a;
    } else {
      var n := |b| - 1;
      assert (a + b)[..|a| + n] == a + b[..n];
      SurvivingConcat(a, b[..n], sec);
    }
  }

  /** One entry stays exactly until its expiry, that second included. */
  lemma SurvivingOne(e: Entry, sec: int)
    ensures Surviving([e], sec) == if sec <= e.expiresAt then [e] else []
  {
    assert [e][..0] == [];
  }

  lemma SpentIffListed(s: Store, sec: int, id: string)
    ensures HasId(Surviving(Used(s), sec), id) <==> Spent(s, sec, id)
  {
    var r := Surviving(Used(s), sec);
    if HasId(r, id) {
      var k :| 0 <= k < |r| && r[k].id == id;
      FreshReadRuns.SurvivingMembers(Used(s), sec, r[k]);
    }
    if Spent(s, sec, id) {
      var i :| 0 <= i < |Used(s)| && Used(s)[i].id == id && sec <= Used(s)[i].expiresAt;
      FreshReadRuns.SurvivingMembers(Used(s), sec, Used(s)[i]);
      var k :| 0 <= k < |r| && r[k] == Used(s)[i];
      assert r[k].id == id;
    }
  }

  // ---- decoding ----

  lemma EncodingIsUrlText(b: seq<byte>)
    ensures IsUrlText(Encode(b))
  {
    DecodeEncode(b);
  }

  lemma DecodedIff(o: Outside, text: string, c: Credential)
    ensures DecodeCredential(o, text) == Some(c) <==>
              Carries(o, text, c) && IsHexText(c.signature, 130) && IsReceiptText(c.receipt)
  {
    hide Encode, Decode, IsUrlText, IsHexText, IsReceiptText, Canonical;
    if Carries(o, text, c) {
      var b :| Encode(b) == text && o.json(b) == Some(c);
      EncodingIsUrlText(b);
      DecodeEncode(b);
    }
  }

  lemma ReceiptIff(receipt: string, code: seq<byte>)
    ensures IsReceiptText(receipt) && DecodeReceipt(receipt) == Some(code) <==>
              |code| == 32 && receipt == "v1." + Encode(code)
  {
    hide Encode, Decode, IsUrlText, Canonical, IsUrlChar;
    if |code| == 32 && receipt == "v1." + Encode(code) {
      assert receipt[3..] == Encode(code);
      FreshReadCapacity.ReceiptLength(code);
      DecodeEncode(code);
    }
    if IsReceiptText(receipt) && DecodeReceipt(receipt) == Some(code) {
      assert receipt == receipt[..3] + receipt[3..];
    }
  }

  // ---- the challenge ----

  /** Which challenges pass and which of the three refusals the others get, at any second. */
  lemma ChallengeAnswer(cfg: Config, o: Outside, c: Credential, sec: int)
    ensures var r := NormalizeChallenge(cfg, o, c, sec);
            var formed := exists wallet :: WellFormed(o, c, wallet);
            var early, span := c.issuedAt - cfg.skew > sec, c.expiresAt - c.issuedAt;
            && (r == Err(AuthorizationInvalid) <==> !formed)
            && (r == Err(NotActiveYet) <==> formed && early)
            && (r == Err(ChallengeExpired) <==> formed && !early && (span != cfg.lifetime || sec > c.expiresAt))
            && (r.Ok? <==> formed && !early && span == cfg.lifetime && sec <= c.expiresAt)
            && (r.Ok? ==> WellFormed(o, c, r.value.fields.wallet)
                          && r.value.message == SignedText(cfg, c, r.value.fields.wallet))
  {
    hide OwnerMessage, IsHexText, Lower;
    var r := NormalizeChallenge(cfg, o, c, sec);
    if o.address(c.wallet).Some? {
      assert WellFormed(o, c, o.address(c.wallet).value) <==> r != Err(AuthorizationInvalid);
    }
  }

  lemma WalletIsUnique(o: Outside, c: Credential, v: string, w: string)
    requires WellFormed(o, c, v) && WellFormed(o, c, w)
    ensures v == w
  {
  }

  // ---- verification ----

  /** Verification accepts exactly the credentials that are carried, well formed, vouched for and current. */
  lemma VerifiedIff(cfg: Config, o: Outside, s: Store, text: string, ms: int, c: Credential)
    ensures Verify(cfg, o, s, text, ms) == Ok(c) <==> exists wallet :: Verified(cfg, o, s, text, ms, c, wallet)
  {
    hide NormalizeChallenge, DecodeCredential, DecodeReceipt, Carries, WellFormed, IsHexText, IsReceiptText, Encode,
         SignedText, ReceiptMessage, IsDigest;
    if Verify(cfg, o, s, text, ms) == Ok(c) {
      DecodedIff(o, text, c);
      ChallengeAnswer(cfg, o, c, ms / 1000);
      var challenge := NormalizeChallenge(cfg, o, c, ms / 1000).value;
      ReceiptIff(c.receipt, o.mac(s.key.value, ReceiptMessage(challenge.message)));
      assert Verified(cfg, o, s, text, ms, c, challenge.fields.wallet);
    }
    if exists wallet :: Verified(cfg, o, s, text, ms, c, wallet) {
      var wallet :| Verified(cfg, o, s, text, ms, c, wallet);
      VerifiedPasses(cfg, o, s, text, ms, c, wallet);
    }
  }

  lemma VerifiedPasses(cfg: Config, o: Outside, s: Store, text: string, ms: int, c: Credential, wallet: string)
    requires Verified(cfg, o, s, text, ms, c, wallet)
    ensures Verify(cfg, o, s, text, ms) == Ok(c)
    ensures NormalizeChallenge(cfg, o, c, ms / 1000).Ok?
            && NormalizeChallenge(cfg, o, c, ms / 1000).value.message == SignedText(cfg, c, wallet)
    ensures ReplayId(cfg, o, c, ms) == o.digest(SignedText(cfg, c, wallet))
  {
    hide NormalizeChallenge, DecodeCredential, DecodeReceipt, Carries, WellFormed, IsHexText, IsReceiptText, Encode,
         SignedText, ReceiptMessage, IsDigest;
    ReceiptIff(c.receipt, o.mac(s.key.value, ReceiptMessage(SignedText(cfg, c, wallet))));
    DecodedIff(o, text, c);
    ChallengeAnswer(cfg, o, c, ms / 1000);
    WalletIsUnique(o, c, wallet, NormalizeChallenge(cfg, o, c, ms / 1000).value.fields.wallet);
  }

  /** The text carries a credential whose signature and receipt have their forms. */
  ghost predicate Readable(o: Outside, text: string, c: Credential) {
    && Carries(o, text, c) && IsHexText(c.signature, 130)
    && |c.receipt| == 46 && c.receipt[..3] == "v1." && forall ch | ch in c.receipt[3..] :: IsUrlChar(ch)
  }

  lemma ReceiptFormIs(s: string)
    ensures IsReceiptText(s) <==> |s| == 46 && s[..3] == "v1." && forall ch | ch in s[3..] :: IsUrlChar(ch)
  {
    if |s| == 46 && forall ch | ch in s[3..] :: IsUrlChar(ch) {
      forall i | 3 <= i < 46 ensures IsUrlChar(s[i]) { assert s[3..][i - 3] in s[3..]; }
    }
  }

  /** What is not verified is refused and writes nothing: without a clock as unavailable, and a text that
      carries no credential of the right form as invalid. */
  lemma UnverifiedAnswer(cfg: Config, o: Outside, s: Store, text: string, startMs: int, commitMs: int)
    requires Legal(cfg) && forall c, wallet :: !Verified(cfg, o, s, text, startMs, c, wallet)
    ensures var (t, answer) := AdmitStep(cfg, o, s, text, startMs, commitMs);
            var read := 0 <= startMs <= MAX_SAFE_INTEGER;
            && t == s && answer.Refused? && (answer == Refused(GateUnavailable) <==> !read)
            && (read && (forall c :: !Readable(o, text, c)) ==> answer == Refused(AuthorizationInvalid))
  {
    hide Verified, NormalizeChallenge, DecodeCredential, DecodeReceipt, Carries, IsHexText, IsReceiptText, IsDigest,
         ReceiptMessage;
    var v := Verify(cfg, o, s, text, startMs);
    if v.Ok? { VerifiedIff(cfg, o, s, text, startMs, v.value); }
    var d := DecodeCredential(o, text);
    if d.Some? {
      DecodedIff(o, text, d.value);
      ReceiptFormIs(d.value.receipt);
      ChallengeAnswer(cfg, o, d.value, startMs / 1000);
      assert Readable(o, text, d.value);
    }
  }

  /** A credential of the right form is refused before the transaction for its fields, for its times, for the
      missing key, or because no wallet vouches for it, in this order. */
  lemma UnverifiedReason(cfg: Config, o: Outside, s: Store, text: string, startMs: int, commitMs: int, c: Credential)
    requires Legal(cfg) && 0 <= startMs <= MAX_SAFE_INTEGER && Readable(o, text, c)
    requires forall wallet :: !Verified(cfg, o, s, text, startMs, c, wallet)
    ensures var sec, formed := startMs / 1000, exists wallet :: WellFormed(o, c, wallet);
            AdmitStep(cfg, o, s, text, startMs, commitMs) == (s, Refused(
              if !formed then AuthorizationInvalid
              else if c.issuedAt - cfg.skew > sec then NotActiveYet
              else if !Current(cfg, c, startMs) then ChallengeExpired
              else if s.key.None? || !IsDigest(s.key.value) then StateInvalid
              else AuthorizationInvalid))
  {
    hide Verified, NormalizeChallenge, DecodeCredential, DecodeReceipt, Carries, WellFormed, IsHexText, IsReceiptText,
         IsDigest, ReceiptMessage;
    var v := Verify(cfg, o, s, text, startMs);
    DecodedIff(o, text, c);
    ReceiptFormIs(c.receipt);
    if v.Ok? { VerifiedIff(cfg, o, s, text, startMs, c); }
    ChallengeAnswer(cfg, o, c, startMs / 1000);
  }

  // ---- admission ----

  /** A verified presentation: every answer of its transaction and what it leaves, by the second reading. */
  lemma VerifiedAnswer(cfg: Config, o: Outside, s: Store, text: string, startMs: int, commitMs: int,
      c: Credential, wallet: string)
    requires Legal(cfg) && Verified(cfg, o, s, text, startMs, c, wallet)
    ensures var (t, answer) := AdmitStep(cfg, o, s, text, startMs, commitMs);
            var sec, id := commitMs / 1000, o.digest(SignedText(cfg, c, wallet));
            var read := 0 <= commitMs <= MAX_SAFE_INTEGER;
            var sound := Current(cfg, c, commitMs) && GateSound(cfg, s, commitMs) && ListSound(cfg, s, sec);
            var spent, open := Spent(s, sec, id), Open(s, commitMs);
            var full := |Surviving(Used(s), sec)| >= Bound(cfg);
            && (answer == Refused(GateUnavailable) <==> !read)
            && (answer == Refused(NotActiveYet) <==> read && sec < c.issuedAt - cfg.skew)
            && (answer == Refused(ChallengeExpired) <==> read && sec > c.expiresAt)
            && (answer == Refused(AuthorizationUsed) <==> sound && spent)
            && (answer.Throttled? <==> sound && !spent && !open)
            && (answer.Admitted? <==> sound && !spent && open && !full)
            && (answer == Refused(StateInvalid) <==>
                  Current(cfg, c, commitMs) && (!sound || (!spent && open && full)))
            && t == if answer.Admitted? then
                      s.(notBefore := Some(commitMs + cfg.intervalMs),
                         used := Some(Surviving(Used(s), sec) + [Entry(id, c.expiresAt)]))
                    else if answer.Throttled? && Surviving(Used(s), sec) != Used(s) then
                      s.(used := Some(Surviving(Used(s), sec)))
                    else s
  {
    hide Verify, NormalizeChallenge, Carries, Vouched, SignedText, Surviving, HasId, IsDigest, IsHexText, Decimal,
         RetrySeconds, WellFormed, Spent;
    VerifiedPasses(cfg, o, s, text, startMs, c, wallet);
    ChallengeAnswer(cfg, o, c, commitMs / 1000);
    assert WellFormed(o, c, wallet);
    SpentIffListed(s, commitMs / 1000, o.digest(SignedText(cfg, c, wallet)));
    SurvivingAll(Used(s), commitMs / 1000);
  }

  lemma {:induction false} SurvivingAll(entries: seq<Entry>, sec: int)
    ensures Surviving(entries, sec) == entries <==> |Surviving(entries, sec)| == |entries|
  {
    if entries != [] {
      var n := |entries| - 1;
      SurvivingAll(entries[..n], sec);
      assert entries == entries[..n] + [entries[n]];
    }
  }

  /** Admission as one equivalence over the inputs: the text carries a well-formed credential whose receipt is
      the stored key's code and whose signature recovers to its own wallet, its challenge is current at both
      readings, the stored gate and list are sound, the gate is open, the digest is not remembered and there is
      room. */
  lemma AdmitIff(cfg: Config, o: Outside, s: Store, text: string, startMs: int, commitMs: int)
    requires Legal(cfg)
    ensures AdmitStep(cfg, o, s, text, startMs, commitMs).1.Admitted? <==>
              exists c, wallet ::
                && Verified(cfg, o, s, text, startMs, c, wallet) && Current(cfg, c, commitMs)
                && GateSound(cfg, s, commitMs) && ListSound(cfg, s, commitMs / 1000) && Open(s, commitMs)
                && !Spent(s, commitMs / 1000, o.digest(SignedText(cfg, c, wallet)))
                && |Surviving(Used(s), commitMs / 1000)| < Bound(cfg)
  {
    hide AdmitStep, Verified, Current, GateSound, ListSound, Open, Spent, SignedText, Surviving, Bound;
    if exists c, wallet :: Verified(cfg, o, s, text, startMs, c, wallet) {
      forall c, wallet | Verified(cfg, o, s, text, startMs, c, wallet)
        ensures AdmitStep(cfg, o, s, text, startMs, commitMs).1.Admitted? <==>
                  && Current(cfg, c, commitMs)
                  && GateSound(cfg, s, commitMs) && ListSound(cfg, s, commitMs / 1000) && Open(s, commitMs)
                  && !Spent(s, commitMs / 1000, o.digest(SignedText(cfg, c, wallet)))
                  && |Surviving(Used(s), commitMs / 1000)| < Bound(cfg)
      {
        VerifiedAnswer(cfg, o, s, text, startMs, commitMs, c, wallet);
      }
    } else {
      UnverifiedAnswer(cfg, o, s, text, startMs, commitMs);
    }
  }

  /** End to end: a wallet that signs the text of a current challenge, with the receipt the service issues for
      it under a stored key, is admitted by a service that has admitted nobody yet. */
  lemma SignedCredentialIsAdmitted(cfg: Config, o: Outside, s: Store, b: seq<byte>, c: Credential, wallet: string,
      startMs: int, commitMs: int)
    requires Legal(cfg) && s.notBefore.None? && Used(s) == [] && s.key.Some? && IsDigest(s.key.value)
    requires o.json(b) == Some(c) && 1 <= |Encode(b)| <= 2048 && WellFormed(o, c, wallet) && IsHexText(c.signature, 130)
    requires o.signer(SignedText(cfg, c, wallet), c.signature) == Some(wallet)
    requires |o.mac(s.key.value, ReceiptMessage(SignedText(cfg, c, wallet)))| == 32
    requires c.receipt == IssueText(o, s.key.value, SignedText(cfg, c, wallet))
    requires Current(cfg, c, startMs) && Current(cfg, c, commitMs)
    ensures AdmitStep(cfg, o, s, Encode(b), startMs, commitMs).1.Admitted?
  {
    hide AdmitStep, Current, SignedText, WellFormed, IsHexText, IsDigest, Encode, Surviving, ReceiptMessage;
    assert Carries(o, Encode(b), c);
    assert Verified(cfg, o, s, Encode(b), startMs, c, wallet);
    SurvivingNone(commitMs / 1000);
    RoomForOne(cfg);
    VerifiedAnswer(cfg, o, s, Encode(b), startMs, commitMs, c, wallet);
  }

  lemma SurvivingNone(sec: int)
    ensures Surviving([], sec) == []
  {
  }

  lemma RoomForOne(cfg: Config)
    requires Legal(cfg)
    ensures 0 < Bound(cfg)
  {
    FreshReadCapacity.CountBelow(0, cfg.intervalMs, (cfg.lifetime + cfg.skew + 1) * 1000);
  }

  // ---- the receipt key ----

  /** The text of a new key spells its bytes, two hex digits each, and 32 bytes make a key that is accepted. */
  lemma KeyTextIs(b: seq<byte>)
    ensures |EncodeHex(b)| == 2 * |b| && (IsDigest(EncodeHex(b)) <==> |b| == 32)
    ensures forall i | 0 <= i < |b| ::
              && HexValue(EncodeHex(b)[2 * i]) == Some(b[i] / 16)
              && HexValue(EncodeHex(b)[2 * i + 1]) == Some(b[i] % 16)
  {
    forall i | 0 <= i < |b|
      ensures HexValue(EncodeHex(b)[2 * i]) == Some(b[i] / 16) && HexValue(EncodeHex(b)[2 * i + 1]) == Some(b[i] % 16)
    {
      HexDigitIs(b[i] / 16);
      HexDigitIs(b[i] % 16);
    }
  }
}
