/** src/cloudflare-fresh-read-admission.mjs: admitting a signed fresh read once, at a minimum interval. */
module FreshRead {
  import opened Wrappers
  import opened Numbers
  import opened Text
  import opened Consent
  import Base64Url

  // ---- configuration ----

  datatype Config = Config(intervalMs: int, lifetime: int, skew: int, publicOrigin: string, poolAddress: string,
                           campaignNumber: nat, settlementChainId: nat)

  predicate Legal(cfg: Config) {
    && 1000 <= cfg.intervalMs <= 60000 && cfg.intervalMs % 1000 == 0
    && 60 <= cfg.lifetime <= 900 && 0 <= cfg.skew <= 300
  }

  /** The longest a signed challenge can stay usable, in milliseconds. */
  function SpanMs(cfg: Config): int {
    (cfg.lifetime + cfg.skew + 1) * 1000
  }

  function MaxUsed(cfg: Config): int
    requires Legal(cfg)
  {
    CeilDiv(SpanMs(cfg), cfg.intervalMs) + 1
  }

  // ---- credentials ----

  datatype Credential = Credential(wallet: string, failedTransactionHash: string, successfulTransactionHash: string,
                                   issuedAt: int, expiresAt: int, signature: string, receipt: string)

  datatype Refusal =
    | NotActiveYet | ChallengeExpired | AuthorizationInvalid | AuthorizationUsed | StateInvalid | GateUnavailable

  /** The outside functions: address checksumming, signer recovery, the receipt key's HMAC, the
      SHA-256 of a message as hex, and JSON reading. Arbitrary functions of their arguments. */
  datatype Outside = Outside(
    address: string -> Option<string>, signer: (string, string) -> Option<string>,
    mac: (string, string) -> seq<Base64Url.byte>, digest: string -> string,
    json: seq<Base64Url.byte> -> Option<Credential>)

  /** A checksummed address is plain text, and a digest is 64 hex digits. */
  ghost predicate OutsideOk(o: Outside) {
    && (forall s :: o.address(s).Some? ==> Plain(o.address(s).value))
    && (forall s :: IsDigest(o.digest(s)))
  }

  function CredentialHash(s: string): Option<string> {
    if IsHexText(s, 64) then Some(Lower(s)) else None
  }

  const ZERO_ADDRESS: string := "0x0000000000000000" + "000000000000000000000000"

  datatype Challenge = Challenge(fields: OwnerChallenge, message: string)

  function NormalizeChallenge(cfg: Config, o: Outside, c: Credential, nowSeconds: int): Result<Challenge, Refusal> {
    var wallet := o.address(c.wallet);
    var failed, successful := CredentialHash(c.failedTransactionHash), CredentialHash(c.successfulTransactionHash);
    if wallet.None? || wallet == Some(ZERO_ADDRESS) || failed.None? || successful.None? || failed == successful
       || !(0 < c.issuedAt <= MAX_SAFE_INTEGER) || !(0 < c.expiresAt <= MAX_SAFE_INTEGER) then Err(AuthorizationInvalid)
    else if c.issuedAt > nowSeconds + cfg.skew then Err(NotActiveYet)
    else if c.expiresAt != c.issuedAt + cfg.lifetime || c.expiresAt < nowSeconds then Err(ChallengeExpired)
    else
      var fields := OwnerChallenge(cfg.publicOrigin, cfg.settlementChainId, cfg.poolAddress, cfg.campaignNumber,
                                   wallet.value, failed.value, successful.value, c.issuedAt, c.expiresAt);
      Ok(Challenge(fields, OwnerMessage(fields)))
  }

  // ---- storage ----

  datatype Entry = Entry(id: string, expiresAt: int)
  /** The three storage keys: the receipt key as hex text, the gate, and the used authorizations. */
  datatype Store = Store(key: Option<string>, notBefore: Option<int>, used: Option<seq<Entry>>)

  datatype Outcome = Admitted | Throttled(retryAfter: string) | Refused(reason: Refusal)

  function Used(s: Store): seq<Entry> { s.used.GetOr([]) }

  predicate EntryOk(cfg: Config, e: Entry, nowSeconds: int) {
    IsDigest(e.id) && 0 < e.expiresAt <= MAX_SAFE_INTEGER && e.expiresAt <= nowSeconds + cfg.lifetime + cfg.skew + 1
  }

  predicate DistinctIds(entries: seq<Entry>) {
    forall i, j | 0 <= i < j < |entries| :: entries[i].id != entries[j].id
  }

  predicate EntriesOk(cfg: Config, entries: seq<Entry>, nowSeconds: int)
    requires Legal(cfg)
  {
    && |entries| <= MaxUsed(cfg)
    && (forall i | 0 <= i < |entries| :: EntryOk(cfg, entries[i], nowSeconds))
    && DistinctIds(entries)
  }

  /** The entries that have not expired, in order. */
  function Surviving(entries: seq<Entry>, nowSeconds: int): (r: seq<Entry>)
    ensures |r| <= |entries|
  {
    if entries == [] then []
    else
      var last := entries[|entries| - 1];
      Surviving(entries[..|entries| - 1], nowSeconds) + (if last.expiresAt < nowSeconds then [] else [last])
  }

  predicate HasId(entries: seq<Entry>, id: string) {
    exists i | 0 <= i < |entries| :: entries[i].id == id
  }

  lemma NoIds()
    ensures forall id :: !HasId([], id)
  {
  }

  lemma RepeatedId(entries: seq<Entry>, k: nat)
    requires k < |entries| && HasId(entries[..k], entries[k].id)
    ensures !DistinctIds(entries)
  {
    var i :| 0 <= i < k && entries[..k][i].id == entries[k].id;
    assert entries[i].id == entries[k].id;
  }

  lemma NewId(entries: seq<Entry>, k: nat)
    requires k < |entries| && DistinctIds(entries[..k]) && !HasId(entries[..k], entries[k].id)
    ensures DistinctIds(entries[..k + 1])
    ensures forall id :: HasId(entries[..k + 1], id) <==> HasId(entries[..k], id) || id == entries[k].id
  {
    var a, b := entries[..k], entries[..k + 1];
    assert b == a + [entries[k]];
    forall id ensures HasId(b, id) <==> HasId(a, id) || id == entries[k].id {
      if HasId(a, id) {
        var i :| 0 <= i < k && a[i].id == id;
        assert b[i].id == id;
      }
      assert b[k].id == entries[k].id;
    }
  }

  function RetrySeconds(notBefore: int, nowMs: int): int {
    var seconds := CeilDiv(notBefore - nowMs, 1000);
    if seconds < 1 then 1 else seconds
  }

  predicate GateOk(cfg: Config, notBefore: Option<int>, nowMs: int) {
    notBefore.Some? ==> 0 <= notBefore.value <= MAX_SAFE_INTEGER && notBefore.value <= nowMs + cfg.intervalMs
  }

  /** One storage transaction of commitAdmission at the reading nowMs. */
  function Commit(cfg: Config, o: Outside, s: Store, c: Credential, replayId: string, nowMs: int): (Store, Outcome)
    requires Legal(cfg)
  {
    if !(0 <= nowMs <= MAX_SAFE_INTEGER) then (s, Refused(GateUnavailable)) else
    var nowSeconds := nowMs / 1000;
    var challenge := NormalizeChallenge(cfg, o, c, nowSeconds);
    if challenge.Err? then (s, Refused(challenge.error))
    else if !GateOk(cfg, s.notBefore, nowMs) then (s, Refused(StateInvalid))
    else if !EntriesOk(cfg, Used(s), nowSeconds) then (s, Refused(StateInvalid)) else
    var entries := Surviving(Used(s), nowSeconds);
    if HasId(entries, replayId) then (s, Refused(AuthorizationUsed))
    else if s.notBefore.Some? && nowMs < s.notBefore.value then
      (if |entries| < |Used(s)| then s.(used := Some(entries)) else s,
       Throttled(Decimal(Nat(RetrySeconds(s.notBefore.value, nowMs)))))
    else if |entries| >= MaxUsed(cfg) then (s, Refused(StateInvalid))
    else (s.(notBefore := Some(nowMs + cfg.intervalMs), used := Some(entries + [Entry(replayId, c.expiresAt)])),
          Admitted)
  }

  /** decodeCredential: bounded canonical base64url of a JSON credential. */
  function DecodeCredential(o: Outside, text: string): Option<Credential> {
    if !(1 <= |text| <= 2048) || !Base64Url.IsUrlText(text) then None else
    var bytes := Base64Url.Decode(text);
    if bytes.None? || Base64Url.Encode(bytes.value) != text then None else
    var c := o.json(bytes.value);
    if c.Some? && IsHexText(c.value.signature, 130) && IsReceiptText(c.value.receipt) then c else None
  }

  predicate IsReceiptText(s: string) {
    |s| == 46 && s[..3] == "v1." && forall i | 3 <= i < 46 :: Base64Url.IsUrlChar(s[i])
  }

  /** decodeReceipt: the 43 characters after `v1.`, for exactly 32 bytes. */
  function DecodeReceipt(receipt: string): Option<seq<Base64Url.byte>>
    requires |receipt| >= 3
  {
    var bytes := Base64Url.Decode(receipt[3..]);
    if bytes.None? || |bytes.value| != 32 || Base64Url.Encode(bytes.value) != receipt[3..] then None else bytes
  }

  function IssueText(o: Outside, key: string, message: string): string {
    "v1." + Base64Url.Encode(o.mac(key, ReceiptMessage(message)))
  }

  /** Everything admit checks before its transaction; the reading is taken when verification starts. */
  function Verify(cfg: Config, o: Outside, s: Store, text: string, startMs: int): Result<Credential, Refusal> {
    if !(0 <= startMs <= MAX_SAFE_INTEGER) then Err(GateUnavailable) else
    var credential := DecodeCredential(o, text);
    if credential.None? then Err(AuthorizationInvalid) else
    var c := credential.value;
    var challenge := NormalizeChallenge(cfg, o, c, startMs / 1000);
    if challenge.Err? then Err(challenge.error)
    else if s.key.None? || !IsDigest(s.key.value) then Err(StateInvalid) else
    assert |c.receipt| >= 3;
    var receipt := DecodeReceipt(c.receipt);
    if receipt.None? || receipt.value != o.mac(s.key.value, ReceiptMessage(challenge.value.message))
    then Err(AuthorizationInvalid)
    else if o.signer(challenge.value.message, c.signature) != Some(challenge.value.fields.wallet)
    then Err(AuthorizationInvalid)
    else Ok(c)
  }

  /** The replay identity of a verified credential. */
  function ReplayId(cfg: Config, o: Outside, c: Credential, startMs: int): string {
    var challenge := NormalizeChallenge(cfg, o, c, startMs / 1000);
    if challenge.Ok? then o.digest(challenge.value.message) else ""
  }

  /** admit: verification at one reading, then the transaction at another. */
  function AdmitStep(cfg: Config, o: Outside, s: Store, text: string, startMs: int, commitMs: int): (Store, Outcome)
    requires Legal(cfg)
  {
    var verified := Verify(cfg, o, s, text, startMs);
    if verified.Err? then (s, Refused(verified.error))
    else Commit(cfg, o, s, verified.value, ReplayId(cfg, o, verified.value, startMs), commitMs)
  }

  /** encodeHex: two lower-case digits a byte. */
  function EncodeHex(b: seq<Base64Url.byte>): (s: string)
    ensures |s| == 2 * |b| && forall i | 0 <= i < |s| :: '0' <= s[i] <= '9' || 'a' <= s[i] <= 'f'
  {
    seq(2 * |b|, i requires 0 <= i < 2 * |b| => HexDigit(if i % 2 == 0 then b[i / 2] / 16 else b[i / 2] % 16))
  }

  // ---- the control object ----

  class SignedFreshReadControl {
    const cfg: Config
    const outside: Outside
    var key: Option<string>
    var notBefore: Option<int>
    var used: Option<seq<Entry>>

    ghost function Value(): Store
      reads this
    {
      Store(key, notBefore, used)
    }

    constructor (cfg: Config, outside: Outside, stored: Store)
      requires Legal(cfg)
      ensures this.cfg == cfg && this.outside == outside && Value() == stored
    {
      this.cfg, this.outside := cfg, outside;
      key, notBefore, used := stored.key, stored.notBefore, stored.used;
    }

    /** Creates the receipt key once, on request; an existing key is never replaced, and a stored value that
        is not 32 bytes of hex is refused. */
    method LoadReceiptKey(create: bool, random: seq<Base64Url.byte>) returns (loaded: Result<string, Refusal>)
      requires |random| == 32
      modifies this`key
      ensures key == if create && old(key).None? then Some(EncodeHex(random)) else old(key)
      ensures create && old(key).None? ==> loaded.Ok?
      ensures loaded == if key.Some? && IsDigest(key.value) then Ok(key.value) else Err(StateInvalid)
    {
      if create && key.None? {
        key := Some(EncodeHex(random));
      }
      if key.None? || !IsDigest(key.value) {
        return Err(StateInvalid);
      }
      loaded := Ok(key.value);
    }

    /** Validates the stored list and splits off the expired entries. */
    method NormalizeUsed(nowSeconds: int) returns (valid: bool, entries: seq<Entry>, pruned: bool)
      requires Legal(cfg)
      ensures valid <==> EntriesOk(cfg, Used(Value()), nowSeconds)
      ensures valid ==> entries == Surviving(Used(Value()), nowSeconds) && (pruned <==> |entries| < |Used(Value())|)
    {
      hide EntryOk, MaxUsed, HasId;
      var value := used.GetOr([]);
      entries, pruned := [], false;
      if |value| > MaxUsed(cfg) {
        return false, [], false;
      }
      var seen: set<string> := {};
      assert value[..0] == [];
      NoIds();
      for k := 0 to |value|
        invariant forall i | 0 <= i < k :: EntryOk(cfg, value[i], nowSeconds)
        invariant forall id :: id in seen <==> HasId(value[..k], id)
        invariant DistinctIds(value[..k])
        invariant entries == Surviving(value[..k], nowSeconds)
        invariant pruned <==> |entries| < k
      {
        var entry := value[k];
        if !EntryOk(cfg, entry, nowSeconds) {
          return false, [], false;
        }
        if entry.id in seen {
          RepeatedId(value, k);
          return false, [], false;
        }
        seen := seen + {entry.id};
        NewId(value, k);
        assert value[..k + 1][..k] == value[..k];
        if entry.expiresAt < nowSeconds {
          pruned := true;
        } else {
          entries := entries + [entry];
        }
      }
      assert value[..|value|] == value;
      valid := true;
    }

    method CommitAdmission(c: Credential, replayId: string, nowMs: int) returns (outcome: Outcome)
      requires Legal(cfg)
      modifies this`notBefore, this`used
      ensures (Value(), outcome) == Commit(cfg, outside, old(Value()), c, replayId, nowMs)
    {
      hide MaxUsed, NormalizeChallenge, EntriesOk, Surviving, HasId, RetrySeconds, Decimal;
      if !(0 <= nowMs <= MAX_SAFE_INTEGER) { return Refused(GateUnavailable); }
      var challenge := NormalizeChallenge(cfg, outside, c, nowMs / 1000);
      if challenge.Err? { return Refused(challenge.error); }
      if !GateOk(cfg, notBefore, nowMs) { return Refused(StateInvalid); }
      var valid, entries, pruned := NormalizeUsed(nowMs / 1000);
      if !valid { return Refused(StateInvalid); }
      if HasId(entries, replayId) { return Refused(AuthorizationUsed); }
      if notBefore.Some? && nowMs < notBefore.value {
        if pruned {
          used := Some(entries);
        }
        return Throttled(Decimal(Nat(RetrySeconds(notBefore.value, nowMs))));
      }
      if |entries| >= MaxUsed(cfg) { return Refused(StateInvalid); }
      notBefore := Some(nowMs + cfg.intervalMs);
      used := Some(entries + [Entry(replayId, c.expiresAt)]);
      outcome := Admitted;
    }

    /** Verification at one reading, then the transaction at another. */
    method Admit(text: string, startMs: int, commitMs: int) returns (outcome: Outcome)
      requires Legal(cfg)
      modifies this`notBefore, this`used
      ensures (Value(), outcome) == AdmitStep(cfg, outside, old(Value()), text, startMs, commitMs)
    {
      hide Verify, Commit, ReplayId;
      var verified := Verify(cfg, outside, Store(key, notBefore, used), text, startMs);
      if verified.Err? { return Refused(verified.error); }
      outcome := CommitAdmission(verified.value, ReplayId(cfg, outside, verified.value, startMs), commitMs);
    }
  }
}
