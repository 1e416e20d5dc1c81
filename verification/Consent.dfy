/** The texts people sign: src/recovery-consent.mjs, src/recovery-helper-consent.mjs, and the receipt
    text of src/cloudflare-fresh-read-admission.mjs. */
module Consent {
  import opened Text

  const OWNER_FINAL_LINE: string :=
    "Authorize proof and relayer submission for this exact pair. The campaign contract derives the credit"
    + " recipient from Ethereum; no destination can be substituted."

  const HELPER_FINAL_LINE: string :=
    "I request a sponsor-funded recovery for this exact source pair. The helper receives no credit and cannot"
    + " choose its destination. This is my request, not the source owner's consent. A completed release consumes"
    + " that source wallet's one-time sponsor credit."

  datatype OwnerChallenge = OwnerChallenge(
    origin: string, settlementChainId: nat, poolAddress: string, campaignNumber: nat, wallet: string,
    failedTransactionHash: string, successfulTransactionHash: string, issuedAt: nat, expiresAt: nat)

  datatype HelperRequest = HelperRequest(
    origin: string, settlementChainId: nat, poolAddress: string, campaignNumber: nat, requester: string,
    sourceWallet: string, failedTransactionHash: string, successfulTransactionHash: string,
    operationId: string, issuedAt: nat, expiresAt: nat)

  const OWNER_LABELS: seq<string> := [
    "RetryCredit recovery consent",
    "Origin: ",
    "Settlement: Creditcoin Testnet (",
    "Recovery pool: ",
    "Campaign: ",
    "Source wallet and credit recipient: ",
    "Failed Ethereum transaction: ",
    "Successful Ethereum transaction: ",
    "Issued at: ",
    "Expires at: "]

  const HELPER_LABELS: seq<string> := [
    "RetryCredit community helper request v1",
    "Origin: ",
    "Settlement: Creditcoin Testnet (",
    "Recovery pool: ",
    "Campaign: ",
    "Helper requester: ",
    "Ethereum-derived source wallet" + " and credit recipient: ",
    "Failed Ethereum transaction: ",
    "Successful Ethereum transaction: ",
    "Operation: ",
    "Issued at: ",
    "Expires at: "]

  const RECEIPT_LABELS: seq<string> := [
    "RetryCredit fresh-read admission receipt",
    "Version: 1",
    "Method: GET",
    "Path: /api/recovery/config?fresh=1"]

  /** What follows each label of the owner text. */
  function OwnerValues(m: OwnerChallenge): (values: seq<string>)
    ensures |values| == |OWNER_LABELS|
  {
    ["", m.origin, Decimal(m.settlementChainId) + ")", m.poolAddress, Decimal(m.campaignNumber), m.wallet,
     m.failedTransactionHash, m.successfulTransactionHash, Decimal(m.issuedAt), Decimal(m.expiresAt)]
  }

  function HelperValues(m: HelperRequest): (values: seq<string>)
    ensures |values| == |HELPER_LABELS|
  {
    ["", m.origin, Decimal(m.settlementChainId) + ")", m.poolAddress, Decimal(m.campaignNumber), m.requester,
     m.sourceWallet, m.failedTransactionHash, m.successfulTransactionHash, m.operationId,
     Decimal(m.issuedAt), Decimal(m.expiresAt)]
  }

  /** The lines of a text, each a label and its value. */
  function Labelled(labels: seq<string>, values: seq<string>): (lines: seq<string>)
    requires |labels| == |values|
    ensures |lines| == |labels| && forall i | 0 <= i < |lines| :: lines[i] == labels[i] + values[i]
  {
    seq(|labels|, i requires 0 <= i < |labels| => labels[i] + values[i])
  }

  function OwnerMessage(m: OwnerChallenge): string {
    Join('\n', Labelled(OWNER_LABELS, OwnerValues(m)) + [OWNER_FINAL_LINE])
  }

  function HelperMessage(m: HelperRequest): string {
    Join('\n', Labelled(HELPER_LABELS, HelperValues(m)) + [HELPER_FINAL_LINE])
  }

  function ReceiptMessage(challengeMessage: string): string {
    Join('\n', RECEIPT_LABELS + [challengeMessage])
  }

  // ---- plain text ----

  predicate Plain(s: string) { '\n' !in s }

  ghost predicate OwnerPlain(m: OwnerChallenge) {
    Plain(m.origin) && Plain(m.poolAddress) && Plain(m.wallet)
    && Plain(m.failedTransactionHash) && Plain(m.successfulTransactionHash)
  }

  ghost predicate HelperPlain(m: HelperRequest) {
    Plain(m.origin) && Plain(m.poolAddress) && Plain(m.requester) && Plain(m.sourceWallet)
    && Plain(m.failedTransactionHash) && Plain(m.successfulTransactionHash) && Plain(m.operationId)
  }

  ghost predicate AllPlain(parts: seq<string>) {
    forall i | 0 <= i < |parts| :: Plain(parts[i])
  }

  lemma PlainConcat(a: string, b: string)
    requires Plain(a) && Plain(b)
    ensures Plain(a + b)
  {
  }

  lemma LabelsPlain()
    ensures AllPlain(OWNER_LABELS) && AllPlain(HELPER_LABELS) && AllPlain(RECEIPT_LABELS)
  {
    OwnerLabelsPlain();
    HelperLabelsPlain();
    ReceiptLabelsPlain();
  }

  lemma OwnerLabelsPlain()
    ensures AllPlain(OWNER_LABELS)
  {
    FirstOwnerLabelsPlain();
    LastOwnerLabelsPlain();
    assert OWNER_LABELS == OWNER_LABELS[..5] + OWNER_LABELS[5..];
    hide Plain, OWNER_LABELS;
  }

  lemma FirstOwnerLabelsPlain()
    ensures |OWNER_LABELS| == 10 && AllPlain(OWNER_LABELS[..5])
  {
    FirstLabelsPlain();
    hide Plain;
    assert OWNER_LABELS[..5] == ["RetryCredit recovery consent", "Origin: ", "Settlement: Creditcoin Testnet (",
                                 "Recovery pool: ", "Campaign: "];
  }

  lemma FirstLabelsPlain()
    ensures AllPlain(["RetryCredit recovery consent", "Origin: ", "Settlement: Creditcoin Testnet (",
                      "Recovery pool: ", "Campaign: "])
  {
    assert Plain("RetryCredit recovery consent");
    assert Plain("Settlement: Creditcoin Testnet (");
    assert Plain("Origin: ") && Plain("Recovery pool: ") && Plain("Campaign: ");
    hide Plain;
  }

  lemma LastOwnerLabelsPlain()
    ensures |OWNER_LABELS| == 10 && AllPlain(OWNER_LABELS[5..])
  {
    LastLabelsPlain();
    hide Plain;
    assert OWNER_LABELS[5..] == ["Source wallet and credit recipient: ", "Failed Ethereum transaction: ",
                                 "Successful Ethereum transaction: ", "Issued at: ", "Expires at: "];
  }

  lemma LastLabelsPlain()
    ensures AllPlain(["Source wallet and credit recipient: ", "Failed Ethereum transaction: ",
                      "Successful Ethereum transaction: ", "Issued at: ", "Expires at: "])
  {
    WalletLabelPlain();
    HashLabelsPlain();
    assert Plain("Issued at: ") && Plain("Expires at: ");
    hide Plain;
  }

  lemma WalletLabelPlain()
    ensures Plain("Source wallet and credit recipient: ")
  {
  }

  lemma HashLabelsPlain()
    ensures Plain("Failed Ethereum transaction: ") && Plain("Successful Ethereum transaction: ")
  {
  }

  lemma HelperLabelsPlain()
    ensures AllPlain(HELPER_LABELS)
  {
    OwnerLabelsPlain();
    var own := ["RetryCredit community helper request v1", "Helper requester: ",
                "Ethereum-derived source wallet" + " and credit recipient: ", "Operation: "];
    OwnHelperLabelsPlain();
    assert HELPER_LABELS == [own[0]] + OWNER_LABELS[1..5] + own[1..3] + OWNER_LABELS[6..8] + [own[3]]
                            + OWNER_LABELS[8..];
    hide Plain, OWNER_LABELS, HELPER_LABELS;
  }

  lemma OwnHelperLabelsPlain()
    ensures AllPlain(["RetryCredit community helper request v1", "Helper requester: ",
                      "Ethereum-derived source wallet" + " and credit recipient: ", "Operation: "])
  {
    var title := "RetryCredit community helper request v1";
    var wallet := "Ethereum-derived source wallet" + " and credit recipient: ";
    assert Plain(title);
    assert Plain("Helper requester: ") && Plain("Operation: ");
    assert Plain(wallet) by { PlainConcat("Ethereum-derived source wallet", " and credit recipient: "); }
    hide Plain;
  }

  lemma ReceiptLabelsPlain()
    ensures AllPlain(RECEIPT_LABELS)
  {
  }

  lemma OwnerValuesPlain(m: OwnerChallenge)
    requires OwnerPlain(m)
    ensures AllPlain(OwnerValues(m))
  {
  }

  lemma HelperValuesPlain(m: HelperRequest)
    requires HelperPlain(m)
    ensures AllPlain(HelperValues(m))
  {
  }

  // ---- injectivity ----

  lemma LabelledPlain(labels: seq<string>, values: seq<string>)
    requires |labels| == |values| && AllPlain(labels) && AllPlain(values)
    ensures AllPlain(Labelled(labels, values))
  {
    forall i | 0 <= i < |labels| ensures Plain(labels[i] + values[i]) {
      PlainConcat(labels[i], values[i]);
    }
  }

  /** A text as long in lines as one with plain values has plain values itself. */
  lemma SameLinesPlain(labels: seq<string>, last: string, a: seq<string>, b: seq<string>)
    requires |labels| == |a| == |b| && AllPlain(labels) && AllPlain(a)
    requires Join('\n', Labelled(labels, a) + [last]) == Join('\n', Labelled(labels, b) + [last])
    ensures AllPlain(b)
  {
    hide Occurrences, OccurrencesAll, Join;
    var x, y := Labelled(labels, a), Labelled(labels, b);
    LabelledPlain(labels, a);
    CountJoin('\n', x + [last]);
    CountJoin('\n', y + [last]);
    CountLast(x, last);
    CountLast(y, last);
    CountAllNone('\n', x);
    CountAllNone('\n', y);
    forall i | 0 <= i < |b| ensures Plain(b[i]) {
      assert '\n' !in labels[i] + b[i] by { assert y[i] == labels[i] + b[i]; }
    }
  }

  lemma CountLast(parts: seq<string>, last: string)
    ensures OccurrencesAll('\n', parts + [last]) == OccurrencesAll('\n', parts) + Occurrences('\n', last)
  {
    assert (parts + [last])[..|parts|] == parts;
  }

  /** Equal labelled texts with the same last line have equal values when the values of one of them hold
      no newline. */
  lemma LabelledInjective(labels: seq<string>, last: string, a: seq<string>, b: seq<string>)
    requires |labels| == |a| == |b| && AllPlain(labels) && AllPlain(a)
    requires Join('\n', Labelled(labels, a) + [last]) == Join('\n', Labelled(labels, b) + [last])
    ensures a == b
  {
    SameLinesPlain(labels, last, a, b);
    var x, y := Labelled(labels, a), Labelled(labels, b);
    LabelledPlain(labels, a);
    LabelledPlain(labels, b);
    SplitJoinTail('\n', x, last);
    SplitJoinTail('\n', y, last);
    assert x == (x + Split('\n', last))[..|labels|] && y == (y + Split('\n', last))[..|labels|];
    forall i | 0 <= i < |a| ensures a[i] == b[i] {
      assert x[i] == y[i];
      assert a[i] == (labels[i] + a[i])[|labels[i]|..];
      assert b[i] == (labels[i] + b[i])[|labels[i]|..];
    }
  }

  lemma ChainIdInjective(a: nat, b: nat)
    requires Decimal(a) + ")" == Decimal(b) + ")"
    ensures a == b
  {
    assert Decimal(a) == (Decimal(a) + ")")[..|Decimal(a) + ")"| - 1];
    assert Decimal(b) == (Decimal(b) + ")")[..|Decimal(b) + ")"| - 1];
    DecimalInjective(a, b);
  }

  /** A challenge with plain fields is the only one, plain or not, with its signed text. */
  lemma OwnerInjective(a: OwnerChallenge, b: OwnerChallenge)
    requires OwnerPlain(a) && OwnerMessage(a) == OwnerMessage(b)
    ensures a == b
  {
    hide OWNER_LABELS, OWNER_FINAL_LINE;
    LabelsPlain();
    OwnerValuesPlain(a);
    LabelledInjective(OWNER_LABELS, OWNER_FINAL_LINE, OwnerValues(a), OwnerValues(b));
    var x, y := OwnerValues(a), OwnerValues(b);
    assert x[1] == y[1] && x[2] == y[2] && x[3] == y[3] && x[4] == y[4] && x[5] == y[5]
           && x[6] == y[6] && x[7] == y[7] && x[8] == y[8] && x[9] == y[9];
    ChainIdInjective(a.settlementChainId, b.settlementChainId);
    DecimalInjective(a.campaignNumber, b.campaignNumber);
    DecimalInjective(a.issuedAt, b.issuedAt);
    DecimalInjective(a.expiresAt, b.expiresAt);
  }

  /** A helper request with plain fields is the only one, plain or not, with its signed text. */
  lemma HelperInjective(a: HelperRequest, b: HelperRequest)
    requires HelperPlain(a) && HelperMessage(a) == HelperMessage(b)
    ensures a == b
  {
    hide HELPER_LABELS, HELPER_FINAL_LINE;
    LabelsPlain();
    HelperValuesPlain(a);
    LabelledInjective(HELPER_LABELS, HELPER_FINAL_LINE, HelperValues(a), HelperValues(b));
    var x, y := HelperValues(a), HelperValues(b);
    assert x[1] == y[1] && x[2] == y[2] && x[3] == y[3] && x[4] == y[4] && x[5] == y[5]
           && x[6] == y[6] && x[7] == y[7] && x[8] == y[8] && x[9] == y[9] && x[10] == y[10] && x[11] == y[11];
    ChainIdInjective(a.settlementChainId, b.settlementChainId);
    DecimalInjective(a.campaignNumber, b.campaignNumber);
    DecimalInjective(a.issuedAt, b.issuedAt);
    DecimalInjective(a.expiresAt, b.expiresAt);
  }

  /** A receipt text determines the challenge text inside it, newlines and all. */
  lemma ReceiptInjective(a: string, b: string)
    requires ReceiptMessage(a) == ReceiptMessage(b)
    ensures a == b
  {
    hide RECEIPT_LABELS;
    JoinTail('\n', RECEIPT_LABELS, a, b);
  }

  // ---- the three kinds of text never coincide, whatever the fields hold ----

  /** The first line of a joined text is its first part. */
  lemma FirstLine(parts: seq<string>)
    requires |parts| > 1 && Plain(parts[0])
    ensures Split('\n', Join('\n', parts))[0] == parts[0]
  {
    var rest := Join('\n', parts[1..]);
    assert Join('\n', parts) == parts[0] + (['\n'] + rest);
    SplitPrefix('\n', parts[0], rest);
  }

  lemma FirstLabels()
    ensures OWNER_LABELS[0] != HELPER_LABELS[0] && OWNER_LABELS[0] != RECEIPT_LABELS[0]
            && HELPER_LABELS[0] != RECEIPT_LABELS[0]
  {
    assert OWNER_LABELS[0][12] == 'r' && HELPER_LABELS[0][12] == 'c' && RECEIPT_LABELS[0][12] == 'f';
  }

  lemma KindsAreDisjoint(o: OwnerChallenge, h: HelperRequest, challengeMessage: string)
    ensures OwnerMessage(o) != HelperMessage(h)
    ensures OwnerMessage(o) != ReceiptMessage(challengeMessage)
    ensures HelperMessage(h) != ReceiptMessage(challengeMessage)
  {
    LabelsPlain();
    FirstLabels();
    FirstValues(o, h);
    assert |RECEIPT_LABELS| == 4;
    hide OWNER_FINAL_LINE, HELPER_FINAL_LINE, OWNER_LABELS, HELPER_LABELS, RECEIPT_LABELS, OwnerValues, HelperValues,
         Split, Join;
    FirstLine(Labelled(OWNER_LABELS, OwnerValues(o)) + [OWNER_FINAL_LINE]);
    FirstLine(Labelled(HELPER_LABELS, HelperValues(h)) + [HELPER_FINAL_LINE]);
    FirstLine(RECEIPT_LABELS + [challengeMessage]);
  }

  lemma FirstValues(o: OwnerChallenge, h: HelperRequest)
    ensures |OWNER_LABELS| == 10 && |HELPER_LABELS| == 12
    ensures Labelled(OWNER_LABELS, OwnerValues(o))[0] == OWNER_LABELS[0]
    ensures Labelled(HELPER_LABELS, HelperValues(h))[0] == HELPER_LABELS[0]
  {
    assert OwnerValues(o)[0] == "" && HelperValues(h)[0] == "";
  }

  /** Some condition is needed: when both hold a newline, one in the wallet and one in the failed hash, two
      different challenges can share one text. */
  lemma NewlineBreaksInjectivity(m: OwnerChallenge, x: string)
    ensures var inside := ['\n'] + OWNER_LABELS[6];
            var a := m.(wallet := m.wallet + inside + x);
            var b := m.(failedTransactionHash := x + inside + m.failedTransactionHash);
            a != b && OwnerMessage(a) == OwnerMessage(b)
  {
    var f, w := OWNER_LABELS[6], OWNER_LABELS[5];
    var inside := ['\n'] + f;
    var a := m.(wallet := m.wallet + inside + x);
    var b := m.(failedTransactionHash := x + inside + m.failedTransactionHash);
    assert |a.wallet| > |b.wallet|;
    var va, vb := OwnerValues(a), OwnerValues(b);
    assert va[5] == m.wallet + inside + x && vb[5] == m.wallet;
    assert va[6] == m.failedTransactionHash && vb[6] == x + inside + m.failedTransactionHash;
    assert forall i | 0 <= i < 10 && i != 5 && i != 6 :: va[i] == vb[i];
    hide OWNER_LABELS, OWNER_FINAL_LINE, OwnerValues, Decimal;
    Shifted(w, f, m.wallet, x, m.failedTransactionHash);
    JoinMiddle(Labelled(OWNER_LABELS, va) + [OWNER_FINAL_LINE], Labelled(OWNER_LABELS, vb) + [OWNER_FINAL_LINE], 5);
  }

  lemma Shifted(w: string, f: string, wallet: string, x: string, failed: string)
    ensures (w + (wallet + (['\n'] + f) + x)) + ['\n'] + (f + failed)
         == (w + wallet) + ['\n'] + (f + (x + (['\n'] + f) + failed))
  {
  }

  /** Texts agree when two neighbouring lines agree once joined and all others are equal. */
  lemma {:induction false} JoinMiddle(a: seq<string>, b: seq<string>, k: nat)
    requires |a| == |b| && k + 2 < |a|
    requires forall i | 0 <= i < |a| && i != k && i != k + 1 :: a[i] == b[i]
    requires a[k] + ['\n'] + a[k + 1] == b[k] + ['\n'] + b[k + 1]
    ensures Join('\n', a) == Join('\n', b)
  {
    if k == 0 {
      assert a[2..] == b[2..] && a[1..][1..] == a[2..] && b[1..][1..] == b[2..];
      var rest := Join('\n', a[2..]);
      assert Join('\n', a) == a[0] + ['\n'] + (a[1] + ['\n'] + rest) == a[0] + ['\n'] + a[1] + (['\n'] + rest);
      assert Join('\n', b) == b[0] + ['\n'] + (b[1] + ['\n'] + rest) == b[0] + ['\n'] + b[1] + (['\n'] + rest);
    } else {
      JoinMiddle(a[1..], b[1..], k - 1);
    }
  }

  // ---- the texts, line by line ----

  /** What an owner signs, line by line: the boundary, the wallet, the pair and both times. */
  function OwnerLines(m: OwnerChallenge): seq<string> {
    [
      "RetryCredit recovery consent",
      "Origin: " + m.origin,
      "Settlement: Creditcoin Testnet (" + Decimal(m.settlementChainId) + ")",
      "Recovery pool: " + m.poolAddress,
      "Campaign: " + Decimal(m.campaignNumber),
      "Source wallet and credit recipient: " + m.wallet,
      "Failed Ethereum transaction: " + m.failedTransactionHash,
      "Successful Ethereum transaction: " + m.successfulTransactionHash,
      "Issued at: " + Decimal(m.issuedAt),
      "Expires at: " + Decimal(m.expiresAt),
      OWNER_FINAL_LINE]
  }

  lemma OwnerTextIs(m: OwnerChallenge)
    ensures OwnerMessage(m) == Join('\n', OwnerLines(m))
  {
    hide Join, Decimal, OWNER_FINAL_LINE;
    var v, w := Labelled(OWNER_LABELS, OwnerValues(m)), OwnerLines(m);
    assert v[0] == w[0];
    assert v[2] == w[2];
    assert v + [OWNER_FINAL_LINE] == w;
  }

  /** What a helper signs, line by line. */
  function HelperLines(m: HelperRequest): seq<string> {
    [
      "RetryCredit community helper request v1",
      "Origin: " + m.origin,
      "Settlement: Creditcoin Testnet (" + Decimal(m.settlementChainId) + ")",
      "Recovery pool: " + m.poolAddress,
      "Campaign: " + Decimal(m.campaignNumber),
      "Helper requester: " + m.requester,
      "Ethereum-derived source wallet" + " and credit recipient: " + m.sourceWallet,
      "Failed Ethereum transaction: " + m.failedTransactionHash,
      "Successful Ethereum transaction: " + m.successfulTransactionHash,
      "Operation: " + m.operationId,
      "Issued at: " + Decimal(m.issuedAt),
      "Expires at: " + Decimal(m.expiresAt),
      HELPER_FINAL_LINE]
  }

  lemma HelperTextIs(m: HelperRequest)
    ensures HelperMessage(m) == Join('\n', HelperLines(m))
  {
    hide Join, Decimal, HELPER_FINAL_LINE;
    var v, w := Labelled(HELPER_LABELS, HelperValues(m)), HelperLines(m);
    assert v[0] == w[0];
    assert v[2] == w[2];
    assert v + [HELPER_FINAL_LINE] == w;
  }

  /** The text a receipt authenticates ends with the whole challenge text. */
  function ReceiptLines(challengeMessage: string): seq<string> {
    ["RetryCredit fresh-read admission receipt", "Version: 1", "Method: GET", "Path: /api/recovery/config?fresh=1",
     challengeMessage]
  }

  lemma ReceiptTextIs(challengeMessage: string)
    ensures ReceiptMessage(challengeMessage) == Join('\n', ReceiptLines(challengeMessage))
  {
    hide Join;
    assert RECEIPT_LABELS + [challengeMessage] == ReceiptLines(challengeMessage);
  }
}
