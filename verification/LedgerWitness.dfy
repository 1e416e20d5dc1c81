/** A run that breaks the ledger, whatever its digests are: two valid calls under one policy, with a clock
    that goes back by a millisecond between them. */
module LedgerWitness {
  import opened Wrappers
  import opened Text
  import opened LedgerPolicy
  import opened LedgerModel
  import opened LedgerHistory
  import opened LedgerSafety

  function Digits(c: char, n: nat): (s: string)
    ensures |s| == n && forall i | 0 <= i < n :: s[i] == c
  {
    seq(n, _ => c)
  }

  function Hex(c: char, n: nat): (s: string)
    ensures |s| == n + 2 && s[0] == '0' && s[1] == 'x' && forall i | 2 <= i < n + 2 :: s[i] == c
  {
    "0x" + Digits(c, n)
  }

  const WALLET: string := Hex('3', 40)
  const POLICY: Policy := Policy(Identity(1, Hex('1', 40), 1, Hex('2', 40)), Limits(1, 1, 1, 1, 1, 100))
  const PAIR: Pair := Pair(Hex('b', 64), Hex('c', 64))

  /** The operation's identity, as the digest in use derives it. */
  ghost function Id(c: Crypto): string {
    c.operation(POLICY.identity.chainId, POLICY.identity.poolAddress, POLICY.identity.campaignNumber, WALLET, PAIR)
  }

  ghost function Input(c: Crypto): Reservation { Reservation(Id(c), "owner", WALLET, WALLET, PAIR, 1) }

  function EnvAt(ms: nat): Env { Env(POLICY, true, ms, Digits('a', 72), true, ms, ms) }

  ghost function ReserveAt1000(c: Crypto): Call { Call(EnvAt(1000), POLICY, Reserve(Input(c))) }
  ghost function AbandonAt999(c: Crypto): Call { Call(EnvAt(999), POLICY, Abandon(Id(c))) }

  /** The digests have their own form: a permit digest is 64 hex digits, an operation's identity a lower-case hash. */
  ghost predicate Digests(c: Crypto) {
    CryptoOk(c) && LedgerHash(Id(c)) == Some(Id(c))
  }

  /** Such digests exist, even constant ones. */
  lemma SomeDigests()
    ensures exists c :: Digests(c)
  {
    var c := Crypto((chain, pool, campaign, source, pair) => Hex('a', 64), token => Digits('a', 64));
    HexIsCanonical('a', 64);
    assert Digests(c);
  }

  lemma HexIsCanonical(c: char, n: nat)
    requires '1' <= c <= '9' || 'a' <= c <= 'f'
    ensures IsHexText(Hex(c, n), n) && Lower(Hex(c, n)) == Hex(c, n)
    ensures n > 0 ==> !IsZeroAddress(Hex(c, n))
  {
    if n > 0 { assert Hex(c, n)[2] == c; }
  }

  lemma InputsAreCanonical()
    ensures LedgerAddress(WALLET) == Some(WALLET) && NormalizePair(PAIR) == Some(PAIR)
    ensures NormalizePolicy(POLICY) == Some(POLICY) && NormalizeIdentity(POLICY.identity) == Some(POLICY.identity)
  {
    HexIsCanonical('b', 64);
    HexIsCanonical('c', 64);
    HexIsCanonical('1', 40);
    HexIsCanonical('2', 40);
    HexIsCanonical('3', 40);
    assert Hex('b', 64)[2] != Hex('c', 64)[2];
    assert |Hex('3', 40)| == 42;
  }

  lemma Reserved(c: Crypto)
    requires Digests(c)
    ensures Arrive(c, ReserveAt1000(c)).Ok? && TargetRow(c, EMPTY, ReserveAt1000(c)).None?
    ensures var (t, r) := Step(c, EMPTY, ReserveAt1000(c));
            && Created(r, Id(c)) && |t.rows| == 1 && t.rows[0].operationId == Id(c) && t.rows[0].state.Admitted?
            && t.rows[0].createdAt == 1000 && t.meta.Some? && t.meta.value.policy == POLICY
  {
    InputsAreCanonical();
    hide LedgerHash, LedgerAddress, NormalizePolicy, NormalizeIdentity, NormalizePair, Hex, Digits, IsHexText, Lower;
    assert HelperOperationId(c, POLICY.identity, WALLET, PAIR) == Some(Id(c));
    assert NormalizeReservation(c, POLICY.identity, Input(c)) == Some(Input(c));
  }

  lemma Abandoned(c: Crypto, s: State)
    requires Digests(c) && Checked(c, POLICY, s).None?
    requires |s.rows| == 1 && s.rows[0].operationId == Id(c) && s.rows[0].state.Admitted? && s.rows[0].createdAt == 1000
    ensures var (t, r) := Step(c, s, AbandonAt999(c));
            t != s && StopAnswered(r, AbandonAt999(c), Id(c)) && !StampOk(c, s, AbandonAt999(c))
  {
    InputsAreCanonical();
    hide LedgerHash, LedgerAddress, NormalizePolicy, Hex, Digits, Checked;
    assert FindId(s.rows, Id(c)) == Some(0);
  }

  /** The two calls, at the start of any run. */
  lemma BothSucceed(c: Crypto, calls: seq<Call>)
    requires Digests(c) && |calls| >= 2 && calls[0] == ReserveAt1000(c) && calls[1] == AbandonAt999(c)
    ensures Created(ReplyAt(c, calls, 0), Id(c)) && StopAnswered(ReplyAt(c, calls, 1), calls[1], Id(c))
    ensures InOrder(c, calls, 1) && !InOrder(c, calls, 2)
  {
    Reserved(c);
    assert ReserveAt1000(c).env.nowMs == 1000;
    hide Step, Inv, Arrive, TargetRow, ReserveAt1000, AbandonAt999, Id;
    assert StateAt(c, calls, 0) == EMPTY;
    var s := StateAt(c, calls, 1);
    assert s == Step(c, EMPTY, ReserveAt1000(c)).0;
    assert InOrder(c, calls, 1);
    Reachable(c, calls, 1);
    PassesCheck(c, s);
    Abandoned(c, s);
    assert StateAt(c, calls, 2) == Step(c, s, AbandonAt999(c)).0;
  }

  /** Reserving at 1000 and abandoning at 999 are both answered as successes, and leave tables that fail
      the check for every policy: whatever is called later, every valid call is an error. */
  lemma BackwardClockBreaksLedger(c: Crypto, later: seq<Call>, j: nat)
    requires Digests(c) && j < |later|
    ensures var calls := [ReserveAt1000(c), AbandonAt999(c)] + later;
            && Created(ReplyAt(c, calls, 0), Id(c)) && StopAnswered(ReplyAt(c, calls, 1), calls[1], Id(c))
            && !InOrder(c, calls, 2) && Broken(c, StateAt(c, calls, 2))
            && StateAt(c, calls, j + 2) == StateAt(c, calls, 2)
            && (Arrive(c, later[j]).Ok? ==> ReplyAt(c, calls, j + 2).Error?)
  {
    var calls := [ReserveAt1000(c), AbandonAt999(c)] + later;
    assert CryptoOk(c);
    hide *;
    BothSucceed(c, calls);
    var i := OutOfOrderFreezes(c, calls, 2);
    assert calls[j + 2] == later[j];
  }

  lemma PassesCheck(c: Crypto, s: State)
    requires Inv(c, s) && s.meta.Some?
    ensures Checked(c, s.meta.value.policy, s).None?
  {
    hide Core, Checked;
    CheckedIffTimes(c, s);
  }
}
