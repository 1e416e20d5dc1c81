/** src/recovery-startup-lifecycle.mjs: which startup errors may be retried. */
module StartupErrors {
  import opened Wrappers
  import opened Text

  const MAX_DEPTH := 5

  const TRANSPORT_CODES: set<string> := {
    "TIMEOUT", "ECONNRESET", "ECONNREFUSED", "ETIMEDOUT", "EAI_AGAIN", "ENETUNREACH", "EHOSTUNREACH",
    "UND_ERR_CONNECT_TIMEOUT", "UND_ERR_SOCKET", "UND_ERR_HEADERS_TIMEOUT", "UND_ERR_BODY_TIMEOUT"}
  const READINESS_WRAPPERS: set<string> := {"RECOVERY_MISCONFIGURED", "RECOVERY_STATE_UNAVAILABLE"}

  /** An error object. An empty code stands for a missing one; `info` is the recorded response status text. */
  datatype ErrorValue = ErrorValue(worker: bool, code: string, event: string, statusCode: Option<int>, info: string,
                                   cause: Option<nat>)

  /** The error objects by reference; causes may form cycles. A reference outside the map is not an object. */
  type Heap = map<nat, ErrorValue>

  predicate IsDigit(c: char) { '0' <= c <= '9' }

  /** The three leading digits when nothing, or a space, follows them. */
  function LeadingStatus(s: string): Option<int> {
    if |s| >= 3 && IsDigit(s[0]) && IsDigit(s[1]) && IsDigit(s[2]) && (|s| == 3 || s[3] == ' ')
    then Some(ParseDecimal(s[..3])) else None
  }

  predicate IsServerOutage(e: ErrorValue) {
    var status := if e.statusCode.Some? then e.statusCode else LeadingStatus(e.info);
    status.Some? && (status.value == 429 || 500 <= status.value <= 599)
  }

  /** What one error object decides by itself; None leaves the decision to its cause. */
  function Verdict(e: ErrorValue): Option<bool> {
    if e.worker && e.code !in READINESS_WRAPPERS then Some(false)
    else if e.code in TRANSPORT_CODES then Some(true)
    else if e.code == "NETWORK_ERROR" then Some(e.event != "changed")
    else if e.code == "SERVER_ERROR" then Some(IsServerOutage(e))
    else if e.code != "" && e.code !in READINESS_WRAPPERS then Some(false)
    else None
  }

  /** The object `depth` causes away. */
  function CauseAt(heap: Heap, error: Option<nat>, depth: nat): Option<nat>
    decreases depth
  {
    if error.None? || error.value !in heap then None
    else if depth == 0 then error
    else CauseAt(heap, heap[error.value].cause, depth - 1)
  }

  predicate PassesOn(heap: Heap, error: Option<nat>, depth: nat) {
    var at := CauseAt(heap, error, depth);
    at.Some? && at.value in heap && Verdict(heap[at.value]).None?
  }

  predicate Approves(heap: Heap, error: Option<nat>, depth: nat) {
    var at := CauseAt(heap, error, depth);
    at.Some? && at.value in heap && Verdict(heap[at.value]) == Some(true)
  }

  predicate ApprovedFirstAt(heap: Heap, error: Option<nat>, depth: nat) {
    Approves(heap, error, depth) && forall k | 0 <= k < depth :: PassesOn(heap, error, k)
  }

  /** Retryable: within the first five objects of the cause chain, the first that decides says yes. */
  predicate Retryable(heap: Heap, error: Option<nat>) {
    exists d | 0 <= d < MAX_DEPTH :: ApprovedFirstAt(heap, error, d)
  }

  lemma {:induction false} CauseStep(heap: Heap, error: Option<nat>, depth: nat)
    ensures var at := CauseAt(heap, error, depth);
            && (at.Some? ==> at.value in heap)
            && CauseAt(heap, error, depth + 1) == if at.None? then None else CauseAt(heap, heap[at.value].cause, 0)
    decreases depth
  {
    if error.Some? && error.value in heap && depth > 0 {
      CauseStep(heap, heap[error.value].cause, depth - 1);
    }
  }

  /** A chain that returns to an object repeats from there. */
  lemma {:induction false} ChainRepeats(heap: Heap, error: Option<nat>, i: nat, j: nat, n: nat)
    requires CauseAt(heap, error, i) == CauseAt(heap, error, j)
    ensures CauseAt(heap, error, i + n) == CauseAt(heap, error, j + n)
  {
    if n > 0 {
      ChainRepeats(heap, error, i, j, n - 1);
      CauseStep(heap, error, i + (n - 1));
      CauseStep(heap, error, j + (n - 1));
    }
  }

  /** Once a chain of undecided objects closes a cycle, no later object decides: giving up there loses nothing. */
  lemma CyclesDecideNothing(heap: Heap, error: Option<nat>, i: nat, j: nat)
    requires i < j && CauseAt(heap, error, i) == CauseAt(heap, error, j)
    requires forall k | 0 <= k < j :: PassesOn(heap, error, k)
    ensures !Retryable(heap, error)
  {
    forall d | 0 <= d < MAX_DEPTH ensures !ApprovedFirstAt(heap, error, d) {
      if d < j {
        assert PassesOn(heap, error, d);
      } else {
        ChainRepeats(heap, error, i, j, d - j);
        var k := i + (d - j);
        assert CauseAt(heap, error, k) == CauseAt(heap, error, d);
        assert PassesOn(heap, error, k) ==> !Approves(heap, error, d);
      }
    }
  }

  /** The loop with its set of seen objects answers exactly that. */
  method IsRetryableRecoveryStartupError(heap: Heap, error: Option<nat>) returns (retryable: bool)
    ensures retryable == Retryable(heap, error)
  {
    hide Verdict;
    var current := error;
    var seen: set<nat> := {};
    var depth := 0;
    while current.Some? && current.value in heap && depth < MAX_DEPTH
      invariant 0 <= depth <= MAX_DEPTH
      invariant CauseAt(heap, error, depth) == CauseAt(heap, current, 0)
      invariant forall k | 0 <= k < depth :: PassesOn(heap, error, k)
      invariant forall x | x in seen :: exists k :: 0 <= k < depth && CauseAt(heap, error, k) == Some(x)
      decreases MAX_DEPTH - depth
    {
      var value := heap[current.value];
      if current.value in seen {
        var k :| 0 <= k < depth && CauseAt(heap, error, k) == Some(current.value);
        CyclesDecideNothing(heap, error, k, depth);
        return false;
      }
      seen := seen + {current.value};
      var verdict := Verdict(value);
      if verdict.Some? {
        Decided(heap, error, depth);
        return verdict.value;
      }
      CauseStep(heap, error, depth);
      assert PassesOn(heap, error, depth);
      current := value.cause;
      depth := depth + 1;
    }
    Undecided(heap, error, depth);
    retryable := false;
  }

  lemma Decided(heap: Heap, error: Option<nat>, depth: nat)
    requires depth < MAX_DEPTH && forall k | 0 <= k < depth :: PassesOn(heap, error, k)
    requires var at := CauseAt(heap, error, depth); at.Some? && at.value in heap && Verdict(heap[at.value]).Some?
    ensures Retryable(heap, error) <==> Verdict(heap[CauseAt(heap, error, depth).value]).value
  {
    hide Verdict, CauseAt;
    forall d | 0 <= d < MAX_DEPTH && ApprovedFirstAt(heap, error, d) ensures d == depth {
      assert d < depth ==> PassesOn(heap, error, d);
      assert d > depth ==> PassesOn(heap, error, depth);
    }
    assert ApprovedFirstAt(heap, error, depth) == Verdict(heap[CauseAt(heap, error, depth).value]).value;
  }

  lemma Undecided(heap: Heap, error: Option<nat>, depth: nat)
    requires forall k | 0 <= k < depth :: PassesOn(heap, error, k)
    requires depth >= MAX_DEPTH || CauseAt(heap, error, depth).None?
    ensures !Retryable(heap, error)
  {
    hide Verdict, CauseAt;
    forall d | 0 <= d < MAX_DEPTH ensures !ApprovedFirstAt(heap, error, d) {
      assert d < depth ==> PassesOn(heap, error, d);
      assert d > depth ==> !PassesOn(heap, error, depth) || depth >= MAX_DEPTH;
    }
  }
}
