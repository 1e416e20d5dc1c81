/** Text forms the services rely on: lower-cased hex, decimal numbers and separated lines. */
module Text {

  predicate IsHexDigit(c: char) {
    '0' <= c <= '9' || 'a' <= c <= 'f' || 'A' <= c <= 'F'
  }

  /** A `0x` prefix followed by exactly `digits` hex digits. */
  predicate IsHexText(s: string, digits: nat) {
    && |s| == digits + 2
    && s[0] == '0' && s[1] == 'x'
    && forall i | 2 <= i < |s| :: IsHexDigit(s[i])
  }

  function LowerChar(c: char): char {
    if 'A' <= c <= 'Z' then c - 'A' + 'a' else c
  }

  function Lower(s: string): (r: string)
    ensures |r| == |s| && forall i | 0 <= i < |s| :: r[i] == LowerChar(s[i])
  {
    seq(|s|, i requires 0 <= i < |s| => LowerChar(s[i]))
  }

  /** Lower-casing is idempotent and stays inside the hex pattern. */
  lemma LowerIsCanonical(s: string, digits: nat)
    ensures Lower(Lower(s)) == Lower(s)
    ensures IsHexText(s, digits) ==> IsHexText(Lower(s), digits)
  {
  }

  /** One lower-case hex digit. */
  function HexDigit(v: nat): (c: char)
    requires v < 16
    ensures '0' <= c <= '9' || 'a' <= c <= 'f'
  {
    if v < 10 then '0' + v as char else 'a' + (v - 10) as char
  }

  /** A SHA-256 digest as the services print it: 64 lower-case hex digits. */
  predicate IsDigest(s: string) {
    |s| == 64 && forall i | 0 <= i < 64 :: '0' <= s[i] <= '9' || 'a' <= s[i] <= 'f'
  }

  // ---- decimal numbers ----

  function Digit(d: nat): char
    requires d < 10
  {
    '0' + d as char
  }

  function Decimal(n: nat): (s: string)
    ensures s != "" && forall i | 0 <= i < |s| :: '0' <= s[i] <= '9'
  {
    if n < 10 then [Digit(n)] else Decimal(n / 10) + [Digit(n % 10)]
  }

  function ParseDecimal(s: string): nat
    requires forall i | 0 <= i < |s| :: '0' <= s[i] <= '9'
  {
    if s == "" then 0
    else 10 * ParseDecimal(s[..|s| - 1]) + (s[|s| - 1] as nat - '0' as nat)
  }

  /** Printing a number and reading it back gives the number. */
  lemma {:induction false} DecimalRoundTrip(n: nat)
    ensures ParseDecimal(Decimal(n)) == n
  {
    if n < 10 {
      assert Decimal(n) == [Digit(n)];
      assert ParseDecimal([Digit(n)][..0]) == 0;
    } else {
      var s := Decimal(n / 10) + [Digit(n % 10)];
      assert s[..|s| - 1] == Decimal(n / 10);
      DecimalRoundTrip(n / 10);
    }
  }

  lemma DecimalInjective(a: nat, b: nat)
    requires Decimal(a) == Decimal(b)
    ensures a == b
  {
    DecimalRoundTrip(a);
    DecimalRoundTrip(b);
  }

  // ---- separated parts ----

  function Join(sep: char, parts: seq<string>): string
    requires parts != []
  {
    if |parts| == 1 then parts[0] else parts[0] + [sep] + Join(sep, parts[1..])
  }

  function Split(sep: char, s: string): (parts: seq<string>)
    ensures parts != []
  {
    if s == "" then [""]
    else
      var rest := Split(sep, s[1..]);
      if s[0] == sep then [""] + rest else [[s[0]] + rest[0]] + rest[1..]
  }

  /** Splitting recovers every part but the last when those do not hold the separator. */
  lemma {:induction false} SplitJoinTail(sep: char, head: seq<string>, last: string)
    requires forall i | 0 <= i < |head| :: sep !in head[i]
    ensures Split(sep, Join(sep, head + [last])) == head + Split(sep, last)
  {
    if head == [] {
      assert head + [last] == [last];
    } else {
      hide Split;
      SplitJoinTail(sep, head[1..], last);
      var rest := Join(sep, head[1..] + [last]);
      JoinHead(sep, head, last);
      SplitPrefix(sep, head[0], rest);
      assert head == [head[0]] + head[1..];
    }
  }

  lemma JoinHead(sep: char, head: seq<string>, last: string)
    requires head != []
    ensures Join(sep, head + [last]) == head[0] + ([sep] + Join(sep, head[1..] + [last]))
  {
    assert (head + [last])[1..] == head[1..] + [last];
  }

  /** Splitting is the inverse of joining parts that do not hold the separator. */
  lemma SplitJoin(sep: char, parts: seq<string>)
    requires parts != [] && forall i | 0 <= i < |parts| :: sep !in parts[i]
    ensures Split(sep, Join(sep, parts)) == parts
  {
    var n := |parts| - 1;
    assert parts == parts[..n] + [parts[n]];
    SplitJoinTail(sep, parts[..n], parts[n]);
    SplitPlain(sep, parts[n]);
  }

  lemma {:induction false} SplitPlain(sep: char, s: string)
    requires sep !in s
    ensures Split(sep, s) == [s]
  {
    if s != "" {
      SplitPlain(sep, s[1..]);
      assert s == [s[0]] + s[1..];
    }
  }

  lemma {:induction false} SplitPrefix(sep: char, head: string, tail: string)
    requires sep !in head
    ensures Split(sep, head + ([sep] + tail)) == [head] + Split(sep, tail)
  {
    var whole := head + ([sep] + tail);
    if head == "" {
      assert whole == [sep] + tail;
      assert whole[1..] == tail;
    } else {
      assert whole[1..] == head[1..] + ([sep] + tail);
      SplitPrefix(sep, head[1..], tail);
      assert head == [head[0]] + head[1..];
    }
  }

  /** Equal joined texts that differ at most in the last part have the same last part. */
  lemma {:induction false} JoinTail(sep: char, head: seq<string>, a: string, b: string)
    requires Join(sep, head + [a]) == Join(sep, head + [b])
    ensures a == b
  {
    if head == [] {
      assert head + [a] == [a] && head + [b] == [b];
    } else {
      assert (head + [a])[1..] == head[1..] + [a] && (head + [b])[1..] == head[1..] + [b];
      var x, y := Join(sep, head[1..] + [a]), Join(sep, head[1..] + [b]);
      var p := head[0] + [sep];
      assert x == (p + x)[|p|..] && y == (p + y)[|p|..];
      JoinTail(sep, head[1..], a, b);
    }
  }

  /** Two equal joined texts have equal parts when no part holds the separator. */
  lemma JoinInjective(sep: char, a: seq<string>, b: seq<string>)
    requires a != [] && forall i | 0 <= i < |a| :: sep !in a[i]
    requires b != [] && forall i | 0 <= i < |b| :: sep !in b[i]
    requires Join(sep, a) == Join(sep, b)
    ensures a == b
  {
    SplitJoin(sep, a);
    SplitJoin(sep, b);
  }

  // ---- counting separators ----

  function Occurrences(sep: char, s: string): nat {
    if s == "" then 0 else Occurrences(sep, s[..|s| - 1]) + (if s[|s| - 1] == sep then 1 else 0)
  }

  function OccurrencesAll(sep: char, parts: seq<string>): nat {
    if parts == [] then 0 else OccurrencesAll(sep, parts[..|parts| - 1]) + Occurrences(sep, parts[|parts| - 1])
  }

  lemma {:induction false} CountConcat(sep: char, a: string, b: string)
    ensures Occurrences(sep, a + b) == Occurrences(sep, a) + Occurrences(sep, b)
  {
    if b == "" {
      assert a + b == a;
    } else {
      var n := |b| - 1;
      assert (a + b)[..|a| + n] == a + b[..n];
      CountConcat(sep, a, b[..n]);
    }
  }

  lemma {:induction false} CountNone(sep: char, s: string)
    ensures Occurrences(sep, s) == 0 <==> sep !in s
  {
    if s != "" {
      CountNone(sep, s[..|s| - 1]);
      assert s == s[..|s| - 1] + [s[|s| - 1]];
    }
  }

  lemma {:induction false} CountAllNone(sep: char, parts: seq<string>)
    ensures OccurrencesAll(sep, parts) == 0 <==> forall i | 0 <= i < |parts| :: sep !in parts[i]
  {
    if parts != [] {
      var n := |parts| - 1;
      CountAllNone(sep, parts[..n]);
      CountNone(sep, parts[n]);
      assert forall i | 0 <= i < n :: parts[..n][i] == parts[i];
    }
  }

  lemma {:induction false} CountAllFirst(sep: char, parts: seq<string>)
    requires parts != []
    ensures OccurrencesAll(sep, parts) == Occurrences(sep, parts[0]) + OccurrencesAll(sep, parts[1..])
  {
    var n := |parts| - 1;
    if n > 0 {
      CountAllFirst(sep, parts[..n]);
      assert parts[..n][1..] == parts[1..][..n - 1];
    } else {
      assert parts[..0] == [] && parts[1..] == [];
    }
  }

  /** A joined text holds the separators of its parts and one between each two. */
  lemma {:induction false} CountJoin(sep: char, parts: seq<string>)
    requires parts != []
    ensures Occurrences(sep, Join(sep, parts)) == OccurrencesAll(sep, parts) + |parts| - 1
  {
    hide Occurrences, OccurrencesAll;
    CountAllFirst(sep, parts);
    if |parts| == 1 {
      EmptyCounts(sep);
      assert parts[1..] == [];
    } else {
      CountJoin(sep, parts[1..]);
      CountConcat(sep, parts[0], [sep]);
      CountConcat(sep, parts[0] + [sep], Join(sep, parts[1..]));
      EmptyCounts(sep);
    }
  }

  lemma EmptyCounts(sep: char)
    ensures OccurrencesAll(sep, []) == 0 && Occurrences(sep, [sep]) == 1
  {
    assert [sep][..0] == "";
  }
}
