/** The identity under which src/cloudflare-v2-observation-cache.mjs stores its record: the given identity
    wrapped as JSON text with the format version, the time to live and the revision. */
module ObservationIdentity {
  import opened Wrappers
  import opened Numbers
  import opened Text
  import opened TextLaws
  import opened ObservationCache

  const MAX_GIVEN_IDENTITY := 8192

  // ---- JSON text of a string (section 7 of RFC 8259) ----

  /** The letter of a two-character escape, for the characters that have one. */
  function ShortEscape(c: char): Option<char> {
    if c == '\"' then Some('\"')
    else if c == '\\' then Some('\\')
    else if c as int == 8 then Some('b')
    else if c as int == 9 then Some('t')
    else if c as int == 10 then Some('n')
    else if c as int == 12 then Some('f')
    else if c as int == 13 then Some('r')
    else None
  }

  function Escape(c: char): (s: string)
    ensures 1 <= |s| <= 6
  {
    if ShortEscape(c).Some? then ['\\', ShortEscape(c).value]
    else if c as int < 32 then ['\\', 'u', '0', '0', HexDigit(c as int / 16), HexDigit(c as int % 16)]
    else [c]
  }

  function Escaped(s: string): string {
    if s == "" then "" else Escape(s[0]) + Escaped(s[1..])
  }

  /** How many characters escaping adds. */
  function Growth(s: string): nat {
    if s == "" then 0 else |Escape(s[0])| - 1 + Growth(s[1..])
  }

  lemma {:induction false} EscapedLength(s: string)
    ensures |Escaped(s)| == |s| + Growth(s)
  {
    if s != "" { EscapedLength(s[1..]); }
  }

  /** No escape of one character begins the escape of another. */
  lemma EscapeIsPrefixFree(a: char, b: char, x: string, y: string)
    requires Escape(a) + x == Escape(b) + y
    ensures a == b && x == y
  {
    var s := Escape(a) + x;
    assert s[0] == Escape(a)[0] == Escape(b)[0];
    assert s[0] == '\\' ==> s[1] == Escape(a)[1] == Escape(b)[1];
    if s[0] == '\\' && s[1] == 'u' {
      assert s[4] == Escape(a)[4] == Escape(b)[4] && s[5] == Escape(a)[5] == Escape(b)[5];
    }
    assert x == s[|Escape(a)|..] && y == s[|Escape(b)|..];
  }

  lemma {:induction false} EscapedInjective(a: string, b: string)
    requires Escaped(a) == Escaped(b)
    ensures a == b
  {
    if a != "" && b != "" {
      EscapeIsPrefixFree(a[0], b[0], Escaped(a[1..]), Escaped(b[1..]));
      EscapedInjective(a[1..], b[1..]);
      assert a == [a[0]] + a[1..] && b == [b[0]] + b[1..];
    }
  }

  // ---- the wrapped identity ----

  predicate IsRevision(s: string) {
    |s| == 40 && forall i | 0 <= i < 40 :: '0' <= s[i] <= '9' || 'a' <= s[i] <= 'f'
  }

  function NormalizeRevision(revision: Option<string>): Option<string> {
    if revision.Some? && IsRevision(revision.value) then revision else None
  }

  function RevisionText(revision: Option<string>): string {
    if revision.None? then "null" else "\"" + revision.value + "\""
  }

  function Head(ttlMs: nat, revision: Option<string>): seq<string> {
    ["[1", Decimal(ttlMs), RevisionText(revision)]
  }

  function ValueText(value: string): string { "\"" + Escaped(value) + "\"]" }

  function Wrapped(value: string, ttlMs: nat, revision: Option<string>): string {
    Join(',', Head(ttlMs, revision) + [ValueText(value)])
  }

  /** What the constructor accepts, and the configuration of the instance it makes. */
  function Configure(value: string, ttlMs: int, revision: Option<string>): Option<Config> {
    if !TtlOk(ttlMs) || !(1 <= |value| <= MAX_GIVEN_IDENTITY) then None
    else Some(Config(Wrapped(value, ttlMs, NormalizeRevision(revision)), ttlMs, NormalizeRevision(revision)))
  }

  lemma WrappedLength(value: string, ttlMs: nat, revision: Option<string>)
    ensures |Wrapped(value, ttlMs, revision)| ==
            |value| + Growth(value) + |Decimal(ttlMs)| + |RevisionText(revision)| + 8
  {
    EscapedLength(value);
    var d, r, v := Decimal(ttlMs), RevisionText(revision), ValueText(value);
    assert Head(ttlMs, revision) + [v] == ["[1", d, r, v];
    JoinLength("[1", [d, r, v]);
    JoinLength(d, [r, v]);
    JoinLength(r, [v]);
    assert |Join(',', [v])| == |v| == |Escaped(value)| + 3;
  }

  lemma JoinLength(first: string, rest: seq<string>)
    requires rest != []
    ensures |Join(',', [first] + rest)| == |first| + 1 + |Join(',', rest)|
  {
    assert ([first] + rest)[1..] == rest;
  }

  /** An accepted identity can be stored if and only if the characters its JSON escapes add fit the slack. */
  lemma StorableIff(value: string, ttlMs: int, revision: Option<string>)
    requires Configure(value, ttlMs, revision).Some?
    ensures var cfg := Configure(value, ttlMs, revision).value;
            && Legal(cfg)
            && (Storable(cfg) <==>
                  |value| + Growth(value) <=
                  MAX_STORED_IDENTITY - 8 - |Decimal(ttlMs)| - |RevisionText(NormalizeRevision(revision))|)
  {
    WrappedLength(value, ttlMs, NormalizeRevision(revision));
  }

  lemma ShortDecimal(n: nat)
    requires n < 1000000
    ensures |Decimal(n)| <= 6
  {
    assert n >= 10 ==> |Decimal(n)| == |Decimal(n / 10)| + 1;
    if n >= 10 {
      var a := n / 10;
      assert a >= 10 ==> |Decimal(a)| == |Decimal(a / 10)| + 1;
      assert a / 10 >= 10 ==> |Decimal(a / 10)| == |Decimal(a / 10 / 10)| + 1;
      assert a / 10 / 10 >= 10 ==> |Decimal(a / 10 / 10)| == |Decimal(a / 10 / 10 / 10)| + 1;
      assert a / 10 / 10 / 10 >= 10 ==> |Decimal(a / 10 / 10 / 10)| == |Decimal(a / 10 / 10 / 10 / 10)| + 1;
    }
  }

  /** So every accepted identity with at most 72 added characters can, one without any in particular. */
  lemma FewEscapesAreStorable(value: string, ttlMs: int, revision: Option<string>)
    requires Configure(value, ttlMs, revision).Some? && Growth(value) <= 72
    ensures Storable(Configure(value, ttlMs, revision).value)
  {
    StorableIff(value, ttlMs, revision);
    ShortDecimal(ttlMs);
  }

  function Quotes(n: nat): (s: string)
    ensures |s| == n && forall i | 0 <= i < n :: s[i] == '\"'
  {
    seq(n, _ => '\"')
  }

  lemma {:induction false} QuotesGrow(s: string)
    requires forall i | 0 <= i < |s| :: s[i] == '\"'
    ensures Growth(s) == |s|
  {
    if s != "" { QuotesGrow(s[1..]); }
  }

  /** The constructor accepts 8192 double quotes, whose wrapped text no stored record may carry. */
  lemma QuotesAreNotStorable(ttlMs: int, revision: Option<string>)
    requires TtlOk(ttlMs)
    ensures Configure(Quotes(MAX_GIVEN_IDENTITY), ttlMs, revision).Some?
    ensures !Storable(Configure(Quotes(MAX_GIVEN_IDENTITY), ttlMs, revision).value)
  {
    hide Quotes;
    QuotesGrow(Quotes(MAX_GIVEN_IDENTITY));
    StorableIff(Quotes(MAX_GIVEN_IDENTITY), ttlMs, revision);
  }

  // ---- the identity determines the configuration ----

  lemma HeadPlain(ttlMs: nat, revision: Option<string>)
    requires revision.Some? ==> IsRevision(revision.value)
    ensures forall i | 0 <= i < 3 :: ',' !in Head(ttlMs, revision)[i]
  {
    assert ',' !in Decimal(ttlMs);
    assert ',' !in RevisionText(revision);
  }

  lemma RevisionTextInjective(a: Option<string>, b: Option<string>)
    requires RevisionText(a) == RevisionText(b)
    ensures a == b
  {
    assert RevisionText(a)[0] == if a.None? then 'n' else '\"';
    assert RevisionText(b)[0] == if b.None? then 'n' else '\"';
    if a.Some? && b.Some? {
      assert a.value == RevisionText(a)[1..|RevisionText(a)| - 1];
      assert b.value == RevisionText(b)[1..|RevisionText(b)| - 1];
    }
  }

  lemma ValueTextInjective(a: string, b: string)
    requires ValueText(a) == ValueText(b)
    ensures a == b
  {
    var s := ValueText(a);
    assert Escaped(a) == s[1..|s| - 2] == Escaped(b);
    EscapedInjective(a, b);
  }

  /** Instances that store the same identity were given the same one, and agree on time to live and revision. */
  lemma IdentityDeterminesConfig(a: string, ttlA: int, revA: Option<string>, b: string, ttlB: int, revB: Option<string>)
    requires Configure(a, ttlA, revA).Some? && Configure(b, ttlB, revB).Some?
    requires Configure(a, ttlA, revA).value.identity == Configure(b, ttlB, revB).value.identity
    ensures a == b && Configure(a, ttlA, revA) == Configure(b, ttlB, revB)
  {
    hide Decimal, RevisionText, ValueText;
    var x, y := NormalizeRevision(revA), NormalizeRevision(revB);
    HeadPlain(ttlA, x);
    HeadPlain(ttlB, y);
    var h, k := Head(ttlA, x), Head(ttlB, y);
    SplitJoinTail(',', h, ValueText(a));
    SplitJoinTail(',', k, ValueText(b));
    assert h == (h + Split(',', ValueText(a)))[..3] && k == (k + Split(',', ValueText(b)))[..3];
    assert h[1] == k[1] && h[2] == k[2];
    DecimalInjective(ttlA, ttlB);
    RevisionTextInjective(x, y);
    JoinTail(',', h, ValueText(a), ValueText(b));
    ValueTextInjective(a, b);
  }

  // ---- the wrapped text, spelled out ----

  /** The escapes of JSON: the seven short ones, `u` with four hex digits for the other control characters, and
      every other character as it is. */
  lemma EscapeIs(c: char)
    ensures var v := c as int;
            if c == '\"' then Escape(c) == "\\\""
            else if c == '\\' then Escape(c) == "\\\\"
            else if v == 8 then Escape(c) == "\\b"
            else if v == 9 then Escape(c) == "\\t"
            else if v == 10 then Escape(c) == "\\n"
            else if v == 12 then Escape(c) == "\\f"
            else if v == 13 then Escape(c) == "\\r"
            else if v < 32 then
              |Escape(c)| == 6 && Escape(c)[..4] == "\\u00"
              && HexValue(Escape(c)[4]) == Some(v / 16) && HexValue(Escape(c)[5]) == Some(v % 16)
            else Escape(c) == [c]
  {
    if c as int < 32 {
      HexDigitIs(c as int / 16);
      HexDigitIs(c as int % 16);
    }
  }

  /** A text is escaped character by character. */
  lemma {:induction false} EscapedConcat(a: string, b: string)
    ensures Escaped(a + b) == Escaped(a) + Escaped(b)
    ensures a != "" ==> Escaped([a[0]]) == Escape(a[0])
  {
    if a == "" {
      assert a + b == b;
    } else {
      assert (a + b)[1..] == a[1..] + b;
      EscapedConcat(a[1..], b);
      assert [a[0]][1..] == "";
    }
  }

  /** The constructor accepts 1 to 8192 characters and 5 to 300 whole seconds, keeps a revision of 40 lower-case hex
      digits, and stores the JSON list of the version, the time to live, the revision and the text. */
  lemma ConfigureIs(value: string, ttlMs: int, revision: Option<string>)
    ensures var r := Configure(value, ttlMs, revision);
            var kept := if revision.Some? && |revision.value| == 40
                           && (forall ch | ch in revision.value :: '0' <= ch <= '9' || 'a' <= ch <= 'f')
                        then revision else None;
            && (r.Some? <==> 1 <= |value| <= 8192 && exists seconds :: 5 <= seconds <= 300 && ttlMs == seconds * 1000)
            && (r.Some? ==>
                  && r.value.ttlMs == ttlMs && r.value.revision == kept
                  && r.value.identity ==
                     "[1" + "," + Decimal(ttlMs) + "," + (if kept.Some? then "\"" + kept.value + "\"" else "null")
                     + "," + ("\"" + Escaped(value) + "\"]"))
  {
    if TtlOk(ttlMs) { assert ttlMs == ttlMs / 1000 * 1000; }
    RevisionIs(revision);
    hide Escaped, Decimal, IsRevision, Wrapped, NormalizeRevision;
    if Configure(value, ttlMs, revision).Some? { WrappedIs(value, ttlMs, NormalizeRevision(revision)); }
  }

  lemma WrappedIs(value: string, ttlMs: nat, revision: Option<string>)
    ensures Wrapped(value, ttlMs, revision) ==
            "[1" + "," + Decimal(ttlMs) + "," + (if revision.Some? then "\"" + revision.value + "\"" else "null")
            + "," + ("\"" + Escaped(value) + "\"]")
  {
    hide Escaped, Decimal, Join;
    var a, b, c, d := "[1", Decimal(ttlMs), RevisionText(revision), ValueText(value);
    assert Head(ttlMs, revision) + [d] == [a, b, c, d];
    JoinFour(',', a, b, c, d);
  }

  lemma RevisionIs(revision: Option<string>)
    ensures NormalizeRevision(revision) ==
            if revision.Some? && |revision.value| == 40
               && (forall ch | ch in revision.value :: '0' <= ch <= '9' || 'a' <= ch <= 'f')
            then revision else None
  {
    if revision.Some? && |revision.value| == 40 {
      var s := revision.value;
      forall i | 0 <= i < 40 ensures s[i] in s {}
    }
  }
}
