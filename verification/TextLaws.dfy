/** What the text forms mean: hex digits as values, decimal digits by place, and joined parts. */
module TextLaws {
  import opened Wrappers
  import opened Numbers
  import opened Text

  // ---- hex ----

  /** The value of a hex digit in either case. */
  function HexValue(c: char): Option<nat> {
    if '0' <= c <= '9' then Some(c as nat - '0' as nat)
    else if 'a' <= c <= 'f' then Some(10 + (c as nat - 'a' as nat))
    else if 'A' <= c <= 'F' then Some(10 + (c as nat - 'A' as nat))
    else None
  }

  lemma HexTextIs(s: string, digits: nat)
    ensures IsHexText(s, digits) <==>
              |s| == 2 + digits && s[..2] == "0x" && forall i | 2 <= i < |s| :: HexValue(s[i]).Some?
  {
    if |s| == 2 + digits { assert s[..2] == [s[0], s[1]]; }
  }

  /** Two hex texts have one lower-case form exactly when they spell the same digits, whatever their case. */
  lemma SameHexIff(a: string, b: string, digits: nat)
    requires IsHexText(a, digits) && IsHexText(b, digits)
    ensures Lower(a) == Lower(b) <==> forall i | 2 <= i < 2 + digits :: HexValue(a[i]) == HexValue(b[i])
    ensures forall i | 0 <= i < |a| :: !('A' <= Lower(a)[i] <= 'F')
  {
    forall i | 2 <= i < 2 + digits ensures LowerChar(a[i]) == LowerChar(b[i]) <==> HexValue(a[i]) == HexValue(b[i]) {
      SameDigitIff(a[i], b[i]);
    }
  }

  lemma SameDigitIff(a: char, b: char)
    requires HexValue(a).Some? && HexValue(b).Some?
    ensures LowerChar(a) == LowerChar(b) <==> HexValue(a) == HexValue(b)
  {
  }

  /** Lower-casing moves the 26 capitals by 32 and leaves every other character. */
  lemma LowerCharIs(c: char)
    ensures LowerChar(c) as int == if 65 <= c as int <= 90 then c as int + 32 else c as int
  {
  }

  /** A digest is 64 hex digits without a capital. */
  lemma DigestIs(s: string)
    ensures IsDigest(s) <==> |s| == 64 && forall ch | ch in s :: HexValue(ch).Some? && Lower([ch]) == [ch]
  {
    if |s| == 64 && forall ch | ch in s :: HexValue(ch).Some? && Lower([ch]) == [ch] {
      forall i | 0 <= i < 64 ensures '0' <= s[i] <= '9' || 'a' <= s[i] <= 'f' {
        assert s[i] in s && Lower([s[i]])[0] == s[i];
      }
    }
    if IsDigest(s) {
      forall ch | ch in s ensures HexValue(ch).Some? && Lower([ch]) == [ch] {
        var i :| 0 <= i < 64 && s[i] == ch;
        assert LowerChar(ch) == ch;
      }
    }
  }

  lemma HexDigitIs(v: nat)
    requires v < 16
    ensures HexValue(HexDigit(v)) == Some(v)
  {
  }

  // ---- decimal ----

  function Power(k: nat): (p: nat)
    ensures p > 0
  {
    if k == 0 then 1 else 10 * Power(k - 1)
  }

  lemma DivideTwice(n: nat, p: nat)
    requires p > 0
    ensures n / 10 / p == n / (10 * p)
  {
    var q, r := n / 10 / p, n / 10 % p;
    assert n == 10 * (q * p + r) + n % 10;
    assert n == (10 * p) * q + (10 * r + n % 10);
    assert 0 <= 10 * r + n % 10 < 10 * p;
    Quotient(n, 10 * p, q, 10 * r + n % 10);
  }

  lemma Quotient(n: nat, d: nat, q: nat, r: nat)
    requires d > 0 && n == d * q + r && r < d
    ensures n / d == q
  {
    Multiples(d, q + 1, n / d);
    Multiples(d, n / d + 1, q);
  }

  /** The k-th digit from the right is that of the k-th place, and there is no leading zero. */
  lemma {:induction false} DecimalDigit(n: nat, k: nat)
    ensures k < |Decimal(n)| <==> k == 0 || Power(k) <= n
    ensures k < |Decimal(n)| ==> Decimal(n)[|Decimal(n)| - 1 - k] == '0' + (n / Power(k) % 10) as char
    decreases k
  {
    if k > 0 {
      DivideTwice(n, Power(k - 1));
      if n >= 10 {
        DecimalDigit(n / 10, k - 1);
        TenTimes(n, Power(k - 1));
        assert Decimal(n) == Decimal(n / 10) + [Digit(n % 10)];
      } else {
        assert Power(k) >= 10;
      }
    }
  }

  lemma TenTimes(n: nat, p: nat)
    requires p > 0
    ensures p <= n / 10 <==> 10 * p <= n
  {
  }

  // ---- joined parts ----

  /** Joining goes part by part with one separator between each two. */
  lemma {:induction false} JoinIs(sep: char, a: seq<string>, b: seq<string>)
    requires a != [] && b != []
    ensures Join(sep, a + b) == Join(sep, a) + [sep] + Join(sep, b)
    ensures Join(sep, [a[0]]) == a[0]
  {
    if |a| == 1 {
      assert (a + b)[1..] == b;
    } else {
      assert (a + b)[1..] == a[1..] + b;
      JoinIs(sep, a[1..], b);
      assert Join(sep, a + b) == a[0] + [sep] + (Join(sep, a[1..]) + [sep] + Join(sep, b));
    }
  }

  lemma JoinFour(sep: char, a: string, b: string, c: string, d: string)
    ensures Join(sep, [a, b, c, d]) == a + [sep] + b + [sep] + c + [sep] + d
  {
    assert [a, b, c, d][1..] == [b, c, d] && [b, c, d][1..] == [c, d] && [c, d][1..] == [d];
    assert Join(sep, [c, d]) == c + [sep] + d;
    assert Join(sep, [b, c, d]) == b + [sep] + (c + [sep] + d);
    assert Join(sep, [a, b, c, d]) == a + [sep] + (b + [sep] + (c + [sep] + d));
  }
}
