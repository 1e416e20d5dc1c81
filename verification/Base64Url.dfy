/** The base64url helpers of src/cloudflare-fresh-read-admission.mjs: encoding through padded standard
    base64, decoding through it, and the re-encode check (section 5 of RFC 4648). */
module Base64Url {
  import opened Wrappers

  type byte = b: nat | b < 256
  type sextet = v: nat | v < 64

  // ---- the two alphabets ----

  function StdChar(v: sextet): char {
    if v < 26 then 'A' + v as char
    else if v < 52 then 'a' + (v - 26) as char
    else if v < 62 then '0' + (v - 52) as char
    else if v == 62 then '+' else '/'
  }

  function StdValue(c: char): Option<sextet> {
    if 'A' <= c <= 'Z' then Some(c as int - 'A' as int)
    else if 'a' <= c <= 'z' then Some(c as int - 'a' as int + 26)
    else if '0' <= c <= '9' then Some(c as int - '0' as int + 52)
    else if c == '+' then Some(62)
    else if c == '/' then Some(63)
    else None
  }

  function ToUrlChar(c: char): char { if c == '+' then '-' else if c == '/' then '_' else c }
  function ToStdChar(c: char): char { if c == '-' then '+' else if c == '_' then '/' else c }

  predicate IsUrlChar(c: char) {
    'A' <= c <= 'Z' || 'a' <= c <= 'z' || '0' <= c <= '9' || c == '_' || c == '-'
  }

  function Map(f: char -> char, s: string): (r: string)
    ensures |r| == |s| && forall i | 0 <= i < |s| :: r[i] == f(s[i])
  {
    seq(|s|, i requires 0 <= i < |s| => f(s[i]))
  }

  // ---- the platform's btoa and atob ----

  // The six- and eight-bit pieces, from neighbouring bytes and neighbouring sextets.
  function S0(a: byte): sextet { a / 4 }
  function S1(a: byte, b: byte): sextet { a % 4 * 16 + b / 16 }
  function S2(b: byte, c: byte): sextet { b % 16 * 4 + c / 64 }
  function S3(c: byte): sextet { c % 64 }
  function B0(v: sextet, w: sextet): byte { var x: int := v; x * 4 + w / 16 }
  function B1(v: sextet, w: sextet): byte { var x: int := v; x % 16 * 16 + w / 4 }
  function B2(v: sextet, w: sextet): byte { var x: int := v; x % 4 * 64 + w }

  /** Three bytes make four sextets; a short last group is filled up with zero bits. */
  function Sextets(b: seq<byte>): seq<sextet> {
    if b == [] then []
    else if |b| == 1 then [S0(b[0]), S1(b[0], 0)]
    else if |b| == 2 then [S0(b[0]), S1(b[0], b[1]), S2(b[1], 0)]
    else [S0(b[0]), S1(b[0], b[1]), S2(b[1], b[2]), S3(b[2])] + Sextets(b[3..])
  }

  function StdText(v: seq<sextet>): (s: string)
    ensures |s| == |v| && forall i | 0 <= i < |v| :: s[i] == StdChar(v[i])
  {
    seq(|v|, i requires 0 <= i < |v| => StdChar(v[i]))
  }

  function Padding(n: nat): (p: string)
    ensures |p| == n && forall i | 0 <= i < n :: p[i] == '='
  {
    seq(n, _ => '=')
  }

  function Btoa(b: seq<byte>): string {
    StdText(Sextets(b)) + Padding((3 - |b| % 3) % 3)
  }

  /** Whole groups of four characters give three bytes; the spare bits of a short last group are dropped. */
  function Bytes(v: seq<sextet>): seq<byte>
    requires |v| % 4 != 1
  {
    if v == [] then []
    else if |v| == 2 then [B0(v[0], v[1])]
    else if |v| == 3 then [B0(v[0], v[1]), B1(v[1], v[2])]
    else [B0(v[0], v[1]), B1(v[1], v[2]), B2(v[2], v[3])] + Bytes(v[4..])
  }

  predicate AllStd(s: string) { forall i | 0 <= i < |s| :: StdValue(s[i]).Some? }

  function Values(s: string): (v: seq<sextet>)
    requires AllStd(s)
    ensures |v| == |s| && forall i | 0 <= i < |s| :: v[i] == StdValue(s[i]).value
  {
    seq(|s|, i requires 0 <= i < |s| => StdValue(s[i]).value)
  }

  function Unpad(s: string): string {
    if |s| % 4 != 0 || |s| == 0 || s[|s| - 1] != '=' then s
    else if s[|s| - 2] == '=' then s[..|s| - 2]
    else s[..|s| - 1]
  }

  function Atob(s: string): Option<seq<byte>> {
    var t := Unpad(s);
    if |t| % 4 == 1 || !AllStd(t) then None else Some(Bytes(Values(t)))
  }

  // ---- the service's encoder, decoder and canonical check ----

  function StripPadding(s: string): string {
    if s != "" && s[|s| - 1] == '=' then StripPadding(s[..|s| - 1]) else s
  }

  function Encode(b: seq<byte>): string {
    StripPadding(Map(ToUrlChar, Btoa(b)))
  }

  function Decode(s: string): Option<seq<byte>> {
    Atob(Map(ToStdChar, s) + Padding((4 - |s| % 4) % 4))
  }

  predicate IsUrlText(s: string) {
    |s| % 4 != 1 && forall i | 0 <= i < |s| :: IsUrlChar(s[i])
  }

  /** The text check of decodeCredential and decodeReceipt: alphabet, length, and re-encoding. */
  predicate Canonical(s: string) {
    IsUrlText(s) && Decode(s).Some? && Encode(Decode(s).value) == s
  }

  // ---- encoding as sextets ----

  function UrlText(v: seq<sextet>): (s: string)
    ensures |s| == |v| && forall i | 0 <= i < |v| :: s[i] == ToUrlChar(StdChar(v[i]))
  {
    seq(|v|, i requires 0 <= i < |v| => ToUrlChar(StdChar(v[i])))
  }

  lemma UrlChars(v: sextet)
    ensures IsUrlChar(ToUrlChar(StdChar(v))) && ToStdChar(ToUrlChar(StdChar(v))) == StdChar(v)
    ensures StdValue(StdChar(v)) == Some(v)
  {
  }

  lemma UrlCharValue(c: char)
    requires IsUrlChar(c)
    ensures ToStdChar(c) != '='
    ensures StdValue(ToStdChar(c)).Some? && ToUrlChar(StdChar(StdValue(ToStdChar(c)).value)) == c
  {
  }

  lemma PaddingStays()
    ensures ToUrlChar('=') == '=' && forall v: sextet :: ToUrlChar(StdChar(v)) != '='
  {
  }

  lemma {:induction false} StripTail(s: string, n: nat)
    requires forall i | 0 <= i < |s| :: s[i] != '='
    ensures StripPadding(s + Padding(n)) == s
  {
    if n == 0 {
      assert s + Padding(0) == s;
    } else {
      assert (s + Padding(n))[..|s| + n - 1] == s + Padding(n - 1);
      StripTail(s, n - 1);
    }
  }

  lemma {:induction false} SextetCount(b: seq<byte>)
    ensures |Sextets(b)| % 4 != 1
  {
    hide S0, S1, S2, S3;
    if |b| >= 3 { SextetCount(b[3..]); }
  }

  /** The encoder is the unpadded text of the sextets. */
  lemma EncodeIsSextets(b: seq<byte>)
    ensures Encode(b) == UrlText(Sextets(b)) && |Sextets(b)| % 4 != 1
  {
    hide StdChar, ToUrlChar, Sextets;
    SextetCount(b);
    PaddingStays();
    var n := (3 - |b| % 3) % 3;
    assert Map(ToUrlChar, Btoa(b)) == UrlText(Sextets(b)) + Padding(n);
    StripTail(UrlText(Sextets(b)), n);
  }

  function UrlValues(s: string): (v: seq<sextet>)
    requires IsUrlText(s)
    ensures |v| == |s| && forall i | 0 <= i < |s| :: StdValue(ToStdChar(s[i])) == Some(v[i])
  {
    assert forall i | 0 <= i < |s| :: StdValue(ToStdChar(s[i])).Some?;
    seq(|s|, i requires 0 <= i < |s| => StdValue(ToStdChar(s[i])).value)
  }

  lemma UnpadPadding(t: string)
    requires |t| % 4 != 1 && forall i | 0 <= i < |t| :: t[i] != '='
    ensures Unpad(t + Padding((4 - |t| % 4) % 4)) == t
  {
    var n := (4 - |t| % 4) % 4;
    var p := t + Padding(n);
    assert |p| % 4 == 0 && n <= 2;
    assert n == 0 ==> p == t;
    assert n >= 1 ==> p[..|p| - n] == t;
  }

  /** Decoding a text of the alphabet never fails: it is the bytes of its sextets. */
  lemma DecodeIsBytes(s: string)
    requires IsUrlText(s)
    ensures Decode(s) == Some(Bytes(UrlValues(s)))
  {
    hide Bytes, Unpad, StdValue, ToStdChar;
    var t := Map(ToStdChar, s);
    forall i | 0 <= i < |s| ensures t[i] != '=' && StdValue(t[i]).Some? { UrlCharValue(s[i]); }
    UnpadPadding(t);
    assert Values(t) == UrlValues(s);
  }

  // ---- round trip and uniqueness ----

  lemma ByteBits(a: byte, b: byte, c: byte)
    ensures B0(S0(a), S1(a, b)) == a && B1(S1(a, b), S2(b, c)) == b && B2(S2(b, c), S3(c)) == c
  {
  }

  lemma SextetBits(w: sextet, x: sextet, y: sextet, z: sextet)
    ensures S0(B0(w, x)) == w && S1(B0(w, x), B1(x, y)) == x && S2(B1(x, y), B2(y, z)) == y && S3(B2(y, z)) == z
    ensures (S1(B0(w, x), 0) == x <==> x % 16 == 0) && (S2(B1(x, y), 0) == y <==> y % 4 == 0)
  {
  }

  lemma {:induction false} BytesSextets(b: seq<byte>)
    ensures |Sextets(b)| % 4 != 1 && Bytes(Sextets(b)) == b
  {
    hide B0, B1, B2, S0, S1, S2, S3;
    if |b| >= 3 {
      ByteBits(b[0], b[1], b[2]);
      BytesSextets(b[3..]);
      assert Sextets(b)[4..] == Sextets(b[3..]);
      assert b == [b[0], b[1], b[2]] + b[3..];
    } else if |b| == 2 {
      ByteBits(b[0], b[1], 0);
    } else if |b| == 1 {
      ByteBits(b[0], 0, 0);
    }
  }

  /** Decoding undoes encoding, for every byte sequence, and every encoding is canonical. */
  lemma DecodeEncode(b: seq<byte>)
    ensures Decode(Encode(b)) == Some(b) && Canonical(Encode(b))
  {
    EncodeIsSextets(b);
    var v, s := Sextets(b), Encode(b);
    forall i | 0 <= i < |s| ensures IsUrlChar(s[i]) && StdValue(ToStdChar(s[i])) == Some(v[i]) { UrlChars(v[i]); }
    DecodeIsBytes(s);
    assert UrlValues(s) == v;
    BytesSextets(b);
  }

  /** The spare bits a short last group leaves over are zero. */
  predicate SpareBitsZero(v: seq<sextet>) {
    (|v| % 4 == 2 ==> v[|v| - 1] % 16 == 0) && (|v| % 4 == 3 ==> v[|v| - 1] % 4 == 0)
  }

  lemma ShortGroup(v: seq<sextet>)
    requires |v| == 0 || |v| == 2 || |v| == 3
    ensures |Sextets(Bytes(v))| == |v|
    ensures Sextets(Bytes(v)) == v <==> SpareBitsZero(v)
  {
    hide B0, B1, B2, S0, S1, S2, S3;
    if |v| == 2 {
      SextetBits(v[0], v[1], 0, 0);
    } else if |v| == 3 {
      SextetBits(v[0], v[1], v[2], 0);
    }
  }

  lemma {:induction false} SextetsBytes(v: seq<sextet>)
    requires |v| % 4 != 1
    ensures |Sextets(Bytes(v))| == |v|
    ensures Sextets(Bytes(v)) == v <==> SpareBitsZero(v)
  {
    hide Bytes, Sextets;
    if |v| < 4 {
      ShortGroup(v);
    } else {
      SextetsBytes(v[4..]);
      FirstGroup(v);
      assert v == v[..4] + v[4..];
      assert (v[..4] + Sextets(Bytes(v[4..])))[4..] == Sextets(Bytes(v[4..]));
    }
  }

  lemma BytesGroup(v: seq<sextet>)
    requires |v| >= 4 && |v| % 4 != 1
    ensures Bytes(v) == [B0(v[0], v[1]), B1(v[1], v[2]), B2(v[2], v[3])] + Bytes(v[4..])
  {
    hide B0, B1, B2;
  }

  lemma SextetsGroup(a: byte, b: byte, c: byte, rest: seq<byte>)
    ensures Sextets([a, b, c] + rest) == [S0(a), S1(a, b), S2(b, c), S3(c)] + Sextets(rest)
  {
    hide S0, S1, S2, S3;
    assert ([a, b, c] + rest)[3..] == rest;
  }

  lemma FirstGroup(v: seq<sextet>)
    requires |v| >= 4 && |v| % 4 != 1
    ensures Sextets(Bytes(v)) == v[..4] + Sextets(Bytes(v[4..]))
  {
    hide B0, B1, B2, S0, S1, S2, S3, Bytes, Sextets;
    SextetBits(v[0], v[1], v[2], v[3]);
    BytesGroup(v);
    SextetsGroup(B0(v[0], v[1]), B1(v[1], v[2]), B2(v[2], v[3]), Bytes(v[4..]));
    assert v[..4] == [v[0], v[1], v[2], v[3]];
  }

  /** The re-encode check accepts a text exactly when its spare bits are zero. */
  lemma CanonicalIffSpareBitsZero(s: string)
    requires IsUrlText(s)
    ensures Canonical(s) <==> SpareBitsZero(UrlValues(s))
  {
    var v := UrlValues(s);
    DecodeIsBytes(s);
    EncodeIsSextets(Bytes(v));
    SextetsBytes(v);
    var w := Sextets(Bytes(v));
    forall i | 0 <= i < |s| ensures ToUrlChar(StdChar(v[i])) == s[i] { UrlCharValue(s[i]); }
    if Encode(Bytes(v)) == s {
      forall i | 0 <= i < |v| ensures w[i] == v[i] {
        UrlChars(w[i]);
        UrlChars(v[i]);
        assert UrlText(w)[i] == s[i];
      }
    }
  }

  /** So at most one accepted text exists for each byte sequence. */
  lemma OneTextPerValue(s: string, t: string)
    requires Canonical(s) && Canonical(t) && Decode(s) == Decode(t)
    ensures s == t
  {
  }

  // ---- what the characters stand for ----

  /** The URL-safe alphabet: letters, digits, minus and underscore, in the order of their values. */
  lemma AlphabetIs(v: sextet)
    ensures var c: char := ToUrlChar(StdChar(v));
            && (v < 26 ==> c == 'A' + v as char)
            && (26 <= v < 52 ==> c == 'a' + (v - 26) as char)
            && (52 <= v < 62 ==> c == '0' + (v - 52) as char)
            && (v == 62 ==> c == '-') && (v == 63 ==> c == '_')
  {
  }

  /** And it has no other characters. */
  lemma AlphabetIff(c: char)
    ensures IsUrlChar(c) <==> exists v: sextet :: ToUrlChar(StdChar(v)) == c
  {
    if IsUrlChar(c) { UrlCharValue(c); }
    forall v: sextet ensures IsUrlChar(ToUrlChar(StdChar(v))) { UrlChars(v); }
  }

  /** Four characters as 24 bits, and three bytes as 24 bits, most significant first. */
  function OfSextets(a: int, b: int, c: int, d: int): int { ((a * 64 + b) * 64 + c) * 64 + d }
  function OfBytes(a: int, b: int, c: int): int { (a * 256 + b) * 256 + c }

  /** Each three bytes are the same 24 bits as their four characters; a last group of one or two bytes is filled up
      with zero bits, and its remaining characters are left out. */
  lemma {:induction false} GroupsAreBits(b: seq<byte>, g: nat)
    requires 3 * g < |b|
    ensures var v, i, k := Sextets(b), 3 * g, 4 * g;
            if i + 3 <= |b| then
              |v| >= k + 4 && OfSextets(v[k], v[k + 1], v[k + 2], v[k + 3]) == OfBytes(b[i], b[i + 1], b[i + 2])
            else if i + 2 == |b| then
              |v| == k + 3 && OfSextets(v[k], v[k + 1], v[k + 2], 0) == OfBytes(b[i], b[i + 1], 0)
            else |v| == k + 2 && OfSextets(v[k], v[k + 1], 0, 0) == OfBytes(b[i], 0, 0)
  {
    hide S0, S1, S2, S3;
    if g > 0 {
      hide OfSextets, OfBytes;
      GroupsAreBits(b[3..], g - 1);
      assert Sextets(b)[4..] == Sextets(b[3..]);
    } else {
      var c, d := if |b| > 1 then b[1] else 0, if |b| > 2 then b[2] else 0;
      GroupBits(b[0], c, d);
    }
  }

  lemma GroupBits(a: byte, b: byte, c: byte)
    ensures OfSextets(S0(a), S1(a, b), S2(b, c), S3(c)) == OfBytes(a, b, c) && S2(0, 0) == 0 && S3(0) == 0
  {
    SplitBits(a / 4, a % 4, b / 16, b % 16, c / 64, c % 64);
    hide OfSextets, OfBytes;
    assert a == 4 * (a / 4) + a % 4 && b == 16 * (b / 16) + b % 16 && c == 64 * (c / 64) + c % 64;
  }

  lemma SplitBits(a: int, a': int, b: int, b': int, c: int, c': int)
    ensures OfSextets(a, a' * 16 + b, b' * 4 + c, c') == OfBytes(4 * a + a', 16 * b + b', 64 * c + c')
  {
  }
}
