/**
 * String helpers shared by the validators, the header logic, the token
 * extractor and the name/code normalisation. Strings are sequences of
 * Unicode scalar values; `ByteLen` gives the length of their UTF-8
 * encoding, which is what Rust's `str::len` returns.
 */
module Text {

  /** Number of bytes the UTF-8 encoding of `c` takes. */
  function Utf8Width(c: char): (w: nat)
    ensures 1 <= w <= 4
    ensures w == 1 <==> c < 128 as char
  {
    if c < 128 as char then 1
    else if c < 0x800 as char then 2
    else if c < 0x10000 as char then 3
    else 4
  }

  /** Rust's `str::len`: the byte length of the UTF-8 encoding. */
  function ByteLen(s: string): (n: nat)
    ensures n >= |s|
    ensures n <= 4 * |s|
  {
    if s == [] then 0 else Utf8Width(s[0]) + ByteLen(s[1..])
  }

  predicate IsAscii(s: string) {
    forall i :: 0 <= i < |s| ==> s[i] < 128 as char
  }

  lemma {:induction false} AsciiByteLen(s: string)
    requires IsAscii(s)
    ensures ByteLen(s) == |s|
  {
    if s != [] {
      assert s[0] < 128 as char;
      AsciiByteLen(s[1..]);
    }
  }

  lemma {:induction false} ByteLenAppend(a: string, b: string)
    ensures ByteLen(a + b) == ByteLen(a) + ByteLen(b)
  {
    if a == [] {
      assert a + b == b;
    } else {
      assert (a + b)[1..] == a[1..] + b;
      ByteLenAppend(a[1..], b);
    }
  }

  /** Rust's `char::is_whitespace`: the Unicode White_Space property. */
  predicate IsWhitespace(c: char) {
    || ('\t' <= c <= '\r')
    || c == ' '
    || c == 0x85 as char
    || c == 0xA0 as char
    || c == 0x1680 as char
    || (0x2000 as char <= c <= 0x200A as char)
    || c == 0x2028 as char
    || c == 0x2029 as char
    || c == 0x202F as char
    || c == 0x205F as char
    || c == 0x3000 as char
  }

  /** Leading whitespace removed (Rust's `trim_start`). */
  function TrimStart(s: string): (r: string)
    ensures |r| <= |s| && r == s[|s| - |r|..]
    ensures r != [] ==> !IsWhitespace(r[0])
    ensures forall i :: 0 <= i < |s| - |r| ==> IsWhitespace(s[i])
  {
    if s != [] && IsWhitespace(s[0]) then TrimStart(s[1..]) else s
  }

  /** Trailing whitespace removed (Rust's `trim_end`). */
  function TrimEnd(s: string): (r: string)
    ensures |r| <= |s| && r == s[..|r|]
    ensures r != [] ==> !IsWhitespace(r[|r| - 1])
    ensures forall i :: |r| <= i < |s| ==> IsWhitespace(s[i])
  {
    if s != [] && IsWhitespace(s[|s| - 1]) then TrimEnd(s[..|s| - 1]) else s
  }

  /** Rust's `str::trim`: both ends. */
  function Trim(s: string): (r: string)
    ensures exists i, j :: WhitespaceOutside(s, i, j) && r == s[i..j]
    ensures r != [] ==> !IsWhitespace(r[0]) && !IsWhitespace(r[|r| - 1])
  {
    var t := TrimStart(s);
    var r := TrimEnd(t);
    InnerSlice(s, t, r);
    r
  }

  /** A prefix `r` of a suffix `t` of `s`, with whitespace around it, is a slice of `s` with whitespace outside it. */
  lemma InnerSlice(s: string, t: string, r: string)
    requires |t| <= |s| && t == s[|s| - |t|..] && forall k :: 0 <= k < |s| - |t| ==> IsWhitespace(s[k])
    requires |r| <= |t| && r == t[..|r|] && forall k :: |r| <= k < |t| ==> IsWhitespace(t[k])
    ensures WhitespaceOutside(s, |s| - |t|, |s| - |t| + |r|) && r == s[|s| - |t|..|s| - |t| + |r|]
  {
    var i := |s| - |t|;
    forall k | i + |r| <= k < |s| ensures IsWhitespace(s[k]) {
      assert s[k] == t[k - i];
    }
  }

  /** Everything of `s` before `i` and from `j` on is whitespace. */
  predicate WhitespaceOutside(s: string, i: int, j: int)
  {
    && 0 <= i <= j <= |s|
    && (forall k :: 0 <= k < i ==> IsWhitespace(s[k]))
    && (forall k :: j <= k < |s| ==> IsWhitespace(s[k]))
  }

  /** A string that neither starts nor ends with whitespace is its own trim. */
  lemma TrimOfTrimmed(s: string)
    requires s != [] ==> !IsWhitespace(s[0]) && !IsWhitespace(s[|s| - 1])
    ensures Trim(s) == s
  {
  }

  predicate StartsWith(s: string, p: string) {
    |p| <= |s| && s[..|p|] == p
  }

  /** `s` has `sub` as a contiguous part (Rust's `str::contains`). */
  predicate Contains(s: string, sub: string) {
    exists i :: 0 <= i <= |s| && OccursAt(s, sub, i)
  }

  predicate OccursAt(s: string, sub: string, i: int) {
    0 <= i <= |s| - |sub| && s[i..i + |sub|] == sub
  }

  /** `p` written `k` times in a row. */
  function Repeat(p: string, k: nat): (r: string)
    ensures |r| == k * |p|
  {
    if k == 0 then [] else p + Repeat(p, k - 1)
  }

  /**
   * Rust's `trim_start_matches` with a string pattern: strips every
   * leading repetition of `p`, so that what is left no longer starts
   * with `p`.
   */
  function TrimStartMatches(s: string, p: string): (r: string)
    ensures |r| <= |s| && r == s[|s| - |r|..]
    ensures exists k: nat :: s == Repeat(p, k) + r
    ensures p != [] ==> !StartsWith(r, p)
    decreases |s|
  {
    if p != [] && StartsWith(s, p) then
      var r := TrimStartMatches(s[|p|..], p);
      assert exists k: nat :: s == Repeat(p, k) + r by {
        var k: nat :| s[|p|..] == Repeat(p, k) + r;
        OneMoreRepetition(s, p, k, r);
      }
      r
    else
      assert s == Repeat(p, 0) + s;
      s
  }

  lemma OneMoreRepetition(s: string, p: string, k: nat, r: string)
    requires StartsWith(s, p) && s[|p|..] == Repeat(p, k) + r
    ensures s == Repeat(p, k + 1) + r
  {
    calc {
      s;
      s[..|p|] + s[|p|..];
      p + (Repeat(p, k) + r);
      (p + Repeat(p, k)) + r;
    }
  }

  /**
   * Every occurrence of the character `c` replaced by `rep` (Rust's
   * `str::replace` with a char pattern). With a one-character `rep` the
   * result is `s` with `c` swapped for it position by position.
   */
  function Replace(s: string, c: char, rep: string): (r: string)
    ensures c !in r || c in rep
    ensures |rep| == 1 ==> |r| == |s| && forall i :: 0 <= i < |s| ==> r[i] == (if s[i] == c then rep[0] else s[i])
  {
    if s == [] then []
    else (if s[0] == c then rep else [s[0]]) + Replace(s[1..], c, rep)
  }

  lemma {:induction false} ReplaceAppend(a: string, b: string, c: char, rep: string)
    ensures Replace(a + b, c, rep) == Replace(a, c, rep) + Replace(b, c, rep)
  {
    if a == [] {
      assert a + b == b;
    } else {
      assert (a + b)[0] == a[0];
      assert (a + b)[1..] == a[1..] + b;
      ReplaceAppend(a[1..], b, c, rep);
    }
  }

  lemma {:induction false} ReplaceAbsent(s: string, c: char, rep: string)
    requires c !in s
    ensures Replace(s, c, rep) == s
  {
    if s != [] {
      assert s[0] != c;
      ReplaceAbsent(s[1..], c, rep);
    }
  }

  /** A character other than `c` and absent from `rep` is absent from the result iff it is absent from `s`. */
  lemma {:induction false} ReplaceKeepsOthersOut(s: string, c: char, rep: string, d: char)
    requires d != c && d !in rep && d !in s
    ensures d !in Replace(s, c, rep)
  {
    if s != [] {
      assert s[0] != d;
      ReplaceKeepsOthersOut(s[1..], c, rep, d);
    }
  }

  function AsciiLower(c: char): (d: char)
    ensures !('A' <= d <= 'Z')
  {
    if 'A' <= c <= 'Z' then (c as int + 32) as char else c
  }

  function AsciiUpper(c: char): (d: char)
    ensures !('a' <= d <= 'z')
  {
    if 'a' <= c <= 'z' then (c as int - 32) as char else c
  }

  /** ASCII `to_lowercase` over a whole string. */
  function Lower(s: string): (r: string)
    ensures |r| == |s|
    ensures forall i :: 0 <= i < |s| ==> r[i] == AsciiLower(s[i])
  {
    if s == [] then [] else [AsciiLower(s[0])] + Lower(s[1..])
  }

  /** ASCII `to_uppercase` over a whole string. */
  function Upper(s: string): (r: string)
    ensures |r| == |s|
    ensures forall i :: 0 <= i < |s| ==> r[i] == AsciiUpper(s[i])
  {
    if s == [] then [] else [AsciiUpper(s[0])] + Upper(s[1..])
  }

  predicate IsDigit(c: char) { '0' <= c <= '9' }

  function DigitChar(d: nat): (c: char)
    requires d < 10
    ensures IsDigit(c)
  {
    ('0' as int + d) as char
  }

  /** Decimal rendering of a natural number, as Rust's `Display` for unsigned integers. */
  function NatToDecimal(n: nat): (r: string)
    ensures r != []
    ensures forall i :: 0 <= i < |r| ==> IsDigit(r[i])
    decreases n
  {
    if n < 10 then [DigitChar(n)] else NatToDecimal(n / 10) + [DigitChar(n % 10)]
  }

  /** The number a string of decimal digits denotes. */
  function DecimalValue(s: string): nat
    requires forall i :: 0 <= i < |s| ==> IsDigit(s[i])
  {
    if s == [] then 0
    else
      assert forall i :: 0 <= i < |s| - 1 ==> s[..|s| - 1][i] == s[i];
      assert IsDigit(s[|s| - 1]);
      DecimalValue(s[..|s| - 1]) * 10 + (s[|s| - 1] as int - '0' as int)
  }

  /** The rendering reads back as the number, and has no leading zero. */
  lemma {:induction false} DecimalRoundTrip(n: nat)
    ensures DecimalValue(NatToDecimal(n)) == n
    ensures NatToDecimal(n)[0] == '0' ==> n == 0
    decreases n
  {
    var s := NatToDecimal(n);
    if n >= 10 {
      DecimalRoundTrip(n / 10);
      assert s[..|s| - 1] == NatToDecimal(n / 10);
      assert s[0] == NatToDecimal(n / 10)[0];
    } else {
      assert s[..|s| - 1] == [];
    }
  }
}
