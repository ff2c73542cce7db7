/**
 * The input validators: email, username, password strength and UUID v4
 * format checks, the HTML-escaping sanitizer and the byte-length range
 * check. Each regular expression of the validators is modelled twice: as
 * an executable matcher, and as the language the expression denotes
 * (spelled as concatenations of its parts); a lemma shows that the two
 * agree.
 */
module Validation {
  import opened Wrappers
  import opened Text

  // ----- Character classes of the patterns -----

  predicate IsAsciiLower(c: char) { 'a' <= c <= 'z' }
  predicate IsAsciiUpper(c: char) { 'A' <= c <= 'Z' }
  predicate IsAlnum(c: char) { IsAsciiLower(c) || IsAsciiUpper(c) || IsDigit(c) }
  predicate IsHex(c: char) { IsDigit(c) || 'a' <= c <= 'f' || 'A' <= c <= 'F' }

  /** `[a-zA-Z0-9.!#$%&'*+/=?^_`{|}~-]`, the characters of an email's local part. */
  predicate IsLocalChar(c: char) { IsAlnum(c) || c in ".!#$%&'*+/=?^_`{|}~-" }

  /** `[a-zA-Z0-9-]`, the characters inside a domain label. */
  predicate IsLabelChar(c: char) { IsAlnum(c) || c == '-' }

  /** `[a-zA-Z0-9_-]`, the characters of a username. */
  predicate IsUsernameChar(c: char) { IsAlnum(c) || c == '_' || c == '-' }

  /** The special-character class of the password rules. */
  predicate IsSpecial(c: char) { c in "!@#$%^&*(),.?\":{}|<>_-+=[]\\'/;`~" }

  // ----- Splitting on a separator -----

  /** The pieces of `s` between occurrences of `sep` (as `str::split` yields them). */
  function Split(s: string, sep: char): (parts: seq<string>)
    ensures |parts| >= 1
    ensures forall i :: 0 <= i < |parts| ==> sep !in parts[i]
    ensures Join(parts, sep) == s
  {
    if s == [] then [[]]
    else
      var rest := Split(s[1..], sep);
      if s[0] == sep then
        assert ([[]] + rest)[1..] == rest;
        [[]] + rest
      else
        var parts := [[s[0]] + rest[0]] + rest[1..];
        assert parts[1..] == rest[1..];
        assert |rest| > 1 ==> Join(rest, sep) == rest[0] + [sep] + Join(rest[1..], sep);
        parts
  }

  /** The pieces put back together with `sep` between them. */
  function Join(parts: seq<string>, sep: char): string
    requires |parts| >= 1
  {
    if |parts| == 1 then parts[0] else parts[0] + [sep] + Join(parts[1..], sep)
  }

  lemma {:induction false} SplitPrefix(a: string, b: string, sep: char)
    requires sep !in a
    ensures Split(a + b, sep) == [a + Split(b, sep)[0]] + Split(b, sep)[1..]
  {
    if a == [] {
      assert a + b == b;
      assert a + Split(b, sep)[0] == Split(b, sep)[0];
      assert Split(b, sep) == [Split(b, sep)[0]] + Split(b, sep)[1..];
    } else {
      assert (a + b)[0] == a[0];
      assert (a + b)[1..] == a[1..] + b;
      SplitPrefix(a[1..], b, sep);
      assert [a[0]] + (a[1..] + Split(b, sep)[0]) == a + Split(b, sep)[0];
    }
  }

  /** Splitting undoes joining, when no piece holds the separator. */
  lemma {:induction false} SplitJoin(parts: seq<string>, sep: char)
    requires |parts| >= 1
    requires forall i :: 0 <= i < |parts| ==> sep !in parts[i]
    ensures Split(Join(parts, sep), sep) == parts
  {
    if |parts| == 1 {
      SplitPrefix(parts[0], [], sep);
      assert parts[0] + [] == parts[0];
      assert parts == [parts[0]];
    } else {
      var tail := parts[1..];
      SplitJoin(tail, sep);
      var b := [sep] + Join(tail, sep);
      assert Join(parts, sep) == parts[0] + b;
      assert b[0] == sep && b[1..] == Join(tail, sep);
      assert Split(b, sep) == [[]] + tail;
      SplitPrefix(parts[0], b, sep);
      assert parts[0] + [] == parts[0];
      assert parts == [parts[0]] + tail;
    }
  }

  lemma {:induction false} JoinAvoids(parts: seq<string>, sep: char, c: char)
    requires |parts| >= 1 && c != sep
    requires forall i :: 0 <= i < |parts| ==> c !in parts[i]
    ensures c !in Join(parts, sep)
  {
    if |parts| > 1 {
      JoinAvoids(parts[1..], sep, c);
    }
  }

  // ----- Email -----

  /** `[a-zA-Z0-9](?:[a-zA-Z0-9-]{0,61}[a-zA-Z0-9])?`: 1 to 63 characters, alphanumeric at both ends. */
  predicate IsLabel(l: string) {
    && 1 <= |l| <= 63
    && IsAlnum(l[0]) && IsAlnum(l[|l| - 1])
    && forall i :: 0 <= i < |l| ==> IsLabelChar(l[i])
  }

  predicate IsLocalPart(s: string) {
    |s| >= 1 && forall i :: 0 <= i < |s| ==> IsLocalChar(s[i])
  }

  /** The domain: two or more labels separated by dots. */
  predicate IsDomain(d: string) {
    var labels := Split(d, '.');
    |labels| >= 2 && forall i :: 0 <= i < |labels| ==> IsLabel(labels[i])
  }

  /** Executable matcher of the anchored email pattern. */
  predicate MatchesEmailPattern(e: string) {
    var parts := Split(e, '@');
    |parts| == 2 && IsLocalPart(parts[0]) && IsDomain(parts[1])
  }

  /** `e` is `local@label.label...` with at least two labels. */
  predicate EmailShaped(e: string, local: string, labels: seq<string>) {
    && IsLocalPart(local)
    && |labels| >= 2
    && (forall i :: 0 <= i < |labels| ==> IsLabel(labels[i]))
    && e == local + "@" + Join(labels, '.')
  }

  /** The language of the email pattern. */
  ghost predicate EmailPattern(e: string) {
    exists local, labels :: EmailShaped(e, local, labels)
  }

  lemma EmailMatcherSound(e: string)
    requires MatchesEmailPattern(e)
    ensures EmailShaped(e, Split(e, '@')[0], Split(Split(e, '@')[1], '.'))
  {
    var parts := Split(e, '@');
    assert Join(parts, '@') == parts[0] + "@" + Join(parts[1..], '@');
    assert parts[1..] == [parts[1]];
  }

  /** Splitting `a`, `sep`, `b` where neither part holds `sep` gives the two parts. */
  lemma SplitAtSeparator(a: string, b: string, sep: char)
    requires sep !in a && sep !in b
    ensures Split(a + [sep] + b, sep) == [a, b]
  {
    var parts := [a, b];
    assert parts[1..] == [b];
    assert Join(parts, sep) == a + [sep] + b;
    SplitJoin(parts, sep);
  }

  lemma LocalPartHasNoAt(local: string)
    requires IsLocalPart(local)
    ensures '@' !in local
  {
    forall i | 0 <= i < |local| ensures local[i] != '@' {
      assert IsLocalChar(local[i]);
    }
  }

  lemma LabelsHaveNoDotOrAt(labels: seq<string>)
    requires forall i :: 0 <= i < |labels| ==> IsLabel(labels[i])
    ensures forall i :: 0 <= i < |labels| ==> '.' !in labels[i] && '@' !in labels[i]
  {
    forall i | 0 <= i < |labels| ensures '.' !in labels[i] && '@' !in labels[i] {
      forall k | 0 <= k < |labels[i]| ensures labels[i][k] != '.' && labels[i][k] != '@' {
        assert IsLabelChar(labels[i][k]);
      }
    }
  }

  lemma EmailMatcherComplete(e: string, local: string, labels: seq<string>)
    requires EmailShaped(e, local, labels)
    ensures MatchesEmailPattern(e)
  {
    var d := Join(labels, '.');
    LocalPartHasNoAt(local);
    LabelsHaveNoDotOrAt(labels);
    SplitJoin(labels, '.');
    JoinAvoids(labels, '.', '@');
    SplitAtSeparator(local, d, '@');
    assert Split(e, '@') == [local, d];
  }

  /** The matcher accepts exactly the strings of the pattern's language. */
  lemma EmailMatcherExact(e: string)
    ensures MatchesEmailPattern(e) <==> EmailPattern(e)
  {
    if MatchesEmailPattern(e) {
      EmailMatcherSound(e);
    }
    if EmailPattern(e) {
      var local, labels :| EmailShaped(e, local, labels);
      EmailMatcherComplete(e, local, labels);
    }
  }

  /**
   * `validate_email`: non-empty, at most 255 bytes, no "..", and in the
   * language of the email pattern.
   */
  function ValidateEmail(e: string): (ok: bool)
    ensures ok <==> 1 <= ByteLen(e) <= 255 && !Contains(e, "..") && EmailPattern(e)
  {
    EmailMatcherExact(e);
    if e == [] || ByteLen(e) > 255 then false
    else if Contains(e, "..") then false
    else MatchesEmailPattern(e)
  }

  /**
   * A valid email has exactly one '@', neither first nor last, a dot after
   * it, and nothing but local-part characters besides the '@'.
   */
  lemma ValidEmailStructure(e: string)
    ensures ValidateEmail(e) ==>
      exists i :: 0 < i < |e| - 1 && e[i] == '@' && '@' !in e[..i] && '@' !in e[i + 1..] && '.' in e[i + 1..]
    ensures ValidateEmail(e) ==> forall k :: 0 <= k < |e| ==> IsLocalChar(e[k]) || e[k] == '@'
  {
    if ValidateEmail(e) {
      var local, labels :| EmailShaped(e, local, labels);
      ShapedAtSign(e, local, labels);
      ShapedAlphabet(e, local, labels);
    }
  }

  /** In a shaped email the '@' sits after the local part, alone, with a dot after it. */
  lemma ShapedAtSign(e: string, local: string, labels: seq<string>)
    requires EmailShaped(e, local, labels)
    ensures var i := |local|;
      0 < i < |e| - 1 && e[i] == '@' && '@' !in e[..i] && '@' !in e[i + 1..] && '.' in e[i + 1..]
  {
    var d := Join(labels, '.');
    LocalPartHasNoAt(local);
    LabelsHaveNoDotOrAt(labels);
    JoinAvoids(labels, '.', '@');
    var i := |local|;
    assert e[..i] == local && e[i + 1..] == d;
    assert d == labels[0] + ['.'] + Join(labels[1..], '.');
    assert d[|labels[0]|] == '.';
  }

  /** A shaped email uses only local-part characters and the '@'. */
  lemma ShapedAlphabet(e: string, local: string, labels: seq<string>)
    requires EmailShaped(e, local, labels)
    ensures forall k :: 0 <= k < |e| ==> IsLocalChar(e[k]) || e[k] == '@'
  {
    var d := Join(labels, '.');
    var i := |local|;
    JoinAlphabet(labels);
    forall k | 0 <= k < |e| ensures IsLocalChar(e[k]) || e[k] == '@' {
      if k < i {
        assert e[k] == local[k];
      } else if k > i {
        assert e[k] == d[k - i - 1];
      }
    }
  }

  /** Labels joined by dots use only local-part characters. */
  lemma {:induction false} JoinAlphabet(labels: seq<string>)
    requires |labels| >= 1
    requires forall i :: 0 <= i < |labels| ==> IsLabel(labels[i])
    ensures forall k :: 0 <= k < |Join(labels, '.')| ==> IsLocalChar(Join(labels, '.')[k])
  {
    if |labels| > 1 {
      JoinAlphabet(labels[1..]);
      var h := labels[0];
      assert IsLabel(h);
      var t := Join(labels[1..], '.');
      assert Join(labels, '.') == h + ['.'] + t;
      forall k | 0 <= k < |Join(labels, '.')| ensures IsLocalChar(Join(labels, '.')[k]) {
        if k < |h| {
          assert IsLabelChar(h[k]);
        } else if k > |h| {
          assert Join(labels, '.')[k] == t[k - |h| - 1];
        }
      }
    } else {
      assert IsLabel(labels[0]);
      forall k | 0 <= k < |labels[0]| ensures IsLocalChar(labels[0][k]) {
        assert IsLabelChar(labels[0][k]);
      }
    }
  }

  lemma NoDoubleDot(e: string)
    requires forall i :: 0 <= i < |e| - 1 ==> e[i] != '.' || e[i + 1] != '.'
    ensures !Contains(e, "..")
  {
    forall i | 0 <= i <= |e| ensures !OccursAt(e, "..", i) {
      if i <= |e| - 2 {
        assert e[i..i + 2][0] == e[i] && e[i..i + 2][1] == e[i + 1];
      }
    }
  }

  lemma SplitNone(a: string, sep: char)
    requires sep !in a
    ensures Split(a, sep) == [a]
  {
    SplitPrefix(a, [], sep);
    assert a + [] == a;
  }

  /** An ASCII string of the email shape, short enough and without "..", is accepted. */
  lemma ShapedEmailValid(e: string, local: string, labels: seq<string>)
    requires EmailShaped(e, local, labels)
    requires IsAscii(e) && |e| <= 255
    requires forall i :: 0 <= i < |e| - 1 ==> e[i] != '.' || e[i + 1] != '.'
    ensures ValidateEmail(e)
  {
    AsciiByteLen(e);
    NoDoubleDot(e);
  }

  lemma ShortestEmailShaped()
    ensures EmailShaped("a@b.c", "a", ["b", "c"])
  {
    assert Join(["b", "c"], '.') == "b.c";
  }

  lemma TypicalEmailShaped()
    ensures EmailShaped("user@example.com", "user", ["example", "com"])
  {
    assert Join(["example", "com"], '.') == "example.com";
  }

  lemma ShortestEmailValid()
    ensures ValidateEmail("a@b.c")
  {
    ShortestEmailShaped();
    ShapedEmailValid("a@b.c", "a", ["b", "c"]);
  }

  lemma TypicalEmailValid()
    ensures ValidateEmail("user@example.com")
  {
    TypicalEmailShaped();
    ShapedEmailValid("user@example.com", "user", ["example", "com"]);
  }

  /** Rejected: empty, and a double dot the pattern alone would accept. */
  lemma EmailEmptyOrDoubleDotInvalid()
    ensures !ValidateEmail("")
    ensures !ValidateEmail("user..name@example.com")
  {
    assert OccursAt("user..name@example.com", "..", 4);
  }

  // ----- Username -----

  /** `validate_username`: 3 to 32 bytes, all from `[a-zA-Z0-9_-]`; such strings are ASCII, so bytes are characters. */
  function ValidateUsername(u: string): (ok: bool)
    ensures ok <==> 3 <= |u| <= 32 && forall i :: 0 <= i < |u| ==> IsUsernameChar(u[i])
  {
    var allowed := forall i :: 0 <= i < |u| ==> IsUsernameChar(u[i]);
    assert allowed ==> ByteLen(u) == |u| by {
      if allowed {
        AsciiByteLen(u);
      }
    }
    if ByteLen(u) < 3 || ByteLen(u) > 32 then false else allowed
  }

  /** The shortest accepted length is three. */
  lemma UsernameLengthBoundary()
    ensures ValidateUsername("abc") && !ValidateUsername("ab")
  {
  }

  // ----- Password -----

  datatype PasswordRule = MinLength | MaxLength | HasLowercase | HasUppercase | HasDigit | HasSpecial

  /** The rules in the order their messages are reported. */
  const PasswordRules: seq<PasswordRule> := [MinLength, MaxLength, HasLowercase, HasUppercase, HasDigit, HasSpecial]

  /** Whether password `p` keeps `rule`; lengths are in bytes, as `str::len` counts. */
  predicate Satisfies(p: string, rule: PasswordRule) {
    match rule
    case MinLength => ByteLen(p) >= 8
    case MaxLength => ByteLen(p) <= 128
    case HasLowercase => MatchesLower(p)
    case HasUppercase => MatchesUpper(p)
    case HasDigit => MatchesDigit(p)
    case HasSpecial => MatchesSpecial(p)
  }

  /** The unanchored one-character patterns: some character of `p` is in the class. */
  predicate MatchesLower(p: string) { exists i :: 0 <= i < |p| && IsAsciiLower(p[i]) }
  predicate MatchesUpper(p: string) { exists i :: 0 <= i < |p| && IsAsciiUpper(p[i]) }
  predicate MatchesDigit(p: string) { exists i :: 0 <= i < |p| && IsDigit(p[i]) }
  predicate MatchesSpecial(p: string) { exists i :: 0 <= i < |p| && IsSpecial(p[i]) }

  function Message(rule: PasswordRule): string {
    match rule
    case MinLength => "Password must be at least 8 characters long"
    case MaxLength => "Password must not exceed 128 characters"
    case HasLowercase => "Password must contain at least one lowercase letter"
    case HasUppercase => "Password must contain at least one uppercase letter"
    case HasDigit => "Password must contain at least one digit"
    case HasSpecial => "Password must contain at least one special character"
  }

  /** The rules of `rules` that `p` breaks, in order. */
  function Broken(p: string, rules: seq<PasswordRule>): seq<PasswordRule> {
    if rules == [] then []
    else (if Satisfies(p, rules[0]) then [] else [rules[0]]) + Broken(p, rules[1..])
  }

  lemma {:induction false} BrokenAppend(p: string, a: seq<PasswordRule>, b: seq<PasswordRule>)
    ensures Broken(p, a + b) == Broken(p, a) + Broken(p, b)
  {
    if a == [] {
      assert a + b == b;
    } else {
      assert (a + b)[0] == a[0];
      assert (a + b)[1..] == a[1..] + b;
      BrokenAppend(p, a[1..], b);
    }
  }

  function Messages(rules: seq<PasswordRule>): (m: seq<string>)
    ensures |m| == |rules|
  {
    if rules == [] then [] else [Message(rules[0])] + Messages(rules[1..])
  }

  /** The message for `rule` if `p` breaks it. */
  function Report(p: string, rule: PasswordRule): seq<string> {
    if Satisfies(p, rule) then [] else [Message(rule)]
  }

  lemma ReportOne(p: string, rule: PasswordRule)
    ensures Messages(Broken(p, [rule])) == Report(p, rule)
  {
    assert [rule][0] == rule && [rule][1..] == [];
    assert Broken(p, [rule]) == (if Satisfies(p, rule) then [] else [rule]) + Broken(p, []);
  }

  /** Checking one more rule extends the report by that rule's message, if any. */
  lemma ReportStep(p: string, done: seq<PasswordRule>, rule: PasswordRule)
    ensures Messages(Broken(p, done + [rule])) == Messages(Broken(p, done)) + Report(p, rule)
  {
    BrokenAppend(p, done, [rule]);
    MessagesAppend(Broken(p, done), Broken(p, [rule]));
    ReportOne(p, rule);
  }

  /** Three consecutive rules report rule by rule. */
  lemma ReportThree(p: string, a: PasswordRule, b: PasswordRule, c: PasswordRule)
    ensures Messages(Broken(p, [a, b, c])) == Report(p, a) + Report(p, b) + Report(p, c)
  {
    assert [a, b] == [a] + [b];
    assert [a, b, c] == [a, b] + [c];
    ReportOne(p, a);
    ReportStep(p, [a], b);
    ReportStep(p, [a, b], c);
  }

  lemma RegroupSix(x1: seq<string>, x2: seq<string>, x3: seq<string>, x4: seq<string>, x5: seq<string>, x6: seq<string>)
    ensures (x1 + x2 + x3) + (x4 + x5 + x6) == x1 + x2 + x3 + x4 + x5 + x6
  {
  }

  /** The report over all rules, rule by rule. */
  lemma ReportInRuleOrder(p: string)
    ensures Messages(Broken(p, PasswordRules))
      == Report(p, MinLength) + Report(p, MaxLength) + Report(p, HasLowercase)
       + Report(p, HasUppercase) + Report(p, HasDigit) + Report(p, HasSpecial)
  {
    var first, last := [MinLength, MaxLength, HasLowercase], [HasUppercase, HasDigit, HasSpecial];
    assert PasswordRules == first + last;
    BrokenAppend(p, first, last);
    MessagesAppend(Broken(p, first), Broken(p, last));
    ReportThree(p, MinLength, MaxLength, HasLowercase);
    ReportThree(p, HasUppercase, HasDigit, HasSpecial);
    RegroupSix(Report(p, MinLength), Report(p, MaxLength), Report(p, HasLowercase),
               Report(p, HasUppercase), Report(p, HasDigit), Report(p, HasSpecial));
  }

  lemma {:induction false} MessagesAppend(a: seq<PasswordRule>, b: seq<PasswordRule>)
    ensures Messages(a + b) == Messages(a) + Messages(b)
  {
    if a == [] {
      assert a + b == b;
    } else {
      assert (a + b)[0] == a[0];
      assert (a + b)[1..] == a[1..] + b;
      MessagesAppend(a[1..], b);
    }
  }

  /** A rule is reported exactly when it is listed and broken. */
  lemma {:induction false} BrokenMembers(p: string, rules: seq<PasswordRule>, rule: PasswordRule)
    ensures rule in Broken(p, rules) <==> rule in rules && !Satisfies(p, rule)
  {
    if rules != [] {
      BrokenMembers(p, rules[1..], rule);
      assert rule in rules <==> rule == rules[0] || rule in rules[1..];
    }
  }

  /**
   * `validate_password`: collects one message per broken rule, in rule
   * order; success exactly when no rule is broken.
   */
  method ValidatePassword(p: string) returns (r: Result<(), seq<string>>)
    ensures r.Ok? <==> forall rule :: Satisfies(p, rule)
    ensures r.Err? ==> r.error == Messages(Broken(p, PasswordRules))
  {
    var errors := CollectPasswordErrors(p);
    PasswordVerdict(p);
    if errors == [] {
      r := Ok(());
    } else {
      r := Err(errors);
    }
  }

  /** The checks of `validate_password`, each pushing its message when its rule is broken. */
  method CollectPasswordErrors(p: string) returns (errors: seq<string>)
    ensures errors == Messages(Broken(p, PasswordRules))
  {
    errors := [];
    errors := errors + if ByteLen(p) < 8 then [Message(MinLength)] else [];
    ReportCases(p);
    assert errors == Report(p, MinLength);
    ghost var sofar := errors;
    errors := errors + if ByteLen(p) > 128 then [Message(MaxLength)] else [];
    assert errors == sofar + Report(p, MaxLength);
    sofar := errors;
    errors := errors + if !MatchesLower(p) then [Message(HasLowercase)] else [];
    assert errors == sofar + Report(p, HasLowercase);
    sofar := errors;
    errors := errors + if !MatchesUpper(p) then [Message(HasUppercase)] else [];
    assert errors == sofar + Report(p, HasUppercase);
    sofar := errors;
    errors := errors + if !MatchesDigit(p) then [Message(HasDigit)] else [];
    assert errors == sofar + Report(p, HasDigit);
    sofar := errors;
    errors := errors + if !MatchesSpecial(p) then [Message(HasSpecial)] else [];
    assert errors == sofar + Report(p, HasSpecial);
    ReportInRuleOrder(p);
  }

  /** No message comes back exactly when every rule holds. */
  lemma PasswordVerdict(p: string)
    ensures Messages(Broken(p, PasswordRules)) == [] <==> forall rule :: Satisfies(p, rule)
  {
    ReportInRuleOrder(p);
    ReportEmpty(p);
  }

  /** Each rule's report, spelled out as the check `ValidatePassword` makes for it. */
  lemma ReportCases(p: string)
    ensures Report(p, MinLength) == if ByteLen(p) < 8 then [Message(MinLength)] else []
    ensures Report(p, MaxLength) == if ByteLen(p) > 128 then [Message(MaxLength)] else []
    ensures Report(p, HasLowercase) == if !MatchesLower(p) then [Message(HasLowercase)] else []
    ensures Report(p, HasUppercase) == if !MatchesUpper(p) then [Message(HasUppercase)] else []
    ensures Report(p, HasDigit) == if !MatchesDigit(p) then [Message(HasDigit)] else []
    ensures Report(p, HasSpecial) == if !MatchesSpecial(p) then [Message(HasSpecial)] else []
  {
  }

  /** The rule-by-rule report is empty exactly when every rule holds. */
  lemma ReportEmpty(p: string)
    ensures Report(p, MinLength) + Report(p, MaxLength) + Report(p, HasLowercase)
       + Report(p, HasUppercase) + Report(p, HasDigit) + Report(p, HasSpecial) == []
      <==> forall rule :: Satisfies(p, rule)
  {
    var all := Report(p, MinLength) + Report(p, MaxLength) + Report(p, HasLowercase)
       + Report(p, HasUppercase) + Report(p, HasDigit) + Report(p, HasSpecial);
    assert |all| == |Report(p, MinLength)| + |Report(p, MaxLength)| + |Report(p, HasLowercase)|
       + |Report(p, HasUppercase)| + |Report(p, HasDigit)| + |Report(p, HasSpecial)|;
    forall rule | true ensures Report(p, rule) == [] <==> Satisfies(p, rule) {
    }
  }

  /** The two length rules never fail together, so at most five messages come back. */
  lemma AtMostFiveErrors(p: string)
    ensures |Broken(p, PasswordRules)| <= 5
  {
    var rs := PasswordRules;
    assert rs == [MinLength, MaxLength] + rs[2..];
    BrokenAppend(p, [MinLength, MaxLength], rs[2..]);
    assert [MinLength, MaxLength] == [MinLength] + [MaxLength];
    BrokenAppend(p, [MinLength], [MaxLength]);
    assert |Broken(p, [MinLength, MaxLength])| <= 1;
    assert |Broken(p, rs[2..])| <= 4 by {
      BrokenShorter(p, rs[2..]);
    }
  }

  lemma {:induction false} BrokenShorter(p: string, rules: seq<PasswordRule>)
    ensures |Broken(p, rules)| <= |rules|
  {
    if rules != [] {
      BrokenShorter(p, rules[1..]);
    }
  }

  /** "Abcdefg1!", the shortest password of the examples that is accepted, keeps every rule. */
  lemma MinimalPasswordAccepted(good: string)
    requires good == "Abcdefg1!"
    ensures forall rule :: Satisfies(good, rule)
  {
    assert ByteLen(good) == 9 by {
      AsciiByteLen(good);
    }
    MinimalPasswordClasses(good);
  }

  lemma MinimalPasswordClasses(good: string)
    requires good == "Abcdefg1!"
    ensures MatchesUpper(good) && MatchesLower(good) && MatchesDigit(good) && MatchesSpecial(good)
  {
    assert IsAsciiUpper(good[0]) && IsAsciiLower(good[1]) && IsDigit(good[7]) && IsSpecial(good[8]);
  }

  /** A short password of lower-case letters alone gets the four messages for length, uppercase, digit and special character. */
  lemma ShortLowercaseOnly(p: string)
    requires ByteLen(p) < 8 && MatchesLower(p)
    requires !MatchesUpper(p) && !MatchesDigit(p) && !MatchesSpecial(p)
    ensures Messages(Broken(p, PasswordRules))
      == [Message(MinLength), Message(HasUppercase), Message(HasDigit), Message(HasSpecial)]
  {
    ReportInRuleOrder(p);
    ReportCases(p);
  }

  /** "weak" is such a password. */
  lemma WeakPasswordBreaksFour(w: string)
    requires w == "weak"
    ensures Messages(Broken(w, PasswordRules))
      == [Message(MinLength), Message(HasUppercase), Message(HasDigit), Message(HasSpecial)]
  {
    assert ByteLen(w) == 4 by {
      AsciiByteLen(w);
    }
    assert IsAsciiLower(w[0]);
    WeakCharClasses(w);
    ShortLowercaseOnly(w);
  }

  lemma WeakCharClasses(w: string)
    requires w == "weak"
    ensures !MatchesUpper(w) && !MatchesDigit(w) && !MatchesSpecial(w)
  {
    forall i | 0 <= i < 4 ensures !IsAsciiUpper(w[i]) && !IsDigit(w[i]) && !IsSpecial(w[i]) {
    }
  }

  // ----- UUID v4 -----

  /** What position `i` of a hyphenated UUID v4 must hold. */
  predicate UuidCharFits(i: int, c: char) {
    if i == 8 || i == 13 || i == 18 || i == 23 then c == '-'
    else if i == 14 then c == '4'
    else if i == 19 then c in "89abAB"
    else IsHex(c)
  }

  predicate AllHex(s: string) {
    forall i :: 0 <= i < |s| ==> IsHex(s[i])
  }

  /** `s` is `a-b-4c-yd-e` with hex groups of 8, 4, 3, 3, 12 and `y` in `[89abAB]`. */
  predicate UuidShaped(s: string, a: string, b: string, c: string, y: char, d: string, e: string) {
    && |a| == 8 && |b| == 4 && |c| == 3 && |d| == 3 && |e| == 12
    && AllHex(a) && AllHex(b) && AllHex(c) && AllHex(d) && AllHex(e)
    && y in "89abAB"
    && s == a + "-" + b + "-4" + c + "-" + [y] + d + "-" + e
  }

  /** The language of the UUID v4 pattern. */
  ghost predicate UuidPattern(s: string) {
    exists a, b, c, y, d, e :: UuidShaped(s, a, b, c, y, d, e)
  }

  /** The positional check and the pattern's language agree. */
  lemma UuidPositional(s: string)
    ensures UuidFits(s) <==> UuidPattern(s)
  {
    if UuidFits(s) {
      FitsShaped(s);
    }
    if UuidPattern(s) {
      var a, b, c, y, d, e :| UuidShaped(s, a, b, c, y, d, e);
      ShapedFits(s, a, b, c, y, d, e);
    }
  }

  /** 36 characters, each fitting its position. */
  predicate UuidFits(s: string) {
    |s| == 36 && forall i :: 0 <= i < 36 ==> UuidCharFits(i, s[i])
  }

  lemma FitsShaped(s: string)
    requires UuidFits(s)
    ensures UuidShaped(s, s[..8], s[9..13], s[15..18], s[19], s[20..23], s[24..])
  {
    var a, b, c, y, d, e := s[..8], s[9..13], s[15..18], s[19], s[20..23], s[24..];
    assert UuidCharFits(8, s[8]) && UuidCharFits(13, s[13]) && UuidCharFits(18, s[18]);
    assert UuidCharFits(23, s[23]) && UuidCharFits(14, s[14]) && UuidCharFits(19, s[19]);
    HexSlice(s, 0, 8);
    HexSlice(s, 9, 13);
    HexSlice(s, 15, 18);
    HexSlice(s, 20, 23);
    HexSlice(s, 24, 36);
    assert s == a + "-" + b + "-4" + c + "-" + [y] + d + "-" + e;
  }

  /** A stretch of positions that hold hex digits. */
  lemma HexSlice(s: string, lo: int, hi: int)
    requires UuidFits(s)
    requires (lo, hi) in {(0, 8), (9, 13), (15, 18), (20, 23), (24, 36)}
    ensures AllHex(s[lo..hi])
  {
    forall k | 0 <= k < hi - lo ensures IsHex(s[lo..hi][k]) {
      assert s[lo..hi][k] == s[lo + k];
      assert UuidCharFits(lo + k, s[lo + k]);
    }
  }

  lemma ShapedFits(s: string, a: string, b: string, c: string, y: char, d: string, e: string)
    requires UuidShaped(s, a, b, c, y, d, e)
    ensures UuidFits(s)
  {
    forall i | 0 <= i < 36 ensures UuidCharFits(i, s[i]) {
      if i < 8 { assert s[i] == a[i]; }
      else if 9 <= i < 13 { assert s[i] == b[i - 9]; }
      else if 15 <= i < 18 { assert s[i] == c[i - 15]; }
      else if 20 <= i < 23 { assert s[i] == d[i - 20]; }
      else if 24 <= i { assert s[i] == e[i - 24]; }
    }
  }

  /** `validate_uuid`: the hyphenated UUID v4 form, checked position by position. */
  function ValidateUuid(s: string): (ok: bool)
    ensures ok <==> UuidPattern(s)
  {
    UuidPositional(s);
    |s| == 36 && forall i :: 0 <= i < 36 ==> UuidCharFits(i, s[i])
  }

  lemma UuidExamples()
    ensures ValidateUuid("550e8400-e29b-41d4-a716-446655440000")
    ensures !ValidateUuid("550e8400-e29b-31d4-a716-446655440000")
    ensures !ValidateUuid("550e8400e29b41d4a716446655440000")
    ensures !ValidateUuid("")
  {
    var s := "550e8400-e29b-41d4-a716-446655440000";
    assert forall i :: 0 <= i < 36 ==> UuidCharFits(i, s[i]);
    assert "550e8400-e29b-31d4-a716-446655440000"[14] == '3';
  }

  // ----- Sanitizer -----

  /** One replacement: every occurrence of the character becomes the string. */
  type Escape = (char, string)

  /** The HTML escapes of `sanitize_string`, in the order its `replace` calls run. */
  const Escapes: seq<Escape> := [('&', "&amp;"), ('<', "&lt;"), ('>', "&gt;"), ('"', "&quot;"), ('\'', "&#x27;"), ('/', "&#x2F;")]

  /** The replacements applied one after another, each to the previous output. */
  function ReplaceAll(s: string, steps: seq<Escape>): string
    decreases |steps|
  {
    if steps == [] then s else ReplaceAll(Replace(s, steps[0].0, steps[0].1), steps[1..])
  }

  /** Index of the first step for `c`, or `|steps|` when there is none. */
  function FindChar(c: char, steps: seq<Escape>): (k: nat)
    ensures k <= |steps|
    ensures k < |steps| ==> steps[k].0 == c
    ensures forall i :: 0 <= i < k ==> steps[i].0 != c
  {
    if steps == [] then 0 else if steps[0].0 == c then 0 else 1 + FindChar(c, steps[1..])
  }

  /** Single-pass escape of one character: the replacement of its first step, or the character itself. */
  function EscapeChar(c: char, steps: seq<Escape>): string {
    var k := FindChar(c, steps);
    if k < |steps| then steps[k].1 else [c]
  }

  /**
   * Single-pass escape of a whole string: each character is replaced by
   * its escape, so with non-empty replacements nothing gets shorter, and
   * every character without a step survives.
   */
  function EscapeAll(s: string, steps: seq<Escape>): (r: string)
    ensures (forall i :: 0 <= i < |steps| ==> steps[i].1 != []) ==> |r| >= |s|
    ensures forall k :: 0 <= k < |s| && FindChar(s[k], steps) == |steps| ==> s[k] in r
  {
    if s == [] then [] else EscapeChar(s[0], steps) + EscapeAll(s[1..], steps)
  }

  /** Index of the first step whose replacement starts `s`, or `|steps|`. */
  function FirstPrefix(s: string, steps: seq<Escape>): (k: nat)
    ensures k <= |steps|
    ensures k < |steps| ==> StartsWith(s, steps[k].1)
    ensures forall i :: 0 <= i < k ==> !StartsWith(s, steps[i].1)
  {
    if steps == [] then 0 else if StartsWith(s, steps[0].1) then 0 else 1 + FirstPrefix(s, steps[1..])
  }

  /** Decoding of the entities back into the characters they stand for. */
  function Unescape(s: string, steps: seq<Escape>): string
    decreases |s|
  {
    if s == [] then []
    else
      var k := FirstPrefix(s, steps);
      if k < |steps| && steps[k].1 != [] then [steps[k].0] + Unescape(s[|steps[k].1|..], steps)
      else [s[0]] + Unescape(s[1..], steps)
  }

  /**
   * A table the chain handles like a single pass: no step's character
   * occurs in an earlier step's replacement, every replacement starts with
   * the first step's character, and no replacement is a prefix of another.
   */
  predicate WellOrdered(steps: seq<Escape>) {
    && (forall i, j :: 0 <= i < j < |steps| ==> steps[j].0 !in steps[i].1)
    && (forall i :: 0 <= i < |steps| ==> steps[i].1 != [] && steps[i].1[0] == steps[0].0)
    && (forall i, j :: 0 <= i < j < |steps| ==> !StartsWith(steps[i].1, steps[j].1) && !StartsWith(steps[j].1, steps[i].1))
  }

  lemma EscapesWellOrdered()
    ensures WellOrdered(Escapes)
  {
    EscapeCharsNotReintroduced();
    EscapesStartWithAmpersand();
    EscapesPrefixFree();
  }

  lemma EscapeCharsNotReintroduced()
    ensures forall i, j :: 0 <= i < j < |Escapes| ==> Escapes[j].0 !in Escapes[i].1
  {
  }

  lemma EscapesStartWithAmpersand()
    ensures forall i :: 0 <= i < |Escapes| ==> Escapes[i].1 != [] && Escapes[i].1[0] == Escapes[0].0
  {
  }

  /** `r` ends with `;` and has no other `;`: an HTML character reference. */
  predicate Terminated(r: string) {
    |r| > 0 && r[|r| - 1] == ';' && forall k :: 0 <= k < |r| - 1 ==> r[k] != ';'
  }

  /** Of two different terminated strings neither starts the other. */
  lemma TerminatedPrefixFree(r: string, q: string)
    requires Terminated(r) && Terminated(q) && r != q
    ensures !StartsWith(r, q) && !StartsWith(q, r)
  {
    if |q| < |r| {
      assert r[..|q|][|q| - 1] != q[|q| - 1];
    } else if |r| < |q| {
      assert q[..|r|][|r| - 1] != r[|r| - 1];
    } else {
      assert r[..|q|] == r && q[..|r|] == q;
    }
  }

  lemma EscapesTerminated()
    ensures forall i :: 0 <= i < |Escapes| ==> Terminated(Escapes[i].1)
  {
  }

  lemma EscapesDistinct()
    ensures forall i, j :: 0 <= i < j < |Escapes| ==> Escapes[i].1 != Escapes[j].1
  {
  }

  lemma EscapesPrefixFree()
    ensures forall i, j :: 0 <= i < j < |Escapes| ==> !StartsWith(Escapes[i].1, Escapes[j].1) && !StartsWith(Escapes[j].1, Escapes[i].1)
  {
    EscapesTerminated();
    EscapesDistinct();
    forall i, j | 0 <= i < j < |Escapes|
      ensures !StartsWith(Escapes[i].1, Escapes[j].1) && !StartsWith(Escapes[j].1, Escapes[i].1)
    {
      TerminatedPrefixFree(Escapes[i].1, Escapes[j].1);
    }
  }

  lemma {:induction false} ReplaceAllAppend(a: string, b: string, steps: seq<Escape>)
    ensures ReplaceAll(a + b, steps) == ReplaceAll(a, steps) + ReplaceAll(b, steps)
    decreases |steps|
  {
    if steps != [] {
      ReplaceAppend(a, b, steps[0].0, steps[0].1);
      ReplaceAllAppend(Replace(a, steps[0].0, steps[0].1), Replace(b, steps[0].0, steps[0].1), steps[1..]);
    }
  }

  lemma {:induction false} ReplaceAllAbsent(s: string, steps: seq<Escape>)
    requires forall i :: 0 <= i < |steps| ==> steps[i].0 !in s
    ensures ReplaceAll(s, steps) == s
    decreases |steps|
  {
    if steps != [] {
      ReplaceAbsent(s, steps[0].0, steps[0].1);
      ReplaceAllAbsent(s, steps[1..]);
    }
  }

  lemma ReplaceSingle(x: char, c: char, rep: string)
    ensures Replace([x], c, rep) == if x == c then rep else [x]
  {
    assert [x][1..] == [];
    assert rep + [] == rep;
  }

  /** On one character the chain yields that character's escape: no replacement is escaped again. */
  lemma {:induction false} ReplaceAllSingle(x: char, steps: seq<Escape>)
    requires forall i, j :: 0 <= i < j < |steps| ==> steps[j].0 !in steps[i].1
    ensures ReplaceAll([x], steps) == EscapeChar(x, steps)
    decreases |steps|
  {
    if steps != [] {
      ReplaceSingle(x, steps[0].0, steps[0].1);
      if steps[0].0 == x {
        ReplaceAllAbsent(steps[0].1, steps[1..]);
      } else {
        ReplaceAllSingle(x, steps[1..]);
      }
    }
  }

  /** The chain of replacements is the single-pass escape. */
  lemma {:induction false} ChainIsSinglePass(s: string, steps: seq<Escape>)
    requires forall i, j :: 0 <= i < j < |steps| ==> steps[j].0 !in steps[i].1
    ensures ReplaceAll(s, steps) == EscapeAll(s, steps)
  {
    if s != [] {
      assert s == [s[0]] + s[1..];
      ReplaceAllAppend([s[0]], s[1..], steps);
      ReplaceAllSingle(s[0], steps);
      ChainIsSinglePass(s[1..], steps);
    } else {
      ReplaceAllAbsent(s, steps);
    }
  }

  lemma {:induction false} EscapeAllAppend(a: string, b: string, steps: seq<Escape>)
    ensures EscapeAll(a + b, steps) == EscapeAll(a, steps) + EscapeAll(b, steps)
  {
    if a == [] {
      assert a + b == b;
    } else {
      assert (a + b)[0] == a[0];
      assert (a + b)[1..] == a[1..] + b;
      EscapeAllAppend(a[1..], b, steps);
    }
  }

  /** A character that no replacement contains survives escaping only if it was there and has no step. */
  lemma {:induction false} EscapeAllAvoids(s: string, steps: seq<Escape>, c: char)
    requires forall i :: 0 <= i < |steps| ==> c !in steps[i].1
    requires c in s ==> FindChar(c, steps) < |steps|
    ensures c !in EscapeAll(s, steps)
  {
    if s != [] {
      EscapeAllAvoids(s[1..], steps, c);
    }
  }

  /** Escaping leaves a string with no character that has a step unchanged. */
  lemma {:induction false} EscapeAllPlain(s: string, steps: seq<Escape>)
    requires forall i :: 0 <= i < |s| ==> FindChar(s[i], steps) == |steps|
    ensures EscapeAll(s, steps) == s
  {
    if s != [] {
      assert FindChar(s[0], steps) == |steps|;
      EscapeAllPlain(s[1..], steps);
    }
  }

  lemma NotPrefixOfLonger(r: string, q: string, t: string)
    requires !StartsWith(r, q) && !StartsWith(q, r)
    ensures !StartsWith(r + t, q)
  {
    if |q| <= |r| {
      assert (r + t)[..|q|] == r[..|q|];
    } else if |q| <= |r| + |t| {
      assert (r + t)[..|q|][..|r|] == r;
    }
  }

  lemma UnescapeStep(x: char, t: string, steps: seq<Escape>)
    requires WellOrdered(steps)
    ensures Unescape(EscapeChar(x, steps) + t, steps) == [x] + Unescape(t, steps)
  {
    var k := FindChar(x, steps);
    var s := EscapeChar(x, steps) + t;
    if k < |steps| {
      var r := steps[k].1;
      assert s[..|r|] == r && s[|r|..] == t;
      forall i | 0 <= i < k ensures !StartsWith(s, steps[i].1) {
        NotPrefixOfLonger(r, steps[i].1, t);
      }
      assert FirstPrefix(s, steps) == k;
    } else {
      assert s[0] == x && s[1..] == t;
      forall i | 0 <= i < |steps| ensures !StartsWith(s, steps[i].1) {
        assert steps[i].1[0] == steps[0].0 != x;
      }
      assert FirstPrefix(s, steps) == |steps|;
    }
  }

  /** Decoding undoes escaping. */
  lemma {:induction false} UnescapeEscapeAll(s: string, steps: seq<Escape>)
    requires WellOrdered(steps)
    ensures Unescape(EscapeAll(s, steps), steps) == s
  {
    if s != [] {
      UnescapeStep(s[0], EscapeAll(s[1..], steps), steps);
      UnescapeEscapeAll(s[1..], steps);
    }
  }

  /** `sanitize_string`: NUL characters removed, markup characters escaped, surrounding whitespace trimmed. */
  function Sanitize(input: string): (r: string)
    ensures '<' !in r && '>' !in r && '"' !in r && '\'' !in r && '/' !in r && '\0' !in r
    ensures r == Trim(EscapeAll(Replace(input, '\0', ""), Escapes))
  {
    var noNul := Replace(input, '\0', "");
    var escaped := ReplaceAll(noNul, Escapes);
    EscapeCharsNotReintroduced();
    ChainIsSinglePass(noNul, Escapes);
    EscapesAreSafe(noNul);
    var r := Trim(escaped);
    TrimAddsNothing(escaped);
    r
  }

  lemma TrimAddsNothing(s: string)
    ensures forall x :: x in Trim(s) ==> x in s
  {
    var i, j :| 0 <= i <= j <= |s| && Trim(s) == s[i..j];
    forall k | 0 <= k < j - i ensures s[i..j][k] in s {
      assert s[i..j][k] == s[i + k];
    }
  }

  /** The characters the entities are written with. */
  predicate EntityChar(c: char) {
    c == '&' || c == '#' || c == ';' || IsAlnum(c)
  }

  lemma EscapesEntityChars()
    ensures forall i, k :: 0 <= i < |Escapes| && 0 <= k < |Escapes[i].1| ==> EntityChar(Escapes[i].1[k])
  {
  }

  /** A character outside the entities' alphabet is in no replacement. */
  lemma NotInEscapes(c: char)
    requires !EntityChar(c)
    ensures forall i :: 0 <= i < |Escapes| ==> c !in Escapes[i].1
  {
    EscapesEntityChars();
  }

  /** Each markup character the sanitizer escapes is gone from its output. */
  lemma EscapedCharGone(s: string, c: char)
    requires c in "<>\"'/"
    ensures c !in EscapeAll(s, Escapes)
  {
    var idx := if c == '<' then 1 else if c == '>' then 2 else if c == '"' then 3 else if c == '\'' then 4 else 5;
    assert Escapes[idx].0 == c;
    NotInEscapes(c);
    EscapeAllAvoids(s, Escapes, c);
  }

  /** Escaping adds no NUL. */
  lemma NulStaysOut(s: string)
    requires '\0' !in s
    ensures '\0' !in EscapeAll(s, Escapes)
  {
    NotInEscapes('\0');
    EscapeAllAvoids(s, Escapes, '\0');
  }

  lemma EscapesAreSafe(s: string)
    ensures var e := EscapeAll(s, Escapes);
      '<' !in e && '>' !in e && '"' !in e && '\'' !in e && '/' !in e && ('\0' !in s ==> '\0' !in e)
  {
    EscapedCharGone(s, '<');
    EscapedCharGone(s, '>');
    EscapedCharGone(s, '"');
    EscapedCharGone(s, '\'');
    EscapedCharGone(s, '/');
    if '\0' !in s {
      NulStaysOut(s);
    }
  }

  /** A character's escape is the character itself or an entity running from `&` to `;`. */
  lemma EscapeCharEnds(c: char)
    ensures var e := EscapeChar(c, Escapes);
      e != [] && (e[0] == c || e[0] == '&') && (e[|e| - 1] == c || e[|e| - 1] == ';')
  {
    EscapesStartWithAmpersand();
    EscapesTerminated();
  }

  /** Escaping a non-empty string starts with its first character or `&` and ends with its last or `;`. */
  lemma EscapeAllEnds(s: string)
    requires s != []
    ensures var e := EscapeAll(s, Escapes);
      e != [] && (e[0] == s[0] || e[0] == '&') && (e[|e| - 1] == s[|s| - 1] || e[|e| - 1] == ';')
  {
    var last := s[|s| - 1];
    assert s == s[..|s| - 1] + [last];
    EscapeAllAppend(s[..|s| - 1], [last], Escapes);
    assert EscapeAll([last], Escapes) == EscapeChar(last, Escapes) by {
      assert [last][1..] == [];
    }
    EscapeCharEnds(s[0]);
    EscapeCharEnds(last);
  }

  /**
   * For input with no NUL and no surrounding whitespace, decoding the
   * sanitized text gives back the input: sanitizing loses nothing.
   */
  lemma SanitizeRoundTrip(s: string)
    requires '\0' !in s
    requires s != [] ==> !IsWhitespace(s[0]) && !IsWhitespace(s[|s| - 1])
    ensures Unescape(Sanitize(s), Escapes) == s
  {
    ReplaceAbsent(s, '\0', "");
    if s != [] {
      EscapeAllEnds(s);
    }
    TrimOfTrimmed(EscapeAll(s, Escapes));
    EscapesWellOrdered();
    UnescapeEscapeAll(s, Escapes);
  }

  /** Text with nothing to escape or trim comes back unchanged. */
  lemma CleanInputUnchanged(s: string)
    requires forall i :: 0 <= i < |s| ==> s[i] !in "&<>\"'/\0"
    requires s != [] ==> !IsWhitespace(s[0]) && !IsWhitespace(s[|s| - 1])
    ensures Sanitize(s) == s
  {
    assert '\0' !in s;
    ReplaceAbsent(s, '\0', "");
    forall i | 0 <= i < |s| ensures FindChar(s[i], Escapes) == |Escapes| {
      assert s[i] !in "&<>\"'/";
    }
    EscapeAllPlain(s, Escapes);
    TrimOfTrimmed(s);
  }

  /** A string of letters, digits and `;`, such as the name of an entity. */
  predicate EntityBody(t: string) {
    forall i :: 0 <= i < |t| ==> IsAlnum(t[i]) || t[i] == ';'
  }

  /** An ampersand followed by an entity body: only the ampersand is escaped. */
  lemma {:induction false} AmpersandEscaped(t: string)
    requires EntityBody(t)
    ensures Sanitize(['&'] + t) == "&amp;" + t
  {
    var s := ['&'] + t;
    assert '\0' !in s by {
      assert forall i :: 0 <= i < |s| ==> s[i] == '&' || IsAlnum(s[i]) || s[i] == ';';
    }
    ReplaceAbsent(s, '\0', "");
    EscapeAmpersandFirst(t);
    var e := "&amp;" + t;
    assert e[0] == '&';
    assert e[|e| - 1] == ';' || IsAlnum(e[|e| - 1]);
    TrimOfTrimmed(e);
  }

  lemma EscapeAmpersandFirst(t: string)
    requires EntityBody(t)
    ensures EscapeAll(['&'] + t, Escapes) == "&amp;" + t
  {
    EscapeAllAppend(['&'], t, Escapes);
    assert EscapeAll(['&'], Escapes) == "&amp;" by {
      assert ['&'][1..] == [];
    }
    PlainText(t);
    EscapeAllPlain(t, Escapes);
  }

  /** Sanitizing is not idempotent: a second pass escapes the ampersand of the entity the first produced. */
  lemma SanitizeEscapesTwice(t: string)
    requires EntityBody(t)
    ensures Sanitize(['&'] + t) == "&amp;" + t
    ensures Sanitize(Sanitize(['&'] + t)) == "&amp;amp;" + t
    ensures Sanitize(Sanitize(['&'] + t)) != Sanitize(['&'] + t)
  {
    AmpersandEscaped(t);
    var name := "amp;";
    var u := name + t;
    AmpIsBody(name);
    EntityBodyAppend(name, t);
    Regroup(['&'], name, t);
    AmpersandEscaped(u);
    Regroup("&amp;", name, t);
    AmpAmp("&amp;", name);
  }

  lemma Regroup(x: string, y: string, z: string)
    ensures x + (y + z) == (x + y) + z
  {
  }

  lemma AmpIsBody(x: string)
    requires x == "amp;"
    ensures EntityBody(x)
  {
  }

  lemma AmpAmp(x: string, y: string)
    requires x == "&amp;" && y == "amp;"
    ensures x == ['&'] + y && x + y == "&amp;amp;"
  {
  }

  lemma EntityBodyAppend(x: string, y: string)
    requires EntityBody(x) && EntityBody(y)
    ensures EntityBody(x + y)
  {
    forall i | 0 <= i < |x + y| ensures IsAlnum((x + y)[i]) || (x + y)[i] == ';' {
      if i < |x| {
        assert (x + y)[i] == x[i];
      } else {
        assert (x + y)[i] == y[i - |x|];
      }
    }
  }

  /** A string of letters, digits and `;` has nothing to escape. */
  lemma PlainText(t: string)
    requires EntityBody(t)
    ensures forall i :: 0 <= i < |t| ==> FindChar(t[i], Escapes) == |Escapes|
  {
    forall i | 0 <= i < |t| ensures FindChar(t[i], Escapes) == |Escapes| {
      NoStepFor(t[i]);
    }
  }

  /** A character other than the six markup characters has no step. */
  lemma NoStepFor(c: char)
    requires c !in "&<>\"'/"
    ensures FindChar(c, Escapes) == |Escapes|
  {
    assert forall i :: 0 <= i < |Escapes| ==> Escapes[i].0 in "&<>\"'/";
  }

  // ----- Length -----

  /** `validate_length`: the byte length lies in `[min, max]`. */
  function ValidateLength(input: string, min: nat, max: nat): (ok: bool)
    ensures ok <==> min <= ByteLen(input) <= max
    ensures IsAscii(input) ==> (ok <==> min <= |input| <= max)
  {
    assert IsAscii(input) ==> ByteLen(input) == |input| by {
      if IsAscii(input) {
        AsciiByteLen(input);
      }
    }
    var len := ByteLen(input);
    len >= min && len <= max
  }

  /** The bounds count bytes, not characters: one two-byte character is too long for a maximum of 1. */
  lemma LengthCountsBytes()
    ensures !ValidateLength("é", 1, 1)
    ensures ValidateLength("", 0, 0) && ValidateLength("a", 1, 1) && !ValidateLength("ab", 1, 1)
  {
    assert ByteLen("é") == 2 by { assert "é"[1..] == []; }
    assert "ab"[1..] == "b";
  }
}
