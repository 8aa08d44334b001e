/** The email check of app/utils/validateEmail.js: the argument, lower-cased,
    must match

      ^(([^<>()[\]\\.,;:\s@"]+(\.[^<>()[\]\\.,;:\s@"]+)*)|(".+"))@
       ((\[[0-9]{1,3}\.[0-9]{1,3}\.[0-9]{1,3}\.[0-9]{1,3}\])|(([a-zA-Z\-0-9]+\.)+[a-zA-Z]{2,}))$

    The pattern is given twice: read literally, as ghost predicates that ask
    for the pieces each part of the expression matches, and as an executable
    checker built on splitting at dots; EmailCheckMatchesPattern proves the
    two agree. */
module EmailValidation {
  import opened Text
  import opened JsValues

  // ---- character classes ---------------------------------------------------

  /** The three repeated classes: `[^<>()[\]\\.,;:\s@"]`, `[a-zA-Z\-0-9]`, `[0-9]`. */
  datatype CharClass = LocalPart | DomainLabel | Digit

  predicate IsAsciiLetter(c: char) {
    ('a' <= c <= 'z') || ('A' <= c <= 'Z')
  }

  predicate IsLocalChar(c: char) {
    c !in "<>()[]\\.,;:@\"" && !IsJsWhitespace(c)
  }

  predicate InClass(c: char, k: CharClass) {
    match k
    case LocalPart => IsLocalChar(c)
    case DomainLabel => IsAsciiLetter(c) || IsDecimalDigit(c) || c == '-'
    case Digit => IsDecimalDigit(c)
  }

  /** The characters `.` does not match. */
  predicate IsLineTerminator(c: char) {
    c == '\n' || c == '\r' || c == '\U{2028}' || c == '\U{2029}'
  }

  /** `X+` for the class X. */
  predicate IsRun(r: string, k: CharClass) {
    |r| >= 1 && forall i :: 0 <= i < |r| ==> InClass(r[i], k)
  }

  /** `".+"` */
  predicate IsQuoted(l: string) {
    |l| >= 3 && l[0] == '"' && l[|l| - 1] == '"' &&
    forall i :: 1 <= i < |l| - 1 ==> !IsLineTerminator(l[i])
  }

  /** `[a-zA-Z]{2,}` */
  predicate IsTld(t: string) {
    |t| >= 2 && forall i :: 0 <= i < |t| ==> IsAsciiLetter(t[i])
  }

  // ---- the pattern, read literally ---------------------------------------------

  /** `X+(\.X+)*`: one or more runs of X joined by single dots. */
  ghost predicate MatchesRuns(s: string, k: CharClass) {
    exists runs: seq<string> ::
      |runs| >= 1 && (forall i :: 0 <= i < |runs| ==> IsRun(runs[i], k)) && Join(runs, '.') == s
  }

  ghost predicate MatchesLocalPart(l: string) {
    MatchesRuns(l, LocalPart) || IsQuoted(l)
  }

  /** `\[[0-9]{1,3}\.[0-9]{1,3}\.[0-9]{1,3}\.[0-9]{1,3}\]` */
  ghost predicate MatchesBracketDomain(d: string) {
    exists groups: seq<string> ::
      |groups| == 4 && (forall i :: 0 <= i < 4 ==> IsRun(groups[i], Digit) && |groups[i]| <= 3) &&
      d == "[" + Join(groups, '.') + "]"
  }

  /** `([a-zA-Z\-0-9]+\.)+[a-zA-Z]{2,}` */
  ghost predicate MatchesNamedDomain(d: string) {
    exists labels: seq<string>, tld: string ::
      |labels| >= 1 && (forall i :: 0 <= i < |labels| ==> IsRun(labels[i], DomainLabel)) &&
      IsTld(tld) && d == Join(labels + [tld], '.')
  }

  /** The whole expression, anchored at both ends. */
  ghost predicate MatchesEmailPattern(s: string) {
    exists i :: 0 <= i < |s| && s[i] == '@' && MatchesLocalPart(s[..i]) &&
      (MatchesBracketDomain(s[i + 1..]) || MatchesNamedDomain(s[i + 1..]))
  }

  // ---- the executable checker ----------------------------------------------------

  /** Every part is a run of X. */
  predicate AreRuns(parts: seq<string>, k: CharClass) {
    forall i :: 0 <= i < |parts| ==> IsRun(parts[i], k)
  }

  predicate IsDotRuns(s: string, k: CharClass) {
    AreRuns(Split(s, '.'), k)
  }

  predicate IsLocalPart(l: string) {
    IsDotRuns(l, LocalPart) || IsQuoted(l)
  }

  /** Four groups of one to three digits. */
  predicate AreAddressGroups(groups: seq<string>) {
    |groups| == 4 && forall i :: 0 <= i < 4 ==> IsRun(groups[i], Digit) && |groups[i]| <= 3
  }

  predicate IsBracketDomain(d: string) {
    |d| >= 2 && d[0] == '[' && d[|d| - 1] == ']' && AreAddressGroups(Split(d[1..|d| - 1], '.'))
  }

  /** At least one label followed by a top-level label. */
  predicate AreDomainParts(parts: seq<string>) {
    |parts| >= 2 && (forall i :: 0 <= i < |parts| - 1 ==> IsRun(parts[i], DomainLabel)) &&
    IsTld(parts[|parts| - 1])
  }

  predicate IsNamedDomain(d: string) {
    AreDomainParts(Split(d, '.'))
  }

  predicate IsDomain(d: string) {
    IsBracketDomain(d) || IsNamedDomain(d)
  }

  /** The domain cannot hold `@`, so the address splits at its last `@`. */
  predicate IsEmailAddress(s: string) {
    var at := LastIndexOf(s, '@');
    at < |s| && IsLocalPart(s[..at]) && IsDomain(s[at + 1..])
  }

  /** `validateEmail(email)`: a non-empty string whose lower-cased form matches.
      JavaScript returns the match array or `null`; callers only test its
      truthiness, which is the boolean here. */
  function ValidateEmail(email: JsValue): (ok: bool)
    ensures ok ==> email.Str? && email.s != []
  {
    match email
    case Str(s) => s != [] && IsEmailAddress(AsciiLower(s))
    // `email.length` is undefined on numbers and booleans, and a plain
    // object's string form "[object Object]" holds no `@`
    case _ => false
  }

  // ---- the checker and the pattern agree ------------------------------------------

  lemma ClassExcludesSeparators(c: char, k: CharClass)
    requires InClass(c, k)
    ensures c != '.' && c != '@'
  {
  }

  lemma RunHasNoSeparator(r: string, k: CharClass)
    requires IsRun(r, k)
    ensures '.' !in r && '@' !in r
  {
    forall i | 0 <= i < |r| ensures r[i] != '.' && r[i] != '@' {
      ClassExcludesSeparators(r[i], k);
    }
  }

  lemma DotRunsMatches(s: string, k: CharClass)
    ensures IsDotRuns(s, k) <==> MatchesRuns(s, k)
  {
    if IsDotRuns(s, k) {
      assert Join(Split(s, '.'), '.') == s;
    }
    if MatchesRuns(s, k) {
      var runs :| |runs| >= 1 && (forall i :: 0 <= i < |runs| ==> IsRun(runs[i], k)) && Join(runs, '.') == s;
      forall i | 0 <= i < |runs| ensures '.' !in runs[i] {
        RunHasNoSeparator(runs[i], k);
      }
      SplitJoin(runs, '.');
    }
  }

  lemma BracketDomainMatches(d: string)
    ensures IsBracketDomain(d) <==> MatchesBracketDomain(d)
  {
    if IsBracketDomain(d) {
      BracketDomainMatchesPattern(d);
    }
    if MatchesBracketDomain(d) {
      PatternBracketDomainIsChecked(d);
    }
  }

  lemma BracketDomainMatchesPattern(d: string)
    requires IsBracketDomain(d)
    ensures MatchesBracketDomain(d)
  {
    var inner := d[1..|d| - 1];
    var groups := Split(inner, '.');
    assert d == "[" + inner + "]";
    assert inner == Join(groups, '.');
    assert AreAddressGroups(groups);
  }

  lemma PatternBracketDomainIsChecked(d: string)
    requires MatchesBracketDomain(d)
    ensures IsBracketDomain(d)
  {
    var groups :| |groups| == 4 && (forall i :: 0 <= i < 4 ==> IsRun(groups[i], Digit) && |groups[i]| <= 3) &&
      d == "[" + Join(groups, '.') + "]";
    assert AreAddressGroups(groups);
    assert d[1..|d| - 1] == Join(groups, '.');
    assert Split(Join(groups, '.'), '.') == groups by {
      forall i | 0 <= i < |groups| ensures '.' !in groups[i] {
        RunHasNoSeparator(groups[i], Digit);
      }
      SplitJoin(groups, '.');
    }
  }

  lemma TldHasNoSeparator(t: string)
    requires IsTld(t)
    ensures '.' !in t && '@' !in t
  {
    forall j | 0 <= j < |t| ensures t[j] != '.' && t[j] != '@' {
      assert IsAsciiLetter(t[j]);
    }
  }

  lemma NamedDomainMatchesPattern(d: string)
    requires IsNamedDomain(d)
    ensures MatchesNamedDomain(d)
  {
    var parts := Split(d, '.');
    var labels, tld := parts[..|parts| - 1], parts[|parts| - 1];
    assert labels + [tld] == parts;
    assert forall i :: 0 <= i < |labels| ==> IsRun(labels[i], DomainLabel);
  }

  lemma PatternNamedDomainIsChecked(d: string)
    requires MatchesNamedDomain(d)
    ensures IsNamedDomain(d)
  {
    var labels, tld :| |labels| >= 1 && (forall i :: 0 <= i < |labels| ==> IsRun(labels[i], DomainLabel)) &&
      IsTld(tld) && d == Join(labels + [tld], '.');
    var all := labels + [tld];
    assert Split(d, '.') == all by {
      forall i | 0 <= i < |all| ensures '.' !in all[i] {
        if i < |labels| {
          RunHasNoSeparator(labels[i], DomainLabel);
        } else {
          TldHasNoSeparator(tld);
        }
      }
      SplitJoin(all, '.');
    }
    DomainPartsOf(labels, tld);
  }

  lemma DomainPartsOf(labels: seq<string>, tld: string)
    requires |labels| >= 1 && forall i :: 0 <= i < |labels| ==> IsRun(labels[i], DomainLabel)
    requires IsTld(tld)
    ensures AreDomainParts(labels + [tld])
  {
    var all := labels + [tld];
    assert forall i :: 0 <= i < |all| - 1 ==> all[i] == labels[i];
  }

  lemma NamedDomainMatches(d: string)
    ensures IsNamedDomain(d) <==> MatchesNamedDomain(d)
  {
    if IsNamedDomain(d) {
      NamedDomainMatchesPattern(d);
    }
    if MatchesNamedDomain(d) {
      PatternNamedDomainIsChecked(d);
    }
  }

  /** A domain the checker accepts has no `@`. */
  lemma DomainHasNoAt(d: string)
    requires IsDomain(d)
    ensures '@' !in d
  {
    if IsBracketDomain(d) {
      var inner := d[1..|d| - 1];
      var groups := Split(inner, '.');
      assert d == "[" + inner + "]";
      forall i | 0 <= i < |groups| ensures '@' !in groups[i] {
        RunHasNoSeparator(groups[i], Digit);
      }
      JoinAvoids(groups, '.', '@');
    } else {
      var parts := Split(d, '.');
      forall i | 0 <= i < |parts| ensures '@' !in parts[i] {
        if i < |parts| - 1 {
          RunHasNoSeparator(parts[i], DomainLabel);
        } else {
          TldHasNoSeparator(parts[i]);
        }
      }
      JoinAvoids(parts, '.', '@');
    }
  }

  lemma LocalPartMatches(l: string)
    ensures IsLocalPart(l) <==> MatchesLocalPart(l)
  {
    DotRunsMatches(l, LocalPart);
  }

  lemma DomainMatches(d: string)
    ensures IsDomain(d) <==> (MatchesBracketDomain(d) || MatchesNamedDomain(d))
  {
    BracketDomainMatches(d);
    NamedDomainMatches(d);
  }

  lemma EmailCheckImpliesPattern(s: string)
    requires IsEmailAddress(s)
    ensures MatchesEmailPattern(s)
  {
    var at := LastIndexOf(s, '@');
    var l, d := s[..at], s[at + 1..];
    assert MatchesLocalPart(l) by {
      LocalPartMatches(l);
    }
    assert MatchesBracketDomain(d) || MatchesNamedDomain(d) by {
      DomainMatches(d);
    }
    assert 0 <= at < |s| && s[at] == '@';
  }

  lemma PatternImpliesEmailCheck(s: string)
    requires MatchesEmailPattern(s)
    ensures IsEmailAddress(s)
  {
    var i := PatternSplit(s);
    var at := LastIndexOf(s, '@');
    assert at == i by {
      DomainHasNoAt(s[i + 1..]);
      LastAtIsUnique(s, i);
    }
  }

  /** An `@` at which the pattern splits the string into parts the checker
      accepts. */
  lemma PatternSplit(s: string) returns (i: nat)
    requires MatchesEmailPattern(s)
    ensures i < |s| && s[i] == '@' && IsLocalPart(s[..i]) && IsDomain(s[i + 1..])
  {
    i :| 0 <= i < |s| && s[i] == '@' && MatchesLocalPart(s[..i]) &&
      (MatchesBracketDomain(s[i + 1..]) || MatchesNamedDomain(s[i + 1..]));
    LocalPartMatches(s[..i]);
    DomainMatches(s[i + 1..]);
  }

  /** The executable checker accepts exactly the strings the expression matches. */
  lemma EmailCheckMatchesPattern(s: string)
    ensures IsEmailAddress(s) <==> MatchesEmailPattern(s)
  {
    if IsEmailAddress(s) {
      EmailCheckImpliesPattern(s);
    }
    if MatchesEmailPattern(s) {
      PatternImpliesEmailCheck(s);
    }
  }

  lemma LastAtIsUnique(s: string, i: nat)
    requires i < |s| && s[i] == '@' && '@' !in s[i + 1..]
    ensures LastIndexOf(s, '@') == i
  {
    var k := LastIndexOf(s, '@');
    assert s[i] in s;
    assert forall j :: i < j < |s| ==> s[j] != '@' by {
      forall j | i < j < |s| ensures s[j] != '@' {
        assert s[j] == s[i + 1..][j - i - 1];
      }
    }
  }

  // ---- lower-casing does not change the verdict -------------------------------------

  lemma ClassLower(c: char, k: CharClass)
    ensures InClass(LowerChar(c), k) == InClass(c, k)
  {
  }

  lemma RunLower(r: string, k: CharClass)
    ensures IsRun(AsciiLower(r), k) == IsRun(r, k)
  {
    var t := AsciiLower(r);
    forall i | 0 <= i < |r| ensures InClass(t[i], k) == InClass(r[i], k) {
      ClassLower(r[i], k);
    }
  }

  /** Lower-casing each part keeps the parts runs or non-runs. */
  lemma RunsLower(parts: seq<string>, k: CharClass)
    ensures forall i :: 0 <= i < |parts| ==> IsRun(LowerEach(parts)[i], k) == IsRun(parts[i], k)
  {
    forall i | 0 <= i < |parts| ensures IsRun(LowerEach(parts)[i], k) == IsRun(parts[i], k) {
      RunLower(parts[i], k);
    }
  }

  lemma TldLower(r: string)
    ensures IsTld(AsciiLower(r)) == IsTld(r)
  {
    var t := AsciiLower(r);
    assert forall i :: 0 <= i < |r| ==> t[i] == LowerChar(r[i]);
  }

  lemma QuotedLower(l: string)
    ensures IsQuoted(AsciiLower(l)) == IsQuoted(l)
  {
    var t := AsciiLower(l);
    assert forall i :: 0 <= i < |l| ==> t[i] == LowerChar(l[i]);
  }

  lemma DotRunsLower(s: string, k: CharClass)
    ensures IsDotRuns(AsciiLower(s), k) == IsDotRuns(s, k)
  {
    SplitLower(s, '.');
    RunsLower(Split(s, '.'), k);
  }

  lemma AddressGroupsLower(groups: seq<string>)
    ensures AreAddressGroups(LowerEach(groups)) == AreAddressGroups(groups)
  {
    RunsLower(groups, Digit);
  }

  lemma DomainPartsLower(parts: seq<string>)
    requires |parts| >= 1
    ensures AreDomainParts(LowerEach(parts)) == AreDomainParts(parts)
  {
    RunsLower(parts, DomainLabel);
    TldLower(parts[|parts| - 1]);
  }

  lemma BracketDomainLower(d: string)
    ensures IsBracketDomain(AsciiLower(d)) == IsBracketDomain(d)
  {
    var t := AsciiLower(d);
    if |d| >= 2 {
      var inner := d[1..|d| - 1];
      assert t[1..|t| - 1] == AsciiLower(inner) by {
        LowerSlice(d, 1, |d| - 1);
      }
      assert AreAddressGroups(Split(AsciiLower(inner), '.')) == AreAddressGroups(Split(inner, '.')) by {
        SplitLower(inner, '.');
        AddressGroupsLower(Split(inner, '.'));
      }
      assert |t| == |d| && t[0] == LowerChar(d[0]) && t[|t| - 1] == LowerChar(d[|d| - 1]);
    }
  }

  lemma NamedDomainLower(d: string)
    ensures IsNamedDomain(AsciiLower(d)) == IsNamedDomain(d)
  {
    SplitLower(d, '.');
    DomainPartsLower(Split(d, '.'));
  }

  lemma DomainLower(d: string)
    ensures IsDomain(AsciiLower(d)) == IsDomain(d)
  {
    BracketDomainLower(d);
    NamedDomainLower(d);
  }

  lemma LocalPartLower(l: string)
    ensures IsLocalPart(AsciiLower(l)) == IsLocalPart(l)
  {
    DotRunsLower(l, LocalPart);
    QuotedLower(l);
  }

  /** Every class of the expression either holds both cases of an ASCII letter
      or neither, so lower-casing first never changes whether it matches. */
  lemma EmailCheckIgnoresCase(s: string)
    ensures IsEmailAddress(AsciiLower(s)) == IsEmailAddress(s)
  {
    var t := AsciiLower(s);
    var at := LastIndexOf(s, '@');
    assert LastIndexOf(t, '@') == at by {
      LastIndexOfLower(s, '@');
    }
    if at < |s| {
      assert IsLocalPart(t[..at]) == IsLocalPart(s[..at]) by {
        LowerSlice(s, 0, at);
        assert t[..at] == AsciiLower(s[..at]);
        LocalPartLower(s[..at]);
      }
      assert IsDomain(t[at + 1..]) == IsDomain(s[at + 1..]) by {
        LowerSlice(s, at + 1, |s|);
        assert t[at + 1..] == AsciiLower(s[at + 1..]);
        DomainLower(s[at + 1..]);
      }
    }
  }

  // ---- what validateEmail accepts ------------------------------------------------

  /** validateEmail accepts a string exactly when the expression matches it as
      given: the lower-casing is immaterial and the empty string cannot match. */
  lemma ValidateEmailIsPattern(s: string)
    ensures ValidateEmail(Str(s)) <==> MatchesEmailPattern(s)
  {
    EmailCheckIgnoresCase(s);
    EmailCheckMatchesPattern(s);
  }

  /** Inputs that differ only in the case of ASCII letters get the same verdict. */
  lemma ValidateEmailCaseInsensitive(s: string, t: string)
    requires AsciiLower(s) == AsciiLower(t)
    ensures ValidateEmail(Str(s)) == ValidateEmail(Str(t))
  {
    EmailCheckIgnoresCase(s);
    EmailCheckIgnoresCase(t);
  }

  /** Missing, empty and non-string arguments are rejected. */
  lemma ValidateEmailRejectsEmpty(email: JsValue)
    requires !Truthy(email) || !email.Str?
    ensures !ValidateEmail(email)
  {
  }

  /** A string without `@` is rejected. */
  lemma ValidateEmailNeedsAt(s: string)
    requires '@' !in s
    ensures !ValidateEmail(Str(s))
  {
    LastIndexOfLower(s, '@');
  }

  /** An unquoted local part is dot-separated runs: it cannot be empty, begin
      or end with a dot, or hold two dots in a row. */
  lemma UnquotedLocalPartShape(s: string)
    requires ValidateEmail(Str(s)) && s[0] != '"'
    ensures var l := s[..LastIndexOf(s, '@')];
      |l| >= 1 && l[0] != '.' && l[|l| - 1] != '.' &&
      forall j :: 0 <= j < |l| - 1 ==> !(l[j] == '.' && l[j + 1] == '.')
  {
    assert IsEmailAddress(s) by {
      EmailCheckIgnoresCase(s);
    }
    var l := s[..LastIndexOf(s, '@')];
    assert !IsQuoted(l) by {
      if |l| >= 1 {
        assert l[0] == s[0];
      }
    }
    DotRunsShape(l, LocalPart);
  }

  /** Dot-separated runs neither begin nor end with a dot, and never hold two
      dots in a row. */
  lemma DotRunsShape(l: string, k: CharClass)
    requires IsDotRuns(l, k)
    ensures |l| >= 1 && l[0] != '.' && l[|l| - 1] != '.' &&
      forall j :: 0 <= j < |l| - 1 ==> !(l[j] == '.' && l[j + 1] == '.')
  {
    var parts := Split(l, '.');
    assert forall i :: 0 <= i < |parts| ==> |parts[i]| >= 1 && '.' !in parts[i];
    JoinOfNonEmptyParts(parts, '.');
  }

  lemma SampleBracketDomain()
    ensures MatchesBracketDomain("[999.999.999.999]")
  {
    var groups := ["999", "999", "999", "999"];
    assert Join(groups, '.') == "999.999.999.999";
    assert forall i :: 0 <= i < 4 ==> IsRun(groups[i], Digit) && |groups[i]| <= 3;
    assert "[999.999.999.999]" == "[" + Join(groups, '.') + "]";
  }

  lemma SampleLocalPart()
    ensures MatchesRuns("user", LocalPart)
  {
    assert IsRun("user", LocalPart);
    assert Join(["user"], '.') == "user";
  }

  /** A matching local part, `@` and a matching domain make a match. */
  lemma PatternOfParts(l: string, d: string)
    requires MatchesLocalPart(l)
    requires MatchesBracketDomain(d) || MatchesNamedDomain(d)
    ensures MatchesEmailPattern(l + "@" + d)
  {
    var s := l + "@" + d;
    assert s[..|l|] == l && s[|l| + 1..] == d && s[|l|] == '@';
  }

  /** A bracketed domain is four groups of one to three digits, with no check
      that each group is at most 255. */
  lemma BracketDomainHasNoRangeCheck()
    ensures ValidateEmail(Str("user" + "@" + "[999.999.999.999]"))
  {
    SampleLocalPart();
    SampleBracketDomain();
    PatternOfParts("user", "[999.999.999.999]");
    ValidateEmailIsPattern("user" + "@" + "[999.999.999.999]");
  }

  /** A domain not in brackets ends in a label of at least two ASCII letters,
      after at least one other label: a one-letter or numeric top-level label,
      or a domain with no dot, is rejected. */
  lemma NamedDomainEndsInLetters(s: string)
    requires ValidateEmail(Str(s))
    requires var d := s[LastIndexOf(s, '@') + 1..]; d != [] && d[0] != '['
    ensures AreDomainParts(Split(s[LastIndexOf(s, '@') + 1..], '.'))
  {
    assert IsEmailAddress(s) by {
      EmailCheckIgnoresCase(s);
    }
    var at := LastIndexOf(s, '@');
    var d := s[at + 1..];
    assert IsDomain(d);
    assert !IsBracketDomain(d);
    assert AreDomainParts(Split(d, '.'));
  }
}
