/** The two regular expressions used by both the registration route and the form:
    the e-mail pattern `^[^\s@]+@[^\s@]+\.[^\s@]+$` and the phone pattern `^\d{10}$`. */
module Patterns {
  import opened Text

  /** A member of the class `[^\s@]`. */
  predicate Plain(c: char) {
    !IsSpace(c) && c != '@'
  }

  /** `s` matches `[^\s@]*`. */
  predicate AllPlain(s: string) {
    forall i :: 0 <= i < |s| ==> Plain(s[i])
  }

  /** The e-mail pattern read as a language: `s` is `a + "@" + b + "." + c` with `a`, `b`
      and `c` non-empty runs of `[^\s@]`; `at` and `dot` are the positions of the two
      literal characters. */
  ghost predicate EmailSplitAt(s: string, at: int, dot: int) {
    && 0 < at && at + 1 < dot && dot + 1 < |s|
    && s[at] == '@' && s[dot] == '.'
    && AllPlain(s[..at]) && AllPlain(s[at + 1..dot]) && AllPlain(s[dot + 1..])
  }

  ghost predicate MatchesEmailPattern(s: string) {
    exists at, dot :: EmailSplitAt(s, at, dot)
  }

  /** The domain part has a '.' that is neither its first nor its last character. */
  predicate HasInnerDot(d: string) {
    exists k | 0 < k < |d| - 1 :: d[k] == '.'
  }

  /** The e-mail check as the application evaluates it: one '@' that is not the first
      character, no white space, and a domain with an inner '.'. */
  predicate IsEmail(s: string) {
    exists at | 0 < at < |s| ::
      s[at] == '@' && AllPlain(s[..at]) && AllPlain(s[at + 1..]) && HasInnerDot(s[at + 1..])
  }

  lemma AllPlainSlice(s: string, i: int, j: int)
    requires AllPlain(s) && 0 <= i <= j <= |s|
    ensures AllPlain(s[i..j])
  {
    assert forall k :: 0 <= k < j - i ==> s[i..j][k] == s[i + k];
  }

  lemma AllPlainJoin(a: string, c: char, b: string)
    requires AllPlain(a) && Plain(c) && AllPlain(b)
    ensures AllPlain(a + [c] + b)
  {
    var t := a + [c] + b;
    forall k | 0 <= k < |t| ensures Plain(t[k]) {
      if k < |a| { assert t[k] == a[k]; }
      else if k > |a| { assert t[k] == b[k - |a| - 1]; }
    }
  }

  lemma IsEmailToPattern(s: string)
    requires IsEmail(s)
    ensures MatchesEmailPattern(s)
  {
    var at :| 0 < at < |s| && s[at] == '@' && AllPlain(s[..at]) && AllPlain(s[at + 1..])
      && HasInnerDot(s[at + 1..]);
    var d := s[at + 1..];
    var k :| 0 < k < |d| - 1 && d[k] == '.';
    var dot := at + 1 + k;
    assert s[at + 1..dot] == d[..k];
    assert s[dot + 1..] == d[k + 1..];
    AllPlainSlice(d, 0, k);
    AllPlainSlice(d, k + 1, |d|);
    assert EmailSplitAt(s, at, dot);
  }

  lemma PatternToIsEmail(s: string)
    requires MatchesEmailPattern(s)
    ensures IsEmail(s)
  {
    var at, dot :| EmailSplitAt(s, at, dot);
    var d := s[at + 1..];
    assert d == s[at + 1..dot] + [s[dot]] + s[dot + 1..];
    AllPlainJoin(s[at + 1..dot], s[dot], s[dot + 1..]);
    assert d[dot - at - 1] == '.';
    assert HasInnerDot(d);
  }

  /** `IsEmail` accepts exactly the strings the regular expression matches. */
  lemma IsEmailMatchesPattern(s: string)
    ensures IsEmail(s) <==> MatchesEmailPattern(s)
  {
    if IsEmail(s) { IsEmailToPattern(s); }
    if MatchesEmailPattern(s) { PatternToIsEmail(s); }
  }

  /** The phone pattern `^\d{10}$`: exactly ten ASCII digits. */
  predicate IsTenDigits(s: string) {
    |s| == 10 && forall i :: 0 <= i < |s| ==> IsDigit(s[i])
  }

  /** A string the e-mail pattern accepts contains a non-space character, so it survives trimming. */
  lemma EmailIsNotBlank(s: string)
    requires IsEmail(s)
    ensures Trim(s) != []
  {
    var at :| 0 < at < |s| && s[at] == '@' && AllPlain(s[..at]);
    assert s[..at][0] == s[0];
    TrimEmptyIff(s);
  }

  /** A ten-digit string survives trimming. */
  lemma PhoneIsNotBlank(s: string)
    requires IsTenDigits(s)
    ensures Trim(s) != []
  {
    TrimEmptyIff(s);
  }
}
