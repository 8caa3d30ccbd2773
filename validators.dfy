/**
 * The two field validators of the `User` model (models.py).
 *
 * `validate_email` accepts a string when the pattern
 *     ^\b[A-Za-z0-9._%+-]+@[A-Za-z0-9.-]+\.[A-Z|a-z]{2,}\b
 * matches a PREFIX of it (`re.match` anchors at the start only) and stores it
 * lower-cased. The pattern is written out below as the predicate `MatchesAt`,
 * which names the three places a match is made of: the `@`, the final `.` and
 * the end of the match.
 *
 * `validate_phone_number` lets an empty or absent value through and otherwise
 * requires a length between 10 and 15.
 */
module Validators {
  import opened Wrappers

  datatype ValidationError = InvalidEmail | InvalidPhoneNumber

  predicate IsLetter(c: char) { 'A' <= c <= 'Z' || 'a' <= c <= 'z' }

  predicate IsDigit(c: char) { '0' <= c <= '9' }

  /** A character of `\w` (ASCII letters, digits and the underscore). */
  predicate IsWordChar(c: char) { IsLetter(c) || IsDigit(c) || c == '_' }

  /** The class `[A-Za-z0-9._%+-]` of the local part. */
  predicate IsLocalChar(c: char) {
    IsLetter(c) || IsDigit(c) || c == '.' || c == '_' || c == '%' || c == '+' || c == '-'
  }

  /** The class `[A-Za-z0-9.-]` of the domain. */
  predicate IsDomainChar(c: char) { IsLetter(c) || IsDigit(c) || c == '.' || c == '-' }

  /** The class `[A-Z|a-z]` of the final label: the bar inside it is a literal `|`. */
  predicate IsLabelChar(c: char) { IsLetter(c) || c == '|' }

  predicate WordAt(s: string, i: int) { 0 <= i < |s| && IsWordChar(s[i]) }

  /** `\b` holds between positions k - 1 and k: exactly one side is a word character. */
  predicate BoundaryAt(s: string, k: int) { WordAt(s, k - 1) != WordAt(s, k) }

  /**
   * The pattern matches `s[..end]`, with the `@` at index `at`, the `.` before
   * the final label at index `dot`, and `end` the position after the label.
   */
  predicate MatchesAt(s: string, at: int, dot: int, end: int)
    ensures MatchesAt(s, at, dot, end) ==> 6 <= end <= |s| && IsWordChar(s[0])
  {
    && 0 < at && at + 1 < dot && dot + 2 < end <= |s|
    && BoundaryAt(s, 0)
    && (forall i | 0 <= i < at :: IsLocalChar(s[i]))
    && s[at] == '@'
    && (forall i | at < i < dot :: IsDomainChar(s[i]))
    && s[dot] == '.'
    && (forall i | dot < i < end :: IsLabelChar(s[i]))
    && BoundaryAt(s, end)
  }

  /** `re.match(regex, s)` succeeds. */
  predicate EmailPattern(s: string)
    ensures EmailPattern(s) ==> |s| >= 6
  {
    exists at: nat, dot: nat, end: nat | at < |s| && dot < |s| && end <= |s| :: MatchesAt(s, at, dot, end)
  }

  function LowerChar(c: char): char {
    if 'A' <= c <= 'Z' then (c as int + 32) as char else c
  }

  /** `str.lower()` on the ASCII letters. */
  function Lower(s: string): (r: string)
    ensures |r| == |s|
    ensures forall i | 0 <= i < |s| :: r[i] == LowerChar(s[i])
  {
    seq(|s|, i requires 0 <= i < |s| => LowerChar(s[i]))
  }

  /** `User.validate_email`: raise unless the pattern matches, else store the lower-cased text. */
  function ValidateEmail(email: string): (r: Result<string, ValidationError>)
    ensures r.Failure? <==> !EmailPattern(email)
    ensures r.Failure? ==> r.error == InvalidEmail
    ensures r.Success? ==> |r.value| == |email| && forall i | 0 <= i < |email| :: r.value[i] == LowerChar(email[i])
  {
    if !EmailPattern(email) then Failure(InvalidEmail) else Success(Lower(email))
  }

  /**
   * `User.validate_phone_number`: the length check runs only on a truthy value,
   * so `None` and the empty string pass; whatever passes is stored unchanged.
   */
  function ValidatePhone(value: Option<string>): (r: Result<Option<string>, ValidationError>)
    ensures r.Success? <==> value.None? || |value.value| == 0 || 10 <= |value.value| <= 15
    ensures r.Success? ==> r.value == value
    ensures r.Failure? ==> r.error == InvalidPhoneNumber
  {
    if value.Some? && value.value != "" && (|value.value| < 10 || |value.value| > 15) then
      Failure(InvalidPhoneNumber)
    else
      Success(value)
  }

  lemma LowerCharClasses(c: char)
    ensures IsWordChar(LowerChar(c)) == IsWordChar(c)
    ensures IsLocalChar(c) ==> IsLocalChar(LowerChar(c))
    ensures IsDomainChar(c) ==> IsDomainChar(LowerChar(c))
    ensures IsLabelChar(c) ==> IsLabelChar(LowerChar(c))
    ensures (LowerChar(c) == '@') == (c == '@') && (LowerChar(c) == '.') == (c == '.')
    ensures LowerChar(LowerChar(c)) == LowerChar(c)
  {
  }

  /** Lower-casing keeps a match at the same three positions. */
  lemma LowerKeepsMatch(s: string, at: int, dot: int, end: int)
    requires MatchesAt(s, at, dot, end)
    ensures MatchesAt(Lower(s), at, dot, end)
  {
    var t := Lower(s);
    forall i | 0 <= i < |s|
      ensures IsWordChar(t[i]) == IsWordChar(s[i])
      ensures IsLocalChar(s[i]) ==> IsLocalChar(t[i])
      ensures IsDomainChar(s[i]) ==> IsDomainChar(t[i])
      ensures IsLabelChar(s[i]) ==> IsLabelChar(t[i])
      ensures (t[i] == '@') == (s[i] == '@') && (t[i] == '.') == (s[i] == '.')
    {
      LowerCharClasses(s[i]);
    }
    assert forall k | 0 <= k <= |s| :: WordAt(t, k) == WordAt(s, k);
  }

  lemma LowerIdempotent(s: string)
    ensures Lower(Lower(s)) == Lower(s)
  {
    forall i | 0 <= i < |s| ensures Lower(Lower(s))[i] == Lower(s)[i] {
      LowerCharClasses(s[i]);
    }
  }

  /**
   * Validating a stored (accepted, lower-cased) email accepts it again and
   * returns it unchanged.
   */
  lemma ValidateEmailIdempotent(email: string)
    requires ValidateEmail(email).Success?
    ensures ValidateEmail(ValidateEmail(email).value) == ValidateEmail(email)
  {
    var at: nat, dot: nat, end: nat :| at < |email| && dot < |email| && end <= |email| && MatchesAt(email, at, dot, end);
    LowerKeepsMatch(email, at, dot, end);
    LowerIdempotent(email);
  }

  /**
   * Every accepted email starts with a letter, digit or underscore, and its
   * first `@` is followed, later on, by a `.`.
   */
  lemma AcceptedEmailShape(email: string)
    requires ValidateEmail(email).Success?
    ensures |email| > 0 && IsWordChar(email[0])
    ensures exists at | 0 < at < |email| :: email[at] == '@' && '.' in email[at + 1..]
    ensures '@' in ValidateEmail(email).value
  {
    var at: nat, dot: nat, end: nat :| at < |email| && dot < |email| && end <= |email| && MatchesAt(email, at, dot, end);
    assert email[at + 1..][dot - at - 1] == '.';
    LowerCharClasses(email[at]);
    assert ValidateEmail(email).value[at] == '@';
  }

  /** A string whose first character is not a word character is refused (`^\b`). */
  lemma LeadingNonWordRejected(email: string)
    requires |email| == 0 || !IsWordChar(email[0])
    ensures ValidateEmail(email) == Failure(InvalidEmail)
  {
  }

  /**
   * Only a prefix has to match: once the pattern matches the whole of `p`,
   * anything that starts with a non-word character may follow it.
   */
  lemma TrailingTextAccepted(p: string, at: nat, dot: nat, t: string)
    requires MatchesAt(p, at, dot, |p|)
    requires t == [] || !IsWordChar(t[0])
    ensures ValidateEmail(p + t) == Success(Lower(p + t))
  {
    var s := p + t;
    assert WordAt(p, |p| - 1);
    assert forall i | 0 <= i < |p| :: s[i] == p[i];
    assert WordAt(s, |p| - 1) && !WordAt(s, |p|);
    assert MatchesAt(s, at, dot, |p|);
  }

  /** The registration example: accepted and stored lower-cased. */
  lemma MixedCaseEmailStoredLowerCase()
    ensures ValidateEmail("Alice@x.com") == Success("alice@x.com")
  {
    var s := "Alice@x.com";
    assert MatchesAt(s, 5, 7, 11);
    assert Lower(s) == "alice@x.com" by {
      assert Lower(s)[0] == 'a';
      assert forall i | 1 <= i < |s| :: Lower(s)[i] == s[i];
    }
  }

  /** The final label needs two characters. */
  lemma ShortFinalLabelRejected()
    ensures ValidateEmail("a@b.c").Failure?
  {
  }

  /** `|` counts as a character of the final label. */
  lemma BarInFinalLabelAccepted()
    ensures ValidateEmail("ann@site.c|m").Success?
  {
    assert MatchesAt("ann@site.c|m", 3, 8, 12);
  }

  /** Text after the match is accepted and stored (lower-cased) along with it. */
  lemma TrailingTextExample()
    ensures ValidateEmail("ann@site.org, Bob").Success?
  {
    assert MatchesAt("ann@site.org, Bob", 3, 8, 12);
  }

  /** A 9-character number is refused, a 10-character or empty one passes unchanged. */
  lemma PhoneLengthExamples()
    ensures ValidatePhone(Some("123456789")).Failure?
    ensures ValidatePhone(Some("1234567890")) == Success(Some("1234567890"))
    ensures ValidatePhone(Some("")) == Success(Some(""))
    ensures ValidatePhone(Some("1234567890123456")).Failure?
  {
  }
}
