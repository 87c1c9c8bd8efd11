/** Field rules of the user service's `User` model (users/models.py):
    the per-field checks Django's `clean_fields` runs for the declared
    `max_length`, `blank` and validators, and the blocked e-mail domain
    rule of `User.clean`. Django's `RegexValidator` uses `re.search`, so a
    pattern `^...$` also matches when the text ends in one extra `"\n"`;
    that is written out below. */
module UserFields {
  import opened Strings

  const USERNAME_MIN_LENGTH: nat := 3
  const USERNAME_MAX_LENGTH: nat := 150
  const EMAIL_MAX_LENGTH: nat := 254
  const PASSWORD_MAX_LENGTH: nat := 128
  const NAME_MAX_LENGTH: nat := 50
  const PHONE_MAX_LENGTH: nat := 20
  const BLOCKED_DOMAINS: seq<string> := ["tempmail.com", "10minutemail.com"]

  /** One validation error, as Django reports it for a field. The user
      service's models share this vocabulary: `DuplicateDefault` is the
      error of `UserAddress.clean`, reported by `UserAddresses`. */
  datatype Problem =
    | Blank            // the field is required and the value is empty
    | TooLong(limit: nat)
    | TooShort(limit: nat)
    | BadUsername      // "Username can only contain letters, numbers, and underscores"
    | BadPhone         // "Phone number must be entered in the format: '+999999999'. ..."
    | DomainNotAllowed // "Email domain is not allowed"
    | InvalidChoice    // a value outside the field's choices
    | DuplicateDefault // "User can only have one default address per type"

  /** An error attached to a field, or to `__all__` for a model-wide one. */
  datatype FieldError = FieldError(field: string, problem: Problem)

  function Tag(field: string, ps: seq<Problem>): (es: seq<FieldError>)
    ensures |es| == |ps|
    ensures forall i | 0 <= i < |es| :: es[i] == FieldError(field, ps[i])
  {
    if ps == [] then [] else [FieldError(field, ps[0])] + Tag(field, ps[1..])
  }

  predicate IsWordChar(c: char) {
    'a' <= c <= 'z' || 'A' <= c <= 'Z' || '0' <= c <= '9' || c == '_'
  }

  predicate IsDigit(c: char) {
    '0' <= c <= '9'
  }

  predicate AllDigits(s: string) {
    forall i | 0 <= i < |s| :: IsDigit(s[i])
  }

  /** `s` ends in the one newline that `$` may stand before. */
  predicate EndsInNewline(s: string) {
    |s| > 0 && s[|s| - 1] == '\n'
  }

  function DropLast(s: string): string
    requires |s| > 0
  {
    s[..|s| - 1]
  }

  /** `[a-zA-Z0-9_]+` matches all of `s`. */
  predicate WordRun(s: string) {
    |s| >= 1 && forall i | 0 <= i < |s| :: IsWordChar(s[i])
  }

  /** `re.search(r'^[a-zA-Z0-9_]+$', s)` succeeds: every character is a
      letter, digit or underscore, except that the last may be the newline
      `$` stands before. */
  predicate UsernamePattern(s: string): (b: bool)
    ensures b ==> |s| >= 1
    ensures b ==> forall i | 0 <= i < |s| :: IsWordChar(s[i]) || (i == |s| - 1 && s[i] == '\n')
    ensures WordRun(s) ==> b
  {
    WordRun(s) || (EndsInNewline(s) && WordRun(DropLast(s)))
  }

  /** `\d{9,15}` matches all of `s`. */
  predicate DigitRun(s: string) {
    9 <= |s| <= 15 && AllDigits(s)
  }

  /** `1?\d{9,15}` matches all of `s`, taking the optional `1` or not. */
  predicate PhoneDigits(s: string) {
    DigitRun(s) || (|s| > 0 && s[0] == '1' && DigitRun(s[1..]))
  }

  /** `\+?1?\d{9,15}` matches all of `s`, taking the optional `+` or not. */
  predicate PhoneBody(s: string) {
    PhoneDigits(s) || (|s| > 0 && s[0] == '+' && PhoneDigits(s[1..]))
  }

  /** `re.search(r'^\+?1?\d{9,15}$', s)` succeeds. Every match has 9 to 18
      characters, so it fits the 20-character column. */
  predicate PhonePattern(s: string): (b: bool)
    ensures b ==> 9 <= |s| <= 18 && |s| <= PHONE_MAX_LENGTH
  {
    PhoneBody(s) || (EndsInNewline(s) && PhoneBody(DropLast(s)))
  }

  /** Errors for `username`: required, then the validators in the order
      Django runs them (minimum length, pattern, maximum length). */
  function UsernameProblems(s: string): (ps: seq<Problem>)
    ensures ps == [] <==>
      USERNAME_MIN_LENGTH <= |s| <= USERNAME_MAX_LENGTH && UsernamePattern(s)
    ensures s == "" ==> ps == [Blank]
  {
    if s == "" then [Blank]
    else
      (if |s| < USERNAME_MIN_LENGTH then [TooShort(USERNAME_MIN_LENGTH)] else []) +
      (if !UsernamePattern(s) then [BadUsername] else []) +
      (if |s| > USERNAME_MAX_LENGTH then [TooLong(USERNAME_MAX_LENGTH)] else [])
  }

  /** Errors for `phone`: blank is allowed and skips the validators. */
  function PhoneProblems(s: string): (ps: seq<Problem>)
    ensures s == "" ==> ps == []
    ensures s != "" ==> (ps == [] <==> PhonePattern(s) && |s| <= PHONE_MAX_LENGTH)
  {
    if s == "" then []
    else
      (if !PhonePattern(s) then [BadPhone] else []) +
      (if |s| > PHONE_MAX_LENGTH then [TooLong(PHONE_MAX_LENGTH)] else [])
  }

  /** Errors for a text field with a maximum length that may or may not
      be left blank. */
  function TextProblems(s: string, maxLength: nat, blankAllowed: bool): (ps: seq<Problem>)
    ensures ps == [] <==> (s != "" || blankAllowed) && |s| <= maxLength
  {
    if s == "" then (if blankAllowed then [] else [Blank])
    else if |s| > maxLength then [TooLong(maxLength)]
    else []
  }

  /** Errors for a required text field with choices: an empty value is
      blank, any other value outside the choices is an invalid choice. */
  function ChoiceProblems(s: string, choices: seq<string>, maxLength: nat): (ps: seq<Problem>)
    ensures ps == [] <==> s != "" && s in choices && |s| <= maxLength
  {
    if s == "" then [Blank]
    else if s !in choices then [InvalidChoice]
    else if |s| > maxLength then [TooLong(maxLength)]
    else []
  }

  /** `email.split('@')[1] if '@' in email else ''`. */
  function EmailDomain(email: string): (d: string)
    ensures '@' !in email ==> d == ""
    ensures '@' in email ==> |d| < |email|
  {
    if '@' in email then
      ContainsChar(email, '@');
      Piece(email, "@", 1).value
    else ""
  }

  /** `User.clean`: a non-empty e-mail whose domain is on the block list is
      refused; the comparison is exact, so case matters. */
  function CleanEmail(email: string): (p: Option<Problem>)
    ensures p.Some? ==> p.value == DomainNotAllowed
    ensures email == "" ==> p.None?
    ensures '@' !in email ==> p.None?
  {
    if email != "" && EmailDomain(email) in BLOCKED_DOMAINS then Some(DomainNotAllowed)
    else None
  }

  /** Without a newline, a username is accepted iff it has 3 to 150
      characters, all letters, digits or underscores. */
  lemma UsernameRule(s: string)
    requires '\n' !in s
    ensures UsernameProblems(s) == [] <==>
      USERNAME_MIN_LENGTH <= |s| <= USERNAME_MAX_LENGTH &&
      forall i | 0 <= i < |s| :: IsWordChar(s[i])
  {
    if |s| > 0 {
      assert s[|s| - 1] in s;
    }
  }

  /** `$` lets one trailing newline through: a name of 2 to 149 word
      characters followed by `"\n"` passes every username check although
      its last character is not a word character. */
  lemma UsernameTrailingNewlineAccepted(w: string)
    requires WordRun(w) && 2 <= |w| <= USERNAME_MAX_LENGTH - 1
    ensures UsernameProblems(w + "\n") == []
    ensures !IsWordChar((w + "\n")[|w|])
  {
    assert DropLast(w + "\n") == w;
  }

  /** `1?\d{9,15}` in closed form: 9 to 15 digits, or 16 digits of which
      the first is `1`. */
  lemma {:induction false} PhoneDigitsClosedForm(r: string)
    ensures PhoneDigits(r) <==>
      AllDigits(r) && (9 <= |r| <= 15 || (|r| == 16 && r[0] == '1'))
  {
    if |r| > 0 && r[0] == '1' && AllDigits(r[1..]) {
      assert forall i | 1 <= i < |r| :: r[i] == r[1..][i - 1];
      assert AllDigits(r);
    }
    if |r| > 0 && AllDigits(r) {
      assert forall i | 0 <= i < |r| - 1 :: r[1..][i] == r[i + 1];
      assert AllDigits(r[1..]);
    }
  }

  /** A phone number is accepted iff it is blank, or, with no newline in
      it, an optional `+` followed by 9 to 15 digits or by 16 digits
      starting with `1`. */
  lemma PhoneRule(s: string)
    requires '\n' !in s
    ensures PhoneProblems(s) == [] <==>
      s == "" ||
      (var r := if s[0] == '+' then s[1..] else s;
       AllDigits(r) && (9 <= |r| <= 15 || (|r| == 16 && r[0] == '1')))
  {
    if s != "" {
      assert s[|s| - 1] in s;
      assert !PhonePattern(s) || PhoneBody(s);
      PhoneDigitsClosedForm(s);
      PhoneDigitsClosedForm(s[1..]);
      if s[0] == '+' {
        assert !IsDigit(s[0]);
        assert !PhoneDigits(s);
      }
    }
  }

  /** A domain free of `@`, followed by nothing or by another `@`, is what
      comes before the next `@`. */
  lemma BeforeNextAt(domain: string, tail: string)
    requires '@' !in domain
    requires tail == "" || tail[0] == '@'
    ensures Before(domain + tail, "@") == domain
  {
    ContainsChar(domain, '@');
    if tail == "" {
      assert domain + tail == domain;
    } else {
      assert tail == "@" + tail[1..];
      assert domain + tail == domain + "@" + tail[1..];
      FindAfterPrefix(domain, "@", tail[1..]);
    }
  }

  /** The domain is the text between the first and the second `@` (or the
      end of the address). */
  lemma DomainBetweenFirstAndSecondAt(local: string, domain: string, tail: string)
    requires '@' !in local && '@' !in domain
    requires tail == "" || tail[0] == '@'
    ensures EmailDomain(local + "@" + domain + tail) == domain
  {
    var email := local + "@" + (domain + tail);
    assert local + "@" + domain + tail == email;
    assert '@' in email by { assert email[|local|] == '@'; }
    ContainsChar(local, '@');
    PiecesOfJoin(local, "@", domain + tail, 0);
    BeforeNextAt(domain, tail);
  }

  /** `clean` refuses a well-formed address exactly when its domain is
      `tempmail.com` or `10minutemail.com`, character for character. */
  lemma BlockedIffListedDomain(local: string, domain: string, tail: string)
    requires '@' !in local && '@' !in domain
    requires tail == "" || tail[0] == '@'
    ensures CleanEmail(local + "@" + domain + tail).Some? <==>
      domain == "tempmail.com" || domain == "10minutemail.com"
  {
    DomainBetweenFirstAndSecondAt(local, domain, tail);
  }

  /** The comparison is case-sensitive: a capitalised blocked domain passes. */
  lemma BlockedDomainCaseSensitive(local: string)
    requires '@' !in local
    ensures CleanEmail(local + "@" + "tempmail.com").Some?
    ensures CleanEmail(local + "@" + "TempMail.com").None?
  {
    var lower, upper := "tempmail.com", "TempMail.com";
    assert '@' !in lower && '@' !in upper;
    assert upper != lower && upper != "10minutemail.com" by {
      assert upper[0] != lower[0] && |upper| != |"10minutemail.com"|;
    }
    BlockedIffListedDomain(local, lower, "");
    BlockedIffListedDomain(local, upper, "");
    assert local + "@" + lower + "" == local + "@" + lower;
    assert local + "@" + upper + "" == local + "@" + upper;
  }
}
