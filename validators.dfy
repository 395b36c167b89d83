/** The `VALIDATORS` rule table: the name, email and phone patterns, each
    written out as a character class plus a length bound or shape, the
    message minimum length, and the user-facing messages (kept verbatim,
    treated as opaque text). */
module Validators {
  import opened JsStrings

  const NameMessage: string := "Bitte geben Sie einen gültigen Namen ein (2-50 Zeichen, nur Buchstaben)"
  const EmailMessage: string := "Bitte geben Sie eine gültige E-Mail-Adresse ein"
  const PhoneMessage: string := "Bitte geben Sie eine gültige Telefonnummer ein (10-20 Zeichen)"
  const MessageLengthMessage: string := "Die Nachricht muss mindestens 10 Zeichen lang sein"

  const NameMinLength: nat := 2
  const NameMaxLength: nat := 50
  const PhoneMinLength: nat := 10
  const PhoneMaxLength: nat := 20
  const MessageMinLength: nat := 10

  /** `[a-zA-ZÀ-ÿ\s'-]`: ASCII letters, the literal range U+00C0 to U+00FF
      (which includes the signs × and ÷), whitespace, apostrophe and hyphen. */
  predicate IsNameChar(c: char) {
    || ('a' <= c <= 'z') || ('A' <= c <= 'Z') || ('\U{00C0}' <= c <= '\U{00FF}')
    || IsWhitespace(c) || c == '\'' || c == '-'
  }

  /** `^[a-zA-ZÀ-ÿ\s'-]{2,50}$`, tested on the untrimmed value. */
  predicate IsValidName(s: string) {
    && NameMinLength <= |s| <= NameMaxLength
    && forall i :: 0 <= i < |s| ==> IsNameChar(s[i])
  }

  /** `[\d\s+\-()]`: ASCII digits only, whitespace, `+`, `-`, `(` and `)`. */
  predicate IsPhoneChar(c: char) {
    ('0' <= c <= '9') || IsWhitespace(c) || c == '+' || c == '-' || c == '(' || c == ')'
  }

  /** `^[\d\s+\-()]{10,20}$`, tested on the untrimmed value. */
  predicate IsValidPhone(s: string) {
    && PhoneMinLength <= |s| <= PhoneMaxLength
    && forall i :: 0 <= i < |s| ==> IsPhoneChar(s[i])
  }

  /** `[^\s@]`: any character but whitespace and `@`. */
  predicate IsEmailChar(c: char) {
    !IsWhitespace(c) && c != '@'
  }

  /** `^[^\s@]+@[^\s@]+\.[^\s@]+$` read as a regular expression: the string
      splits as A `@` B `.` C with A, B and C non-empty runs of `[^\s@]`. */
  ghost predicate MatchesEmailPattern(s: string) {
    exists at, dot ::
      && 0 < at && at + 1 < dot && dot + 1 < |s|
      && s[at] == '@' && s[dot] == '.'
      && forall k :: 0 <= k < |s| && k != at ==> IsEmailChar(s[k])
  }

  /** The email rule stated directly: no whitespace, exactly one `@` with a
      non-empty part before it, and after the `@` a `.` that is neither the
      first nor the last character of that part. */
  predicate IsValidEmail(s: string) {
    && (forall i :: 0 <= i < |s| ==> !IsWhitespace(s[i]))
    && Count(s, '@') == 1
    && var at := IndexOf(s, '@');
       0 < at && at + 2 < |s| && '.' in s[at + 2..|s| - 1]
  }

  /** The direct statement of the email rule accepts exactly the strings
      the regular expression matches. */
  lemma EmailRuleIsPattern(s: string)
    ensures IsValidEmail(s) <==> MatchesEmailPattern(s)
  {
    if IsValidEmail(s) {
      var at := IndexOf(s, '@');
      var tail := s[at + 2..|s| - 1];
      var j :| 0 <= j < |tail| && tail[j] == '.';
      var dot := at + 2 + j;
      assert s[dot] == '.';
      CountIsOne(s, '@', at);
      assert forall k :: 0 <= k < |s| && k != at ==> IsEmailChar(s[k]);
    }
    if MatchesEmailPattern(s) {
      var at, dot :|
        && 0 < at && at + 1 < dot && dot + 1 < |s|
        && s[at] == '@' && s[dot] == '.'
        && forall k :: 0 <= k < |s| && k != at ==> IsEmailChar(s[k]);
      CountIsOne(s, '@', at);
      var i := IndexOf(s, '@');
      assert i == at;
      assert s[at + 2..|s| - 1][dot - at - 2] == '.';
    }
  }

  /** In JavaScript the bound `{2,50}` counts UTF-16 code units. Reading it
      over characters accepts the same names, because the class holds no
      character outside the Basic Multilingual Plane. */
  lemma NameLengthIsCodeUnits(s: string)
    ensures IsValidName(s) <==>
      && NameMinLength <= Utf16Length(s) <= NameMaxLength
      && forall i :: 0 <= i < |s| ==> IsNameChar(s[i])
  {
    if forall i :: 0 <= i < |s| ==> IsNameChar(s[i]) {
      forall i | 0 <= i < |s| ensures s[i] as int < 0x1_0000 {
        assert IsNameChar(s[i]);
      }
    }
  }

  /** Likewise for the phone bound `{10,20}`. */
  lemma PhoneLengthIsCodeUnits(s: string)
    ensures IsValidPhone(s) <==>
      && PhoneMinLength <= Utf16Length(s) <= PhoneMaxLength
      && forall i :: 0 <= i < |s| ==> IsPhoneChar(s[i])
  {
    if forall i :: 0 <= i < |s| ==> IsPhoneChar(s[i]) {
      forall i | 0 <= i < |s| ensures s[i] as int < 0x1_0000 {
        assert IsPhoneChar(s[i]);
      }
    }
  }

  /** An empty value never passes the email rule, and a value that is all
      whitespace never does either. */
  lemma BlankIsNotEmail(s: string)
    requires AllWhitespace(s)
    ensures !IsValidEmail(s)
  {
    if s != [] {
      assert IsWhitespace(s[0]);
    }
  }
}
