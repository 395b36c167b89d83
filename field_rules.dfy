/** The decision `FormValidator.validateField` makes for one form control:
    which rule, if any, rejects it. The rules are tried in a fixed order and
    the first that fails is the one reported. */
module FieldRules {
  import opened Wrappers
  import opened JsStrings
  import opened Validators

  /** A form control (`input`, `textarea` or `select`) as the validator sees
      it: its `id`, its `type`, whether it has the `required` attribute, its
      `value` and `checked` state, the parent element its feedback lives in,
      and whether it carries the `is-invalid` class. */
  datatype Field = Field(
    id: string,
    kind: string,
    required: bool,
    value: string,
    checked: bool,
    parent: nat,
    invalid: bool)

  /** The rules of `validateField`, listed in the order they are tried. */
  datatype Rule = Required | Consent | Name | Email | Phone | MessageLength

  const RequiredMessage: string := "Dieses Feld ist erforderlich"
  const ConsentMessage: string := "Bitte akzeptieren Sie die Datenschutzerklärung"

  /** The feedback text shown when the rule rejects a field. */
  function Message(r: Rule): string {
    match r
    case Required => RequiredMessage
    case Consent => ConsentMessage
    case Name => NameMessage
    case Email => EmailMessage
    case Phone => PhoneMessage
    case MessageLength => MessageLengthMessage
  }

  /** The position of a rule in the check order. */
  function Rank(r: Rule): nat {
    match r
    case Required => 0
    case Consent => 1
    case Name => 2
    case Email => 3
    case Phone => 4
    case MessageLength => 5
  }

  /** Whether rule `r` applies to `f` and rejects it, regardless of the
      other rules. */
  predicate Rejects(r: Rule, f: Field) {
    match r
    case Required => f.required && IsBlank(f.value)
    case Consent => f.kind == "checkbox" && f.required && !f.checked
    case Name => (f.id == "firstName" || f.id == "lastName") && !IsValidName(f.value)
    case Email => f.kind == "email" && !IsValidEmail(f.value)
    case Phone => f.kind == "tel" && !IsBlank(f.value) && !IsValidPhone(f.value)
    case MessageLength =>
      f.id == "message" && !IsBlank(f.value) && Utf16Length(Trim(f.value)) < MessageMinLength
  }

  /** The outcome of `validateField`: the rule whose message is shown, or
      None when the field passes. */
  function FirstFailingRule(f: Field): (r: Option<Rule>)
  {
    if f.required && IsBlank(f.value) then Some(Required)
    else if f.kind == "checkbox" && f.required && !f.checked then Some(Consent)
    else if (f.id == "firstName" || f.id == "lastName") && !IsValidName(f.value) then Some(Name)
    else if f.kind == "email" && !IsValidEmail(f.value) then Some(Email)
    else if f.kind == "tel" && !IsBlank(f.value) && !IsValidPhone(f.value) then Some(Phone)
    else if f.id == "message" && !IsBlank(f.value)
              && Utf16Length(Trim(f.value)) < MessageMinLength then Some(MessageLength)
    else None
  }

  /** The field passes exactly when no rule rejects it; otherwise the rule
      reported is one that rejects it and every rule before it accepts. */
  lemma FirstFailingRuleIsFirstRejection(f: Field)
    ensures FirstFailingRule(f) == None <==> forall q :: !Rejects(q, f)
    ensures FirstFailingRule(f).Some? ==>
      && Rejects(FirstFailingRule(f).value, f)
      && forall q :: Rank(q) < Rank(FirstFailingRule(f).value) ==> !Rejects(q, f)
  {
    var verdict := FirstFailingRule(f);
    forall q ensures Rejects(q, f) ==> verdict.Some? && Rank(verdict.value) <= Rank(q) {
      RejectsEarliest(f, q);
    }
    if verdict.Some? {
      RejectsEarliest(f, verdict.value);
    }
  }

  /** One step of the lemma above, for a single rule. */
  lemma RejectsEarliest(f: Field, q: Rule)
    ensures Rejects(q, f) ==> FirstFailingRule(f).Some? && Rank(FirstFailingRule(f).value) <= Rank(q)
    ensures FirstFailingRule(f) == Some(q) ==> Rejects(q, f)
  {
    match q
    case Required =>
    case Consent =>
    case Name =>
    case Email =>
    case Phone =>
    case MessageLength =>
  }

  /** The verdict depends on the field's attributes and value only, not on
      whether it is currently marked invalid. */
  lemma VerdictIgnoresMark(f: Field, mark: bool)
    ensures FirstFailingRule(f.(invalid := mark)) == FirstFailingRule(f)
  {
  }

  /** A required field whose value is blank fails with the required
      message, whatever its type or id. */
  lemma RequiredBlankFailsFirst(f: Field)
    requires f.required && IsBlank(f.value)
    ensures FirstFailingRule(f) == Some(Required)
  {
  }

  /** A blank email field that is not required is still rejected by the
      email rule: there is no blank guard in front of it. */
  lemma BlankOptionalEmailRejected(f: Field)
    requires f.kind == "email" && !f.required && IsBlank(f.value)
    requires f.id != "firstName" && f.id != "lastName"
    ensures FirstFailingRule(f) == Some(Email)
  {
    BlankIsNotEmail(f.value);
  }

  /** A blank name field that is not required is rejected too when it is
      empty, since the name pattern needs two characters; two spaces pass. */
  lemma EmptyOptionalNameRejected(f: Field)
    requires f.id == "firstName" && !f.required && f.value == ""
    ensures FirstFailingRule(f) == Some(Name)
  {
  }

  /** Blank `tel` and `message` fields that are not required pass: the
      phone and message-length rules are skipped for blank values. */
  lemma BlankPhoneAndMessageSkipped(f: Field)
    requires f.kind == "tel" || f.id == "message"
    requires f.kind != "email" && f.kind != "checkbox"
    requires f.id != "firstName" && f.id != "lastName"
    requires !f.required && IsBlank(f.value)
    ensures FirstFailingRule(f) == None
  {
  }

  /** A non-blank message field fails exactly when its trimmed value is
      shorter than ten UTF-16 code units (all earlier rules passing). */
  lemma MessageLengthRule(f: Field)
    requires f.id == "message" && f.kind != "email" && f.kind != "tel" && f.kind != "checkbox"
    requires !IsBlank(f.value)
    ensures FirstFailingRule(f) == Some(MessageLength) <==> Utf16Length(Trim(f.value)) < 10
    ensures FirstFailingRule(f) == None <==> Utf16Length(Trim(f.value)) >= 10
  {
  }
}
