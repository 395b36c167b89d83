/** `FormValidator`: one instance per form. It validates a control on blur,
    re-validates a control marked invalid on input, and on submit validates
    every control, then either shows one error notification or disables the
    submit button and schedules the redirect to the confirmation page. The
    page state it touches (the controls' `is-invalid` marks, the
    `.invalid-feedback` element of each parent, the submit button, the
    notifications and the scheduled navigations) lives in the fields of
    the class. */
module Form {
  import opened Wrappers
  import opened FieldRules
  import opened JsStrings

  /** An `.invalid-feedback` element: its text and whether it is displayed. */
  datatype Feedback = Feedback(text: string, shown: bool)

  /** What the submit button shows: its own text, or the spinner with
      "Wird gesendet..." that `disableSubmit` puts in. */
  datatype Label = Text(text: string) | Sending

  datatype SubmitButton = SubmitButton(disabled: bool, caption: Label)

  /** A banner appended to the page by `showNotification`. */
  datatype Notification = Notification(message: string, kind: string)

  /** A navigation scheduled with `setTimeout`. */
  datatype Redirect = Redirect(url: string, delayMs: nat)

  const CheckInputsMessage: string := "Bitte überprüfen Sie Ihre Eingaben"
  const ConfirmationPage: string := "thank_you.html"
  const RedirectDelayMs: nat := 1000
  const SendingText: string := "Wird gesendet..."

  /** The `textContent` of a button label. */
  function LabelText(l: Label): string {
    match l
    case Text(t) => t
    case Sending => SendingText
  }

  /** The field with its `is-invalid` mark set from its verdict. */
  function Marked(f: Field): Field {
    f.(invalid := FirstFailingRule(f).Some?)
  }

  /** Every field passes every rule. */
  predicate AllPass(fs: seq<Field>) {
    forall k :: 0 <= k < |fs| ==> FirstFailingRule(fs[k]) == None
  }

  /** The feedback elements after validating `f`: a failing field leaves its
      parent's element (created if missing) shown with the rule's message; a
      passing field hides its parent's element if there is one. */
  function FeedbackAfter(fb: map<nat, Feedback>, f: Field): (r: map<nat, Feedback>)
    ensures r.Keys == if FirstFailingRule(f).Some? then fb.Keys + {f.parent} else fb.Keys
    ensures forall p :: p in fb && p != f.parent ==> r[p] == fb[p]
    ensures f.parent in r ==> r[f.parent].shown == FirstFailingRule(f).Some?
    ensures FirstFailingRule(f).Some? ==> r[f.parent].text == Message(FirstFailingRule(f).value)
  {
    match FirstFailingRule(f)
    case Some(r) => fb[f.parent := Feedback(Message(r), true)]
    case None => if f.parent in fb then fb[f.parent := fb[f.parent].(shown := false)] else fb
  }

  /** The feedback elements after validating `fs` in document order. */
  function FeedbackAfterAll(fb: map<nat, Feedback>, fs: seq<Field>): map<nat, Feedback>
    decreases |fs|
  {
    if fs == [] then fb
    else FeedbackAfter(FeedbackAfterAll(fb, fs[..|fs| - 1]), fs[|fs| - 1])
  }

  /** The parents of the fields in `fs` that fail a rule. */
  function FailingParents(fs: seq<Field>): set<nat> {
    set k | 0 <= k < |fs| && FirstFailingRule(fs[k]).Some? :: fs[k].parent
  }

  /** Validating a form creates a feedback element only under the parent
      of a failing field, and never removes one. */
  lemma {:induction false} FeedbackAfterAllKeys(fb: map<nat, Feedback>, fs: seq<Field>)
    ensures FeedbackAfterAll(fb, fs).Keys == fb.Keys + FailingParents(fs)
    decreases |fs|
  {
    if fs != [] {
      var init := fs[..|fs| - 1];
      FeedbackAfterAllKeys(fb, init);
      var last := fs[|fs| - 1];
      assert FailingParents(fs) ==
        FailingParents(init) + (if FirstFailingRule(last).Some? then {last.parent} else {}) by {
        forall p | p in FailingParents(fs)
          ensures p in FailingParents(init) + (if FirstFailingRule(last).Some? then {last.parent} else {})
        {
          var k :| 0 <= k < |fs| && FirstFailingRule(fs[k]).Some? && fs[k].parent == p;
          if k < |fs| - 1 {
            assert init[k] == fs[k];
          }
        }
        forall p | p in FailingParents(init) ensures p in FailingParents(fs) {
          var k :| 0 <= k < |init| && FirstFailingRule(init[k]).Some? && init[k].parent == p;
          assert fs[k] == init[k];
        }
      }
    }
  }

  /** After validating a form, a parent's feedback element reflects the last
      field under that parent: shown with the message of its first failing
      rule if it fails, hidden (if it exists) if it passes. */
  lemma {:induction false} LastFieldDecidesFeedback(fb: map<nat, Feedback>, fs: seq<Field>, k: nat)
    requires k < |fs|
    requires forall j :: k < j < |fs| ==> fs[j].parent != fs[k].parent
    ensures var after := FeedbackAfterAll(fb, fs);
      match FirstFailingRule(fs[k])
      case Some(r) => fs[k].parent in after && after[fs[k].parent] == Feedback(Message(r), true)
      case None => fs[k].parent in after ==> !after[fs[k].parent].shown
    decreases |fs|
  {
    var init := fs[..|fs| - 1];
    if k < |fs| - 1 {
      assert init[k] == fs[k];
      forall j | k < j < |init| ensures init[j].parent != init[k].parent {
        assert init[j] == fs[j];
      }
      LastFieldDecidesFeedback(fb, init, k);
    }
  }

  class FormValidator {
    /** The form's controls in document order. */
    var fields: seq<Field>
    /** The `.invalid-feedback` element under each parent that has one. */
    var feedback: map<nat, Feedback>
    /** The form's submit button, if it has one. */
    var button: Option<SubmitButton>
    const originalButtonText: string
    var notifications: seq<Notification>
    var redirects: seq<Redirect>

    constructor (fields: seq<Field>, feedback: map<nat, Feedback>, button: Option<SubmitButton>)
      ensures this.fields == fields && this.feedback == feedback && this.button == button
      ensures originalButtonText == if button.Some? then LabelText(button.value.caption) else ""
      ensures notifications == [] && redirects == []
    {
      this.fields := fields;
      this.feedback := feedback;
      this.button := button;
      originalButtonText := if button.Some? then LabelText(button.value.caption) else "";
      notifications := [];
      redirects := [];
    }

    /** `clearError`: drop the field's mark and hide its parent's feedback. */
    method ClearError(i: nat)
      requires i < |fields|
      modifies this`fields, this`feedback
      ensures fields == old(fields)[i := old(fields[i]).(invalid := false)]
      ensures var p := old(fields[i]).parent;
        feedback == if p in old(feedback) then old(feedback)[p := old(feedback)[p].(shown := false)]
                    else old(feedback)
    {
      fields := fields[i := fields[i].(invalid := false)];
      var p := fields[i].parent;
      if p in feedback {
        feedback := feedback[p := feedback[p].(shown := false)];
      }
    }

    /** `showError`: mark the field and show `message` in its parent's
        feedback element, creating that element only if there is none. */
    method ShowError(i: nat, message: string)
      requires i < |fields|
      modifies this`fields, this`feedback
      ensures fields == old(fields)[i := old(fields[i]).(invalid := true)]
      ensures feedback == old(feedback)[old(fields[i]).parent := Feedback(message, true)]
    {
      fields := fields[i := fields[i].(invalid := true)];
      feedback := feedback[fields[i].parent := Feedback(message, true)];
    }

    /** `validateField`: clear the field's error, then report the first
        failing rule. Returns true exactly when no rule fails; the field is
        then marked invalid exactly when it returned false. */
    method ValidateField(i: nat) returns (ok: bool)
      requires i < |fields|
      modifies this`fields, this`feedback
      ensures ok <==> FirstFailingRule(old(fields[i])) == None
      ensures fields == old(fields)[i := Marked(old(fields[i]))]
      ensures fields[i].invalid <==> !ok
      ensures feedback == FeedbackAfter(old(feedback), old(fields[i]))
    {
      ClearError(i);
      VerdictIgnoresMark(old(fields[i]), false);
      var failure := FirstFailingRule(fields[i]);
      if failure.Some? {
        ShowError(i, Message(failure.value));
        ok := false;
      } else {
        ok := true;
      }
    }

    /** `validateForm`: validate every field, without stopping at the first
        failure, and return whether all of them passed. */
    method ValidateForm() returns (valid: bool)
      modifies this`fields, this`feedback
      ensures valid <==> AllPass(old(fields))
      ensures |fields| == |old(fields)|
      ensures forall k :: 0 <= k < |fields| ==> fields[k] == Marked(old(fields[k]))
      ensures feedback == FeedbackAfterAll(old(feedback), old(fields))
    {
      valid := true;
      var i := 0;
      while i < |fields|
        invariant 0 <= i <= |fields| == |old(fields)|
        invariant forall k :: 0 <= k < i ==> fields[k] == Marked(old(fields[k]))
        invariant forall k :: i <= k < |fields| ==> fields[k] == old(fields[k])
        invariant valid <==> AllPass(old(fields)[..i])
        invariant feedback == FeedbackAfterAll(old(feedback), old(fields)[..i])
      {
        var ok := ValidateField(i);
        if !ok {
          valid := false;
        }
        assert old(fields)[..i + 1][..i] == old(fields)[..i];
        i := i + 1;
      }
      assert old(fields)[..i] == old(fields);
    }

    /** `disableSubmit`: disable the button and show the sending spinner. */
    method DisableSubmit()
      modifies this`button
      ensures button == if old(button).Some? then Some(SubmitButton(true, Sending)) else None
    {
      if button.Some? {
        button := Some(SubmitButton(true, Sending));
      }
    }

    /** `enableSubmit`: enable the button and restore its original text.
        No code path of the page calls it, so once `Submit` has disabled
        the button nothing re-enables it. */
    method EnableSubmit()
      modifies this`button
      ensures button == if old(button).Some? then Some(SubmitButton(false, Text(originalButtonText))) else None
    {
      if button.Some? {
        button := Some(SubmitButton(false, Text(originalButtonText)));
      }
    }

    /** `handleSubmit`: with any field failing, exactly one error
        notification and the button untouched; with all passing, the button
        disabled and exactly one redirect to the confirmation page. */
    method Submit()
      modifies this`fields, this`feedback, this`button, this`notifications, this`redirects
      ensures |fields| == |old(fields)|
      ensures forall k :: 0 <= k < |fields| ==> fields[k] == Marked(old(fields[k]))
      ensures feedback == FeedbackAfterAll(old(feedback), old(fields))
      ensures !AllPass(old(fields)) ==>
        && notifications == old(notifications) + [Notification(CheckInputsMessage, "error")]
        && button == old(button) && redirects == old(redirects)
      ensures AllPass(old(fields)) ==>
        && redirects == old(redirects) + [Redirect(ConfirmationPage, RedirectDelayMs)]
        && button == (if old(button).Some? then Some(SubmitButton(true, Sending)) else None)
        && notifications == old(notifications)
    {
      var valid := ValidateForm();
      if !valid {
        notifications := notifications + [Notification(CheckInputsMessage, "error")];
        return;
      }
      DisableSubmit();
      redirects := redirects + [Redirect(ConfirmationPage, RedirectDelayMs)];
    }

    /** The `blur` listener: validate the field. */
    method OnBlur(i: nat)
      requires i < |fields|
      modifies this`fields, this`feedback
      ensures fields == old(fields)[i := Marked(old(fields[i]))]
      ensures feedback == FeedbackAfter(old(feedback), old(fields[i]))
    {
      var _ := ValidateField(i);
    }

    /** The `input` listener, after the browser has stored the control's new
        `value` and `checked` state (typing changes the one, ticking a
        checkbox the other): the field is validated again only if it is
        marked invalid. */
    method OnInput(i: nat, value: string, checked: bool)
      requires i < |fields|
      modifies this`fields, this`feedback
      ensures var typed := old(fields[i]).(value := value, checked := checked);
        if typed.invalid then
          fields == old(fields)[i := Marked(typed)] && feedback == FeedbackAfter(old(feedback), typed)
        else
          fields == old(fields)[i := typed] && feedback == old(feedback)
    {
      fields := fields[i := fields[i].(value := value, checked := checked)];
      if fields[i].invalid {
        var _ := ValidateField(i);
      }
    }
  }

  /** Ticking a required consent box that is marked invalid re-validates
      it: the mark goes and its feedback element is hidden. */
  method TickConsent(v: FormValidator, i: nat)
    requires i < |v.fields|
    requires v.fields[i].kind == "checkbox" && v.fields[i].required && v.fields[i].invalid
    requires !IsBlank(v.fields[i].value)
    requires v.fields[i].id != "firstName" && v.fields[i].id != "lastName" && v.fields[i].id != "message"
    modifies v
    ensures |v.fields| == old(|v.fields|)
    ensures v.fields[i].checked && !v.fields[i].invalid
    ensures v.fields[i].parent in v.feedback ==> !v.feedback[v.fields[i].parent].shown
  {
    v.OnInput(i, v.fields[i].value, true);
  }
}
