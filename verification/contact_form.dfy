/** The contact form's submit handler and its validation feedback. Each form
    control is reduced to what the handler reads and writes: whether the
    browser's constraint validation finds it valid, whether it carries the
    `error` class, how many `.error-message` elements its parent holds, and
    how many `input` listeners the handler has attached to it. Each control
    is taken to have a parent element of its own, and the form to hold no
    `<fieldset>`, so that `:invalid` matches exactly the invalid controls. */
module ContactForm {
  import opened Common

  datatype Field = Field(valid: bool, hasError: bool, errorMessages: nat, inputListeners: nat)

  /** The form as the handlers see it. `banner` is the single `.form-error`
      element (created once, so appending it again only moves it); `focus` is
      the control last given focus by the handler; `sending` counts the
      submissions whose outcome has not arrived yet. */
  datatype FormState = FormState(
    fields: seq<Field>,
    banner: bool,
    focus: Option<nat>,
    formShown: bool,
    hasThankYou: bool,
    thankYouShown: bool,
    sending: nat)

  /** `contactForm.checkValidity()`. */
  predicate CheckValidity(fields: seq<Field>)
  {
    forall i :: 0 <= i < |fields| ==> fields[i].valid
  }

  /** What `showValidationErrors` does to one invalid control: add `error`,
      remove the old `.error-message` if any, append a new one, and attach
      another `input` listener. */
  function Flag(f: Field): Field
  {
    f.(hasError := true,
       errorMessages := (if f.errorMessages > 0 then f.errorMessages - 1 else 0) + 1,
       inputListeners := f.inputListeners + 1)
  }

  /** `showValidationErrors` over all controls: the invalid ones are flagged,
      the valid ones are left alone. */
  function ShowValidationErrors(fields: seq<Field>): (r: seq<Field>)
    ensures |r| == |fields|
    ensures forall i :: 0 <= i < |r| ==> r[i] == if fields[i].valid then fields[i] else Flag(fields[i])
    decreases |fields|
  {
    if fields == [] then []
    else [if fields[0].valid then fields[0] else Flag(fields[0])] + ShowValidationErrors(fields[1..])
  }

  /** `invalidFields[0]`: the first invalid control in document order, for a
      form with no `<fieldset>` (so `:invalid` matches only controls). */
  function FirstInvalid(fields: seq<Field>): (r: Option<nat>)
    ensures r.None? <==> CheckValidity(fields)
    ensures r.Some? ==> r.value < |fields| && !fields[r.value].valid
    ensures r.Some? ==> forall j :: 0 <= j < r.value ==> fields[j].valid
    decreases |fields|
  {
    if fields == [] then None
    else if !fields[0].valid then Some(0)
    else match FirstInvalid(fields[1..])
      case None => None
      case Some(k) => Some(k + 1)
  }

  /** The user edits a control so that its validity becomes `valid`. Each
      listener the handler attached removes one `.error-message` and the
      `error` class when the control is now valid. */
  function Input(f: Field, valid: bool): Field
  {
    if valid && f.inputListeners > 0 then
      f.(valid := true,
         hasError := false,
         errorMessages := if f.errorMessages >= f.inputListeners then f.errorMessages - f.inputListeners else 0)
    else f.(valid := valid)
  }

  /** `contactForm.reset()`: the values go back to their defaults, which
      changes validity to `validity`; classes and messages stay. */
  function Reset(fields: seq<Field>, validity: seq<bool>): seq<Field>
    requires |validity| == |fields|
  {
    seq(|fields|, i requires 0 <= i < |fields| => fields[i].(valid := validity[i]))
  }

  /** The submit listener: drop the old banner; then either flag the invalid
      controls and focus the first one, or send the form. */
  function Submit(s: FormState): FormState
  {
    var s' := s.(banner := false);
    if CheckValidity(s.fields) then s'.(sending := s.sending + 1)
    else s'.(fields := ShowValidationErrors(s.fields), focus := FirstInvalid(s.fields))
  }

  /** A pending submission settles: on success the form is hidden, the
      thank-you message shown if the page has one, and the form reset; on
      failure the banner is appended. */
  function Settle(s: FormState, success: bool, resetValidity: seq<bool>): FormState
    requires s.sending > 0 && |resetValidity| == |s.fields|
  {
    var s' := s.(sending := s.sending - 1);
    if success then
      s'.(formShown := false, thankYouShown := s.hasThankYou || s.thankYouShown,
          fields := Reset(s.fields, resetValidity))
    else s'.(banner := true)
  }

  /** The handler's bookkeeping for one control stays sane: at most one
      `.error-message`, and none and no `error` class before the first
      listener is attached. */
  predicate FieldOk(f: Field)
  {
    f.errorMessages <= 1 && (f.inputListeners == 0 ==> !f.hasError && f.errorMessages == 0)
  }

  predicate AllFieldsOk(fields: seq<Field>)
  {
    forall i :: 0 <= i < |fields| ==> FieldOk(fields[i])
  }

  /** No valid control carries `error`. */
  predicate ErrorsOnlyOnInvalid(fields: seq<Field>)
  {
    forall i :: 0 <= i < |fields| ==> fields[i].valid ==> !fields[i].hasError
  }

  /** After a submission that fails validation: the banner is gone, nothing
      was sent, every invalid control carries `error` and exactly one
      `.error-message`, valid controls are untouched, and focus is on the
      first invalid control. If no valid control carried `error` before,
      exactly the invalid controls carry it after. */
  lemma FailedValidationFeedback(s: FormState)
    requires !CheckValidity(s.fields) && AllFieldsOk(s.fields)
    ensures var r := Submit(s);
      !r.banner && r.sending == s.sending && r.formShown == s.formShown &&
      |r.fields| == |s.fields| &&
      (forall i :: 0 <= i < |s.fields| && !s.fields[i].valid ==>
        r.fields[i].hasError && r.fields[i].errorMessages == 1) &&
      (forall i :: 0 <= i < |s.fields| && s.fields[i].valid ==> r.fields[i] == s.fields[i]) &&
      r.focus.Some? && r.focus.value < |s.fields| && !s.fields[r.focus.value].valid &&
      (forall j :: 0 <= j < r.focus.value ==> s.fields[j].valid)
    ensures ErrorsOnlyOnInvalid(s.fields) ==>
      forall i :: 0 <= i < |s.fields| ==> (Submit(s).fields[i].hasError <==> !Submit(s).fields[i].valid)
  {
  }

  /** A submission that passes validation sends once and leaves the controls
      alone. When nothing else is pending, its outcome is exactly one of: the
      form hidden with the thank-you message shown (no banner), or the single
      banner with the form and its data left in place for a retry. */
  lemma ValidSubmissionOutcome(s: FormState, success: bool, resetValidity: seq<bool>)
    requires CheckValidity(s.fields) && s.sending == 0 && s.formShown
    requires |resetValidity| == |s.fields|
    ensures Submit(s).sending == 1 && Submit(s).fields == s.fields && !Submit(s).banner
    ensures var r := Settle(Submit(s), success, resetValidity);
      r.sending == 0 &&
      (success ==> !r.formShown && !r.banner && (r.thankYouShown <==> s.hasThankYou || s.thankYouShown)) &&
      (!success ==> r.formShown && r.banner && r.fields == s.fields)
  {
  }

  /** Editing a control into validity clears its feedback, provided the
      handler had attached a listener; an untouched control has none. */
  lemma InputClearsFeedback(f: Field)
    requires FieldOk(f)
    ensures !Input(f, true).hasError && Input(f, true).errorMessages == 0
    ensures FieldOk(Input(f, true)) && Input(f, true).valid
  {
  }

  datatype FormEvent =
    | SubmitEvent
    | InputEvent(index: nat, valid: bool)
    | Settled(success: bool, resetValidity: seq<bool>)

  /** One event; an input on a control the form does not have, or an outcome
      with no submission pending, cannot happen and changes nothing. */
  function Step(s: FormState, e: FormEvent): (r: FormState)
    ensures |r.fields| == |s.fields|
  {
    match e
    case SubmitEvent => Submit(s)
    case InputEvent(i, v) =>
      if i < |s.fields| then s.(fields := s.fields[i := Input(s.fields[i], v)]) else s
    case Settled(ok, rv) =>
      if s.sending > 0 && |rv| == |s.fields| then Settle(s, ok, rv) else s
  }

  function Run(s: FormState, events: seq<FormEvent>): FormState
    decreases |events|
  {
    if events == [] then s else Run(Step(s, events[0]), events[1..])
  }

  lemma StepKeepsFieldsOk(s: FormState, e: FormEvent)
    requires AllFieldsOk(s.fields)
    ensures AllFieldsOk(Step(s, e).fields)
  {
    match e
    case SubmitEvent =>
    case InputEvent(i, v) =>
      if i < |s.fields| {
        assert FieldOk(Input(s.fields[i], v));
      }
    case Settled(ok, rv) =>
  }

  /** Submitting, editing and a failed send never leave `error` on a valid
      control. Only the reset after a successful send, which changes validity
      without firing `input`, can. */
  lemma ErrorsStayOnInvalid(s: FormState, e: FormEvent)
    requires AllFieldsOk(s.fields) && ErrorsOnlyOnInvalid(s.fields) && !(e.Settled? && e.success)
    ensures ErrorsOnlyOnInvalid(Step(s, e).fields)
  {
  }

  /** Whatever the user does, every control's parent holds at most one
      `.error-message`: each new one replaces the old. */
  lemma {:induction false} AtMostOneMessageEver(s: FormState, events: seq<FormEvent>)
    requires AllFieldsOk(s.fields)
    ensures AllFieldsOk(Run(s, events).fields)
    ensures forall i :: 0 <= i < |Run(s, events).fields| ==> Run(s, events).fields[i].errorMessages <= 1
    decreases |events|
  {
    if events != [] {
      StepKeepsFieldsOk(s, events[0]);
      AtMostOneMessageEver(Step(s, events[0]), events[1..]);
    }
  }

  /** A successful send resets the controls without firing `input`: each one
      takes its reset validity but keeps its `error` class, its message and
      its listeners. A control that carried `error` and is valid after the
      reset leaves `error` on a valid control. */
  lemma ResetKeepsFeedback(s: FormState, rv: seq<bool>, i: nat)
    requires s.sending > 0 && |rv| == |s.fields| && i < |s.fields|
    ensures var r := Step(s, Settled(true, rv));
      r.fields[i].valid == rv[i] && r.fields[i].hasError == s.fields[i].hasError &&
      r.fields[i].errorMessages == s.fields[i].errorMessages &&
      r.fields[i].inputListeners == s.fields[i].inputListeners
    ensures s.fields[i].hasError && rv[i] ==> !ErrorsOnlyOnInvalid(Step(s, Settled(true, rv)).fields)
  {
  }

  /** This happens from a freshly loaded one-control form. The user submits
      a valid form, edits the control into invalidity while the send is
      pending, and submits again, which flags it. The first send then
      succeeds, and the reset makes the control valid again with `error`
      and its message still in place. */
  lemma ResetAfterResubmitLeavesError()
    ensures var s0 := FormState([Field(true, false, 0, 0)], false, None, true, false, false, 0);
      var r := Run(s0, [SubmitEvent, InputEvent(0, false), SubmitEvent, Settled(true, [true])]);
      AllFieldsOk(s0.fields) && ErrorsOnlyOnInvalid(s0.fields) &&
      r.fields == [Field(true, true, 1, 1)] && !r.formShown
  {
    var s0 := FormState([Field(true, false, 0, 0)], false, None, true, false, false, 0);
    var s1 := Step(s0, SubmitEvent);
    assert s1.sending == 1 && s1.fields == s0.fields;
    var s2 := Step(s1, InputEvent(0, false));
    assert s2.fields == [Field(false, false, 0, 0)];
    var s3 := Step(s2, SubmitEvent);
    assert s3.fields == [Field(false, true, 1, 1)] && s3.sending == 1;
    var s4 := Step(s3, Settled(true, [true]));
    assert s4.fields == [Field(true, true, 1, 1)];
    assert Run(s0, [SubmitEvent, InputEvent(0, false), SubmitEvent, Settled(true, [true])]) == s4 by {
      assert [SubmitEvent, InputEvent(0, false), SubmitEvent, Settled(true, [true])][1..]
        == [InputEvent(0, false), SubmitEvent, Settled(true, [true])];
      assert [InputEvent(0, false), SubmitEvent, Settled(true, [true])][1..]
        == [SubmitEvent, Settled(true, [true])];
      assert [SubmitEvent, Settled(true, [true])][1..] == [Settled(true, [true])];
    }
  }

  /** The form and the page elements the handlers update in place. */
  class ContactFormController {
    const fields: array<Field>
    const hasThankYou: bool
    var banner: bool
    var focus: Option<nat>
    var formShown: bool
    var thankYouShown: bool
    var sending: nat

    function State(): FormState
      reads this, fields
    {
      FormState(fields[..], banner, focus, formShown, hasThankYou, thankYouShown, sending)
    }

    /** `initContactForm` on a freshly loaded page whose controls have the
        given validity. */
    constructor (validity: seq<bool>, hasThankYou: bool)
      ensures fresh(fields)
      ensures State() == FormState(seq(|validity|, i requires 0 <= i < |validity| => Field(validity[i], false, 0, 0)),
                                   false, None, true, hasThankYou, false, 0)
    {
      fields := new Field[|validity|](i requires 0 <= i < |validity| => Field(validity[i], false, 0, 0));
      this.hasThankYou := hasThankYou;
      banner, focus, formShown, thankYouShown, sending := false, None, true, false, 0;
    }

    /** The `submit` listener; `sent` says whether the form data went out. */
    method OnSubmit() returns (sent: bool)
      modifies this, fields
      ensures sent == CheckValidity(old(fields[..]))
      ensures State() == Submit(old(State()))
    {
      banner := false;
      sent := CheckValidity(fields[..]);
      if !sent {
        ShowValidationErrorsInPlace();
        return;
      }
      sending := sending + 1;
    }

    /** `showValidationErrors(contactForm)`, in place. */
    method ShowValidationErrorsInPlace()
      requires !CheckValidity(fields[..])
      modifies this, fields
      ensures fields[..] == ShowValidationErrors(old(fields[..]))
      ensures focus == FirstInvalid(old(fields[..]))
      ensures banner == old(banner) && formShown == old(formShown)
      ensures thankYouShown == old(thankYouShown) && sending == old(sending)
    {
      var first: Option<nat> := None;
      for i := 0 to fields.Length
        modifies fields
        invariant forall k :: 0 <= k < i ==>
          fields[k] == if old(fields[k]).valid then old(fields[k]) else Flag(old(fields[k]))
        invariant forall k :: i <= k < fields.Length ==> fields[k] == old(fields[k])
        invariant first == FirstInvalid(old(fields[..])[..i])
      {
        FirstInvalidExtend(old(fields[..]), i);
        var f := fields[i];
        if !f.valid {
          var messages := f.errorMessages;
          if messages > 0 {
            messages := messages - 1;
          }
          messages := messages + 1;
          fields[i] := f.(hasError := true, errorMessages := messages, inputListeners := f.inputListeners + 1);
          if first.None? {
            first := Some(i);
          }
        }
      }
      assert old(fields[..])[..fields.Length] == old(fields[..]);
      focus := first;
    }

    /** The `input` listeners of control `i` after an edit. */
    method OnFieldInput(i: nat, valid: bool)
      requires i < fields.Length
      modifies fields
      ensures fields[..] == old(fields[..])[i := Input(old(fields[i]), valid)]
      ensures State() == Step(old(State()), InputEvent(i, valid))
    {
      var f := fields[i];
      if valid && f.inputListeners > 0 {
        // the browser runs the attached listeners one after another
        var messages := f.errorMessages;
        var k := 0;
        while k < f.inputListeners
          invariant 0 <= k <= f.inputListeners
          invariant messages == if f.errorMessages >= k then f.errorMessages - k else 0
        {
          if messages > 0 {
            messages := messages - 1;
          }
          k := k + 1;
        }
        fields[i] := f.(valid := true, hasError := false, errorMessages := messages);
      } else {
        fields[i] := f.(valid := valid);
      }
    }

    /** The settled promise of a pending submission. */
    method OnSendSettled(success: bool, resetValidity: seq<bool>)
      requires sending > 0 && |resetValidity| == fields.Length
      modifies this, fields
      ensures State() == Settle(old(State()), success, resetValidity)
    {
      sending := sending - 1;
      if success {
        formShown := false;
        if hasThankYou {
          thankYouShown := true;
        }
        for i := 0 to fields.Length
          modifies fields
          invariant forall k :: 0 <= k < i ==> fields[k] == old(fields[k]).(valid := resetValidity[k])
          invariant forall k :: i <= k < fields.Length ==> fields[k] == old(fields[k])
        {
          fields[i] := fields[i].(valid := resetValidity[i]);
        }
      } else {
        banner := true;
      }
    }
  }

  /** Extending the scanned prefix by one control keeps the first invalid
      one, or finds it at the new position. */
  lemma FirstInvalidExtend(fields: seq<Field>, i: nat)
    requires i < |fields|
    ensures FirstInvalid(fields[..i + 1]) ==
      if FirstInvalid(fields[..i]).None? && !fields[i].valid then Some(i) else FirstInvalid(fields[..i])
  {
    assert forall k :: 0 <= k < i ==> fields[..i][k] == fields[..i + 1][k] == fields[k];
    assert fields[..i + 1][i] == fields[i];
  }
}
