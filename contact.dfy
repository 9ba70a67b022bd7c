/**
 * The contact form: four controlled fields, focus tracking, and the submit
 * handler's transitions of `isSubmitting`, `submitStatus` and `formData`
 * for the three outcomes of the network request (a response that is ok, a
 * response that is not ok, a thrown error). The request itself is not
 * modelled; its outcome is an input.
 */
module Contact {
  import opened Wrappers

  /** The inputs of the form, by their `name` attribute. */
  datatype Field = Name | Email | Subject | Message

  datatype FormData = FormData(name: string, email: string, subject: string, message: string)

  const EmptyForm: FormData := FormData("", "", "", "")

  /** The status banner: `'success'` or `'error'`; absent is `null`. */
  datatype Status = Success | Error

  /** How the request ends: a response with `ok`, a response without it, or an exception. */
  datatype Outcome = Ok | NotOk | Thrown

  /** The delay, in milliseconds, after which a status is cleared (time itself is not modelled). */
  const StatusResetDelay: nat := 5000

  function Get(f: FormData, field: Field): string
  {
    match field
    case Name => f.name
    case Email => f.email
    case Subject => f.subject
    case Message => f.message
  }

  /** The spread update of `handleChange`: the named field takes the new value, the other three are kept. */
  function WithField(f: FormData, field: Field, value: string): (r: FormData)
    ensures Get(r, field) == value
    ensures forall g :: g != field ==> Get(r, g) == Get(f, g)
  {
    match field
    case Name => f.(name := value)
    case Email => f.(email := value)
    case Subject => f.(subject := value)
    case Message => f.(message := value)
  }

  /** A form is determined by its four fields. */
  lemma FieldsDetermineForm(f: FormData, h: FormData)
    requires forall g :: Get(f, g) == Get(h, g)
    ensures f == h
  {
    assert Get(f, Name) == Get(h, Name) && Get(f, Email) == Get(h, Email);
    assert Get(f, Subject) == Get(h, Subject) && Get(f, Message) == Get(h, Message);
  }

  /** Writing a field its current value changes nothing. */
  lemma WithFieldUnchanged(f: FormData, field: Field)
    ensures WithField(f, field, Get(f, field)) == f
  {
    FieldsDetermineForm(WithField(f, field, Get(f, field)), f);
  }

  /** A second write to the same field overrides the first. */
  lemma WithFieldOverrides(f: FormData, field: Field, v: string, w: string)
    ensures WithField(WithField(f, field, v), field, w) == WithField(f, field, w)
  {
    FieldsDetermineForm(WithField(WithField(f, field, v), field, w), WithField(f, field, w));
  }

  /** Writes to different fields commute. */
  lemma WithFieldCommutes(f: FormData, a: Field, v: string, b: Field, w: string)
    requires a != b
    ensures WithField(WithField(f, a, v), b, w) == WithField(WithField(f, b, w), a, v)
  {
    FieldsDetermineForm(WithField(WithField(f, a, v), b, w), WithField(WithField(f, b, w), a, v));
  }

  /** Every field of the form is `required`: the browser submits only when none is empty. */
  predicate AllFilled(f: FormData)
  {
    forall g :: Get(f, g) != ""
  }

  /** The form as reset after a successful send cannot pass the `required` checks. */
  lemma EmptyFormNotFilled()
    ensures !AllFilled(EmptyForm)
  {
    assert Get(EmptyForm, Name) == "";
  }

  /** After an edit, the form passes the `required` checks exactly when the new value and the other three fields are non-empty. */
  lemma WithFieldFilled(f: FormData, field: Field, value: string)
    ensures AllFilled(WithField(f, field, value)) <==> value != "" && forall g :: g != field ==> Get(f, g) != ""
  {
    var r := WithField(f, field, value);
    if !AllFilled(r) {
      var g :| Get(r, g) == "";
      if g != field {
        assert Get(f, g) == "";
      }
    }
  }

  class ContactForm {
    var formData: FormData
    var focusedField: Option<Field>
    var isSubmitting: bool
    var submitStatus: Option<Status>
    /** Requests sent and not yet settled. */
    var inFlight: nat
    /** Status-clearing timeouts scheduled and not yet fired. */
    var pendingResets: nat
    /** The form contents of every request sent so far. */
    ghost var sent: seq<FormData>

    ghost predicate Valid()
      reads this
    {
      inFlight <= 1 && (inFlight == 1 ==> isSubmitting)
    }

    /** The submit button is disabled while a submission is in progress. */
    predicate ButtonDisabled()
      reads this
    {
      isSubmitting
    }

    /** The form can never be submitted again: the button is disabled and no request is left to re-enable it. */
    predicate Stuck()
      reads this
    {
      isSubmitting && inFlight == 0
    }

    /** Mounting: empty fields, nothing focused, not submitting, no status. */
    constructor ()
      ensures Valid() && formData == EmptyForm && focusedField == None
      ensures !isSubmitting && submitStatus == None && inFlight == 0 && pendingResets == 0 && sent == []
    {
      formData, focusedField := EmptyForm, None;
      isSubmitting, submitStatus := false, None;
      inFlight, pendingResets := 0, 0;
      sent := [];
    }

    /** `handleChange`: the edited field takes the typed value; nothing else changes. */
    method HandleChange(field: Field, value: string)
      requires Valid()
      modifies this
      ensures Valid() && formData == WithField(old(formData), field, value)
      ensures Get(formData, field) == value && forall g :: g != field ==> Get(formData, g) == Get(old(formData), g)
      ensures focusedField == old(focusedField) && isSubmitting == old(isSubmitting) && submitStatus == old(submitStatus)
      ensures inFlight == old(inFlight) && pendingResets == old(pendingResets) && sent == old(sent)
      ensures old(Stuck()) ==> Stuck()
    {
      formData := WithField(formData, field, value);
    }

    /** `onFocus` of a field. */
    method Focus(field: Field)
      requires Valid()
      modifies this
      ensures Valid() && focusedField == Some(field)
      ensures formData == old(formData) && isSubmitting == old(isSubmitting) && submitStatus == old(submitStatus)
      ensures inFlight == old(inFlight) && pendingResets == old(pendingResets) && sent == old(sent)
      ensures old(Stuck()) ==> Stuck()
    {
      focusedField := Some(field);
    }

    /** `onBlur` of a field. */
    method Blur()
      requires Valid()
      modifies this
      ensures Valid() && focusedField == None
      ensures formData == old(formData) && isSubmitting == old(isSubmitting) && submitStatus == old(submitStatus)
      ensures inFlight == old(inFlight) && pendingResets == old(pendingResets) && sent == old(sent)
      ensures old(Stuck()) ==> Stuck()
    {
      focusedField := None;
    }

    /**
     * Pressing the submit button. The browser runs `handleSubmit` only when
     * the button is enabled and the form passes its constraint checks: every
     * field filled and, for the email input, a well-formed address
     * (`emailAccepted`, decided by the browser). `handleSubmit` then sets
     * `isSubmitting` and sends the form; `submitted` tells whether it ran.
     */
    method Submit(emailAccepted: bool) returns (submitted: bool)
      requires Valid()
      modifies this
      ensures Valid()
      ensures submitted <==> !old(isSubmitting) && AllFilled(old(formData)) && emailAccepted
      ensures submitted ==> isSubmitting && inFlight == 1 && sent == old(sent) + [old(formData)]
      ensures !submitted ==> isSubmitting == old(isSubmitting) && inFlight == old(inFlight) && sent == old(sent)
      ensures formData == old(formData) && focusedField == old(focusedField) && submitStatus == old(submitStatus)
      ensures pendingResets == old(pendingResets)
      ensures old(Stuck()) ==> Stuck() && !submitted
    {
      submitted := !ButtonDisabled() && AllFilled(formData) && emailAccepted;
      if submitted {
        isSubmitting := true;
        inFlight := 1;
        sent := sent + [formData];
      }
    }

    /**
     * The request settles. An ok response clears `isSubmitting`, shows
     * success, empties the form and schedules the status reset; a thrown
     * error clears `isSubmitting`, shows the error and schedules the reset,
     * keeping the form; a response that is not ok does nothing, so
     * `isSubmitting` stays set and the form is stuck.
     */
    method Settle(outcome: Outcome)
      requires Valid() && inFlight == 1
      modifies this
      ensures Valid() && inFlight == 0
      ensures outcome == Ok ==> !isSubmitting && submitStatus == Some(Success) && formData == EmptyForm
      ensures outcome == Thrown ==> !isSubmitting && submitStatus == Some(Error) && formData == old(formData)
      ensures outcome == NotOk ==> isSubmitting && submitStatus == old(submitStatus) && formData == old(formData)
      ensures pendingResets == old(pendingResets) + (if outcome == NotOk then 0 else 1)
      ensures Stuck() <==> outcome == NotOk
      ensures focusedField == old(focusedField) && sent == old(sent)
    {
      inFlight := 0;
      match outcome
      case Ok =>
        isSubmitting := false;
        submitStatus := Some(Success);
        formData := EmptyForm;
        pendingResets := pendingResets + 1;
      case NotOk =>
      case Thrown =>
        isSubmitting := false;
        submitStatus := Some(Error);
        pendingResets := pendingResets + 1;
    }

    /** A 5000 ms timeout fires: the status banner is cleared, whichever status is showing. */
    method FireStatusReset()
      requires Valid() && pendingResets > 0
      modifies this
      ensures Valid() && submitStatus == None && pendingResets == old(pendingResets) - 1
      ensures formData == old(formData) && focusedField == old(focusedField) && isSubmitting == old(isSubmitting)
      ensures inFlight == old(inFlight) && sent == old(sent)
      ensures old(Stuck()) ==> Stuck()
    {
      submitStatus := None;
      pendingResets := pendingResets - 1;
    }
  }
}
