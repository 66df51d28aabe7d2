/**
 * The client-side post-creation form: a mutable store of the three field
 * values, the issues of the last submit-time validation, a submitting flag
 * and the toast shown to the user. Submitting runs the schema; only
 * accepted values reach the create call, whose outcome decides the toast
 * and whether the fields are reset.
 */
module ClientForm {
  import opened Wrappers
  import opened Post
  import opened Validation

  /** How the create call ends: a result without `error`, a result whose
      `error` carries a message, or an exception. */
  datatype CreateOutcome = Created | Rejected(message: string) | Threw

  /** The toast, which every stage of a submission replaces. */
  datatype Notice = Quiet | Loading(text: string) | Succeeded(text: string) | Failed(text: string)

  const PublishingText := "Publishing your story..."
  const PublishedText := "Post published successfully!"
  const GenericFailureText := "Something went wrong. Please try again."

  /** The toast once the create call has settled: the remote message
      verbatim on a rejection, a fixed generic text on an exception. */
  function SettledNotice(outcome: CreateOutcome): (n: Notice)
    ensures n.Succeeded? <==> outcome.Created?
    ensures outcome.Created? ==> n.text == PublishedText
    ensures outcome.Rejected? ==> n == Failed(outcome.message)
    ensures outcome.Threw? ==> n == Failed(GenericFailureText)
  {
    match outcome
    case Created => Succeeded(PublishedText)
    case Rejected(message) => Failed(message)
    case Threw => Failed(GenericFailureText)
  }

  /** Some issue in `issues` concerns `field`. */
  predicate HasIssue(issues: seq<Issue>, field: Field) {
    exists i :: i in issues && i.field == field
  }

  /** The issues left once a change to `field` has dropped that field's
      submit-time issues; those of the other fields stay, in order. */
  function WithoutField(issues: seq<Issue>, field: Field): (r: seq<Issue>)
    ensures |r| <= |issues|
    ensures forall k :: 0 <= k < |r| ==> r[k].field != field
  {
    if issues == [] then []
    else if issues[0].field == field then WithoutField(issues[1..], field)
    else [issues[0]] + WithoutField(issues[1..], field)
  }

  /** An issue survives a change to `field` exactly when it was outstanding
      and concerns another field. */
  lemma {:induction false} WithoutFieldMembers(issues: seq<Issue>, field: Field, i: Issue)
    ensures i in WithoutField(issues, field) <==> i in issues && i.field != field
  {
    if issues != [] {
      WithoutFieldMembers(issues[1..], field, i);
      assert issues == [issues[0]] + issues[1..];
    }
  }

  /** A change to a field without issues leaves the issues as they are. */
  lemma {:induction false} WithoutFieldUntouched(issues: seq<Issue>, field: Field)
    requires !HasIssue(issues, field)
    ensures WithoutField(issues, field) == issues
  {
    if issues != [] {
      assert issues[0] in issues;
      assert !HasIssue(issues[1..], field) by {
        forall i | i in issues[1..] ensures i.field != field {
          assert i in issues;
        }
      }
      WithoutFieldUntouched(issues[1..], field);
      assert issues == [issues[0]] + issues[1..];
    }
  }

  class CreateBlogForm {
    var title: string
    var content: string
    var tags: string
    /** The issues found by the last submit-time validation that no change
        has dropped yet. */
    var errors: seq<Issue>
    var isSubmitting: bool
    var notice: Notice

    function Values(): Draft
      reads this
    {
      Draft(title, content, tags)
    }

    /** `canSubmit`: no submission is in flight and no field shows an
        outstanding issue. */
    predicate CanSubmit(): (b: bool)
      reads this
      ensures b <==> !isSubmitting && forall f: Field :: !HasIssue(errors, f)
    {
      assert errors != [] ==> errors[0] in errors && HasIssue(errors, errors[0].field);
      errors == [] && !isSubmitting
    }

    /** The publish button's `disabled` attribute: some field shows an
        issue, or a submission is in flight. */
    predicate SubmitDisabled(): (b: bool)
      reads this
      ensures b <==> isSubmitting || exists f: Field :: HasIssue(errors, f)
    {
      !CanSubmit() || isSubmitting
    }

    /** A fresh form holds the default values and nothing else. */
    constructor ()
      ensures Values() == EmptyDraft
      ensures errors == [] && !isSubmitting && notice == Quiet
    {
      title, content, tags := "", "", "";
      errors, isSubmitting, notice := [], false, Quiet;
    }

    /** A field's change handler: the field takes the typed value, the
        others keep theirs, and the submit-time issues of that field are
        dropped while those of the other fields stay. */
    method Change(field: Field, value: string)
      modifies this
      ensures Values() == WithField(old(Values()), field, value)
      ensures errors == WithoutField(old(errors), field) && !HasIssue(errors, field)
      ensures isSubmitting == old(isSubmitting) && notice == old(notice)
    {
      match field {
        case TitleField => title := value;
        case ContentField => content := value;
        case TagsField => tags := value;
      }
      errors := WithoutField(errors, field);
    }

    /** A field's blur handler: leaving a field validates it again, which
        drops that field's submit-time issues as a change does. The values,
        the submitting flag and the toast stay as they are. */
    method Blur(field: Field)
      modifies this
      ensures Values() == old(Values())
      ensures errors == WithoutField(old(errors), field) && !HasIssue(errors, field)
      ensures isSubmitting == old(isSubmitting) && notice == old(notice)
    {
      errors := WithoutField(errors, field);
    }

    /** Pressing publish. Nothing happens while the button is disabled.
        Otherwise the schema runs on the current values: on issues they are
        recorded and nothing is sent; on acceptance the form enters the
        submitting state, shows the loading toast and returns the body of
        the create call, built from the values as they stand. The values
        themselves never change here. */
    method BeginSubmit() returns (request: Option<BlogData>)
      modifies this
      ensures Values() == old(Values())
      ensures old(SubmitDisabled()) ==>
                request == None && errors == old(errors) &&
                isSubmitting == old(isSubmitting) && notice == old(notice)
      ensures !old(SubmitDisabled()) && Validate(old(Values())).Err? ==>
                request == None && errors == Validate(old(Values())).error &&
                !isSubmitting && notice == old(notice)
      ensures !old(SubmitDisabled()) && Validate(old(Values())).Ok? ==>
                request == Some(ToBlogData(old(Values()))) && errors == [] &&
                isSubmitting && notice == Loading(PublishingText)
    {
      if SubmitDisabled() {
        return None;
      }
      var verdict := Validate(Values());
      match verdict
      case Err(issues) =>
        errors := issues;
        request := None;
      case Ok(accepted) =>
        isSubmitting := true;
        notice := Loading(PublishingText);
        request := Some(ToBlogData(accepted));
    }

    /** The create call has settled. On success the toast says so and every
        field is back to its default; on a rejection or an exception the
        toast carries the failure and the values are kept for correction.
        Either way the form is no longer submitting. */
    method FinishSubmit(outcome: CreateOutcome)
      requires isSubmitting
      modifies this
      ensures !isSubmitting
      ensures notice == SettledNotice(outcome)
      ensures outcome.Created? ==> Values() == EmptyDraft && errors == []
      ensures !outcome.Created? ==> Values() == old(Values()) && errors == old(errors)
    {
      notice := SettledNotice(outcome);
      if outcome.Created? {
        title, content, tags := "", "", "";
        errors := [];
      }
      isSubmitting := false;
    }

    /** One whole submission whose create call ends in `outcome`. */
    method Submit(outcome: CreateOutcome) returns (request: Option<BlogData>)
      modifies this
      ensures isSubmitting == old(isSubmitting)
      ensures request.Some? <==> !old(SubmitDisabled()) && Validate(old(Values())).Ok?
      ensures request.Some? ==> request.value == ToBlogData(old(Values())) && notice == SettledNotice(outcome)
      ensures request.Some? && outcome.Created? ==> Values() == EmptyDraft
      ensures !(request.Some? && outcome.Created?) ==> Values() == old(Values())
      ensures request.None? ==> notice == old(notice)
      ensures !old(SubmitDisabled()) && Validate(old(Values())).Err? ==>
                errors == Validate(old(Values())).error && SubmitDisabled()
      ensures old(SubmitDisabled()) || Validate(old(Values())).Ok? ==> errors == old(errors)
    {
      request := BeginSubmit();
      if request.Some? {
        FinishSubmit(outcome);
      }
    }
  }

  /** A second press while the first submission is in flight sends nothing:
      at most one create request goes out. */
  method DoubleSubmit(form: CreateBlogForm) returns (first: Option<BlogData>, second: Option<BlogData>)
    modifies form
    ensures second == None
    ensures first.Some? ==> form.isSubmitting
  {
    first := form.BeginSubmit();
    second := form.BeginSubmit();
  }

  /** A rejection such as "Unauthorized" is shown verbatim, the values stay,
      and the form can be submitted again without reloading. */
  method RejectedThenRetry(form: CreateBlogForm) returns (sent: Option<BlogData>, again: Option<BlogData>)
    requires !form.SubmitDisabled() && Validate(form.Values()).Ok?
    modifies form
    ensures sent.Some? && again == sent
    ensures form.isSubmitting && form.Values() == old(form.Values())
  {
    sent := form.BeginSubmit();
    form.FinishSubmit(Rejected("Unauthorized"));
    assert form.notice == Failed("Unauthorized");
    assert !form.SubmitDisabled();
    again := form.BeginSubmit();
  }
}
