/**
 * The state of one diabetes form instance and its event handlers: a change
 * to one input, a submit (split at its `await` into starting the request and
 * completing it with the transport's outcome), retry and reset.
 */
module FormComponent {
  import opened Wrappers
  import opened FieldRegistry
  import opened FormStore
  import opened Validation
  import opened Submission

  class DiabetesForm {
    /** The reducer-held values. */
    var form: FormState
    /** The messages shown beside the inputs. */
    var errors: map<string, string>
    /** The last prediction shown, or null. */
    var result: Option<Prediction>
    /** Whether a request is in flight. */
    var loading: bool
    /** The failure banner's message, or null. */
    var error: Option<string>
    /** The field registry the form validates against. */
    const fields: seq<FieldSpec>

    /**
     * Values are stored only under registry keys, and every message shown is
     * the message of its field and is justified: that field has no stored
     * value or holds a value the change test rejects. While a request is in
     * flight neither a result nor a failure is shown, and the two are never
     * shown together.
     */
    ghost predicate Valid()
      reads this
    {
      && UniqueIds(fields) && KeysKnown(fields, form) && ErrorsJustified(fields, form, errors)
      && (loading ==> result.None? && error.None?)
      && !(result.Some? && error.Some?)
    }

    /** The state at mount: an empty form, no errors, no result, not loading, no failure. */
    constructor ()
      ensures Valid()
      ensures fields == Fields()
      ensures form == map[] && errors == map[] && result == None && !loading && error == None
    {
      fields := Fields();
      form, errors, result, loading, error := map[], map[], None, false, None;
    }

    /**
     * The change handler for the input named `name` holding `v`. The value is
     * always stored; only `name`'s message is inserted or removed. When `name`
     * is not a registry key the lookup yields undefined and the handler throws
     * before changing anything (`handled` is false).
     */
    method HandleChange(name: string, v: Value) returns (handled: bool)
      requires Valid()
      modifies this
      ensures Valid()
      ensures handled <==> Find(fields, name).Some?
      ensures !handled ==> form == old(form) && errors == old(errors)
      ensures handled ==> form == Reduce(old(form), UpdateField(name, v))
      ensures handled ==> var f := Find(fields, name).value;
        && (name in errors <==> ChangeRejects(f, v))
        && (name in errors ==> errors[name] == f.error)
        && forall k :: k != name ==> (k in errors <==> k in old(errors)) && (k in errors ==> errors[k] == old(errors)[k])
      ensures result == old(result) && loading == old(loading) && error == old(error)
    {
      var field := Find(fields, name);
      if field.None? {
        return false;
      }
      ChangeKeepsJustified(fields, form, errors, field.value, v);
      var newErrors := errors;
      if ChangeRejects(field.value, v) {
        newErrors := newErrors[name := field.value.error];
      } else {
        newErrors := newErrors - {name};
      }
      errors := newErrors;
      form := Reduce(form, UpdateField(name, v));
      handled := true;
    }

    /**
     * The submit handler up to its `await`. If the whole-form pass finds
     * errors they replace `errors` and nothing else changes; otherwise a
     * request carrying the current form starts: `loading` is set and the
     * previous result and failure are cleared, while `errors` stays as it was.
     */
    method BeginSubmit() returns (request: Option<FormState>)
      requires Valid()
      modifies this
      ensures Valid()
      ensures form == old(form)
      ensures request.Some? <==> ErrorsOver(fields, old(form)) == map[]
      ensures request.None? ==>
        errors == ErrorsOver(fields, old(form)) && loading == old(loading) && result == old(result) && error == old(error)
      ensures request.Some? ==>
        && request.value == old(form)
        && errors == old(errors) && loading && result == None && error == None
      ensures request.Some? ==> forall k :: k in request.value <==> Find(fields, k).Some?
      ensures request.Some? ==> forall k :: k in errors ==> k in form && form[k] == NaN
    {
      var newErrors := CollectSubmitErrors(fields, form);
      if |newErrors| > 0 {
        ErrorsOverJustified(fields, form);
        errors := newErrors;
        return None;
      }
      AllowedFormKeys(fields, form);
      PassingSubmitKeepsOnlyNaNMessages(fields, form, errors);
      loading := true;
      error := None;
      result := None;
      request := Some(form);
    }

    /**
     * The submit handler after its `await`, reached only while its request
     * is in flight: a response stores the prediction
     * with its derived feedback, a rejection stores the failure message, and
     * in both cases `loading` ends false.
     */
    method CompleteSubmit(outcome: Outcome)
      requires Valid() && loading
      modifies this
      ensures Valid()
      ensures form == old(form) && errors == old(errors) && !loading
      ensures result.Some? != error.Some?
      ensures outcome.Success? ==>
        result == Some(Prediction(outcome.prediction, FeedbackFor(outcome.prediction))) && error == old(error)
      ensures outcome.Failure? ==> error == Some(FailureMessage(outcome.message)) && result == old(result)
    {
      match outcome {
        case Success(prediction) =>
          var feedback := FeedbackFor(prediction);
          result := Some(Prediction(prediction, feedback));
        case Failure(message) =>
          error := Some(FailureMessage(message));
      }
      loading := false;
    }

    /**
     * What one whole submit does when the transport ends in `outcome`: either
     * it is blocked by the whole-form pass, or it sends the current form and
     * ends with exactly one of a result and a failure message.
     */
    twostate predicate SubmitEffect(new request: Option<FormState>, new outcome: Outcome)
      reads this
    {
      && form == old(form)
      && (request.Some? <==> ErrorsOver(fields, old(form)) == map[])
      && (request.None? ==>
            errors == ErrorsOver(fields, old(form)) && loading == old(loading) && result == old(result) && error == old(error))
      && (request.Some? ==>
            && request.value == old(form)
            && (forall k :: k in request.value <==> Find(fields, k).Some?)
            && errors == old(errors) && !loading
            && (result.Some? != error.Some?)
            && (outcome.Success? ==> result == Some(Prediction(outcome.prediction, FeedbackFor(outcome.prediction))))
            && (outcome.Failure? ==> error == Some(FailureMessage(outcome.message))))
    }

    /** The whole submit handler, with the transport's answer given as `outcome`. */
    method HandleSubmit(outcome: Outcome) returns (request: Option<FormState>)
      requires Valid()
      modifies this
      ensures Valid()
      ensures SubmitEffect(request, outcome)
    {
      request := BeginSubmit();
      if request.Some? {
        CompleteSubmit(outcome);
      }
    }

    /**
     * The retry button, shown only while a failure message is displayed. It
     * calls the submit handler itself, so the form is validated again.
     */
    method Retry(outcome: Outcome) returns (request: Option<FormState>)
      requires Valid() && error.Some?
      modifies this
      ensures Valid()
      ensures SubmitEffect(request, outcome)
    {
      request := HandleSubmit(outcome);
    }

    /** The reset handler: everything is cleared except `loading`. */
    method HandleReset()
      requires Valid()
      modifies this
      ensures Valid()
      ensures form == map[] && errors == map[] && result == None && error == None
      ensures loading == old(loading)
    {
      form := Reduce(form, Reset);
      errors := map[];
      result := None;
      error := None;
    }
  }

  /**
   * Resetting a second time changes nothing: the state is that of a single
   * reset. This holds because `HandleReset` fixes the whole state, keeping
   * only `loading`, whatever the state before.
   */
  method ResetTwice(d: DiabetesForm)
    requires d.Valid()
    modifies d
    ensures d.Valid()
    ensures d.form == map[] && d.errors == map[] && d.result == None && d.error == None
    ensures d.loading == old(d.loading)
  {
    d.HandleReset();
    d.HandleReset();
  }

  /**
   * A submit that fails, followed by a retry: the failure leaves the form as
   * entered, so the retry passes validation again and sends the identical
   * payload.
   */
  method FailThenRetry(d: DiabetesForm, message: Option<string>, outcome: Outcome)
    returns (first: Option<FormState>, retried: Option<FormState>)
    requires d.Valid()
    modifies d
    ensures d.Valid()
    ensures d.form == old(d.form)
    ensures first.Some? ==> first == Some(old(d.form)) && retried == first
    ensures first.None? ==> retried.None? && d.errors == ErrorsOver(d.fields, old(d.form))
  {
    first := d.HandleSubmit(Failure(message));
    if first.Some? {
      assert d.error == Some(FailureMessage(message));
      retried := d.Retry(outcome);
    } else {
      retried := None;
    }
  }
}
