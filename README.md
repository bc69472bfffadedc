# Diabetes risk form: a verified model of its state machine

The component collects eight health measurements, validates them, posts them
to a prediction service and shows the returned risk label. This project models
its form state machine in Dafny:

- the static **field registry** of eight measurements, each with an id,
  inclusive `min`/`max` bounds and an error message;
- the **form reducer**, with its `UPDATE_FIELD` and `RESET` actions;
- the **change handler**, which always stores the value and then inserts or
  removes only that field's message;
- the **submit handler**. It runs a whole-form pass over the registry. If the
  pass finds errors it stores them and stops. Otherwise it starts a request.
  The request ends in exactly one of a result (label plus derived feedback)
  or a failure message;
- **retry**, which calls the submit handler again;
- **reset**, which clears everything except `loading`.

The component's state is the class `FormComponent.DiabetesForm`. Its fields
are `form`, `errors`, `result`, `loading` and `error`, plus the registry it
validates against as a constant. A raw input is modelled by what the
handler stores: `Empty` for `''`, `NaN`, or `Num(x)` with `x` a real. The
`await` in the submit handler is split in two steps. `BeginSubmit` covers
validation and the start of the request. `CompleteSubmit(outcome)` takes the
transport's answer as a parameter. `HandleSubmit` composes the two.

Modules: `Wrappers` (Option), `FieldRegistry`, `FormStore`, `Validation`,
`Submission`, `FormComponent`, `Scenarios`.

Behaviour of the code worth noting:

- Retry re-validates: the retry button calls the same submit handler.
- The submit-time check has no NaN test, so a stored NaN passes it
  (`Validation.NaNPassesSubmitCheck`). The change-time check rejects NaN.
- A blocked submit replaces `errors` only. A previous result or failure
  message stays as it was, and so does `loading`.
- A submit that passes leaves `errors` as it was. The only messages that can
  survive it belong to fields holding NaN, so such a field keeps its inline
  message while the request goes out
  (`Validation.PassingSubmitKeepsOnlyNaNMessages`).
- Reset does not touch `loading`.
- There is no re-entrancy guard and no request token.

The class invariant `Valid` also holds the request lifecycle: while `loading`
is set neither a result nor a failure is shown, and the two are never shown
together.

JavaScript's `<` and `>` against a stored value are the helpers `Below` and
`Above` in `Validation`: any comparison with NaN is false (lines 96 and 112).

The BMI message is kept as the code has it: "Must be girls between 0 and 70".

## Model

| member | source | states |
|---|---|---|
| `FieldRegistry.Fields` | frontend/src/components/DiabetesForm.jsx:16-25 | the registry has exactly eight entries, no two share an id, and every entry has `min <= max` |
| `FieldRegistry.Find` | frontend/src/components/DiabetesForm.jsx:92 | the lookup finds an entry iff some entry has that id; the one found has that id and no earlier entry does |
| `FieldRegistry.FindUnique` | frontend/src/components/DiabetesForm.jsx:92 | with unique ids, looking up an entry's own id returns that entry |
| `FormStore.Reduce` | frontend/src/components/DiabetesForm.jsx:28-37 | `UPDATE_FIELD(f, v)` maps `f` to `v` and leaves every other key as it was; `RESET` yields the empty map from any state; any other action returns the state unchanged |
| `Validation.ChangeRejects` | frontend/src/components/DiabetesForm.jsx:96 | the change test accepts exactly the numbers within the inclusive bounds; empty, NaN, below `min` and above `max` are rejected |
| `Validation.SubmitRejectsValue` | frontend/src/components/DiabetesForm.jsx:112 | the submit test on a present value is the change test with NaN let through |
| `Validation.SubmitRejects` | frontend/src/components/DiabetesForm.jsx:112 | the whole submit test on one field: the field is undefined, or holds a value the change test rejects that is not NaN |
| `Validation.ErrorsOver` | frontend/src/components/DiabetesForm.jsx:109-115 | the `forEach` pass holds at most one message per visited field; what it holds is stated by `Validation.ErrorsOverMeaning` |
| `Validation.ChangeKeepsJustified` | frontend/src/components/DiabetesForm.jsx:95-103 | storing a value and inserting or removing only that field's message keeps both form invariants |
| `Validation.ErrorsOverMeaning` | frontend/src/components/DiabetesForm.jsx:109-115 | over unique ids, the pass maps a field's id iff the submit test rejects that field, always to that field's message, and holds no other key |
| `Validation.ErrorsOverByKey` | frontend/src/components/DiabetesForm.jsx:109-115 | every key of the pass's map is a registry id whose field is rejected, mapped to that field's message |
| `Validation.OrderIndependent` | frontend/src/components/DiabetesForm.jsx:110-115 | visiting the same fields in any other order yields the same error map |
| `Validation.SubmitAllowedIff` | frontend/src/components/DiabetesForm.jsx:109-120 | the pass finds nothing iff every field has a stored value that is NaN or a number within its bounds |
| `Validation.AllowedFormKeys` | frontend/src/components/DiabetesForm.jsx:109-130 | when the pass finds nothing, the form's keys, and so the posted payload's keys, are exactly the registry ids |
| `Validation.ErrorsOverJustified` | frontend/src/components/DiabetesForm.jsx:109-119 | every message the pass stores is its field's message, and that field is absent or holds a value the change test rejects |
| `Validation.PassingSubmitKeepsOnlyNaNMessages` | frontend/src/components/DiabetesForm.jsx:96-120 | when the pass finds nothing, every message still shown belongs to a field holding NaN |
| `Validation.NaNPassesSubmitCheck` | frontend/src/components/DiabetesForm.jsx:96-112 | a field holding NaN is rejected on change but is not flagged by the submit pass |
| `Validation.CollectSubmitErrors` | frontend/src/components/DiabetesForm.jsx:109-115 | the `forEach` loop builds exactly the pass's error map |
| `Submission.FeedbackFor` | frontend/src/components/DiabetesForm.jsx:131-135 | the feedback is the urgent advisory exactly when the label is `Diabetic`, and the reassurance for any other label |
| `Submission.FailureMessage` | frontend/src/components/DiabetesForm.jsx:138-139 | the failure message is the response's `message` when present and non-empty, else "Unable to connect. Please try again."; it is never empty |
| `FormComponent.DiabetesForm.constructor` | frontend/src/components/DiabetesForm.jsx:81-85 | at mount the form and errors are empty, there is no result and no failure, and nothing is loading |
| `FormComponent.DiabetesForm.HandleChange` | frontend/src/components/DiabetesForm.jsx:88-104 | the value is always stored; the field's message is present iff the change test rejects the value; other messages and the lifecycle are untouched; an unknown field name changes nothing |
| `FormComponent.DiabetesForm.BeginSubmit` | frontend/src/components/DiabetesForm.jsx:106-124 | if the pass finds errors they replace `errors` and nothing else changes; otherwise the request carries the form, whose keys are exactly the registry ids, `loading` is set, result and failure are cleared, and errors stay, each of them on a field holding NaN |
| `FormComponent.DiabetesForm.CompleteSubmit` | frontend/src/components/DiabetesForm.jsx:126-142 | reached only while the request is in flight; success stores the label with its feedback, failure stores the failure message, so exactly one of result and error is set, and `loading` ends false |
| `FormComponent.DiabetesForm.HandleSubmit` | frontend/src/components/DiabetesForm.jsx:106-143 | a submit is either blocked by the pass or sends the current form and ends with `loading` false and exactly one of a result and a failure message |
| `FormComponent.DiabetesForm.Retry` | frontend/src/components/DiabetesForm.jsx:211-221 | retry has every effect of a submit, validation included |
| `FormComponent.DiabetesForm.HandleReset` | frontend/src/components/DiabetesForm.jsx:145-150 | form and errors become empty, result and failure become null, and `loading` keeps its value |
| `FormComponent.ResetTwice` | frontend/src/components/DiabetesForm.jsx:145-150 | a second reset yields the state a single reset yields |
| `FormComponent.FailThenRetry` | frontend/src/components/DiabetesForm.jsx:137-143 | a failed request leaves the form as entered; if the first submit sent the form, the retry sends the identical payload; if it was blocked, its errors are the pass's map and the scenario stops |
| `Scenarios.MidRangeFormIsSubmittable` | frontend/src/components/DiabetesForm.jsx:109-120 | with every field mid-range the pass finds nothing, so the request may start |
| `Scenarios.GlucoseAboveMaximumBlocksSubmit` | frontend/src/components/DiabetesForm.jsx:109-120 | with glucose at 400 and the other fields mid-range, the pass reports glucose with its message, so no request starts |

## Left out

- Rendering (the icon, the field markup, prop types, CSS classes, the result banner) is presentation. The field `icon` is not modelled; `label` is kept as `caption`, because `label` is a Dafny keyword.
- The submit button's `disabled` flag is a UI attribute. The model does not restrict when the submit handler runs.
- The POST request and its base URL are network I/O. The transport is the `Outcome` parameter: a label, or a failure with an optional message.
- `e.persist()` and `e.preventDefault()` are React event plumbing with no effect on the form state.
- `Number(value)` string parsing and IEEE floats are not modelled. Values are reals plus an explicit NaN. Infinity is not a distinct case; both checks would reject it as out of bounds.
- Concurrent or overlapping submissions are not modelled. Each request is begun and completed in turn.
- The Flask backend is a foreign model call plus HTTP plumbing. It answers errors with an `error` key, not `message`, so against it the failure message is always the fallback. That backend is not part of this model.
- The test harness and build configuration contain no logic.
