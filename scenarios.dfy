/**
 * Worked examples of the whole-form pass over the actual registry.
 */
module Scenarios {
  import opened FieldRegistry
  import opened FormStore
  import opened Validation

  /** Eight mid-range values, one per registry field. */
  function MidRangeForm(): FormState
  {
    map[
      "Pregnancies" := Num(2.0), "Glucose" := Num(120.0), "BloodPressure" := Num(70.0),
      "SkinThickness" := Num(20.0), "Insulin" := Num(80.0), "BMI" := Num(24.5),
      "DiabetesPedigreeFunction" := Num(0.5), "Age" := Num(33.0)]
  }

  /** The first four mid-range readings pass the submit check one by one. */
  lemma MidA()
    ensures forall i :: 0 <= i < 4 ==> !SubmitRejects(Fields()[i], MidRangeForm())
  {
  }
  /** So do the last four. */
  lemma MidB()
    ensures forall i :: 4 <= i < 8 ==> !SubmitRejects(Fields()[i], MidRangeForm())
  {
  }
  /** With every field mid-range the submit pass finds nothing, so the request may start. */
  lemma MidRangeFormIsSubmittable()
    ensures ErrorsOver(Fields(), MidRangeForm()) == map[]
  {
    var specs, form := Fields(), MidRangeForm();
    MidA(); MidB();
    ErrorsOverMeaning(specs, form);
    if ErrorsOver(specs, form) != map[] {
      var k :| k in ErrorsOver(specs, form);
    }
  }

  /**
   * A glucose reading of 400 exceeds its maximum of 300: the pass reports it
   * under its own key with its own message, so no request starts.
   */
  lemma GlucoseAboveMaximumBlocksSubmit()
    ensures var errors := ErrorsOver(Fields(), MidRangeForm()["Glucose" := Num(400.0)]);
      "Glucose" in errors && errors["Glucose"] == "Must be between 0 and 300" && errors != map[]
  {
    var specs, form := Fields(), MidRangeForm()["Glucose" := Num(400.0)];
    assert SubmitRejects(specs[1], form);
    ErrorsOverMeaning(specs, form);
  }
}
