/**
 * The static field registry of the diabetes form: eight measurement
 * specifications, each with a key, inclusive numeric bounds and the message
 * shown when a value for that key is rejected.
 */
module FieldRegistry {
  import opened Wrappers

  /** One measurement. `step` is absent where the input uses the default granularity of 1. */
  datatype FieldSpec = FieldSpec(id: string, caption: string, min: real, max: real, step: Option<real>, error: string)

  /** No two entries of `specs` share a key. */
  predicate UniqueIds(specs: seq<FieldSpec>)
  {
    forall i, j :: 0 <= i < |specs| && 0 <= j < |specs| && specs[i].id == specs[j].id ==> i == j
  }

  /** The registry, in rendering order. */
  function Fields(): (r: seq<FieldSpec>)
    ensures |r| == 8
    ensures UniqueIds(r)
    ensures forall f :: f in r ==> f.min <= f.max
  {
    [ FieldSpec("Pregnancies", "Pregnancies", 0.0, 20.0, None, "Must be between 0 and 20"),
      FieldSpec("Glucose", "Glucose (mg/dL)", 0.0, 300.0, None, "Must be between 0 and 300"),
      FieldSpec("BloodPressure", "Blood Pressure (mmHg)", 0.0, 200.0, None, "Must be between 0 and 200"),
      FieldSpec("SkinThickness", "Skin Thickness (mm)", 0.0, 100.0, None, "Must be between 0 and 100"),
      FieldSpec("Insulin", "Insulin (μU/mL)", 0.0, 900.0, None, "Must be between 0 and 900"),
      FieldSpec("BMI", "BMI", 0.0, 70.0, Some(0.1), "Must be girls between 0 and 70"),
      FieldSpec("DiabetesPedigreeFunction", "Diabetes Pedigree Function", 0.0, 2.5, Some(0.001), "Must be between 0 and 2.5"),
      FieldSpec("Age", "Age (years)", 0.0, 120.0, None, "Must be between 0 and 120") ]
  }

  /** `fields.find(f => f.id === name)`: the first entry of `specs` whose id is `name`, if any. */
  function Find(specs: seq<FieldSpec>, name: string): (r: Option<FieldSpec>)
    ensures r.Some? <==> exists f :: f in specs && f.id == name
    ensures r.Some? ==> r.value in specs && r.value.id == name
    ensures r.Some? ==> exists i :: 0 <= i < |specs| && specs[i] == r.value && forall j :: 0 <= j < i ==> specs[j].id != name
  {
    if specs == [] then None
    else if specs[0].id == name then Some(specs[0])
    else
      var r := Find(specs[1..], name);
      assert forall f :: f in specs[1..] ==> f in specs;
      assert forall f :: f in specs && f != specs[0] ==> f in specs[1..];
      if r.Some? then
        ghost var i :| 0 <= i < |specs[1..]| && specs[1..][i] == r.value && forall j :: 0 <= j < i ==> specs[1..][j].id != name;
        assert specs[i + 1] == r.value && forall j :: 0 <= j < i + 1 ==> specs[j].id != name;
        r
      else r
  }

  /** In a registry with unique keys, looking an entry up by its own key finds that entry. */
  lemma FindUnique(specs: seq<FieldSpec>, f: FieldSpec)
    requires UniqueIds(specs) && f in specs
    ensures Find(specs, f.id) == Some(f)
  {
    var r := Find(specs, f.id);
    var i :| 0 <= i < |specs| && specs[i] == r.value && forall j :: 0 <= j < i ==> specs[j].id != f.id;
    var k :| 0 <= k < |specs| && specs[k] == f;
    assert specs[i].id == specs[k].id;
  }
}
