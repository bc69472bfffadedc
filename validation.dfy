/**
 * The two validation rules of the form: the one the change handler applies to
 * a single input, and the whole-form pass the submit handler runs before any
 * request is made.
 */
module Validation {
  import opened Wrappers
  import opened FieldRegistry
  import opened FormStore

  /** JavaScript's `value < bound` on a stored value: any comparison with NaN is false. */
  function Below(v: Value, bound: real): bool
  {
    match v
    case Num(x) => x < bound
    case _ => false
  }

  /** JavaScript's `value > bound` on a stored value: any comparison with NaN is false. */
  function Above(v: Value, bound: real): bool
  {
    match v
    case Num(x) => x > bound
    case _ => false
  }

  /** The change handler's test: empty, NaN, below `min` or above `max`. */
  function ChangeRejects(f: FieldSpec, v: Value): (r: bool)
    ensures r <==> !(v.Num? && f.min <= v.x <= f.max)
  {
    v.Empty? || v.NaN? || Below(v, f.min) || Above(v, f.max)
  }

  /**
   * The submit handler's test on a value that is present: empty, below `min`
   * or above `max`. There is no NaN test, so it is the change test with NaN
   * let through.
   */
  function SubmitRejectsValue(f: FieldSpec, v: Value): (r: bool)
    ensures r <==> ChangeRejects(f, v) && !v.NaN?
  {
    v.Empty? || Below(v, f.min) || Above(v, f.max)
  }

  /** The submit handler's test on one registry field: undefined, or rejected as above. */
  function SubmitRejects(f: FieldSpec, form: FormState): (r: bool)
    ensures r <==> f.id !in form || (ChangeRejects(f, form[f.id]) && !form[f.id].NaN?)
  {
    f.id !in form || SubmitRejectsValue(f, form[f.id])
  }

  /** Values are stored only under registry keys. */
  predicate KeysKnown(specs: seq<FieldSpec>, form: FormState)
  {
    forall k :: k in form ==> Find(specs, k).Some?
  }

  /**
   * Every message in `errors` is the message of its field, and that field is
   * absent from the form or holds a value the change test rejects.
   */
  predicate ErrorsJustified(specs: seq<FieldSpec>, form: FormState, errors: map<string, string>)
  {
    forall k :: k in errors ==>
      && Find(specs, k).Some?
      && errors[k] == Find(specs, k).value.error
      && (k !in form || ChangeRejects(Find(specs, k).value, form[k]))
  }

  /** Storing a value for field `f` and inserting or removing only `f`'s message keeps both invariants. */
  lemma ChangeKeepsJustified(specs: seq<FieldSpec>, form: FormState, errors: map<string, string>, f: FieldSpec, v: Value)
    requires KeysKnown(specs, form) && ErrorsJustified(specs, form, errors)
    requires Find(specs, f.id) == Some(f)
    ensures KeysKnown(specs, form[f.id := v])
    ensures ErrorsJustified(specs, form[f.id := v], if ChangeRejects(f, v) then errors[f.id := f.error] else errors - {f.id})
  {
  }

  /** The error map the submit handler's `forEach` builds after visiting `specs` in order. */
  function ErrorsOver(specs: seq<FieldSpec>, form: FormState): (r: map<string, string>)
    ensures |r| <= |specs|
    decreases |specs|
  {
    if specs == [] then map[]
    else
      var m := ErrorsOver(specs[..|specs| - 1], form);
      var f := specs[|specs| - 1];
      if SubmitRejects(f, form) then m[f.id := f.error] else m
  }

  /**
   * Over entries with unique keys, the pass maps exactly the rejected entries'
   * keys, each to that entry's own message, and nothing else.
   */
  lemma {:induction false} ErrorsOverMeaning(specs: seq<FieldSpec>, form: FormState)
    requires UniqueIds(specs)
    ensures forall i :: 0 <= i < |specs| ==> (specs[i].id in ErrorsOver(specs, form) <==> SubmitRejects(specs[i], form))
    ensures forall i :: 0 <= i < |specs| && specs[i].id in ErrorsOver(specs, form) ==>
      ErrorsOver(specs, form)[specs[i].id] == specs[i].error
    ensures forall k :: k in ErrorsOver(specs, form) ==> exists i :: 0 <= i < |specs| && specs[i].id == k
  {
    if specs != [] {
      var n := |specs| - 1;
      var prefix, last := specs[..n], specs[n];
      assert forall i :: 0 <= i < n ==> prefix[i] == specs[i];
      assert UniqueIds(prefix);
      ErrorsOverMeaning(prefix, form);
      var m := ErrorsOver(prefix, form);
      assert forall i :: 0 <= i < n ==> specs[i].id != last.id;
      assert last.id !in m;
      var r := ErrorsOver(specs, form);
      assert r == if SubmitRejects(last, form) then m[last.id := last.error] else m;
      forall i | 0 <= i < n
        ensures specs[i].id in r <==> SubmitRejects(specs[i], form)
        ensures specs[i].id in r ==> r[specs[i].id] == specs[i].error
      {
        assert specs[i] == prefix[i] && specs[i].id != last.id;
      }
      forall k | k in r
        ensures exists i :: 0 <= i < |specs| && specs[i].id == k
      {
        if k != last.id {
          var i :| 0 <= i < n && prefix[i].id == k;
          assert specs[i].id == k;
        }
      }
    }
  }

  /** The whole-form pass is independent of the order in which the fields are visited. */
  lemma OrderIndependent(specs: seq<FieldSpec>, shuffled: seq<FieldSpec>, form: FormState)
    requires UniqueIds(specs) && UniqueIds(shuffled)
    requires forall f :: f in specs <==> f in shuffled
    ensures ErrorsOver(specs, form) == ErrorsOver(shuffled, form)
  {
    ErrorsOverMeaning(specs, form);
    ErrorsOverMeaning(shuffled, form);
    var a, b := ErrorsOver(specs, form), ErrorsOver(shuffled, form);
    forall k | k in a
      ensures k in b && b[k] == a[k]
    {
      var i :| 0 <= i < |specs| && specs[i].id == k;
      assert specs[i] in shuffled;
      var j :| 0 <= j < |shuffled| && shuffled[j] == specs[i];
    }
    forall k | k in b
      ensures k in a
    {
      var j :| 0 <= j < |shuffled| && shuffled[j].id == k;
      assert shuffled[j] in specs;
      var i :| 0 <= i < |specs| && specs[i] == shuffled[j];
    }
  }

  /**
   * Read by key: every key of the pass's error map is the key of an entry
   * that the submit test rejects, and is mapped to that entry's message.
   */
  lemma ErrorsOverByKey(specs: seq<FieldSpec>, form: FormState)
    requires UniqueIds(specs)
    ensures forall f :: f in specs ==> (f.id in ErrorsOver(specs, form) <==> SubmitRejects(f, form))
    ensures forall k :: k in ErrorsOver(specs, form) ==>
      && Find(specs, k).Some?
      && SubmitRejects(Find(specs, k).value, form)
      && ErrorsOver(specs, form)[k] == Find(specs, k).value.error
  {
    ErrorsOverMeaning(specs, form);
    forall f | f in specs
      ensures f.id in ErrorsOver(specs, form) <==> SubmitRejects(f, form)
    {
      var i :| 0 <= i < |specs| && specs[i] == f;
    }
    forall k | k in ErrorsOver(specs, form)
      ensures Find(specs, k).Some? && SubmitRejects(Find(specs, k).value, form)
      ensures ErrorsOver(specs, form)[k] == Find(specs, k).value.error
    {
      var i :| 0 <= i < |specs| && specs[i].id == k;
      FindUnique(specs, specs[i]);
    }
  }

  /**
   * Submission may go ahead exactly when every field holds a value that is
   * NaN or a number within that field's inclusive bounds.
   */
  lemma SubmitAllowedIff(specs: seq<FieldSpec>, form: FormState)
    requires UniqueIds(specs)
    ensures ErrorsOver(specs, form) == map[] <==>
      forall f :: f in specs ==> f.id in form && (form[f.id].NaN? || (form[f.id].Num? && f.min <= form[f.id].x <= f.max))
  {
    ErrorsOverByKey(specs, form);
    if ErrorsOver(specs, form) != map[] {
      var k :| k in ErrorsOver(specs, form);
      assert Find(specs, k).value in specs;
    }
  }

  /**
   * When the pass finds nothing and the form holds only registry keys, the
   * form's keys are exactly the registry's keys.
   */
  lemma AllowedFormKeys(specs: seq<FieldSpec>, form: FormState)
    requires UniqueIds(specs) && KeysKnown(specs, form)
    requires ErrorsOver(specs, form) == map[]
    ensures forall k :: k in form <==> Find(specs, k).Some?
  {
    SubmitAllowedIff(specs, form);
    forall k | Find(specs, k).Some?
      ensures k in form
    {
      assert Find(specs, k).value in specs;
    }
  }

  /**
   * Every message of the pass's error map is the message of its field, and
   * that field is absent from the form or holds a value the change test rejects.
   */
  lemma ErrorsOverJustified(specs: seq<FieldSpec>, form: FormState)
    requires UniqueIds(specs)
    ensures ErrorsJustified(specs, form, ErrorsOver(specs, form))
  {
    ErrorsOverByKey(specs, form);
  }

  /**
   * A passing pass leaves in place only the messages of fields that hold
   * NaN: every other justified message belongs to a field the pass rejects.
   */
  lemma PassingSubmitKeepsOnlyNaNMessages(specs: seq<FieldSpec>, form: FormState, errors: map<string, string>)
    requires UniqueIds(specs) && ErrorsJustified(specs, form, errors)
    requires ErrorsOver(specs, form) == map[]
    ensures forall k :: k in errors ==> k in form && form[k] == NaN
  {
    SubmitAllowedIff(specs, form);
    forall k | k in errors
      ensures k in form && form[k] == NaN
    {
      var f := Find(specs, k).value;
      assert f in specs && f.id == k;
    }
  }

  /**
   * The change test and the submit test disagree on NaN: a field holding NaN
   * gets an error when it is edited but is not flagged when the form is submitted.
   */
  lemma NaNPassesSubmitCheck(specs: seq<FieldSpec>, form: FormState, f: FieldSpec)
    requires UniqueIds(specs) && f in specs && f.id in form && form[f.id] == NaN
    ensures ChangeRejects(f, form[f.id])
    ensures f.id !in ErrorsOver(specs, form)
  {
    ErrorsOverByKey(specs, form);
  }

  /** The loop of the submit handler: visit every registry field and record the rejected ones. */
  method CollectSubmitErrors(specs: seq<FieldSpec>, form: FormState) returns (newErrors: map<string, string>)
    ensures newErrors == ErrorsOver(specs, form)
  {
    newErrors := map[];
    var i := 0;
    while i < |specs|
      invariant 0 <= i <= |specs|
      invariant newErrors == ErrorsOver(specs[..i], form)
    {
      var field := specs[i];
      if field.id !in form || SubmitRejectsValue(field, form[field.id]) {
        newErrors := newErrors[field.id := field.error];
      }
      assert specs[..i + 1][..i] == specs[..i];
      i := i + 1;
    }
    assert specs[..i] == specs;
  }
}
