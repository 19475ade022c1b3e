/**
 * `ResumeParsing.FormUtilities`: the eight key lists the form and the context menu count with.
 * Each is `Object.keys(af)` filtered by `required` and by whether the value is filled.
 */
module FormUtilities {
  import opened Fields

  /** `getReq`: keys of the required fields. */
  function GetReq(fields: seq<Field>): seq<string> { KeysWhere(fields, (f: Field) => f.required) }

  /** `getOptional`: keys of the optional fields. */
  function GetOptional(fields: seq<Field>): seq<string> { KeysWhere(fields, (f: Field) => !f.required) }

  /** `getReqDone`: keys of the required fields whose value is filled. */
  function GetReqDone(fields: seq<Field>): seq<string> { KeysWhere(fields, (f: Field) => f.required && Filled(f.value)) }

  /** `getReqLeft`: keys of the required fields whose value is empty or undefined. */
  function GetReqLeft(fields: seq<Field>): seq<string> { KeysWhere(fields, (f: Field) => f.required && !Filled(f.value)) }

  /** `getOptionalDone`: keys of the optional fields whose value is filled. */
  function GetOptionalDone(fields: seq<Field>): seq<string> { KeysWhere(fields, (f: Field) => !f.required && Filled(f.value)) }

  /** `getOptionalLeft`: keys of the optional fields whose value is empty or undefined. */
  function GetOptionalLeft(fields: seq<Field>): seq<string> { KeysWhere(fields, (f: Field) => !f.required && !Filled(f.value)) }

  /** `getAllDone`: keys of the filled fields. */
  function GetAllDone(fields: seq<Field>): seq<string> { KeysWhere(fields, (f: Field) => Filled(f.value)) }

  /** `getAllLeft`: keys of the empty or undefined fields. */
  function GetAllLeft(fields: seq<Field>): seq<string> { KeysWhere(fields, (f: Field) => !Filled(f.value)) }

  /**
   * Splitting the keys selected by `p` by "filled" splits them in two: the filled and the
   * unfilled lists together hold every selected key exactly as often as the whole list does,
   * and no key is in both.
   */
  lemma {:induction false} SplitByFilled(fields: seq<Field>, p: Field -> bool, done: Field -> bool, left: Field -> bool)
    requires forall f :: done(f) == (p(f) && Filled(f.value))
    requires forall f :: left(f) == (p(f) && !Filled(f.value))
    ensures multiset(KeysWhere(fields, done)) + multiset(KeysWhere(fields, left)) == multiset(KeysWhere(fields, p))
    ensures |KeysWhere(fields, done)| + |KeysWhere(fields, left)| == |KeysWhere(fields, p)|
  {
    if |fields| > 0 {
      var init := fields[..|fields| - 1];
      SplitByFilled(init, p, done, left);
    }
    assert |multiset(KeysWhere(fields, done)) + multiset(KeysWhere(fields, left))| == |multiset(KeysWhere(fields, p))|;
  }

  /** Every key is required or optional, never both. */
  lemma {:induction false} SplitByRequired(fields: seq<Field>)
    ensures multiset(GetReq(fields)) + multiset(GetOptional(fields)) == multiset(Keys(fields))
    ensures |GetReq(fields)| + |GetOptional(fields)| == |fields|
  {
    if |fields| > 0 {
      var init := fields[..|fields| - 1];
      SplitByRequired(init);
    }
    assert |multiset(GetReq(fields)) + multiset(GetOptional(fields))| == |multiset(Keys(fields))|;
  }

  /**
   * The counts the form and the context menu report add up: filled plus unfilled required fields
   * is all required fields, likewise for optional fields and for all fields.
   */
  lemma FieldCountsAddUp(fields: seq<Field>)
    ensures multiset(GetReqDone(fields)) + multiset(GetReqLeft(fields)) == multiset(GetReq(fields))
    ensures multiset(GetOptionalDone(fields)) + multiset(GetOptionalLeft(fields)) == multiset(GetOptional(fields))
    ensures multiset(GetAllDone(fields)) + multiset(GetAllLeft(fields)) == multiset(Keys(fields))
    ensures |GetReqDone(fields)| + |GetReqLeft(fields)| == |GetReq(fields)|
    ensures |GetOptionalDone(fields)| + |GetOptionalLeft(fields)| == |GetOptional(fields)|
    ensures |GetAllDone(fields)| + |GetAllLeft(fields)| == |fields|
  {
    SplitByFilled(fields, (f: Field) => f.required, (f: Field) => f.required && Filled(f.value), (f: Field) => f.required && !Filled(f.value));
    SplitByFilled(fields, (f: Field) => !f.required, (f: Field) => !f.required && Filled(f.value), (f: Field) => !f.required && !Filled(f.value));
    SplitByFilled(fields, (f: Field) => true, (f: Field) => Filled(f.value), (f: Field) => !Filled(f.value));
    KeysWhereAll(fields, (f: Field) => true);
  }

  /** A table of required, unfilled fields has no optional and no filled key, and all its keys are left to fill. */
  lemma AllRequiredNoneFilled(fields: seq<Field>)
    requires forall i :: 0 <= i < |fields| ==> fields[i].required && !Filled(fields[i].value)
    ensures GetOptional(fields) == [] && GetAllDone(fields) == []
    ensures |GetReq(fields)| == |fields| && |GetReqLeft(fields)| == |fields|
  {
    NoneSelected(fields, (f: Field) => !f.required);
    NoneSelected(fields, (f: Field) => Filled(f.value));
    NoneSelected(fields, (f: Field) => f.required && Filled(f.value));
    FieldCountsAddUp(fields);
    SplitByRequired(fields);
  }

  /** In the shipped table every field is required and none is filled yet. */
  lemma ShippedCounts()
    ensures GetOptional(AllFields) == [] && GetAllDone(AllFields) == []
    ensures |GetReq(AllFields)| == 13 && |GetReqLeft(AllFields)| == 13
  {
    var fs := AllFields;
    assert forall i :: 0 <= i < |fs| ==> fs[i].required && !Filled(fs[i].value);
    AllRequiredNoneFilled(fs);
  }
}
