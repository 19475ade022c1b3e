/**
 * `ResumeParsing.AllFields`: the ordered table of resume fields. A JavaScript object's keys
 * iterate in insertion order, so the table is a sequence of records in declaration order.
 */
module Fields {
  import opened Wrappers
  import opened Text
  import opened Categories

  /** `ResumeParsing.FieldCategories`: how a field is grouped on the form. */
  datatype FieldCategory = Personal | Professional | Educational

  /** A field's `value` property: a string, or `undefined` once a failed date conversion stored it. */
  datatype Value = Undefined | Str(s: string)

  /** `!!value`: the only test of "filled" (the empty string and `undefined` are both falsy). */
  predicate Filled(v: Value) { v.Str? && |v.s| > 0 }

  /**
   * One entry of the table. `like` is the list of categories the field can take text for;
   * `isRequired` is the property the context menu's bucketing reads, which the shipped table
   * never defines (it reads as `undefined`, that is false), unlike `required`.
   */
  datatype Field = Field(
    key: string,
    like: seq<Category>,
    value: Value,
    labelText: string,
    required: bool,
    isRequired: bool,
    category: FieldCategory,
    canSuggest: bool)

  /** `ResumeParsing.IdPrefix`. */
  const IdPrefix: string := "_resume_"

  /** The DOM id every field is given at start-up: `IdPrefix + key`. */
  function Id(key: string): (id: string)
    ensures |id| == |IdPrefix| + |key| && id[..|IdPrefix|] == IdPrefix && id[|IdPrefix|..] == key
  {
    IdPrefix + key
  }

  /** Removing the prefix with `replace(IdPrefix, "")` recovers the key from the id. */
  lemma KeyOfId(key: string)
    ensures ReplaceFirst(Id(key), IdPrefix, "") == key
  {
    ReplacePrefix(IdPrefix, key);
  }

  /** `Object.keys(af)`: the keys in declaration order. */
  function Keys(fields: seq<Field>): (keys: seq<string>)
    ensures |keys| == |fields|
    ensures forall i :: 0 <= i < |fields| ==> keys[i] == fields[i].key
  {
    if |fields| == 0 then [] else Keys(fields[..|fields| - 1]) + [fields[|fields| - 1].key]
  }

  /** Object keys are unique. */
  predicate UniqueKeys(fields: seq<Field>) {
    forall i, j :: 0 <= i < j < |fields| ==> fields[i].key != fields[j].key
  }

  /** `af[key]`: the position of the field with that key, or `None` when there is none. */
  function FindKey(fields: seq<Field>, key: string): (r: Option<nat>)
    ensures r.Some? ==> r.value < |fields| && fields[r.value].key == key
    ensures r.None? <==> key !in Keys(fields)
  {
    if |fields| == 0 then None
    else if fields[|fields| - 1].key == key then Some(|fields| - 1)
    else
      assert Keys(fields) == Keys(fields[..|fields| - 1]) + [fields[|fields| - 1].key];
      FindKey(fields[..|fields| - 1], key)
  }

  /** With unique keys, `FindKey` finds the one field that has the key. */
  lemma FindKeyUnique(fields: seq<Field>, i: nat)
    requires UniqueKeys(fields) && i < |fields|
    ensures FindKey(fields, fields[i].key) == Some(i)
  {
    assert fields[i].key in Keys(fields);
  }

  /** `_allKeys.filter(k => p(af[k]))`: the keys of the fields that satisfy `p`, in declaration order. */
  function KeysWhere(fields: seq<Field>, p: Field -> bool): (keys: seq<string>)
    ensures |keys| <= |fields|
    ensures forall k :: k in keys <==> exists i :: 0 <= i < |fields| && fields[i].key == k && p(fields[i])
  {
    if |fields| == 0 then []
    else
      var init, last := fields[..|fields| - 1], fields[|fields| - 1];
      assert forall i :: 0 <= i < |init| ==> init[i] == fields[i];
      KeysWhere(init, p) + (if p(last) then [last.key] else [])
  }

  /** Two tables that agree, field by field, on the key and on the tests select the same keys. */
  lemma {:induction false} KeysWhereAgree(a: seq<Field>, b: seq<Field>, p: Field -> bool, q: Field -> bool)
    requires |a| == |b|
    requires forall i :: 0 <= i < |a| ==> a[i].key == b[i].key && p(a[i]) == q(b[i])
    ensures KeysWhere(a, p) == KeysWhere(b, q)
  {
    if |a| > 0 {
      KeysWhereAgree(a[..|a| - 1], b[..|b| - 1], p, q);
    }
  }

  /** Every key belongs to a field and the keys stand in the order of their fields. */
  predicate InDeclarationOrder(fields: seq<Field>, keys: seq<string>) {
    && (forall k :: k in keys ==> FindKey(fields, k).Some?)
    && (forall i, j :: 0 <= i < j < |keys| ==> FindKey(fields, keys[i]).value < FindKey(fields, keys[j]).value)
  }

  /** A filter keeps declaration order, so it never repeats a key. */
  lemma {:induction false} KeysWhereOrdered(fields: seq<Field>, p: Field -> bool)
    requires UniqueKeys(fields)
    ensures InDeclarationOrder(fields, KeysWhere(fields, p))
    ensures forall i, j :: 0 <= i < j < |KeysWhere(fields, p)| ==> KeysWhere(fields, p)[i] != KeysWhere(fields, p)[j]
  {
    if |fields| > 0 {
      var init, last := fields[..|fields| - 1], fields[|fields| - 1];
      var keys, prev := KeysWhere(fields, p), KeysWhere(init, p);
      KeysWhereOrdered(init, p);
      forall k | k in prev ensures FindKey(fields, k) == FindKey(init, k) && FindKey(init, k).Some? {
        var i :| 0 <= i < |init| && init[i].key == k && p(init[i]);
        FindKeyUnique(init, i);
        FindKeyUnique(fields, i);
      }
      FindKeyUnique(fields, |fields| - 1);
      forall i, j | 0 <= i < j < |keys|
        ensures FindKey(fields, keys[i]).Some? && FindKey(fields, keys[j]).Some?
        ensures FindKey(fields, keys[i]).value < FindKey(fields, keys[j]).value
      {
        assert keys[i] in prev;
        if j < |prev| {
          assert keys[j] in prev;
        }
      }
    }
  }

  /** Filtering with a test every field passes gives all keys. */
  lemma {:induction false} KeysWhereAll(fields: seq<Field>, p: Field -> bool)
    requires forall i :: 0 <= i < |fields| ==> p(fields[i])
    ensures KeysWhere(fields, p) == Keys(fields)
  {
    if |fields| > 0 {
      KeysWhereAll(fields[..|fields| - 1], p);
    }
  }

  /** A filter that no field passes selects nothing. */
  lemma NoneSelected(fields: seq<Field>, p: Field -> bool)
    requires forall i :: 0 <= i < |fields| ==> !p(fields[i])
    ensures KeysWhere(fields, p) == []
  {
  }

  /** In declaration order, the first key is the member that comes first in the table. */
  lemma OrderedHead(fields: seq<Field>, a: seq<string>, i: nat)
    requires InDeclarationOrder(fields, a) && 0 < i < |a|
    ensures a[i] != a[0]
  {
    assert FindKey(fields, a[0]).value < FindKey(fields, a[i]).value;
  }

  lemma SameHead(fields: seq<Field>, a: seq<string>, b: seq<string>)
    requires InDeclarationOrder(fields, a) && InDeclarationOrder(fields, b)
    requires forall k :: k in a <==> k in b
    requires |a| > 0
    ensures |b| > 0 && a[0] == b[0]
  {
    assert a[0] in b;
    var j :| 0 <= j < |b| && b[j] == a[0];
    assert b[0] in a;
    var i :| 0 <= i < |a| && a[i] == b[0];
    assert FindKey(fields, a[0]).value <= FindKey(fields, a[i]).value;
    assert FindKey(fields, b[0]).value <= FindKey(fields, b[j]).value;
  }

  /** Two key lists in declaration order with the same members are the same list. */
  lemma {:induction false} OrderedSameKeys(fields: seq<Field>, a: seq<string>, b: seq<string>)
    requires InDeclarationOrder(fields, a) && InDeclarationOrder(fields, b)
    requires forall k :: k in a <==> k in b
    ensures a == b
  {
    if |a| > 0 {
      SameHead(fields, a, b);
      forall k ensures k in a[1..] <==> k in b[1..] {
        if k in a[1..] {
          var x :| 1 <= x < |a| && a[x] == k;
          OrderedHead(fields, a, x);
          assert k in b;
        }
        if k in b[1..] {
          var y :| 1 <= y < |b| && b[y] == k;
          OrderedHead(fields, b, y);
          assert k in a;
        }
      }
      OrderedSameKeys(fields, a[1..], b[1..]);
      assert a == [a[0]] + a[1..] && b == [b[0]] + b[1..];
    } else if |b| > 0 {
      SameHead(fields, b, a);
    }
  }

  /** The field table as the page ships it: thirteen required, suggestable fields, all empty. */
  const AllFields: seq<Field> := [
    Field("firstName", [Name, String], Str(""), "First Name", true, false, Personal, true),
    Field("lastName", [Name, String], Str(""), "Last Name", true, false, Personal, true),
    Field("phone", [MobileNumber, Number], Str(""), "Mobile No", true, false, Personal, true),
    Field("email", [Email, String], Str(""), "Email", true, false, Personal, true),
    Field("headline", [Description, List, String], Str(""), "Profile Headline", true, false, Personal, true),
    Field("lastCompanyName", [Name, String], Str(""), "Last Company Name", true, false, Professional, true),
    Field("lastCompanyDesignation", [Name, String], Str(""), "Last Company Designation", true, false, Professional, true),
    Field("companyDuration", [Date, Number], Str(""), "Company Duration", true, false, Professional, true),
    Field("companyDetails", [Description, List, String], Str(""), "Company Details", true, false, Professional, true),
    Field("collegeName", [Name, String], Str(""), "College Name", true, false, Educational, true),
    Field("course", [Name, String], Str(""), "Degree", true, false, Educational, true),
    Field("collegeDuration", [Date, Number], Str(""), "College Duration", true, false, Educational, true),
    Field("collegeDetails", [Description, String], Str(""), "College Details", true, false, Educational, true)
  ]

  lemma AllFieldsUniqueKeys()
    ensures UniqueKeys(AllFields)
  {
    forall i, j | 0 <= i < j < |AllFields|
      ensures AllFields[i].key != AllFields[j].key
    {
      var a, b := AllFields[i].key, AllFields[j].key;
      if |a| == |b| {
        assert a[0] != b[0] || a[2] != b[2];
      }
    }
  }
}
