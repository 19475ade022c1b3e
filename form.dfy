/**
 * `ResumeParsing.Form`: the registry of field values and the operations that write it
 * (`updateToForm` from the context menu, `_updateFromSidebar` from the form), the date
 * normalisation `_getValidatedDate`, `validateForm` and the percentage `updateFilledFields` shows.
 */
module Form {
  import opened Wrappers
  import opened Text
  import opened Fields
  import opened FormUtilities
  import opened Categories

  // ---------------------------------------------------------------- _getValidatedDate

  /** What `new Date(txt)` yields when the engine can parse the text: `getFullYear()`, `getMonth() + 1`, `getDate()`. */
  datatype EngineDate = EngineDate(year: int, month: nat, day: nat)

  /** `("0" + n).slice(-2)`: the last two characters of the number with a zero in front. */
  function TwoDigits(n: nat): (s: string)
    ensures |s| == 2 && AllDigits(s)
    ensures n < 100 ==> DigitsValue(s) == n
  {
    var t := "0" + NatToString(n);
    DigitsValueOfNatToString(n);
    if n < 10 then
      assert t == ['0', DigitChar(n)];
      t
    else if n < 100 then
      assert NatToString(n) == NatToString(n / 10) + [DigitChar(n % 10)];
      assert t[|t| - 2..] == NatToString(n);
      t[|t| - 2..]
    else t[|t| - 2..]
  }

  /** The separator of the fallback: '.' if the text has one, else '/' if it has one, else '-'. */
  function DateSeparator(txt: string): (c: char)
    ensures c == '.' || c == '/' || c == '-'
    ensures c == '.' <==> '.' in txt
    ensures c == '/' <==> '.' !in txt && '/' in txt
    ensures c in txt || ('.' !in txt && '/' !in txt)
  {
    if '.' in txt then '.' else if '/' in txt then '/' else '-'
  }

  /** The fallback's three variables; `None` is `undefined`, `Some` the number `parseInt` gave. */
  datatype DateSlots = DateSlots(mm: Option<int>, dd: Option<int>, yyyy: Option<int>)

  /** `!slot`: undefined or zero (NaN is never stored). */
  predicate Unset(slot: Option<int>) { slot.None? || slot.value == 0 }

  /**
   * One step of the `forEach`: the part goes to the month if it is at most 12 and no month is
   * set, else to the day if at most 31 and no day is set, else to the year if at least 1970
   * and no year is set; otherwise `dateError` only logs. NaN passes none of the tests.
   */
  function AssignPart(slots: DateSlots, part: string): DateSlots {
    var item := ParseInt(part);
    if item.Some? && item.value <= 12 && Unset(slots.mm) then slots.(mm := item)
    else if item.Some? && item.value <= 31 && Unset(slots.dd) then slots.(dd := item)
    else if item.Some? && item.value >= 1970 && Unset(slots.yyyy) then slots.(yyyy := item)
    else slots
  }

  /** The `forEach` over all parts, from three undefined variables. */
  function AssignParts(parts: seq<string>): DateSlots {
    if |parts| == 0 then DateSlots(None, None, None)
    else AssignPart(AssignParts(parts[..|parts| - 1]), parts[|parts| - 1])
  }

  /** `Array.prototype.join` writes `undefined` as nothing and a number as `String(n)`. */
  function Show(slot: Option<int>): string {
    if slot.None? then "" else IntToString(slot.value)
  }

  /**
   * `_getValidatedDate(txt)`: the engine's reading as `yyyy-mm-dd` with two-digit month and day;
   * when it cannot parse, the fallback split on the separator, and `undefined` when that gives
   * a single part (`dateError`'s `return` only leaves `dateError`).
   */
  function ValidatedDate(txt: string, engine: Option<EngineDate>): Value {
    match engine
    case Some(d) => Str(IntToString(d.year) + "-" + TwoDigits(d.month) + "-" + TwoDigits(d.day))
    case None =>
      var parts := Split(txt, DateSeparator(txt));
      if |parts| > 1 then
        var slots := AssignParts(parts);
        Str(Show(slots.yyyy) + "-" + Show(slots.mm) + "-" + Show(slots.dd))
      else Undefined
  }

  /** `_getValidatedDate` as written, with the `forEach` as a loop over the parts. */
  method GetValidatedDate(txt: string, engine: Option<EngineDate>) returns (v: Value)
    ensures v == ValidatedDate(txt, engine)
  {
    if engine.Some? {
      var d := engine.value;
      return Str(IntToString(d.year) + "-" + TwoDigits(d.month) + "-" + TwoDigits(d.day));
    }
    var separator := if '.' in txt then '.' else if '/' in txt then '/' else '-';
    var parts := Split(txt, separator);
    if |parts| > 1 {
      var mm, dd, yyyy := AssignEach(parts);
      v := Str(Show(yyyy) + "-" + Show(mm) + "-" + Show(dd));
    } else {
      v := Undefined;
    }
  }

  /** The `forEach` that hands each part to the first empty variable its value fits. */
  method AssignEach(parts: seq<string>) returns (mm: Option<int>, dd: Option<int>, yyyy: Option<int>)
    ensures DateSlots(mm, dd, yyyy) == AssignParts(parts)
  {
    mm, dd, yyyy := None, None, None;
    for k := 0 to |parts|
      invariant DateSlots(mm, dd, yyyy) == AssignParts(parts[..k])
    {
      assert parts[..k + 1][..k] == parts[..k];
      var item := ParseInt(parts[k]);
      if item.Some? && item.value <= 12 && Unset(mm) {
        mm := item;
      } else if item.Some? && item.value <= 31 && Unset(dd) {
        dd := item;
      } else if item.Some? && item.value >= 1970 && Unset(yyyy) {
        yyyy := item;
      }
    }
    assert parts[..|parts|] == parts;
  }

  /** Without the engine, the result is `undefined` exactly when the text has none of '.', '/' and '-'. */
  lemma FallbackUndefinedIff(txt: string)
    ensures ValidatedDate(txt, None) == Undefined <==> '.' !in txt && '/' !in txt && '-' !in txt
  {
    SplitPieces(txt, DateSeparator(txt));
  }

  /** Each variable only ever holds a value its test allowed: a month at most 12, a day at most 31, a year from 1970. */
  lemma {:induction false} AssignPartsBounds(parts: seq<string>)
    ensures var s := AssignParts(parts);
      && (s.mm.Some? ==> s.mm.value <= 12)
      && (s.dd.Some? ==> s.dd.value <= 31)
      && (s.yyyy.Some? ==> s.yyyy.value >= 1970)
  {
    if |parts| > 0 {
      AssignPartsBounds(parts[..|parts| - 1]);
    }
  }

  /** A variable that holds a non-zero value is never overwritten by later parts. */
  lemma {:induction false} AssignPartsKeepsSet(parts: seq<string>, k: nat)
    requires k <= |parts|
    ensures !Unset(AssignParts(parts[..k]).mm) ==> AssignParts(parts).mm == AssignParts(parts[..k]).mm
    ensures !Unset(AssignParts(parts[..k]).dd) ==> AssignParts(parts).dd == AssignParts(parts[..k]).dd
    ensures !Unset(AssignParts(parts[..k]).yyyy) ==> AssignParts(parts).yyyy == AssignParts(parts[..k]).yyyy
  {
    if k < |parts| {
      var init := parts[..|parts| - 1];
      assert init[..k] == parts[..k];
      AssignPartsKeepsSet(init, k);
    } else {
      assert parts[..k] == parts;
    }
  }

  lemma ParseSmall(s: string, n: nat)
    requires |s| >= 1 && AllDigits(s) && DigitsValue(s) == n
    ensures ParseInt(s) == Some(n)
  {
    ParseIntOfDigits(s);
  }

  /** Adding one part to the list applies one more step of the `forEach`. */
  lemma AssignPartsSnoc(parts: seq<string>, part: string)
    ensures AssignParts(parts + [part]) == AssignPart(AssignParts(parts), part)
  {
    assert (parts + [part])[..|parts|] == parts;
  }

  /** The step of the `forEach` for a part `parseInt` reads as the number `n`. */
  lemma AssignNumber(slots: DateSlots, part: string, n: int)
    requires ParseInt(part) == Some(n)
    ensures AssignPart(slots, part) ==
      if n <= 12 && Unset(slots.mm) then slots.(mm := Some(n))
      else if n <= 31 && Unset(slots.dd) then slots.(dd := Some(n))
      else if n >= 1970 && Unset(slots.yyyy) then slots.(yyyy := Some(n))
      else slots
  {
  }

  /** A part that no empty variable's test accepts leaves every variable as it was. */
  lemma DropPart(slots: DateSlots, part: string, n: int)
    requires ParseInt(part) == Some(n)
    requires (n > 12 || !Unset(slots.mm)) && (n > 31 || !Unset(slots.dd)) && (n < 1970 || !Unset(slots.yyyy))
    ensures AssignPart(slots, part) == slots
  {
  }

  /** The fallback when the text splits into more than one part. */
  lemma FallbackOf(txt: string, parts: seq<string>, slots: DateSlots)
    requires Split(txt, DateSeparator(txt)) == parts && |parts| > 1 && AssignParts(parts) == slots
    ensures ValidatedDate(txt, None) == Str(Show(slots.yyyy) + "-" + Show(slots.mm) + "-" + Show(slots.dd))
  {
  }

  // ---------------------------------------------------------------- writes to the registry

  /** `fields` with only the value of the field at `i` replaced. */
  function WithValue(fields: seq<Field>, i: nat, v: Value): (r: seq<Field>)
    requires i < |fields|
    ensures |r| == |fields| && r[i].value == v
    ensures forall j :: 0 <= j < |r| && j != i ==> r[j] == fields[j]
    ensures r[i] == fields[i].(value := v)
    ensures forall j :: 0 <= j < |r| ==> r[j].key == fields[j].key
  {
    fields[i := fields[i].(value := v)]
  }

  /** Writing values changes no key, so keys stay unique. */
  lemma WithValueKeys(fields: seq<Field>, i: nat, v: Value)
    requires i < |fields|
    ensures Keys(WithValue(fields, i, v)) == Keys(fields)
    ensures UniqueKeys(fields) ==> UniqueKeys(WithValue(fields, i, v))
  {
    var r := WithValue(fields, i, v);
    KeysAgree(fields, r);
    if UniqueKeys(fields) {
      UniqueKeysAgree(fields, r);
    }
  }

  /** Tables with the same key at every position have the same key list. */
  lemma KeysAgree(a: seq<Field>, b: seq<Field>)
    requires |a| == |b| && forall j :: 0 <= j < |a| ==> a[j].key == b[j].key
    ensures Keys(a) == Keys(b)
  {
    var ka, kb := Keys(a), Keys(b);
    assert forall j :: 0 <= j < |ka| ==> ka[j] == kb[j];
  }

  /** Tables with the same key at every position are both unique-keyed or both not. */
  lemma UniqueKeysAgree(a: seq<Field>, b: seq<Field>)
    requires |a| == |b| && forall j :: 0 <= j < |a| ==> a[j].key == b[j].key
    requires UniqueKeys(a)
    ensures UniqueKeys(b)
  {
  }

  /** What `updateToForm` stores: the date-normalised text for a field that can take a date, else the text. */
  function StoredValue(f: Field, txt: string, engine: Option<EngineDate>): (v: Value)
    ensures Date !in f.like ==> v == Str(txt)
  {
    if Date in f.like then ValidatedDate(txt, engine) else Str(txt)
  }

  /** The error a missing key raises: `af[key]` is `undefined` and reading a property of it throws. */
  function MissingField(key: string): string {
    "TypeError: af[" + key + "] is undefined"
  }

  /**
   * The `Form` module's view of `ResumeParsing.AllFields`: the table whose values the page
   * edits in place. Keys never change, so they stay unique.
   */
  class Registry {
    var fields: seq<Field>

    ghost predicate Valid()
      reads this
    {
      UniqueKeys(fields)
    }

    /** The table as the page loads it. */
    constructor()
      ensures fields == AllFields && Valid()
    {
      fields := AllFields;
      AllFieldsUniqueKeys();
    }

    /**
     * `updateToForm(field, txt)`: a key with no field throws before anything changes; otherwise,
     * when the field's form element is on the page, that field alone gets the stored value.
     */
    method UpdateToForm(key: string, txt: string, elementExists: bool, engine: Option<EngineDate>) returns (r: Outcome)
      requires Valid()
      modifies this
      ensures Valid()
      ensures FindKey(old(fields), key).None? ==> r == Fail(MissingField(key)) && fields == old(fields)
      ensures FindKey(old(fields), key).Some? ==>
        var i := FindKey(old(fields), key).value;
        && r == Pass
        && fields == (if elementExists then WithValue(old(fields), i, StoredValue(old(fields)[i], txt, engine)) else old(fields))
    {
      var found := FindKey(fields, key);
      if found.None? {
        return Fail(MissingField(key));
      }
      var i := found.value;
      if elementExists {
        var item := fields[i];
        var v: Value;
        if Date in item.like {
          v := GetValidatedDate(txt, engine);
        } else {
          v := Str(txt);
        }
        WithValueKeys(fields, i, v);
        fields := fields[i := item.(value := v)];
      }
      r := Pass;
    }

    /**
     * `_updateFromSidebar(el)`: the key is the element id without the first `IdPrefix`; its field
     * takes the element's text as it is (no date normalisation); a key with no field throws.
     */
    method UpdateFromSidebar(elementId: string, val: string) returns (r: Outcome)
      requires Valid()
      modifies this
      ensures Valid()
      ensures var key := ReplaceFirst(elementId, IdPrefix, "");
        && (FindKey(old(fields), key).None? ==> r == Fail(MissingField(key)) && fields == old(fields))
        && (FindKey(old(fields), key).Some? ==> r == Pass && fields == WithValue(old(fields), FindKey(old(fields), key).value, Str(val)))
    {
      var key := ReplaceFirst(elementId, IdPrefix, "");
      var found := FindKey(fields, key);
      if found.None? {
        return Fail(MissingField(key));
      }
      WithValueKeys(fields, found.value, Str(val));
      fields := fields[found.value := fields[found.value].(value := Str(val))];
      r := Pass;
    }

    /** `validateForm`: one alert per required field left blank, in table order. */
    method ValidateForm() returns (msgs: seq<string>)
      ensures msgs == BlankMessages(fields)
    {
      msgs := [];
      for k := 0 to |fields|
        invariant msgs == BlankMessages(fields[..k])
      {
        assert fields[..k + 1][..k] == fields[..k];
        var item := fields[k];
        if item.required && !Filled(item.value) {
          msgs := msgs + [BlankMessage(item)];
        }
      }
      assert fields[..|fields|] == fields;
    }
  }

  // ---------------------------------------------------------------- validateForm

  /** `showError(item.label)` with no message: the label followed by " cannot be blank". */
  function BlankMessage(f: Field): (m: string)
    ensures |m| == |f.labelText| + 16 && m[..|f.labelText|] == f.labelText && m[|f.labelText|..] == " cannot be blank"
  {
    f.labelText + " cannot be blank"
  }

  /** The alerts `validateForm` raises over the table. */
  function BlankMessages(fields: seq<Field>): seq<string> {
    if |fields| == 0 then []
    else
      var last := fields[|fields| - 1];
      BlankMessages(fields[..|fields| - 1]) + (if last.required && !Filled(last.value) then [BlankMessage(last)] else [])
  }

  /**
   * `validateForm` reports exactly the required, unfilled fields, in order and without stopping
   * at the first: the i-th alert is the blank message of the field whose key is the i-th of `getReqLeft`.
   */
  lemma {:induction false} BlankMessagesMatchReqLeft(fields: seq<Field>)
    requires UniqueKeys(fields)
    ensures |BlankMessages(fields)| == |GetReqLeft(fields)|
    ensures forall i :: 0 <= i < |GetReqLeft(fields)| ==>
      FindKey(fields, GetReqLeft(fields)[i]).Some? &&
      BlankMessages(fields)[i] == BlankMessage(fields[FindKey(fields, GetReqLeft(fields)[i]).value])
  {
    if |fields| > 0 {
      var init, last := fields[..|fields| - 1], fields[|fields| - 1];
      BlankMessagesMatchReqLeft(init);
      var msgs, keys := BlankMessages(fields), GetReqLeft(fields);
      var msgs', keys' := BlankMessages(init), GetReqLeft(init);
      FindKeyUnique(fields, |fields| - 1);
      forall i | 0 <= i < |keys|
        ensures FindKey(fields, keys[i]).Some? && msgs[i] == BlankMessage(fields[FindKey(fields, keys[i]).value])
      {
        if i < |keys'| {
          assert keys[i] == keys'[i] && msgs[i] == msgs'[i];
          var j := FindKey(init, keys'[i]).value;
          FindKeyUnique(init, j);
          FindKeyUnique(fields, j);
        }
      }
    }
  }

  /** In the shipped table every field is required and empty: validating it raises thirteen alerts. */
  lemma ShippedValidation()
    ensures |BlankMessages(AllFields)| == 13
  {
    AllFieldsUniqueKeys();
    BlankMessagesMatchReqLeft(AllFields);
    ShippedCounts();
  }

  // ---------------------------------------------------------------- updateFilledFields

  /**
   * The percentage `updateFilledFields(onlyReq)` shows: all filled fields over the required fields
   * (or over all fields), times 100, cut to an integer; `None` stands for the NaN that a zero
   * denominator gives. Exact rational arithmetic stands for the floating-point division.
   */
  function ProgressPercent(fields: seq<Field>, onlyReq: bool): (r: Option<nat>)
    ensures var len := if onlyReq then |GetReq(fields)| else |fields|;
      && (r.None? <==> len == 0)
      && (r.Some? ==> r.value * len <= |GetAllDone(fields)| * 100 < (r.value + 1) * len)
  {
    Percent(|GetAllDone(fields)|, if onlyReq then |GetReq(fields)| else |fields|)
  }

  /** `parseInt(done * 100 / len)`: the floor of the exact percentage, `None` for the NaN of 0 / 0. */
  function Percent(done: nat, len: nat): (r: Option<nat>)
    ensures r.None? <==> len == 0
    ensures r.Some? ==> r.value * len <= done * 100 < (r.value + 1) * len
  {
    if len == 0 then None
    else
      var q := done * 100 / len;
      FloorDivision(done * 100, len);
      Some(q)
  }

  /** The integer quotient is the floor of the exact one. */
  lemma FloorDivision(a: nat, b: nat)
    requires b > 0
    ensures (a / b) * b <= a < (a / b + 1) * b
  {
  }

  /** Over all fields the percentage is at most 100, and 100 exactly when every field is filled. */
  lemma ProgressOverAll(fields: seq<Field>)
    requires |fields| > 0
    ensures ProgressPercent(fields, false).Some?
    ensures ProgressPercent(fields, false).value <= 100
    ensures ProgressPercent(fields, false).value == 100 <==> |GetAllDone(fields)| == |fields|
  {
    FieldCountsAddUp(fields);
    FloorPercent(|GetAllDone(fields)|, |fields|);
  }

  lemma FloorPercent(d: nat, n: nat)
    requires 0 < n && d <= n
    ensures d * 100 / n <= 100
    ensures d * 100 / n == 100 <==> d == n
  {
    var r := d * 100 / n;
    FloorDivision(d * 100, n);
    assert d * 100 <= 100 * n;
    CancelFactor(r, 100, n);
    if d == n {
      CancelFactor(100, r, n);
    }
    if r == 100 {
      CancelFactor(n, d, 100);
    }
  }

  /** A positive factor can be cancelled from both sides of an inequality. */
  lemma CancelFactor(x: int, y: int, n: nat)
    requires n > 0 && x * n <= y * n + (n - 1)
    ensures x <= y
  {
    if x > y {
      assert (y + 1) * n == y * n + n;
      MulMonotone(y + 1, x, n);
    }
  }

  /** Multiplying by the same natural number keeps the order. */
  lemma {:induction false} MulMonotone(a: int, b: int, n: nat)
    requires a <= b
    ensures a * n <= b * n
  {
    if n > 0 {
      MulMonotone(a, b, n - 1);
      assert a * n == a * (n - 1) + a && b * n == b * (n - 1) + b;
    }
  }

  /** When every field is required, counting only required fields changes nothing. */
  lemma ProgressAllRequired(fields: seq<Field>)
    requires forall i :: 0 <= i < |fields| ==> fields[i].required
    ensures ProgressPercent(fields, true) == ProgressPercent(fields, false)
  {
    KeysWhereAll(fields, (f: Field) => f.required);
    assert GetReq(fields) == Keys(fields);
  }

  /**
   * The numerator counts optional fields too, so over required fields the bar can pass 100: one
   * filled required field and one filled optional field read as 200%.
   */
  lemma ProgressCanExceed100(a: Field, b: Field)
    requires a.required && !b.required && Filled(a.value) && Filled(b.value)
    ensures ProgressPercent([a, b], true) == Some(200)
  {
    var fs := [a, b];
    assert fs[..1] == [a] && [a][..0] == [];
    var req := (f: Field) => f.required;
    var done := (f: Field) => Filled(f.value);
    assert KeysWhere([a], req) == [a.key] && KeysWhere([a], done) == [a.key];
    assert GetReq(fs) == KeysWhere(fs, req) == [a.key];
    assert GetAllDone(fs) == KeysWhere(fs, done) == [a.key, b.key];
  }

  /**
   * The percentage as evidently intended: over required fields the numerator is the filled
   * required fields (`getReqDone`), over all fields it is every filled field.
   */
  function IntendedProgressPercent(fields: seq<Field>, onlyReq: bool): (r: Option<nat>)
    ensures var len := if onlyReq then |GetReq(fields)| else |fields|;
      r.None? <==> len == 0
  {
    var len := if onlyReq then |GetReq(fields)| else |fields|;
    var done := if onlyReq then |GetReqDone(fields)| else |GetAllDone(fields)|;
    if len == 0 then None else Some(done * 100 / len)
  }

  /** The intended bar never passes 100, and reads 100 exactly when no counted field is left. */
  lemma IntendedProgressAtMost100(fields: seq<Field>, onlyReq: bool)
    requires (if onlyReq then |GetReq(fields)| else |fields|) > 0
    ensures IntendedProgressPercent(fields, onlyReq).Some?
    ensures IntendedProgressPercent(fields, onlyReq).value <= 100
    ensures onlyReq ==> (IntendedProgressPercent(fields, true).value == 100 <==> GetReqLeft(fields) == [])
    ensures !onlyReq ==> (IntendedProgressPercent(fields, false).value == 100 <==> GetAllLeft(fields) == [])
  {
    FieldCountsAddUp(fields);
    if onlyReq {
      FloorPercent(|GetReqDone(fields)|, |GetReq(fields)|);
    } else {
      FloorPercent(|GetAllDone(fields)|, |fields|);
    }
  }

  // ---------------------------------------------------------------- the Next button

  const SuccessMessage: string := "Success, all of the items are properly filled"

  /** Every blank-field alert ends in "blank", so none is the success alert. */
  lemma BlankMessagesNotSuccess(fields: seq<Field>)
    ensures SuccessMessage !in BlankMessages(fields)
  {
    forall m | m in BlankMessages(fields) ensures |m| > 0 && m[|m| - 1] == 'k' {
      BlankMessagesEndInBlank(fields, m);
    }
    assert SuccessMessage[|SuccessMessage| - 1] == 'd';
  }

  lemma {:induction false} BlankMessagesEndInBlank(fields: seq<Field>, m: string)
    requires m in BlankMessages(fields)
    ensures |m| > 0 && m[|m| - 1] == 'k'
  {
    var init, last := fields[..|fields| - 1], fields[|fields| - 1];
    if m in BlankMessages(init) {
      BlankMessagesEndInBlank(init, m);
    } else {
      assert m == BlankMessage(last);
      assert m[|last.labelText|..][15] == 'k';
    }
  }

  /**
   * The alerts a click on Next raises as written: `validateForm` only alerts, it neither throws
   * nor returns a verdict, so the success alert follows in every case.
   */
  function NextAlerts(fields: seq<Field>): (alerts: seq<string>)
    ensures |alerts| > 0 && alerts[|alerts| - 1] == SuccessMessage
    ensures alerts[..|alerts| - 1] == BlankMessages(fields)
  {
    BlankMessages(fields) + [SuccessMessage]
  }

  /** On the page as loaded, with every required field blank, Next reports thirteen blanks and then success. */
  lemma NextAlwaysSucceeds()
    ensures |BlankMessages(AllFields)| == 13 && SuccessMessage in NextAlerts(AllFields)
  {
    ShippedValidation();
    var a := NextAlerts(AllFields);
    assert a[|a| - 1] == SuccessMessage;
  }

  /** Next as its comment describes it: the success alert only when no required field is blank. */
  function NextAlertsStopping(fields: seq<Field>): (alerts: seq<string>)
    ensures |alerts| > 0
  {
    var blanks := BlankMessages(fields);
    if |blanks| == 0 then [SuccessMessage] else blanks
  }

  /** With the corrected Next, success is reported exactly when every required field is filled. */
  lemma NextSuccessIff(fields: seq<Field>)
    requires UniqueKeys(fields)
    ensures SuccessMessage in NextAlertsStopping(fields) <==> GetReqLeft(fields) == []
  {
    BlankMessagesMatchReqLeft(fields);
    BlankMessagesNotSuccess(fields);
  }
}
