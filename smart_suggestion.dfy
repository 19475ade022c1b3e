/**
 * `ResumeParsing.SmartSuggestion`: from a selected text to the keys of the fields it most
 * likely belongs to. `analyze` tries the categories in a fixed order and `_suggest` turns the
 * winning category into the suggestable fields whose `like` list names it, or into every
 * suggestable field when none does.
 */
module SmartSuggestion {
  import opened Wrappers
  import opened Text
  import opened Categories
  import opened Fields
  import opened Utility
  import opened Classifier

  /** Keys of the suggestable fields whose `like` list names `c`, in declaration order. */
  function Matching(fields: seq<Field>, c: Category): seq<string> {
    KeysWhere(fields, (f: Field) => f.canSuggest && c in f.like)
  }

  /** `getAllFieldsForSuggestion`: the keys of every suggestable field. */
  function AllSuggestable(fields: seq<Field>): seq<string> {
    KeysWhere(fields, (f: Field) => f.canSuggest)
  }

  /** `ifAllSuggested(arr)`: compares lengths only. */
  predicate IfAllSuggested(fields: seq<Field>, arr: seq<string>) {
    |arr| == |AllSuggestable(fields)|
  }

  /** Some suggestable field takes text of category `c`. */
  predicate SomeFieldTakes(fields: seq<Field>, c: Category) {
    exists i :: 0 <= i < |fields| && fields[i].canSuggest && c in fields[i].like
  }

  lemma MatchingMembers(fields: seq<Field>, c: Category)
    ensures forall k :: k in Matching(fields, c) <==>
      exists i :: 0 <= i < |fields| && fields[i].key == k && fields[i].canSuggest && c in fields[i].like
    ensures |Matching(fields, c)| > 0 <==> SomeFieldTakes(fields, c)
  {
    if SomeFieldTakes(fields, c) {
      var i :| 0 <= i < |fields| && fields[i].canSuggest && c in fields[i].like;
      assert fields[i].key in Matching(fields, c);
    }
    if |Matching(fields, c)| > 0 {
      assert Matching(fields, c)[0] in Matching(fields, c);
    }
  }

  lemma AllSuggestableNonEmpty(fields: seq<Field>)
    ensures |AllSuggestable(fields)| > 0 ==> AllSuggestable(fields)[0] in AllSuggestable(fields)
  {
  }

  /**
   * `_suggest(type)`: when a category is given and some suggestable field takes it, exactly the
   * keys of those fields; otherwise (no category, or nobody takes it) every suggestable key.
   */
  function SuggestFor(fields: seq<Field>, t: Option<Category>): (r: seq<string>)
    ensures t.Some? && SomeFieldTakes(fields, t.value) ==>
      forall k :: k in r <==> exists i :: 0 <= i < |fields| && fields[i].key == k && fields[i].canSuggest && t.value in fields[i].like
    ensures !(t.Some? && SomeFieldTakes(fields, t.value)) ==> r == AllSuggestable(fields)
    ensures forall k :: k in r ==> k in AllSuggestable(fields)
    ensures |AllSuggestable(fields)| > 0 ==> |r| > 0
  {
    AllSuggestableNonEmpty(fields);
    if t.Some? then
      MatchingMembers(fields, t.value);
      if |Matching(fields, t.value)| > 0 then Matching(fields, t.value) else AllSuggestable(fields)
    else AllSuggestable(fields)
  }

  /** Suggestions follow the order of the table and never repeat a key. */
  lemma SuggestionsOrdered(fields: seq<Field>, t: Option<Category>)
    requires UniqueKeys(fields)
    ensures InDeclarationOrder(fields, SuggestFor(fields, t))
    ensures forall i, j :: 0 <= i < j < |SuggestFor(fields, t)| ==> SuggestFor(fields, t)[i] != SuggestFor(fields, t)[j]
  {
    if t.Some? {
      KeysWhereOrdered(fields, (f: Field) => f.canSuggest && t.value in f.like);
    }
    KeysWhereOrdered(fields, (f: Field) => f.canSuggest);
  }

  /** `_suggest(type)` as written: the `for ... in af` loop with its `indexOf` test, then the fallback. */
  method Suggest(fields: seq<Field>, t: Option<Category>) returns (sug: seq<string>)
    requires UniqueKeys(fields)
    ensures sug == SuggestFor(fields, t)
  {
    sug := [];
    if t.Some? {
      var c := t.value;
      for i := 0 to |fields|
        invariant sug == Matching(fields[..i], c)
      {
        var o := fields[i];
        assert fields[..i + 1][..i] == fields[..i];
        assert forall j :: 0 <= j < i ==> fields[..i][j].key != o.key;
        if c in o.like && o.key !in sug && o.canSuggest {
          sug := sug + [o.key];
        }
      }
      assert fields[..|fields|] == fields;
    }
    if |sug| == 0 {
      sug := AllSuggestable(fields);
    }
  }

  /** The number categories `_suggestAllNumberTypes` consults, in its order. */
  const NumberTypes: seq<Category> := [Number, SmallNumber, MobileNumber, Date]

  /** One of the four lists: empty when its category is excluded, else `_suggest(type)`. */
  function TypeSuggestions(fields: seq<Field>, exclude: seq<Category>, c: Category): seq<string> {
    if c in exclude then [] else SuggestFor(fields, Some(c))
  }

  /**
   * `uniqueSuggestions.add(...list)` guarded by `!ifAllSuggested(list) && list.length > 0`:
   * `Set.prototype.add` takes one argument, so only the list's first key is added.
   */
  function AddFirst(total: nat, acc: seq<string>, list: seq<string>): seq<string> {
    if |list| != total && |list| > 0 && list[0] !in acc then acc + [list[0]] else acc
  }

  /** The four guarded `add` calls in order, with `total` the count `ifAllSuggested` compares with. */
  function NumberUnion(total: nat, numeric: seq<string>, small: seq<string>, mobile: seq<string>, date: seq<string>): seq<string> {
    AddFirst(total, AddFirst(total, AddFirst(total, AddFirst(total, [], numeric), small), mobile), date)
  }

  /** `_suggestAllNumberTypes(excludeTypes)`: the set folded over the four lists, as an array. */
  function AllNumberSuggestions(fields: seq<Field>, exclude: seq<Category>): seq<string> {
    NumberUnion(|AllSuggestable(fields)|,
      TypeSuggestions(fields, exclude, Number), TypeSuggestions(fields, exclude, SmallNumber),
      TypeSuggestions(fields, exclude, MobileNumber), TypeSuggestions(fields, exclude, Date))
  }

  /** Category `c` contributes key `k`: it is not excluded and `k` heads its list, which is neither empty nor everything. */
  predicate Contributes(fields: seq<Field>, exclude: seq<Category>, c: Category, k: string) {
    var l := TypeSuggestions(fields, exclude, c);
    |l| > 0 && !IfAllSuggested(fields, l) && l[0] == k
  }

  /**
   * What `_suggestAllNumberTypes` returns: at most four distinct keys, each the first
   * suggestion of some number category that is neither excluded nor answered by the fallback
   * of every field; the other suggestions of each category are lost.
   */
  lemma AllNumberSuggestionsMeaning(fields: seq<Field>, exclude: seq<Category>)
    ensures var r := AllNumberSuggestions(fields, exclude);
      && |r| <= 4
      && (forall i, j :: 0 <= i < j < |r| ==> r[i] != r[j])
      && (forall k :: k in r <==>
            Contributes(fields, exclude, Number, k) || Contributes(fields, exclude, SmallNumber, k)
            || Contributes(fields, exclude, MobileNumber, k) || Contributes(fields, exclude, Date, k))
  {
    var total := |AllSuggestable(fields)|;
    var s1 := AddFirst(total, [], TypeSuggestions(fields, exclude, Number));
    var s2 := AddFirst(total, s1, TypeSuggestions(fields, exclude, SmallNumber));
    var s3 := AddFirst(total, s2, TypeSuggestions(fields, exclude, MobileNumber));
    AddFirstStep(fields, exclude, [], Number);
    AddFirstStep(fields, exclude, s1, SmallNumber);
    AddFirstStep(fields, exclude, s2, MobileNumber);
    AddFirstStep(fields, exclude, s3, Date);
  }

  /** One guarded `add`: the category's key joins the set when it contributes one, and nothing else does. */
  lemma AddFirstStep(fields: seq<Field>, exclude: seq<Category>, acc: seq<string>, c: Category)
    requires forall i, j :: 0 <= i < j < |acc| ==> acc[i] != acc[j]
    ensures var r := AddFirst(|AllSuggestable(fields)|, acc, TypeSuggestions(fields, exclude, c));
      && |r| <= |acc| + 1
      && (forall i, j :: 0 <= i < j < |r| ==> r[i] != r[j])
      && (forall k :: k in r <==> k in acc || Contributes(fields, exclude, c, k))
  {
  }

  /** `_suggestAllNumberTypes` as written: four guarded `add` calls on a set. */
  method SuggestAllNumberTypes(fields: seq<Field>, exclude: seq<Category>) returns (all: seq<string>)
    requires UniqueKeys(fields)
    ensures all == AllNumberSuggestions(fields, exclude)
  {
    var numeric: seq<string> := [];
    if Number !in exclude { numeric := Suggest(fields, Some(Number)); }
    var smallNumber: seq<string> := [];
    if SmallNumber !in exclude { smallNumber := Suggest(fields, Some(SmallNumber)); }
    var mobile: seq<string> := [];
    if MobileNumber !in exclude { mobile := Suggest(fields, Some(MobileNumber)); }
    var date: seq<string> := [];
    if Date !in exclude { date := Suggest(fields, Some(Date)); }
    var total := |AllSuggestable(fields)|;
    all := [];
    if |numeric| != total && |numeric| > 0 && numeric[0] !in all { all := all + [numeric[0]]; }
    if |smallNumber| != total && |smallNumber| > 0 && smallNumber[0] !in all { all := all + [smallNumber[0]]; }
    if |mobile| != total && |mobile| > 0 && mobile[0] !in all { all := all + [mobile[0]]; }
    if |date| != total && |date| > 0 && date[0] !in all { all := all + [date[0]]; }
  }

  // ---------------------------------------------------------------- analyze

  /** `analyzeNumber(txt)`: a text with a digit in it. */
  function AnalyzeNumber(m: Matchers, fields: seq<Field>, txt: string): (r: Result<seq<string>>)
    ensures r.Err? <==> |txt| == 0
  {
    var isNumber :- MayBeA(m, Number, txt);
    if isNumber then
      if MayBeA(m, SmallNumber, txt).value then Ok(SuggestFor(fields, Some(SmallNumber)))
      else Ok(AllNumberSuggestions(fields, [SmallNumber, Date]))
    else if MayBeA(m, MobileNumber, txt).value then Ok(SuggestFor(fields, Some(MobileNumber)))
    else if MayBeA(m, Currency, txt).value then Ok(SuggestFor(fields, Some(Currency)))
    else if MayBeA(m, Date, txt).value then Ok(SuggestFor(fields, Some(Date)))
    else Ok(SuggestFor(fields, None))
  }

  /** `analyzeShortString(txt)`: a text without a digit. */
  function AnalyzeShortString(m: Matchers, fields: seq<Field>, txt: string): (r: Result<seq<string>>)
    ensures r.Err? <==> |txt| == 0
  {
    var isEmail :- MayBeA(m, Email, txt);
    if isEmail then Ok(SuggestFor(fields, Some(Email)))
    else if MayBeA(m, Name, txt).value then Ok(SuggestFor(fields, Some(Name)))
    else Ok(SuggestFor(fields, None))
  }

  /**
   * `analyze(txt)`: list first, then description, then the digit and the no-digit paths; the
   * first `mayBeA` call throws for an empty text.
   */
  function Analyze(m: Matchers, fields: seq<Field>, txt: string): (r: Result<seq<string>>)
    ensures r.Err? <==> |txt| == 0
  {
    var isList :- MayBeA(m, List, txt);
    if isList then Ok(SuggestFor(fields, Some(List)))
    else if MayBeA(m, Description, txt).value then Ok(SuggestFor(fields, Some(Description)))
    else if MayBeA(m, ContainsNumber, txt).value then AnalyzeNumber(m, fields, txt)
    else AnalyzeShortString(m, fields, txt)
  }

  /** Each key `_suggestAllNumberTypes` returns names a suggestable field. */
  lemma NumberSuggestionsAreFields(fields: seq<Field>, exclude: seq<Category>)
    ensures forall k :: k in AllNumberSuggestions(fields, exclude) ==> k in AllSuggestable(fields)
  {
    AllNumberSuggestionsMeaning(fields, exclude);
    forall k | k in AllNumberSuggestions(fields, exclude) ensures k in AllSuggestable(fields) {
      var c :| c in NumberTypes && Contributes(fields, exclude, c, k);
      var l := TypeSuggestions(fields, exclude, c);
      assert Contributes(fields, exclude, c, k);
      assert |l| > 0 && l[0] == k;
      assert c !in exclude;
      assert l == SuggestFor(fields, Some(c));
      assert l[0] in l;
    }
  }

  /** What `analyze` can return: one `_suggest` list, or the number-type union for a large number. */
  lemma AnalyzeOutcome(m: Matchers, fields: seq<Field>, txt: string) returns (t: Option<Category>)
    requires |txt| > 0
    ensures Analyze(m, fields, txt).value == SuggestFor(fields, t)
         || Analyze(m, fields, txt).value == AllNumberSuggestions(fields, [SmallNumber, Date])
  {
    if MayBeA(m, List, txt).value { t := Some(List); }
    else if MayBeA(m, Description, txt).value { t := Some(Description); }
    else if MayBeA(m, ContainsNumber, txt).value {
      if MayBeA(m, Number, txt).value { t := Some(SmallNumber); }
      else if MayBeA(m, MobileNumber, txt).value { t := Some(MobileNumber); }
      else if MayBeA(m, Currency, txt).value { t := Some(Currency); }
      else if MayBeA(m, Date, txt).value { t := Some(Date); }
      else { t := None; }
    } else {
      if MayBeA(m, Email, txt).value { t := Some(Email); }
      else if MayBeA(m, Name, txt).value { t := Some(Name); }
      else { t := None; }
    }
  }

  /** Every suggestion names a suggestable field; in a table with unique keys none repeats. */
  lemma AnalyzeSuggestsFields(m: Matchers, fields: seq<Field>, txt: string)
    requires UniqueKeys(fields) && |txt| > 0
    ensures forall k :: k in Analyze(m, fields, txt).value ==> k in AllSuggestable(fields)
    ensures var r := Analyze(m, fields, txt).value; forall i, j :: 0 <= i < j < |r| ==> r[i] != r[j]
  {
    var t := AnalyzeOutcome(m, fields, txt);
    SuggestionsOrdered(fields, t);
    NumberSuggestionsAreFields(fields, [SmallNumber, Date]);
    AllNumberSuggestionsMeaning(fields, [SmallNumber, Date]);
  }

  // ---------------------------------------------------------------- the shipped table

  /** When the fields taking `c` sit at the increasing positions `idx`, `Matching` lists their keys in that order. */
  lemma MatchingAt(fields: seq<Field>, c: Category, idx: seq<nat>, keys: seq<string>)
    requires UniqueKeys(fields)
    requires |keys| == |idx|
    requires forall j :: 0 <= j < |idx| ==> idx[j] < |fields| && fields[idx[j]].key == keys[j]
    requires forall j, j' :: 0 <= j < j' < |idx| ==> idx[j] < idx[j']
    requires forall i :: 0 <= i < |fields| ==> (fields[i].canSuggest && c in fields[i].like <==> i in idx)
    ensures Matching(fields, c) == keys
  {
    forall j | 0 <= j < |idx| ensures FindKey(fields, keys[j]) == Some(idx[j]) {
      FindKeyUnique(fields, idx[j]);
    }
    MatchingMembers(fields, c);
    forall k ensures k in Matching(fields, c) <==> k in keys {
      if k in keys {
        var j :| 0 <= j < |idx| && keys[j] == k;
        assert fields[idx[j]].key == k && idx[j] in idx;
      }
      if k in Matching(fields, c) {
        var i :| 0 <= i < |fields| && fields[i].key == k && fields[i].canSuggest && c in fields[i].like;
        var j :| 0 <= j < |idx| && idx[j] == i;
        assert keys[j] == k;
      }
    }
    KeysWhereOrdered(fields, (f: Field) => f.canSuggest && c in f.like);
    OrderedSameKeys(fields, Matching(fields, c), keys);
  }

  /** The shipped table: the headline and the company details take lists. */
  lemma ShippedListFields()
    ensures Matching(AllFields, List) == ["headline", "companyDetails"]
  {
    AllFieldsUniqueKeys();
    ListFieldPositions();
    MatchingAt(AllFields, List, [4, 8], ["headline", "companyDetails"]);
  }

  /** The shipped table: the three free-text fields take descriptions. */
  lemma ShippedDescriptionFields()
    ensures Matching(AllFields, Description) == ["headline", "companyDetails", "collegeDetails"]
  {
    AllFieldsUniqueKeys();
    DescriptionFieldPositions();
    MatchingAt(AllFields, Description, [4, 8, 12], ["headline", "companyDetails", "collegeDetails"]);
  }

  /** The shipped table: only the e-mail field takes an e-mail address. */
  lemma ShippedEmailFields()
    ensures Matching(AllFields, Email) == ["email"]
  {
    AllFieldsUniqueKeys();
    EmailFieldPositions();
    MatchingAt(AllFields, Email, [3], ["email"]);
  }

  /** The shipped table: six fields take names. */
  lemma ShippedNameFields()
    ensures Matching(AllFields, Name) == NameKeys
  {
    AllFieldsUniqueKeys();
    NameFieldPositions();
    NameFieldKeys();
    MatchingAt(AllFields, Name, NameIdx, NameKeys);
  }

  /** Where the name fields sit in the shipped table, and their keys. */
  const NameIdx: seq<nat> := [0, 1, 5, 6, 9, 10]
  const NameKeys: seq<string> := ["firstName", "lastName", "lastCompanyName", "lastCompanyDesignation", "collegeName", "course"]

  lemma NameFieldKeys()
    ensures |NameKeys| == |NameIdx|
    ensures forall j :: 0 <= j < |NameIdx| ==> NameIdx[j] < |AllFields| && AllFields[NameIdx[j]].key == NameKeys[j]
    ensures forall j, j' :: 0 <= j < j' < |NameIdx| ==> NameIdx[j] < NameIdx[j']
  {
  }

  lemma NameFieldPositions()
    ensures forall i :: 0 <= i < |AllFields| ==> (AllFields[i].canSuggest && Name in AllFields[i].like <==> i in NameIdx)
  {
    var fs := AllFields;
    forall i | 0 <= i < |fs| ensures fs[i].canSuggest && Name in fs[i].like <==> i in NameIdx {
      assert i in NameIdx <==> i == 0 || i == 1 || i == 5 || i == 6 || i == 9 || i == 10;
    }
  }

  /** The shipped table: the phone and the two durations take numbers. */
  lemma ShippedNumberFields()
    ensures Matching(AllFields, Number) == ["phone", "companyDuration", "collegeDuration"]
  {
    AllFieldsUniqueKeys();
    NumberFieldPositions();
    MatchingAt(AllFields, Number, [2, 7, 11], ["phone", "companyDuration", "collegeDuration"]);
  }

  /** The shipped table: only the phone takes a mobile number. */
  lemma ShippedMobileFields()
    ensures Matching(AllFields, MobileNumber) == ["phone"]
  {
    AllFieldsUniqueKeys();
    MobileNumberFieldPositions();
    MatchingAt(AllFields, MobileNumber, [2], ["phone"]);
  }

  /** The shipped table: the two durations take dates. */
  lemma ShippedDateFields()
    ensures Matching(AllFields, Date) == ["companyDuration", "collegeDuration"]
  {
    AllFieldsUniqueKeys();
    DateFieldPositions();
    MatchingAt(AllFields, Date, [7, 11], ["companyDuration", "collegeDuration"]);
  }

  lemma ListFieldPositions()
    ensures forall i :: 0 <= i < |AllFields| ==> (AllFields[i].canSuggest && List in AllFields[i].like <==> i in [4, 8])
  {
    var fs := AllFields;
    assert forall i :: 0 <= i < |fs| ==> (fs[i].canSuggest && List in fs[i].like <==> i in [4, 8]);
  }

  lemma DescriptionFieldPositions()
    ensures forall i :: 0 <= i < |AllFields| ==> (AllFields[i].canSuggest && Description in AllFields[i].like <==> i in [4, 8, 12])
  {
    var fs := AllFields;
    assert forall i :: 0 <= i < |fs| ==> (fs[i].canSuggest && Description in fs[i].like <==> i in [4, 8, 12]);
  }

  lemma EmailFieldPositions()
    ensures forall i :: 0 <= i < |AllFields| ==> (AllFields[i].canSuggest && Email in AllFields[i].like <==> i in [3])
  {
    var fs := AllFields;
    assert forall i :: 0 <= i < |fs| ==> (fs[i].canSuggest && Email in fs[i].like <==> i in [3]);
  }

  lemma NumberFieldPositions()
    ensures forall i :: 0 <= i < |AllFields| ==> (AllFields[i].canSuggest && Number in AllFields[i].like <==> i in [2, 7, 11])
  {
    var fs := AllFields;
    assert forall i :: 0 <= i < |fs| ==> (fs[i].canSuggest && Number in fs[i].like <==> i in [2, 7, 11]);
  }

  lemma MobileNumberFieldPositions()
    ensures forall i :: 0 <= i < |AllFields| ==> (AllFields[i].canSuggest && MobileNumber in AllFields[i].like <==> i in [2])
  {
    var fs := AllFields;
    assert forall i :: 0 <= i < |fs| ==> (fs[i].canSuggest && MobileNumber in fs[i].like <==> i in [2]);
  }

  lemma DateFieldPositions()
    ensures forall i :: 0 <= i < |AllFields| ==> (AllFields[i].canSuggest && Date in AllFields[i].like <==> i in [7, 11])
  {
    var fs := AllFields;
    assert forall i :: 0 <= i < |fs| ==> (fs[i].canSuggest && Date in fs[i].like <==> i in [7, 11]);
  }

  /** The shipped table: no field takes small numbers or amounts, so those fall back to every field. */
  lemma ShippedUnmatched()
    ensures Matching(AllFields, SmallNumber) == [] && Matching(AllFields, Currency) == []
  {
    var fs := AllFields;
    assert forall i :: 0 <= i < |fs| ==> SmallNumber !in fs[i].like && Currency !in fs[i].like;
    NoneSelected(fs, (f: Field) => f.canSuggest && SmallNumber in f.like);
    NoneSelected(fs, (f: Field) => f.canSuggest && Currency in f.like);
  }

  /** The shipped table: every field can be suggested. */
  lemma ShippedAllSuggestable()
    ensures AllSuggestable(AllFields) == Keys(AllFields) && |AllSuggestable(AllFields)| == 13
  {
    var fs := AllFields;
    assert forall i :: 0 <= i < |fs| ==> fs[i].canSuggest;
    KeysWhereAll(fs, (f: Field) => f.canSuggest);
  }

  /**
   * The shipped table: for a large number only "phone" survives `_suggestAllNumberTypes`; the
   * two durations, which also take numbers, are lost to `Set.add` taking one argument.
   */
  lemma ShippedNumberUnion()
    ensures AllNumberSuggestions(AllFields, [SmallNumber, Date]) == ["phone"]
    ensures SuggestFor(AllFields, Some(Number)) == ["phone", "companyDuration", "collegeDuration"]
  {
    ShippedNumberFields();
    ShippedMobileFields();
    ShippedAllSuggestable();
    MatchingMembers(AllFields, Number);
    MatchingMembers(AllFields, MobileNumber);
  }

  // ---------------------------------------------------------------- analyze on the shipped table

  /** The order of `analyze`: list, then description, then digit or no digit. */
  lemma AnalyzeRoutes(m: Matchers, fields: seq<Field>, txt: string)
    requires |txt| > 0
    ensures CheckListType(txt) ==> Analyze(m, fields, txt) == Ok(SuggestFor(fields, Some(List)))
    ensures !CheckListType(txt) && DescriptionLike(txt) ==> Analyze(m, fields, txt) == Ok(SuggestFor(fields, Some(Description)))
    ensures !CheckListType(txt) && !DescriptionLike(txt) && HasDigit(txt) ==> Analyze(m, fields, txt) == AnalyzeNumber(m, fields, txt)
    ensures !CheckListType(txt) && !DescriptionLike(txt) && !HasDigit(txt) ==> Analyze(m, fields, txt) == AnalyzeShortString(m, fields, txt)
  {
    assert MayBeA(m, List, txt) == Ok(CheckListType(txt));
    assert MayBeA(m, Description, txt) == Ok(DescriptionLike(txt));
    assert MayBeA(m, ContainsNumber, txt) == Ok(HasDigit(txt));
  }

  /** The order of `analyzeNumber`: number (small or not), then mobile, currency, date, and the fallback. */
  lemma AnalyzeNumberRoutes(m: Matchers, fields: seq<Field>, txt: string)
    requires |txt| > 0
    ensures IsNumber(txt) && SmallNumberLike(txt) ==> AnalyzeNumber(m, fields, txt) == Ok(SuggestFor(fields, Some(SmallNumber)))
    ensures IsNumber(txt) && !SmallNumberLike(txt) ==> AnalyzeNumber(m, fields, txt) == Ok(AllNumberSuggestions(fields, [SmallNumber, Date]))
    ensures !IsNumber(txt) && MobileLike(txt) ==> AnalyzeNumber(m, fields, txt) == Ok(SuggestFor(fields, Some(MobileNumber)))
    ensures !IsNumber(txt) && !MobileLike(txt) && m.currency(txt) ==> AnalyzeNumber(m, fields, txt) == Ok(SuggestFor(fields, Some(Currency)))
    ensures !IsNumber(txt) && !MobileLike(txt) && !m.currency(txt) && DateLike(m, txt) ==> AnalyzeNumber(m, fields, txt) == Ok(SuggestFor(fields, Some(Date)))
    ensures !IsNumber(txt) && !MobileLike(txt) && !m.currency(txt) && !DateLike(m, txt) ==> AnalyzeNumber(m, fields, txt) == Ok(SuggestFor(fields, None))
  {
    assert MayBeA(m, Number, txt) == Ok(IsNumber(txt));
    assert MayBeA(m, SmallNumber, txt) == Ok(SmallNumberLike(txt));
    assert MayBeA(m, MobileNumber, txt) == Ok(MobileLike(txt));
    assert MayBeA(m, Currency, txt) == Ok(m.currency(txt));
    assert MayBeA(m, Date, txt) == Ok(DateLike(m, txt));
  }

  /** The order of `analyzeShortString`: e-mail, then name, then the fallback. */
  lemma AnalyzeShortStringRoutes(m: Matchers, fields: seq<Field>, txt: string)
    requires |txt| > 0
    ensures m.email(txt) ==> AnalyzeShortString(m, fields, txt) == Ok(SuggestFor(fields, Some(Email)))
    ensures !m.email(txt) && NameLike(txt) ==> AnalyzeShortString(m, fields, txt) == Ok(SuggestFor(fields, Some(Name)))
    ensures !m.email(txt) && !NameLike(txt) ==> AnalyzeShortString(m, fields, txt) == Ok(SuggestFor(fields, None))
  {
    assert MayBeA(m, Email, txt) == Ok(m.email(txt));
    assert MayBeA(m, Name, txt) == Ok(NameLike(txt));
  }

  /** For a text with a digit the e-mail test is never consulted: two matcher sets that differ only there agree. */
  lemma DigitTextIgnoresEmail(m1: Matchers, m2: Matchers, fields: seq<Field>, txt: string)
    requires |txt| > 0 && HasDigit(txt)
    requires m1.currency == m2.currency && m1.monthDate == m2.monthDate
    ensures Analyze(m1, fields, txt) == Analyze(m2, fields, txt)
  {
    AnalyzeRoutes(m1, fields, txt);
    AnalyzeRoutes(m2, fields, txt);
    AnalyzeNumberRoutes(m1, fields, txt);
    AnalyzeNumberRoutes(m2, fields, txt);
  }

  /** For a text without a digit the currency and month-name date tests are never consulted. */
  lemma DigitFreeTextIgnoresNumberTests(m1: Matchers, m2: Matchers, fields: seq<Field>, txt: string)
    requires |txt| > 0 && !HasDigit(txt)
    requires m1.email == m2.email
    ensures Analyze(m1, fields, txt) == Analyze(m2, fields, txt)
  {
    AnalyzeRoutes(m1, fields, txt);
    AnalyzeRoutes(m2, fields, txt);
    AnalyzeShortStringRoutes(m1, fields, txt);
    AnalyzeShortStringRoutes(m2, fields, txt);
  }

  /** The shipped table: a list goes to the headline and the company details. */
  lemma ShippedList(m: Matchers, txt: string)
    requires |txt| > 0 && CheckListType(txt)
    ensures Analyze(m, AllFields, txt) == Ok(["headline", "companyDetails"])
  {
    AnalyzeRoutes(m, AllFields, txt);
    ShippedListFields();
    MatchingMembers(AllFields, List);
  }

  /** The shipped table: any number that is not small yields exactly `["phone"]`. */
  lemma ShippedLargeNumber(m: Matchers, txt: string)
    requires IsNumber(txt) && !SmallNumberLike(txt)
    ensures Analyze(m, AllFields, txt) == Ok(["phone"])
  {
    NumberIsOneWord(txt);
    IsNumberIff(txt);
    assert IsDigit(txt[|txt| - 1]);
    AnalyzeRoutes(m, AllFields, txt);
    AnalyzeNumberRoutes(m, AllFields, txt);
    ShippedNumberUnion();
  }

  /** The shipped table: no field takes small numbers, so a small number gets every field. */
  lemma ShippedSmallNumber(m: Matchers, txt: string)
    requires SmallNumberLike(txt)
    ensures Analyze(m, AllFields, txt) == Ok(Keys(AllFields))
  {
    NumberIsOneWord(txt);
    IsNumberIff(txt);
    assert IsDigit(txt[|txt| - 1]);
    AnalyzeRoutes(m, AllFields, txt);
    AnalyzeNumberRoutes(m, AllFields, txt);
    ShippedUnmatched();
    ShippedAllSuggestable();
    MatchingMembers(AllFields, SmallNumber);
  }

  /** The shipped table: a date that is not a number, a phone number or an amount goes to the two durations. */
  lemma ShippedDate(m: Matchers, txt: string)
    requires |txt| > 0 && HasDigit(txt) && !CheckListType(txt) && !DescriptionLike(txt)
    requires !IsNumber(txt) && !MobileLike(txt) && !m.currency(txt) && DateLike(m, txt)
    ensures Analyze(m, AllFields, txt) == Ok(["companyDuration", "collegeDuration"])
  {
    AnalyzeRoutes(m, AllFields, txt);
    AnalyzeNumberRoutes(m, AllFields, txt);
    ShippedDateFields();
    MatchingMembers(AllFields, Date);
  }

  /** The shipped table: a digit-free e-mail address goes to the e-mail field. */
  lemma ShippedEmail(m: Matchers, txt: string)
    requires |txt| > 0 && !HasDigit(txt) && !CheckListType(txt) && !DescriptionLike(txt) && m.email(txt)
    ensures Analyze(m, AllFields, txt) == Ok(["email"])
  {
    AnalyzeRoutes(m, AllFields, txt);
    AnalyzeShortStringRoutes(m, AllFields, txt);
    ShippedEmailFields();
    MatchingMembers(AllFields, Email);
  }

  /** The shipped table: a short digit-free text that is not an e-mail address goes to the six name fields. */
  lemma ShippedName(m: Matchers, txt: string)
    requires |txt| > 0 && !HasDigit(txt) && !CheckListType(txt) && !DescriptionLike(txt)
    requires !m.email(txt) && NameLike(txt)
    ensures Analyze(m, AllFields, txt) == Ok(["firstName", "lastName", "lastCompanyName", "lastCompanyDesignation", "collegeName", "course"])
  {
    AnalyzeRoutes(m, AllFields, txt);
    AnalyzeShortStringRoutes(m, AllFields, txt);
    ShippedNameFields();
    MatchingMembers(AllFields, Name);
  }

  /** The shipped table: every non-empty selection gets at least one suggestion. */
  lemma ShippedAlwaysSuggests(m: Matchers, txt: string)
    requires |txt| > 0
    ensures |Analyze(m, AllFields, txt).value| > 0
  {
    var t := AnalyzeOutcome(m, AllFields, txt);
    ShippedAllSuggestable();
    ShippedNumberUnion();
  }
}
