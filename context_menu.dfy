/**
 * `ResumeParsing.ContextMenu`: the menu that opens on a text selection. It lists every
 * suggestable field in one of eight buckets (suggested or not, required or optional, filled or
 * not), places itself near the mouse, and writes the selected text into the field clicked.
 */
module ContextMenu {
  import opened Wrappers
  import opened Text
  import opened Categories
  import opened Fields
  import opened FormUtilities
  import opened Classifier
  import opened SmartSuggestion
  import opened Form

  // ---------------------------------------------------------------- items and buckets

  /** One `<li>` of the menu: `data-resume-field` (the field's id), the label and the `visited` class. */
  datatype MenuItem = MenuItem(fieldId: string, labelText: string, visited: bool)

  /** The key a click recovers from an item: `field.replace(prefix, "")`. */
  function ItemKey(item: MenuItem): string {
    ReplaceFirst(item.fieldId, IdPrefix, "")
  }

  /** `_getDomString(field)`: the item is marked visited when the value is filled, and clicking it finds the field again. */
  function ItemOf(f: Field): (item: MenuItem)
    ensures item.visited <==> Filled(f.value)
    ensures ItemKey(item) == f.key && item.labelText == f.labelText
  {
    KeyOfId(f.key);
    MenuItem(Id(f.key), f.labelText, Filled(f.value))
  }

  /** The keys the items of a list lead back to. */
  function ItemKeys(items: seq<MenuItem>): (keys: seq<string>)
    ensures |keys| == |items| && forall i :: 0 <= i < |items| ==> keys[i] == ItemKey(items[i])
  {
    if |items| == 0 then [] else ItemKeys(items[..|items| - 1]) + [ItemKey(items[|items| - 1])]
  }

  /** One of the eight lists `_createDom` fills. */
  datatype Bucket = Bucket(suggested: bool, required: bool, done: bool)

  /** The bucket `_updateSuggested` / `_updateRemaining` choose: the tests read `isRequired`, not `required`. */
  function BucketOf(f: Field, sugg: seq<string>): Bucket {
    Bucket(f.key in sugg, f.isRequired, Filled(f.value))
  }

  /** The test that puts a field into bucket `b`. */
  predicate InBucket(f: Field, sugg: seq<string>, b: Bucket) {
    f.canSuggest && BucketOf(f, sugg) == b
  }

  /** The items of bucket `b` after the `for ... in af` loop: its fields' items in declaration order. */
  function BucketItems(fields: seq<Field>, sugg: seq<string>, b: Bucket): (items: seq<MenuItem>)
    ensures |items| <= |fields|
    ensures forall it :: it in items ==> exists i :: 0 <= i < |fields| && InBucket(fields[i], sugg, b) && it == ItemOf(fields[i])
  {
    if |fields| == 0 then []
    else
      var init, last := fields[..|fields| - 1], fields[|fields| - 1];
      assert forall i :: 0 <= i < |init| ==> init[i] == fields[i];
      BucketItems(init, sugg, b) + (if InBucket(last, sugg, b) then [ItemOf(last)] else [])
  }

  /** A bucket lists the keys of its fields as the table orders them. */
  lemma {:induction false} BucketKeys(fields: seq<Field>, sugg: seq<string>, b: Bucket)
    ensures ItemKeys(BucketItems(fields, sugg, b)) == KeysWhere(fields, (f: Field) => InBucket(f, sugg, b))
  {
    if |fields| > 0 {
      var init, last := fields[..|fields| - 1], fields[|fields| - 1];
      BucketKeys(init, sugg, b);
      var items := BucketItems(fields, sugg, b);
      assert ItemKeys(items) == ItemKeys(BucketItems(init, sugg, b)) + (if InBucket(last, sugg, b) then [last.key] else []);
    }
  }

  // ---------------------------------------------------------------- the menu

  /** What `_getCm` renders: the items in display order and the footer `reqDone/reqTotal`. */
  datatype Menu = Menu(items: seq<MenuItem>, reqDone: nat, reqTotal: nat)

  const SRL := Bucket(true, true, false)
  const SOL := Bucket(true, false, false)
  const SRD := Bucket(true, true, true)
  const SOD := Bucket(true, false, true)
  const RL := Bucket(false, true, false)
  const OL := Bucket(false, false, false)
  const RD := Bucket(false, true, true)
  const OD := Bucket(false, false, true)

  /** Two buckets of the same kind: the required one, then the optional one. */
  function PairItems(fields: seq<Field>, sugg: seq<string>, s: bool, d: bool): seq<MenuItem> {
    BucketItems(fields, sugg, Bucket(s, true, d)) + BucketItems(fields, sugg, Bucket(s, false, d))
  }

  /** Suggested (or remaining) items: required unfilled, optional unfilled, required filled, optional filled. */
  function HalfItems(fields: seq<Field>, sugg: seq<string>, s: bool): seq<MenuItem> {
    PairItems(fields, sugg, s, false) + PairItems(fields, sugg, s, true)
  }

  /** `_createDom(suggestions)` followed by `_getCm`: the required footer never exceeds its total. */
  function MenuOf(fields: seq<Field>, sugg: seq<string>): (m: Menu)
    ensures m.reqDone <= m.reqTotal
  {
    FieldCountsAddUp(fields);
    Menu(HalfItems(fields, sugg, true) + HalfItems(fields, sugg, false), |GetReqDone(fields)|, |GetReq(fields)|)
  }

  /** The `obj` that `_createDom` fills: one list per bucket. */
  class MenuBuckets {
    var suggestedReqdDone: seq<MenuItem>
    var suggestedReqdLeft: seq<MenuItem>
    var suggestedOptionalDone: seq<MenuItem>
    var suggestedOptionalLeft: seq<MenuItem>
    var requiredDone: seq<MenuItem>
    var requiredLeft: seq<MenuItem>
    var optionalDone: seq<MenuItem>
    var optionalLeft: seq<MenuItem>

    /** The list that holds bucket `b`. */
    function Get(b: Bucket): seq<MenuItem>
      reads this
    {
      if b.suggested then
        if b.required then (if b.done then suggestedReqdDone else suggestedReqdLeft)
        else (if b.done then suggestedOptionalDone else suggestedOptionalLeft)
      else
        if b.required then (if b.done then requiredDone else requiredLeft)
        else (if b.done then optionalDone else optionalLeft)
    }

    constructor()
      ensures forall b :: Get(b) == []
    {
      suggestedReqdDone, suggestedReqdLeft, suggestedOptionalDone, suggestedOptionalLeft := [], [], [], [];
      requiredDone, requiredLeft, optionalDone, optionalLeft := [], [], [], [];
    }

    /** `_updateSuggested(obj, f)`: appends the item to the suggested bucket its flags select. */
    method UpdateSuggested(f: Field)
      modifies this
      ensures forall b :: Get(b) == old(Get(b)) + (if b == Bucket(true, f.isRequired, Filled(f.value)) then [ItemOf(f)] else [])
    {
      var domString := ItemOf(f);
      if Filled(f.value) {
        if f.isRequired {
          suggestedReqdDone := suggestedReqdDone + [domString];
        } else {
          suggestedOptionalDone := suggestedOptionalDone + [domString];
        }
      } else {
        if f.isRequired {
          suggestedReqdLeft := suggestedReqdLeft + [domString];
        } else {
          suggestedOptionalLeft := suggestedOptionalLeft + [domString];
        }
      }
    }

    /** `_updateRemaining(obj, f)`: appends the item to the remaining bucket its flags select. */
    method UpdateRemaining(f: Field)
      modifies this
      ensures forall b :: Get(b) == old(Get(b)) + (if b == Bucket(false, f.isRequired, Filled(f.value)) then [ItemOf(f)] else [])
    {
      var domString := ItemOf(f);
      if Filled(f.value) {
        if f.isRequired {
          requiredDone := requiredDone + [domString];
        } else {
          optionalDone := optionalDone + [domString];
        }
      } else {
        if f.isRequired {
          requiredLeft := requiredLeft + [domString];
        } else {
          optionalLeft := optionalLeft + [domString];
        }
      }
    }
  }

  /** Appending a field to the table adds its item to the bucket it belongs to and to no other. */
  lemma BucketItemsSnoc(fields: seq<Field>, k: nat, sugg: seq<string>, b: Bucket)
    requires k < |fields|
    ensures BucketItems(fields[..k + 1], sugg, b)
         == BucketItems(fields[..k], sugg, b) + (if InBucket(fields[k], sugg, b) then [ItemOf(fields[k])] else [])
  {
    assert fields[..k + 1][..k] == fields[..k];
  }

  /** The `for (let f in af)` loop of `_createDom`, filling an empty `obj`. */
  method FillBuckets(obj: MenuBuckets, fields: seq<Field>, sugg: seq<string>)
    requires forall b :: obj.Get(b) == []
    modifies obj
    ensures forall b :: obj.Get(b) == BucketItems(fields, sugg, b)
  {
    for k := 0 to |fields|
      invariant forall b :: obj.Get(b) == BucketItems(fields[..k], sugg, b)
    {
      forall b ensures BucketItems(fields[..k + 1], sugg, b)
                    == BucketItems(fields[..k], sugg, b) + (if InBucket(fields[k], sugg, b) then [ItemOf(fields[k])] else []) {
        BucketItemsSnoc(fields, k, sugg, b);
      }
      var field := fields[k];
      if field.canSuggest {
        if field.key in sugg {
          obj.UpdateSuggested(field);
        } else {
          obj.UpdateRemaining(field);
        }
      }
    }
    assert fields[..|fields|] == fields;
  }

  /** `_createDom(suggestions)` as written: fill `obj`, then `_getCm(obj)`. */
  method CreateDom(fields: seq<Field>, sugg: seq<string>) returns (menu: Menu)
    ensures menu == MenuOf(fields, sugg)
  {
    var obj := new MenuBuckets();
    var reqDone, reqTotal := |GetReqDone(fields)|, |GetReq(fields)|;
    FillBuckets(obj, fields, sugg);
    assert obj.suggestedReqdLeft == BucketItems(fields, sugg, SRL) && obj.suggestedOptionalLeft == BucketItems(fields, sugg, SOL);
    assert obj.suggestedReqdDone == BucketItems(fields, sugg, SRD) && obj.suggestedOptionalDone == BucketItems(fields, sugg, SOD);
    assert obj.requiredLeft == BucketItems(fields, sugg, RL) && obj.optionalLeft == BucketItems(fields, sugg, OL);
    assert obj.requiredDone == BucketItems(fields, sugg, RD) && obj.optionalDone == BucketItems(fields, sugg, OD);
    menu := Menu(
      obj.suggestedReqdLeft + obj.suggestedOptionalLeft + obj.suggestedReqdDone + obj.suggestedOptionalDone
      + obj.requiredLeft + obj.optionalLeft + obj.requiredDone + obj.optionalDone,
      reqDone, reqTotal);
  }

  // ---------------------------------------------------------------- what the menu shows

  /** The items of all suggestable fields, in declaration order. */
  function SuggestableItems(fields: seq<Field>): (items: seq<MenuItem>)
    ensures |items| <= |fields|
  {
    if |fields| == 0 then []
    else
      var last := fields[|fields| - 1];
      SuggestableItems(fields[..|fields| - 1]) + (if last.canSuggest then [ItemOf(last)] else [])
  }

  /** One item per suggestable field: the items' keys are the suggestable keys, in table order. */
  lemma {:induction false} SuggestableItemKeys(fields: seq<Field>)
    ensures ItemKeys(SuggestableItems(fields)) == AllSuggestable(fields)
  {
    if |fields| > 0 {
      var init, last := fields[..|fields| - 1], fields[|fields| - 1];
      SuggestableItemKeys(init);
      var tail := if last.canSuggest then [ItemOf(last)] else [];
      assert SuggestableItems(fields) == SuggestableItems(init) + tail;
      ItemKeysAppend(SuggestableItems(init), tail);
      assert AllSuggestable(fields) == AllSuggestable(init) + (if last.canSuggest then [last.key] else []);
    }
  }

  lemma ItemKeysAppend(a: seq<MenuItem>, b: seq<MenuItem>)
    ensures ItemKeys(a + b) == ItemKeys(a) + ItemKeys(b)
  {
  }

  /** An item is listed exactly when it is the item of a suggestable field. */
  lemma {:induction false} SuggestableItemsMembers(fields: seq<Field>)
    ensures forall it :: it in SuggestableItems(fields) <==>
      exists i :: 0 <= i < |fields| && fields[i].canSuggest && it == ItemOf(fields[i])
  {
    if |fields| > 0 {
      var init, last := fields[..|fields| - 1], fields[|fields| - 1];
      SuggestableItemsMembers(init);
      assert forall i :: 0 <= i < |init| ==> init[i] == fields[i];
      assert SuggestableItems(fields) == SuggestableItems(init) + (if last.canSuggest then [ItemOf(last)] else []);
    }
  }

  /** One more field adds its item to a pair when it belongs to one of its two buckets. */
  lemma PairSnoc(fields: seq<Field>, sugg: seq<string>, s: bool, d: bool)
    requires |fields| > 0
    ensures var last := fields[|fields| - 1];
      multiset(PairItems(fields, sugg, s, d))
      == multiset(PairItems(fields[..|fields| - 1], sugg, s, d))
         + (if last.canSuggest && (last.key in sugg) == s && Filled(last.value) == d then multiset{ItemOf(last)} else multiset{})
  {
  }

  lemma HalfSnoc(fields: seq<Field>, sugg: seq<string>, s: bool)
    requires |fields| > 0
    ensures var last := fields[|fields| - 1];
      multiset(HalfItems(fields, sugg, s))
      == multiset(HalfItems(fields[..|fields| - 1], sugg, s))
         + (if last.canSuggest && (last.key in sugg) == s then multiset{ItemOf(last)} else multiset{})
  {
    PairSnoc(fields, sugg, s, false);
    PairSnoc(fields, sugg, s, true);
  }

  lemma MenuSnoc(fields: seq<Field>, sugg: seq<string>)
    requires |fields| > 0
    ensures var last := fields[|fields| - 1];
      multiset(MenuOf(fields, sugg).items)
      == multiset(MenuOf(fields[..|fields| - 1], sugg).items) + (if last.canSuggest then multiset{ItemOf(last)} else multiset{})
  {
    HalfSnoc(fields, sugg, true);
    HalfSnoc(fields, sugg, false);
  }

  lemma {:induction false} MenuHoldsSuggestable(fields: seq<Field>, sugg: seq<string>)
    ensures multiset(MenuOf(fields, sugg).items) == multiset(SuggestableItems(fields))
  {
    if |fields| > 0 {
      var init, last := fields[..|fields| - 1], fields[|fields| - 1];
      MenuHoldsSuggestable(init, sugg);
      MenuSnoc(fields, sugg);
      assert SuggestableItems(fields) == SuggestableItems(init) + (if last.canSuggest then [ItemOf(last)] else []);
    }
  }

  /**
   * Every suggestable field is listed exactly once and nothing else is: the menu holds the items
   * of the suggestable fields, each as often as in the table, whatever the suggestions.
   */
  lemma MenuPartition(fields: seq<Field>, sugg: seq<string>)
    ensures multiset(MenuOf(fields, sugg).items) == multiset(SuggestableItems(fields))
    ensures |MenuOf(fields, sugg).items| == |SuggestableItems(fields)|
  {
    MenuHoldsSuggestable(fields, sugg);
    assert |multiset(MenuOf(fields, sugg).items)| == |multiset(SuggestableItems(fields))|;
  }

  /** Where an item may stand: suggested before remaining, and within each unfilled before filled. */
  function Rank(item: MenuItem, sugg: seq<string>): nat {
    (if ItemKey(item) in sugg then 0 else 2) + (if item.visited then 1 else 0)
  }

  /** The rank every item of bucket `b` has. */
  function BucketRank(b: Bucket): nat {
    (if b.suggested then 0 else 2) + (if b.done then 1 else 0)
  }

  predicate RankSorted(items: seq<MenuItem>, sugg: seq<string>) {
    forall i, j :: 0 <= i < j < |items| ==> Rank(items[i], sugg) <= Rank(items[j], sugg)
  }

  lemma BucketRanks(fields: seq<Field>, sugg: seq<string>, b: Bucket)
    ensures forall it :: it in BucketItems(fields, sugg, b) ==> Rank(it, sugg) == BucketRank(b)
  {
  }

  /** Appending a bucket whose rank is at least every earlier rank keeps the items sorted. */
  lemma AppendBucket(items: seq<MenuItem>, fields: seq<Field>, sugg: seq<string>, b: Bucket)
    requires RankSorted(items, sugg) && forall it :: it in items ==> Rank(it, sugg) <= BucketRank(b)
    ensures RankSorted(items + BucketItems(fields, sugg, b), sugg)
    ensures forall it :: it in items + BucketItems(fields, sugg, b) ==> Rank(it, sugg) <= BucketRank(b)
  {
    var all := items + BucketItems(fields, sugg, b);
    BucketRanks(fields, sugg, b);
    forall i, j | 0 <= i < j < |all| ensures Rank(all[i], sugg) <= Rank(all[j], sugg) {
      if j >= |items| {
        assert all[j] in BucketItems(fields, sugg, b);
        if i < |items| {
          assert all[i] in items;
        } else {
          assert all[i] in BucketItems(fields, sugg, b);
        }
      }
    }
  }

  /**
   * The display order `_getCm` promises: every suggested item comes before every other one, and
   * among items of the same kind the unfilled ones come first.
   */
  lemma MenuOrdered(fields: seq<Field>, sugg: seq<string>)
    ensures var items := MenuOf(fields, sugg).items;
      && (forall i, j :: 0 <= i < j < |items| && ItemKey(items[j]) in sugg ==> ItemKey(items[i]) in sugg)
      && (forall i, j :: 0 <= i < j < |items| && (ItemKey(items[i]) in sugg <==> ItemKey(items[j]) in sugg) && items[i].visited
            ==> items[j].visited)
  {
    var items := MenuOf(fields, sugg).items;
    MenuRankSorted(fields, sugg);
    forall i, j | 0 <= i < j < |items|
      ensures Rank(items[i], sugg) <= Rank(items[j], sugg)
    {
    }
  }

  /** The eight buckets, appended in rank order, leave the menu sorted by rank. */
  lemma MenuRankSorted(fields: seq<Field>, sugg: seq<string>)
    ensures RankSorted(MenuOf(fields, sugg).items, sugg)
  {
    var acc: seq<MenuItem> := [];
    AppendBucket(acc, fields, sugg, SRL);
    acc := acc + BucketItems(fields, sugg, SRL);
    AppendBucket(acc, fields, sugg, SOL);
    acc := acc + BucketItems(fields, sugg, SOL);
    AppendBucket(acc, fields, sugg, SRD);
    acc := acc + BucketItems(fields, sugg, SRD);
    AppendBucket(acc, fields, sugg, SOD);
    acc := acc + BucketItems(fields, sugg, SOD);
    AppendBucket(acc, fields, sugg, RL);
    acc := acc + BucketItems(fields, sugg, RL);
    AppendBucket(acc, fields, sugg, OL);
    acc := acc + BucketItems(fields, sugg, OL);
    AppendBucket(acc, fields, sugg, RD);
    acc := acc + BucketItems(fields, sugg, RD);
    AppendBucket(acc, fields, sugg, OD);
    acc := acc + BucketItems(fields, sugg, OD);
    assert acc == MenuOf(fields, sugg).items;
  }

  /** Within a bucket the fields keep the order of the table and no key repeats. */
  lemma BucketsInDeclarationOrder(fields: seq<Field>, sugg: seq<string>, b: Bucket)
    requires UniqueKeys(fields)
    ensures InDeclarationOrder(fields, ItemKeys(BucketItems(fields, sugg, b)))
  {
    BucketKeys(fields, sugg, b);
    KeysWhereOrdered(fields, (f: Field) => InBucket(f, sugg, b));
  }

  /** Every item leads back, through its id, to a suggestable field of the table. */
  lemma MenuItemsResolve(fields: seq<Field>, sugg: seq<string>)
    requires UniqueKeys(fields)
    ensures forall it :: it in MenuOf(fields, sugg).items ==>
      FindKey(fields, ItemKey(it)).Some? && fields[FindKey(fields, ItemKey(it)).value].canSuggest
      && ItemOf(fields[FindKey(fields, ItemKey(it)).value]) == it
  {
    forall it | it in MenuOf(fields, sugg).items
      ensures FindKey(fields, ItemKey(it)).Some? && fields[FindKey(fields, ItemKey(it)).value].canSuggest
      ensures ItemOf(fields[FindKey(fields, ItemKey(it)).value]) == it
    {
      var b :| it in BucketItems(fields, sugg, b);
      var i :| 0 <= i < |fields| && InBucket(fields[i], sugg, b) && it == ItemOf(fields[i]);
      FindKeyUnique(fields, i);
    }
  }

  /** With no field marked `isRequired`, the four required buckets stay empty. */
  lemma NoIsRequiredOnlyOptional(fields: seq<Field>, sugg: seq<string>)
    requires forall i :: 0 <= i < |fields| ==> !fields[i].isRequired
    ensures forall s, d :: BucketItems(fields, sugg, Bucket(s, true, d)) == []
  {
    forall s, d ensures BucketItems(fields, sugg, Bucket(s, true, d)) == [] {
      NoRequiredBucket(fields, sugg, Bucket(s, true, d));
    }
  }

  lemma {:induction false} NoRequiredBucket(fields: seq<Field>, sugg: seq<string>, b: Bucket)
    requires b.required && forall i :: 0 <= i < |fields| ==> !fields[i].isRequired
    ensures BucketItems(fields, sugg, b) == []
  {
    if |fields| > 0 {
      NoRequiredBucket(fields[..|fields| - 1], sugg, b);
    }
  }

  /**
   * As written, the page's menu has no required item: all thirteen fields are required, yet every
   * one of them lands in an optional bucket because the tests read `isRequired`.
   */
  lemma ShippedMenuAllOptional(sugg: seq<string>)
    ensures forall s, d :: BucketItems(AllFields, sugg, Bucket(s, true, d)) == []
    ensures |GetReq(AllFields)| == 13
    ensures |MenuOf(AllFields, sugg).items| == 13
  {
    var fs := AllFields;
    assert forall i :: 0 <= i < |fs| ==> !fs[i].isRequired;
    NoIsRequiredOnlyOptional(fs, sugg);
    ShippedCounts();
    MenuPartition(fs, sugg);
    ShippedSuggestableItems();
  }

  lemma ShippedSuggestableItems()
    ensures |SuggestableItems(AllFields)| == 13
  {
    var fs := AllFields;
    assert forall k :: 0 <= k <= |fs| ==> |SuggestableItems(fs[..k])| == k by {
      forall k | 0 <= k <= |fs| ensures |SuggestableItems(fs[..k])| == k {
        SuggestablePrefix(fs, k);
      }
    }
    assert fs[..|fs|] == fs;
  }

  lemma {:induction false} SuggestablePrefix(fs: seq<Field>, k: nat)
    requires k <= |fs| && forall i :: 0 <= i < |fs| ==> fs[i].canSuggest
    ensures |SuggestableItems(fs[..k])| == k
  {
    if k > 0 {
      SuggestablePrefix(fs, k - 1);
      assert fs[..k][..k - 1] == fs[..k - 1];
    }
  }

  // ---------------------------------------------------------------- the menu as intended

  /** The table as the bucket tests expect it: `isRequired` carries the `required` flag. */
  function MarkRequired(fields: seq<Field>): (r: seq<Field>)
    ensures |r| == |fields|
    ensures forall i :: 0 <= i < |fields| ==> r[i] == fields[i].(isRequired := fields[i].required)
  {
    if |fields| == 0 then []
    else MarkRequired(fields[..|fields| - 1]) + [fields[|fields| - 1].(isRequired := fields[|fields| - 1].required)]
  }

  /** `_createDom` as its comment describes it: required and optional fields sorted by `required`. */
  function IntendedMenuOf(fields: seq<Field>, sugg: seq<string>): (r: Menu)
    ensures multiset(r.items) == multiset(SuggestableItems(fields))
  {
    MenuPartition(MarkRequired(fields), sugg);
    MarkRequiredItems(fields);
    MenuOf(MarkRequired(fields), sugg)
  }

  /** Copying `required` into `isRequired` does not change which items the table has. */
  lemma {:induction false} MarkRequiredItems(fields: seq<Field>)
    ensures SuggestableItems(MarkRequired(fields)) == SuggestableItems(fields)
  {
    if |fields| > 0 {
      var m := MarkRequired(fields);
      MarkRequiredItems(fields[..|fields| - 1]);
      assert m[..|m| - 1] == MarkRequired(fields[..|fields| - 1]);
    }
  }

  /**
   * In the intended menu each bucket holds exactly the suggestable fields whose suggestion,
   * `required` flag and filled state it names, in declaration order.
   */
  lemma IntendedBucketsFollowRequired(fields: seq<Field>, sugg: seq<string>, s: bool, r: bool, d: bool)
    ensures ItemKeys(BucketItems(MarkRequired(fields), sugg, Bucket(s, r, d)))
         == KeysWhere(fields, (f: Field) => f.canSuggest && (f.key in sugg) == s && f.required == r && Filled(f.value) == d)
  {
    var b := Bucket(s, r, d);
    BucketKeys(MarkRequired(fields), sugg, b);
    KeysWhereAgree(MarkRequired(fields), fields, (f: Field) => InBucket(f, sugg, b),
      (f: Field) => f.canSuggest && (f.key in sugg) == s && f.required == r && Filled(f.value) == d);
  }

  // ---------------------------------------------------------------- values do not move suggestions

  /** Writing a value leaves every suggestion list as it was: `_suggest` reads keys, `like` and `canSuggest` only. */
  lemma SuggestForIgnoresValues(fields: seq<Field>, i: nat, v: Value, t: Option<Category>)
    requires i < |fields|
    ensures SuggestFor(WithValue(fields, i, v), t) == SuggestFor(fields, t)
    ensures AllSuggestable(WithValue(fields, i, v)) == AllSuggestable(fields)
  {
    var g := WithValue(fields, i, v);
    KeysWhereAgree(g, fields, (f: Field) => f.canSuggest, (f: Field) => f.canSuggest);
    if t.Some? {
      var c := t.value;
      KeysWhereAgree(g, fields, (f: Field) => f.canSuggest && c in f.like, (f: Field) => f.canSuggest && c in f.like);
    }
  }

  lemma NumberSuggestionsIgnoreValues(fields: seq<Field>, i: nat, v: Value, exclude: seq<Category>)
    requires i < |fields|
    ensures AllNumberSuggestions(WithValue(fields, i, v), exclude) == AllNumberSuggestions(fields, exclude)
  {
    SuggestForIgnoresValues(fields, i, v, Some(Number));
    SuggestForIgnoresValues(fields, i, v, Some(SmallNumber));
    SuggestForIgnoresValues(fields, i, v, Some(MobileNumber));
    SuggestForIgnoresValues(fields, i, v, Some(Date));
  }

  lemma AnalyzeNumberIgnoresValues(m: Matchers, fields: seq<Field>, i: nat, v: Value, txt: string)
    requires i < |fields|
    ensures AnalyzeNumber(m, WithValue(fields, i, v), txt) == AnalyzeNumber(m, fields, txt)
  {
    NumberSuggestionsIgnoreValues(fields, i, v, [SmallNumber, Date]);
    SuggestForIgnoresValues(fields, i, v, Some(SmallNumber));
    SuggestForIgnoresValues(fields, i, v, Some(MobileNumber));
    SuggestForIgnoresValues(fields, i, v, Some(Currency));
    SuggestForIgnoresValues(fields, i, v, Some(Date));
    SuggestForIgnoresValues(fields, i, v, None);
  }

  lemma AnalyzeShortStringIgnoresValues(m: Matchers, fields: seq<Field>, i: nat, v: Value, txt: string)
    requires i < |fields|
    ensures AnalyzeShortString(m, WithValue(fields, i, v), txt) == AnalyzeShortString(m, fields, txt)
  {
    SuggestForIgnoresValues(fields, i, v, Some(Email));
    SuggestForIgnoresValues(fields, i, v, Some(Name));
    SuggestForIgnoresValues(fields, i, v, None);
  }

  /**
   * Accepting a menu item never changes what the next selection is offered: `analyze` gives the
   * same answer before and after any value write.
   */
  lemma AnalyzeIgnoresValues(m: Matchers, fields: seq<Field>, i: nat, v: Value, txt: string)
    requires i < |fields|
    ensures Analyze(m, WithValue(fields, i, v), txt) == Analyze(m, fields, txt)
  {
    AnalyzeNumberIgnoresValues(m, fields, i, v, txt);
    AnalyzeShortStringIgnoresValues(m, fields, i, v, txt);
    SuggestForIgnoresValues(fields, i, v, Some(List));
    SuggestForIgnoresValues(fields, i, v, Some(Description));
  }

  // ---------------------------------------------------------------- opening and clicking

  /** The module's state between opening the menu and clicking an item. */
  class MenuState {
    var selectedText: string

    constructor()
      ensures selectedText == ""
    {
      selectedText := "";
    }

    /** `init`: remembers the selected text and builds the menu for the suggestions. */
    method Open(fields: seq<Field>, sugg: seq<string>, txt: string) returns (menu: Menu)
      modifies this
      ensures selectedText == txt && menu == MenuOf(fields, sugg)
    {
      selectedText := txt;
      menu := CreateDom(fields, sugg);
    }

    /**
     * `_handleCmClick`: the clicked item's id without the prefix names the field that
     * `updateToForm` writes the remembered text into.
     */
    method HandleClick(item: MenuItem, reg: Registry, elementExists: bool, engine: Option<EngineDate>) returns (r: Outcome)
      requires reg.Valid()
      modifies reg
      ensures reg.Valid()
      ensures var key := ItemKey(item);
        && (FindKey(old(reg.fields), key).None? ==> r == Fail(MissingField(key)) && reg.fields == old(reg.fields))
        && (FindKey(old(reg.fields), key).Some? ==>
              var i := FindKey(old(reg.fields), key).value;
              && r == Pass
              && reg.fields == (if elementExists then WithValue(old(reg.fields), i, StoredValue(old(reg.fields)[i], selectedText, engine))
                                else old(reg.fields)))
    {
      var field := ReplaceFirst(item.fieldId, IdPrefix, "");
      r := reg.UpdateToForm(field, selectedText, elementExists, engine);
    }
  }

  /**
   * Clicking an item of the menu always finds its field, and when the field's element is on the
   * page and the field takes no dates, that field alone now holds the selected text and its item
   * shows as visited exactly when the text is not empty.
   */
  lemma ClickFillsField(fields: seq<Field>, sugg: seq<string>, item: MenuItem, txt: string, engine: Option<EngineDate>)
    requires UniqueKeys(fields) && item in MenuOf(fields, sugg).items
    ensures FindKey(fields, ItemKey(item)).Some?
    ensures var i := FindKey(fields, ItemKey(item)).value;
      Date !in fields[i].like ==>
        var after := WithValue(fields, i, StoredValue(fields[i], txt, engine));
        && after[i].value == Str(txt)
        && (forall j :: 0 <= j < |fields| && j != i ==> after[j] == fields[j])
        && ItemKey(ItemOf(after[i])) == ItemKey(item)
        && (ItemOf(after[i]).visited <==> |txt| > 0)
  {
    MenuItemsResolve(fields, sugg);
  }

  // ---------------------------------------------------------------- _getPosition

  /** A mouse position in page coordinates. */
  datatype Point = Point(x: int, y: int)

  function Max(a: int, b: int): int { if a >= b then a else b }

  /**
   * `_getPosition(e, md)`: the menu opens right of and below the selection. It is pulled left
   * when its 200 pixels would pass the document's right edge, moved to 50 when the mouse is
   * within 20 pixels of the left edge, and flipped above when its 250 pixels would pass the
   * bottom. The overflow is measured before the move to 50, and the flip takes the header height
   * off a second time.
   */
  method GetPosition(md: Point, mu: Point, headerHeight: int, docWidth: int, docHeight: int) returns (left: int, top: int)
    ensures var x, y := Max(md.x, mu.x), Max(md.y, mu.y) - headerHeight;
      && (x >= 20 && x + 200 <= docWidth ==> left == x)
      && (x >= 20 && x + 200 > docWidth ==> left + 200 == docWidth)
      && (x < 20 && x + 200 <= docWidth ==> left == 50)
      && (x < 20 && x + 200 > docWidth ==> left + 200 == docWidth + 50 - x)
      && (y + 250 <= docHeight ==> top == y)
      && (y + 250 > docHeight ==> top == Max(md.y, mu.y) - 2 * headerHeight - 270)
  {
    var ax := Max(md.x, mu.x);
    var ay := Max(md.y, mu.y) - headerHeight;
    var widthDiff := (200 + ax) - docWidth;
    var heightDiff := (250 + ay) - docHeight;
    if ax < 20 {
      ax := 50;
    }
    if widthDiff > 0 {
      ax := ax - widthDiff;
    }
    left := ax;
    top := if heightDiff > 0 then ay - 250 - headerHeight - 20 else ay;
  }
}
