/**
 * `ResumeParsing.AllCategoryNames`: the text categories the classifier knows, built with
 * `Utility.Enum(names, true)` so that each name maps to its position plus one and back.
 */
module Categories {
  import opened Wrappers
  import opened Text
  import opened Utility

  datatype Category =
    | String | Email | Number | SmallNumber | Name | MobileNumber
    | List | Date | Description | ContainsNumber | Currency

  /** The names passed to `Enum`, in declaration order. */
  const CategoryNames: seq<string> := [
    "String", "Email", "Number", "SmallNumber", "Name", "MobileNumber",
    "List", "Date", "Description", "ContainsNumber", "Currency"
  ]

  /** The number `AllCategoryNames.<c>` evaluates to: the category's position plus one. */
  function Ordinal(c: Category): nat
  {
    match c
    case String => 1
    case Email => 2
    case Number => 3
    case SmallNumber => 4
    case Name => 5
    case MobileNumber => 6
    case List => 7
    case Date => 8
    case Description => 9
    case ContainsNumber => 10
    case Currency => 11
  }

  function NameOf(c: Category): string
  {
    CategoryNames[Ordinal(c) - 1]
  }

  lemma CategoryNamesDistinct()
    ensures forall i, j :: 0 <= i < j < |CategoryNames| ==> CategoryNames[i] != CategoryNames[j]
  {
    forall i, j | 0 <= i < j < |CategoryNames|
      ensures CategoryNames[i] != CategoryNames[j]
    {
      assert CategoryNames[i][0] != CategoryNames[j][0] || CategoryNames[i][1] != CategoryNames[j][1];
    }
  }

  /**
   * The enum built from `CategoryNames` maps every category's name to `Ordinal(c)`, which is at
   * least 1 (so `if (type)` never sees a falsy category), and `Ordinal(c)` back to the name.
   */
  lemma AllCategoryNamesEnum(c: Category)
    ensures Enum(CategoryNames, true).Ok?
    ensures var m := Enum(CategoryNames, true).value;
            && NameOf(c) in m && m[NameOf(c)] == Index(Ordinal(c))
            && NatToString(Ordinal(c)) in m && m[NatToString(Ordinal(c))] == Label(NameOf(c))
    ensures Ordinal(c) >= 1
  {
    CategoryNamesDistinct();
    UniqueOfDistinct(CategoryNames);
    CategoryNamesAreWords();
    assert Enum(CategoryNames, true) == Ok(NumberedEntries(CategoryNames));
    NumberedEntriesLookup(CategoryNames, Ordinal(c) - 1);
  }

  lemma CategoryNamesAreWords()
    ensures forall x :: x in CategoryNames ==> !LooksLikeOrdinal(x)
  {
    forall i | 0 <= i < |CategoryNames| ensures !LooksLikeOrdinal(CategoryNames[i]) {
      assert !IsDigit(CategoryNames[i][0]);
    }
  }

  /** Different categories have different ordinals. */
  lemma OrdinalInjective(c: Category, d: Category)
    requires Ordinal(c) == Ordinal(d)
    ensures c == d
  {
  }
}
