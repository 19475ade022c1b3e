/**
 * `ResumeParsing.Utility`: DOM identifier helpers, the `Enum` builder and `isNumber`.
 */
module Utility {
  import opened Wrappers
  import opened Text

  // ---------------------------------------------------------------- DOM identifiers

  /** `makeDomElem`: prefix a name with `#` (an id) or `.` (a class). */
  function MakeDomElem(name: string, isUnique: bool): (r: string)
    ensures |r| == |name| + 1 && r[1..] == name
    ensures r[0] == (if isUnique then '#' else '.')
  {
    (if isUnique then "#" else ".") + name
  }

  /** `removeDomIdentifier`: `elem.substring(1, elem.length)`, which is empty for an empty input. */
  function RemoveDomIdentifier(elem: string): (r: string)
    ensures |elem| > 0 ==> |r| == |elem| - 1 && r == elem[1..]
    ensures |elem| == 0 ==> r == ""
  {
    if |elem| == 0 then "" else elem[1..]
  }

  /** Stripping the identifier character undoes `MakeDomElem`, for ids and for classes. */
  lemma RemoveMakeDomElem(name: string, isUnique: bool)
    ensures RemoveDomIdentifier(MakeDomElem(name, isUnique)) == name
  {
  }

  /** Putting the character back undoes `RemoveDomIdentifier` on a `#` or `.` selector. */
  lemma MakeRemoveDomElem(elem: string)
    requires |elem| > 0 && (elem[0] == '#' || elem[0] == '.')
    ensures MakeDomElem(RemoveDomIdentifier(elem), elem[0] == '#') == elem
  {
    assert elem == [elem[0]] + elem[1..];
  }

  // ---------------------------------------------------------------- isNumber

  /**
   * One way `^\d*\.?\d+$` can match all of `s`: digits before `i`, an optional '.' between
   * `i` and `j`, and one or more digits from `j` to the end.
   */
  predicate NumberSplit(s: string, i: int, j: int) {
    && 0 <= i <= j < |s|
    && AllDigits(s[..i])
    && (j == i || (j == i + 1 && s[i] == '.'))
    && AllDigits(s[j..])
  }

  /** `isNumber`: `/^\d*\.?\d+$/.test(value)`. */
  predicate IsNumber(s: string) {
    exists i, j | 0 <= i <= j < |s| :: NumberSplit(s, i, j)
  }

  /** The same set of texts, described character by character. */
  predicate NumberShaped(s: string) {
    && |s| > 0
    && IsDigit(s[|s| - 1])
    && (forall k :: 0 <= k < |s| ==> IsDigit(s[k]) || s[k] == '.')
    && (forall k, l :: 0 <= k < l < |s| && s[k] == '.' ==> s[l] != '.')
  }

  /**
   * `isNumber` holds exactly for non-empty texts of digits with at most one '.', ending in a digit:
   * "12", "1.5", ".5" are numbers; "", "5.", "1.2.3", "-1", " 1" are not.
   */
  lemma IsNumberIff(s: string)
    ensures IsNumber(s) <==> NumberShaped(s)
  {
    if IsNumber(s) {
      NumberIsShaped(s);
    }
    if NumberShaped(s) {
      ShapedIsNumber(s);
    }
  }

  /** A match of `^\d*\.?\d+$` has the shape `NumberShaped` describes. */
  lemma NumberIsShaped(s: string)
    requires IsNumber(s)
    ensures NumberShaped(s)
  {
    var i, j :| 0 <= i <= j < |s| && NumberSplit(s, i, j);
    forall k | 0 <= k < |s|
      ensures IsDigit(s[k]) || (k == i && j == i + 1)
    {
      if k < i {
        assert s[..i][k] == s[k];
      } else if k >= j {
        assert s[j..][k - j] == s[k];
      }
    }
    assert s[j..][|s| - 1 - j] == s[|s| - 1];
  }

  /** A text of that shape matches `^\d*\.?\d+$`. */
  lemma ShapedIsNumber(s: string)
    requires NumberShaped(s)
    ensures IsNumber(s)
  {
    if k :| 0 <= k < |s| && s[k] == '.' {
      assert k < |s| - 1;
      forall l | 0 <= l < |s| && l != k ensures IsDigit(s[l]) {
        if l > k {
          assert s[l] != '.';
        } else {
          assert s[k] == '.';
        }
      }
      assert NumberSplit(s, k, k + 1);
    } else {
      assert NumberSplit(s, 0, 0);
    }
  }

  // ---------------------------------------------------------------- Enum

  /** `[...new Set(items)]`: the items without repeats, each where it first occurs. */
  function Unique(items: seq<string>): (u: seq<string>)
    ensures forall x :: x in u <==> x in items
    ensures forall i, j :: 0 <= i < j < |u| ==> u[i] != u[j]
    ensures |u| <= |items|
  {
    if |items| == 0 then []
    else
      var u := Unique(items[..|items| - 1]);
      var last := items[|items| - 1];
      assert forall x :: x in items <==> x in items[..|items| - 1] || x == last;
      if last in u then u else u + [last]
  }

  /** Position of the first occurrence of `x` in `items`. */
  function FirstIndex(items: seq<string>, x: string): (k: nat)
    requires x in items
    ensures k < |items| && items[k] == x && x !in items[..k]
  {
    if items[0] == x then 0 else 1 + FirstIndex(items[1..], x)
  }

  /** `Unique` keeps first-occurrence order: earlier in the result means occurring first earlier. */
  lemma {:induction false} UniqueKeepsOrder(items: seq<string>, i: nat, j: nat)
    requires i < j < |Unique(items)|
    ensures FirstIndex(items, Unique(items)[i]) < FirstIndex(items, Unique(items)[j])
  {
    var init := items[..|items| - 1];
    var u := Unique(init);
    var last := items[|items| - 1];
    FirstIndexOfPrefix(items, Unique(items)[i]);
    FirstIndexOfPrefix(items, Unique(items)[j]);
    if j < |u| {
      UniqueKeepsOrder(init, i, j);
    } else {
      assert Unique(items)[j] == last && last !in u && last !in init;
      assert Unique(items)[i] in init;
    }
  }

  /** Within a prefix that holds `x`, `x` first occurs where it does in the whole sequence. */
  lemma FirstIndexOfPrefix(items: seq<string>, x: string)
    requires |items| > 0 && x in items
    ensures x in items[..|items| - 1] ==> FirstIndex(items, x) == FirstIndex(items[..|items| - 1], x)
    ensures x !in items[..|items| - 1] ==> FirstIndex(items, x) == |items| - 1
  {
    var init := items[..|items| - 1];
    if x in init {
      var k' := FirstIndex(init, x);
      assert init[..k'] == items[..k'];
    }
  }

  /** A name the enum could confuse with one of its ordinals, which are stored as property names too. */
  predicate LooksLikeOrdinal(x: string) { |x| >= 1 && AllDigits(x) }

  /** A value in the object `Enum` builds: an ordinal or a name. */
  datatype EnumEntry = Index(n: nat) | Label(name: string)

  /** The `isNum` reduce: `acc[acc[cv] = ci + 1] = cv`, name to ordinal and ordinal to name. */
  function NumberedEntries(u: seq<string>): map<string, EnumEntry>
  {
    if |u| == 0 then map[]
    else
      var ci := |u| - 1;
      NumberedEntries(u[..ci])[u[ci] := Index(ci + 1)][NatToString(ci + 1) := Label(u[ci])]
  }

  /** The plain reduce: `acc[cv] = cv`. */
  function NamedEntries(u: seq<string>): map<string, EnumEntry>
  {
    if |u| == 0 then map[] else NamedEntries(u[..|u| - 1])[u[|u| - 1] := Label(u[|u| - 1])]
  }

  /** `Utility.Enum(items, isNum)`: throws on an empty list, otherwise the lookup object. */
  function Enum(items: seq<string>, isNum: bool): (r: Result<map<string, EnumEntry>>)
    ensures r.Err? <==> |items| == 0
  {
    if |items| == 0 then Err("No arguments passed to Enum")
    else if isNum then Ok(NumberedEntries(Unique(items)))
    else Ok(NamedEntries(Unique(items)))
  }

  /**
   * The two directions of a numbered enum: each distinct name maps to its position plus one
   * (so never to the falsy 0), and that ordinal maps back to the name.
   */
  lemma {:induction false} NumberedEntriesLookup(u: seq<string>, k: nat)
    requires forall i, j :: 0 <= i < j < |u| ==> u[i] != u[j]
    requires forall x :: x in u ==> !LooksLikeOrdinal(x)
    requires k < |u|
    ensures u[k] in NumberedEntries(u) && NumberedEntries(u)[u[k]] == Index(k + 1)
    ensures NatToString(k + 1) in NumberedEntries(u)
    ensures NumberedEntries(u)[NatToString(k + 1)] == Label(u[k])
  {
    var ci := |u| - 1;
    assert !LooksLikeOrdinal(u[ci]);
    if k < ci {
      NumberedEntriesLookup(u[..ci], k);
      assert u[..ci][k] == u[k];
      assert u[k] != u[ci];
      assert !LooksLikeOrdinal(u[k]);
      assert u[k] != NatToString(ci + 1);
      assert NatToString(k + 1) != u[ci];
      if NatToString(k + 1) == NatToString(ci + 1) {
        NatToStringInjective(k + 1, ci + 1);
      }
    }
  }

  /** A plain enum maps every item to itself. */
  lemma {:induction false} NamedEntriesLookup(u: seq<string>, x: string)
    requires x in u
    ensures x in NamedEntries(u) && NamedEntries(u)[x] == Label(x)
  {
    if u[|u| - 1] != x {
      assert x in u[..|u| - 1];
      NamedEntriesLookup(u[..|u| - 1], x);
    }
  }

  /** On a list that has no repeats, de-duplication changes nothing. */
  lemma {:induction false} UniqueOfDistinct(items: seq<string>)
    requires forall i, j :: 0 <= i < j < |items| ==> items[i] != items[j]
    ensures Unique(items) == items
  {
    if |items| > 0 {
      var init := items[..|items| - 1];
      UniqueOfDistinct(init);
      assert items[|items| - 1] !in init;
      assert init + [items[|items| - 1]] == items;
    }
  }
}
