/**
 * The date fallback of `_getValidatedDate` on texts of three digit groups, when the engine
 * cannot parse the text.
 */
module DateExamples {
  import opened Wrappers
  import opened Text
  import opened Fields
  import opened Form

  /** A separator the fallback can pick. */
  predicate IsDateSep(sep: char) { sep == '.' || sep == '/' || sep == '-' }

  /** Three groups of digits joined by one separator. */
  function ThreeParts(a: string, b: string, c: string, sep: char): string {
    a + [sep] + b + [sep] + c
  }

  /** Such a text picks `sep` and splits back into its three groups. */
  lemma SplitThreeParts(a: string, b: string, c: string, sep: char)
    requires AllDigits(a) && AllDigits(b) && AllDigits(c) && IsDateSep(sep)
    ensures DateSeparator(ThreeParts(a, b, c, sep)) == sep
    ensures Split(ThreeParts(a, b, c, sep), sep) == [a, b, c]
  {
    var txt := ThreeParts(a, b, c, sep);
    ThreePartsChars(a, b, c, sep);
    assert txt[|a|] == sep;
    OnlySeparator(txt, sep);
    SplitOfThreeParts(a, b, c, sep);
  }

  /** Every character of such a text is a digit or the separator. */
  lemma ThreePartsChars(a: string, b: string, c: string, sep: char)
    requires AllDigits(a) && AllDigits(b) && AllDigits(c)
    ensures var txt := ThreeParts(a, b, c, sep);
      forall i :: 0 <= i < |txt| ==> IsDigit(txt[i]) || txt[i] == sep
  {
    var txt := ThreeParts(a, b, c, sep);
    forall i | 0 <= i < |txt| ensures IsDigit(txt[i]) || txt[i] == sep {
      if i < |a| {
        assert txt[i] == a[i];
      } else if |a| < i < |a| + 1 + |b| {
        assert txt[i] == b[i - |a| - 1];
      } else if i > |a| + 1 + |b| {
        assert txt[i] == c[i - |a| - |b| - 2];
      }
    }
  }

  /** A text of digits and one kind of date separator picks that separator. */
  lemma OnlySeparator(txt: string, sep: char)
    requires IsDateSep(sep) && sep in txt
    requires forall i :: 0 <= i < |txt| ==> IsDigit(txt[i]) || txt[i] == sep
    ensures DateSeparator(txt) == sep
  {
    forall d | d in txt && d != sep ensures IsDigit(d) {
      var i :| 0 <= i < |txt| && txt[i] == d;
    }
  }

  /** The split of such a text gives back its groups. */
  lemma SplitOfThreeParts(a: string, b: string, c: string, sep: char)
    requires AllDigits(a) && AllDigits(b) && AllDigits(c) && IsDateSep(sep)
    ensures Split(ThreeParts(a, b, c, sep), sep) == [a, b, c]
  {
    assert sep !in a && sep !in b && sep !in c;
    SplitNoSeparator(c, sep);
    SplitAtSeparator(b, sep, c);
    assert ThreeParts(a, b, c, sep) == a + [sep] + (b + [sep] + c);
    SplitAtSeparator(a, sep, b + [sep] + c);
  }

  /** Three parts go through the `forEach` one at a time. */
  lemma AssignThree(a: string, b: string, c: string)
    ensures AssignParts([a, b, c]) == AssignPart(AssignPart(AssignPart(DateSlots(None, None, None), a), b), c)
  {
    var e: seq<string> := [];
    AssignPartsSnoc(e, a);
    AssignPartsSnoc([a], b);
    AssignPartsSnoc([a, b], c);
    assert e + [a] == [a] && [a] + [b] == [a, b] && [a, b] + [c] == [a, b, c];
  }

  lemma AssignMonthFirst(a: string, b: string, c: string)
    requires |a| >= 1 && |b| >= 1 && |c| >= 1 && AllDigits(a) && AllDigits(b) && AllDigits(c)
    requires 1 <= DigitsValue(a) <= 12 && DigitsValue(b) <= 31 && DigitsValue(c) >= 1970
    ensures AssignParts([a, b, c]) == DateSlots(Some(DigitsValue(a)), Some(DigitsValue(b)), Some(DigitsValue(c)))
  {
    var va, vb, vc := DigitsValue(a), DigitsValue(b), DigitsValue(c);
    ParseSmall(a, va);
    ParseSmall(b, vb);
    ParseSmall(c, vc);
    AssignThree(a, b, c);
    var s0, s1, s2 := DateSlots(None, None, None), DateSlots(Some(va), None, None), DateSlots(Some(va), Some(vb), None);
    AssignNumber(s0, a, va);
    AssignNumber(s1, b, vb);
    AssignNumber(s2, c, vc);
  }

  /**
   * The first group that reads as 1 to 12 becomes the month, whatever order the writer meant:
   * "04/12/2020" becomes "2020-4-12" (without zero padding), so a day-first text swaps day and month.
   */
  lemma FallbackMonthFirst(a: string, b: string, c: string, sep: char)
    requires |a| >= 1 && |b| >= 1 && |c| >= 1 && AllDigits(a) && AllDigits(b) && AllDigits(c) && IsDateSep(sep)
    requires 1 <= DigitsValue(a) <= 12 && DigitsValue(b) <= 31 && DigitsValue(c) >= 1970
    ensures ValidatedDate(ThreeParts(a, b, c, sep), None)
         == Str(NatToString(DigitsValue(c)) + "-" + NatToString(DigitsValue(a)) + "-" + NatToString(DigitsValue(b)))
  {
    SplitThreeParts(a, b, c, sep);
    AssignMonthFirst(a, b, c);
    FallbackOf(ThreeParts(a, b, c, sep), [a, b, c], DateSlots(Some(DigitsValue(a)), Some(DigitsValue(b)), Some(DigitsValue(c))));
  }

  lemma AssignDropsParts(a: string, b: string, c: string)
    requires |a| >= 1 && |b| >= 1 && |c| >= 1 && AllDigits(a) && AllDigits(b) && AllDigits(c)
    requires 13 <= DigitsValue(a) <= 31 && 13 <= DigitsValue(b) <= 31 && 13 <= DigitsValue(c) <= 31
    ensures AssignParts([a, b, c]) == DateSlots(None, Some(DigitsValue(a)), None)
  {
    var va, vb, vc := DigitsValue(a), DigitsValue(b), DigitsValue(c);
    var s0, s1 := DateSlots(None, None, None), DateSlots(None, Some(va), None);
    assert AssignPart(s0, a) == s1 by {
      ParseSmall(a, va);
      AssignNumber(s0, a, va);
    }
    assert AssignPart(s1, b) == s1 by {
      ParseSmall(b, vb);
      DropPart(s1, b, vb);
    }
    assert AssignPart(s1, c) == s1 by {
      ParseSmall(c, vc);
      DropPart(s1, c, vc);
    }
    AssignThree(a, b, c);
  }

  /**
   * A group that fits no empty variable is dropped: with three groups between 13 and 31 only the
   * first is kept, as the day, so "13/13/13" becomes "--13".
   */
  lemma FallbackDropsParts(a: string, b: string, c: string, sep: char)
    requires |a| >= 1 && |b| >= 1 && |c| >= 1 && AllDigits(a) && AllDigits(b) && AllDigits(c) && IsDateSep(sep)
    requires 13 <= DigitsValue(a) <= 31 && 13 <= DigitsValue(b) <= 31 && 13 <= DigitsValue(c) <= 31
    ensures ValidatedDate(ThreeParts(a, b, c, sep), None) == Str("--" + NatToString(DigitsValue(a)))
  {
    var slots := DateSlots(None, Some(DigitsValue(a)), None);
    SplitThreeParts(a, b, c, sep);
    AssignDropsParts(a, b, c);
    FallbackOf(ThreeParts(a, b, c, sep), [a, b, c], slots);
    ShowDayOnly(DigitsValue(a));
  }

  /** With only the day set, the joined result is two dashes and the day. */
  lemma ShowDayOnly(n: nat)
    ensures Show(None) + "-" + Show(None) + "-" + Show(Some(n)) == "--" + NatToString(n)
  {
    assert Show(None) == "" && Show(Some(n)) == NatToString(n);
  }
}
