/**
 * `mayBeA` and `_checkListType` of `ResumeParsing.SmartSuggestion`: does a selected text look
 * like a given category? The regular expressions are written out as predicates over the text,
 * except the e-mail, currency and month-name date patterns, which the model takes as given
 * tests (`Matchers`) constrained only by what any text they accept must contain.
 */
module Classifier {
  import opened Wrappers
  import opened Text
  import opened Utility
  import opened Categories

  /** The three regular-expression tests the model does not spell out. */
  datatype Matchers = Matchers(email: string -> bool, currency: string -> bool, monthDate: string -> bool)

  /**
   * What the three patterns demand of a match: an e-mail address has an '@', an amount
   * `[0-9]+` at its end and a month-name date a year `([\d]+){4}`.
   */
  ghost predicate Sound(m: Matchers) {
    && (forall s :: m.email(s) ==> '@' in s)
    && (forall s :: m.currency(s) ==> HasDigit(s))
    && (forall s :: m.monthDate(s) ==> HasDigit(s))
  }

  /** `txt.split(" ")`. */
  function Words(txt: string): seq<string> { Split(txt, ' ') }

  // ---------------------------------------------------------------- Name and Description

  /** The `Name` case: at most four words, each shorter than twenty characters. */
  predicate NameLike(txt: string) {
    var words := Words(txt);
    |words| <= 4 && forall i :: 0 <= i < |words| ==> |words[i]| < 20
  }

  /** The `Description` case: thirty words or more. */
  predicate DescriptionLike(txt: string) { |Words(txt)| >= 30 }

  /** A name has at most three spaces; a description has at least twenty-nine. */
  lemma WordCounts(txt: string)
    ensures NameLike(txt) ==> Count(txt, ' ') <= 3
    ensures DescriptionLike(txt) <==> Count(txt, ' ') >= 29
  {
    SplitPieces(txt, ' ');
  }

  /** A text with no space is a name exactly when it is shorter than twenty characters. */
  lemma OneWordName(txt: string)
    requires ' ' !in txt
    ensures NameLike(txt) <==> |txt| < 20
  {
    SplitPieces(txt, ' ');
    JoinSplit(txt, ' ');
  }

  // ---------------------------------------------------------------- List

  /**
   * The character class of `keyBoardKeys` (which the pattern negates), item by item as written:
   * space, `A-Z`, `a-z`, `0-9`, the punctuation up to `(`, the range `)-_`, then the rest.
   */
  predicate InKeyboardClass(c: char) {
    || c == ' ' || ('A' <= c <= 'Z') || ('a' <= c <= 'z') || ('0' <= c <= '9')
    || c in ".,?'\"!@#$%^&*(" || (')' <= c <= '_') || c in "=+;:<>/\\|}{[]`~"
  }

  /** The range `)-_` swallows most of the list: the class is exactly printable ASCII. */
  lemma KeyboardClassIsPrintableAscii(c: char)
    ensures InKeyboardClass(c) <==> ' ' <= c <= '~'
  {
  }

  /** The separator `_checkListType` writes in place of suspicious characters. */
  const ListSeparator: string := "_|--|_"

  /** `s.replace(keyBoardKeys, separator)`: every character outside the class becomes the separator. */
  function ReplaceNonKeyboard(s: string): string {
    if |s| == 0 then [] else (if InKeyboardClass(s[0]) then [s[0]] else ListSeparator) + ReplaceNonKeyboard(s[1..])
  }

  /** The one-character alternatives of `newLineRule`. */
  predicate IsBreak(c: char) { c == '\n' || c == '\r' || c == '\U{000C}' || c == '\t' || c == '\U{000B}' }

  /**
   * `x.replace(newLineRule, separator)`, scanning left to right: `\r\n` first, then a single
   * break character, then a space that another space follows (`(?= )` does not consume it).
   */
  function ReplaceBreaks(x: string): string {
    if |x| == 0 then []
    else if |x| >= 2 && x[0] == '\r' && x[1] == '\n' then ListSeparator + ReplaceBreaks(x[2..])
    else if IsBreak(x[0]) || (x[0] == ' ' && |x| >= 2 && x[1] == ' ') then ListSeparator + ReplaceBreaks(x[1..])
    else [x[0]] + ReplaceBreaks(x[1..])
  }

  /** `_checkListType(s)`: after both replacements the text is non-empty and holds the separator. */
  predicate CheckListType(s: string) {
    var x := ReplaceBreaks(ReplaceNonKeyboard(s));
    |x| > 0 && Contains(x, ListSeparator)
  }

  predicate HasNonKeyboard(s: string) { exists i :: 0 <= i < |s| && !InKeyboardClass(s[i]) }

  predicate HasDoubleSpace(s: string) { exists i :: 0 <= i < |s| - 1 && s[i] == ' ' && s[i + 1] == ' ' }

  /** Putting text in front keeps an occurrence. */
  lemma ContainsAfter(p: string, t: string, w: string)
    requires Contains(t, w)
    ensures Contains(p + t, w)
  {
    var i :| 0 <= i <= |t| && OccursAt(t, w, i);
    assert (p + t)[|p| + i..|p| + i + |w|] == t[i..i + |w|];
    assert OccursAt(p + t, w, |p| + i);
  }

  /** A text starting with `w` contains it. */
  lemma ContainsAtStart(w: string, t: string)
    ensures Contains(w + t, w)
  {
    assert (w + t)[0..|w|] == w;
    assert OccursAt(w + t, w, 0);
  }

  /** An occurrence after the first character is an occurrence in the rest. */
  lemma ContainsInRest(s: string, w: string, i: nat, k: nat)
    requires OccursAt(s, w, i) && 0 < k <= i
    ensures Contains(s[k..], w)
  {
    assert s[k..][i - k..i - k + |w|] == s[i..i + |w|];
    assert OccursAt(s[k..], w, i - k);
  }

  lemma {:induction false} ReplaceNonKeyboardKeeps(s: string)
    requires !HasNonKeyboard(s)
    ensures ReplaceNonKeyboard(s) == s
  {
    if |s| > 0 {
      ReplaceNonKeyboardKeeps(s[1..]);
    }
  }

  lemma {:induction false} ReplaceNonKeyboardMarks(s: string)
    requires HasNonKeyboard(s)
    ensures Contains(ReplaceNonKeyboard(s), ListSeparator)
  {
    var r := ReplaceNonKeyboard(s[1..]);
    if InKeyboardClass(s[0]) {
      var i :| 0 <= i < |s| && !InKeyboardClass(s[i]);
      assert !InKeyboardClass(s[1..][i - 1]);
      ReplaceNonKeyboardMarks(s[1..]);
      ContainsAfter([s[0]], r, ListSeparator);
    } else {
      ContainsAtStart(ListSeparator, r);
    }
  }

  lemma {:induction false} ReplaceBreaksKeeps(x: string)
    requires forall i :: 0 <= i < |x| ==> !IsBreak(x[i])
    requires !HasDoubleSpace(x)
    ensures ReplaceBreaks(x) == x
  {
    if |x| > 0 {
      assert !(|x| >= 2 && x[0] == ' ' && x[1] == ' ');
      ReplaceBreaksKeeps(x[1..]);
    }
  }

  lemma {:induction false} ReplaceBreaksMarksDoubleSpace(x: string)
    requires HasDoubleSpace(x)
    ensures Contains(ReplaceBreaks(x), ListSeparator)
  {
    var i :| 0 <= i < |x| - 1 && x[i] == ' ' && x[i + 1] == ' ';
    if |x| >= 2 && x[0] == '\r' && x[1] == '\n' {
      assert x[2..][i - 2] == ' ' && x[2..][i - 1] == ' ';
      ReplaceBreaksMarksDoubleSpace(x[2..]);
      ContainsAfter(ListSeparator, ReplaceBreaks(x[2..]), ListSeparator);
    } else if IsBreak(x[0]) || (x[0] == ' ' && |x| >= 2 && x[1] == ' ') {
      ContainsAtStart(ListSeparator, ReplaceBreaks(x[1..]));
    } else {
      assert i > 0;
      assert x[1..][i - 1] == ' ' && x[1..][i] == ' ';
      ReplaceBreaksMarksDoubleSpace(x[1..]);
      ContainsAfter([x[0]], ReplaceBreaks(x[1..]), ListSeparator);
    }
  }

  /** `ReplaceBreaks` leaves a run of the separator's characters in place. */
  lemma {:induction false} ReplaceBreaksKeepsSeparatorPrefixFrom(x: string, n: nat, k: nat)
    requires k + n <= |ListSeparator| && n <= |x| && x[..n] == ListSeparator[k..k + n]
    ensures |ReplaceBreaks(x)| >= n && ReplaceBreaks(x)[..n] == ListSeparator[k..k + n]
  {
    if n > 0 {
      assert x[0] == x[..n][0] == ListSeparator[k];
      assert !IsBreak(x[0]) && x[0] != ' ';
      assert x[1..][..n - 1] == x[..n][1..];
      ReplaceBreaksKeepsSeparatorPrefixFrom(x[1..], n - 1, k + 1);
      var t := ReplaceBreaks(x[1..]);
      assert ReplaceBreaks(x) == [x[0]] + t;
      assert ([x[0]] + t)[..n] == [x[0]] + t[..n - 1];
    }
  }

  lemma {:induction false} ReplaceBreaksKeepsSeparator(x: string)
    requires Contains(x, ListSeparator)
    ensures Contains(ReplaceBreaks(x), ListSeparator)
  {
    var i :| 0 <= i <= |x| && OccursAt(x, ListSeparator, i);
    if i == 0 {
      ReplaceBreaksKeepsSeparatorPrefixFrom(x, |ListSeparator|, 0);
      assert OccursAt(ReplaceBreaks(x), ListSeparator, 0);
    } else if |x| >= 2 && x[0] == '\r' && x[1] == '\n' {
      assert i != 1 by { assert x[i] == '_'; }
      ContainsInRest(x, ListSeparator, i, 2);
      ReplaceBreaksKeepsSeparator(x[2..]);
      ContainsAfter(ListSeparator, ReplaceBreaks(x[2..]), ListSeparator);
    } else {
      ContainsInRest(x, ListSeparator, i, 1);
      ReplaceBreaksKeepsSeparator(x[1..]);
      if IsBreak(x[0]) || (x[0] == ' ' && |x| >= 2 && x[1] == ' ') {
        ContainsAfter(ListSeparator, ReplaceBreaks(x[1..]), ListSeparator);
      } else {
        ContainsAfter([x[0]], ReplaceBreaks(x[1..]), ListSeparator);
      }
    }
  }

  /**
   * A text is taken for a list exactly when it has a character outside printable ASCII (a
   * bullet, a line break, a tab), two spaces in a row, or the separator itself.
   */
  lemma CheckListTypeIff(s: string)
    ensures CheckListType(s) <==> HasNonKeyboard(s) || HasDoubleSpace(s) || Contains(s, ListSeparator)
  {
    var r := ReplaceNonKeyboard(s);
    var x := ReplaceBreaks(r);
    if HasNonKeyboard(s) {
      ReplaceNonKeyboardMarks(s);
      ReplaceBreaksKeepsSeparator(r);
    } else {
      ReplaceNonKeyboardKeeps(s);
      if HasDoubleSpace(s) {
        ReplaceBreaksMarksDoubleSpace(s);
      } else if Contains(s, ListSeparator) {
        ReplaceBreaksKeepsSeparator(s);
      } else {
        forall i | 0 <= i < |s| ensures !IsBreak(s[i]) {
          assert InKeyboardClass(s[i]);
        }
        ReplaceBreaksKeeps(s);
      }
    }
    if Contains(x, ListSeparator) {
      var i :| 0 <= i <= |x| && OccursAt(x, ListSeparator, i);
    }
  }

  // ---------------------------------------------------------------- Number and SmallNumber

  /** The `SmallNumber` case: `isNumber` holds and `parseInt(txt, 10) < 100` (NaN is never less). */
  predicate SmallNumberLike(txt: string) {
    IsNumber(txt) && var v := ParseInt(txt); v.Some? && v.value < 100
  }

  /**
   * A number-shaped text is small exactly when it does not start with '.' (which makes
   * `parseInt` NaN) and its whole-number part is below 100: "42" and "99.9" are small,
   * "142" and ".5" are not.
   */
  lemma SmallNumberIff(txt: string)
    requires IsNumber(txt)
    ensures SmallNumberLike(txt) <==> txt[0] != '.' && DigitsValue(DigitPrefix(txt)) < 100
  {
    IsNumberIff(txt);
    TrimStartOfNonSpace(txt);
    assert IsDigit(txt[0]) || txt[0] == '.';
  }

  /** A number is one word of digits and dots: never a list, never a description. */
  lemma NumberIsOneWord(txt: string)
    requires IsNumber(txt)
    ensures !CheckListType(txt) && !DescriptionLike(txt)
    ensures NameLike(txt) <==> |txt| < 20
  {
    IsNumberIff(txt);
    assert ' ' !in txt;
    assert !HasNonKeyboard(txt);
    forall i | 0 <= i <= |txt| ensures !OccursAt(txt, ListSeparator, i) {
      if i < |txt| {
        assert txt[i] != ListSeparator[0];
      }
    }
    CheckListTypeIff(txt);
    WordCounts(txt);
    OneWordName(txt);
  }

  // ---------------------------------------------------------------- MobileNumber

  /** `n` decimal digits start at position `i`. */
  predicate DigitsAt(s: string, i: nat, n: nat) {
    i + n <= |s| && forall k :: i <= k < i + n ==> IsDigit(s[k])
  }

  /** The core of `isIndian`, `[789]\d{9}`; the optional `+`, `91` and space before it never decide a match. */
  predicate IndianAt(s: string, i: nat) { i < |s| && s[i] in "789" && DigitsAt(s, i + 1, 9) }

  predicate IsIndian(s: string) { exists i | 0 <= i < |s| :: IndianAt(s, i) }

  /** The core of `isBritish`: ten digits (`{10,11}` matches whenever ten do). */
  predicate IsBritish(s: string) { exists i | 0 <= i < |s| :: DigitsAt(s, i, 10) }

  /** The position after an optional `c` at `i`. */
  function SkipChar(s: string, i: nat, c: char): (j: nat)
    ensures j == i || j == i + 1
  {
    if i < |s| && s[i] == c then i + 1 else i
  }

  /** The position after an optional `\s` at `i`. */
  function SkipSpace(s: string, i: nat): (j: nat)
    ensures j == i || j == i + 1
  {
    if i < |s| && IsJsSpace(s[i]) then i + 1 else i
  }

  /**
   * The core of `isAmerican` from position `i`: `\d{3}\)?-?\s?\d{3}-?\s?\d{4}`. Taking each
   * optional character whenever it is there loses no match, since none of `)`, `-` and `\s`
   * can begin what follows it; the optional leading `\d\s` and `(` never decide a match.
   */
  predicate AmericanAt(s: string, i: nat) {
    DigitsAt(s, i, 3)
    && var j := SkipSpace(s, SkipChar(s, SkipChar(s, i + 3, ')'), '-'));
    DigitsAt(s, j, 3)
    && var k := SkipSpace(s, SkipChar(s, j + 3, '-'));
    DigitsAt(s, k, 4)
  }

  predicate IsAmerican(s: string) { exists i | 0 <= i < |s| :: AmericanAt(s, i) }

  /** The `MobileNumber` case: any of the three patterns matches somewhere. */
  predicate MobileLike(s: string) { IsIndian(s) || IsBritish(s) || IsAmerican(s) }

  /** Every Indian number is ten digits in a row, so `isIndian` never decides the outcome. */
  lemma MobileIff(s: string)
    ensures MobileLike(s) <==> IsBritish(s) || IsAmerican(s)
  {
    if IsIndian(s) {
      var i :| 0 <= i < |s| && IndianAt(s, i);
      assert DigitsAt(s, i, 10);
    }
  }

  /** A formatted American number is a mobile number that is not ten digits in a row. */
  lemma AmericanExample()
    ensures IsAmerican("(555) 123-4567") && !IsBritish("(555) 123-4567")
  {
    var s := "(555) 123-4567";
    assert AmericanAt(s, 1);
    assert !IsDigit(s[0]) && !IsDigit(s[4]) && !IsDigit(s[5]) && !IsDigit(s[9]);
  }

  // ---------------------------------------------------------------- Date

  predicate IsDateSeparator(c: char) { c == '-' || c == '.' || c == '/' }

  /**
   * The numeric half of the date pattern, `(\d+)([-./])(\d+)([-./])(\d+)`: a digit just before
   * the separator at `p`, a run of digits up to the separator at `q`, a digit just after it.
   */
  predicate NumericDateAt(s: string, p: nat, q: nat) {
    && 1 <= p && p + 1 < q && q + 1 < |s|
    && IsDigit(s[p - 1]) && IsDateSeparator(s[p])
    && AllDigits(s[p + 1..q])
    && IsDateSeparator(s[q]) && IsDigit(s[q + 1])
  }

  predicate IsNumericDate(s: string) { exists p, q | 0 <= p < q < |s| :: NumericDateAt(s, p, q) }

  /** The `Date` case: the numeric pattern or the month-name pattern. */
  predicate DateLike(m: Matchers, s: string) { IsNumericDate(s) || m.monthDate(s) }

  /** "12/04/2020", "1.1.1999" and "2020-4-12" are dates; "12/2020" is not. */
  lemma NumericDateExamples()
    ensures IsNumericDate("12/04/2020") && IsNumericDate("1.1.1999") && IsNumericDate("2020-4-12")
    ensures !IsNumericDate("12/2020")
  {
    assert NumericDateAt("12/04/2020", 2, 5);
    assert NumericDateAt("1.1.1999", 1, 3);
    assert NumericDateAt("2020-4-12", 4, 6);
    var s := "12/2020";
    assert forall k :: 0 <= k < |s| && k != 2 ==> !IsDateSeparator(s[k]);
  }

  // ---------------------------------------------------------------- mayBeA

  /**
   * `mayBeA(type, txt)`: throws when the text is empty, otherwise applies the category's test.
   * `String` has no case: the `default` branch only logs a warning and answers false.
   */
  function MayBeA(m: Matchers, t: Category, txt: string): (r: Result<bool>)
    ensures r.Err? <==> |txt| == 0
    ensures r.Err? ==> r.message == "Either 'type' or 'txt' value is missing"
  {
    if |txt| == 0 then Err("Either 'type' or 'txt' value is missing")
    else Ok(match t
      case Name => NameLike(txt)
      case Description => DescriptionLike(txt)
      case List => CheckListType(txt)
      case ContainsNumber => HasDigit(txt)
      case Number => IsNumber(txt)
      case SmallNumber => SmallNumberLike(txt)
      case MobileNumber => MobileLike(txt)
      case Date => DateLike(m, txt)
      case Email => m.email(txt)
      case Currency => m.currency(txt)
      case String => false)
  }

  /** Any one text is taken for a small number only if it is taken for a number. */
  lemma SmallNumberIsNumber(m: Matchers, txt: string)
    requires MayBeA(m, SmallNumber, txt) == Ok(true)
    ensures MayBeA(m, Number, txt) == Ok(true)
  {
  }

  /**
   * The number categories, the mobile number, the date and the currency all need a digit, so
   * `analyze` loses nothing by asking about them only for texts where `ContainsNumber` holds.
   */
  lemma DigitCategoriesNeedDigits(m: Matchers, t: Category, txt: string)
    requires Sound(m)
    requires t in [Number, SmallNumber, MobileNumber, Date, Currency]
    requires MayBeA(m, t, txt) == Ok(true)
    ensures MayBeA(m, ContainsNumber, txt) == Ok(true)
  {
    if t == Number || t == SmallNumber {
      IsNumberIff(txt);
      assert IsDigit(txt[|txt| - 1]);
    } else if t == MobileNumber {
      MobileIff(txt);
      if IsBritish(txt) {
        var i :| 0 <= i < |txt| && DigitsAt(txt, i, 10);
        assert IsDigit(txt[i]);
      } else {
        var i :| 0 <= i < |txt| && AmericanAt(txt, i);
        assert IsDigit(txt[i]);
      }
    } else if t == Date {
      if IsNumericDate(txt) {
        var p, q :| 0 <= p < q < |txt| && NumericDateAt(txt, p, q);
        assert IsDigit(txt[p - 1]);
      }
    }
  }

  /** Without an '@' a sound matcher set never takes the text for an e-mail address. */
  lemma EmailNeedsAt(m: Matchers, txt: string)
    requires Sound(m) && '@' !in txt && |txt| > 0
    ensures MayBeA(m, Email, txt) == Ok(false)
  {
  }
}
