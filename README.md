# Resume parsing: a Dafny model of the suggestion engine and form bookkeeping

The resume-parsing widget shows a resume next to an input form. When the user selects text in
the resume, the widget classifies it (a name, a number, a date, a list…), suggests the form
fields that can take it, and opens a context menu that lists every suggestable field. Suggested
fields come first, and fields that are already filled are marked as visited. Clicking an item
writes the selected text into that field. Date fields are normalised to `yyyy-mm-dd` first. The
form keeps a registry of fields (`AllFields`), counts filled and blank fields, shows a
progress bar, and shows one alert per blank required field.

This project models that core of `src/js/main.js` in Dafny:

| module | models |
|---|---|
| `Wrappers` | `Option`, `Result` (a thrown error) and `Outcome` (completed, or threw) |
| `Text` | the JavaScript string operations used: `split`, `parseInt`, first-occurrence `replace`, number to string |
| `Utility` | `makeDomElem`, `removeDomIdentifier`, `isNumber` and the `Enum` builder |
| `Categories` | `AllCategoryNames`, the numbered enum of text categories |
| `Fields` | the field table `AllFields`, ids, key lookup and key filters |
| `FormUtilities` | the eight `getReq…`/`getOptional…`/`getAll…` key lists |
| `Classifier` | `mayBeA` per category and `_checkListType` |
| `SmartSuggestion` | `_suggest`, `getAllFieldsForSuggestion`, `ifAllSuggested`, `_suggestAllNumberTypes`, `analyze`, `analyzeNumber`, `analyzeShortString` |
| `Form` | the registry as a class with in-place writes (`updateToForm`, `_updateFromSidebar`), the `_getValidatedDate` fallback, `validateForm`, the progress percentage and the Next button |
| `DateExamples` | what the date fallback makes of three-part dates |
| `ContextMenu` | the bucketing in `_createDom` with `_updateSuggested`/`_updateRemaining` on a bucket object, the display order of `_getCm`, `init`, `_handleCmClick` and `_getPosition` |

Some JavaScript conventions are written out explicitly:

- **Falsy values.** A field's value counts as filled when it is a non-empty string. `undefined` and `""` are both blank.
- **`parseInt`.** It skips leading white space, reads an optional sign, then reads digits. NaN is `None`.
- **`replace(pattern, "")`.** It removes only the first occurrence.
- **`af[key]` for an unknown key.** For a key that is neither an own nor an inherited property of the table, this is `undefined`. Reading a property of it throws a `TypeError`, so the model returns `Fail`.
- **`Set.prototype.add(...list)`.** It adds only `list[0]`.

The classifier is split into two kinds of test:

- **Concrete predicates.** The regular expressions for numbers, lists, mobile numbers and numeric dates are modelled as concrete predicates.
- **Abstract tests.** The Email and Currency expressions and the month-name date alternative are tests passed in as parameters (`Classifier.Matchers`). The model relies only on their visible necessary conditions: an email contains `@`, and a currency amount and a month-name date contain a digit.

## Model

| member | source | states |
|---|---|---|
| Utility.MakeDomElem | src/js/main.js:90-93 | the selector is the name behind `#` for an id or `.` for a class |
| Utility.RemoveDomIdentifier | src/js/main.js:101-103 | drops exactly the first character of a non-empty selector |
| Utility.RemoveMakeDomElem | src/js/main.js:90-103 | removing the identifier undoes `makeDomElem`, for ids and classes |
| Utility.MakeRemoveDomElem | src/js/main.js:90-103 | putting the `#`/`.` back undoes `removeDomIdentifier` |
| Utility.IsNumberIff | src/js/main.js:143-145 | `isNumber` holds exactly for non-empty digit strings with at most one `.` that end in a digit |
| Utility.Unique | src/js/main.js:119 | de-duplication keeps exactly the same members and yields no repeats |
| Utility.UniqueKeepsOrder | src/js/main.js:119 | de-duplication keeps first-occurrence order |
| Utility.UniqueOfDistinct | src/js/main.js:119 | a list without repeats is unchanged by de-duplication |
| Utility.Enum | src/js/main.js:113-116 | `Enum` throws exactly when the list is empty |
| Utility.NumberedEntriesLookup | src/js/main.js:123-127 | a numbered enum maps each distinct name to its position plus one and that number back to the name |
| Utility.NamedEntriesLookup | src/js/main.js:128-133 | a plain enum maps each item to itself |
| Categories.CategoryNamesDistinct | src/js/main.js:26-38 | the eleven category names are distinct |
| Categories.AllCategoryNamesEnum | src/js/main.js:25-39 | `AllCategoryNames` maps every category name to its ordinal, at least 1 (never falsy), and the ordinal back to the name |
| Categories.OrdinalInjective | src/js/main.js:25-39 | different categories have different ordinals |
| Text.JoinSplit | src/js/main.js:1273 | joining the parts of `split(sep)` with `sep` gives back the text |
| Text.SplitPieces | src/js/main.js:825 | `split(sep)` yields one more part than there are separators, and no part holds `sep` |
| Text.ParseIntOfDigits | src/js/main.js:1278 | `parseInt` of a digit string is its decimal value |
| Text.ParseIntOfIntToString | src/js/main.js:1278 | `parseInt` reads back any printed integer |
| Text.ReplacePrefix | src/js/main.js:591 | removing a prefix with `replace(prefix, "")` leaves the rest |
| Fields.Id | src/js/main.js:319-321 | a field's id is `IdPrefix` followed by its key |
| Fields.KeyOfId | src/js/main.js:319-321 | removing `IdPrefix` from an id recovers the key |
| Fields.Keys | src/js/main.js:1170 | `Object.keys(af)` lists every field's key in declaration order |
| Fields.FindKey | src/js/main.js:1237 | `af[key]` finds a field with that key, and finds none exactly when no field has the key |
| Fields.FindKeyUnique | src/js/main.js:1237 | with unique keys the lookup finds the one field with the key |
| Fields.KeysWhere | src/js/main.js:1106 | a key filter selects exactly the keys of the fields passing the test |
| Fields.KeysWhereOrdered | src/js/main.js:1106 | a key filter keeps declaration order and never repeats a key |
| Fields.KeysWhereAgree | src/js/main.js:1106 | tables that agree on keys and on the test give the same filter result |
| Fields.OrderedSameKeys | src/js/main.js:1106 | two declaration-ordered key lists with the same members are equal |
| Fields.AllFieldsUniqueKeys | src/js/main.js:194-316 | the shipped table has no repeated key |
| FormUtilities.SplitByRequired | src/js/main.js:1078-1089 | `getReq` and `getOptional` split all keys between them |
| FormUtilities.FieldCountsAddUp | src/js/main.js:1096-1143 | done/left split required keys, optional keys and all keys, as multisets and in count |
| FormUtilities.AllRequiredNoneFilled | src/js/main.js:1078-1143 | with only required, blank fields, nothing is optional or done and everything is left |
| FormUtilities.ShippedCounts | src/js/main.js:194-316 | the shipped table has 13 required blank fields and no optional or filled one |
| Classifier.MayBeA | src/js/main.js:819-888 | `mayBeA` throws its message exactly when the text is empty |
| Classifier.WordCounts | src/js/main.js:825-841 | Name allows at most three spaces, and Description holds exactly when there are at least 29 spaces |
| Classifier.OneWordName | src/js/main.js:828-836 | a one-word text is a Name exactly when it is shorter than 20 characters |
| Classifier.KeyboardClassIsPrintableAscii | src/js/main.js:900 | the "keyboard" class is exactly printable ASCII, U+0020 to U+007E |
| Classifier.ReplaceNonKeyboardMarks | src/js/main.js:903 | a non-keyboard character leaves the separator in the text |
| Classifier.ReplaceBreaksMarksDoubleSpace | src/js/main.js:904 | two consecutive spaces leave the separator in the text |
| Classifier.CheckListTypeIff | src/js/main.js:896-906 | List holds exactly for a non-keyboard character, a double space, or the literal separator |
| Classifier.SmallNumberIff | src/js/main.js:859-862 | a Number is small exactly when it does not start with `.` and its integer part is below 100 |
| Classifier.SmallNumberIsNumber | src/js/main.js:854-862 | SmallNumber implies Number |
| Classifier.NumberIsOneWord | src/js/main.js:828-862 | a Number is never a List or a Description, and it is a Name exactly when it is under 20 characters |
| Classifier.MobileIff | src/js/main.js:864-869 | the Indian pattern adds nothing: mobile means British or American |
| Classifier.AmericanExample | src/js/main.js:867 | `(555) 123-4567` matches the American pattern only |
| Classifier.NumericDateExamples | src/js/main.js:872 | dd/mm/yyyy, d.m.yyyy and yyyy-m-dd shapes are dates; `12/2020` is not a numeric date |
| Classifier.DigitCategoriesNeedDigits | src/js/main.js:848-882 | Number, SmallNumber, MobileNumber, Date and Currency all imply ContainsNumber |
| Classifier.EmailNeedsAt | src/js/main.js:875-878 | text without `@` is never an Email |
| SmartSuggestion.MatchingMembers | src/js/main.js:1043-1048 | the per-type list holds exactly the suggestable keys whose `like` names the type |
| SmartSuggestion.SuggestFor | src/js/main.js:1039-1054 | `_suggest(t)` is the matching keys, or all suggestable keys when none match or `t` is absent; it is non-empty whenever any field is suggestable |
| SmartSuggestion.SuggestionsOrdered | src/js/main.js:1039-1054 | suggestions follow declaration order without repeats |
| SmartSuggestion.Suggest | src/js/main.js:1039-1054 | the for-in loop with its `indexOf` test computes `SuggestFor` |
| SmartSuggestion.AllNumberSuggestionsMeaning | src/js/main.js:965-989 | at most four distinct keys, each the first key of a non-excluded type list that is neither empty nor everything |
| SmartSuggestion.SuggestAllNumberTypes | src/js/main.js:965-989 | the four guarded `add` calls compute `AllNumberSuggestions` |
| SmartSuggestion.NumberSuggestionsAreFields | src/js/main.js:965-989 | every number suggestion is a suggestable key |
| SmartSuggestion.AnalyzeNumber | src/js/main.js:937-957 | `analyzeNumber` throws exactly on empty text |
| SmartSuggestion.AnalyzeShortString | src/js/main.js:997-1007 | `analyzeShortString` throws exactly on empty text |
| SmartSuggestion.Analyze | src/js/main.js:914-929 | `analyze` throws exactly on empty text |
| SmartSuggestion.AnalyzeRoutes | src/js/main.js:914-929 | the tests run in the order List, Description, ContainsNumber, and the first true one decides |
| SmartSuggestion.AnalyzeNumberRoutes | src/js/main.js:937-957 | Number, then SmallNumber or the number union; otherwise Mobile, Currency, Date, then all |
| SmartSuggestion.AnalyzeShortStringRoutes | src/js/main.js:997-1007 | Email, then Name, then all |
| SmartSuggestion.AnalyzeOutcome | src/js/main.js:914-1007 | every path except the number union ends in `_suggest` of some type or none |
| SmartSuggestion.AnalyzeSuggestsFields | src/js/main.js:914-1054 | `analyze` only suggests suggestable keys, never twice |
| SmartSuggestion.DigitTextIgnoresEmail | src/js/main.js:914-929 | for text with a digit the Email test is never consulted |
| SmartSuggestion.DigitFreeTextIgnoresNumberTests | src/js/main.js:914-929 | for digit-free text the Currency and Date tests are never consulted |
| SmartSuggestion.ShippedListFields | src/js/main.js:212-316 | the shipped List fields are headline and companyDetails |
| SmartSuggestion.ShippedDescriptionFields | src/js/main.js:212-316 | the shipped Description fields are headline, companyDetails and collegeDetails |
| SmartSuggestion.ShippedEmailFields | src/js/main.js:212-316 | the shipped Email field is email |
| SmartSuggestion.ShippedNameFields | src/js/main.js:212-316 | the six shipped Name fields, in order |
| SmartSuggestion.ShippedNumberFields | src/js/main.js:212-316 | the shipped Number fields are phone, companyDuration and collegeDuration |
| SmartSuggestion.ShippedMobileFields | src/js/main.js:212-316 | the shipped MobileNumber field is phone |
| SmartSuggestion.ShippedDateFields | src/js/main.js:212-316 | the shipped Date fields are companyDuration and collegeDuration |
| SmartSuggestion.ShippedUnmatched | src/js/main.js:212-316 | no shipped field takes SmallNumber or Currency |
| SmartSuggestion.ShippedAllSuggestable | src/js/main.js:1014-1021 | all 13 shipped fields are suggestable |
| SmartSuggestion.ShippedNumberUnion | src/js/main.js:965-989 | over the shipped table the number union is just `["phone"]` |
| SmartSuggestion.ShippedList | src/js/main.js:914-917 | list text suggests headline and companyDetails |
| SmartSuggestion.ShippedLargeNumber | src/js/main.js:938-942 | a number of 100 or more suggests only phone |
| SmartSuggestion.ShippedSmallNumber | src/js/main.js:939-940 | a small number suggests every field |
| SmartSuggestion.ShippedDate | src/js/main.js:949-950 | a date-like text suggests the two duration fields |
| SmartSuggestion.ShippedEmail | src/js/main.js:998-999 | a digit-free text that is neither a list nor a description and passes the email test suggests only the email field |
| SmartSuggestion.ShippedName | src/js/main.js:1000-1001 | a name suggests the six name fields |
| SmartSuggestion.ShippedAlwaysSuggests | src/js/main.js:1050-1053 | over the shipped table, every non-empty selection gets a suggestion |
| Form.TwoDigits | src/js/main.js:1267-1268 | the zero-padded month and day are two digits with the same value |
| Form.DateSeparator | src/js/main.js:1272 | the separator is `.` if present, else `/` if present, else `-` |
| Form.GetValidatedDate | src/js/main.js:1263-1300 | the forEach over the parts computes `ValidatedDate` |
| Form.AssignEach | src/js/main.js:1277-1288 | the loop over the parts leaves the month, day and year that `AssignParts` describes |
| Form.FallbackUndefinedIff | src/js/main.js:1272-1292 | the fallback returns `undefined` exactly when the text has no `.`, `/` or `-` |
| Form.AssignPartsBounds | src/js/main.js:1277-1288 | an assigned month is at most 12, a day at most 31, and a year at least 1970 |
| Form.AssignPartsKeepsSet | src/js/main.js:1277-1288 | a slot, once set to a non-zero value, is never overwritten |
| Form.WithValue | src/js/main.js:1244 | the write changes only that field's value |
| Form.WithValueKeys | src/js/main.js:1244 | a value write keeps the keys and their uniqueness |
| Form.StoredValue | src/js/main.js:1242 | a field that takes no dates stores the text as given |
| Form.Registry.constructor | src/js/main.js:194-321 | the registry starts as the shipped table, with unique keys |
| Form.Registry.UpdateToForm | src/js/main.js:1235-1255 | an unknown key throws and changes nothing; otherwise only that field changes, to the (date-normalised) text, when its element exists |
| Form.Registry.UpdateFromSidebar | src/js/main.js:1308-1312 | the id without the prefix names the field, which takes the element's text as is; an unknown key throws |
| Form.Registry.ValidateForm | src/js/main.js:1318-1331 | the loop yields `BlankMessages` of the current table |
| Form.BlankMessage | src/js/main.js:1327-1330 | the alert is the label followed by ` cannot be blank` |
| Form.BlankMessagesMatchReqLeft | src/js/main.js:1318-1331 | one message per `getReqLeft` key, in that order, for that key's field; it does not stop early |
| Form.ShippedValidation | src/js/main.js:1318-1331 | on the shipped table all 13 fields are reported |
| Form.ProgressPercent | src/js/main.js:1178-1187 | the bar is the floor of 100 × filled ÷ counted, undefined when nothing is counted |
| Form.ProgressOverAll | src/js/main.js:1179-1181 | over all fields the bar is at most 100, and exactly 100 when every field is filled |
| Form.ProgressAllRequired | src/js/main.js:1179-1181 | with only required fields both modes show the same percentage |
| Form.ProgressCanExceed100 | src/js/main.js:1179-1181 | as written, a filled optional field pushes the required-only bar to 200 |
| Form.IntendedProgressPercent | src/js/main.js:1179-1181 | the corrected percentage is undefined exactly when nothing is counted |
| Form.IntendedProgressAtMost100 | src/js/main.js:1179-1181 | counted with `getReqDone`, the bar stays at most 100 and reads 100 exactly when no required field is left |
| Form.BlankMessagesNotSuccess | src/js/main.js:1220-1226 | no blank-field alert is the success alert |
| Form.BlankMessagesEndInBlank | src/js/main.js:1327-1330 | every blank-field alert ends in "blank" |
| Form.NextAlerts | src/js/main.js:1220-1226 | as written, the Next button shows the blank alerts and then always the success alert |
| Form.NextAlwaysSucceeds | src/js/main.js:1220-1226 | on the empty shipped form, 13 blanks are reported and success is still announced |
| Form.NextSuccessIff | src/js/main.js:1223 | with validation stopping the handler, success is shown exactly when no required field is blank |
| Form.NextAlertsStopping | src/js/main.js:1220-1226 | the corrected Next handler always shows at least one alert |
| DateExamples.SplitThreeParts | src/js/main.js:1272-1273 | three digit groups joined by one separator are split back into the three groups |
| DateExamples.AssignMonthFirst | src/js/main.js:1277-1288 | month ≤ 12, day ≤ 31, year ≥ 1970 fill month, day and year |
| DateExamples.FallbackMonthFirst | src/js/main.js:1271-1289 | such a text becomes `year-month-day` unpadded, so a day-first text has day and month swapped |
| DateExamples.AssignDropsParts | src/js/main.js:1279-1287 | three parts from 13 to 31 fill only the day |
| DateExamples.FallbackDropsParts | src/js/main.js:1271-1289 | such a text becomes `--day` |
| ContextMenu.ItemOf | src/js/main.js:596-603 | an item is visited exactly when its field is filled, and it carries the field's id and label |
| ContextMenu.ItemKeys | src/js/main.js:591 | each item's key is its id without the prefix |
| ContextMenu.BucketItems | src/js/main.js:646-678 | every item of a bucket comes from a field that belongs in that bucket |
| ContextMenu.BucketKeys | src/js/main.js:631-678 | a bucket's keys are exactly the keys of the fields that belong in it, in table order |
| ContextMenu.MenuOf | src/js/main.js:680-722 | the footer never counts more done than required fields |
| ContextMenu.MenuBuckets.constructor | src/js/main.js:616-629 | all eight buckets start empty |
| ContextMenu.MenuBuckets.UpdateSuggested | src/js/main.js:646-661 | the field's item is appended to the one suggested bucket chosen by `isRequired` and filled; other buckets are unchanged |
| ContextMenu.MenuBuckets.UpdateRemaining | src/js/main.js:663-678 | the same for the remaining buckets |
| ContextMenu.FillBuckets | src/js/main.js:631-640 | after the loop each bucket holds `BucketItems` for it |
| ContextMenu.CreateDom | src/js/main.js:615-644 | `_createDom` builds `MenuOf` |
| ContextMenu.SuggestableItems | src/js/main.js:631-633 | there are never more menu items than fields |
| ContextMenu.SuggestableItemKeys | src/js/main.js:631-633 | the items lead back to the suggestable keys one for one, in table order |
| ContextMenu.SuggestableItemsMembers | src/js/main.js:631-633 | an item is listed exactly when it is the item of a suggestable field |
| ContextMenu.MenuHoldsSuggestable | src/js/main.js:631-640 | the menu holds exactly the items of the suggestable fields |
| ContextMenu.MenuPartition | src/js/main.js:615-644 | every suggestable field appears exactly once: same multiset, same count |
| ContextMenu.BucketRanks | src/js/main.js:694-716 | all items of a bucket share that bucket's display rank |
| ContextMenu.AppendBucket | src/js/main.js:694-716 | appending a bucket of equal or higher rank keeps the ranks sorted |
| ContextMenu.MenuOrdered | src/js/main.js:694-716 | suggested items come before the rest, and within each group unfilled items come before filled ones |
| ContextMenu.BucketsInDeclarationOrder | src/js/main.js:631-640 | each bucket lists its fields in table order |
| ContextMenu.MenuItemsResolve | src/js/main.js:587-593 | every menu item's key names a suggestable field whose item it is |
| ContextMenu.NoRequiredBucket | src/js/main.js:649-676 | without `isRequired` a required bucket gets no item |
| ContextMenu.NoIsRequiredOnlyOptional | src/js/main.js:649-676 | without `isRequired` every required bucket is empty |
| ContextMenu.ShippedSuggestableItems | src/js/main.js:212-316 | the shipped table gives 13 menu items |
| ContextMenu.ShippedMenuAllOptional | src/js/main.js:646-678 | as written, the 13 required shipped fields all land in optional buckets |
| ContextMenu.MarkRequired | src/js/main.js:206 | each field's `isRequired` becomes its `required`; nothing else changes |
| ContextMenu.IntendedBucketsFollowRequired | src/js/main.js:646-678 | with `isRequired` set from `required`, each bucket holds exactly the suggestable fields with its suggested, required and filled status |
| ContextMenu.IntendedMenuOf | src/js/main.js:646-678 | the corrected menu still lists the item of every suggestable field exactly once |
| ContextMenu.SuggestForIgnoresValues | src/js/main.js:1039-1054 | filling a field does not change `_suggest` |
| ContextMenu.NumberSuggestionsIgnoreValues | src/js/main.js:965-989 | filling a field does not change the number union |
| ContextMenu.AnalyzeNumberIgnoresValues | src/js/main.js:937-957 | filling a field does not change `analyzeNumber` |
| ContextMenu.AnalyzeShortStringIgnoresValues | src/js/main.js:997-1007 | filling a field does not change `analyzeShortString` |
| ContextMenu.AnalyzeIgnoresValues | src/js/main.js:914-929 | filling a field does not change the suggestions for a text |
| ContextMenu.MenuState.constructor | src/js/main.js:545 | no text is selected at first |
| ContextMenu.MenuState.Open | src/js/main.js:556-565 | `init` remembers the selected text and builds `MenuOf` |
| ContextMenu.MenuState.HandleClick | src/js/main.js:587-593 | the clicked id without the prefix is passed to `updateToForm` with the remembered text |
| ContextMenu.ClickFillsField | src/js/main.js:587-593 | a clicked item always finds its field; for a non-date field only that field changes, it now holds the text, and its item is visited exactly when the text is non-empty |
| ContextMenu.GetPosition | src/js/main.js:745-771 | the menu opens right of and below the selection, is pulled in at the right edge and flipped up at the bottom; the width overflow is measured before the move to 50, and the flip subtracts the header height twice |

## Left out

- `src/js/context-menu.js` is not part of this model. It holds browser selection geometry, event listeners and share-URL building.
- `gulpfile.js` is not part of this model. It is the build pipeline.
- `form.js` is not part of this model. It is an HTML-templating stub.
- `Main` is not modelled: page navigation, jQuery wiring and the click timer.
- `SelectText` is not modelled: the browser selection APIs.
- `getMousePosition` and `adjustHeight` are not modelled. The mouse positions and document sizes that `_getPosition` reads are parameters.
- `_setPosition`, `_close`, `_closeContextMenu` and the handler set-up are not modelled. They are DOM effects.
- The HTML strings of `_getDomString` and `_getCm` are not built. The menu is a sequence of items, each with an id, a label and a visited flag, plus the footer counts.
- The half-second timer around `_updateFromSidebar` is not modelled. Each event is modelled as one direct call.
- The `new Date(txt)` branch of `_getValidatedDate` depends on the JavaScript engine's date parser. Its result is an input (`Form.EngineDate`, or `None` for an invalid date), and only the formatting of a parsed date is modelled.
- The Email and Currency expressions and the month-name alternative of the Date expression are tests passed in. Only the facts stated above are assumed about them.
- Classifier.CheckListType: the model follows the code, so text that already contains the literal separator `_|--|_` also counts as a list.
- Form.ProgressPercent: the floating-point division followed by `parseInt` is idealised as an exact integer floor. The two agree for every count up to 13 fields, but can differ for larger tables.
- Whether a field's form element exists on the page is a parameter of `updateToForm`. The DOM write itself and the textarea resize are left out.
- Field ids are computed as `IdPrefix + key` (`Fields.Id`) rather than stored in each record.
- The field property `label` is named `labelText`, because `label` is a reserved word in Dafny.
- Alerts and console output are not shown. `validateForm` returns its alert texts in order, and the console messages are dropped.
- Strings are sequences of characters. UTF-16 surrogate pairs are not distinguished from other characters.
- Keys inherited from `Object.prototype` (such as `constructor` or `toString`) are not modelled. For them `af[key]` is a function rather than `undefined`, so `updateToForm` writes nothing and throws nothing, where the model returns `Fail`.
- Text.ParseInt: the result is an exact unbounded integer. JavaScript `parseInt` returns a double, which is inexact above 2^53.
- Text.ParseIntOfDigits: the decimal value is exact only up to 2^53 in JavaScript. Beyond that `parseInt` rounds to the nearest double.
- Text.ParseIntOfIntToString: `String(n)` prints numbers of magnitude 1e21 and above in exponent form, which `parseInt` reads back as a different number (`parseInt("1e+21")` is 1). `Text.IntToString` always prints every digit, so the date fallback of "1/2/1000000000000000000000" gives "1000000000000000000000-1-2" in the model and "1e+21-1-2" in JavaScript.

## Findings

| source | as written | input that shows it | evidently intended | confidence | as-written member | corrected member |
|---|---|---|---|---|---|---|
| src/js/main.js:1220-1226 | `validateForm()` only shows alerts, so the Next handler then announces success unconditionally | the shipped form with every field empty: 13 "cannot be blank" alerts, then "Success, all of the items are properly filled" | success only when no required field is blank, as the comment at line 1223 says | not executed | Form.NextAlwaysSucceeds | Form.NextSuccessIff |
| src/js/main.js:646-678 | the menu buckets test `f.isRequired`, which no field in the table defines (the table uses `required`) | any selection over the shipped table: all 13 required fields land in the optional buckets | bucket by `required` | not executed | ContextMenu.ShippedMenuAllOptional | ContextMenu.IntendedBucketsFollowRequired |
| src/js/main.js:1179-1181 | with `onlyReq` the numerator is `getAllDone()`, which also counts filled optional fields | one filled required field plus one filled optional field: the bar shows 200% | numerator `getReqDone()` when only required fields are counted | not executed | Form.ProgressCanExceed100 | Form.IntendedProgressAtMost100 |

`Form.NextAlerts` and `ContextMenu.MenuOf` are the behaviour as written. `Form.NextAlertsStopping`, `ContextMenu.IntendedMenuOf` and `Form.IntendedProgressPercent` are the corrected definitions.
