# Phone-number masking of the NumberInput component

This project models the masking engine of the React component `NumberInput`
(`src/Components/NumberInput/NumberInput.tsx`) and proves its properties. The
component shows a phone number as the country prefix, a space and the digits
laid out by the country's template. It accepts only edits that still clean to
digits. A Delete or Backspace over a formatting character also removes one
digit of the clean value, at an offset computed from the cursor.

The project has five files:

- `wrappers.dfy`: the `Option` type.
- `text.dfy` (module `Text`): the character classes the component uses.
  - Digits: `\d`, and its complement `\D`.
  - The formatting class `[(\()(\))(\s)(\-)]`, with JavaScript's `\s` written
    out as its code points.
  - `getClearValue` as `Strip`.
  - Global removal of the prefix as `RemoveAll`.
  - The value of a digit run, which `parseFloat` computes.
- `formatting.dfy` (module `Formatting`): the country table `CountryConfig`
  and `applyFormat`.
  - Each anchored pattern `^(\d{lo,hi})…$` is a list of quantifiers.
  - The regex engine's backtracking search becomes the two mutually recursive
    functions `Match` and `TryLength`. They try the longest length for each
    group first, then shorter lengths, exactly as the greedy quantifiers do.
  - The replacement string is a list of literal pieces and `$n` references.
  - Lemmas prove that the search has a closed form. Three digits split 2/1/0.
    From four digits on, the split is 3, then up to 3, then the rest. Input
    that is not all digits, or whose length is outside [3, max], comes back
    unchanged.
- `masking.dfy` (module `Masking`): the change handler `format`, written as the
  function `OnChange` of the country, the recorded deletion key, the previous
  formatted text, the event's text and its `selectionStart`. The same module
  defines:
  - the adjacent-digit deletion rule;
  - `getValue` as `Display`;
  - `inputMaxLength`;
  - the invariant `Consistent` of the local `value` state.
- `number_input.dfy` (module `NumberInputComponent`): the component as a class
  `NumberInput`, whose fields are the selected country, `value` and the
  deletion marker `deletingTypeRef.current`. There is one method per event:
  - key-down;
  - change (`format`);
  - a country switch, which runs the effect that resets `value`;
  - blur.

  Each method's contract ties the new state to the functions in `Masking`.
  These methods keep the invariant `Valid()`.

Where the code's behaviour differs from the natural description of the
component, the model follows the code:

- `applyFormat` keeps separators that precede an empty group. PT `"9123"`
  becomes `"912 3 "` and US `"5551"` becomes `"(555) 1-"`
  (`Formatting.ExamplePartialPT`, `Formatting.ExamplePartialUS`).
- The deletion rule checks the previous formatted text at
  `selectionStart - prefix.length - 1`. It then removes the clean digit at
  `selectionStart - prefix.length - 2`. The formatted text and the clean
  digits use different offsets, so the removed digit is not always next to the
  formatting character.
  - Example: a Backspace over the hyphen of `+1 (555) 123-4567` reads the
    hyphen, but removes the third digit of the last group. The result is
    `(555) 123-457` (`Masking.BackspaceOverHyphenUS`, `Formatting.ExampleNineUS`).
- The prefix is removed wherever it occurs in the text, not only at its start
  (`Masking.PrefixInsideRemoved`, `Masking.RepeatedPrefixRemoved`).

## Model

| member | source | states |
|---|---|---|
| Formatting.Config | src/Components/NumberInput/NumberInput.tsx:8-25 | `CountryConfig` for the two codes: prefix, three-group pattern, template and `lengthWithFormat`; every prefix starts with '+' |
| Formatting.ConfigFacts | src/Components/NumberInput/NumberInput.tsx:8-25 | For each country: the pattern admits at most 10 (US) or 9 (PT) digits; the template adds 4 or 2 separator characters; `lengthWithFormat` is exactly the digits plus the separators |
| Formatting.Match | src/Components/NumberInput/NumberInput.tsx:12 | A successful match of an anchored pattern of digit groups assigns each group a length within its quantifier's bounds, and the lengths add up to the input length |
| Formatting.TryLength | src/Components/NumberInput/NumberInput.tsx:12 | Trying the first group at a given length or any shorter one, a success keeps the first group within that length, keeps every group within its bounds, and covers the whole input |
| Formatting.TryLast | src/Components/NumberInput/NumberInput.tsx:12 | The last group `(\d{0,k})` followed by `$` matches the remaining m digits exactly when m is at most the length being tried |
| Formatting.TryMiddle | src/Components/NumberInput/NumberInput.tsx:12 | For the last two groups, backtracking settles on the longest length for the middle group that still lets the last group match, or fails |
| Formatting.TryFirstThree | src/Components/NumberInput/NumberInput.tsx:12 | With 4 to 6+k digits, the first group matches at length 3 and the split is the greedy one; otherwise the search falls back to length 2 |
| Formatting.TryFirstTwo | src/Components/NumberInput/NumberInput.tsx:12 | With the first group at length 2, three digits match as 2/1/0, and a digit count outside [3, 6+k] fails |
| Formatting.MatchThree | src/Components/NumberInput/NumberInput.tsx:20 | The pattern `^(\d{2,3})(\d{1,3})(\d{0,k})$` matches n digits exactly when 3 <= n <= 6+k, and then it yields the greedy split |
| Formatting.MatchClosedForm | src/Components/NumberInput/NumberInput.tsx:8-25 | A country's pattern matches n digits exactly when 3 <= n <= its maximum, and then yields 2/1/0 for three digits and 3 / min(3, rest) / remainder from four on |
| Formatting.Split | src/Components/NumberInput/NumberInput.tsx:27-29 | The capture groups have the matched lengths and join back into the input |
| Formatting.SubstituteCons | src/Components/NumberInput/NumberInput.tsx:27-29 | A replacement string is expanded piece by piece, from the left: a literal copies its text and `$n` copies group n |
| Formatting.FormatRefsWithin | src/Components/NumberInput/NumberInput.tsx:8-25 | Each country's pattern has three groups, and its template refers only to `$1`…`$3` |
| Formatting.SplitThree | src/Components/NumberInput/NumberInput.tsx:27-29 | Three lengths that add up to the input split it into its prefix, middle and suffix slices |
| Formatting.SubstituteLayoutUS | src/Components/NumberInput/NumberInput.tsx:13 | `"($1) $2-$3"` filled with three groups is `"(" g1 ") " g2 "-" g3` |
| Formatting.SubstituteLayoutPT | src/Components/NumberInput/NumberInput.tsx:21 | `"$1 $2 $3"` filled with three groups is `g1 " " g2 " " g3` |
| Formatting.Groups | src/Components/NumberInput/NumberInput.tsx:12 | The greedy split of at least three characters gives three pieces that join back into the input and are digits when the input is |
| Formatting.ApplyFormat | src/Components/NumberInput/NumberInput.tsx:27-29 | `input.replace(pattern, format)`: only an all-digit input whose length is between 3 and the country's maximum is rewritten; any other input comes back unchanged |
| Formatting.ApplyFormatShape | src/Components/NumberInput/NumberInput.tsx:27-29 | `applyFormat` returns the country's layout of the greedy groups when the input is all digits with length in [3, max], and returns the input unchanged otherwise |
| Formatting.ApplyFormatOfGroups | src/Components/NumberInput/NumberInput.tsx:27-29 | Digit groups whose lengths are the greedy split of their total format to the country's layout of exactly those groups |
| Formatting.StripLayoutUS | src/Components/NumberInput/NumberInput.tsx:13 | Removing the formatting characters from a filled US template gives back the three digit groups joined |
| Formatting.StripLayoutPT | src/Components/NumberInput/NumberInput.tsx:21 | Removing the formatting characters from a filled PT template gives back the three digit groups joined |
| Formatting.StripApplyFormat | src/Components/NumberInput/NumberInput.tsx:27-29 | For every digit string and either country, cleaning the formatted string gives back exactly the digits |
| Formatting.ApplyFormatIdentity | src/Components/NumberInput/NumberInput.tsx:27-29 | `applyFormat` returns its input unchanged if and only if the pattern cannot match: a non-digit, fewer than 3 digits, or more than the country's maximum |
| Formatting.ApplyFormatLength | src/Components/NumberInput/NumberInput.tsx:27-29 | A matched input grows by exactly the template's separator count (4 for US, 2 for PT) |
| Formatting.FullLengthFormat | src/Components/NumberInput/NumberInput.tsx:8-25 | A full-length number (10 US or 9 PT digits) is laid out as groups of 3, 3 and the rest, and has exactly `lengthWithFormat` characters |
| Formatting.FormattedWithinWidth | src/Components/NumberInput/NumberInput.tsx:8-25 | No digit string within the maximum formats to more than `lengthWithFormat` characters |
| Formatting.LayoutCharset | src/Components/NumberInput/NumberInput.tsx:13 | A filled template holds only digits and formatting characters |
| Formatting.FormattedCharset | src/Components/NumberInput/NumberInput.tsx:27-29 | The format of a digit string holds only digits and formatting characters |
| Formatting.ExampleTooShort | src/Components/NumberInput/NumberInput.tsx:20 | PT "91" is too short for the pattern and comes back as typed |
| Formatting.ExampleThreeDigits | src/Components/NumberInput/NumberInput.tsx:20-21 | PT "912" splits 2/1/0 and formats to "91 2 ", trailing space included |
| Formatting.ExamplePartialPT | src/Components/NumberInput/NumberInput.tsx:20-21 | PT "9123" formats to "912 3 ", keeping the separator before the empty group |
| Formatting.ExamplePartialUS | src/Components/NumberInput/NumberInput.tsx:12-13 | US "5551" formats to "(555) 1-" |
| Formatting.ExampleFullPT | src/Components/NumberInput/NumberInput.tsx:20-21 | PT "912345678" formats to "912 345 678" |
| Formatting.ExampleFullUS | src/Components/NumberInput/NumberInput.tsx:12-13 | US "5551234567" formats to "(555) 123-4567" |
| Formatting.ExampleNineUS | src/Components/NumberInput/NumberInput.tsx:12-13 | US "555123457" formats to "(555) 123-457" |
| Formatting.ExampleTooLong | src/Components/NumberInput/NumberInput.tsx:20 | PT with ten digits is one too many and comes back unformatted |
| Text.IsWhitespace | src/Components/NumberInput/NumberInput.tsx:6 | `\s` of the class: the ECMAScript white-space and line-terminator characters |
| Text.IsFormattingChar | src/Components/NumberInput/NumberInput.tsx:6 | Membership in `[(\()(\))(\s)(\-)]`: a formatting character is never a digit and never '+' |
| Text.HasNonDigit | src/Components/NumberInput/NumberInput.tsx:69-71 | `hasUserTypedText`: the `\D` search finds a character exactly when the string is not all digits |
| Text.PlusAbsent | src/Components/NumberInput/NumberInput.tsx:6 | A string made only of digits and formatting characters contains no '+' |
| Text.Strip | src/Components/NumberInput/NumberInput.tsx:65-67 | `getClearValue` never makes a string longer |
| Text.StripRemovesFormatting | src/Components/NumberInput/NumberInput.tsx:65-67 | No parenthesis, hyphen or whitespace character remains after cleaning |
| Text.StripKeepsOthers | src/Components/NumberInput/NumberInput.tsx:65-67 | Every character outside the formatting class occurs after cleaning exactly as often as before |
| Text.StripConcat | src/Components/NumberInput/NumberInput.tsx:65-67 | The global replace works character by character: it distributes over concatenation |
| Text.StripDigits | src/Components/NumberInput/NumberInput.tsx:65-67 | Cleaning leaves a digit string unchanged |
| Text.StripKeepsPlain | src/Components/NumberInput/NumberInput.tsx:65-67 | Cleaning leaves unchanged any string without formatting characters |
| Text.StripSeparators | src/Components/NumberInput/NumberInput.tsx:65-67 | A run of formatting characters cleans to the empty string |
| Text.RemoveAll | src/Components/NumberInput/NumberInput.tsx:104-107 | Removing every occurrence of the prefix never lengthens the text, and leaves it unchanged when the prefix's first character does not occur in it |
| Text.RemoveAllLeading | src/Components/NumberInput/NumberInput.tsx:104-107 | An occurrence of the prefix at the front is removed, and the search goes on in the rest |
| Text.RemoveAllPrefixed | src/Components/NumberInput/NumberInput.tsx:104-107 | The prefix followed by text that lacks the prefix's first character leaves just that text |
| Text.RemoveAllInside | src/Components/NumberInput/NumberInput.tsx:104-107 | An occurrence of the prefix after text that holds no '+' is removed too, and the search continues after it |
| Text.DigitsValue | src/Components/NumberInput/NumberInput.tsx:132 | The value `parseFloat` gives a digit run is below 10 to the number of digits |
| Text.DigitsValueInjective | src/Components/NumberInput/NumberInput.tsx:132 | Two digit runs of the same length with the same value are equal |
| Text.DigitsValueLeadingZero | src/Components/NumberInput/NumberInput.tsx:132 | A leading zero does not change the numeric value of a digit run |
| Masking.InputMaxLength | src/Components/NumberInput/NumberInput.tsx:140-141 | `inputMaxLength` is 17 for US and 16 for PT |
| Masking.ParseRaw | src/Components/NumberInput/NumberInput.tsx:132 | `parseFloat` of the clean digits is NaN exactly for the empty run, and otherwise a value below 10 to the number of digits |
| Masking.IsDeleting | src/Components/NumberInput/NumberInput.tsx:73-79 | A deletion is in progress exactly when a key is recorded, because only Delete and Backspace are ever recorded |
| Masking.CharAt | src/Components/NumberInput/NumberInput.tsx:86 | `charAt(at)` is the one character at `at` when `at` is inside the string, and "" otherwise |
| Masking.CleanCandidate | src/Components/NumberInput/NumberInput.tsx:104-109 | The event text with the prefix removed and then cleaned is never longer than the event text |
| Masking.AfterDeletionRule | src/Components/NumberInput/NumberInput.tsx:113-126 | The deletion rule removes at most one character, and an all-digit clean value stays all digits |
| Masking.FromClean | src/Components/NumberInput/NumberInput.tsx:128-133 | The value `setValue` stores for a clean digit run: its formatted text cleans back to the run, and `raw` is NaN exactly for the empty run |
| Masking.Consistent | src/Components/NumberInput/NumberInput.tsx:128-133 | The invariant of `value`: the reset value, or a formatted text that re-formats from its own digits with `raw` their value; either way the text holds only digits and formatting characters |
| Masking.Display | src/Components/NumberInput/NumberInput.tsx:143-149 | The displayed text always starts with the prefix. It is the bare prefix exactly when `formatted` is "" or "0", and otherwise it is the prefix, a space and `formatted` |
| Masking.IsFormattingCharAt | src/Components/NumberInput/NumberInput.tsx:81-87 | `isFormattingChar(at)` holds exactly when 1 <= at < the formatted length and the character there is a formatting character. The `!at` guard excludes offset 0 |
| Masking.RemoveAt | src/Components/NumberInput/NumberInput.tsx:123-125 | The two slices joined drop exactly the character at the offset when it is inside the string, and change nothing otherwise. The other characters keep their order |
| Masking.OnChange | src/Components/NumberInput/NumberInput.tsx:102-138 | An edit is rejected exactly when its cleaned text holds a non-digit. An accepted edit has `formatted == applyFormat(edited)`, where edited is the clean text after the deletion rule. Cleaning `formatted` gives edited back, `raw` is `parseFloat` of edited (NaN exactly when edited is empty), and the new value keeps the state invariant. The cursor is restored exactly for a recorded deletion key with a non-zero `selectionStart` |
| Masking.AdjacentDigitRule | src/Components/NumberInput/NumberInput.tsx:113-126 | The rule fires only for a recorded Delete or Backspace, a non-zero `selectionStart`, and a formatting character at offset `selectionStart - prefixLen - 1`, which must be >= 1. When it fires, it removes the character at offset `selectionStart - prefixLen - 2`, or nothing past the end, and changes nothing else |
| Masking.DisplayWithinMaxLength | src/Components/NumberInput/NumberInput.tsx:140-149 | The display of any digit run within the maximum fits in `inputMaxLength`; a full-length number fills it exactly |
| Masking.PrefixAbsentFromFormatted | src/Components/NumberInput/NumberInput.tsx:104-107 | The prefix's first character ('+') never occurs in a space, a formatted digit run and trailing digits |
| Masking.CleanOfPrefixed | src/Components/NumberInput/NumberInput.tsx:104-109 | When the text after a leading prefix has no '+', only that prefix is removed, and the rest is cleaned |
| Masking.RepeatedPrefixRemoved | src/Components/NumberInput/NumberInput.tsx:104-107 | Prefix removal is global: a doubled prefix in front is removed as completely as a single one |
| Masking.PrefixInsideRemoved | src/Components/NumberInput/NumberInput.tsx:104-109 | A prefix in the middle of the edit text is removed: text without '+' before it is cleaned as it is, and the rest is cleaned on its own |
| Masking.CleanOfBarePrefix | src/Components/NumberInput/NumberInput.tsx:104-109 | The prefix followed by digits cleans to those digits |
| Masking.CleanOfDisplayed | src/Components/NumberInput/NumberInput.tsx:104-109 | The displayed text of a formatted digit run, with digits typed after it, cleans to the run followed by those digits |
| Masking.OnChangeOfDigits | src/Components/NumberInput/NumberInput.tsx:102-138 | An edit whose cleaned text is all digits is accepted with the deletion rule applied, and the cursor is restored for a deletion key and a non-zero `selectionStart` |
| Masking.OnChangeWithoutKey | src/Components/NumberInput/NumberInput.tsx:102-138 | Without a recorded deletion key, an all-digit edit is accepted as it is, and the cursor is not restored |
| Masking.CleanOfEmptyDisplay | src/Components/NumberInput/NumberInput.tsx:143-149 | A digit run that formats to "" is empty, and the bare prefix shown for it cleans back to it |
| Masking.CleanOfSpacedDisplay | src/Components/NumberInput/NumberInput.tsx:143-149 | A digit run shown as prefix, space and its format cleans back to that run |
| Masking.CleanOfOwnDisplay | src/Components/NumberInput/NumberInput.tsx:143-149 | The text the field displays for a formatted digit run cleans back to that run, unless the run is formatted as "0" |
| Masking.ReEditDisplayIsStable | src/Components/NumberInput/NumberInput.tsx:102-149 | A change event carrying the displayed text, with no key recorded, reproduces the current (non-reset, non-"0") value exactly |
| Masking.DisplayThenTyped | src/Components/NumberInput/NumberInput.tsx:143-149 | A non-bare display followed by a typed character is the prefix, a space, the formatted text and that character |
| Masking.CleanOfTypedDigit | src/Components/NumberInput/NumberInput.tsx:104-109 | A digit typed at the end of a non-bare display cleans to the run followed by that digit |
| Masking.TypingAppendsDigit | src/Components/NumberInput/NumberInput.tsx:102-133 | From any consistent state, typing a digit at the end appends it to the digit run. The run restarts when the field shows only the prefix |
| Masking.NonDigitEditRejected | src/Components/NumberInput/NumberInput.tsx:109-111 | An edit that cleans to something with a non-digit is rejected, whatever the state and the key |
| Masking.PastedLettersStay | src/Components/NumberInput/NumberInput.tsx:109-111 | Letters pasted after the bare prefix survive cleaning, so the `\D` test finds them |
| Masking.PasteLettersRejected | src/Components/NumberInput/NumberInput.tsx:109-111 | Pasting letters into the empty field is rejected |
| Masking.CleanOfUnhyphenatedUS | src/Components/NumberInput/NumberInput.tsx:104-109 | A US display "+1 (aaa) rest" in which the hyphen has been deleted cleans to the digits a followed by rest |
| Masking.HyphenAtNine | src/Components/NumberInput/NumberInput.tsx:13 | In a US layout whose first two groups are full, the hyphen is at offset 9 of the formatted text |
| Masking.DropNinthDigit | src/Components/NumberInput/NumberInput.tsx:123-125 | Removing offset 8 of ten digits drops the third digit of the last group |
| Masking.HyphenBackspaceEdit | src/Components/NumberInput/NumberInput.tsx:113-126 | Backspace after the hyphen of a full US number, with `selectionStart` at 12, fires the rule on the hyphen and drops the third digit of the last group |
| Masking.BackspaceOverHyphenUS | src/Components/NumberInput/NumberInput.tsx:102-138 | For every full US number "(aaa) bbb-dddd", deleting the hyphen with Backspace is accepted. The new value is the format of the digits without the third digit of the last group, and the cursor is restored |
| NumberInputComponent.NumberInput.constructor | src/Components/NumberInput/NumberInput.tsx:50-56 | After mounting, and once the effect has run: the given country, value `{raw: 0, formatted: ""}`, no deletion key recorded, and the invariant holds |
| NumberInputComponent.NumberInput.KeyDown | src/Components/NumberInput/NumberInput.tsx:164-170 | Records Delete or Backspace as the deletion key and clears it for any other key. Country and value are unchanged, and the invariant is kept |
| NumberInputComponent.NumberInput.Format | src/Components/NumberInput/NumberInput.tsx:102-138 | A rejected edit leaves the value unchanged and requests no cursor restore. An accepted edit stores exactly the value `OnChange` computes and returns its cursor flag. Country and deletion key are unchanged, and the invariant is kept |
| NumberInputComponent.NumberInput.SelectCountry | src/Components/NumberInput/NumberInput.tsx:50-56 | Selects the country. A different country resets the value to `{raw: 0, formatted: ""}`, and the same country leaves it as it is. The deletion key is unchanged, and the invariant is kept |
| NumberInputComponent.NumberInput.Blur | src/Components/NumberInput/NumberInput.tsx:58-63 | Emits the current value, both `formatted` and `raw`, unchanged |

## Left out

- React rendering, refs, `focus()` and CSS are not modelled. The state is plain fields of the class, and the hooks become its methods.
- `restoreCursorPosition` (lines 89-100) schedules a timer and writes the DOM selection, and neither is modelled. `OnChange` and `Format` return only whether the restore is requested. The timer itself does nothing for a zero or null `selectionStart`. The flag is true exactly when Delete or Backspace is recorded and `selectionStart` is non-zero, so it marks exactly the calls in which the timer is set.
- `parseFloat` is modelled on digit runs only: `raw` is the exact natural number of the clean digits, and None stands for NaN. Floating-point rounding of very long runs is not modelled.
- The initial state built from the `value` prop (lines 42-48) is not modelled, because the mount effect overwrites it before any event. The constructor takes the country, and the default `"PT"` of the prop is left to the caller.
- The browser's enforcement of `maxLength` on typed text is not modelled. The model states only that displays of valid digit runs fit within `inputMaxLength`.
- Lengths and offsets count Unicode scalar values, not JavaScript's UTF-16 code units. The two agree on everything the component produces.
- The optional `onChange` callback prop is called by `onBlur`. `Blur` returns the value it would receive.
- NumberInputComponent.NumberInput.SelectCountry: the effect runs only when the selected country changes. A select element fires its change event only for a different option, and React skips a state update to the same value. So selecting the current country leaves the value as it is, rather than resetting it.
- NumberInputComponent.NumberInput.Format, SelectCountry and KeyDown state invariant preservation as `old(Valid()) ==> Valid()` rather than requiring `Valid()`, because the source places no precondition on its handlers.
- `src/Components/CountrySelect/CountrySelect.tsx` is not part of this model, apart from its closed set of codes `"US" | "PT"`, which becomes the datatype `CountryCode`.
- `src/App.tsx` is not part of this model: it is an application shell with no logic.
- `src/Components/NumberInput/types.ts` contributes only `InputType`, as the datatype `InputValue`. It has no behaviour.
- General regular expressions are not modelled. Only the two fixed digit patterns, their templates and literal prefix removal are.
