/**
 * The change handler `format`, `getValue` and `inputMaxLength` of
 * NumberInput.tsx as functions of the component's state and the edit event.
 */
module Masking {
  import opened Wrappers
  import opened Text
  import opened Formatting

  /** InputType of types.ts. `raw` is `parseFloat` of the digit buffer; None stands for NaN. */
  datatype InputValue = InputValue(raw: Option<nat>, formatted: string)

  /** The keys deletingTypeRef records; a `null` marker is None. */
  datatype DeletingType = Delete | Backspace

  /** The value the country effect installs. */
  const ResetValue: InputValue := InputValue(Some(0), "")

  function Prefix(c: CountryCode): string {
    Config(c).prefix
  }

  /** inputMaxLength: the cap on the length of the displayed text, 17 for US and 16 for PT. */
  function InputMaxLength(c: CountryCode): (n: nat)
    ensures n == (match c case US => 17 case PT => 16)
  {
    Config(c).lengthWithFormat + |Prefix(c)| + 1
  }

  /** getValue: the text shown in the field. */
  function Display(c: CountryCode, formatted: string): (r: string)
    ensures |Prefix(c)| <= |r| && r[..|Prefix(c)|] == Prefix(c)
    ensures r == Prefix(c) <==> formatted == "" || formatted == "0"
    ensures r != Prefix(c) ==> r == Prefix(c) + " " + formatted
  {
    if formatted != "" && formatted != "0" then Prefix(c) + " " + formatted else Prefix(c)
  }

  /** `parseFloat` of a run of digits: None (NaN) for the empty run, otherwise a value of at most |clean| digits. */
  function ParseRaw(clean: string): (r: Option<nat>)
    requires AllDigits(clean)
    ensures r.None? <==> clean == ""
    ensures r.Some? ==> r.value < Pow10(|clean|)
  {
    if clean == "" then None else Some(DigitsValue(clean))
  }

  /** `s.charAt(at)`: the one-character string at `at`, or "" outside the string. */
  function CharAt(s: string, at: int): (r: string)
    ensures |r| <= 1 && (|r| == 1 <==> 0 <= at < |s|)
    ensures |r| == 1 ==> r[0] == s[at]
  {
    if 0 <= at < |s| then [s[at]] else ""
  }

  /**
   * isFormattingChar(at) over the previous formatted text: `!at` answers false
   * for offset 0, and otherwise the formatting class is searched in charAt(at).
   */
  function IsFormattingCharAt(formatted: string, at: int): (b: bool)
    ensures b <==> 1 <= at < |formatted| && IsFormattingChar(formatted[at])
  {
    var s := CharAt(formatted, at);
    assert 0 <= at < |formatted| ==> s[0] == formatted[at];
    at != 0 && exists i :: 0 <= i < |s| && IsFormattingChar(s[i])
  }

  /** isUserUsingBackspace() || isUserUsingDelete(): whichever key is recorded is a deletion key. */
  predicate IsDeleting(deleting: Option<DeletingType>)
    ensures IsDeleting(deleting) <==> deleting.Some?
  {
    assert deleting.Some? ==> deleting.value.Delete? || deleting.value.Backspace?;
    deleting == Some(Backspace) || deleting == Some(Delete)
  }

  /** The three-part guard of the adjacent-digit rule, with `selectionStart` as number or null. */
  predicate DeletionFires(c: CountryCode, deleting: Option<DeletingType>, prevFormatted: string, sel: Option<nat>) {
    sel.Some? && sel.value != 0 && IsDeleting(deleting)
    && IsFormattingCharAt(prevFormatted, sel.value - |Prefix(c)| - 1)
  }

  /** `s.slice(0, k) + s.slice(k + 1)` for an offset k that is not negative. */
  function RemoveAt(s: string, k: nat): (r: string)
    ensures |r| == if k < |s| then |s| - 1 else |s|
    ensures forall i :: 0 <= i < |r| ==> r[i] == if i < k then s[i] else s[i + 1]
    ensures AllDigits(s) ==> AllDigits(r)
  {
    if k < |s| then s[..k] + s[k + 1..] else s
  }

  /** The text of the change event with every prefix occurrence and formatting character removed. */
  function CleanCandidate(c: CountryCode, text: string): (r: string)
    ensures |r| <= |text|
  {
    Strip(RemoveAll(text, Prefix(c)))
  }

  /**
   * The adjacent-digit rule: when it fires, the character of the clean value at
   * offset `selectionStart - prefix.length - 2` (display coordinates) is removed.
   */
  function AfterDeletionRule(c: CountryCode, deleting: Option<DeletingType>, prevFormatted: string,
                             clean: string, sel: Option<nat>): (r: string)
    ensures |clean| - 1 <= |r| <= |clean|
    ensures AllDigits(clean) ==> AllDigits(r)
  {
    if DeletionFires(c, deleting, prevFormatted, sel) then RemoveAt(clean, sel.value - |Prefix(c)| - 2)
    else clean
  }

  /** The new value of an accepted edit, from its clean digit run. */
  function FromClean(c: CountryCode, clean: string): (v: InputValue)
    requires AllDigits(clean)
    ensures Strip(v.formatted) == clean && (v.raw.None? <==> clean == "")
  {
    StripApplyFormat(c, clean);
    InputValue(ParseRaw(clean), ApplyFormat(c, clean))
  }

  /**
   * The invariant of the local state: either the reset value, or a formatted
   * text whose digits re-format to it and whose numeric value is `raw`. Such a
   * text holds only digits and formatting characters.
   */
  predicate Consistent(c: CountryCode, v: InputValue)
    ensures Consistent(c, v) ==> DigitsAndSeparators(v.formatted)
  {
    v == ResetValue
    || (AllDigits(Strip(v.formatted))
        && (FormattedCharset(c, Strip(v.formatted)); v.formatted == ApplyFormat(c, Strip(v.formatted)))
        && v.raw == ParseRaw(Strip(v.formatted)))
  }

  /** What the change handler does with one event: reject it, or a new value and whether the cursor is restored. */
  datatype Outcome = Rejected | Accepted(value: InputValue, restoreCursor: bool)

  /**
   * The change handler `format` on the text and selectionStart of the event,
   * the recorded deletion key and the previous formatted text.
   */
  function OnChange(c: CountryCode, deleting: Option<DeletingType>, prevFormatted: string,
                    text: string, sel: Option<nat>): (r: Outcome)
    ensures r.Rejected? <==> HasNonDigit(CleanCandidate(c, text))
    ensures r.Accepted? ==>
              var edited := AfterDeletionRule(c, deleting, prevFormatted, CleanCandidate(c, text), sel);
              AllDigits(edited) && Strip(r.value.formatted) == edited
              && r.value.formatted == ApplyFormat(c, edited)
              && r.value.raw == ParseRaw(edited) && (r.value.raw.None? <==> edited == "")
              && Consistent(c, r.value)
    ensures r.Accepted? ==> (r.restoreCursor <==> IsDeleting(deleting) && sel.Some? && sel.value != 0)
  {
    var clean := CleanCandidate(c, text);
    if HasNonDigit(clean) then Rejected
    else
      var edited := AfterDeletionRule(c, deleting, prevFormatted, clean, sel);
      Accepted(FromClean(c, edited), IsDeleting(deleting) && sel.Some? && sel.value != 0)
  }

  // Properties of the adjacent-digit rule.

  /**
   * The rule removes at most one character, the one at offset
   * `selectionStart - prefix.length - 2`, and keeps the rest in order; it
   * fires only for a recorded deletion key, a non-zero selectionStart and a
   * formatting character at a positive offset of the previous formatted text.
   */
  lemma AdjacentDigitRule(c: CountryCode, deleting: Option<DeletingType>, prevFormatted: string,
                          clean: string, sel: Option<nat>)
    ensures DeletionFires(c, deleting, prevFormatted, sel) <==>
              IsDeleting(deleting) && sel.Some? && sel.value != 0
              && 1 <= sel.value - |Prefix(c)| - 1 < |prevFormatted|
              && IsFormattingChar(prevFormatted[sel.value - |Prefix(c)| - 1])
    ensures !DeletionFires(c, deleting, prevFormatted, sel) ==>
              AfterDeletionRule(c, deleting, prevFormatted, clean, sel) == clean
    ensures DeletionFires(c, deleting, prevFormatted, sel) ==>
              var k := sel.value - |Prefix(c)| - 2;
              var r := AfterDeletionRule(c, deleting, prevFormatted, clean, sel);
              k >= 0 && (k >= |clean| ==> r == clean)
              && (k < |clean| ==> r == clean[..k] + clean[k + 1..])
  {
  }

  // Properties of the display text.

  /**
   * A full-length number fills the field exactly: its display text is
   * inputMaxLength characters long; no shorter digit run displays longer.
   */
  lemma DisplayWithinMaxLength(c: CountryCode, d: string)
    requires AllDigits(d) && |d| <= MaxDigits(c)
    ensures |Display(c, ApplyFormat(c, d))| <= InputMaxLength(c)
    ensures |d| == MaxDigits(c) ==> |Display(c, ApplyFormat(c, d))| == InputMaxLength(c)
  {
    FormattedWithinWidth(c, d);
    if |d| == MaxDigits(c) {
      FullLengthFormat(c, d);
      ConfigFacts(c);
      assert ApplyFormat(c, d) != "" && ApplyFormat(c, d) != "0";
    }
  }

  /** The prefix is never found inside a formatted digit run: it starts with '+'. */
  lemma PrefixAbsentFromFormatted(c: CountryCode, d: string, tail: string)
    requires AllDigits(d) && AllDigits(tail)
    ensures Prefix(c)[0] !in " " + ApplyFormat(c, d) + tail
  {
    ConfigFacts(c);
    FormattedCharset(c, d);
    var t := " " + ApplyFormat(c, d) + tail;
    assert DigitsAndSeparators(t);
    PlusAbsent(t);
  }

  /** Text after a leading prefix contains no '+': only that one prefix is removed. */
  lemma CleanOfPrefixed(c: CountryCode, t: string)
    requires '+' !in t
    ensures CleanCandidate(c, Prefix(c) + t) == Strip(t)
  {
    ConfigFacts(c);
    RemoveAllPrefixed(Prefix(c), t);
  }

  /** The prefix search is global: a repeated prefix in front is removed as a whole. */
  lemma RepeatedPrefixRemoved(c: CountryCode, t: string)
    ensures CleanCandidate(c, Prefix(c) + (Prefix(c) + t)) == CleanCandidate(c, t)
  {
    ConfigFacts(c);
    RemoveAllLeading(Prefix(c), Prefix(c) + t);
    RemoveAllLeading(Prefix(c), t);
  }

  /**
   * A prefix in the middle of the edit text is removed as well: the text before
   * it is cleaned as it is, and the search goes on after it.
   */
  lemma PrefixInsideRemoved(c: CountryCode, a: string, b: string)
    requires '+' !in a
    ensures CleanCandidate(c, a + Prefix(c) + b) == Strip(a) + CleanCandidate(c, b)
  {
    RemoveAllInside(a, Prefix(c), b);
    StripConcat(a, RemoveAll(b, Prefix(c)));
  }

  /** The edit text "prefix + tail" for a digit tail leaves the tail as clean candidate. */
  lemma CleanOfBarePrefix(c: CountryCode, tail: string)
    requires AllDigits(tail)
    ensures CleanCandidate(c, Prefix(c) + tail) == tail
  {
    ConfigFacts(c);
    assert Prefix(c)[0] !in tail by {
      assert !IsDigit(Prefix(c)[0]);
    }
    RemoveAllPrefixed(Prefix(c), tail);
    StripDigits(tail);
  }

  /** The displayed text of a formatted digit run, followed by digits, cleans to the run and those digits. */
  lemma CleanOfDisplayed(c: CountryCode, d: string, tail: string)
    requires AllDigits(d) && AllDigits(tail)
    ensures CleanCandidate(c, Prefix(c) + (" " + ApplyFormat(c, d) + tail)) == d + tail
  {
    var f := ApplyFormat(c, d);
    PrefixAbsentFromFormatted(c, d, tail);
    ConfigFacts(c);
    RemoveAllPrefixed(Prefix(c), " " + f + tail);
    StripSeparators(" ");
    StripConcat(" ", f);
    StripApplyFormat(c, d);
    StripAppendDigits(" " + f, tail);
  }

  /** An edit whose clean candidate is all digits is accepted, with the deletion rule applied. */
  lemma OnChangeOfDigits(c: CountryCode, deleting: Option<DeletingType>, prevFormatted: string,
                         text: string, sel: Option<nat>)
    requires AllDigits(CleanCandidate(c, text))
    ensures AllDigits(AfterDeletionRule(c, deleting, prevFormatted, CleanCandidate(c, text), sel))
    ensures OnChange(c, deleting, prevFormatted, text, sel)
            == Accepted(FromClean(c, AfterDeletionRule(c, deleting, prevFormatted, CleanCandidate(c, text), sel)),
                        IsDeleting(deleting) && sel.Some? && sel.value != 0)
  {
  }

  /** Without a recorded deletion key, an edit whose clean candidate is all digits is taken as it is. */
  lemma OnChangeWithoutKey(c: CountryCode, prevFormatted: string, text: string, sel: Option<nat>)
    requires AllDigits(CleanCandidate(c, text))
    ensures OnChange(c, None, prevFormatted, text, sel) == Accepted(FromClean(c, CleanCandidate(c, text)), false)
  {
  }

  /** A digit run that formats to "" is empty, and the bare prefix it displays cleans to it. */
  lemma CleanOfEmptyDisplay(c: CountryCode, d: string)
    requires AllDigits(d) && ApplyFormat(c, d) == ""
    ensures CleanCandidate(c, Display(c, ApplyFormat(c, d))) == d
  {
    assert d == "" by { ApplyFormatIdentity(c, d); }
    assert Display(c, "") == Prefix(c) + "";
    CleanOfBarePrefix(c, "");
  }

  /** A digit run displayed after the prefix and a space cleans back to that run. */
  lemma CleanOfSpacedDisplay(c: CountryCode, d: string)
    requires AllDigits(d) && ApplyFormat(c, d) != "" && ApplyFormat(c, d) != "0"
    ensures CleanCandidate(c, Display(c, ApplyFormat(c, d))) == d
  {
    var f := ApplyFormat(c, d);
    assert Display(c, f) == Prefix(c) + (" " + f + "") by {
      assert " " + f + "" == " " + f;
    }
    assert AllDigits("");
    CleanOfDisplayed(c, d, "");
  }

  /** The clean candidate of the text the field displays for a formatted digit run is that run. */
  lemma CleanOfOwnDisplay(c: CountryCode, d: string)
    requires AllDigits(d)
    ensures ApplyFormat(c, d) != "0" ==> CleanCandidate(c, Display(c, ApplyFormat(c, d))) == d
  {
    if ApplyFormat(c, d) == "" {
      CleanOfEmptyDisplay(c, d);
    } else if ApplyFormat(c, d) != "0" {
      CleanOfSpacedDisplay(c, d);
    }
  }

  /**
   * The change handler run on the text the field displays (no key recorded)
   * reproduces the value it came from; a formatted "0", displayed as the bare
   * prefix, is the exception.
   */
  lemma ReEditDisplayIsStable(c: CountryCode, v: InputValue, sel: Option<nat>)
    requires Consistent(c, v) && v != ResetValue && v.formatted != "0"
    ensures OnChange(c, None, v.formatted, Display(c, v.formatted), sel) == Accepted(v, false)
  {
    var d := Strip(v.formatted);
    CleanOfOwnDisplay(c, d);
    OnChangeWithoutKey(c, v.formatted, Display(c, v.formatted), sel);
  }

  lemma DisplayThenTyped(c: CountryCode, f: string, ch: char)
    requires f != "" && f != "0"
    ensures Display(c, f) + [ch] == Prefix(c) + (" " + f + [ch])
  {
    assert Display(c, f) == Prefix(c) + " " + f;
  }

  /** The displayed text of a non-empty formatted run with one more digit typed at its end. */
  lemma CleanOfTypedDigit(c: CountryCode, d: string, ch: char)
    requires AllDigits(d) && IsDigit(ch)
    ensures var f := ApplyFormat(c, d);
            f != "" && f != "0" ==> CleanCandidate(c, Display(c, f) + [ch]) == d + [ch]
  {
    var f := ApplyFormat(c, d);
    if f != "" && f != "0" {
      DisplayThenTyped(c, f, ch);
      assert AllDigits([ch]);
      CleanOfDisplayed(c, d, [ch]);
    }
  }


  /**
   * Typing a digit at the end of the field appends it to the digit run; when
   * the field shows only the prefix (formatted "" or "0"), the run starts over.
   */
  lemma TypingAppendsDigit(c: CountryCode, v: InputValue, ch: char, sel: Option<nat>)
    requires Consistent(c, v) && IsDigit(ch)
    ensures var kept := if v.formatted == "" || v.formatted == "0" then "" else Strip(v.formatted);
            AllDigits(kept + [ch])
            && OnChange(c, None, v.formatted, Display(c, v.formatted) + [ch], sel)
               == Accepted(FromClean(c, kept + [ch]), false)
  {
    var f := v.formatted;
    var kept := if f == "" || f == "0" then "" else Strip(f);
    assert AllDigits(kept + [ch]) && CleanCandidate(c, Display(c, f) + [ch]) == kept + [ch] by {
      if f == "" || f == "0" {
        CleanOfBarePrefix(c, [ch]);
        assert Display(c, f) + [ch] == Prefix(c) + [ch];
        assert kept + [ch] == [ch];
      } else {
        CleanOfTypedDigit(c, kept, ch);
      }
    }
    OnChangeWithoutKey(c, f, Display(c, f) + [ch], sel);
  }

  /** An edit whose clean candidate still holds a non-digit is rejected, whatever the state. */
  lemma NonDigitEditRejected(c: CountryCode, deleting: Option<DeletingType>, prevFormatted: string,
                             text: string, sel: Option<nat>)
    requires HasNonDigit(CleanCandidate(c, text))
    ensures OnChange(c, deleting, prevFormatted, text, sel) == Rejected
  {
  }

  lemma PastedLettersStay(c: CountryCode)
    ensures Display(c, "") + "abc" == Prefix(c) + "abc"
    ensures HasNonDigit(CleanCandidate(c, Prefix(c) + "abc"))
  {
    assert CleanCandidate(c, Prefix(c) + "abc") == "abc" by {
      assert CleanCandidate(c, Prefix(c) + "abc") == Strip("abc") by {
        assert '+' !in "abc";
        CleanOfPrefixed(c, "abc");
      }
      assert Strip("abc") == "abc" by {
        StripKeepsPlain("abc");
      }
    }
    assert HasNonDigit("abc") by {
      assert !IsDigit("abc"[0]);
    }
  }


  /** Pasting letters into the empty field is rejected. */
  lemma PasteLettersRejected(c: CountryCode, deleting: Option<DeletingType>, sel: Option<nat>)
    ensures OnChange(c, deleting, "", Display(c, "") + "abc", sel) == Rejected
  {
    PastedLettersStay(c);
    NonDigitEditRejected(c, deleting, "", Prefix(c) + "abc", sel);
  }

  /** The clean candidate of a US display whose hyphen has been deleted. */
  lemma CleanOfUnhyphenatedUS(a: string, b: string)
    requires AllDigits(a) && AllDigits(b)
    ensures CleanCandidate(US, "+1" + (" (" + (a + (") " + b)))) == a + b
  {
    var rest := " (" + (a + (") " + b));
    assert '+' !in rest by {
      assert DigitsAndSeparators(rest) by {
        assert forall i :: 0 <= i < |rest| ==> IsDigit(rest[i]) || IsFormattingChar(rest[i]) by {
          forall i | 0 <= i < |rest|
            ensures IsDigit(rest[i]) || IsFormattingChar(rest[i])
          {
            if i < 2 {
            } else if i < 2 + |a| {
              assert rest[i] == a[i - 2];
            } else if i < 4 + |a| {
            } else {
              assert rest[i] == b[i - 4 - |a|];
            }
          }
        }
      }
      PlusAbsent(rest);
    }
    RemoveAllPrefixed(Prefix(US), rest);
    StripDigits(b);
    StripPrependSeparators(") ", b);
    StripPrependDigits(a, ") " + b);
    StripPrependSeparators(" (", a + (") " + b));
  }

  /** In a US layout whose first two groups are full, the hyphen sits at offset 9. */
  lemma HyphenAtNine(a: string, b: string, d: string)
    requires |a| == 3 && |b| == 3
    ensures |Layout(US, a, b, d)| == 10 + |d| && Layout(US, a, b, d)[9] == '-'
  {
    var tail := b + ("-" + d);
    assert tail[3] == '-';
    assert (") " + tail)[5] == '-';
    assert (a + (") " + tail))[8] == '-';
  }

  lemma DropNinthDigit(a: string, b: string, d: string)
    requires |a| == 3 && |b| == 3 && |d| == 4
    ensures RemoveAt(a + (b + d), 8) == a + b + d[..2] + d[3..]
  {
    var s := a + (b + d);
    assert s[..8] == a + b + d[..2];
    assert s[9..] == d[3..];
  }

  /** The deletion rule on the clean digits of a full US number, with the cursor right after the hyphen. */
  lemma HyphenBackspaceEdit(a: string, b: string, d: string)
    requires |a| == 3 && |b| == 3 && |d| == 4
    requires AllDigits(a) && AllDigits(b) && AllDigits(d)
    ensures AfterDeletionRule(US, Some(Backspace), ApplyFormat(US, a + b + d), a + (b + d), Some(12))
            == a + b + d[..2] + d[3..]
  {
    var previous := ApplyFormat(US, a + b + d);
    assert previous == Layout(US, a, b, d) by {
      assert GreedyLengths(10) == [3, 3, 4];
      assert MaxDigits(US) == 10 by { ConfigFacts(US); }
      ApplyFormatOfGroups(US, a, b, d);
    }
    HyphenAtNine(a, b, d);
    assert DeletionFires(US, Some(Backspace), previous, Some(12));
    DropNinthDigit(a, b, d);
  }

  /**
   * Backspace right after the hyphen of a full US number "(aaa) bbb-dddd":
   * the rule reads the hyphen at offset 12 - 2 - 1 = 9 of the previous
   * formatted text, but removes the clean digit at offset 8, the third digit
   * of the last group, rather than a digit next to the hyphen.
   */
  lemma BackspaceOverHyphenUS(a: string, b: string, d: string)
    requires |a| == 3 && |b| == 3 && |d| == 4
    requires AllDigits(a) && AllDigits(b) && AllDigits(d)
    ensures AllDigits(a + b + d[..2] + d[3..])
    ensures OnChange(US, Some(Backspace), ApplyFormat(US, a + b + d),
                     "+1" + (" (" + (a + (") " + (b + d)))), Some(12))
            == Accepted(FromClean(US, a + b + d[..2] + d[3..]), true)
  {
    AllDigitsConcat(b, d);
    AllDigitsConcat(a, b + d);
    CleanOfUnhyphenatedUS(a, b + d);
    HyphenBackspaceEdit(a, b, d);
    OnChangeOfDigits(US, Some(Backspace), ApplyFormat(US, a + b + d),
                     "+1" + (" (" + (a + (") " + (b + d)))), Some(12));
  }
}
