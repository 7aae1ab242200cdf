/**
 * The character classes and literal rewrites that NumberInput.tsx performs with
 * regular expressions: `\d`, `\D`, `\s`, the formatting-character class and the
 * global removal of the dialing prefix.
 */
module Text {

  /** `\d` of a JavaScript regular expression: the ASCII digits only. */
  predicate IsDigit(ch: char) {
    '0' <= ch <= '9'
  }

  /** `\s` of a JavaScript regular expression: ECMAScript WhiteSpace and LineTerminator. */
  predicate IsWhitespace(ch: char) {
    ch == '\t' || ch == '\n' || ch == '\U{000B}' || ch == '\U{000C}' || ch == '\r' || ch == ' '
    || ch == '\U{00A0}' || ch == '\U{1680}' || ('\U{2000}' <= ch <= '\U{200A}')
    || ch == '\U{2028}' || ch == '\U{2029}' || ch == '\U{202F}' || ch == '\U{205F}'
    || ch == '\U{3000}' || ch == '\U{FEFF}'
  }

  /** Membership in the class `[(\()(\))(\s)(\-)]`: a parenthesis, a hyphen or whitespace. */
  predicate IsFormattingChar(ch: char)
    ensures IsFormattingChar(ch) ==> !IsDigit(ch) && ch != '+'
  {
    ch == '(' || ch == ')' || ch == '-' || IsWhitespace(ch)
  }

  predicate AllDigits(s: string) {
    forall i :: 0 <= i < |s| ==> IsDigit(s[i])
  }

  lemma AllDigitsConcat(a: string, b: string)
    requires AllDigits(a) && AllDigits(b)
    ensures AllDigits(a + b)
  {
    forall i | 0 <= i < |a + b| ensures IsDigit((a + b)[i]) {
      if i >= |a| { assert (a + b)[i] == b[i - |a|]; }
    }
  }

  /** Digits and formatting characters only, as in every formatted value. */
  predicate DigitsAndSeparators(s: string) {
    forall i :: 0 <= i < |s| ==> IsDigit(s[i]) || IsFormattingChar(s[i])
  }

  lemma PlusAbsent(s: string)
    requires DigitsAndSeparators(s)
    ensures '+' !in s
  {
    forall i | 0 <= i < |s|
      ensures s[i] != '+'
    {
      assert IsDigit(s[i]) || IsFormattingChar(s[i]);
    }
  }

  /** hasUserTypedText: the global search for `\D` finds at least one match. */
  predicate HasNonDigit(s: string)
    ensures HasNonDigit(s) <==> !AllDigits(s)
  {
    exists i :: 0 <= i < |s| && !IsDigit(s[i])
  }

  /** getClearValue: every formatting character removed, everything else kept in order. */
  function Strip(s: string): (r: string)
    ensures |r| <= |s|
  {
    if s == [] then []
    else if IsFormattingChar(s[0]) then Strip(s[1..])
    else [s[0]] + Strip(s[1..])
  }

  /** Nothing of the class survives Strip. */
  lemma {:induction false} StripRemovesFormatting(s: string)
    ensures forall i :: 0 <= i < |Strip(s)| ==> !IsFormattingChar(Strip(s)[i])
  {
    if s != [] {
      StripRemovesFormatting(s[1..]);
    }
  }

  /** Every character outside the class survives Strip as often as it occurs. */
  lemma {:induction false} StripKeepsOthers(s: string, ch: char)
    requires !IsFormattingChar(ch)
    ensures multiset(Strip(s))[ch] == multiset(s)[ch]
  {
    if s != [] {
      assert s == [s[0]] + s[1..];
      StripKeepsOthers(s[1..], ch);
    }
  }

  lemma {:induction false} StripConcat(a: string, b: string)
    ensures Strip(a + b) == Strip(a) + Strip(b)
  {
    if a == [] {
      assert a + b == b;
    } else {
      assert (a + b)[0] == a[0];
      assert (a + b)[1..] == a[1..] + b;
      StripConcat(a[1..], b);
    }
  }

  lemma {:induction false} StripDigits(s: string)
    requires AllDigits(s)
    ensures Strip(s) == s
  {
    if s != [] {
      StripDigits(s[1..]);
    }
  }

  lemma {:induction false} StripKeepsPlain(s: string)
    requires forall i :: 0 <= i < |s| ==> !IsFormattingChar(s[i])
    ensures Strip(s) == s
  {
    if s != [] {
      StripKeepsPlain(s[1..]);
    }
  }

  lemma {:induction false} StripSeparators(s: string)
    requires forall i :: 0 <= i < |s| ==> IsFormattingChar(s[i])
    ensures Strip(s) == []
  {
    if s != [] {
      StripSeparators(s[1..]);
    }
  }

  /** Separators in front change nothing of the stripped text. */
  lemma StripPrependSeparators(sep: string, a: string)
    requires forall i :: 0 <= i < |sep| ==> IsFormattingChar(sep[i])
    ensures Strip(sep + a) == Strip(a)
  {
    StripSeparators(sep);
    StripConcat(sep, a);
  }

  /** Digits in front stay in front of the stripped text. */
  lemma StripPrependDigits(g: string, a: string)
    requires AllDigits(g)
    ensures Strip(g + a) == g + Strip(a)
  {
    StripDigits(g);
    StripConcat(g, a);
  }

  /** Appending digits appends them to the stripped text. */
  lemma StripAppendDigits(a: string, g: string)
    requires AllDigits(g)
    ensures Strip(a + g) == Strip(a) + g
  {
    StripDigits(g);
    StripConcat(a, g);
  }

  /**
   * `s.replace(new RegExp("\\" + p, "g"), "")` for a prefix `p` whose only
   * regular-expression metacharacter is its leading `+`: every occurrence of `p`,
   * found left to right without overlap, is removed.
   */
  function RemoveAll(s: string, p: string): (r: string)
    requires p != []
    ensures |r| <= |s|
    ensures p[0] !in s ==> r == s
    decreases |s|
  {
    if s == [] then []
    else if |p| <= |s| && s[..|p|] == p then RemoveAll(s[|p|..], p)
    else [s[0]] + RemoveAll(s[1..], p)
  }

  /** An occurrence at the front is removed, and the search goes on after it. */
  lemma RemoveAllLeading(p: string, s: string)
    requires p != []
    ensures RemoveAll(p + s, p) == RemoveAll(s, p)
  {
    assert (p + s)[..|p|] == p;
    assert (p + s)[|p|..] == s;
  }

  /** The prefix followed by text that cannot hold it: only the text remains. */
  lemma RemoveAllPrefixed(p: string, t: string)
    requires p != [] && p[0] !in t
    ensures RemoveAll(p + t, p) == t
  {
    RemoveAllLeading(p, t);
  }

  /**
   * An occurrence after text that cannot start one is removed as well: the
   * search is global, not anchored at the front.
   */
  lemma {:induction false} RemoveAllInside(a: string, p: string, b: string)
    requires p != [] && p[0] !in a
    ensures RemoveAll(a + p + b, p) == a + RemoveAll(b, p)
  {
    if a == [] {
      assert a + p + b == p + b;
      RemoveAllLeading(p, b);
    } else {
      var s := a + p + b;
      assert s[1..] == a[1..] + p + b;
      assert RemoveAll(s, p) == [s[0]] + RemoveAll(s[1..], p) by {
        assert s[0] == a[0] && a[0] != p[0];
        assert |p| <= |s| ==> s[..|p|][0] == s[0];
      }
      assert p[0] !in a[1..];
      var rest := RemoveAll(b, p);
      calc {
        RemoveAll(s, p);
        [s[0]] + RemoveAll(a[1..] + p + b, p);
        { RemoveAllInside(a[1..], p, b); }
        [a[0]] + (a[1..] + rest);
        { assert [a[0]] + a[1..] == a; }
        a + rest;
      }
    }
  }

  function Pow10(n: nat): nat {
    if n == 0 then 1 else 10 * Pow10(n - 1)
  }

  /** The value of a run of decimal digits: below 10 to the number of digits. */
  function DigitsValue(s: string): (v: nat)
    requires AllDigits(s)
    ensures v < Pow10(|s|)
  {
    if s == [] then 0 else 10 * DigitsValue(s[..|s| - 1]) + (s[|s| - 1] as int - '0' as int)
  }

  /** Leading zeros do not change the value, as with `parseFloat("0912")`. */
  lemma {:induction false} DigitsValueLeadingZero(s: string)
    requires AllDigits(s)
    ensures AllDigits("0" + s) && DigitsValue("0" + s) == DigitsValue(s)
  {
    var t := "0" + s;
    if s != [] {
      assert t[..|t| - 1] == "0" + s[..|s| - 1];
      assert t[|t| - 1] == s[|s| - 1];
      DigitsValueLeadingZero(s[..|s| - 1]);
    }
  }

  /**
   * Digit runs of the same length have the same value only if they are equal:
   * the value together with the number of digits determines the run.
   */
  lemma {:induction false} DigitsValueInjective(s: string, t: string)
    requires AllDigits(s) && AllDigits(t) && |s| == |t|
    requires DigitsValue(s) == DigitsValue(t)
    ensures s == t
  {
    if s != [] {
      var n := |s| - 1;
      var a, d := DigitsValue(s[..n]), s[n] as int - '0' as int;
      var b, e := DigitsValue(t[..n]), t[n] as int - '0' as int;
      assert 10 * a + d == 10 * b + e;
      assert a == b && d == e;
      DigitsValueInjective(s[..n], t[..n]);
      assert s == s[..n] + [s[n]] && t == t[..n] + [t[n]];
    }
  }
}
