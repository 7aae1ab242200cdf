/**
 * The country table and `applyFormat` of NumberInput.tsx. Each country's
 * validation pattern is an anchored run of three digit groups
 * `^(\d{lo,hi})(\d{lo,hi})(\d{lo,hi})$`; its replacement string is a sequence of
 * literal pieces and `$n` references.
 */
module Formatting {
  import opened Wrappers
  import opened Text

  /** The closed set of codes the country selector offers. */
  datatype CountryCode = US | PT

  /** One capture group `(\d{lo,hi})`. */
  datatype Quantifier = Quantifier(lo: nat, hi: nat)

  /** A piece of a replacement string: literal text, or `$n` for capture group n. */
  datatype Piece = Lit(text: string) | Ref(group: nat)

  datatype Validation = Validation(pattern: seq<Quantifier>, format: seq<Piece>)

  datatype CountryFormat = CountryFormat(prefix: string, validation: Validation, lengthWithFormat: nat)

  /** The replacement string `"($1) $2-$3"`. */
  const UsFormat: seq<Piece> := [Lit("("), Ref(1), Lit(") "), Ref(2), Lit("-"), Ref(3)]

  /** The replacement string `"$1 $2 $3"`. */
  const PtFormat: seq<Piece> := [Ref(1), Lit(" "), Ref(2), Lit(" "), Ref(3)]

  /** CountryConfig. Every dialing prefix starts with '+'. */
  function Config(c: CountryCode): (r: CountryFormat)
    ensures r.prefix != [] && r.prefix[0] == '+'
  {
    match c
    case US =>
      CountryFormat("+1", Validation([Quantifier(2, 3), Quantifier(1, 3), Quantifier(0, 4)], UsFormat), 14)
    case PT =>
      CountryFormat("+351", Validation([Quantifier(2, 3), Quantifier(1, 3), Quantifier(0, 3)], PtFormat), 11)
  }

  function Min(a: int, b: int): int {
    if a <= b then a else b
  }

  function Sum(xs: seq<nat>): nat {
    if xs == [] then 0 else xs[0] + Sum(xs[1..])
  }

  function Concat(xs: seq<string>): string {
    if xs == [] then [] else xs[0] + Concat(xs[1..])
  }

  /** The most digits a pattern can match: the sum of its upper bounds. */
  function PatternMax(pattern: seq<Quantifier>): nat {
    if pattern == [] then 0 else pattern[0].hi + PatternMax(pattern[1..])
  }

  function MaxDigits(c: CountryCode): nat {
    PatternMax(Config(c).validation.pattern)
  }

  /** The number of characters a replacement string adds besides its group references. */
  function LiteralLength(format: seq<Piece>): nat {
    if format == [] then 0
    else (if format[0].Lit? then |format[0].text| else 0) + LiteralLength(format[1..])
  }

  function SeparatorCount(c: CountryCode): nat {
    LiteralLength(Config(c).validation.format)
  }

  /** The numbers of the table, as they follow from its entries. */
  lemma ConfigFacts(c: CountryCode)
    ensures MaxDigits(c) == (match c case US => 10 case PT => 9)
    ensures SeparatorCount(c) == (match c case US => 4 case PT => 2)
    ensures Config(c).lengthWithFormat == MaxDigits(c) + SeparatorCount(c)
  {
  }

  /**
   * Matching a pattern against a run of n digits (anchored at both ends), with
   * the order of a backtracking engine: each group first takes as many digits as
   * it may and gives them back one at a time. The result is the list of group
   * lengths of the first match found.
   */
  function Match(pattern: seq<Quantifier>, n: nat): (r: Option<seq<nat>>)
    ensures r.Some? ==> |r.value| == |pattern| && Sum(r.value) == n
    ensures r.Some? ==> forall i :: 0 <= i < |pattern| ==> pattern[i].lo <= r.value[i] <= pattern[i].hi
    decreases |pattern|, 1, 0
  {
    if pattern == [] then (if n == 0 then Some([]) else None)
    else TryLength(pattern, n, pattern[0].hi)
  }

  /** The first group takes `len` digits, else fewer: the backtracking loop over its length. */
  function TryLength(pattern: seq<Quantifier>, n: nat, len: nat): (r: Option<seq<nat>>)
    requires pattern != [] && len <= pattern[0].hi
    ensures r.Some? ==> |r.value| == |pattern| && Sum(r.value) == n && r.value[0] <= len
    ensures r.Some? ==> forall i :: 0 <= i < |pattern| ==> pattern[i].lo <= r.value[i] <= pattern[i].hi
    decreases |pattern|, 0, len
  {
    if len < pattern[0].lo then None
    else if len <= n && Match(pattern[1..], n - len).Some? then
      var rest := Match(pattern[1..], n - len).value;
      assert ([len] + rest)[1..] == rest;
      assert forall i :: 1 <= i < |pattern| ==> ([len] + rest)[i] == rest[i - 1] && pattern[i] == pattern[1..][i - 1];
      Some([len] + rest)
    else if len == 0 then None
    else TryLength(pattern, n, len - 1)
  }

  /** Cuts a string into consecutive pieces of the given lengths (the capture groups). */
  function Split(s: string, lens: seq<nat>): (r: seq<string>)
    requires Sum(lens) == |s|
    ensures |r| == |lens|
    ensures forall i :: 0 <= i < |r| ==> |r[i]| == lens[i]
    ensures Concat(r) == s
  {
    if lens == [] then []
    else
      var rest := Split(s[lens[0]..], lens[1..]);
      assert ([s[..lens[0]]] + rest)[1..] == rest;
      assert s[..lens[0]] + s[lens[0]..] == s;
      [s[..lens[0]]] + rest
  }

  predicate RefsWithin(format: seq<Piece>, count: nat) {
    forall i :: 0 <= i < |format| && format[i].Ref? ==> 1 <= format[i].group <= count
  }

  /** The text one piece contributes. */
  function PieceText(p: Piece, groups: seq<string>): string
    requires p.Ref? ==> 1 <= p.group <= |groups|
  {
    match p
    case Lit(t) => t
    case Ref(n) => groups[n - 1]
  }

  /** Expands a replacement string: `$n` stands for the n-th group. */
  function Substitute(format: seq<Piece>, groups: seq<string>): string
    requires RefsWithin(format, |groups|)
  {
    if format == [] then [] else PieceText(format[0], groups) + Substitute(format[1..], groups)
  }

  lemma SubstituteCons(p: Piece, rest: seq<Piece>, groups: seq<string>)
    requires RefsWithin([p] + rest, |groups|)
    ensures RefsWithin(rest, |groups|) && (p.Ref? ==> 1 <= p.group <= |groups|)
    ensures Substitute([p] + rest, groups) == PieceText(p, groups) + Substitute(rest, groups)
  {
    assert ([p] + rest)[0] == p;
    assert ([p] + rest)[1..] == rest;
    forall i | 0 <= i < |rest| && rest[i].Ref? ensures 1 <= rest[i].group <= |groups| {
      assert rest[i] == ([p] + rest)[i + 1];
    }
  }

  /** Each pattern has three groups, and its template refers only to `$1` to `$3`. */
  lemma FormatRefsWithin(c: CountryCode)
    ensures |Config(c).validation.pattern| == 3
    ensures RefsWithin(Config(c).validation.format, 3)
  {
  }

  /**
   * applyFormat(s, CountryConfig[c].validation): `s.replace(pattern, format)`.
   * Every character must be taken by some `\d`, so a string with any non-digit
   * never matches; a string that does not match comes back unchanged. Only
   * digit strings of 3 up to the country's maximum length are rewritten.
   */
  function ApplyFormat(c: CountryCode, s: string): (r: string)
    ensures r != s ==> AllDigits(s) && 3 <= |s| <= MaxDigits(c)
  {
    var v := Config(c).validation;
    if !AllDigits(s) then s
    else
      match Match(v.pattern, |s|)
      case None => s
      case Some(lens) =>
        FormatRefsWithin(c);
        MatchClosedForm(c, |s|);
        Substitute(v.format, Split(s, lens))
  }

  // The result the backtracking search reaches, in closed form.

  /** Three digits split 2/1/0; from four on, 3, then up to 3, then the rest. */
  function GreedyLengths(n: nat): seq<nat>
    requires n >= 3
  {
    if n == 3 then [2, 1, 0] else [3, Min(3, n - 3), n - 3 - Min(3, n - 3)]
  }

  /** The replacement string of a country with its three groups filled in. */
  function Layout(c: CountryCode, g1: string, g2: string, g3: string): string {
    match c
    case US => "(" + (g1 + (") " + (g2 + ("-" + g3))))
    case PT => g1 + (" " + (g2 + (" " + g3)))
  }

  lemma {:induction false} TryLast(k: nat, m: nat, len: nat)
    requires len <= k
    ensures TryLength([Quantifier(0, k)], m, len) == if m <= len then Some([m]) else None
    decreases len
  {
    var p := [Quantifier(0, k)];
    assert p[1..] == [];
    if len <= m {
      assert Match([], m - len) == if m - len == 0 then Some([]) else None;
    }
    if len == m {
      assert [len] + [] == [m];
    } else if len > 0 {
      TryLast(k, m, len - 1);
    }
  }

  lemma {:induction false} TryMiddle(lo: nat, hi: nat, k: nat, m: nat, len: nat)
    requires len <= hi
    ensures TryLength([Quantifier(lo, hi), Quantifier(0, k)], m, len)
            == (var b := Min(len, m); if b >= lo && m - b <= k then Some([b, m - b]) else None)
    decreases len
  {
    var p := [Quantifier(lo, hi), Quantifier(0, k)];
    assert p[1..] == [Quantifier(0, k)];
    if len >= lo {
      if len <= m {
        TryLast(k, m - len, k);
        assert Match(p[1..], m - len) == TryLength([Quantifier(0, k)], m - len, k);
        if m - len <= k {
          assert [len] + [m - len] == [len, m - len];
        } else if len > 0 {
          TryMiddle(lo, hi, k, m, len - 1);
        }
      } else if len > 0 {
        TryMiddle(lo, hi, k, m, len - 1);
      }
    }
  }

  /** The first group tried at three digits. */
  lemma TryFirstThree(k: nat, n: nat)
    ensures TryLength([Quantifier(2, 3), Quantifier(1, 3), Quantifier(0, k)], n, 3)
            == if 4 <= n <= 6 + k then Some(GreedyLengths(n))
               else TryLength([Quantifier(2, 3), Quantifier(1, 3), Quantifier(0, k)], n, 2)
  {
    var p := [Quantifier(2, 3), Quantifier(1, 3), Quantifier(0, k)];
    assert p[1..] == [Quantifier(1, 3), Quantifier(0, k)];
    if n >= 3 {
      TryMiddle(1, 3, k, n - 3, 3);
      assert Match(p[1..], n - 3) == TryLength(p[1..], n - 3, 3);
      if 4 <= n <= 6 + k {
        assert [3] + [Min(3, n - 3), n - 3 - Min(3, n - 3)] == GreedyLengths(n);
      }
    }
  }

  /** The first group backtracked to two digits. */
  lemma TryFirstTwo(k: nat, n: nat)
    ensures n == 3 ==> TryLength([Quantifier(2, 3), Quantifier(1, 3), Quantifier(0, k)], n, 2)
                       == Some(GreedyLengths(3))
    ensures !(3 <= n <= 6 + k)
            ==> TryLength([Quantifier(2, 3), Quantifier(1, 3), Quantifier(0, k)], n, 2) == None
  {
    var p := [Quantifier(2, 3), Quantifier(1, 3), Quantifier(0, k)];
    assert p[1..] == [Quantifier(1, 3), Quantifier(0, k)];
    assert TryLength(p, n, 1) == None;
    if n >= 2 {
      TryMiddle(1, 3, k, n - 2, 3);
      assert Match(p[1..], n - 2) == TryLength(p[1..], n - 2, 3);
      if n == 3 {
        assert [2] + [1, 0] == GreedyLengths(3);
      }
    }
  }

  lemma MatchThree(k: nat, n: nat)
    ensures Match([Quantifier(2, 3), Quantifier(1, 3), Quantifier(0, k)], n)
            == if 3 <= n <= 6 + k then Some(GreedyLengths(n)) else None
  {
    var p := [Quantifier(2, 3), Quantifier(1, 3), Quantifier(0, k)];
    assert Match(p, n) == TryLength(p, n, 3);
    TryFirstThree(k, n);
    TryFirstTwo(k, n);
  }


  /** The backtracking search of either country ends where GreedyLengths says, or fails. */
  lemma MatchClosedForm(c: CountryCode, n: nat)
    ensures Match(Config(c).validation.pattern, n)
            == if 3 <= n <= MaxDigits(c) then Some(GreedyLengths(n)) else None
  {
    ConfigFacts(c);
    match c
    case US => MatchThree(4, n);
    case PT => MatchThree(3, n);
  }

  lemma SplitThree(s: string, a: nat, b: nat, d: nat)
    requires a + b + d == |s|
    ensures Sum([a, b, d]) == |s|
    ensures Split(s, [a, b, d]) == [s[..a], s[a..a + b], s[a + b..]]
  {
    assert [a, b, d][1..] == [b, d];
    assert [b, d][1..] == [d];
    assert [d][1..] == [];
    assert Sum([d]) == d;
    assert Sum([b, d]) == b + d;
    assert Sum([a, b, d]) == a + b + d;
    var t := s[a..];
    assert t[..b] == s[a..a + b];
    assert t[b..] == s[a + b..];
    assert t[b..][..d] == s[a + b..];
    assert t[b..][d..] == [];
  }

  lemma SubstituteLayoutUS(g: seq<string>)
    requires |g| == 3
    ensures RefsWithin(UsFormat, |g|)
    ensures Substitute(UsFormat, g) == Layout(US, g[0], g[1], g[2])
  {
    var t5 := [Ref(3)];
    var t4 := [Lit("-")] + t5;
    var t3 := [Ref(2)] + t4;
    var t2 := [Lit(") ")] + t3;
    var t1 := [Ref(1)] + t2;
    assert [Lit("(")] + t1 == UsFormat;
    assert RefsWithin(UsFormat, 3);
    SubstituteCons(Lit("("), t1, g);
    SubstituteCons(Ref(1), t2, g);
    SubstituteCons(Lit(") "), t3, g);
    SubstituteCons(Ref(2), t4, g);
    SubstituteCons(Lit("-"), t5, g);
    assert Substitute(t5, g) == g[2] by {
      assert t5 == [Ref(3)] + [];
      SubstituteCons(Ref(3), [], g);
      assert g[2] + [] == g[2];
    }
  }

  lemma SubstituteLayoutPT(g: seq<string>)
    requires |g| == 3
    ensures RefsWithin(PtFormat, |g|)
    ensures Substitute(PtFormat, g) == Layout(PT, g[0], g[1], g[2])
  {
    var t4 := [Ref(3)];
    var t3 := [Lit(" ")] + t4;
    var t2 := [Ref(2)] + t3;
    var t1 := [Lit(" ")] + t2;
    assert [Ref(1)] + t1 == PtFormat;
    assert RefsWithin(PtFormat, 3);
    SubstituteCons(Ref(1), t1, g);
    SubstituteCons(Lit(" "), t2, g);
    SubstituteCons(Ref(2), t3, g);
    SubstituteCons(Lit(" "), t4, g);
    assert Substitute(t4, g) == g[2] by {
      assert t4 == [Ref(3)] + [];
      SubstituteCons(Ref(3), [], g);
      assert g[2] + [] == g[2];
    }
  }


  /** The three capture groups of the match that GreedyLengths describes. */
  function Groups(s: string): (g: seq<string>)
    requires |s| >= 3
    ensures |g| == 3 && g[0] + g[1] + g[2] == s
    ensures AllDigits(s) ==> AllDigits(g[0]) && AllDigits(g[1]) && AllDigits(g[2])
  {
    var n := GreedyLengths(|s|);
    var a, b := n[0], n[0] + n[1];
    assert s[..a] + s[a..b] + s[b..] == s;
    [s[..a], s[a..b], s[b..]]
  }

  /**
   * What `applyFormat` returns: for 3 to MaxDigits(c) digits, the country's
   * layout around the greedy groups (trailing separators included when the last
   * groups are empty); for anything else, the input itself.
   */
  lemma ApplyFormatShape(c: CountryCode, s: string)
    ensures ApplyFormat(c, s)
            == if AllDigits(s) && 3 <= |s| <= MaxDigits(c) then
                 Layout(c, Groups(s)[0], Groups(s)[1], Groups(s)[2])
               else s
  {
    MatchClosedForm(c, |s|);
    if AllDigits(s) && 3 <= |s| <= MaxDigits(c) {
      var n := GreedyLengths(|s|);
      var g := Groups(s);
      assert Sum(n) == |s| && Split(s, n) == g by {
        SplitThree(s, n[0], n[1], n[2]);
        assert n == [n[0], n[1], n[2]];
      }
      assert RefsWithin(Config(c).validation.format, |g|)
             && Substitute(Config(c).validation.format, g) == Layout(c, g[0], g[1], g[2]) by {
        if c == US { SubstituteLayoutUS(g); } else { SubstituteLayoutPT(g); }
      }
    }
  }

  // Properties of applyFormat.

  lemma StripLayoutUS(g1: string, g2: string, g3: string)
    requires AllDigits(g1) && AllDigits(g2) && AllDigits(g3)
    ensures Strip(Layout(US, g1, g2, g3)) == g1 + g2 + g3
  {
    StripDigits(g3);
    StripPrependSeparators("-", g3);
    StripPrependDigits(g2, "-" + g3);
    StripPrependSeparators(") ", g2 + ("-" + g3));
    StripPrependDigits(g1, ") " + (g2 + ("-" + g3)));
    StripPrependSeparators("(", g1 + (") " + (g2 + ("-" + g3))));
  }

  lemma StripLayoutPT(g1: string, g2: string, g3: string)
    requires AllDigits(g1) && AllDigits(g2) && AllDigits(g3)
    ensures Strip(Layout(PT, g1, g2, g3)) == g1 + g2 + g3
  {
    StripDigits(g3);
    StripPrependSeparators(" ", g3);
    StripPrependDigits(g2, " " + g3);
    StripPrependSeparators(" ", g2 + (" " + g3));
    StripPrependDigits(g1, " " + (g2 + (" " + g3)));
  }

  /**
   * Removing the formatting characters from a formatted digit string gives the
   * digits back: the templates insert only parentheses, spaces and hyphens.
   */
  lemma StripApplyFormat(c: CountryCode, d: string)
    requires AllDigits(d)
    ensures Strip(ApplyFormat(c, d)) == d
  {
    ApplyFormatShape(c, d);
    if 3 <= |d| <= MaxDigits(c) {
      var g := Groups(d);
      if c == US { StripLayoutUS(g[0], g[1], g[2]); } else { StripLayoutPT(g[0], g[1], g[2]); }
    } else {
      StripDigits(d);
    }
  }

  /**
   * `applyFormat` returns its input exactly when the pattern does not match:
   * fewer than 3 characters, more than MaxDigits(c), or a non-digit.
   */
  lemma ApplyFormatIdentity(c: CountryCode, s: string)
    ensures ApplyFormat(c, s) == s <==> !(AllDigits(s) && 3 <= |s| <= MaxDigits(c))
  {
    ApplyFormatShape(c, s);
    if AllDigits(s) && 3 <= |s| <= MaxDigits(c) {
      ApplyFormatLength(c, s);
      ConfigFacts(c);
    }
  }

  /** A match adds exactly the template's literal characters (4 for US, 2 for PT). */
  lemma ApplyFormatLength(c: CountryCode, s: string)
    requires AllDigits(s) && 3 <= |s| <= MaxDigits(c)
    ensures |ApplyFormat(c, s)| == |s| + SeparatorCount(c)
  {
    ApplyFormatShape(c, s);
    ConfigFacts(c);
  }

  /**
   * A full-length number: 10 US digits give `(ddd) ddd-dddd` and 9 PT digits
   * give `ddd ddd ddd`, exactly lengthWithFormat characters.
   */
  lemma FullLengthFormat(c: CountryCode, d: string)
    requires AllDigits(d) && |d| == MaxDigits(c)
    ensures ApplyFormat(c, d) == Layout(c, d[..3], d[3..6], d[6..])
    ensures |ApplyFormat(c, d)| == Config(c).lengthWithFormat
  {
    ConfigFacts(c);
    assert GreedyLengths(|d|) == [3, 3, |d| - 6];
    ApplyFormatShape(c, d);
    ApplyFormatLength(c, d);
  }

  /** No digit string the pattern accepts formats longer than lengthWithFormat. */
  lemma FormattedWithinWidth(c: CountryCode, d: string)
    requires AllDigits(d) && |d| <= MaxDigits(c)
    ensures |ApplyFormat(c, d)| <= Config(c).lengthWithFormat
  {
    ConfigFacts(c);
    ApplyFormatShape(c, d);
    if 3 <= |d| {
      ApplyFormatLength(c, d);
    }
  }

  lemma LayoutCharset(c: CountryCode, g1: string, g2: string, g3: string)
    requires AllDigits(g1) && AllDigits(g2) && AllDigits(g3)
    ensures DigitsAndSeparators(Layout(c, g1, g2, g3))
  {
  }

  /** A formatted digit string holds only digits and formatting characters. */
  lemma FormattedCharset(c: CountryCode, d: string)
    requires AllDigits(d)
    ensures DigitsAndSeparators(ApplyFormat(c, d))
  {
    ApplyFormatShape(c, d);
    if 3 <= |d| <= MaxDigits(c) {
      var g := Groups(d);
      LayoutCharset(c, g[0], g[1], g[2]);
    }
  }

  /** applyFormat of three digit groups whose lengths are the greedy split of their total. */
  lemma ApplyFormatOfGroups(c: CountryCode, g1: string, g2: string, g3: string)
    requires AllDigits(g1) && AllDigits(g2) && AllDigits(g3)
    requires 3 <= |g1| + |g2| + |g3| <= MaxDigits(c)
    requires GreedyLengths(|g1| + |g2| + |g3|) == [|g1|, |g2|, |g3|]
    ensures ApplyFormat(c, g1 + g2 + g3) == Layout(c, g1, g2, g3)
  {
    var s := g1 + g2 + g3;
    assert AllDigits(s) by {
      forall i | 0 <= i < |s| ensures IsDigit(s[i]) {
        if i < |g1| { assert s[i] == g1[i]; }
        else if i < |g1| + |g2| { assert s[i] == g2[i - |g1|]; }
        else { assert s[i] == g3[i - |g1| - |g2|]; }
      }
    }
    assert Groups(s) == [g1, g2, g3] by {
      assert s[..|g1|] == g1;
      assert s[|g1|..|g1| + |g2|] == g2;
      assert s[|g1| + |g2|..] == g3;
    }
    ApplyFormatShape(c, s);
  }

  /** Short input is returned as typed. */
  lemma ExampleTooShort()
    ensures ApplyFormat(PT, "91") == "91"
  {
    ApplyFormatShape(PT, "91");
  }

  /** Three digits split 2/1/0, and the empty third group leaves its separator behind. */
  lemma ExampleThreeDigits()
    ensures ApplyFormat(PT, "912") == "91 2 "
  {
    assert Layout(PT, "91", "2", "") == "91 2 ";
    assert ApplyFormat(PT, "912") == Layout(PT, "91", "2", "") by {
      assert GreedyLengths(3) == [2, 1, 0];
      assert MaxDigits(PT) == 9 by { ConfigFacts(PT); }
      assert "912" == "91" + "2" + "";
      ApplyFormatOfGroups(PT, "91", "2", "");
    }
  }

  lemma ExamplePartialPT()
    ensures ApplyFormat(PT, "9123") == "912 3 "
  {
    assert Layout(PT, "912", "3", "") == "912 3 ";
    assert ApplyFormat(PT, "9123") == Layout(PT, "912", "3", "") by {
      assert GreedyLengths(4) == [3, 1, 0];
      assert MaxDigits(PT) == 9 by { ConfigFacts(PT); }
      assert "9123" == "912" + "3" + "";
      ApplyFormatOfGroups(PT, "912", "3", "");
    }
  }

  lemma ExamplePartialUS()
    ensures ApplyFormat(US, "5551") == "(555) 1-"
  {
    assert Layout(US, "555", "1", "") == "(555) 1-";
    assert ApplyFormat(US, "5551") == Layout(US, "555", "1", "") by {
      assert GreedyLengths(4) == [3, 1, 0];
      assert MaxDigits(US) == 10 by { ConfigFacts(US); }
      assert "5551" == "555" + "1" + "";
      ApplyFormatOfGroups(US, "555", "1", "");
    }
  }

  lemma ExampleFullPT()
    ensures ApplyFormat(PT, "912345678") == "912 345 678"
  {
    assert Layout(PT, "912", "345", "678") == "912 345 678";
    assert ApplyFormat(PT, "912345678") == Layout(PT, "912", "345", "678") by {
      assert GreedyLengths(9) == [3, 3, 3];
      assert MaxDigits(PT) == 9 by { ConfigFacts(PT); }
      assert "912345678" == "912" + "345" + "678";
      ApplyFormatOfGroups(PT, "912", "345", "678");
    }
  }

  lemma ExampleFullUS()
    ensures ApplyFormat(US, "5551234567") == "(555) 123-4567"
  {
    assert Layout(US, "555", "123", "4567") == "(555) 123-4567";
    assert ApplyFormat(US, "5551234567") == Layout(US, "555", "123", "4567") by {
      assert GreedyLengths(10) == [3, 3, 4];
      assert MaxDigits(US) == 10 by { ConfigFacts(US); }
      assert "5551234567" == "555" + "123" + "4567";
      ApplyFormatOfGroups(US, "555", "123", "4567");
    }
  }

  /** One digit too many for the pattern: the input comes back unformatted. */
  lemma ExampleTooLong()
    ensures ApplyFormat(PT, "9123456789") == "9123456789"
  {
    ConfigFacts(PT);
    ApplyFormatShape(PT, "9123456789");
  }

  lemma ExampleNineUS()
    ensures ApplyFormat(US, "555123457") == "(555) 123-457"
  {
    assert Layout(US, "555", "123", "457") == "(555) 123-457";
    assert ApplyFormat(US, "555123457") == Layout(US, "555", "123", "457") by {
      assert GreedyLengths(9) == [3, 3, 3];
      assert MaxDigits(US) == 10 by { ConfigFacts(US); }
      assert "555123457" == "555" + "123" + "457";
      ApplyFormatOfGroups(US, "555", "123", "457");
    }
  }
}
