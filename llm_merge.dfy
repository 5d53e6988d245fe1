/**
 * The helpers that turn a language-model extraction into corporate-action
 * values, and the conservative merge of such a result into a base action.
 * The model call itself is not part of this module: its parsed result is an
 * input.
 */
module LlmMerge {
  import opened Wrappers
  import opened Text
  import opened CorporateActionModel

  // ---------------------------------------------------------------------
  // Ratio strings
  // ---------------------------------------------------------------------

  /** A non-negative fraction `num / den`. */
  datatype Fraction = Fraction(num: nat, den: nat)

  function Pow10(k: nat): (r: nat)
    ensures r >= 1
  {
    if k == 0 then 1 else 10 * Pow10(k - 1)
  }

  function Gcd(a: nat, b: nat): (g: nat)
    ensures b > 0 ==> g > 0
    decreases b
  {
    if b == 0 then a else Gcd(b, a % b)
  }

  /** The index of the first `c` in `s`, or -1. */
  function IndexOf(s: string, c: char): (r: int)
    ensures -1 <= r < |s|
    ensures r == -1 <==> c !in s
    ensures r != -1 ==> s[r] == c && forall j :: 0 <= j < r ==> s[j] != c
  {
    if s == [] then -1
    else if s[0] == c then 0
    else
      var k := IndexOf(s[1..], c);
      assert s == [s[0]] + s[1..];
      if k == -1 then -1 else k + 1
  }

  /** The index just past the run of digits starting at `i`. */
  function RunEnd(s: string, i: nat): (j: nat)
    requires i <= |s|
    ensures i <= j <= |s|
    ensures forall k :: i <= k < j ==> IsDigit(s[k])
    ensures j == |s| || !IsDigit(s[j])
    decreases |s| - i
  {
    if i < |s| && IsDigit(s[i]) then RunEnd(s, i + 1) else i
  }

  /** The index just past the whitespace starting at `i` (`\s*`). */
  function SkipSpaces(s: string, i: nat): (j: nat)
    requires i <= |s|
    ensures i <= j <= |s|
    ensures forall k :: i <= k < j ==> IsSpace(s[k])
    ensures j == |s| || !IsSpace(s[j])
    decreases |s| - i
  {
    if i < |s| && IsSpace(s[i]) then SkipSpaces(s, i + 1) else i
  }

  /** The whole text is a decimal number: `\d*\.\d+` or `\d+`. */
  predicate PlainNumber(s: string) {
    var p := IndexOf(s, '.');
    if p == -1 then |s| >= 1 && AllDigits(s)
    else p + 1 < |s| && AllDigits(s[..p]) && AllDigits(s[p + 1..])
  }

  /** The digits of a plain number with its decimal point taken out. */
  function NumberDigits(s: string): (r: string)
    requires PlainNumber(s)
    ensures AllDigits(r)
    ensures |r| == if '.' in s then |s| - 1 else |s|
  {
    var p := IndexOf(s, '.');
    if p == -1 then s
    else
      var r := s[..p] + s[p + 1..];
      assert forall i :: 0 <= i < |r| ==> r[i] == if i < p then s[..p][i] else s[p + 1..][i - p];
      r
  }

  /** The exact value of a plain number, in lowest terms. */
  function ExactFraction(s: string): Fraction
    requires PlainNumber(s)
  {
    var p := IndexOf(s, '.');
    var n := DigitsValue(NumberDigits(s));
    var d := if p == -1 then 1 else Pow10(|s| - p - 1);
    var g := Gcd(n, d);
    Fraction(n / g, d / g)
  }

  /**
   * The value limited to denominators of at most 1000: the exact value when
   * its denominator already fits (always so with at most three decimals),
   * otherwise `limit`, which stands for the library's closest approximation.
   */
  function LimitedFraction(s: string, limit: Fraction -> Fraction): Fraction
    requires PlainNumber(s)
  {
    var f := ExactFraction(s);
    if f.den <= 1000 then f else limit(f)
  }

  /** Building a `Ratio`, which rejects a zero term. */
  function MakeRatio(num: int, den: int): (r: Option<Ratio>)
    ensures r.Some? <==> num >= 1 && den >= 1
    ensures r.Some? ==> r.value == Ratio(num, den) && ValidRatio(r.value)
  {
    if num >= 1 && den >= 1 then Some(Ratio(num, den)) else None
  }

  /** The end of group 1 for a match starting at digit `r`: the digit run, plus `.digits` when present. */
  function Group1End(s: string, r: nat): (e: nat)
    requires r < |s|
    ensures r <= e <= |s|
  {
    var j := RunEnd(s, r);
    if j + 1 < |s| && s[j] == '.' && IsDigit(s[j + 1]) then RunEnd(s, j + 1) else j
  }

  /** The first `c` is at `k` when `s[k]` is `c` and no earlier character is. */
  lemma IndexOfIs(s: string, c: char, k: nat)
    requires k < |s| && s[k] == c && forall j :: 0 <= j < k ==> s[j] != c
    ensures IndexOf(s, c) == k
  {
  }

  /** A run of digits is all digits and holds no point. */
  lemma DigitRunShape(s: string, r: nat, j: nat)
    requires r <= j <= |s| && forall k :: r <= k < j ==> IsDigit(s[k])
    ensures AllDigits(s[r..j]) && '.' !in s[r..j]
  {
    assert forall i :: 0 <= i < j - r ==> s[r..j][i] == s[r + i];
  }

  /** Digits, a point, then digits form a plain number. */
  lemma DecimalShape(s: string, r: nat, j: nat, e: nat)
    requires r <= j && j + 1 < e <= |s| && s[j] == '.'
    requires forall k :: r <= k < j ==> IsDigit(s[k])
    requires forall k :: j + 1 <= k < e ==> IsDigit(s[k])
    ensures PlainNumber(s[r..e])
  {
    var num := s[r..e];
    var k := j - r;
    DigitRunShape(s, r, j);
    DigitRunShape(s, j + 1, e);
    assert num[..k] == s[r..j];
    assert num[k + 1..] == s[j + 1..e];
    assert num[k] == '.';
    IndexOfIs(num, '.', k);
  }

  /** Group 1 is a non-empty plain number, and all digits unless it holds a point. */
  lemma GroupShape(s: string, r: nat)
    requires r < |s| && IsDigit(s[r])
    ensures r < Group1End(s, r)
    ensures var num := s[r..Group1End(s, r)];
      && ('.' in num ==> PlainNumber(num))
      && ('.' !in num ==> AllDigits(num))
  {
    var j := RunEnd(s, r);
    if j + 1 < |s| && s[j] == '.' && IsDigit(s[j + 1]) {
      var e := RunEnd(s, j + 1);
      assert Group1End(s, r) == e;
      DecimalShape(s, r, j, e);
    } else {
      assert Group1End(s, r) == j;
      DigitRunShape(s, r, j);
    }
  }

  function DigitAt(s: string, q: nat): (r: Option<nat>)
    ensures r.Some? ==> r.value == q && q < |s| && IsDigit(s[q])
  {
    if q < |s| && IsDigit(s[q]) then Some(q) else None
  }

  /**
   * Where group 2 starts after group 1 ends at `p`: `\s*`, then `-?\s*for\s*-?`,
   * `:` or `/`, then `\s*`, then a digit.
   */
  function SeparatorEnd(s: string, p: nat): (r: Option<nat>)
    requires p <= |s|
    ensures r.Some? ==> p < r.value < |s| && IsDigit(s[r.value])
  {
    var p1 := SkipSpaces(s, p);
    if p1 < |s| && (s[p1] == ':' || s[p1] == '/') then DigitAt(s, SkipSpaces(s, p1 + 1))
    else
      var p2 := if p1 < |s| && s[p1] == '-' then SkipSpaces(s, p1 + 1) else p1;
      if OccursAt(s, "for", p2) then
        var f1 := SkipSpaces(s, p2 + 3);
        DigitAt(s, if f1 < |s| && s[f1] == '-' then SkipSpaces(s, f1 + 1) else f1)
      else None
  }

  /** A match of the ratio pattern: group 1 is `s[start..g1End]`, group 2 the digit run at `g2Start`. */
  datatype RatioMatch = RatioMatch(start: nat, g1End: nat, g2Start: nat)

  predicate GroupedMatch(s: string, m: RatioMatch) {
    && m.start < m.g1End <= m.g2Start < |s|
    && IsDigit(s[m.start]) && IsDigit(s[m.g2Start])
    && m.g1End == Group1End(s, m.start)
  }

  /** The match starting at `r`, if there is one. */
  function MatchAt(s: string, r: nat): (m: Option<RatioMatch>)
    requires r < |s|
    ensures m.Some? ==> m.value.start == r && GroupedMatch(s, m.value)
  {
    if !IsDigit(s[r]) then None
    else
      var e := Group1End(s, r);
      GroupShape(s, r);
      match SeparatorEnd(s, e)
      case None => None
      case Some(q) => Some(RatioMatch(r, e, q))
  }

  /** `re.search`: the match at the leftmost position from `r` where one exists. */
  function SearchFrom(s: string, r: nat): (m: Option<RatioMatch>)
    requires r <= |s|
    ensures m.Some? ==> r <= m.value.start < |s| && MatchAt(s, m.value.start) == m
    ensures m.Some? ==> forall k :: r <= k < m.value.start ==> MatchAt(s, k).None?
    ensures m.None? <==> forall k :: r <= k < |s| ==> MatchAt(s, k).None?
    decreases |s| - r
  {
    if r == |s| then None
    else match MatchAt(s, r)
      case Some(m) => assert m.start == r; Some(m)
      case None =>
        var m := SearchFrom(s, r + 1);
        assert m.None? ==> forall k :: r <= k < |s| ==> MatchAt(s, k).None? by {
          if m.None? {
            forall k | r <= k < |s| ensures MatchAt(s, k).None? {
              if k == r {
                assert MatchAt(s, r).None?;
              }
            }
          }
        }
        m
  }

  /** Group 2: the digit run starting at `q`. */
  function Group2(s: string, q: nat): (d: string)
    requires q <= |s|
    ensures AllDigits(d)
  {
    var e := RunEnd(s, q);
    assert forall k :: 0 <= k < e - q ==> s[q..e][k] == s[q + k];
    s[q..e]
  }

  /** The ratio of the two groups: a decimal first group is limited and scales the denominator. */
  function GroupsRatio(num: string, den: string, limit: Fraction -> Fraction): (r: Option<Ratio>)
    requires AllDigits(den)
    requires '.' in num ==> PlainNumber(num)
    requires '.' !in num ==> AllDigits(num)
    ensures r.Some? ==> ValidRatio(r.value)
  {
    var d := DigitsValue(den);
    if '.' in num then
      var f := LimitedFraction(num, limit);
      MakeRatio(f.num, f.den * d)
    else MakeRatio(DigitsValue(num), d)
  }

  /** The ratio a match denotes. */
  function MatchRatio(s: string, m: RatioMatch, limit: Fraction -> Fraction): (r: Option<Ratio>)
    requires GroupedMatch(s, m)
    ensures r.Some? ==> ValidRatio(r.value)
  {
    GroupShape(s, m.start);
    GroupsRatio(s[m.start..m.g1End], Group2(s, m.g2Start), limit)
  }

  /** The ratio of stripped, lower-cased text: a plain number first, then the first pattern match. */
  function RatioOfText(s: string, limit: Fraction -> Fraction): (r: Option<Ratio>)
    ensures r.Some? ==> ValidRatio(r.value)
  {
    var plain := if PlainNumber(s) then var f := LimitedFraction(s, limit); MakeRatio(f.num, f.den) else None;
    if plain.Some? then plain
    else match SearchFrom(s, 0)
      case None => None
      case Some(m) => MatchRatio(s, m, limit)
  }

  /** `_ratio_from_string` */
  function RatioFromString(text: Option<string>, limit: Fraction -> Fraction): (r: Option<Ratio>)
    ensures r.Some? ==> ValidRatio(r.value)
    ensures !Truthy(text) ==> r == None
  {
    if !Truthy(text) then None else RatioOfText(Lower(Strip(text.value)), limit)
  }

  // Worked forms -------------------------------------------------------------

  predicate Digits(a: string) {
    |a| >= 1 && AllDigits(a)
  }

  /** A text with digits at both ends and no upper-case letters is already stripped and lower-case. */
  lemma AlreadyNormal(s: string)
    requires |s| >= 1 && IsDigit(s[0]) && IsDigit(s[|s| - 1])
    requires forall i :: 0 <= i < |s| ==> !IsUpper(s[i])
    ensures Lower(Strip(s)) == s
  {
    WhitespaceIsSpace(s[0]);
    WhitespaceIsSpace(s[|s| - 1]);
    StripCharsEdges(s, Whitespace);
    LowerNoUpper(s);
  }

  lemma RunEndIs(s: string, i: nat, j: nat)
    requires i <= j <= |s|
    requires forall k :: i <= k < j ==> IsDigit(s[k])
    requires j == |s| || !IsDigit(s[j])
    ensures RunEnd(s, i) == j
    decreases j - i
  {
    if i < j {
      RunEndIs(s, i + 1, j);
    }
  }

  lemma ColonSeparator(s: string, p: nat)
    requires p + 1 < |s| && (s[p] == ':' || s[p] == '/') && IsDigit(s[p + 1])
    ensures SeparatorEnd(s, p) == Some(p + 1)
  {
    assert SkipSpaces(s, p) == p;
    assert SkipSpaces(s, p + 1) == p + 1;
  }

  lemma DashForSeparator(s: string, p: nat)
    requires p + 5 < |s| && s[p..p + 5] == "-for-" && IsDigit(s[p + 5])
    ensures SeparatorEnd(s, p) == Some(p + 5)
  {
    assert s[p] == s[p..p + 5][0] == '-';
    assert s[p + 1] == s[p..p + 5][1] == 'f';
    assert s[p + 4] == s[p..p + 5][4] == '-';
    assert s[p + 2] == s[p..p + 5][2] == 'o';
    assert s[p + 3] == s[p..p + 5][3] == 'r';
    assert s[p + 1..p + 4] == "for";
    assert SkipSpaces(s, p) == p;
    assert SkipSpaces(s, p + 1) == p + 1;
    assert SkipSpaces(s, p + 4) == p + 4;
    assert SkipSpaces(s, p + 5) == p + 5;
  }

  lemma SpacedForSeparator(s: string, p: nat)
    requires p + 5 < |s| && s[p..p + 5] == " for " && IsDigit(s[p + 5])
    ensures SeparatorEnd(s, p) == Some(p + 5)
  {
    assert s[p] == s[p..p + 5][0] == ' ';
    assert s[p + 1] == s[p..p + 5][1] == 'f';
    assert s[p + 4] == s[p..p + 5][4] == ' ';
    assert s[p + 2] == s[p..p + 5][2] == 'o';
    assert s[p + 3] == s[p..p + 5][3] == 'r';
    assert s[p + 1..p + 4] == "for";
    assert SkipSpaces(s, p + 1) == p + 1;
    assert SkipSpaces(s, p) == p + 1;
    assert SkipSpaces(s, p + 5) == p + 5;
    assert SkipSpaces(s, p + 4) == p + 5;
  }

  /** A digit run of length `n` at the start, then a separator ending at `q`, is the match at 0. */
  lemma MatchAtStart(s: string, n: nat, q: nat)
    requires 0 < n < |s| && !IsDigit(s[n]) && s[n] != '.'
    requires forall i :: 0 <= i < n ==> IsDigit(s[i])
    requires SeparatorEnd(s, n) == Some(q)
    ensures MatchAt(s, 0) == Some(RatioMatch(0, n, q))
  {
    RunEndIs(s, 0, n);
    assert Group1End(s, 0) == n;
  }

  /** The digit run that closes the text is group 2. */
  lemma Group2AtEnd(s: string, q: nat, b: string)
    requires q <= |s| && s[q..] == b && AllDigits(b)
    ensures Group2(s, q) == b
  {
    RunEndIs(s, q, |s|);
  }

  lemma DashForOf(a: string, b: string)
    requires Digits(a) && Digits(b)
    ensures SeparatorEnd(a + "-for-" + b, |a|) == Some(|a| + 5)
  {
    var s := a + "-for-" + b;
    assert s[|a|..|a| + 5] == "-for-";
    assert s[|a| + 5] == b[0];
    DashForSeparator(s, |a|);
  }

  lemma SpacedForOf(a: string, b: string)
    requires Digits(a) && Digits(b)
    ensures SeparatorEnd(a + " for " + b, |a|) == Some(|a| + 5)
  {
    var s := a + " for " + b;
    assert s[|a|..|a| + 5] == " for ";
    assert s[|a| + 5] == b[0];
    SpacedForSeparator(s, |a|);
  }

  lemma ColonOf(a: string, b: string, sep: string)
    requires Digits(a) && Digits(b) && (sep == ":" || sep == "/")
    ensures SeparatorEnd(a + sep + b, |a|) == Some(|a| + 1)
  {
    var s := a + sep + b;
    assert s[|a|] == sep[0];
    assert s[|a| + 1] == b[0];
    ColonSeparator(s, |a|);
  }

  /** Digits, a separator the pattern accepts, then digits: the match at 0 has `a` and `b` as its groups. */
  lemma MatchOfSeparated(a: string, b: string, sep: string)
    requires Digits(a) && Digits(b) && |sep| >= 1 && !IsDigit(sep[0]) && sep[0] != '.'
    requires SeparatorEnd(a + sep + b, |a|) == Some(|a| + |sep|)
    ensures var s := a + sep + b;
      && MatchAt(s, 0) == Some(RatioMatch(0, |a|, |a| + |sep|))
      && s[0..|a|] == a && Group2(s, |a| + |sep|) == b
  {
    var s := a + sep + b;
    var q := |a| + |sep|;
    assert s[|a|] == sep[0];
    assert forall i :: 0 <= i < |a| ==> s[i] == a[i];
    MatchAtStart(s, |a|, q);
    assert s[q..] == b;
    Group2AtEnd(s, q, b);
    assert s[0..|a|] == a;
  }

  /** On normalised text, the separated forms match at the start with `a` and `b` as the groups. */
  lemma SeparatedMatch(a: string, b: string, sep: string)
    requires Digits(a) && Digits(b)
    requires sep == "-for-" || sep == " for " || sep == ":" || sep == "/"
    ensures var s := a + sep + b;
      && MatchAt(s, 0) == Some(RatioMatch(0, |a|, |a| + |sep|))
      && s[0..|a|] == a && Group2(s, |a| + |sep|) == b
  {
    if sep == "-for-" {
      DashForOf(a, b);
    } else if sep == " for " {
      SpacedForOf(a, b);
    } else {
      ColonOf(a, b, sep);
    }
    MatchOfSeparated(a, b, sep);
  }

  /** On normalised text, "a-for-b", "a for b", "a:b" and "a/b" give Ratio(a, b), unreduced, or nothing for a zero term. */
  lemma SeparatedText(a: string, b: string, sep: string, limit: Fraction -> Fraction)
    requires Digits(a) && Digits(b)
    requires sep == "-for-" || sep == " for " || sep == ":" || sep == "/"
    ensures RatioOfText(a + sep + b, limit) == MakeRatio(DigitsValue(a), DigitsValue(b))
  {
    var s := a + sep + b;
    assert '.' !in s;
    assert s[|a|] == sep[0];
    assert !PlainNumber(s);
    SeparatedMatch(a, b, sep);
    var m := RatioMatch(0, |a|, |a| + |sep|);
    assert SearchFrom(s, 0) == Some(m);
    assert MatchRatio(s, m, limit) == GroupsRatio(a, b, limit);
  }

  /** The separated forms have digits at both ends and no upper-case letter. */
  lemma SeparatedIsNormal(a: string, b: string, sep: string)
    requires Digits(a) && Digits(b)
    requires sep == "-for-" || sep == " for " || sep == ":" || sep == "/"
    ensures var s := a + sep + b; |s| >= 1 && IsDigit(s[0]) && IsDigit(s[|s| - 1])
    ensures var s := a + sep + b; forall i :: 0 <= i < |s| ==> !IsUpper(s[i])
  {
    var s := a + sep + b;
    forall i | 0 <= i < |s|
      ensures !IsUpper(s[i])
    {
      if i < |a| {
        assert s[i] == a[i];
      } else if i < |a| + |sep| {
        assert s[i] == sep[i - |a|];
      } else {
        assert s[i] == b[i - |a| - |sep|];
      }
    }
    assert s[0] == a[0];
    assert s[|s| - 1] == b[|b| - 1];
  }

  /**
   * "a-for-b", "a for b", "a:b" and "a/b" give Ratio(a, b), unreduced; a zero
   * on either side makes the `Ratio` constructor fail, which gives no ratio.
   */
  lemma SeparatedForms(a: string, b: string, sep: string, limit: Fraction -> Fraction)
    requires Digits(a) && Digits(b)
    requires sep == "-for-" || sep == " for " || sep == ":" || sep == "/"
    ensures RatioFromString(Some(a + sep + b), limit) == MakeRatio(DigitsValue(a), DigitsValue(b))
  {
    SeparatedIsNormal(a, b, sep);
    NormalText(a + sep + b, limit);
    SeparatedText(a, b, sep, limit);
  }

  /** A bare positive integer "n" gives Ratio(n, 1). */
  lemma BareInteger(a: string, limit: Fraction -> Fraction)
    requires Digits(a) && DigitsValue(a) >= 1
    ensures RatioFromString(Some(a), limit) == Some(Ratio(DigitsValue(a), 1))
  {
    assert forall i :: 0 <= i < |a| ==> !IsUpper(a[i]);
    NormalText(a, limit);
    assert '.' !in a;
    var n := DigitsValue(a);
    assert Gcd(n, 1) == Gcd(1, 0) == 1;
    assert ExactFraction(a) == Fraction(n / 1, 1 / 1) == Fraction(n, 1);
    assert RatioOfText(a, limit) == MakeRatio(n, 1);
  }

  /** A zero, however many digits it is written with, gives no ratio rather than an error. */
  lemma ZeroRejected(a: string, limit: Fraction -> Fraction)
    requires Digits(a) && forall i :: 0 <= i < |a| ==> a[i] == '0'
    ensures RatioFromString(Some(a), limit) == None
  {
    assert forall i :: 0 <= i < |a| ==> !IsUpper(a[i]);
    NormalText(a, limit);
    assert '.' !in a;
    ZeroDigits(a);
    assert Gcd(0, 1) == Gcd(1, 0) == 1;
    forall k | 0 <= k < |a|
      ensures MatchAt(a, k).None?
    {
      RunEndIs(a, k, |a|);
    }
  }

  /** A point between runs of zeros: a decimal zero such as "0.0" or "00.000". */
  predicate DecimalZero(s: string, p: nat) {
    0 < p && p + 1 < |s| && s[p] == '.' && forall i :: 0 <= i < |s| && i != p ==> s[i] == '0'
  }

  /** A decimal zero gives no ratio either. */
  lemma DecimalZeroRejected(s: string, p: nat, limit: Fraction -> Fraction)
    requires DecimalZero(s, p)
    ensures RatioFromString(Some(s), limit) == None
  {
    DecimalZeroValue(s, p);
    assert forall i :: 0 <= i < |s| ==> !IsUpper(s[i]);
    NormalText(s, limit);
    assert LimitedFraction(s, limit) == Fraction(0, 1);
    DecimalZeroNoMatch(s, p);
    assert SearchFrom(s, 0).None?;
  }

  /** Text that is already stripped and lower-case goes to the ratio parser unchanged. */
  lemma NormalText(s: string, limit: Fraction -> Fraction)
    requires |s| >= 1 && IsDigit(s[0]) && IsDigit(s[|s| - 1])
    requires forall i :: 0 <= i < |s| ==> !IsUpper(s[i])
    ensures RatioFromString(Some(s), limit) == RatioOfText(s, limit)
  {
    AlreadyNormal(s);
  }

  lemma DecimalZeroValue(s: string, p: nat)
    requires DecimalZero(s, p)
    ensures PlainNumber(s) && ExactFraction(s) == Fraction(0, 1)
  {
    IndexOfIs(s, '.', p);
    var digits := NumberDigits(s);
    assert forall i :: 0 <= i < |digits| ==> digits[i] == if i < p then s[..p][i] else s[p + 1..][i - p];
    ZeroDigits(digits);
    var d := Pow10(|s| - p - 1);
    var n := DigitsValue(digits);
    assert n == 0;
    assert Gcd(n, d) == Gcd(d, 0) == d;
    assert n / d == 0 && d / d == 1;
    assert ExactFraction(s) == Fraction(n / d, d / d);
  }

  lemma DecimalZeroNoMatch(s: string, p: nat)
    requires DecimalZero(s, p)
    ensures forall k :: 0 <= k < |s| ==> MatchAt(s, k).None?
  {
    RunEndIs(s, p + 1, |s|);
    assert SkipSpaces(s, |s|) == |s|;
    assert SeparatorEnd(s, |s|).None?;
    forall k | 0 <= k < |s| && k != p
      ensures Group1End(s, k) == |s|
    {
      if k < p {
        RunEndIs(s, k, p);
      } else {
        RunEndIs(s, k, |s|);
      }
    }
  }

  /** "0.5" means one new share for two old ones. */
  lemma HalfIsOneForTwo(limit: Fraction -> Fraction)
    ensures RatioFromString(Some("0.5"), limit) == Some(Ratio(1, 2))
  {
    var s := "0.5";
    assert forall i :: 0 <= i < |s| ==> !IsUpper(s[i]);
    NormalText(s, limit);
    HalfIsExact();
    assert PlainNumber(s);
    assert LimitedFraction(s, limit) == Fraction(1, 2);
    assert RatioOfText(s, limit) == Some(Ratio(1, 2));
  }

  lemma HalfIsExact()
    ensures PlainNumber("0.5") && ExactFraction("0.5") == Fraction(1, 2)
  {
    var s := "0.5";
    IndexOfIs(s, '.', 1);
    assert s[..1] + s[2..] == "05";
    assert DigitsValue("05") == DigitsValue("0") * 10 + 5 == 5;
    assert Pow10(1) == 10;
    assert Gcd(5, 10) == Gcd(10, 5) == Gcd(5, 0) == 5;
  }

  /** Where the words of "a new for b old" sit: `a`, " new for ", `b`, then " old". */
  lemma NewForOldChars(a: string, b: string)
    requires Digits(a) && Digits(b)
    ensures var s := a + " new for " + b + " old"; var e := |a| + 9 + |b|;
      && |s| == e + 4
      && (forall i :: 0 <= i < |a| ==> s[i] == a[i])
      && (forall i :: |a| + 9 <= i < e ==> s[i] == b[i - |a| - 9])
      && s[|a|] == ' ' && s[|a| + 1] == 'n' && s[|a| + 2] == 'e' && s[|a| + 3] == 'w'
      && s[|a| + 4] == ' ' && s[|a| + 5] == 'f' && s[|a| + 6] == 'o' && s[|a| + 7] == 'r' && s[|a| + 8] == ' '
      && s[e] == ' ' && s[e + 1] == 'o' && s[e + 2] == 'l' && s[e + 3] == 'd'
  {
  }

  /** "a new for b old" is already stripped and lower-case, and holds no point. */
  lemma NewForOldIsNormal(a: string, b: string)
    requires Digits(a) && Digits(b)
    ensures var s := a + " new for " + b + " old"; Lower(Strip(s)) == s && '.' !in s && !AllDigits(s)
  {
    var s := a + " new for " + b + " old";
    var e := |a| + 9 + |b|;
    NewForOldChars(a, b);
    forall i | 0 <= i < |s|
      ensures !IsUpper(s[i]) && s[i] != '.'
    {
      if i < |a| {
        assert s[i] == a[i];
      } else if |a| + 9 <= i < e {
        assert s[i] == b[i - |a| - 9];
      }
    }
    WhitespaceIsSpace(s[0]);
    WhitespaceIsSpace(s[|s| - 1]);
    StripCharsEdges(s, Whitespace);
    LowerNoUpper(s);
    assert !IsDigit(s[|a|]);
  }

  /** No position of "a new for b old" starts a match: a word follows each number. */
  lemma NewForOldNoMatch(a: string, b: string)
    requires Digits(a) && Digits(b)
    ensures var s := a + " new for " + b + " old"; forall k :: 0 <= k < |s| ==> MatchAt(s, k).None?
  {
    var s := a + " new for " + b + " old";
    var e := |a| + 9 + |b|;
    NewForOldChars(a, b);
    assert SeparatorEnd(s, |a|).None? by {
      assert SkipSpaces(s, |a| + 1) == |a| + 1;
      assert SkipSpaces(s, |a|) == |a| + 1;
    }
    assert SeparatorEnd(s, e).None? by {
      assert SkipSpaces(s, e + 1) == e + 1;
      assert SkipSpaces(s, e) == e + 1;
    }
    forall k | 0 <= k < |s|
      ensures MatchAt(s, k).None?
    {
      if k < |a| {
        assert forall i :: k <= i < |a| ==> IsDigit(s[i]);
        RunEndIs(s, k, |a|);
        assert Group1End(s, k) == |a|;
      } else if |a| + 9 <= k < e {
        assert forall i :: k <= i < e ==> IsDigit(s[i]);
        RunEndIs(s, k, e);
        assert Group1End(s, k) == e;
      }
    }
  }

  /**
   * "a new for b old", a form the parser's own documentation lists, gives no
   * ratio: the pattern wants the separator right after the first number, and
   * here the word "new" comes between them.
   */
  lemma NewForOldRejected(a: string, b: string, limit: Fraction -> Fraction)
    requires Digits(a) && Digits(b)
    ensures RatioFromString(Some(a + " new for " + b + " old"), limit) == None
  {
    NewForOldIsNormal(a, b);
    NewForOldText(a, b, limit);
  }

  lemma NewForOldText(a: string, b: string, limit: Fraction -> Fraction)
    requires Digits(a) && Digits(b)
    ensures RatioOfText(a + " new for " + b + " old", limit) == None
  {
    var s := a + " new for " + b + " old";
    assert !PlainNumber(s) by {
      NewForOldIsNormal(a, b);
    }
    assert SearchFrom(s, 0).None? by {
      NewForOldNoMatch(a, b);
    }
  }

  /**
   * The separator the documentation describes: as the pattern has it, or
   * after the word "new" (`\s*(?:new\s*)?` before the separator).
   */
  function SeparatorEndWithNew(s: string, p: nat): (r: Option<nat>)
    requires p <= |s|
    ensures r.Some? ==> p < r.value < |s| && IsDigit(s[r.value])
    ensures SeparatorEnd(s, p).Some? ==> r == SeparatorEnd(s, p)
    ensures SeparatorEnd(s, p).None? && r.Some? ==> OccursAt(s, "new", SkipSpaces(s, p))
  {
    var plain := SeparatorEnd(s, p);
    if plain.Some? then plain
    else
      var p1 := SkipSpaces(s, p);
      if OccursAt(s, "new", p1) then SeparatorEnd(s, p1 + 3) else None
  }

  /**
   * With the word "new" allowed, "a new for b old" has `a` and `b` as its
   * groups, so it reads as `a` new shares for `b` old ones.
   */
  lemma NewForOldWithNew(a: string, b: string, limit: Fraction -> Fraction)
    requires Digits(a) && Digits(b)
    ensures var s := a + " new for " + b + " old";
      && Group1End(s, 0) == |a| && s[0..|a|] == a
      && SeparatorEndWithNew(s, |a|) == Some(|a| + 9)
      && Group2(s, |a| + 9) == b
      && GroupsRatio(s[0..|a|], Group2(s, |a| + 9), limit) == MakeRatio(DigitsValue(a), DigitsValue(b))
  {
    var s := a + " new for " + b + " old";
    NewWordSeparator(a, b);
    assert Group1End(s, 0) == |a| && s[0..|a|] == a && Group2(s, |a| + 9) == b by {
      var e := |a| + 9 + |b|;
      NewForOldChars(a, b);
      RunEndIs(s, 0, |a|);
      assert s[0..|a|] == a;
      RunEndIs(s, |a| + 9, e);
      assert s[|a| + 9..e] == b;
    }
    assert '.' !in a;
  }

  lemma NewForSeparator(s: string, p: nat)
    requires p + 9 < |s| && s[p..p + 9] == " new for " && IsDigit(s[p + 9])
    ensures SeparatorEndWithNew(s, p) == Some(p + 9)
  {
    var w := s[p..p + 9];
    assert SkipSpaces(s, p) == p + 1 by {
      assert s[p] == w[0] == ' ' && s[p + 1] == w[1] == 'n';
      assert SkipSpaces(s, p + 1) == p + 1;
    }
    assert SeparatorEnd(s, p).None? by {
      assert s[p + 1] == w[1] == 'n';
    }
    assert OccursAt(s, "new", p + 1) by {
      assert s[p + 1] == w[1] == 'n' && s[p + 2] == w[2] == 'e' && s[p + 3] == w[3] == 'w';
      assert s[p + 1..p + 4] == "new";
    }
    assert s[p + 4..p + 9] == w[4..9] == " for ";
    SpacedForSeparator(s, p + 4);
  }

  /** In "a new for b old", the separator with "new" allowed ends where `b` starts. */
  lemma NewWordSeparator(a: string, b: string)
    requires Digits(a) && Digits(b)
    ensures var s := a + " new for " + b + " old"; SeparatorEndWithNew(s, |a|) == Some(|a| + 9)
  {
    var s := a + " new for " + b + " old";
    assert s[|a|..|a| + 9] == " new for ";
    assert s[|a| + 9] == b[0];
    NewForSeparator(s, |a|);
  }

  // ---------------------------------------------------------------------
  // Money and consideration legs
  // ---------------------------------------------------------------------

  datatype LlmMonetary = LlmMonetary(currency: Option<string>, amount: Option<DecimalText>)

  datatype LlmLeg = LlmLeg(
    legType: Option<string>,
    cashPerShare: Option<LlmMonetary>,
    stockRatio: Option<string>,
    stockSecurityTicker: Option<string>)

  /** `_money_from_llm`: the currency is upper-cased, and anything missing or invalid gives None. */
  function MoneyFromLlm(m: Option<LlmMonetary>): (r: Option<Money>)
    ensures r.Some? <==>
      m.Some? && m.value.amount.Some? && Truthy(m.value.currency) && CurrencyShape(Upper(m.value.currency.value))
    ensures r.Some? ==> ValidMoney(r.value) && r.value.amount == m.value.amount.value
    ensures r.Some? ==> r.value.currency == Upper(m.value.currency.value)
  {
    if m.None? || m.value.amount.None? || !Truthy(m.value.currency) then None
    else
      var c := Upper(m.value.currency.value);
      if CurrencyShape(c) then Some(Money(c, m.value.amount.value)) else None
  }

  /** A valid amount given back in its own terms comes out unchanged. */
  lemma MoneyRoundTrip(money: Money)
    requires ValidMoney(money)
    ensures MoneyFromLlm(Some(LlmMonetary(Some(money.currency), Some(money.amount)))) == Some(money)
  {
    var c := money.currency;
    assert forall i :: 0 <= i < |c| ==> !IsLower(c[i]) by {
      forall i | 0 <= i < |c| ensures !IsLower(c[i]) {
        assert IsUpper(c[i]);
      }
    }
    UpperNoLower(c);
  }

  const LegTypes: set<string> := {CashLeg, StockLeg, RightsLeg, OtherLeg}

  /** What one iteration of the leg loop does. */
  datatype LegStep = Skip | Keep(leg: ConsiderationLeg) | Raise(error: ValidationError)

  /** The leg type, lower-cased and stripped. */
  function LegTypeOf(leg: LlmLeg): string {
    Strip(Lower(leg.legType.GetOr("")))
  }

  /** The security built from the leg's ticker, upper-cased, and its validation. */
  function TickerRef(leg: LlmLeg): Result<SecurityRef, ValidationError>
    requires Truthy(leg.stockSecurityTicker)
  {
    ValidateSecurity(SecurityRef(Some(Upper(leg.stockSecurityTicker.value)), None, None, None))
  }

  /** The ticker is given and its security fails validation. */
  predicate TickerRaises(leg: LlmLeg) {
    Truthy(leg.stockSecurityTicker) && TickerRef(leg).Err?
  }

  /** The leg the loop tries to build: type, cash, ratio and security, before the leg rules. */
  function LegCandidate(leg: LlmLeg, limit: Fraction -> Fraction): ConsiderationLeg {
    ConsiderationLeg(
      LegTypeOf(leg),
      MoneyFromLlm(leg.cashPerShare),
      if Truthy(leg.stockRatio) then RatioFromString(leg.stockRatio, limit) else None,
      if Truthy(leg.stockSecurityTicker) && TickerRef(leg).Ok? then Some(TickerRef(leg).value) else None,
      None)
  }

  /**
   * One leg: unknown types and legs that fail the leg rules are skipped; a
   * ticker that fails the security check raises, since it is built outside
   * the guarded block; otherwise the candidate is kept.
   */
  function ConvertLeg(leg: LlmLeg, limit: Fraction -> Fraction): (r: LegStep)
    ensures r.Keep? ==> LegError(r.leg).None? && r.leg.legType in LegTypes
  {
    if LegTypeOf(leg) !in LegTypes then Skip
    else if TickerRaises(leg) then Raise(TickerRef(leg).error)
    else
      var candidate := LegCandidate(leg, limit);
      if LegError(candidate).None? then Keep(candidate) else Skip
  }

  /**
   * The three outcomes of one leg: it raises exactly when its type is known
   * and its ticker fails the security check; it is kept, as the candidate,
   * exactly when its type is known, nothing raises and the candidate passes
   * the leg rules; otherwise it is skipped.
   */
  lemma ConvertLegOutcome(leg: LlmLeg, limit: Fraction -> Fraction)
    ensures var r := ConvertLeg(leg, limit);
      && (r.Raise? <==> LegTypeOf(leg) in LegTypes && TickerRaises(leg))
      && (r.Raise? ==> r.error == TickerRef(leg).error)
      && (r.Keep? <==> LegTypeOf(leg) in LegTypes && !TickerRaises(leg) && LegError(LegCandidate(leg, limit)).None?)
      && (r.Skip? <==> LegTypeOf(leg) !in LegTypes || (!TickerRaises(leg) && LegError(LegCandidate(leg, limit)).Some?))
      && (r.Keep? ==> r.leg == LegCandidate(leg, limit))
  {
  }

  /** The legs the loop keeps, in order, or the exception of the first leg that raises. */
  function Survivors(legs: seq<LlmLeg>, limit: Fraction -> Fraction): (r: Result<seq<ConsiderationLeg>, ValidationError>)
    ensures r.Ok? ==> |r.value| <= |legs|
  {
    KeptBy(legs, Converter(limit))
  }

  /** `_convert_leg` under a fixed limit, as a function value. */
  function Converter(limit: Fraction -> Fraction): LlmLeg -> LegStep {
    leg => ConvertLeg(leg, limit)
  }

  /** The leg loop with any conversion: the kept legs, in order, or the exception of the first leg that raises. */
  function KeptBy(legs: seq<LlmLeg>, convert: LlmLeg -> LegStep): (r: Result<seq<ConsiderationLeg>, ValidationError>)
    ensures r.Ok? ==> |r.value| <= |legs|
    decreases |legs|
  {
    if legs == [] then Ok([]) else Extend(KeptBy(legs[..|legs| - 1], convert), convert(legs[|legs| - 1]))
  }

  /** The loop over `init + [last]` is the loop over `init`, then one more iteration. */
  lemma KeptByLast(init: seq<LlmLeg>, last: LlmLeg, convert: LlmLeg -> LegStep)
    ensures KeptBy(init + [last], convert) == Extend(KeptBy(init, convert), convert(last))
  {
    assert (init + [last])[..|init|] == init;
  }

  lemma {:induction false} KeptByAppend(a: seq<LlmLeg>, b: seq<LlmLeg>, convert: LlmLeg -> LegStep)
    ensures KeptBy(a + b, convert) == Concat(KeptBy(a, convert), KeptBy(b, convert))
    decreases |b|
  {
    if b == [] {
      assert a + b == a;
      var ra := KeptBy(a, convert);
      if ra.Ok? {
        assert ra.value + [] == ra.value;
      }
    } else {
      var b0 := b[..|b| - 1];
      var last := b[|b| - 1];
      KeptByAppend(a, b0, convert);
      KeptByLast(a + b0, last, convert);
      assert a + b0 + [last] == a + b;
      KeptByLast(b0, last, convert);
      assert b0 + [last] == b;
      ConcatExtend(KeptBy(a, convert), KeptBy(b0, convert), convert(last));
    }
  }

  /** Every leg that survives the loop is valid and of a known type. */
  lemma {:induction false} SurvivorsValid(legs: seq<LlmLeg>, limit: Fraction -> Fraction)
    ensures Survivors(legs, limit).Ok? ==>
      forall i :: 0 <= i < |Survivors(legs, limit).value| ==>
        LegError(Survivors(legs, limit).value[i]).None? && Survivors(legs, limit).value[i].legType in LegTypes
    decreases |legs|
  {
    if legs != [] {
      SurvivorsValid(legs[..|legs| - 1], limit);
    }
  }

  /** One more iteration of the leg loop, after the earlier ones kept `sofar` or raised. */
  function Extend(sofar: Result<seq<ConsiderationLeg>, ValidationError>, step: LegStep): Result<seq<ConsiderationLeg>, ValidationError> {
    match sofar
    case Err(x) => Err(x)
    case Ok(kept) =>
      match step
      case Skip => Ok(kept)
      case Keep(l) => Ok(kept + [l])
      case Raise(x) => Err(x)
  }

  /** The legs of two runs of the loop, one after the other, or the first exception. */
  function Concat(ra: Result<seq<ConsiderationLeg>, ValidationError>, rb: Result<seq<ConsiderationLeg>, ValidationError>)
    : Result<seq<ConsiderationLeg>, ValidationError>
  {
    match ra
    case Err(x) => Err(x)
    case Ok(ka) =>
      match rb
      case Err(y) => Err(y)
      case Ok(kb) => Ok(ka + kb)
  }

  lemma ConcatExtend(ra: Result<seq<ConsiderationLeg>, ValidationError>, rb: Result<seq<ConsiderationLeg>, ValidationError>, step: LegStep)
    ensures Concat(ra, Extend(rb, step)) == Extend(Concat(ra, rb), step)
  {
    if ra.Ok? && rb.Ok? && step.Keep? {
      assert ra.value + rb.value + [step.leg] == ra.value + (rb.value + [step.leg]);
    }
  }

  /** `_consideration_from_llm` as a value: None for no input or when nothing survives. */
  function ConsiderationSpec(legs: Option<seq<LlmLeg>>, limit: Fraction -> Fraction): (r: Result<Option<seq<ConsiderationLeg>>, ValidationError>)
    ensures legs.None? ==> r == Ok(None)
    ensures r.Err? <==> legs.Some? && Survivors(legs.value, limit).Err?
    ensures r == Ok(None) <==> legs.None? || Survivors(legs.value, limit) == Ok([])
    ensures r.Ok? && r.value.Some? ==> Survivors(legs.value, limit) == Ok(r.value.value)
    ensures r.Ok? && r.value.Some? ==> 1 <= |r.value.value| <= |legs.value|
    ensures r.Ok? && r.value.Some? ==>
      forall i :: 0 <= i < |r.value.value| ==> LegError(r.value.value[i]).None? && r.value.value[i].legType in LegTypes
  {
    if legs.None? || legs.value == [] then Ok(None)
    else
      SurvivorsValid(legs.value, limit);
      var kept :- Survivors(legs.value, limit);
      Ok(if kept == [] then None else Some(kept))
  }

  /** Legs whose type is unknown are all dropped. */
  lemma {:induction false} UnknownTypesDropped(legs: seq<LlmLeg>, limit: Fraction -> Fraction)
    requires forall i :: 0 <= i < |legs| ==> LegTypeOf(legs[i]) !in LegTypes
    ensures Survivors(legs, limit) == Ok([])
    decreases |legs|
  {
    if legs != [] {
      UnknownTypesDropped(legs[..|legs| - 1], limit);
    }
  }

  /** When every leg is kept, all of them survive, in their input order. */
  lemma {:induction false} AllKeptSurvive(legs: seq<LlmLeg>, limit: Fraction -> Fraction)
    requires forall i :: 0 <= i < |legs| ==> ConvertLeg(legs[i], limit).Keep?
    ensures Survivors(legs, limit).Ok?
    ensures |Survivors(legs, limit).value| == |legs|
    ensures forall i :: 0 <= i < |legs| ==> Survivors(legs, limit).value[i] == ConvertLeg(legs[i], limit).leg
    decreases |legs|
  {
    if legs != [] {
      var init := legs[..|legs| - 1];
      AllKeptSurvive(init, limit);
      var kept := Survivors(init, limit).value;
      var last := ConvertLeg(legs[|legs| - 1], limit);
      assert Survivors(legs, limit) == Extend(Survivors(init, limit), last);
      var all := kept + [last.leg];
      assert Survivors(legs, limit) == Ok(all);
      forall i | 0 <= i < |legs|
        ensures all[i] == ConvertLeg(legs[i], limit).leg
      {
        if i < |init| {
          assert legs[i] == init[i];
        }
      }
    }
  }

  /**
   * The loop over `a + b` keeps what the loop over `a` keeps, then what the
   * loop over `b` keeps; the first leg that raises ends it.
   */
  lemma SurvivorsAppend(a: seq<LlmLeg>, b: seq<LlmLeg>, limit: Fraction -> Fraction)
    ensures Survivors(a + b, limit) == Concat(Survivors(a, limit), Survivors(b, limit))
  {
    KeptByAppend(a, b, Converter(limit));
  }

  /** A skipped leg leaves no trace: removing it changes nothing. */
  lemma SkippedLegVanishes(a: seq<LlmLeg>, leg: LlmLeg, b: seq<LlmLeg>, limit: Fraction -> Fraction)
    requires ConvertLeg(leg, limit).Skip?
    ensures Survivors(a + [leg] + b, limit) == Survivors(a + b, limit)
  {
    SkippedVanishesBy(a, leg, b, Converter(limit));
  }

  lemma SkippedVanishesBy(a: seq<LlmLeg>, leg: LlmLeg, b: seq<LlmLeg>, convert: LlmLeg -> LegStep)
    requires convert(leg).Skip?
    ensures KeptBy(a + [leg] + b, convert) == KeptBy(a + b, convert)
  {
    KeptByAppend(a + [leg], b, convert);
    KeptByAppend(a, b, convert);
    KeptByLast(a, leg, convert);
    var ra := KeptBy(a, convert);
    if ra.Ok? {
      assert ra.value + [] == ra.value;
    }
  }

  /** `_consideration_from_llm`: no legs give None, and so does a loop that keeps none. */
  method ConsiderationFromLlm(legs: Option<seq<LlmLeg>>, limit: Fraction -> Fraction)
    returns (r: Result<Option<seq<ConsiderationLeg>>, ValidationError>)
    ensures r == ConsiderationSpec(legs, limit)
  {
    if legs.None? || legs.value == [] {
      return Ok(None);
    }
    var kept := LegLoop(legs.value, limit);
    if kept.Err? {
      return Err(kept.error);
    }
    return Ok(if kept.value == [] then None else Some(kept.value));
  }

  /** The loop of `_consideration_from_llm`: convert each leg in turn, until one raises. */
  method LegLoop(items: seq<LlmLeg>, limit: Fraction -> Fraction)
    returns (r: Result<seq<ConsiderationLeg>, ValidationError>)
    ensures r == Survivors(items, limit)
  {
    var result: seq<ConsiderationLeg> := [];
    var i := 0;
    assert items[..i] == [];
    while i < |items|
      invariant 0 <= i <= |items|
      invariant Survivors(items[..i], limit) == Ok(result)
    {
      var step := ConvertLeg(items[i], limit);
      SurvivorsStep(items, i, limit);
      if step.Raise? {
        RaiseEndsLoop(items, i + 1, limit);
        return Err(step.error);
      }
      if step.Keep? {
        result := result + [step.leg];
      }
      i := i + 1;
    }
    assert items[..i] == items;
    return Ok(result);
  }

  lemma SurvivorsStep(legs: seq<LlmLeg>, i: nat, limit: Fraction -> Fraction)
    requires i < |legs|
    ensures Survivors(legs[..i + 1], limit) == Extend(Survivors(legs[..i], limit), ConvertLeg(legs[i], limit))
  {
    assert legs[..i + 1][..i] == legs[..i];
  }

  lemma {:induction false} RaiseEndsLoop(legs: seq<LlmLeg>, k: nat, limit: Fraction -> Fraction)
    requires 0 < k <= |legs| && Survivors(legs[..k], limit).Err?
    ensures Survivors(legs, limit) == Survivors(legs[..k], limit)
    decreases |legs| - k
  {
    if k < |legs| {
      assert legs[..k + 1][..k] == legs[..k];
      RaiseEndsLoop(legs, k + 1, limit);
    } else {
      assert legs[..k] == legs;
    }
  }

  // ---------------------------------------------------------------------
  // JSON block
  // ---------------------------------------------------------------------

  /** The JSON object in already-stripped text: the text itself, or its outermost `{...}` span. */
  function JsonBlockOf(t: string): (r: string)
    ensures StartsWith(t, "{") && EndsWith(t, "}") ==> r == t
    ensures r != t ==> |r| >= 2 && r[0] == '{' && r[|r| - 1] == '}'
    ensures r != t ==> var start := Find(t, "{");
      && 0 <= start && start + |r| <= |t| && r == t[start..start + |r|]
      && start + |r| - 1 == RFindChar(t, '}', |t|)
    ensures !(StartsWith(t, "{") && EndsWith(t, "}")) && 0 <= Find(t, "{") < RFindChar(t, '}', |t|) ==>
      r == t[Find(t, "{")..RFindChar(t, '}', |t|) + 1]
  {
    if StartsWith(t, "{") && EndsWith(t, "}") then t
    else
      var start := Find(t, "{");
      var end := RFindChar(t, '}', |t|);
      if start != -1 && end != -1 && end > start then
        assert t[start..start + 1] == "{";
        assert t[start] == '{';
        t[start..end + 1]
      else t
  }

  /** `_extract_json_block` */
  function ExtractJsonBlock(text: string): string {
    JsonBlockOf(Strip(text))
  }

  /** A braced span is its own stripped form and its own block. */
  lemma BracedFixed(r: string)
    requires |r| >= 2 && r[0] == '{' && r[|r| - 1] == '}'
    ensures Strip(r) == r && JsonBlockOf(r) == r
  {
    StripFixed(r);
    assert r[..1] == "{";
    assert r[|r| - 1..] == "}";
  }

  /** Extracting again from an extracted block returns it unchanged. */
  lemma ExtractJsonBlockIdempotent(text: string)
    ensures ExtractJsonBlock(ExtractJsonBlock(text)) == ExtractJsonBlock(text)
  {
    var t := Strip(text);
    var r := JsonBlockOf(t);
    assert ExtractJsonBlock(text) == r;
    assert ExtractJsonBlock(r) == JsonBlockOf(Strip(r));
    if r == t {
      StripIdempotent(text);
      assert Strip(r) == t;
    } else {
      BracedFixed(r);
    }
  }

  // ---------------------------------------------------------------------
  // The merge
  // ---------------------------------------------------------------------

  /** The parsed model output the merge reads (date estimates are handled elsewhere). */
  datatype LlmResult = LlmResult(
    actionType: Option<string>,
    announceDate: Option<Date>,
    effectiveDate: Option<Date>,
    exDate: Option<Date>,
    recordDate: Option<Date>,
    payDate: Option<Date>,
    ratio: Option<string>,
    cashPerShare: Option<LlmMonetary>,
    consideration: Option<seq<LlmLeg>>,
    notes: Option<string>)

  /** `new or old` for optional dates. */
  function Prefer(given: Option<Date>, fallback: Option<Date>): Option<Date> {
    if given.Some? then given else fallback
  }

  /** The terms copy after the ratio, cash and consideration updates, or the leg exception. */
  function MergedTerms(base: Terms, res: LlmResult, limit: Fraction -> Fraction): (r: Result<Terms, ValidationError>)
    ensures r.Err? <==> ConsiderationSpec(res.consideration, limit).Err?
    ensures r.Ok? ==> r.value.ratio == (if Truthy(res.ratio) && RatioFromString(res.ratio, limit).Some?
      then RatioFromString(res.ratio, limit) else base.ratio)
    ensures r.Ok? ==> r.value.cashPerShare == (if MoneyFromLlm(res.cashPerShare).Some?
      then MoneyFromLlm(res.cashPerShare) else base.cashPerShare)
    ensures r.Ok? ==> r.value.consideration == (if ConsiderationSpec(res.consideration, limit).value.Some?
      then ConsiderationSpec(res.consideration, limit).value else base.consideration)
  {
    var ratio := if Truthy(res.ratio) then RatioFromString(res.ratio, limit) else None;
    var t1 := if ratio.Some? then base.(ratio := ratio) else base;
    var cash := if res.cashPerShare.Some? then MoneyFromLlm(res.cashPerShare) else None;
    var t2 := if cash.Some? then t1.(cashPerShare := cash) else t1;
    var cons :- ConsiderationSpec(res.consideration, limit);
    Ok(if cons.Some? then t2.(consideration := cons) else t2)
  }

  const SpaceOrBar: set<char> := {' ', '|'}

  /** `f"{existing.strip()} | {note}".strip(" |")` */
  function MergeNotes(existing: Option<string>, note: string): string {
    StripChars(Strip(existing.GetOr("")) + " | " + note, SpaceOrBar)
  }

  /**
   * `apply_llm_to_corporate_action`. Copies are made without re-validation;
   * the leg exception returns `base`. Only the dates, the terms, the action
   * type, the notes and the two extraction stamps can change. The action
   * type is tested, as written, against every string in the `ActionType`
   * class dictionary, so `moduleName` and `docString` are the class's
   * `__module__` and `__doc__`.
   */
  function ApplyLlm(base: CorporateAction, res: LlmResult, model: string, limit: Fraction -> Fraction,
                    moduleName: string, docString: string): (r: CorporateAction)
    ensures MergedTerms(base.terms, res, limit).Err? ==> r == base
    ensures r.(announceDate := base.announceDate, effectiveDate := base.effectiveDate, exDate := base.exDate,
               recordDate := base.recordDate, payDate := base.payDate, terms := base.terms,
               actionType := base.actionType, notes := base.notes,
               extractedFieldsVersion := base.extractedFieldsVersion, extractionModel := base.extractionModel) == base
    ensures r.actionType == base.actionType || IsActionTypeAsWritten(r.actionType, moduleName, docString)
  {
    match MergedTerms(base.terms, res, limit)
    case Err(_) => base
    case Ok(terms) => WithNotes(WithType(Stamped(base, res, terms, model), res.actionType, moduleName, docString), res.notes)
  }

  /** The first stage of the merge: the preferred dates, the merged terms and the extraction stamps. */
  function Stamped(base: CorporateAction, res: LlmResult, terms: Terms, model: string): CorporateAction {
    base.(
      announceDate := Prefer(res.announceDate, base.announceDate),
      effectiveDate := Prefer(res.effectiveDate, base.effectiveDate),
      exDate := Prefer(res.exDate, base.exDate),
      recordDate := Prefer(res.recordDate, base.recordDate),
      payDate := Prefer(res.payDate, base.payDate),
      terms := terms,
      extractedFieldsVersion := Some("v1-llm"),
      extractionModel := Some(model))
  }

  /**
   * The action-type stage: a non-blank stripped type found among the class
   * dictionary's strings replaces the current one; nothing else changes.
   */
  function WithType(u: CorporateAction, actionType: Option<string>, moduleName: string, docString: string): (r: CorporateAction)
    ensures r.(actionType := u.actionType) == u
    ensures r.actionType != u.actionType ==>
      r.actionType == Strip(actionType.GetOr("")) && r.actionType != "" && IsActionTypeAsWritten(r.actionType, moduleName, docString)
  {
    var at := Strip(actionType.GetOr(""));
    if at != "" && IsActionTypeAsWritten(at, moduleName, docString) then u.(actionType := at) else u
  }

  /** The notes stage: a non-blank note is joined onto the notes; nothing else changes. */
  function WithNotes(u: CorporateAction, notes: Option<string>): (r: CorporateAction)
    ensures r.(notes := u.notes) == u
  {
    var note := Strip(notes.GetOr(""));
    if note != "" then u.(notes := Some(MergeNotes(u.notes, note))) else u
  }

  /** Without the leg exception, each date takes the model's value when it gives one. */
  lemma MergeDateRule(base: CorporateAction, res: LlmResult, model: string, limit: Fraction -> Fraction,
                      moduleName: string, docString: string)
    requires MergedTerms(base.terms, res, limit).Ok?
    ensures var u := ApplyLlm(base, res, model, limit, moduleName, docString);
      && u.announceDate == (if res.announceDate.Some? then res.announceDate else base.announceDate)
      && u.effectiveDate == (if res.effectiveDate.Some? then res.effectiveDate else base.effectiveDate)
      && u.exDate == (if res.exDate.Some? then res.exDate else base.exDate)
      && u.recordDate == (if res.recordDate.Some? then res.recordDate else base.recordDate)
      && u.payDate == (if res.payDate.Some? then res.payDate else base.payDate)
  {
    var v := Stamped(base, res, MergedTerms(base.terms, res, limit).value, model);
    assert ApplyLlm(base, res, model, limit, moduleName, docString) == WithNotes(WithType(v, res.actionType, moduleName, docString), res.notes);
  }

  /**
   * Without the leg exception, the terms are the merged terms, the action
   * type changes exactly when the model names, once stripped, a non-blank
   * string of the class dictionary, and the result carries the extraction
   * stamps.
   */
  lemma MergeTermsAndTypeRule(base: CorporateAction, res: LlmResult, model: string, limit: Fraction -> Fraction,
                              moduleName: string, docString: string)
    requires MergedTerms(base.terms, res, limit).Ok?
    ensures var u := ApplyLlm(base, res, model, limit, moduleName, docString);
      && u.terms == MergedTerms(base.terms, res, limit).value
      && u.actionType == (var at := Strip(res.actionType.GetOr(""));
           if at != "" && IsActionTypeAsWritten(at, moduleName, docString) then at else base.actionType)
      && u.extractedFieldsVersion == Some("v1-llm") && u.extractionModel == Some(model)
  {
    var v := Stamped(base, res, MergedTerms(base.terms, res, limit).value, model);
    assert ApplyLlm(base, res, model, limit, moduleName, docString) == WithNotes(WithType(v, res.actionType, moduleName, docString), res.notes);
  }

  /**
   * Without the leg exception, a non-blank note, stripped, is joined onto the
   * record's notes; a blank one leaves the notes as they were.
   */
  lemma MergeNotesRule(base: CorporateAction, res: LlmResult, model: string, limit: Fraction -> Fraction,
                       moduleName: string, docString: string)
    requires MergedTerms(base.terms, res, limit).Ok?
    ensures var note := Strip(res.notes.GetOr(""));
      ApplyLlm(base, res, model, limit, moduleName, docString).notes
        == (if note != "" then Some(MergeNotes(base.notes, note)) else base.notes)
  {
    var v := Stamped(base, res, MergedTerms(base.terms, res, limit).value, model);
    var w := WithType(v, res.actionType, moduleName, docString);
    assert w.notes == base.notes;
    assert ApplyLlm(base, res, model, limit, moduleName, docString) == WithNotes(w, res.notes);
  }

  /** Joining onto text that is empty or has no space or bar at its ends. */
  lemma JoinNotes(e: string, note: string)
    requires note != [] && note[0] !in SpaceOrBar && note[|note| - 1] !in SpaceOrBar
    ensures e == "" ==> StripChars(e + " | " + note, SpaceOrBar) == note
    ensures e != "" && e[0] !in SpaceOrBar && e[|e| - 1] !in SpaceOrBar ==>
      StripChars(e + " | " + note, SpaceOrBar) == e + " | " + note
  {
    if e == "" {
      assert e + " | " + note == " | " + note;
      LStripCharsSkips(" | ", note, SpaceOrBar);
      StripCharsEdges(note, SpaceOrBar);
    } else if e[0] !in SpaceOrBar && e[|e| - 1] !in SpaceOrBar {
      var s := e + " | " + note;
      assert s[0] == e[0] && s[|s| - 1] == note[|note| - 1];
      StripCharsEdges(s, SpaceOrBar);
    }
  }

  /**
   * Notes are joined with " | ": a note on empty notes becomes the notes, and
   * otherwise it is appended.
   */
  lemma MergeNotesJoins(existing: Option<string>, note: string)
    requires note != [] && note[0] !in SpaceOrBar && note[|note| - 1] !in SpaceOrBar
    ensures Strip(existing.GetOr("")) == "" ==> MergeNotes(existing, note) == note
    ensures var e := Strip(existing.GetOr(""));
      e != "" && e[0] != '|' && e[|e| - 1] != '|' ==> MergeNotes(existing, note) == e + " | " + note
  {
    StripEnds(existing.GetOr(""));
    JoinNotes(Strip(existing.GetOr("")), note);
  }

  /** A result that only names an action type. */
  function TypeOnly(actionType: string): LlmResult {
    LlmResult(Some(actionType), None, None, None, None, None, None, None, None, None)
  }

  lemma TypeOnlyKeepsTerms(t: Terms, actionType: string, limit: Fraction -> Fraction)
    ensures MergedTerms(t, TypeOnly(actionType), limit) == Ok(t)
  {
  }

  /**
   * As written, the merge can return an aggregate that construction would
   * refuse: a split whose type is switched to a cash dividend keeps no cash.
   */
  lemma MergeCanBreakCoherency(base: CorporateAction, model: string, limit: Fraction -> Fraction,
                               moduleName: string, docString: string)
    requires Constructed(base) && base.actionType == ForwardSplit
    requires base.terms.cashPerShare.None? && base.terms.consideration.None?
    ensures !Constructed(ApplyLlm(base, TypeOnly(CashDividend), model, limit, moduleName, docString))
  {
    StripNoSpace(CashDividend);
    TypeSwitchKeepsTerms(base, CashDividend, model, limit, moduleName, docString);
    var u := ApplyLlm(base, TypeOnly(CashDividend), model, limit, moduleName, docString);
    assert Legs(u.terms) == [];
    assert CoherencyError(u.actionType, u.terms).Some?;
  }

  /** A result naming only an already stripped action type changes at most the type and the stamps. */
  lemma TypeOnlyMerge(base: CorporateAction, t: string, model: string, limit: Fraction -> Fraction,
                      moduleName: string, docString: string)
    requires Strip(t) == t
    ensures ApplyLlm(base, TypeOnly(t), model, limit, moduleName, docString)
      == base.(actionType := if t != "" && IsActionTypeAsWritten(t, moduleName, docString) then t else base.actionType,
               extractedFieldsVersion := Some("v1-llm"), extractionModel := Some(model))
  {
    TypeOnlyKeepsTerms(base.terms, t, limit);
    var v := Stamped(base, TypeOnly(t), base.terms, model);
    assert v == base.(extractedFieldsVersion := Some("v1-llm"), extractionModel := Some(model));
    StripNoSpace("");
    assert ApplyLlm(base, TypeOnly(t), model, limit, moduleName, docString)
      == WithNotes(WithType(v, Some(t), moduleName, docString), None);
  }

  /** A result naming only a known, already stripped action type switches the type and keeps the terms. */
  lemma TypeSwitchKeepsTerms(base: CorporateAction, t: string, model: string, limit: Fraction -> Fraction,
                             moduleName: string, docString: string)
    requires IsActionType(t) && Strip(t) == t
    ensures ApplyLlm(base, TypeOnly(t), model, limit, moduleName, docString).actionType == t
    ensures ApplyLlm(base, TypeOnly(t), model, limit, moduleName, docString).terms == base.terms
  {
    KnownTypesPassAsWritten(t, moduleName, docString);
    TypeOnlyMerge(base, t, model, limit, moduleName, docString);
  }

  /**
   * As written, the class's module name passes the merge's type test: a
   * record of a known type takes the module name as its type.
   */
  lemma ModuleNameSwitchesType(base: CorporateAction, model: string, limit: Fraction -> Fraction, docString: string)
    requires IsActionType(base.actionType)
    ensures var m := ActionTypeModule;
      var u := ApplyLlm(base, TypeOnly(m), model, limit, m, docString);
      u.actionType == m && !IsActionType(u.actionType)
  {
    var m := ActionTypeModule;
    ModuleNameStripped();
    ModuleNamePassesActionTypeCheck(docString);
    TypeOnlyMerge(base, m, model, limit, m, docString);
  }

  /**
   * The merge as its documentation describes it: the merged aggregate is
   * validated, and a validation error falls back to `base`. Validation
   * admits only the thirteen action types.
   */
  function ApplyLlmValidated(base: CorporateAction, res: LlmResult, model: string, limit: Fraction -> Fraction,
                             moduleName: string, docString: string, digest: string -> string): (r: CorporateAction)
    ensures Constructed(base) ==> Constructed(r)
    ensures IsActionType(base.actionType) ==> IsActionType(r.actionType)
    ensures r != base ==> Construct(ApplyLlm(base, res, model, limit, moduleName, docString), digest) == Ok(r)
  {
    match Construct(ApplyLlm(base, res, model, limit, moduleName, docString), digest)
    case Ok(v) => v
    case Err(_) => base
  }
}
