/**
 * `_convert_prices`: three `re.sub` passes over the text, each a left-to-right
 * scan that replaces the leftmost match, continues after it, never overlaps two
 * matches and never rescans what it inserted.
 *
 *   pass 1  a dollar sign, optional white space, then an amount (a digit
 *           followed by digits, white space, `_`, `.` and `,`) becomes the
 *           amount followed by the dollar sign: "$ 400" -> "400$";
 *   pass 2  an amount, optional white space and a dollar sign get the amount
 *           in sums appended: "400$" -> "400$ (4 800 000 UZS)";
 *   pass 3  a number of one to three digits followed by one or more groups
 *           of a space or `_` and three digits, not preceded by a word
 *           character or `$` and not followed (after optional white space)
 *           by "UZS", "usd", "USD", `$` or `(`, gets the amount in sums
 *           appended: "150 000" -> "150 000 (1 800 000 000 UZS)".
 */
module Prices {
  import opened PyText
  import opened Amounts

  /** The first index at or after `j` that does not hold white space (`\s*`). */
  function SkipSpaces(s: string, j: nat): (k: nat)
    requires j <= |s|
    ensures j <= k <= |s| && (k < |s| ==> !IsSpace(s[k]))
    decreases |s| - j
  {
    if j < |s| && IsSpace(s[j]) then SkipSpaces(s, j + 1) else j
  }

  /** Everything `SkipSpaces` steps over is white space. */
  lemma {:induction false} SkipSpacesOverSpaces(s: string, j: nat)
    requires j <= |s|
    ensures forall t :: j <= t < SkipSpaces(s, j) ==> IsSpace(s[t])
    decreases |s| - j
  {
    if j < |s| && IsSpace(s[j]) {
      SkipSpacesOverSpaces(s, j + 1);
    }
  }

  /** The end of the longest run of `[\d\s_.,]` starting at `j`. */
  function AmountRunEnd(s: string, j: nat): (k: nat)
    requires j <= |s|
    ensures j <= k <= |s| && forall t :: j <= t < k ==> IsAmountChar(s[t])
    ensures k < |s| ==> !IsAmountChar(s[k])
    decreases |s| - j
  {
    if j < |s| && IsAmountChar(s[j]) then AmountRunEnd(s, j + 1) else j
  }

  // ---------------------------------------------------------------- pass 1

  /**
   * Where pass 1 matches at `i`, the end of the match. `\s*` cannot give
   * white space back to reach a digit, and nothing follows the amount's
   * greedy class, so the first try at each position is the only one.
   */
  function LeadingMatch(s: string, i: nat): (r: Option<nat>)
    ensures r.Some? ==> i < r.value <= |s| && s[i] == '$'
    ensures r.Some? ==> SkipSpaces(s, i + 1) < r.value && IsDigit(s[SkipSpaces(s, i + 1)])
  {
    if i < |s| && s[i] == '$' then
      var k := SkipSpaces(s, i + 1);
      if k < |s| && IsDigit(s[k]) then Some(AmountRunEnd(s, k + 1)) else None
    else None
  }

  /**
   * Pass 1 matches at `i` exactly where a '$' is followed, after any white
   * space, by a digit ("$400", "$ 400"), and the match takes in every amount
   * character after that digit.
   */
  lemma LeadingMatchExact(s: string, i: nat)
    ensures LeadingMatch(s, i).Some? <==>
      (i < |s| && s[i] == '$' && SkipSpaces(s, i + 1) < |s| && IsDigit(s[SkipSpaces(s, i + 1)]))
    ensures LeadingMatch(s, i).Some? ==> LeadingMatch(s, i).value == AmountRunEnd(s, SkipSpaces(s, i + 1) + 1)
  {
  }

  /**
   * `normalize_leading_dollar` on the matched text `t` ("$", white space,
   * amount): the amount, then the dollar sign. The callback is only ever
   * handed a match, which is never empty.
   */
  function NormalizeLeading(t: string): string {
    if t == [] then t else t[SkipSpaces(t, 1)..] + "$"
  }

  // ---------------------------------------------------------------- pass 2

  /**
   * Where pass 2 matches at `i`, the end of the match (just after the '$').
   * The greedy class swallows any white space before the '$', so `\s*` always
   * matches empty; backtracking cannot reach a '$' the class stopped short of.
   */
  function TrailingMatch(s: string, i: nat): (r: Option<nat>)
    ensures r.Some? ==> i + 2 <= r.value <= |s| && IsDigit(s[i]) && s[r.value - 1] == '$'
    ensures r.Some? ==> forall t :: i <= t < r.value - 1 ==> IsAmountChar(s[t])
  {
    if i < |s| && IsDigit(s[i]) then
      var e := AmountRunEnd(s, i + 1);
      if e < |s| && s[e] == '$' then Some(e + 1) else None
    else None
  }

  /**
   * Pass 2 matches at `i` exactly where a digit starts a run of amount
   * characters that a '$' follows ("400$", "150 000 $"), and the match ends
   * just after that '$'.
   */
  lemma TrailingMatchExact(s: string, i: nat)
    ensures TrailingMatch(s, i).Some? <==>
      (i < |s| && IsDigit(s[i]) && AmountRunEnd(s, i + 1) < |s| && s[AmountRunEnd(s, i + 1)] == '$')
    ensures TrailingMatch(s, i).Some? ==> TrailingMatch(s, i).value == AmountRunEnd(s, i + 1) + 1
  {
  }

  /**
   * What the callbacks of passes 2 and 3 put after the match: " (<N> UZS)",
   * or nothing when the amount does not parse.
   */
  function Annotation(amount: string, rate: real): string
    requires AllAmountChars(amount)
  {
    match AmountToUzs(amount, rate)
    case None => []
    case Some(uzs) => " (" + uzs + " UZS)"
  }

  /** The annotation is left out exactly when `float()` refuses the amount. */
  lemma AnnotationEmpty(amount: string, rate: real)
    requires AllAmountChars(amount)
    ensures Annotation(amount, rate) == [] <==> ParsedAmount(amount).None?
  {
  }

  /**
   * `convert_trailing_dollar` on the matched text `t` (amount and '$'): the
   * match as it stands, followed by the annotation of the amount. Every
   * match passes the test on its characters.
   */
  function ConvertTrailing(rate: real, t: string): string {
    if t != [] && AllAmountChars(t[..|t| - 1]) then t + Annotation(t[..|t| - 1], rate) else t
  }

  // ---------------------------------------------------------------- pass 3

  /** `(?<![\w$])` */
  predicate LookbehindOk(s: string, i: nat)
    requires i <= |s|
  {
    i == 0 || !(IsWord(s[i - 1]) || s[i - 1] == '$')
  }

  predicate StartsWith(s: string, j: nat, w: string) {
    j + |w| <= |s| && s[j..j + |w|] == w
  }

  /** `(?=\s*(?:UZS|usd|USD|\$|\())`: what the negative lookahead refuses. */
  predicate Blocked(s: string, e: nat)
    requires e <= |s|
  {
    var k := SkipSpaces(s, e);
    StartsWith(s, k, "UZS") || StartsWith(s, k, "usd") || StartsWith(s, k, "USD")
    || StartsWith(s, k, "$") || StartsWith(s, k, "(")
  }

  /** The end of the greedy run `(?:[ _]\d{3})*` starting at `j`. */
  function GroupRunEnd(s: string, j: nat): (e: nat)
    requires j <= |s|
    ensures j <= e <= |s| && !IsBlockAt(s, e)
    decreases |s| - j
  {
    if IsBlockAt(s, j) then GroupRunEnd(s, j + 4) else j
  }

  /** The run `GroupRunEnd` stops at is made of whole groups. */
  lemma {:induction false} GroupRunBlocks(s: string, j: nat)
    requires j <= |s|
    ensures Blocks(s[j..GroupRunEnd(s, j)])
    decreases |s| - j
  {
    var e := GroupRunEnd(s, j);
    if IsBlockAt(s, j) {
      GroupRunBlocks(s, j + 4);
      assert s[j..e][4..] == s[j + 4..e];
    } else {
      assert s[j..e] == [];
    }
  }

  lemma {:induction false} BlocksLength(b: string)
    requires Blocks(b)
    ensures |b| % 4 == 0
    decreases |b|
  {
    if b != [] {
      BlocksLength(b[4..]);
    }
  }

  lemma {:induction false} BlocksDropLast(b: string)
    requires Blocks(b) && |b| >= 4
    ensures Blocks(b[..|b| - 4])
    decreases |b|
  {
    BlocksLength(b);
    if |b| > 4 {
      BlocksDropLast(b[4..]);
      assert b[..|b| - 4][4..] == b[4..][..|b[4..]| - 4];
    }
  }

  /**
   * The backtracking of `(?:[ _]\d{3})+` followed by the negative lookahead:
   * from the greedy end `e` give back one group at a time until the lookahead
   * passes, failing when no group is left.
   */
  function TryGroups(s: string, start: nat, e: nat): (r: Option<nat>)
    requires start <= e <= |s|
    ensures r.Some? ==> start + 4 <= r.value <= e
    decreases e
  {
    if e < start + 4 then None
    else if !Blocked(s, e) then Some(e)
    else TryGroups(s, start, e - 4)
  }

  /** Giving back whole groups leaves whole groups, and the end it settles on is not blocked. */
  lemma {:induction false} TryGroupsSound(s: string, start: nat, e: nat)
    requires start <= e <= |s| && Blocks(s[start..e])
    ensures TryGroups(s, start, e).Some? ==>
      Blocks(s[start..TryGroups(s, start, e).value]) && !Blocked(s, TryGroups(s, start, e).value)
    decreases e
  {
    if e >= start + 4 && Blocked(s, e) {
      BlocksDropLast(s[start..e]);
      assert s[start..e][..e - start - 4] == s[start..e - 4];
      TryGroupsSound(s, start, e - 4);
    }
  }

  /** A number written `\d{1,3}(?:[ _]\d{3})+`. */
  predicate IsGroupedNumber(t: string) {
    |t| > 4 && |t| % 4 != 0 && AllDigits(t[..|t| % 4]) && Blocks(t[|t| % 4..])
  }

  lemma GroupedFromParts(s: string, i: nat, h: nat, e: nat)
    requires 1 <= h <= 3 && i + h + 4 <= e <= |s|
    requires AllDigits(s[i..i + h]) && Blocks(s[i + h..e])
    ensures IsGroupedNumber(s[i..e]) && IsDigit(s[i])
  {
    assert s[i] == s[i..i + h][0];
    BlocksLength(s[i + h..e]);
    var t := s[i..e];
    assert |t| % 4 == h;
    assert t[..h] == s[i..i + h] && t[h..] == s[i + h..e];
  }

  /**
   * The backtracking of the head `\d{1,3}`: three digits first, then two,
   * then one; for each, the groups as `TryGroups` gives them back.
   */
  function TryHeads(s: string, i: nat, h: nat): (r: Option<nat>)
    requires i <= |s| && h <= 3
    ensures r.Some? ==> i < r.value <= |s| && IsDigit(s[i])
  {
    if h == 0 then None
    else if i + h <= |s| && AllDigits(s[i..i + h]) then
      var g := TryGroups(s, i + h, GroupRunEnd(s, i + h));
      if g.Some? then
        assert s[i] == s[i..i + h][0];
        g
      else TryHeads(s, i, h - 1)
    else TryHeads(s, i, h - 1)
  }

  /** What `TryHeads` finds is a grouped number whose end the lookahead lets through. */
  lemma {:induction false} TryHeadsSound(s: string, i: nat, h: nat)
    requires i <= |s| && h <= 3
    ensures TryHeads(s, i, h).Some? ==>
      IsGroupedNumber(s[i..TryHeads(s, i, h).value]) && !Blocked(s, TryHeads(s, i, h).value)
  {
    if h > 0 {
      if i + h <= |s| && AllDigits(s[i..i + h]) {
        var run := GroupRunEnd(s, i + h);
        GroupRunBlocks(s, i + h);
        TryGroupsSound(s, i + h, run);
        var g := TryGroups(s, i + h, run);
        if g.Some? {
          GroupedFromParts(s, i, h, g.value);
        } else {
          TryHeadsSound(s, i, h - 1);
        }
      } else {
        TryHeadsSound(s, i, h - 1);
      }
    }
  }

  /** Where pass 3, as written, matches at `i`: the end of the match. */
  function GroupedMatch(s: string, i: nat): (r: Option<nat>)
  {
    if i < |s| && LookbehindOk(s, i) then TryHeads(s, i, 3) else None
  }

  /**
   * A match of pass 3 as written is a grouped number at a digit, with the
   * lookbehind satisfied and the lookahead not blocking its end.
   */
  lemma GroupedMatchSound(s: string, i: nat, e: nat)
    requires GroupedMatch(s, i) == Some(e)
    ensures i < e <= |s| && LookbehindOk(s, i) && IsDigit(s[i])
    ensures IsGroupedNumber(s[i..e]) && !Blocked(s, e)
  {
    TryHeadsSound(s, i, 3);
  }

  /** The head's backtracking with possessive groups: only the greedy end is tried. */
  function TryHeadsPossessive(s: string, i: nat, h: nat): (r: Option<nat>)
    requires i <= |s| && h <= 3
    ensures r.Some? ==> i < r.value <= |s| && !IsBlockAt(s, r.value) && IsDigit(s[i])
  {
    if h == 0 then None
    else if i + h <= |s| && AllDigits(s[i..i + h]) then
      var run := GroupRunEnd(s, i + h);
      if run >= i + h + 4 && !Blocked(s, run) then
        assert s[i] == s[i..i + h][0];
        Some(run)
      else TryHeadsPossessive(s, i, h - 1)
    else TryHeadsPossessive(s, i, h - 1)
  }

  /** What `TryHeadsPossessive` finds is a grouped number whose end the lookahead lets through. */
  lemma {:induction false} TryHeadsPossessiveSound(s: string, i: nat, h: nat)
    requires i <= |s| && h <= 3
    ensures TryHeadsPossessive(s, i, h).Some? ==>
      IsGroupedNumber(s[i..TryHeadsPossessive(s, i, h).value]) && !Blocked(s, TryHeadsPossessive(s, i, h).value)
  {
    if h > 0 {
      if i + h <= |s| && AllDigits(s[i..i + h]) {
        var run := GroupRunEnd(s, i + h);
        if run >= i + h + 4 && !Blocked(s, run) {
          GroupRunBlocks(s, i + h);
          GroupedFromParts(s, i, h, run);
        } else {
          TryHeadsPossessiveSound(s, i, h - 1);
        }
      } else {
        TryHeadsPossessiveSound(s, i, h - 1);
      }
    }
  }

  /**
   * Where pass 3 with possessive groups matches at `i`. Besides what
   * `GroupedMatch` promises, the match is the whole grouped number: no
   * further group follows it.
   */
  function GroupedMatchPossessive(s: string, i: nat): (r: Option<nat>)
    ensures r.Some? ==> i < r.value <= |s| && !IsBlockAt(s, r.value) && LookbehindOk(s, i) && IsDigit(s[i])
  {
    if i < |s| && LookbehindOk(s, i) then TryHeadsPossessive(s, i, 3) else None
  }

  /** A match of pass 3 with possessive groups is a grouped number the lookahead lets through. */
  lemma GroupedMatchPossessiveSound(s: string, i: nat, e: nat)
    requires GroupedMatchPossessive(s, i) == Some(e)
    ensures IsGroupedNumber(s[i..e]) && !Blocked(s, e)
  {
    TryHeadsPossessiveSound(s, i, 3);
  }

  lemma {:induction false} BlocksAreDigitsOrSeps(b: string)
    requires Blocks(b)
    ensures forall k :: 0 <= k < |b| ==> IsDigit(b[k]) || IsGroupSep(b[k])
    decreases |b|
  {
    if b != [] {
      BlocksAreDigitsOrSeps(b[4..]);
      forall k | 4 <= k < |b| ensures IsDigit(b[k]) || IsGroupSep(b[k]) {
        assert b[k] == b[4..][k - 4];
      }
    }
  }

  lemma GroupedChars(t: string)
    requires IsGroupedNumber(t)
    ensures forall k :: 0 <= k < |t| ==> IsDigit(t[k]) || IsGroupSep(t[k])
    ensures AllAmountChars(t) && IsDigit(t[0])
  {
    var h := |t| % 4;
    BlocksAreDigitsOrSeps(t[h..]);
    forall k | 0 <= k < |t| ensures IsDigit(t[k]) || IsGroupSep(t[k]) {
      if k < h {
        assert t[k] == t[..h][k];
      } else {
        assert t[k] == t[h..][k - h];
      }
    }
  }

  /** The amount of a pass 3 match always parses, so pass 3 never leaves a match unconverted. */
  lemma GroupedAlwaysConverts(t: string, rate: real)
    requires IsGroupedNumber(t)
    ensures AllAmountChars(t) && AllDigits(Ungrouped(t))
    ensures ParsedAmount(t) == Some(DigitsValue(Ungrouped(t)) as real)
    ensures AmountToUzs(t, rate).Some?
    ensures Remove(AmountToUzs(t, rate).value, ' ') == SignedDecimal(UzsValue(DigitsValue(Ungrouped(t)) as real, rate))
  {
    GroupedChars(t);
    GroupedAmountValue(t);
  }

  /**
   * `convert_plain_grouped` on the matched number `t`: the number, followed
   * by its annotation. Every match passes the test on its characters, and
   * `GroupedAlwaysConverts` shows the callback's own fallback is dead.
   */
  function ConvertGrouped(rate: real, t: string): string {
    if AllAmountChars(t) then t + Annotation(t, rate) else t
  }

  // ---------------------------------------------------------------- re.sub

  /** A compiled pattern: where it matches at position `i`, the end of the match. */
  type Matcher = (string, nat) -> Option<nat>

  /** A replacement callback: from the matched text to the text put in its place. */
  type Callback = string -> string

  /** `m` matches `s` at `i`, and the match `s[i..e]` is not empty. */
  predicate MatchesAt(m: Matcher, s: string, i: nat, e: nat) {
    m(s, i) == Some(e) && i < e <= |s|
  }

  /**
   * `re.sub(m, f, s)` from position `i` on: the leftmost match is replaced by
   * `f` of its text and the scan resumes after it, so matches never overlap
   * and inserted text is never scanned; where nothing matches, one character
   * is copied. None of the patterns here matches the empty string, so an
   * empty answer of `m` is no match.
   */
  function Sub(m: Matcher, f: Callback, s: string, i: nat): string
    requires i <= |s|
    decreases |s| - i, 1
  {
    if i == |s| then [] else SubAt(m, f, s, i)
  }

  /** What `Sub` emits from a position before the end of the text. */
  function SubAt(m: Matcher, f: Callback, s: string, i: nat): string
    requires i < |s|
    decreases |s| - i, 0
  {
    var r := m(s, i);
    if r.Some? && i < r.value <= |s| then f(s[i..r.value]) + Sub(m, f, s, r.value)
    else [s[i]] + Sub(m, f, s, i + 1)
  }

  /** The callback of pass 2 at the current rate. */
  function TrailingCallback(rate: real): Callback {
    t => ConvertTrailing(rate, t)
  }

  /** The callback of pass 3 at the current rate. */
  function GroupedCallback(rate: real): Callback {
    t => ConvertGrouped(rate, t)
  }

  /** On a match (whose amount is made of amount characters), pass 2's callback appends the annotation. */
  lemma TrailingCallbackAppends(rate: real, t: string)
    requires t != [] && AllAmountChars(t[..|t| - 1])
    ensures TrailingCallback(rate)(t) == t + Annotation(t[..|t| - 1], rate)
  {
  }

  /** On a match, pass 3's callback appends the annotation. */
  lemma GroupedCallbackAppends(rate: real, t: string)
    requires AllAmountChars(t)
    ensures GroupedCallback(rate)(t) == t + Annotation(t, rate)
  {
  }

  /** `_convert_prices` as the source writes it. */
  function ConvertPricesAsWritten(text: string, rate: Option<real>): (r: string)
    ensures text == [] || rate.None? ==> r == text
  {
    if text == [] then text
    else if rate.None? then text
    else
      var t1 := Sub(LeadingMatch, NormalizeLeading, text, 0);
      var t2 := Sub(TrailingMatch, TrailingCallback(rate.value), t1, 0);
      Sub(GroupedMatch, GroupedCallback(rate.value), t2, 0)
  }

  /**
   * `_convert_prices` with the repeated group of pass 3 made possessive, so
   * that the lookahead judges the whole grouped number (see `PriceGuard`).
   */
  function ConvertPrices(text: string, rate: Option<real>): (r: string)
    ensures text == [] || rate.None? ==> r == text
  {
    if text == [] then text
    else if rate.None? then text
    else
      var t1 := Sub(LeadingMatch, NormalizeLeading, text, 0);
      var t2 := Sub(TrailingMatch, TrailingCallback(rate.value), t1, 0);
      Sub(GroupedMatchPossessive, GroupedCallback(rate.value), t2, 0)
  }

  // ---------------------------------------------------------------- re.sub lemmas

  /** Where the pattern does not match, `re.sub` copies one character and moves on. */
  lemma SubSkipAny(m: Matcher, f: Callback, s: string, a: nat)
    requires a < |s| && !(m(s, a).Some? && a < m(s, a).value <= |s|)
    ensures Sub(m, f, s, a) == [s[a]] + Sub(m, f, s, a + 1)
  {
  }

  /** Where it matches, `re.sub` emits the callback's text and resumes after the match. */
  lemma SubReplace(m: Matcher, f: Callback, s: string, a: nat, e: nat)
    requires MatchesAt(m, s, a, e)
    ensures Sub(m, f, s, a) == f(s[a..e]) + Sub(m, f, s, e)
  {
  }

  /** A stretch where the pattern matches nowhere is copied through unchanged. */
  lemma {:induction false} SubCopiesUnmatched(m: Matcher, f: Callback, s: string, a: nat, b: nat)
    requires a <= b <= |s|
    requires forall j :: a <= j < b ==> m(s, j).None?
    ensures Sub(m, f, s, a) == s[a..b] + Sub(m, f, s, b)
    decreases b - a
  {
    if a < b {
      SubSkipAny(m, f, s, a);
      SubCopiesUnmatched(m, f, s, a + 1, b);
      assert s[a..b] == [s[a]] + s[a + 1..b];
    } else {
      assert s[a..b] == [];
    }
  }

  /**
   * When the callback hands every match back as it stands (every amount
   * fails to parse), the pass leaves the text exactly as it was.
   */
  lemma {:induction false} SubKeepsUnconverted(m: Matcher, f: Callback, s: string, i: nat)
    requires i <= |s|
    requires forall j: nat, e: nat :: i <= j && MatchesAt(m, s, j, e) ==> f(s[j..e]) == s[j..e]
    ensures Sub(m, f, s, i) == s[i..]
    decreases |s| - i
  {
    if i < |s| {
      var r := m(s, i);
      if r.Some? && i < r.value <= |s| {
        SubReplace(m, f, s, i, r.value);
        SubKeepsUnconverted(m, f, s, r.value);
        assert s[i..] == s[i..r.value] + s[r.value..];
      } else {
        SubKeepsUnconverted(m, f, s, i + 1);
        assert s[i..] == [s[i]] + s[i + 1..];
      }
    }
  }

  /** The characters of `s` that are not white space. */
  function NonSpace(s: string): (r: string)
    ensures |r| <= |s|
  {
    if s == [] then [] else (if IsSpace(s[0]) then [] else [s[0]]) + NonSpace(s[1..])
  }

  lemma {:induction false} NonSpaceAppend(a: string, b: string)
    ensures NonSpace(a + b) == NonSpace(a) + NonSpace(b)
  {
    if a == [] {
      assert a + b == b;
    } else {
      assert (a + b)[0] == a[0] && (a + b)[1..] == a[1..] + b;
      NonSpaceAppend(a[1..], b);
    }
  }

  lemma NonSpaceCount(a: string, b: string)
    ensures multiset(NonSpace(a + b)) == multiset(NonSpace(a)) + multiset(NonSpace(b))
  {
    NonSpaceAppend(a, b);
  }

  lemma {:induction false} NonSpaceOfSpaces(w: string)
    requires AllSpaces(w)
    ensures NonSpace(w) == []
  {
    if w != [] {
      NonSpaceOfSpaces(w[1..]);
    }
  }

  /** What is not white space, counted with multiplicity. */
  predicate SameNonSpace(a: string, b: string) {
    multiset(NonSpace(a)) == multiset(NonSpace(b))
  }

  /**
   * A pass whose callback keeps the characters of each match, up to white
   * space and order, keeps those of the whole text.
   */
  lemma {:induction false} SubKeepsNonSpace(m: Matcher, f: Callback, s: string, i: nat)
    requires i <= |s|
    requires forall j: nat, e: nat :: i <= j && MatchesAt(m, s, j, e) ==> SameNonSpace(f(s[j..e]), s[j..e])
    ensures SameNonSpace(Sub(m, f, s, i), s[i..])
    decreases |s| - i
  {
    if i == |s| {
      assert s[i..] == [];
    } else {
      var r := m(s, i);
      if r.Some? && i < r.value <= |s| {
        SubKeepsNonSpace(m, f, s, r.value);
        KeepsNonSpaceAtMatch(m, f, s, i, r.value);
      } else {
        SubKeepsNonSpace(m, f, s, i + 1);
        KeepsNonSpaceAtSkip(m, f, s, i);
      }
    }
  }

  lemma KeepsNonSpaceAtMatch(m: Matcher, f: Callback, s: string, i: nat, e: nat)
    requires MatchesAt(m, s, i, e) && SameNonSpace(f(s[i..e]), s[i..e])
    requires SameNonSpace(Sub(m, f, s, e), s[e..])
    ensures SameNonSpace(Sub(m, f, s, i), s[i..])
  {
    SubReplace(m, f, s, i, e);
    SameNonSpaceStep(f(s[i..e]), Sub(m, f, s, e), s[i..e], s[e..], s[i..]);
  }

  lemma KeepsNonSpaceAtSkip(m: Matcher, f: Callback, s: string, i: nat)
    requires i < |s| && !(m(s, i).Some? && i < m(s, i).value <= |s|)
    requires SameNonSpace(Sub(m, f, s, i + 1), s[i + 1..])
    ensures SameNonSpace(s[i..], Sub(m, f, s, i))
  {
    SubSkipAny(m, f, s, i);
    SameNonSpaceStep([s[i]], Sub(m, f, s, i + 1), [s[i]], s[i + 1..], s[i..]);
  }

  lemma SameNonSpaceStep(x: string, y: string, u: string, v: string, w: string)
    requires SameNonSpace(x, u) && SameNonSpace(y, v) && w == u + v
    ensures SameNonSpace(x + y, w)
  {
    NonSpaceCount(x, y);
    NonSpaceCount(u, v);
  }

  // ---------------------------------------------------------------- pass lemmas

  /** Every price pattern needs a digit where it starts to match. */
  lemma NoDigitNoMatch(s: string, j: nat)
    requires forall k :: 0 <= k < |s| ==> !IsDigit(s[k])
    ensures LeadingMatch(s, j).None? && TrailingMatch(s, j).None?
    ensures GroupedMatch(s, j).None? && GroupedMatchPossessive(s, j).None?
  {
  }

  /** Text without digits has no price in it: all three passes leave it alone. */
  lemma NoDigitsUnchanged(text: string, rate: Option<real>)
    requires forall k :: 0 <= k < |text| ==> !IsDigit(text[k])
    ensures ConvertPrices(text, rate) == text
    ensures ConvertPricesAsWritten(text, rate) == text
  {
    if text != [] && rate.Some? {
      var r := rate.value;
      forall j | 0 <= j < |text| {
        NoDigitNoMatch(text, j);
      }
      assert text[0..|text|] == text;
      SubCopiesUnmatched(LeadingMatch, NormalizeLeading, text, 0, |text|);
      assert Sub(LeadingMatch, NormalizeLeading, text, |text|) == [];
      SubCopiesUnmatched(TrailingMatch, TrailingCallback(r), text, 0, |text|);
      assert Sub(TrailingMatch, TrailingCallback(r), text, |text|) == [];
      SubCopiesUnmatched(GroupedMatch, GroupedCallback(r), text, 0, |text|);
      assert Sub(GroupedMatch, GroupedCallback(r), text, |text|) == [];
      SubCopiesUnmatched(GroupedMatchPossessive, GroupedCallback(r), text, 0, |text|);
      assert Sub(GroupedMatchPossessive, GroupedCallback(r), text, |text|) == [];
      assert Sub(LeadingMatch, NormalizeLeading, text, 0) == text;
      assert Sub(TrailingMatch, TrailingCallback(r), text, 0) == text;
      assert Sub(GroupedMatch, GroupedCallback(r), text, 0) == text;
      assert Sub(GroupedMatchPossessive, GroupedCallback(r), text, 0) == text;
    }
  }

  /** The white space between the dollar sign and the amount does not count. */
  lemma NonSpaceOfDollarGap(gap: string, amount: string)
    requires AllSpaces(gap)
    ensures NonSpace("$" + gap + amount) == "$" + NonSpace(amount)
  {
    NonSpaceAppend("$" + gap, amount);
    NonSpaceAppend("$", gap);
    NonSpaceOfSpaces(gap);
    assert NonSpace("$") == "$";
  }

  /** Normalising a match keeps its characters, less the white space, in another order. */
  lemma NormalizeKeepsNonSpace(t: string)
    requires t != [] && t[0] == '$'
    ensures SameNonSpace(NormalizeLeading(t), t)
  {
    var k := SkipSpaces(t, 1);
    SkipSpacesOverSpaces(t, 1);
    var amount := t[k..];
    assert t == "$" + t[1..k] + amount;
    NonSpaceOfDollarGap(t[1..k], amount);
    NonSpaceCount(amount, "$");
    assert NonSpace("$") == "$";
  }

  /**
   * Pass 1 only moves each dollar sign behind its amount and drops the white
   * space that stood between them: what is not white space is a permutation
   * of the original.
   */
  lemma NormalizeKeepsCharacters(s: string)
    ensures SameNonSpace(Sub(LeadingMatch, NormalizeLeading, s, 0), s)
  {
    forall j: nat, e: nat | MatchesAt(LeadingMatch, s, j, e) ensures SameNonSpace(NormalizeLeading(s[j..e]), s[j..e]) {
      assert s[j..e][0] == s[j];
      NormalizeKeepsNonSpace(s[j..e]);
    }
    SubKeepsNonSpace(LeadingMatch, NormalizeLeading, s, 0);
    assert s[0..] == s;
  }

  /**
   * Pass 1 at a match: the amount (from the first digit after the dollar
   * sign to the end of the match) followed by the dollar sign, then the scan
   * goes on after the match.
   */
  lemma LeadingPassAtMatch(s: string, i: nat, e: nat)
    requires LeadingMatch(s, i) == Some(e)
    ensures s[i] == '$' && IsDigit(s[SkipSpaces(s, i + 1)])
    ensures Sub(LeadingMatch, NormalizeLeading, s, i)
      == s[SkipSpaces(s, i + 1)..e] + "$" + Sub(LeadingMatch, NormalizeLeading, s, e)
  {
    SubReplace(LeadingMatch, NormalizeLeading, s, i, e);
    var t := s[i..e];
    SkipSpacesShift(s, i, e);
    assert t[SkipSpaces(t, 1)..] == s[SkipSpaces(s, i + 1)..e];
  }

  /** Skipping white space inside a slice is skipping it in the text. */
  lemma {:induction false} SkipSpacesShift(s: string, i: nat, e: nat)
    requires LeadingMatch(s, i) == Some(e)
    ensures 1 <= |s[i..e]| && SkipSpaces(s[i..e], 1) == SkipSpaces(s, i + 1) - i
  {
    var t := s[i..e];
    var k := SkipSpaces(s, i + 1);
    SkipSpacesOverSpaces(s, i + 1);
    assert forall j :: i + 1 <= j < k ==> t[j - i] == s[j] && IsSpace(s[j]);
    assert t[k - i] == s[k];
    SkipSpacesFrom(t, 1, k - i);
  }

  /** `SkipSpaces` from `j` stops at the first character after `j` that is not white space. */
  lemma {:induction false} SkipSpacesFrom(t: string, j: nat, k: nat)
    requires j <= k < |t| && !IsSpace(t[k])
    requires forall x :: j <= x < k ==> IsSpace(t[x])
    ensures SkipSpaces(t, j) == k
    decreases k - j
  {
    if j < k {
      SkipSpacesFrom(t, j + 1, k);
    }
  }

  /**
   * Pass 2 at a match: the amount and its '$' stay as they are and the
   * annotation follows them, which is nothing when the amount does not
   * parse; the scan goes on after the match, so later prices are converted
   * whether or not this one was.
   */
  lemma TrailingPassAtMatch(rate: real, s: string, i: nat, e: nat)
    requires TrailingMatch(s, i) == Some(e)
    ensures AllAmountChars(s[i..e - 1]) && s[e - 1] == '$'
    ensures Sub(TrailingMatch, TrailingCallback(rate), s, i)
      == s[i..e] + Annotation(s[i..e - 1], rate) + Sub(TrailingMatch, TrailingCallback(rate), s, e)
    ensures Annotation(s[i..e - 1], rate) == [] <==> ParsedAmount(s[i..e - 1]).None?
  {
    TrailingCallbackOnMatch(rate, s, i, e);
    SubReplace(TrailingMatch, TrailingCallback(rate), s, i, e);
  }

  lemma TrailingCallbackOnMatch(rate: real, s: string, i: nat, e: nat)
    requires TrailingMatch(s, i) == Some(e)
    ensures AllAmountChars(s[i..e - 1])
    ensures TrailingCallback(rate)(s[i..e]) == s[i..e] + Annotation(s[i..e - 1], rate)
  {
    var m := s[i..e];
    assert m[..|m| - 1] == s[i..e - 1];
    assert AllAmountChars(s[i..e - 1]);
    TrailingCallbackAppends(rate, m);
  }

  /**
   * Pass 3, as written, at a match: a grouped number, not after a word
   * character or '$', whose end the lookahead lets through; it is always
   * annotated, and the scan goes on after it.
   */
  lemma GroupedPassAtMatch(rate: real, s: string, i: nat, e: nat)
    requires GroupedMatch(s, i) == Some(e)
    ensures IsGroupedNumber(s[i..e]) && LookbehindOk(s, i) && !Blocked(s, e)
    ensures AllAmountChars(s[i..e]) && Annotation(s[i..e], rate) != []
    ensures Sub(GroupedMatch, GroupedCallback(rate), s, i)
      == s[i..e] + Annotation(s[i..e], rate) + Sub(GroupedMatch, GroupedCallback(rate), s, e)
  {
    GroupedMatchSound(s, i, e);
    SubReplace(GroupedMatch, GroupedCallback(rate), s, i, e);
    GroupedAlwaysConverts(s[i..e], rate);
    GroupedCallbackAppends(rate, s[i..e]);
  }

  /**
   * Pass 3 with possessive groups at a match: as `GroupedPassAtMatch`, and
   * besides no further group follows the match.
   */
  lemma GroupedPossessivePassAtMatch(rate: real, s: string, i: nat, e: nat)
    requires GroupedMatchPossessive(s, i) == Some(e)
    ensures IsGroupedNumber(s[i..e]) && LookbehindOk(s, i) && !Blocked(s, e) && !IsBlockAt(s, e)
    ensures AllAmountChars(s[i..e]) && Annotation(s[i..e], rate) != []
    ensures Sub(GroupedMatchPossessive, GroupedCallback(rate), s, i)
      == s[i..e] + Annotation(s[i..e], rate) + Sub(GroupedMatchPossessive, GroupedCallback(rate), s, e)
  {
    GroupedMatchPossessiveSound(s, i, e);
    SubReplace(GroupedMatchPossessive, GroupedCallback(rate), s, i, e);
    GroupedAlwaysConverts(s[i..e], rate);
    GroupedCallbackAppends(rate, s[i..e]);
  }
}
