/**
 * What the negative lookahead of pass 3 is for: a grouped number that is
 * already priced (followed by "UZS", "usd", "USD", '$' or '(') must be left
 * alone. As written, the repeated group `(?:[ _]\d{3})+` backtracks: when the
 * whole number is refused, the pattern gives back its last group and matches
 * the shorter number in front of it, whose next character is a separator and
 * so satisfies the lookahead. With possessive groups the number is judged
 * whole and left untouched.
 */
module PriceGuard {
  import opened PyText
  import opened Amounts
  import opened Prices

  /**
   * `s[a..b]` is a grouped number, head `s[a..m]` and groups `s[m..b]`,
   * that the lookahead refuses: no further group follows it, and the text
   * after it starts with a price marker.
   */
  predicate GuardedNumber(s: string, a: nat, m: nat, b: nat) {
    a < m <= a + 3 && m + 4 <= b <= |s| && AllDigits(s[a..m]) && Blocks(s[m..b])
    && !IsBlockAt(s, b) && Blocked(s, b)
  }

  lemma {:induction false} BlocksSuffix(b: string, k: nat)
    requires Blocks(b) && k <= |b| && k % 4 == 0
    ensures Blocks(b[k..])
    decreases k
  {
    if k > 0 {
      assert IsBlockAt(b, 0);
      BlocksSuffix(b[4..], k - 4);
      assert b[4..][k - 4..] == b[k..];
    }
  }

  /** In a run of groups, every fourth character is a separator and the others digits. */
  lemma BlocksCharAt(b: string, k: nat)
    requires Blocks(b) && k < |b|
    ensures k % 4 == 0 ==> IsGroupSep(b[k])
    ensures k % 4 != 0 ==> IsDigit(b[k])
  {
    var m := k - k % 4;
    BlocksSuffix(b, m);
    assert IsBlockAt(b[m..], 0);
    assert b[k] == b[m..][k % 4];
  }

  /** Over a run of groups that nothing extends, `(?:[ _]\d{3})*` ends where the run does. */
  lemma {:induction false} GroupRunThroughBlocks(s: string, q: nat, b: nat)
    requires q <= b <= |s| && Blocks(s[q..b]) && !IsBlockAt(s, b)
    ensures GroupRunEnd(s, q) == b
    decreases b - q
  {
    if q < b {
      assert IsBlockAt(s[q..b], 0);
      assert s[q] == s[q..b][0] && s[q + 1] == s[q..b][1];
      assert s[q + 2] == s[q..b][2] && s[q + 3] == s[q..b][3];
      assert IsBlockAt(s, q);
      assert s[q..b][4..] == s[q + 4..b];
      GroupRunThroughBlocks(s, q + 4, b);
    }
  }

  /** A digit cannot begin a group, so the run starting there is empty. */
  lemma GroupRunAtDigit(s: string, q: nat)
    requires q < |s| && IsDigit(s[q])
    ensures GroupRunEnd(s, q) == q
  {
  }

  /** The lookahead passes where the next non-space character is a digit or '_'. */
  lemma NotBlockedAt(s: string, e: nat)
    requires e <= |s|
    requires SkipSpaces(s, e) < |s| && (IsDigit(s[SkipSpaces(s, e)]) || s[SkipSpaces(s, e)] == '_')
    ensures !Blocked(s, e)
  {
    var k := SkipSpaces(s, e);
    forall w: string | w != [] && StartsWith(s, k, w) ensures s[k] == w[0] {
      assert s[k] == s[k..k + |w|][0];
    }
  }

  /** The characters of a guarded number, read off its shape. */
  lemma GuardedChars(s: string, a: nat, m: nat, b: nat, j: nat)
    requires GuardedNumber(s, a, m, b) && a <= j < b
    ensures j < m ==> IsDigit(s[j])
    ensures j >= m && (j - m) % 4 == 0 ==> IsGroupSep(s[j])
    ensures j >= m && (j - m) % 4 != 0 ==> IsDigit(s[j])
  {
    if j < m {
      assert s[j] == s[a..m][j - a];
    } else {
      BlocksCharAt(s[m..b], j - m);
      assert s[j] == s[m..b][j - m];
    }
  }

  /** From a group boundary inside a guarded number, the groups run to its end. */
  lemma GuardedTail(s: string, a: nat, m: nat, b: nat, q: nat)
    requires GuardedNumber(s, a, m, b) && m <= q <= b && (q - m) % 4 == 0
    ensures GroupRunEnd(s, q) == b
  {
    BlocksSuffix(s[m..b], q - m);
    assert s[m..b][q - m..] == s[q..b];
    GroupRunThroughBlocks(s, q, b);
  }

  /** Heads longer than the number's own head run into a separator. */
  lemma HeadTooLong(s: string, a: nat, m: nat, b: nat, h: nat)
    requires GuardedNumber(s, a, m, b) && m - a < h <= 3
    ensures !(a + h <= |s| && AllDigits(s[a..a + h]))
  {
    GuardedChars(s, a, m, b, m);
    if a + h <= |s| {
      assert s[m] == s[a..a + h][m - a];
    }
  }

  // ------------------------------------------------------------ as written

  /** The lookahead passes just before the last group of a guarded number. */
  lemma LastGroupNotBlocked(s: string, a: nat, m: nat, b: nat)
    requires GuardedNumber(s, a, m, b)
    ensures !Blocked(s, b - 4)
  {
    BlocksLength(s[m..b]);
    GuardedChars(s, a, m, b, b - 4);
    GuardedChars(s, a, m, b, b - 3);
    NotBlockedAt(s, b - 4);
  }

  /** Without its last group, a guarded number's groups are still whole groups. */
  lemma DropLastGroup(s: string, a: nat, m: nat, b: nat)
    requires GuardedNumber(s, a, m, b)
    ensures Blocks(s[m..b - 4])
  {
    BlocksDropLast(s[m..b]);
    assert s[m..b][..b - m - 4] == s[m..b - 4];
  }

  /** Backtracking gives back exactly the last group of a guarded number. */
  lemma GivesBackLastGroup(s: string, a: nat, m: nat, b: nat)
    requires GuardedNumber(s, a, m, b) && m + 8 <= b
    ensures TryGroups(s, m, b) == Some(b - 4)
  {
    LastGroupNotBlocked(s, a, m, b);
    DropLastGroup(s, a, m, b);
    assert TryGroups(s, m, b - 4) == Some(b - 4);
  }

  /** A head that leads to no acceptable end is given up for a shorter one. */
  lemma HeadFallsThrough(s: string, i: nat, h: nat)
    requires i <= |s| && 1 <= h <= 3
    requires i + h <= |s| && AllDigits(s[i..i + h]) ==> TryGroups(s, i + h, GroupRunEnd(s, i + h)).None?
    ensures TryHeads(s, i, h) == TryHeads(s, i, h - 1)
  {
  }

  /** The number's own head, with its last group given back, is the match. */
  lemma AsWrittenOwnHead(s: string, a: nat, m: nat, b: nat)
    requires GuardedNumber(s, a, m, b) && m + 8 <= b
    ensures TryHeads(s, a, m - a) == Some(b - 4)
  {
    GuardedTail(s, a, m, b, m);
    GivesBackLastGroup(s, a, m, b);
  }

  /** Heads longer than the number's own are skipped. */
  lemma AsWrittenLongHeads(s: string, a: nat, m: nat, b: nat, h: nat)
    requires GuardedNumber(s, a, m, b) && m - a < h <= 3
    ensures TryHeads(s, a, h) == TryHeads(s, a, h - 1)
  {
    HeadTooLong(s, a, m, b, h);
    HeadFallsThrough(s, a, h);
  }

  /**
   * As written, pass 3 matches a guarded number of two groups or more with
   * its last group given back.
   */
  lemma AsWrittenMatchesShortened(s: string, a: nat, m: nat, b: nat)
    requires GuardedNumber(s, a, m, b) && LookbehindOk(s, a) && m + 8 <= b
    ensures GroupedMatch(s, a) == Some(b - 4)
  {
    AsWrittenOwnHead(s, a, m, b);
    if m - a < 3 { AsWrittenLongHeads(s, a, m, b, 3); }
    if m - a < 2 { AsWrittenLongHeads(s, a, m, b, 2); }
  }

  /**
   * ... and so replaces the shortened number with itself and an annotation,
   * splitting the guarded number: what follows the annotation is its last group.
   */
  lemma AsWrittenSplitsGuardedNumber(rate: real, s: string, a: nat, m: nat, b: nat)
    requires GuardedNumber(s, a, m, b) && LookbehindOk(s, a) && m + 8 <= b
    ensures AllAmountChars(s[a..b - 4])
    ensures Sub(GroupedMatch, GroupedCallback(rate), s, a)
      == s[a..b - 4] + Annotation(s[a..b - 4], rate) + Sub(GroupedMatch, GroupedCallback(rate), s, b - 4)
    ensures Annotation(s[a..b - 4], rate) != []
  {
    AsWrittenSubGuarded(rate, s, a, m, b);
    ShortenedIsAnnotated(rate, s, a, m, b);
  }

  /** The replacement step of `AsWrittenSplitsGuardedNumber`. */
  lemma AsWrittenSubGuarded(rate: real, s: string, a: nat, m: nat, b: nat)
    requires GuardedNumber(s, a, m, b) && LookbehindOk(s, a) && m + 8 <= b
    ensures a < b - 4 <= |s|
    ensures AllAmountChars(s[a..b - 4])
    ensures Sub(GroupedMatch, GroupedCallback(rate), s, a)
      == s[a..b - 4] + Annotation(s[a..b - 4], rate) + Sub(GroupedMatch, GroupedCallback(rate), s, b - 4)
  {
    AsWrittenMatchesShortened(s, a, m, b);
    GroupedPassAtMatch(rate, s, a, b - 4);
  }

  lemma ShortenedIsAnnotated(rate: real, s: string, a: nat, m: nat, b: nat)
    requires GuardedNumber(s, a, m, b) && m + 8 <= b
    ensures AllAmountChars(s[a..b - 4]) && Annotation(s[a..b - 4], rate) != []
    ensures GroupedCallback(rate)(s[a..b - 4]) == s[a..b - 4] + Annotation(s[a..b - 4], rate)
  {
    DropLastGroup(s, a, m, b);
    BlocksLength(s[m..b]);
    GroupedFromParts(s, a, m - a, b - 4);
    GroupedAlwaysConverts(s[a..b - 4], rate);
    GroupedCallbackAppends(rate, s[a..b - 4]);
  }

  // ------------------------------------------------------------ corrected

  /** A head whose greedy groups are missing or refused is given up for a shorter one. */
  lemma PossessiveHeadFallsThrough(s: string, i: nat, h: nat)
    requires i <= |s| && 1 <= h <= 3
    requires i + h <= |s| && AllDigits(s[i..i + h])
      ==> GroupRunEnd(s, i + h) < i + h + 4 || Blocked(s, GroupRunEnd(s, i + h))
    ensures TryHeadsPossessive(s, i, h) == TryHeadsPossessive(s, i, h - 1)
  {
  }

  /** At a guarded number's start, each head falls through. */
  lemma PossessiveStartStep(s: string, a: nat, m: nat, b: nat, h: nat)
    requires GuardedNumber(s, a, m, b) && 1 <= h <= 3
    ensures TryHeadsPossessive(s, a, h) == TryHeadsPossessive(s, a, h - 1)
  {
    if a + h > m {
      HeadTooLong(s, a, m, b, h);
    } else if a + h == m {
      GuardedTail(s, a, m, b, m);
    } else {
      GuardedChars(s, a, m, b, a + h);
      GroupRunAtDigit(s, a + h);
    }
    PossessiveHeadFallsThrough(s, a, h);
  }

  /** At the number's start, no head leads to an acceptable end. */
  lemma {:induction false} PossessiveNoMatchAtStart(s: string, a: nat, m: nat, b: nat, h: nat)
    requires GuardedNumber(s, a, m, b) && h <= 3
    ensures TryHeadsPossessive(s, a, h).None?
  {
    if h > 0 {
      PossessiveNoMatchAtStart(s, a, m, b, h - 1);
      PossessiveStartStep(s, a, m, b, h);
    }
  }

  /** At the first digit of a group, each head falls through. */
  lemma PossessiveGroupStep(s: string, a: nat, m: nat, b: nat, j: nat, h: nat)
    requires GuardedNumber(s, a, m, b) && m < j < b && (j - m) % 4 == 1
    requires 1 <= h <= 3
    ensures TryHeadsPossessive(s, j, h) == TryHeadsPossessive(s, j, h - 1)
  {
    if h == 3 {
      GroupEndGuarded(s, a, m, b, j);
    } else {
      ShortHeadInGroup(s, a, m, b, j, h);
    }
    PossessiveHeadFallsThrough(s, j, h);
  }

  /** A head of one or two digits inside a group is followed by a digit, so no group follows it. */
  lemma ShortHeadInGroup(s: string, a: nat, m: nat, b: nat, j: nat, h: nat)
    requires GuardedNumber(s, a, m, b) && m < j < b && (j - m) % 4 == 1
    requires 1 <= h <= 2
    ensures j + h < |s| && GroupRunEnd(s, j + h) == j + h
  {
    BlocksLength(s[m..b]);
    GuardedChars(s, a, m, b, j + h);
    GroupRunAtDigit(s, j + h);
  }

  /** Three digits into a group, the groups run to the number's end, which is refused. */
  lemma GroupEndGuarded(s: string, a: nat, m: nat, b: nat, j: nat)
    requires GuardedNumber(s, a, m, b) && m < j < b && (j - m) % 4 == 1
    ensures j + 3 <= |s| && GroupRunEnd(s, j + 3) == b && Blocked(s, b)
  {
    BlocksLength(s[m..b]);
    assert j + 3 <= b && (j + 3 - m) % 4 == 0;
    GuardedTail(s, a, m, b, j + 3);
  }

  /** At the first digit of a group, no head leads to an acceptable end. */
  lemma {:induction false} PossessiveNoMatchAtGroup(s: string, a: nat, m: nat, b: nat, j: nat, h: nat)
    requires GuardedNumber(s, a, m, b) && m < j < b && (j - m) % 4 == 1
    requires h <= 3
    ensures TryHeadsPossessive(s, j, h).None?
  {
    if h > 0 {
      PossessiveNoMatchAtGroup(s, a, m, b, j, h - 1);
      PossessiveGroupStep(s, a, m, b, j, h);
    }
  }

  /** With possessive groups, pass 3 matches nowhere inside a guarded number. */
  lemma PossessiveNoMatchInside(s: string, a: nat, m: nat, b: nat, j: nat)
    requires GuardedNumber(s, a, m, b) && a <= j < b
    ensures GroupedMatchPossessive(s, j).None?
  {
    GuardedChars(s, a, m, b, j);
    if j == a {
      PossessiveNoMatchAtStart(s, a, m, b, 3);
    } else if j < m || (j - m) % 4 >= 2 {
      GuardedChars(s, a, m, b, j - 1);
      PossessiveNoMatchMidword(s, j);
    } else if (j - m) % 4 == 1 {
      PossessiveNoMatchAtGroup(s, a, m, b, j, 3);
    } else {
      PossessiveNoMatchMidword(s, j);
    }
  }

  /** Pass 3 never matches at a non-digit, nor right after a digit. */
  lemma PossessiveNoMatchMidword(s: string, j: nat)
    requires j < |s| && (!IsDigit(s[j]) || (0 < j && IsDigit(s[j - 1])))
    ensures GroupedMatchPossessive(s, j) == None
  {
  }

  /**
   * With possessive groups, pass 3 copies a guarded number through unchanged,
   * whatever its callback.
   */
  lemma PossessiveKeepsGuardedNumber(f: Callback, s: string, a: nat, m: nat, b: nat)
    requires GuardedNumber(s, a, m, b)
    ensures Sub(GroupedMatchPossessive, f, s, a) == s[a..b] + Sub(GroupedMatchPossessive, f, s, b)
  {
    forall j | a <= j < b ensures GroupedMatchPossessive(s, j).None? {
      PossessiveNoMatchInside(s, a, m, b, j);
    }
    SubCopiesUnmatched(GroupedMatchPossessive, f, s, a, b);
  }

  // ------------------------------------------------------------ free numbers

  /**
   * `s[a..b]` is a grouped number, head `s[a..m]` and groups `s[m..b]`, that
   * the lookahead lets through: no further group follows it, and no price
   * marker. "150 000" in "budget 150 000 sum" is one.
   */
  predicate FreeNumber(s: string, a: nat, m: nat, b: nat) {
    a < m <= a + 3 && m + 4 <= b <= |s| && AllDigits(s[a..m]) && Blocks(s[m..b])
    && !IsBlockAt(s, b) && !Blocked(s, b)
  }

  /** The start of a grouped number that the lookahead lets through and no group extends is free. */
  lemma FreeFromGrouped(s: string, a: nat, b: nat)
    requires a <= b <= |s| && IsGroupedNumber(s[a..b]) && !IsBlockAt(s, b) && !Blocked(s, b)
    ensures FreeNumber(s, a, a + (b - a) % 4, b)
  {
    var t, h := s[a..b], (b - a) % 4;
    BlocksLength(t[h..]);
    assert t[..h] == s[a..a + h] && t[h..] == s[a + h..b];
  }

  /** Heads longer than a free number's own head run into a separator. */
  lemma FreeHeadTooLong(s: string, a: nat, m: nat, b: nat, h: nat)
    requires FreeNumber(s, a, m, b) && m - a < h <= 3
    ensures !(a + h <= |s| && AllDigits(s[a..a + h]))
  {
    BlocksCharAt(s[m..b], 0);
    assert s[m] == s[m..b][0];
    if a + h <= |s| {
      assert s[m] == s[a..a + h][m - a];
    }
  }

  /** As written, pass 3 matches a free number whole. */
  lemma GroupedMatchComplete(s: string, a: nat, m: nat, b: nat)
    requires FreeNumber(s, a, m, b) && LookbehindOk(s, a)
    ensures GroupedMatch(s, a) == Some(b)
  {
    GroupRunThroughBlocks(s, m, b);
    assert TryHeads(s, a, m - a) == Some(b);
    if m - a < 3 { FreeHeadTooLong(s, a, m, b, 3); HeadFallsThrough(s, a, 3); }
    if m - a < 2 { FreeHeadTooLong(s, a, m, b, 2); HeadFallsThrough(s, a, 2); }
  }

  /** With possessive groups, pass 3 matches a free number whole. */
  lemma GroupedMatchPossessiveComplete(s: string, a: nat, m: nat, b: nat)
    requires FreeNumber(s, a, m, b) && LookbehindOk(s, a)
    ensures GroupedMatchPossessive(s, a) == Some(b)
  {
    GroupRunThroughBlocks(s, m, b);
    assert TryHeadsPossessive(s, a, m - a) == Some(b);
    if m - a < 3 { FreeHeadTooLong(s, a, m, b, 3); PossessiveHeadFallsThrough(s, a, 3); }
    if m - a < 2 { FreeHeadTooLong(s, a, m, b, 2); PossessiveHeadFallsThrough(s, a, 2); }
  }

  /**
   * The matches of pass 3 with possessive groups are exactly the grouped
   * numbers after no word character or '$' that the lookahead lets through
   * and no further group extends.
   */
  lemma GroupedMatchPossessiveExact(s: string, a: nat, b: nat)
    requires a <= b <= |s|
    ensures GroupedMatchPossessive(s, a) == Some(b)
      <==> IsGroupedNumber(s[a..b]) && LookbehindOk(s, a) && !Blocked(s, b) && !IsBlockAt(s, b)
  {
    if GroupedMatchPossessive(s, a) == Some(b) {
      GroupedMatchPossessiveSound(s, a, b);
    } else if IsGroupedNumber(s[a..b]) && LookbehindOk(s, a) && !Blocked(s, b) && !IsBlockAt(s, b) {
      FreeFromGrouped(s, a, b);
      GroupedMatchPossessiveComplete(s, a, a + (b - a) % 4, b);
    }
  }

  /**
   * Both versions of pass 3 convert a free number: it is kept, its annotation
   * (never empty) follows it, and the scan goes on after it.
   */
  lemma FreeNumberConverted(rate: real, s: string, a: nat, m: nat, b: nat)
    requires FreeNumber(s, a, m, b) && LookbehindOk(s, a)
    ensures AllAmountChars(s[a..b]) && Annotation(s[a..b], rate) != []
    ensures Sub(GroupedMatch, GroupedCallback(rate), s, a)
      == s[a..b] + Annotation(s[a..b], rate) + Sub(GroupedMatch, GroupedCallback(rate), s, b)
    ensures Sub(GroupedMatchPossessive, GroupedCallback(rate), s, a)
      == s[a..b] + Annotation(s[a..b], rate) + Sub(GroupedMatchPossessive, GroupedCallback(rate), s, b)
  {
    GroupedMatchComplete(s, a, m, b);
    GroupedPassAtMatch(rate, s, a, b);
    GroupedMatchPossessiveComplete(s, a, m, b);
    GroupedPossessivePassAtMatch(rate, s, a, b);
  }

  // ------------------------------------------------------------ annotations

  /** `Thousands(n)` stands at `a`, followed by " UZS": the amount of an annotation. */
  predicate AmountAt(s: string, a: nat, n: nat) {
    a + |Thousands(n)| + 4 <= |s| && s[a..a + |Thousands(n)|] == Thousands(n)
    && s[a + |Thousands(n)|..a + |Thousands(n)| + 4] == " UZS"
  }

  /** " UZS" after a number ends its groups and satisfies the lookahead. */
  lemma UzsGuards(s: string, b: nat)
    requires b + 4 <= |s| && s[b..b + 4] == " UZS"
    ensures !IsBlockAt(s, b) && Blocked(s, b)
  {
    assert s[b] == ' ' && s[b + 1] == 'U';
    assert SkipSpaces(s, b) == b + 1;
    assert s[b + 1..b + 4] == s[b..b + 4][1..];
  }

  /** Four digits or more make at least one group; seven or more at least two. */
  lemma TailLength(n: nat)
    ensures n >= 1000 ==> |GroupTail(n)| >= 4
    ensures n >= 1000000 ==> |GroupTail(n)| >= 8
  {
    if n >= 1000000 {
      assert |GroupTail(n / 1000)| >= 4;
    }
  }

  /** Where a rendered number stands, its head and its groups stand. */
  lemma ThousandsParts(s: string, a: nat, n: nat)
    requires a + |Thousands(n)| <= |s| && s[a..a + |Thousands(n)|] == Thousands(n)
    ensures a + |GroupHead(n)| <= a + |Thousands(n)|
    ensures s[a..a + |GroupHead(n)|] == GroupHead(n)
    ensures s[a + |GroupHead(n)|..a + |Thousands(n)|] == GroupTail(n)
  {
    var t := Thousands(n);
    var h := |GroupHead(n)|;
    assert t == GroupHead(n) + GroupTail(n);
    assert s[a..a + h] == s[a..a + |t|][..h];
    assert s[a + h..a + |t|] == s[a..a + |t|][h..];
  }

  /** A rendered number of four digits or more has the shape of a grouped number. */
  lemma ThousandsGrouped(s: string, a: nat, n: nat)
    requires n >= 1000 && a + |Thousands(n)| <= |s| && s[a..a + |Thousands(n)|] == Thousands(n)
    ensures a < a + |GroupHead(n)| <= a + 3 && a + |GroupHead(n)| + 4 <= a + |Thousands(n)|
    ensures AllDigits(s[a..a + |GroupHead(n)|]) && Blocks(s[a + |GroupHead(n)|..a + |Thousands(n)|])
  {
    ThousandsShape(n);
    TailLength(n);
    ThousandsParts(s, a, n);
  }

  lemma GuardedIntro(s: string, a: nat, m: nat, b: nat)
    requires a < m <= a + 3 && m + 4 <= b <= |s|
    requires AllDigits(s[a..m]) && Blocks(s[m..b])
    requires !IsBlockAt(s, b) && Blocked(s, b)
    ensures GuardedNumber(s, a, m, b)
  {
  }

  /**
   * The amount of an annotation written by pass 2 ("<N> UZS" with `N` of
   * four digits or more) is a guarded number.
   */
  lemma AnnotationGuarded(s: string, a: nat, n: nat)
    requires n >= 1000 && AmountAt(s, a, n)
    ensures GuardedNumber(s, a, a + |GroupHead(n)|, a + |Thousands(n)|)
  {
    var m, b := a + |GroupHead(n)|, a + |Thousands(n)|;
    assert b + 4 <= |s| && s[b..b + 4] == " UZS";
    UzsGuards(s, b);
    ThousandsGrouped(s, a, n);
    GuardedIntro(s, a, m, b);
  }

  /**
   * The finding: the amount of an annotation of a million sum or more, behind
   * its opening parenthesis, is a guarded number of two groups or more, which
   * pass 3 as written splits (`AsWrittenSplitsGuardedNumber`). For "400$" at
   * 12000 sum to the dollar pass 2 writes "400$ (4 800 000 UZS)", and pass 3
   * then turns "(4 800 000 UZS)" into "(4 800 (57 600 000 UZS) 000 UZS)".
   */
  lemma AnnotationOfMillions(s: string, a: nat, n: nat)
    requires n >= 1000000 && a < |s| && s[a] == '(' && AmountAt(s, a + 1, n)
    ensures GuardedNumber(s, a + 1, a + 1 + |GroupHead(n)|, a + 1 + |Thousands(n)|)
    ensures LookbehindOk(s, a + 1) && a + 1 + |GroupHead(n)| + 8 <= a + 1 + |Thousands(n)|
  {
    AnnotationGuarded(s, a + 1, n);
    TailLength(n);
    ThousandsShape(n);
  }

  /** With possessive groups, pass 3 leaves the amount of every annotation intact. */
  lemma PossessiveKeepsAnnotation(f: Callback, s: string, a: nat, n: nat)
    requires n >= 1000 && AmountAt(s, a, n)
    ensures Sub(GroupedMatchPossessive, f, s, a) == Thousands(n) + Sub(GroupedMatchPossessive, f, s, a + |Thousands(n)|)
  {
    AnnotationGuarded(s, a, n);
    PossessiveKeepsGuardedNumber(f, s, a, a + |GroupHead(n)|, a + |Thousands(n)|);
  }
}
