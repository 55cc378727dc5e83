/**
 * The helper `_amount_to_uzs` of `_convert_prices`: strip the grouping
 * characters from an amount, read it as a number, multiply by the rate, round
 * and render the result with a space between groups of thousands.
 */
module Amounts {
  import opened PyText

  /** The characters of the regular-expression class `[\d\s_.,]`. */
  predicate IsAmountChar(c: char) {
    IsDigit(c) || IsSpace(c) || c == '_' || c == '.' || c == ','
  }

  predicate AllAmountChars(s: string) {
    forall k :: 0 <= k < |s| ==> IsAmountChar(s[k])
  }

  /** What `float()` can be handed here: digits, dots and white space. */
  predicate FloatInputChars(s: string) {
    forall k :: 0 <= k < |s| ==> IsDigit(s[k]) || IsSpace(s[k]) || s[k] == '.'
  }

  /**
   * `float(s)` on a string of digits, dots and white space: surrounding white
   * space is ignored, and what is left must be digits with at most one dot and
   * at least one digit ("5", "5.", ".5", "5.25"). Anything else is a ValueError.
   */
  function ParseFloat(s: string): (r: Option<real>)
    requires FloatInputChars(s)
    ensures r.Some? ==> r.value >= 0.0
  {
    var t := Strip(s);
    var k := IndexOf(t, '.');
    var whole := t[..k];
    var frac := if k < |t| then t[k + 1..] else [];
    if AllDigits(whole) && AllDigits(frac) && (whole != [] || frac != []) then
      Some(DecimalValue(DigitsValue(whole), DigitsValue(frac), |frac|))
    else
      None
  }

  /** The value of `whole.frac` when `frac` has `scale` digits. */
  function DecimalValue(whole: nat, frac: nat, scale: nat): (v: real)
    ensures v >= whole as real
  {
    var d := Pow10(scale) as real;
    assert frac as real / d >= 0.0;
    whole as real + frac as real / d
  }

  /** `float()` of digits, a dot and digits is their decimal value. */
  lemma ParseFloatDecimal(w: string, f: string)
    requires AllDigits(w) && AllDigits(f) && w != []
    ensures FloatInputChars(w + "." + f)
    ensures ParseFloat(w + "." + f) == Some(DecimalValue(DigitsValue(w), DigitsValue(f), |f|))
  {
    var t := w + "." + f;
    assert t[0] == w[0];
    DigitNotSpace(w[0]);
    if f != [] {
      assert t[|t| - 1] == f[|f| - 1];
      DigitNotSpace(f[|f| - 1]);
    }
    StripKeeps(t);
    assert t[|w|] == '.';
    assert IndexOf(t, '.') == |w|;
    assert t[..|w|] == w && t[|w| + 1..] == f;
  }

  /** `float()` of a digit string is its value. */
  lemma ParseFloatOfDigits(w: string)
    requires AllDigits(w) && w != []
    ensures FloatInputChars(w)
    ensures ParseFloat(w) == Some(DigitsValue(w) as real)
  {
    DigitNotSpace(w[0]);
    DigitNotSpace(w[|w| - 1]);
    StripKeeps(w);
    assert IndexOf(w, '.') == |w|;
    assert w[..|w|] == w;
    assert DigitsValue([]) == 0;
    assert DecimalValue(DigitsValue(w), 0, 0) == DigitsValue(w) as real;
  }

  /** A rendered natural number reads back as itself. */
  lemma ParseFloatOfDecimal(n: nat)
    ensures FloatInputChars(Decimal(n))
    ensures ParseFloat(Decimal(n)) == Some(n as real)
  {
    ParseFloatOfDigits(Decimal(n));
    DigitsValueOfDecimal(n);
  }

  /**
   * Python's `round()`: the nearest integer, ties going to the even one.
   */
  function RoundHalfEven(x: real): (r: int)
    ensures r as real - x <= 0.5 && x - r as real <= 0.5
    ensures (r as real - x == 0.5 || x - r as real == 0.5) ==> r % 2 == 0
  {
    var f := x.Floor;
    var d := x - f as real;
    if d < 0.5 then f
    else if d > 0.5 then f + 1
    else if f % 2 == 0 then f
    else f + 1
  }

  /** Three digits with leading zeros: one group after the first. */
  function Pad3(m: nat): (s: string)
    requires m < 1000
    ensures |s| == 3 && AllDigits(s)
  {
    [DigitChar(m / 100), DigitChar(m / 10 % 10), DigitChar(m % 10)]
  }

  /** The characters that may separate groups in a grouped number (`[ _]`). */
  predicate IsGroupSep(c: char) {
    c == ' ' || c == '_'
  }

  /** A separator followed by three digits starts at `j`. */
  predicate IsBlockAt(s: string, j: nat) {
    j + 4 <= |s| && IsGroupSep(s[j]) && IsDigit(s[j + 1]) && IsDigit(s[j + 2]) && IsDigit(s[j + 3])
  }

  /** `b` is a run of whole groups: `([ _]\d{3})*`. */
  predicate Blocks(b: string)
    decreases |b|
  {
    b == [] || (IsBlockAt(b, 0) && Blocks(b[4..]))
  }

  /** The leading group of `n`: the digits before the first separator. */
  function GroupHead(n: nat): string {
    if n < 1000 then Decimal(n) else GroupHead(n / 1000)
  }

  /** Every later group of `n`, each with its separating space. */
  function GroupTail(n: nat): string {
    if n < 1000 then [] else GroupTail(n / 1000) + " " + Pad3(n % 1000)
  }

  /** `f"{n:,}".replace(",", " ")` for a natural number. */
  function Thousands(n: nat): string {
    GroupHead(n) + GroupTail(n)
  }

  /** `f"{n:,}".replace(",", " ")` for any integer: a minus sign goes in front. */
  function RenderInt(n: int): string {
    if n < 0 then "-" + Thousands(-n) else Thousands(n)
  }

  lemma {:induction false} BlocksAppend(b: string, g: string)
    requires Blocks(b) && |g| == 4 && IsBlockAt(g, 0)
    ensures Blocks(b + g)
    decreases |b|
  {
    if b == [] {
      assert b + g == g;
      assert g[4..] == [];
    } else {
      assert (b + g)[4..] == b[4..] + g;
      BlocksAppend(b[4..], g);
    }
  }

  /** The first group has one to three digits; the rest are space and three digits. */
  lemma {:induction false} ThousandsShape(n: nat)
    ensures 1 <= |GroupHead(n)| <= 3 && AllDigits(GroupHead(n))
    ensures Blocks(GroupTail(n)) && '_' !in GroupTail(n)
    ensures Thousands(n) == GroupHead(n) + GroupTail(n)
  {
    if n < 1000 {
      DecimalLength(n);
    } else {
      ThousandsShape(n / 1000);
      var g := " " + Pad3(n % 1000);
      BlocksAppend(GroupTail(n / 1000), g);
      assert GroupTail(n) == GroupTail(n / 1000) + g;
    }
  }

  lemma {:induction false} DecimalLength(n: nat)
    requires n < 1000
    ensures |Decimal(n)| <= 3
  {
    if n >= 10 {
      DecimalLength(n / 10);
      if n >= 100 {
        assert n / 10 >= 10;
      } else {
        assert n / 10 < 10;
      }
    }
  }

  /** The digits of `n`, taken three at a time from the right. */
  lemma ThreeDigits(n: nat)
    requires n >= 1000
    ensures n / 10 >= 10 && n / 10 / 10 >= 10
    ensures n / 10 / 10 / 10 == n / 1000
    ensures n % 1000 / 100 == n / 10 / 10 % 10
    ensures n % 1000 / 10 % 10 == n / 10 % 10
    ensures n % 1000 % 10 == n % 10
  {
    TenthOfTenth(n);
    TenthOfTenth(n / 10);
    TenthOfHundredth(n);
    HundredsDigit(n);
    TensDigit(n);
    UnitsDigit(n);
  }

  lemma TenthOfTenth(n: nat)
    ensures n / 10 / 10 == n / 100
  {
  }

  lemma TenthOfHundredth(n: nat)
    ensures n / 100 / 10 == n / 1000
  {
  }

  /** Division by 10 is determined by any quotient and remainder that fit. */
  lemma DivMod10(n: int, q: int, r: int)
    requires 0 <= r < 10 && n == 10 * q + r
    ensures n / 10 == q && n % 10 == r
  {
  }

  lemma DivMod100(n: int, q: int, r: int)
    requires 0 <= r < 100 && n == 100 * q + r
    ensures n / 100 == q && n % 100 == r
  {
  }

  lemma DivMod1000(n: int, q: int, r: int)
    requires 0 <= r < 1000 && n == 1000 * q + r
    ensures n / 1000 == q && n % 1000 == r
  {
  }

  lemma HundredsDigit(n: nat)
    ensures n % 1000 / 100 == n / 100 % 10
  {
    var x, y := n / 100, n % 100;
    var a, b := x / 10, x % 10;
    assert n == 1000 * a + (100 * b + y);
    DivMod1000(n, a, 100 * b + y);
    DivMod100(100 * b + y, b, y);
  }

  lemma TensDigit(n: nat)
    ensures n % 1000 / 10 % 10 == n / 10 % 10
  {
    var x, y := n / 10, n % 10;
    var a, b := x / 100, x % 100;
    assert n == 1000 * a + (10 * b + y);
    DivMod1000(n, a, 10 * b + y);
    DivMod10(10 * b + y, b, y);
    var c, d := b / 10, b % 10;
    assert x == 10 * (10 * a + c) + d;
    DivMod10(x, 10 * a + c, d);
  }

  lemma UnitsDigit(n: nat)
    ensures n % 1000 % 10 == n % 10
  {
    var r := n % 1000;
    var a, b := r / 10, r % 10;
    assert n == 10 * (100 * (n / 1000) + a) + b;
    DivMod10(n, 100 * (n / 1000) + a, b);
  }

  /** Splitting off the last three digits of a number of four or more digits. */
  lemma DecimalSplit(n: nat)
    requires n >= 1000
    ensures Decimal(n) == Decimal(n / 1000) + Pad3(n % 1000)
  {
    ThreeDigits(n);
    var m1, m2 := n / 10, n / 10 / 10;
    assert Decimal(n) == Decimal(m1) + [DigitChar(n % 10)];
    assert Decimal(m1) == Decimal(m2) + [DigitChar(m1 % 10)];
    assert Decimal(m2) == Decimal(n / 1000) + [DigitChar(m2 % 10)];
    assert Pad3(n % 1000) == [DigitChar(m2 % 10)] + [DigitChar(m1 % 10)] + [DigitChar(n % 10)];
  }

  /** With the separators removed, the rendering is the decimal representation. */
  lemma {:induction false} ThousandsDigits(n: nat)
    ensures Remove(Thousands(n), ' ') == Decimal(n)
  {
    if n < 1000 {
      assert Thousands(n) == Decimal(n);
      RemoveAbsent(Decimal(n), ' ');
    } else {
      ThousandsDigits(n / 1000);
      var p := Pad3(n % 1000);
      ThousandsStep(n);
      RemoveAppend(Thousands(n / 1000), " " + p, ' ');
      RemoveAppend(" ", p, ' ');
      RemoveAbsent(p, ' ');
      DecimalSplit(n);
    }
  }

  /** The rendering of a number of four digits or more ends in its last group. */
  lemma ThousandsStep(n: nat)
    requires n >= 1000
    ensures Thousands(n) == Thousands(n / 1000) + (" " + Pad3(n % 1000))
  {
    assert GroupHead(n) == GroupHead(n / 1000);
    assert GroupTail(n) == GroupTail(n / 1000) + " " + Pad3(n % 1000);
  }

  /** The same, with the sign, for any integer. */
  lemma RenderIntDigits(n: int)
    ensures Remove(RenderInt(n), ' ') == SignedDecimal(n)
  {
    if n < 0 {
      ThousandsDigits(-n);
      RemoveAppend("-", Thousands(-n), ' ');
    } else {
      ThousandsDigits(n);
    }
  }

  /**
   * The number `_amount_to_uzs` reads from an amount: spaces and underscores
   * dropped, commas read as decimal points. None when nothing is left or
   * `float()` rejects the rest.
   */
  function ParsedAmount(amount: string): (r: Option<real>)
    requires AllAmountChars(amount)
    ensures Ungrouped(amount) == [] ==> r == None
    ensures r.Some? ==> r.value >= 0.0
  {
    var raw := Ungrouped(amount);
    if raw == [] then None
    else
      var dotted := ReplaceChar(raw, ',', '.');
      RemoveKeepsAmountChars(amount, ' ');
      RemoveKeepsAmountChars(Remove(amount, ' '), '_');
      ParseFloat(dotted)
  }

  lemma {:induction false} RemoveKeepsAmountChars(s: string, c: char)
    requires AllAmountChars(s)
    ensures AllAmountChars(Remove(s, c))
  {
    if s != [] {
      RemoveKeepsAmountChars(s[1..], c);
    }
  }

  /**
   * `_amount_to_uzs(amount)`: None exactly when the amount does not parse;
   * otherwise the rounded product, in space-grouped thousands, whose digits
   * are those of the rounded product.
   */
  function AmountToUzs(amount: string, rate: real): (r: Option<string>)
    requires AllAmountChars(amount)
    ensures r.None? <==> ParsedAmount(amount).None?
    ensures r.Some? ==> Remove(r.value, ' ') == SignedDecimal(UzsValue(ParsedAmount(amount).value, rate))
  {
    match ParsedAmount(amount)
    case None => None
    case Some(v) =>
      var n := UzsValue(v, rate);
      RenderIntDigits(n);
      Some(RenderInt(n))
  }

  /** `int(round(amount * rate))`. */
  function UzsValue(amount: real, rate: real): (n: int)
    ensures n as real - amount * rate <= 0.5 && amount * rate - n as real <= 0.5
  {
    RoundHalfEven(amount * rate)
  }

  /** The digits of an amount once its spaces and underscores are dropped. */
  function Ungrouped(t: string): string {
    Remove(Remove(t, ' '), '_')
  }

  /** Removing the separators from digits and separators leaves the digits. */
  lemma {:induction false} UngroupGivesDigits(t: string)
    requires forall k :: 0 <= k < |t| ==> IsDigit(t[k]) || IsGroupSep(t[k])
    ensures AllDigits(Ungrouped(t))
    ensures |t| > 0 && IsDigit(t[0]) ==> |Ungrouped(t)| > 0
  {
    if t != [] {
      UngroupGivesDigits(t[1..]);
      assert t == [t[0]] + t[1..];
      RemoveAppend([t[0]], t[1..], ' ');
      RemoveAppend(Remove([t[0]], ' '), Remove(t[1..], ' '), '_');
      var x := Remove(Remove([t[0]], ' '), '_');
      assert x == [] || (x == [t[0]] && IsDigit(t[0]));
      assert IsDigit(t[0]) ==> x == [t[0]];
    }
  }

  /**
   * An amount written as digits with spaces or underscores between them
   * ("400", "150 000", "1_500") reads as the number its digits spell.
   */
  lemma GroupedAmountValue(t: string)
    requires t != [] && IsDigit(t[0])
    requires forall k :: 0 <= k < |t| ==> IsDigit(t[k]) || IsGroupSep(t[k])
    ensures AllAmountChars(t) && AllDigits(Ungrouped(t))
    ensures ParsedAmount(t) == Some(DigitsValue(Ungrouped(t)) as real)
  {
    UngroupGivesDigits(t);
    var raw := Ungrouped(t);
    assert forall k :: 0 <= k < |raw| ==> raw[k] != ',';
    assert ReplaceChar(raw, ',', '.') == raw;
    ParseFloatOfDigits(raw);
  }

  /** A plain run of digits reads as its value: "400" is 400. */
  lemma DigitAmountValue(t: string)
    requires t != [] && AllDigits(t)
    ensures AllAmountChars(t)
    ensures ParsedAmount(t) == Some(DigitsValue(t) as real)
  {
    GroupedAmountValue(t);
    RemoveAbsent(t, ' ');
    RemoveAbsent(t, '_');
  }

  /** A comma between digits is read as a decimal point, not as a thousands separator. */
  lemma CommaIsDecimalPoint(w: string, f: string)
    requires AllDigits(w) && AllDigits(f) && w != []
    ensures AllAmountChars(w + "," + f)
    ensures ParsedAmount(w + "," + f) == Some(DecimalValue(DigitsValue(w), DigitsValue(f), |f|))
  {
    var a := w + "," + f;
    RemoveAbsent(a, ' ');
    RemoveAbsent(a, '_');
    assert ReplaceChar(a, ',', '.') == w + "." + f;
    ParseFloatDecimal(w, f);
  }
}
