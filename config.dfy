/**
 * The settings read from the environment at start-up that decide where
 * messages come from and where they go: the source channels and the target
 * chat.
 */
module Config {
  import opened PyText

  datatype Result<T> = Ok(value: T) | Err(message: string)

  /** The pieces of `s` between occurrences of `c`: `s.split(c)`. */
  function Split(s: string, c: char): (r: seq<string>)
    ensures |r| >= 1
    ensures forall k :: 0 <= k < |r| ==> c !in r[k]
    decreases |s|
  {
    var k := IndexOf(s, c);
    if k == |s| then [s] else [s[..k]] + Split(s[k + 1..], c)
  }

  /** `c.join(parts)`. */
  function Join(parts: seq<string>, c: char): string
    requires |parts| >= 1
  {
    if |parts| == 1 then parts[0] else parts[0] + [c] + Join(parts[1..], c)
  }

  /** Joining the pieces again gives back the text that was split. */
  lemma {:induction false} JoinSplit(s: string, c: char)
    ensures Join(Split(s, c), c) == s
    decreases |s|
  {
    var k := IndexOf(s, c);
    if k < |s| {
      var rest := Split(s[k + 1..], c);
      JoinSplit(s[k + 1..], c);
      assert Split(s, c) == [s[..k]] + rest;
      assert ([s[..k]] + rest)[1..] == rest;
      assert s == s[..k] + [c] + s[k + 1..];
    }
  }

  /** Each piece stripped. */
  function StripAll(pieces: seq<string>): seq<string> {
    seq(|pieces|, j requires 0 <= j < |pieces| => Strip(pieces[j]))
  }

  /** The texts that are not empty, in order. */
  function NonEmpty(ts: seq<string>): (r: seq<string>)
    ensures |r| <= |ts|
    ensures forall k :: 0 <= k < |r| ==> r[k] != []
  {
    if ts == [] then []
    else if ts[0] == [] then NonEmpty(ts[1..])
    else [ts[0]] + NonEmpty(ts[1..])
  }

  /** The stripped pieces that are not empty, in order. */
  function NonEmptyStripped(pieces: seq<string>): (r: seq<string>)
    ensures |r| <= |pieces|
    ensures forall k :: 0 <= k < |r| ==> r[k] != [] && !IsSpace(r[k][0]) && !IsSpace(r[k][|r[k]| - 1])
  {
    ChannelsTrimmed(pieces);
    NonEmpty(StripAll(pieces))
  }

  /**
   * `SOURCE_CHANNELS`: unset or empty is an error; otherwise the
   * comma-separated names, stripped, with the empty ones dropped.
   */
  function SourceChannels(env: Option<string>): (r: Result<seq<string>>)
    ensures r.Err? <==> env.None? || env.value == []
    ensures r.Ok? ==> |r.value| <= |Split(env.value, ',')|
    ensures r.Ok? ==> forall k :: 0 <= k < |r.value| ==> r.value[k] != [] && !IsSpace(r.value[k][0])
  {
    if env.None? || env.value == [] then Err("SOURCE_CHANNELS must be set in .env")
    else Ok(NonEmptyStripped(Split(env.value, ',')))
  }

  /** No channel name holds a comma. */
  lemma ChannelsHaveNoComma(pieces: seq<string>)
    requires forall k :: 0 <= k < |pieces| ==> ',' !in pieces[k]
    ensures forall k :: 0 <= k < |NonEmptyStripped(pieces)| ==> ',' !in NonEmptyStripped(pieces)[k]
  {
    var r := NonEmptyStripped(pieces);
    forall k | 0 <= k < |r| ensures ',' !in r[k] {
      PieceOfChannel(pieces, k);
      var j :| 0 <= j < |pieces| && r[k] == Strip(pieces[j]) && |NonEmpty(StripAll(pieces[..j]))| == k;
      StripTrims(pieces[j]);
    }
  }

  /**
   * A set `SOURCE_CHANNELS` gives channel names that are not empty, hold no
   * comma and are their own strip.
   */
  lemma SourceChannelsClean(v: string)
    requires v != []
    ensures SourceChannels(Some(v)).Ok?
    ensures forall k :: 0 <= k < |SourceChannels(Some(v)).value| ==>
      var ch := SourceChannels(Some(v)).value[k]; ch != [] && ',' !in ch && Strip(ch) == ch
  {
    var chs := SourceChannels(Some(v)).value;
    ChannelsHaveNoComma(Split(v, ','));
    forall k | 0 <= k < |chs| ensures Strip(chs[k]) == chs[k] {
      StripKeeps(chs[k]);
    }
  }

  /** Dropping the empty texts distributes over concatenation. */
  lemma {:induction false} NonEmptyAppend(a: seq<string>, b: seq<string>)
    ensures NonEmpty(a + b) == NonEmpty(a) + NonEmpty(b)
  {
    if a == [] {
      assert a + b == b;
    } else {
      assert (a + b)[0] == a[0];
      assert (a + b)[1..] == a[1..] + b;
      NonEmptyAppend(a[1..], b);
    }
  }

  /**
   * Every text that is not empty is kept, after exactly the texts kept from
   * before it.
   */
  lemma NonEmptyKeeps(ts: seq<string>, j: int)
    requires 0 <= j < |ts| && ts[j] != []
    ensures |NonEmpty(ts[..j])| < |NonEmpty(ts)|
    ensures NonEmpty(ts)[|NonEmpty(ts[..j])|] == ts[j]
  {
    assert ts == ts[..j] + ([ts[j]] + ts[j + 1..]);
    NonEmptyAppend(ts[..j], [ts[j]] + ts[j + 1..]);
    assert ([ts[j]] + ts[j + 1..])[1..] == ts[j + 1..];
  }

  /** Every text kept comes from a position whose predecessors gave the ones before it. */
  lemma {:induction false} NonEmptyFrom(ts: seq<string>, k: int)
    requires 0 <= k < |NonEmpty(ts)|
    ensures exists j :: 0 <= j < |ts| && NonEmpty(ts)[k] == ts[j] && |NonEmpty(ts[..j])| == k
  {
    var rest := ts[1..];
    assert ts[..0] == [];
    if ts[0] != [] && k == 0 {
      assert NonEmpty(ts)[k] == ts[0];
    } else {
      var k' := if ts[0] == [] then k else k - 1;
      NonEmptyFrom(rest, k');
      var j' :| 0 <= j' < |rest| && NonEmpty(rest)[k'] == rest[j'] && |NonEmpty(rest[..j'])| == k';
      assert ts[..j' + 1][0] == ts[0];
      assert ts[..j' + 1][1..] == rest[..j'];
      assert ts[j' + 1] == rest[j'];
    }
  }

  /** Stripping a prefix of the pieces is a prefix of the stripped pieces. */
  lemma StripAllPrefix(pieces: seq<string>, j: int)
    requires 0 <= j <= |pieces|
    ensures StripAll(pieces[..j]) == StripAll(pieces)[..j]
  {
  }

  /** Each piece that is not blank gives a channel, after those of the pieces before it. */
  lemma ChannelOfPiece(pieces: seq<string>, j: int)
    requires 0 <= j < |pieces| && Strip(pieces[j]) != []
    ensures |NonEmpty(StripAll(pieces[..j]))| < |NonEmpty(StripAll(pieces))|
    ensures NonEmpty(StripAll(pieces))[|NonEmpty(StripAll(pieces[..j]))|] == Strip(pieces[j])
  {
    StripAllPrefix(pieces, j);
    NonEmptyKeeps(StripAll(pieces), j);
  }

  /** Each channel is the strip of a piece, and the pieces before it give the channels before it. */
  lemma PieceOfChannel(pieces: seq<string>, k: int)
    requires 0 <= k < |NonEmpty(StripAll(pieces))|
    ensures exists j :: (0 <= j < |pieces| && NonEmpty(StripAll(pieces))[k] == Strip(pieces[j])
      && |NonEmpty(StripAll(pieces[..j]))| == k)
  {
    var ts := StripAll(pieces);
    NonEmptyFrom(ts, k);
    var j :| 0 <= j < |ts| && NonEmpty(ts)[k] == ts[j] && |NonEmpty(ts[..j])| == k;
    StripAllPrefix(pieces, j);
  }

  /** No channel has white space at either end. */
  lemma ChannelsTrimmed(pieces: seq<string>)
    ensures forall k :: 0 <= k < |NonEmpty(StripAll(pieces))| ==>
      !IsSpace(NonEmpty(StripAll(pieces))[k][0]) && !IsSpace(NonEmpty(StripAll(pieces))[k][|NonEmpty(StripAll(pieces))[k]| - 1])
  {
    var r := NonEmpty(StripAll(pieces));
    forall k | 0 <= k < |r| ensures !IsSpace(r[k][0]) && !IsSpace(r[k][|r[k]| - 1]) {
      PieceOfChannel(pieces, k);
    }
  }

  /**
   * Each of the `pieces` that is not blank gives, stripped, the channel of
   * `chs` placed after those of the pieces before it.
   */
  predicate KeepsEveryPiece(pieces: seq<string>, chs: seq<string>) {
    forall j :: 0 <= j < |pieces| && Strip(pieces[j]) != [] ==>
      |NonEmptyStripped(pieces[..j])| < |chs| && chs[|NonEmptyStripped(pieces[..j])|] == Strip(pieces[j])
  }

  /** Each channel of `chs` is a stripped piece, after those of the pieces before it. */
  predicate OnlyPieces(pieces: seq<string>, chs: seq<string>) {
    forall k :: 0 <= k < |chs| ==>
      exists j :: 0 <= j < |pieces| && chs[k] == Strip(pieces[j]) && |NonEmptyStripped(pieces[..j])| == k
  }

  lemma ChannelsKeepPieces(pieces: seq<string>)
    ensures KeepsEveryPiece(pieces, NonEmptyStripped(pieces))
  {
    forall j | 0 <= j < |pieces| && Strip(pieces[j]) != []
      ensures |NonEmptyStripped(pieces[..j])| < |NonEmptyStripped(pieces)|
      ensures NonEmptyStripped(pieces)[|NonEmptyStripped(pieces[..j])|] == Strip(pieces[j])
    {
      ChannelOfPiece(pieces, j);
    }
  }

  lemma ChannelsOnlyPieces(pieces: seq<string>)
    ensures OnlyPieces(pieces, NonEmptyStripped(pieces))
  {
    var chs := NonEmptyStripped(pieces);
    forall k | 0 <= k < |chs|
      ensures exists j :: 0 <= j < |pieces| && chs[k] == Strip(pieces[j]) && |NonEmptyStripped(pieces[..j])| == k
    {
      PieceOfChannel(pieces, k);
      var j :| 0 <= j < |pieces| && chs[k] == Strip(pieces[j]) && |NonEmpty(StripAll(pieces[..j]))| == k;
      assert |NonEmptyStripped(pieces[..j])| == k;
    }
  }

  /**
   * The channels read from a set `SOURCE_CHANNELS` are exactly its stripped
   * comma-separated pieces that are not blank, in order.
   */
  lemma SourceChannelsArePieces(v: string)
    requires v != []
    ensures SourceChannels(Some(v)).Ok?
    ensures KeepsEveryPiece(Split(v, ','), SourceChannels(Some(v)).value)
    ensures OnlyPieces(Split(v, ','), SourceChannels(Some(v)).value)
  {
    ChannelsKeepPieces(Split(v, ','));
    ChannelsOnlyPieces(Split(v, ','));
  }

  /** The chat to forward to: a numeric id or a user name. */
  datatype Target = ChatId(id: int) | Username(name: string)

  /** `s.lstrip("-")` */
  function DropDashes(s: string): (r: string)
    ensures |r| <= |s| && r == s[|s| - |r|..]
    ensures forall k :: 0 <= k < |s| - |r| ==> s[k] == '-'
    ensures r == [] || r[0] != '-'
  {
    if s != [] && s[0] == '-' then DropDashes(s[1..]) else s
  }

  /** `str.isdigit()` for ASCII text. */
  predicate IsDigitString(s: string) {
    s != [] && AllDigits(s)
  }

  /** How many dashes `lstrip("-")` removes. */
  function Dashes(s: string): nat {
    |s| - |DropDashes(s)|
  }

  /**
   * `int(s)` on a text whose dash-stripped part is all digits: one leading
   * minus sign is a negative number, two or more are a ValueError.
   */
  function IntOfDashedDigits(s: string): (r: Option<int>)
    requires IsDigitString(DropDashes(s))
    ensures r.None? <==> Dashes(s) >= 2
    ensures Dashes(s) == 0 ==> r == Some(DigitsValue(s))
  {
    var n := DigitsValue(DropDashes(s));
    if Dashes(s) == 0 then Some(n)
    else if Dashes(s) == 1 then Some(0 - n)
    else None
  }

  /**
   * `TARGET_CHAT`: unset or empty is an error. When what follows the leading
   * dashes is all digits the value goes through `int()`; otherwise it is a
   * user name.
   */
  function ParseTarget(env: Option<string>): (r: Result<Target>)
    ensures env.None? || env == Some([]) ==> r.Err?
    ensures env.Some? && env.value != [] && !IsDigitString(DropDashes(env.value)) ==> r == Ok(Username(env.value))
    ensures env.Some? && IsDigitString(DropDashes(env.value)) ==> (r.Err? <==> Dashes(env.value) >= 2)
    ensures r.Ok? && r.value.ChatId? ==> IsDigitString(DropDashes(env.value))
  {
    if env.None? || env.value == [] then Err("TARGET_CHAT must be set in .env")
    else if !IsDigitString(DropDashes(env.value)) then Ok(Username(env.value))
    else
      match IntOfDashedDigits(env.value)
      case Some(id) => Ok(ChatId(id))
      case None => Err("invalid literal for int() with base 10")
  }

  /** Digits have no dash to strip. */
  lemma NoDashesOnDigits(d: string)
    requires IsDigitString(d)
    ensures DropDashes(d) == d && Dashes(d) == 0
  {
    assert d[0] != '-';
  }

  /** A minus sign in front of digits is the one dash stripped. */
  lemma OneDashBeforeDigits(s: string)
    requires |s| >= 2 && s[0] == '-' && IsDigitString(s[1..])
    ensures DropDashes(s) == s[1..] && Dashes(s) == 1
  {
    NoDashesOnDigits(s[1..]);
  }

  /** A number with at most one minus sign is a chat id. */
  lemma NumericTarget(s: string)
    requires s != [] && IsDigitString(DropDashes(s)) && Dashes(s) <= 1
    ensures ParseTarget(Some(s)) == Ok(ChatId(IntOfDashedDigits(s).value))
  {
  }

  /** A minus sign before the digits of `n` reads as `-n`. */
  lemma NegatedDigits(s: string, n: nat)
    requires |s| >= 2 && s[0] == '-' && IsDigitString(s[1..]) && DigitsValue(s[1..]) == n
    ensures ParseTarget(Some(s)) == Ok(ChatId(0 - n))
  {
    OneDashBeforeDigits(s);
    NumericTarget(s);
  }

  lemma NegativeIdRoundTrip(id: int)
    requires id < 0
    ensures ParseTarget(Some("-" + Decimal(-id))) == Ok(ChatId(id))
  {
    var s := "-" + Decimal(-id);
    assert s[1..] == Decimal(-id);
    DigitsValueOfDecimal(-id);
    NegatedDigits(s, -id);
  }

  lemma NonNegativeIdRoundTrip(id: nat)
    ensures ParseTarget(Some(Decimal(id))) == Ok(ChatId(id))
  {
    var d := Decimal(id);
    NoDashesOnDigits(d);
    DigitsValueOfDecimal(id);
    assert IntOfDashedDigits(d).value == id;
    NumericTarget(d);
  }

  /** A chat id written out as `str()` writes it is read back as that id. */
  lemma TargetRoundTrip(id: int)
    ensures ParseTarget(Some(SignedDecimal(id))) == Ok(ChatId(id))
  {
    if id < 0 {
      NegativeIdRoundTrip(id);
    } else {
      NonNegativeIdRoundTrip(id);
    }
  }
}
