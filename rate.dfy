/**
 * The dollar rate: read once from the environment at start-up, then
 * refreshed from the daily rate feed right away and after every local
 * midnight. A failed refresh keeps the rate it had.
 */
module Rate {
  import opened PyText
  import opened Amounts

  /** A JSON value as `resp.json()` decodes it. */
  datatype Json =
    | JNull
    | JBool(b: bool)
    | JNumber(x: real)
    | JString(s: string)
    | JArray(items: seq<Json>)
    | JObject(fields: map<string, Json>)

  /**
   * What one request to the feed came to: the request failed (connection,
   * time-out), or a status line and, when the body is valid JSON, its value.
   */
  datatype Fetch = RequestFailed | Response(status: int, body: Option<Json>)

  /**
   * `float(x)` on a decoded JSON value: numbers as they are, booleans as 0
   * and 1, strings as `float()` reads them; anything else is a TypeError.
   */
  function JsonFloat(v: Json): (r: Option<real>)
    ensures v.JNumber? ==> r == Some(v.x)
    ensures v.JNull? || v.JArray? || v.JObject? ==> r.None?
  {
    match v
    case JNumber(x) => Some(x)
    case JBool(b) => Some(if b then 1.0 else 0.0)
    case JString(s) => ParseRateText(s)
    case _ => None
  }

  /** `float(text)` for the forms a rate is written in: digits with at most one dot. */
  function ParseRateText(s: string): (r: Option<real>)
    ensures !FloatInputChars(s) ==> r.None?
    ensures r.Some? ==> r.value >= 0.0
  {
    if FloatInputChars(s) then ParseFloat(s) else None
  }

  /** `data["uzs"]["rate"]`: a KeyError or TypeError on the way is no rate. */
  function RateField(data: Json): (r: Option<Json>)
    ensures r.Some? <==>
      (data.JObject? && "uzs" in data.fields && data.fields["uzs"].JObject? && "rate" in data.fields["uzs"].fields)
    ensures r.Some? ==> r.value == data.fields["uzs"].fields["rate"]
  {
    if data.JObject? && "uzs" in data.fields then
      var uzs := data.fields["uzs"];
      if uzs.JObject? && "rate" in uzs.fields then Some(uzs.fields["rate"]) else None
    else None
  }

  /**
   * The rate a fetch yields, if it yields one: only a 200 response whose body
   * decodes and holds `uzs.rate` can, and then the rate is `float()` of that
   * field, which may still fail.
   */
  function FetchedRate(f: Fetch): (r: Option<real>)
    ensures f.RequestFailed? || (f.Response? && (f.status != 200 || f.body.None?)) ==> r.None?
    ensures r.Some? ==> f.Response? && f.status == 200 && f.body.Some? && RateField(f.body.value).Some?
    ensures f.Response? && f.status == 200 && f.body.Some? && RateField(f.body.value).Some? ==>
      r == JsonFloat(RateField(f.body.value).value)
  {
    match f
    case RequestFailed => None
    case Response(status, body) =>
      if status != 200 || body.None? then None
      else
        match RateField(body.value)
        case None => None
        case Some(v) => JsonFloat(v)
  }

  /** `_update_usd_rate_once`: the fetched rate if there is one, else the rate held before. */
  function UpdatedRate(prev: Option<real>, f: Fetch): (r: Option<real>)
    ensures FetchedRate(f).None? ==> r == prev
    ensures FetchedRate(f).Some? ==> r == FetchedRate(f)
  {
    match FetchedRate(f)
    case None => prev
    case Some(x) => Some(x)
  }

  /** The rate after a sequence of refreshes: the last one that succeeded wins. */
  function LatestRate(prev: Option<real>, fs: seq<Fetch>): Option<real>
    decreases |fs|
  {
    if fs == [] then prev else LatestRate(UpdatedRate(prev, fs[0]), fs[1..])
  }

  /** If no refresh in the sequence succeeds, the rate is the one held before. */
  lemma {:induction false} FailuresKeepRate(prev: Option<real>, fs: seq<Fetch>)
    requires forall k :: 0 <= k < |fs| ==> FetchedRate(fs[k]).None?
    ensures LatestRate(prev, fs) == prev
    decreases |fs|
  {
    if fs != [] {
      FailuresKeepRate(prev, fs[1..]);
    }
  }

  /** The rate is that of the last successful refresh, whatever came before it. */
  lemma {:induction false} LastSuccessWins(prev: Option<real>, fs: seq<Fetch>, k: nat)
    requires k < |fs| && FetchedRate(fs[k]).Some?
    requires forall j :: k < j < |fs| ==> FetchedRate(fs[j]).None?
    ensures LatestRate(prev, fs) == FetchedRate(fs[k])
    decreases |fs|
  {
    if k == 0 {
      FailuresKeepRate(UpdatedRate(prev, fs[0]), fs[1..]);
    } else {
      LastSuccessWins(UpdatedRate(prev, fs[0]), fs[1..], k - 1);
    }
  }

  /** Refreshing one more time extends the sequence of refreshes. */
  lemma {:induction false} LatestRateSnoc(prev: Option<real>, fs: seq<Fetch>, f: Fetch)
    ensures LatestRate(prev, fs + [f]) == UpdatedRate(LatestRate(prev, fs), f)
    decreases |fs|
  {
    if fs == [] {
      assert fs + [f] == [f];
    } else {
      assert (fs + [f])[1..] == fs[1..] + [f];
      LatestRateSnoc(UpdatedRate(prev, fs[0]), fs[1..], f);
    }
  }

  /** `USD_TO_UZS_RATE` at start-up: unset or empty gives no rate, as does a ValueError. */
  function InitialRate(env: Option<string>): (r: Option<real>)
    ensures env.None? || env == Some([]) ==> r.None?
    ensures env.Some? && !FloatInputChars(env.value) ==> r.None?
    ensures r.Some? ==> r.value >= 0.0
  {
    if env.None? || env.value == [] then None else ParseRateText(env.value)
  }

  /**
   * A set `USD_TO_UZS_RATE` reads as `float()` of it: "12500" as 12500.0,
   * "12500.75" as its decimal value.
   */
  lemma InitialRateValue(n: nat, w: string, f: string)
    requires AllDigits(w) && AllDigits(f) && w != []
    ensures InitialRate(Some(Decimal(n))) == Some(n as real)
    ensures InitialRate(Some(w + "." + f)) == Some(DecimalValue(DigitsValue(w), DigitsValue(f), |f|))
  {
    ParseFloatOfDecimal(n);
    ParseFloatDecimal(w, f);
  }

  const SecondsPerDay: real := 86400.0

  /**
   * The pause before the next refresh, `now` being the seconds since the
   * last local midnight: the time left until the next midnight, or a whole
   * day when that is not positive.
   */
  function SleepSeconds(now: real): (r: real)
    ensures r > 0.0
    ensures now + r == SecondsPerDay || r == SecondsPerDay
  {
    var left := SecondsPerDay - now;
    if left <= 0.0 then SecondsPerDay else left
  }

  /** At any time of day the pause ends exactly at the next midnight, within a day. */
  lemma SleepUntilMidnight(now: real)
    requires 0.0 <= now < SecondsPerDay
    ensures now + SleepSeconds(now) == SecondsPerDay
    ensures 0.0 < SleepSeconds(now) <= SecondsPerDay
  {
  }
}
