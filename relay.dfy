/**
 * The relay itself: the state the userbot keeps between events (whether
 * forwarding is on, the albums already sent, the dollar rate) and the
 * handlers that read it and queue messages for the target chat.
 *
 * Sending is modelled as appending to `outbox`, in the order the handlers
 * send; the Telegram client, the target chat and the logging are not.
 */
module Relay {
  import opened PyText
  import Prices
  import Gate
  import Rate

  /** A media attachment (photo, video, document, ...), known only by identity. */
  type Media = nat

  /**
   * A message as the handlers read it: whether it is a service message
   * (`action`), its album id, its text (`message`) and its media.
   */
  datatype Message = Message(action: bool, groupedId: Option<int>, text: Option<string>, media: Option<Media>)

  /** `msg.message or ""`. */
  function TextOf(m: Message): string {
    if m.text.Some? then m.text.value else ""
  }

  /** `grouped_id` is truthy: present and not zero. */
  predicate InAlbum(m: Message) {
    m.groupedId.Some? && m.groupedId.value != 0
  }

  /** What the userbot sends. */
  datatype Outbound =
    | SendFile(files: seq<Media>, caption: string)
    | SendMessage(text: string)
    | Reply(text: string)

  // ------------------------------------------------------------ single messages

  /**
   * What `forward_handler` sends for one new message in a source channel:
   * service messages, album parts and everything while forwarding is off are
   * skipped; media goes with the converted text as caption, text alone as a
   * message, and an empty message is not sent.
   */
  function ForwardOutcome(enabled: bool, rate: Option<real>, msg: Message): (r: Option<Outbound>)
    ensures r.Some? <==> enabled && !msg.action && !InAlbum(msg) && (msg.media.Some? || TextOf(msg) != [])
    ensures r.Some? && msg.media.Some? ==> r.value == SendFile([msg.media.value], Prices.ConvertPricesAsWritten(TextOf(msg), rate))
    ensures r.Some? && msg.media.None? ==> r.value == SendMessage(Prices.ConvertPricesAsWritten(TextOf(msg), rate))
  {
    if msg.action || InAlbum(msg) || !enabled then None
    else
      var text := Prices.ConvertPricesAsWritten(TextOf(msg), rate);
      if msg.media.Some? then Some(SendFile([msg.media.value], text))
      else if TextOf(msg) != [] then Some(SendMessage(text))
      else None
  }

  /** While forwarding is off nothing is sent, whatever the message. */
  lemma ForwardGated(rate: Option<real>, msg: Message)
    ensures ForwardOutcome(false, rate, msg).None?
  {
  }

  /** Without a rate the text is sent exactly as it was written. */
  lemma ForwardWithoutRate(msg: Message)
    requires ForwardOutcome(true, None, msg).Some?
    ensures msg.media.None? ==> ForwardOutcome(true, None, msg) == Some(SendMessage(TextOf(msg)))
    ensures msg.media.Some? ==> ForwardOutcome(true, None, msg) == Some(SendFile([msg.media.value], TextOf(msg)))
  {
  }

  /** A text without digits holds no price: it is sent unchanged whatever the rate. */
  lemma ForwardWithoutDigits(rate: Option<real>, msg: Message)
    requires forall k :: 0 <= k < |TextOf(msg)| ==> !IsDigit(TextOf(msg)[k])
    requires ForwardOutcome(true, rate, msg).Some?
    ensures msg.media.None? ==> ForwardOutcome(true, rate, msg) == Some(SendMessage(TextOf(msg)))
    ensures msg.media.Some? ==> ForwardOutcome(true, rate, msg) == Some(SendFile([msg.media.value], TextOf(msg)))
  {
    Prices.NoDigitsUnchanged(TextOf(msg), rate);
  }

  // ------------------------------------------------------------------- albums

  /** An album event: its id (if the event carries one) and its messages in order. */
  datatype Album = Album(groupedId: Option<int>, messages: seq<Message>)

  /** The media of the album's messages that are not service messages, in order. */
  function AlbumFiles(ms: seq<Message>): (r: seq<Media>)
    ensures |r| <= |ms|
  {
    if ms == [] then []
    else
      var last := ms[|ms| - 1];
      AlbumFiles(ms[..|ms| - 1]) + (if !last.action && last.media.Some? then [last.media.value] else [])
  }

  /** The text of the first message that is not a service message and has one, else "". */
  function FirstCaption(ms: seq<Message>): string {
    if ms == [] then ""
    else
      var c := FirstCaption(ms[..|ms| - 1]);
      var last := ms[|ms| - 1];
      if c != [] then c else if !last.action then TextOf(last) else ""
  }

  /** An album has files exactly when one of its ordinary messages carries media. */
  lemma {:induction false} AlbumFilesEmpty(ms: seq<Message>)
    ensures AlbumFiles(ms) == [] <==> forall k :: 0 <= k < |ms| ==> ms[k].action || ms[k].media.None?
  {
    if ms != [] {
      AlbumFilesEmpty(ms[..|ms| - 1]);
      assert forall k :: 0 <= k < |ms| - 1 ==> ms[..|ms| - 1][k] == ms[k];
    }
  }

  /** Every file sent is the media of an ordinary message of the album. */
  lemma {:induction false} AlbumFilesFromMessages(ms: seq<Message>)
    ensures forall j :: 0 <= j < |AlbumFiles(ms)| ==>
      exists k :: 0 <= k < |ms| && !ms[k].action && ms[k].media == Some(AlbumFiles(ms)[j])
  {
    if ms != [] {
      var front := ms[..|ms| - 1];
      AlbumFilesFromMessages(front);
      var r := AlbumFiles(ms);
      var last := ms[|ms| - 1];
      assert r == AlbumFiles(front) + (if !last.action && last.media.Some? then [last.media.value] else []);
      forall j | 0 <= j < |r| ensures exists k :: 0 <= k < |ms| && !ms[k].action && ms[k].media == Some(r[j]) {
        if j < |AlbumFiles(front)| {
          assert r[j] == AlbumFiles(front)[j];
          var k :| 0 <= k < |front| && !front[k].action && front[k].media == Some(AlbumFiles(front)[j]);
          assert ms[k] == front[k];
        } else {
          assert !last.action && last.media == Some(r[j]);
        }
      }
    } else {
      assert AlbumFiles(ms) == [];
    }
  }

  /**
   * The caption is the text of an ordinary message, and every ordinary
   * message before it has no text; or there is no such message and it is "".
   */
  lemma {:induction false} FirstCaptionIsFirst(ms: seq<Message>)
    ensures FirstCaption(ms) == [] ==> forall k :: 0 <= k < |ms| && !ms[k].action ==> TextOf(ms[k]) == []
    ensures FirstCaption(ms) != [] ==>
      exists k :: (0 <= k < |ms| && !ms[k].action && TextOf(ms[k]) == FirstCaption(ms)
        && (forall j :: 0 <= j < k && !ms[j].action ==> TextOf(ms[j]) == []))
  {
    if ms != [] {
      var front := ms[..|ms| - 1];
      FirstCaptionIsFirst(front);
      assert forall k :: 0 <= k < |front| ==> front[k] == ms[k];
      if FirstCaption(front) != [] {
        var k :| 0 <= k < |front| && !front[k].action && TextOf(front[k]) == FirstCaption(front)
          && (forall j :: 0 <= j < k && !front[j].action ==> TextOf(front[j]) == []);
        assert !ms[k].action && TextOf(ms[k]) == FirstCaption(ms);
      }
    }
  }

  /** The loop of `album_handler` that gathers the files and the caption. */
  method CollectAlbum(ms: seq<Message>) returns (files: seq<Media>, caption: string)
    ensures files == AlbumFiles(ms)
    ensures caption == FirstCaption(ms)
  {
    files := [];
    caption := "";
    var i := 0;
    while i < |ms|
      invariant 0 <= i <= |ms|
      invariant files == AlbumFiles(ms[..i])
      invariant caption == FirstCaption(ms[..i])
    {
      var m := ms[i];
      assert ms[..i + 1][..i] == ms[..i];
      if !m.action {
        if m.media.Some? {
          files := files + [m.media.value];
        }
        if caption == [] && TextOf(m) != [] {
          caption := TextOf(m);
        }
      }
      i := i + 1;
    }
    assert ms[..|ms|] == ms;
  }

  /** The ids recorded and the message sent by one album event. */
  datatype AlbumResult = AlbumResult(processed: set<int>, sent: Option<Outbound>)

  /**
   * What `album_handler` does with one album event: an empty event and any
   * event while forwarding is off change nothing; an album whose id is
   * recorded already is dropped, otherwise its id is recorded before its
   * files are looked at; an album without files sends nothing.
   */
  function AlbumStep(enabled: bool, processed: set<int>, rate: Option<real>, album: Album): (r: AlbumResult)
    ensures r.sent.Some? ==> r.sent.value == SendFile(AlbumFiles(album.messages), Prices.ConvertPricesAsWritten(FirstCaption(album.messages), rate))
    ensures r.sent.Some? ==> AlbumFiles(album.messages) != []
    ensures r.sent.Some? <==> (enabled && album.messages != [] && AlbumFiles(album.messages) != []
      && (album.groupedId.None? || album.groupedId.value !in processed))
    ensures r.processed == processed || (enabled && album.messages != [] && album.groupedId.Some?
      && album.groupedId.value !in processed && r.processed == processed + {album.groupedId.value})
    ensures processed <= r.processed
    ensures r.sent.Some? && album.groupedId.Some? ==> album.groupedId.value in r.processed
  {
    if album.messages == [] || !enabled then AlbumResult(processed, None)
    else if album.groupedId.Some? && album.groupedId.value in processed then AlbumResult(processed, None)
    else
      var ids := if album.groupedId.Some? then processed + {album.groupedId.value} else processed;
      var files := AlbumFiles(album.messages);
      if files == [] then AlbumResult(ids, None)
      else AlbumResult(ids, Some(SendFile(files, Prices.ConvertPricesAsWritten(FirstCaption(album.messages), rate))))
  }

  /** An album delivered twice under the same id is sent at most once. */
  lemma AlbumSentOnce(enabled: bool, processed: set<int>, rate: Option<real>, a: Album, b: Album)
    requires a.groupedId.Some? && b.groupedId == a.groupedId
    requires AlbumStep(enabled, processed, rate, a).sent.Some?
    ensures AlbumStep(enabled, AlbumStep(enabled, processed, rate, a).processed, rate, b) ==
      AlbumResult(AlbumStep(enabled, processed, rate, a).processed, None)
  {
  }

  /** An album with an id that was let through has its id recorded. */
  lemma AlbumRecorded(enabled: bool, processed: set<int>, rate: Option<real>, a: Album)
    requires enabled && a.messages != [] && a.groupedId.Some?
    ensures a.groupedId.value in AlbumStep(enabled, processed, rate, a).processed
  {
  }

  /** While forwarding is off an album is neither sent nor recorded. */
  lemma AlbumGated(processed: set<int>, rate: Option<real>, a: Album)
    ensures AlbumStep(false, processed, rate, a) == AlbumResult(processed, None)
  {
  }

  /** An album event together with the state of the gate and the rate when it arrives. */
  datatype AlbumEvent = AlbumEvent(enabled: bool, rate: Option<real>, album: Album)

  /** The ids recorded after a run of album events, and the id of each album sent, in order. */
  datatype AlbumRunResult = AlbumRunResult(processed: set<int>, sentIds: seq<Option<int>>)

  /** `album_handler` applied to each event of a run in turn. */
  function AlbumRun(processed: set<int>, events: seq<AlbumEvent>): AlbumRunResult {
    if events == [] then AlbumRunResult(processed, [])
    else
      var prev := AlbumRun(processed, events[..|events| - 1]);
      var e := events[|events| - 1];
      var step := AlbumStep(e.enabled, prev.processed, e.rate, e.album);
      AlbumRunResult(step.processed, prev.sentIds + (if step.sent.Some? then [e.album.groupedId] else []))
  }

  /**
   * Over any run of album events, however the gate and the rate change in
   * between: the recorded ids only grow, every album sent with an id had an
   * id not recorded at the start and recorded at the end, and no two albums
   * sent carry the same id.
   */
  lemma {:induction false} AlbumRunSendsOnce(processed: set<int>, events: seq<AlbumEvent>)
    ensures processed <= AlbumRun(processed, events).processed
    ensures var r := AlbumRun(processed, events);
      forall i :: 0 <= i < |r.sentIds| && r.sentIds[i].Some? ==>
        r.sentIds[i].value !in processed && r.sentIds[i].value in r.processed
    ensures var ids := AlbumRun(processed, events).sentIds;
      forall i, j :: 0 <= i < j < |ids| && ids[i].Some? ==> ids[j] != ids[i]
  {
    if events != [] {
      var front := events[..|events| - 1];
      AlbumRunSendsOnce(processed, front);
      var prev := AlbumRun(processed, front);
      var e := events[|events| - 1];
      var step := AlbumStep(e.enabled, prev.processed, e.rate, e.album);
      var ids := AlbumRun(processed, events).sentIds;
      assert ids == prev.sentIds + (if step.sent.Some? then [e.album.groupedId] else []);
      forall i | 0 <= i < |ids| && ids[i].Some?
        ensures ids[i].value !in processed && ids[i].value in step.processed
      {
        if i < |prev.sentIds| {
          assert ids[i] == prev.sentIds[i];
        }
      }
      forall i, j | 0 <= i < j < |ids| && ids[i].Some?
        ensures ids[j] != ids[i]
      {
        if j < |prev.sentIds| {
          assert ids[i] == prev.sentIds[i] && ids[j] == prev.sentIds[j];
        } else {
          assert ids[i] == prev.sentIds[i];
          assert ids[i].value in prev.processed;
        }
      }
    }
  }

  // -------------------------------------------------------------- the userbot

  /** A moment the rate task wakes up: the seconds since local midnight, and what the feed answered. */
  datatype Tick = Tick(now: real, fetch: Rate.Fetch)

  function Fetches(ticks: seq<Tick>): (r: seq<Rate.Fetch>)
    ensures |r| == |ticks|
    ensures forall k :: 0 <= k < |ticks| ==> r[k] == ticks[k].fetch
  {
    if ticks == [] then [] else Fetches(ticks[..|ticks| - 1]) + [ticks[|ticks| - 1].fetch]
  }

  /** The pause before each tick's refresh. */
  function Pauses(ticks: seq<Tick>): (r: seq<real>)
    ensures |r| == |ticks|
    ensures forall k :: 0 <= k < |ticks| ==> r[k] == Rate.SleepSeconds(ticks[k].now)
  {
    if ticks == [] then [] else Pauses(ticks[..|ticks| - 1]) + [Rate.SleepSeconds(ticks[|ticks| - 1].now)]
  }

  /** One more round of the schedule: one more fetch, one more pause, and the rate that follows. */
  lemma ScheduleStep(prev: Option<real>, first: Rate.Fetch, ticks: seq<Tick>, i: int)
    requires 0 <= i < |ticks|
    ensures Rate.LatestRate(prev, [first] + Fetches(ticks[..i + 1])) ==
      Rate.UpdatedRate(Rate.LatestRate(prev, [first] + Fetches(ticks[..i])), ticks[i].fetch)
    ensures Pauses(ticks[..i + 1]) == Pauses(ticks[..i]) + [Rate.SleepSeconds(ticks[i].now)]
  {
    assert ticks[..i + 1][..i] == ticks[..i];
    assert [first] + Fetches(ticks[..i + 1]) == ([first] + Fetches(ticks[..i])) + [ticks[i].fetch];
    Rate.LatestRateSnoc(prev, [first] + Fetches(ticks[..i]), ticks[i].fetch);
  }

  /** The messages a possible reply becomes. */
  function Replies(reply: Option<Gate.Ack>): seq<Outbound> {
    if reply.Some? then [Reply(Gate.AckText(reply.value))] else []
  }

  /** The state shared by the handlers and the rate task. */
  class Forwarder {
    /** `FORWARD_ENABLED` */
    var enabled: bool
    /** `PROCESSED_ALBUM_IDS` */
    var processed: set<int>
    /** `USD_TO_UZS_RATE` */
    var rate: Option<real>
    /** Everything sent so far, in order. */
    var outbox: seq<Outbound>

    /** Start-up: forwarding on, no album seen, the rate from the environment. */
    constructor(rateEnv: Option<string>)
      ensures enabled && processed == {} && outbox == []
      ensures rate == Rate.InitialRate(rateEnv)
    {
      enabled := true;
      processed := {};
      rate := Rate.InitialRate(rateEnv);
      outbox := [];
    }

    /** `forward_handler` */
    method ForwardHandler(msg: Message)
      modifies this`outbox
      ensures ForwardOutcome(old(enabled), old(rate), msg).None? ==> outbox == old(outbox)
      ensures ForwardOutcome(old(enabled), old(rate), msg).Some? ==> outbox == old(outbox) + [ForwardOutcome(old(enabled), old(rate), msg).value]
    {
      if msg.action {
        return;
      }
      if InAlbum(msg) {
        return;
      }
      if !enabled {
        return;
      }
      var text := Prices.ConvertPricesAsWritten(TextOf(msg), rate);
      if msg.media.Some? {
        outbox := outbox + [SendFile([msg.media.value], text)];
      } else if TextOf(msg) != [] {
        outbox := outbox + [SendMessage(text)];
      }
    }

    /** `album_handler` */
    method AlbumHandler(album: Album)
      modifies this`processed, this`outbox
      ensures processed == AlbumStep(old(enabled), old(processed), old(rate), album).processed
      ensures AlbumStep(old(enabled), old(processed), old(rate), album).sent.None? ==> outbox == old(outbox)
      ensures AlbumStep(old(enabled), old(processed), old(rate), album).sent.Some? ==>
        outbox == old(outbox) + [AlbumStep(old(enabled), old(processed), old(rate), album).sent.value]
    {
      if album.messages == [] {
        return;
      }
      if !enabled {
        return;
      }
      if album.groupedId.Some? {
        if album.groupedId.value in processed {
          return;
        }
        processed := processed + {album.groupedId.value};
      }
      var files, caption := CollectAlbum(album.messages);
      if files == [] {
        return;
      }
      outbox := outbox + [SendFile(files, Prices.ConvertPricesAsWritten(caption, rate))];
    }

    /** `control_handler`: the gate, with its acknowledgement queued as a reply. */
    method ControlHandler(c: Gate.Control)
      modifies this`enabled, this`outbox
      ensures enabled == Gate.ControlStep(old(enabled), c).enabled
      ensures outbox == old(outbox) + Replies(Gate.ControlStep(old(enabled), c).reply)
    {
      if !c.isPrivate {
        return;
      }
      if !c.outgoing {
        return;
      }
      var command := Gate.ParseCommand(c.text);
      if command == Gate.Stop {
        if !enabled {
          return;
        }
        enabled := false;
        outbox := outbox + [Reply(Gate.AckText(Gate.Stopped))];
      } else if command == Gate.Start {
        if enabled {
          return;
        }
        enabled := true;
        outbox := outbox + [Reply(Gate.AckText(Gate.Started))];
      }
    }

    /** `_update_usd_rate_once`: take the fetched rate, or keep the old one on any failure. */
    method UpdateRateOnce(f: Rate.Fetch)
      modifies this`rate
      ensures rate == Rate.UpdatedRate(old(rate), f)
    {
      if f.RequestFailed? {
        return;
      }
      if f.status != 200 || f.body.None? {
        return;
      }
      var field := Rate.RateField(f.body.value);
      if field.None? {
        return;
      }
      var value := Rate.JsonFloat(field.value);
      if value.None? {
        return;
      }
      rate := value;
    }

    /** One turn of the rate task's loop: sleep until the next midnight, then refresh. */
    method Wake(tick: Tick) returns (pause: real)
      modifies this`rate
      ensures rate == Rate.UpdatedRate(old(rate), tick.fetch)
      ensures pause > 0.0 && pause == Rate.SleepSeconds(tick.now)
    {
      pause := Rate.SleepSeconds(tick.now);
      UpdateRateOnce(tick.fetch);
    }

    /**
     * `_schedule_usd_rate_updates`, up to its last wake-up: one refresh at
     * once, then for each tick a sleep to the next midnight and a refresh.
     * Returns the pauses it slept.
     */
    method RunSchedule(first: Rate.Fetch, ticks: seq<Tick>) returns (sleeps: seq<real>)
      modifies this`rate
      ensures rate == Rate.LatestRate(old(rate), [first] + Fetches(ticks))
      ensures |sleeps| == |ticks|
      ensures forall k :: 0 <= k < |ticks| ==> sleeps[k] > 0.0 && sleeps[k] == Rate.SleepSeconds(ticks[k].now)
    {
      UpdateRateOnce(first);
      assert ticks[..0] == [];
      sleeps := [];
      var i := 0;
      while i < |ticks|
        invariant 0 <= i <= |ticks|
        invariant rate == Rate.LatestRate(old(rate), [first] + Fetches(ticks[..i]))
        invariant sleeps == Pauses(ticks[..i])
      {
        ScheduleStep(old(rate), first, ticks, i);
        var pause := Wake(ticks[i]);
        sleeps := sleeps + [pause];
        i := i + 1;
      }
      assert ticks[..|ticks|] == ticks;
    }
  }
}
