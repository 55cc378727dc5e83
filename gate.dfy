/**
 * `control_handler`: the account's own private messages "/stop", "stop",
 * "стоп" and "/start", "start", "пуск" (any case, surrounding white space
 * ignored) switch forwarding off and on, and acknowledge a change.
 */
module Gate {
  import opened PyText

  datatype Command = Stop | Start | NoCommand

  const StopWords: set<string> := {"/stop", "stop", "стоп"}
  const StartWords: set<string> := {"/start", "start", "пуск"}

  /** The command a text names once stripped and lower-cased. */
  function ParseCommand(text: string): Command {
    var t := Lower(Strip(text));
    if t in StopWords then Stop
    else if t in StartWords then Start
    else NoCommand
  }

  /** The acknowledgements of the two transitions. */
  datatype Ack = Stopped | Started

  /** The reply text of an acknowledgement. */
  function AckText(a: Ack): string {
    match a
    case Stopped => "Forwarding stopped."
    case Started => "Forwarding started."
  }

  /** A message as `control_handler` sees it; a missing text is the empty string. */
  datatype Control = Control(isPrivate: bool, outgoing: bool, text: string)

  /** The new state of the gate and the acknowledgement sent, if any. */
  datatype GateStep = GateStep(enabled: bool, reply: Option<Ack>)

  /**
   * The two-state machine: a command that would not change the state is
   * ignored; a real transition is acknowledged.
   */
  function Transition(enabled: bool, command: Command): (r: GateStep)
    ensures r.reply.Some? <==> r.enabled != enabled
    ensures r.reply == Some(Stopped) <==> enabled && !r.enabled
    ensures r.reply == Some(Started) <==> !enabled && r.enabled
    ensures command == Stop ==> !r.enabled
    ensures command == Start ==> r.enabled
    ensures command == NoCommand ==> r == GateStep(enabled, None)
  {
    match command
    case Stop => if !enabled then GateStep(enabled, None) else GateStep(false, Some(Stopped))
    case Start => if enabled then GateStep(enabled, None) else GateStep(true, Some(Started))
    case NoCommand => GateStep(enabled, None)
  }

  /**
   * One call of `control_handler`: only private messages the account sent
   * itself count.
   */
  function ControlStep(enabled: bool, c: Control): (r: GateStep)
    ensures !c.isPrivate || !c.outgoing ==> r == GateStep(enabled, None)
    ensures c.isPrivate && c.outgoing ==> r == Transition(enabled, ParseCommand(c.text))
  {
    if !c.isPrivate || !c.outgoing then GateStep(enabled, None)
    else Transition(enabled, ParseCommand(c.text))
  }

  /** Sending the same command twice acts once: the second is silently ignored. */
  lemma ControlIdempotent(enabled: bool, c: Control)
    ensures ControlStep(ControlStep(enabled, c).enabled, c) == GateStep(ControlStep(enabled, c).enabled, None)
  {
  }

  /** Stop then start always ends enabled, with the start acknowledged. */
  lemma StopThenStart(enabled: bool, stop: Control, start: Control)
    requires stop.isPrivate && stop.outgoing && ParseCommand(stop.text) == Stop
    requires start.isPrivate && start.outgoing && ParseCommand(start.text) == Start
    ensures ControlStep(enabled, stop).enabled == false
    ensures ControlStep(ControlStep(enabled, stop).enabled, start) == GateStep(true, Some(Started))
  {
  }

  /** `str.lower()` leaves white space alone and never makes any. */
  lemma LowerCharSpace(c: char)
    ensures IsSpace(LowerChar(c)) <==> IsSpace(c)
  {
  }

  /** Lower-casing is idempotent. */
  lemma {:induction false} LowerTwice(s: string)
    ensures Lower(Lower(s)) == Lower(s)
  {
    var l := Lower(s);
    forall k | 0 <= k < |s| ensures Lower(l)[k] == l[k] {
      assert LowerChar(LowerChar(s[k])) == LowerChar(s[k]);
    }
  }

  /** Stripping white space commutes with lower-casing. */
  lemma {:induction false} LStripLower(s: string)
    ensures LStrip(Lower(s)) == Lower(LStrip(s))
    decreases |s|
  {
    if s != [] {
      LowerCharSpace(s[0]);
      assert Lower(s)[1..] == Lower(s[1..]);
      LStripLower(s[1..]);
    }
  }

  lemma {:induction false} RStripLower(s: string)
    ensures RStrip(Lower(s)) == Lower(RStrip(s))
    decreases |s|
  {
    if s != [] {
      LowerCharSpace(s[|s| - 1]);
      assert Lower(s)[..|s| - 1] == Lower(s[..|s| - 1]);
      RStripLower(s[..|s| - 1]);
    }
  }

  /** Stripping white space commutes with lower-casing. */
  lemma StripLower(s: string)
    ensures Strip(Lower(s)) == Lower(Strip(s))
  {
    LStripLower(s);
    RStripLower(LStrip(s));
  }

  /** Commands are recognised whatever their case: lower-casing first changes nothing. */
  lemma CommandIgnoresCase(text: string)
    ensures ParseCommand(Lower(text)) == ParseCommand(text)
  {
    StripLower(text);
    LowerTwice(Strip(text));
    assert Lower(Strip(Lower(text))) == Lower(Strip(text));
  }
}
