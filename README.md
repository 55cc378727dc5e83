# Telegram price relay: a Dafny model

This is a model of the core of `forwarder.py`. The script is a Telegram user-account relay:

- it copies new posts from a set of source channels into one target chat, as new messages rather than forwards;
- it sends the media of an album together in one post;
- it rewrites dollar prices in every text and caption so that they also show the amount in Uzbek sums (UZS);
- it refreshes the dollar rate once at start-up and after every local midnight;
- it can be switched off and on by the account owner with `/stop` and `/start` in a private chat.

The model has one module per concern:

- `PyText` (`pytext.dfy`): the Python string operations the script relies on. These are `str.strip`, `str.lower`, `str.replace` for one character, `\d` and `\s`, and decimal digits.
- `Amounts` (`amounts.dfy`): `_amount_to_uzs`. It covers:
  - `float()` on the amount text once spaces and `_` are removed and `,` is turned into `.`;
  - Python's `round` (half to even);
  - the `f"{n:,}"` rendering with spaces as thousands separators.
- `Prices` (`prices.dfy`): `_convert_prices`.
  - `re.sub` is modelled as a left-to-right scan, `Sub`, over a matcher and a callback.
  - Each of the three patterns is written out as a matcher with the same greedy and backtracking behaviour as Python's `re`.
- `PriceGuard` (`price_guard.dfy`): how pass 3 behaves on a number that its lookahead should protect, such as the amount inside "(4 800 000 UZS)". This module holds the finding below.
- `Gate` (`gate.dfy`): `control_handler` as a two-state machine with acknowledgements.
- `Rate` (`rate.dfy`): the start-up rate, `_update_usd_rate_once` and the midnight schedule of `_schedule_usd_rate_updates`.
- `Config` (`config.dfy`): `SOURCE_CHANNELS` and `TARGET_CHAT` as read from the environment.
- `Relay` (`relay.dfy`): `forward_handler` and `album_handler`. Class `Forwarder` holds the script's global state:
  - `FORWARD_ENABLED`;
  - `PROCESSED_ALBUM_IDS`;
  - `USD_TO_UZS_RATE`;
  - the sequence of messages sent, which stands for the Telegram client.

  Its handler methods update these fields in place.

Notes on the code's behaviour:

- Pass 3 always runs after pass 2. Text annotated by pass 2 is not returned early.
- A number written without a group separator, such as "12345", is never converted: pass 3 needs at least one group after the head.
- A sign in front of a number is not looked at: in "+5 000" the `+` satisfies the lookbehind, and pass 3 converts "5 000" like any other grouped number.
- `album_handler` has no pending-caption buffer and handles no edit events.
- `album_handler` checks `FORWARD_ENABLED` before it records the album id. An album that arrives while forwarding is off is therefore not recorded, and it is sent if the same album is delivered again after `/start`.
- `_convert_prices` is not idempotent. Pass 2 annotates an already annotated "400$ (…)" a second time, so the model does not claim idempotence.

## Model

| member | source | states |
|---|---|---|
| PyText.Strip | forwarder.py:300 | the stripped text is empty or neither starts nor ends with white space |
| PyText.StripTrims | forwarder.py:47-49 | the stripped text is a slice of the input with only white space before it and after it |
| PyText.StripKeepsCharacters | forwarder.py:300 | the stripped text holds only characters of the input |
| PyText.Lower | forwarder.py:300 | lower-casing keeps the length and maps each character through `LowerChar` |
| Gate.CommandIgnoresCase | forwarder.py:300-312 | a command is recognised whatever its case: lower-casing the text first does not change the command |
| Gate.Transition | forwarder.py:304-319 | `/stop` always leaves forwarding off and `/start` always leaves it on; a reply is sent exactly when the state changes, "stopped" exactly on on→off and "started" exactly on off→on; any other text changes nothing |
| Gate.ControlStep | forwarder.py:291-319 | messages that are not private or not sent by the account itself change nothing and get no reply; the account's own private messages go through the transition |
| Gate.ControlIdempotent | forwarder.py:304-319 | sending the same control message twice acts once: the second leaves the state as it is and gets no reply |
| Gate.StopThenStart | forwarder.py:304-319 | stop then start leaves forwarding on, and the start is acknowledged |
| Relay.Forwarder.ControlHandler | forwarder.py:291-319 | the new `FORWARD_ENABLED` is the gate's next state, and the outbox grows by the acknowledgement, if any |
| Amounts.ParseFloatDecimal | forwarder.py:96 | `float()` of digits, a dot and digits is the whole part plus the fraction over its power of ten |
| Amounts.ParseFloatOfDecimal | forwarder.py:96 | `float()` reads back the decimal writing of any natural number |
| Amounts.RoundHalfEven | forwarder.py:100 | `round` gives an integer within one half of its argument, and the even one on a tie |
| Amounts.ThousandsShape | forwarder.py:101 | the rendering is a head of one to three digits followed by groups of a space and three digits |
| Amounts.ThousandsDigits | forwarder.py:101 | removing the spaces from the grouped rendering gives back the decimal writing of the number |
| Amounts.RenderIntDigits | forwarder.py:101 | the same round trip holds for negative numbers, with their sign |
| Amounts.ParsedAmount | forwarder.py:92-98 | an amount with nothing left once spaces and `_` are removed gives no value; any value is non-negative |
| Amounts.GroupedAmountValue | forwarder.py:92-98 | an amount of digits, spaces and `_` that starts with a digit, such as "150 000", reads as the number its digits write |
| Amounts.DigitAmountValue | forwarder.py:92-98 | an amount of digits only, such as "400", reads as the number its digits write |
| Amounts.CommaIsDecimalPoint | forwarder.py:96 | a comma in an amount is read as the decimal point |
| Amounts.AmountToUzs | forwarder.py:91-101 | there is no result exactly when the amount does not parse; otherwise the result without its spaces is the decimal writing of the rounded product of amount and rate |
| Amounts.UzsValue | forwarder.py:100 | the sum is within one half of amount times rate |
| Prices.LeadingMatch | forwarder.py:108 | a match of pass 1 starts at a `$` and reaches past the first non-space after it, which is a digit |
| Prices.LeadingMatchExact | forwarder.py:108 | pass 1 matches exactly at a `$` whose first non-space successor is a digit, and the match ends where the run of amount characters after that digit ends |
| Prices.NormalizeKeepsCharacters | forwarder.py:103-108 | pass 1 keeps every character of the text except white space, counted with multiplicity: it only moves dollar signs and drops the gaps after them |
| Prices.LeadingPassAtMatch | forwarder.py:103-108 | at a match of pass 1, the output is the amount, then `$`, then the rest of the scan from the end of the match |
| Prices.TrailingMatch | forwarder.py:118 | a match of pass 2 starts at a digit, holds only amount characters and ends with `$` |
| Prices.TrailingMatchExact | forwarder.py:118 | pass 2 matches exactly at a digit whose run of amount characters is followed by `$`, and the match ends just after that `$` |
| Prices.TrailingPassAtMatch | forwarder.py:110-118 | at a match of pass 2, the output is the match unchanged, then its annotation, then the rest of the scan; the annotation is empty exactly when the amount does not parse |
| Prices.AnnotationEmpty | forwarder.py:113-116 | the appended " (N UZS)" is empty exactly when the amount does not parse |
| Prices.GroupedMatchSound | forwarder.py:129-133 | a match of pass 3 as written is a grouped number at a digit, with the lookbehind satisfied and the lookahead not blocking its end |
| Prices.GroupedMatchPossessive | forwarder.py:129-133 | the corrected matcher matches only at a digit with the lookbehind satisfied, and its match is not followed by a further group |
| Prices.GroupedMatchPossessiveSound | forwarder.py:129-133 | a match of the corrected matcher is a grouped number the lookahead does not block |
| Prices.GroupedAlwaysConverts | forwarder.py:122-127 | every grouped number parses to the number its digits write, and the sum written is that number times the rate, rounded |
| Prices.GroupedPassAtMatch | forwarder.py:120-133 | at a match of pass 3 as written, the output is the number, then its non-empty annotation, then the rest of the scan |
| Prices.GroupedPossessivePassAtMatch | forwarder.py:120-133 | the same for the corrected pass 3, whose match is besides not followed by a further group |
| Prices.SubSkipAny | forwarder.py:108 | where its pattern does not match, `re.sub` copies one character and goes on from the next |
| Prices.SubCopiesUnmatched | forwarder.py:108 | `re.sub` copies every stretch of text where its pattern does not match |
| Prices.SubKeepsUnconverted | forwarder.py:118 | a pass whose callback returns each match unchanged leaves the text unchanged |
| Prices.ConvertPricesAsWritten | forwarder.py:85-89 | an empty text, or a missing rate, is returned unchanged |
| Prices.ConvertPrices | forwarder.py:85-89 | the corrected pipeline also returns an empty text, or any text without a rate, unchanged |
| Prices.NoDigitsUnchanged | forwarder.py:85-135 | a text without a digit holds no price, and all three passes leave it unchanged |
| PriceGuard.GroupedMatchComplete | forwarder.py:129-133 | as written, pass 3 matches a grouped number whole when it follows no word character or `$`, no further group extends it and the lookahead lets its end through, as "150 000" in "budget 150 000 sum" |
| PriceGuard.GroupedMatchPossessiveComplete | forwarder.py:129-133 | the corrected matcher matches such a number whole too |
| PriceGuard.GroupedMatchPossessiveExact | forwarder.py:129-133 | the corrected matcher matches from `a` to `b` exactly when `s[a..b]` is a grouped number after no word character or `$`, that no further group extends and the lookahead lets through |
| PriceGuard.FreeNumberConverted | forwarder.py:120-133 | both versions of pass 3 keep such a number, follow it with its non-empty annotation and go on after it |
| PriceGuard.AsWrittenSplitsGuardedNumber | forwarder.py:129-133 | as written, pass 3 matches a number of two groups or more that its lookahead should protect, minus its last group, and writes an annotation inside it |
| PriceGuard.AnnotationOfMillions | forwarder.py:116 | an annotation of a million sums or more, written by pass 2, is such a number |
| PriceGuard.PossessiveKeepsGuardedNumber | forwarder.py:129-133 | the corrected pass 3 copies a protected grouped number unchanged |
| PriceGuard.PossessiveKeepsAnnotation | forwarder.py:116-133 | the corrected pass 3 copies the amount of any annotation of a thousand sums or more unchanged |
| Rate.JsonFloat | forwarder.py:156 | `float()` of a JSON number is that number; of null, a list or an object it is an error |
| Rate.RateField | forwarder.py:155 | `data["uzs"]["rate"]` is found exactly when the body is an object with an object under "uzs" that holds "rate", and it is the value held there |
| Rate.FetchedRate | forwarder.py:143-159 | a failed request, a status other than 200 or a body that is not JSON yields no rate; a rate comes only from a 200 response whose body holds `uzs.rate`, and it is `float()` of that value |
| Rate.UpdatedRate | forwarder.py:138-161 | a refresh that yields no rate keeps the rate held; one that yields a rate replaces it |
| Rate.FailuresKeepRate | forwarder.py:146-159 | however many refreshes fail, the rate stays as it was |
| Rate.LastSuccessWins | forwarder.py:161 | after a sequence of refreshes the rate is the one fetched by the last that succeeded |
| Rate.InitialRate | forwarder.py:75-82 | an unset or empty `USD_TO_UZS_RATE` gives no rate, and so does a value with a character other than a digit, a dot or white space; a rate read is never negative |
| Rate.InitialRateValue | forwarder.py:76-78 | a set value reads as `float()` of it: "12500" as 12500, and digits, a dot and digits as their decimal value |
| Rate.SleepSeconds | forwarder.py:170-175 | the pause is positive, and it ends at the next midnight or lasts a whole day |
| Rate.SleepUntilMidnight | forwarder.py:170-177 | at any time of day the pause ends exactly at the next midnight |
| Relay.Forwarder.constructor | forwarder.py:72-82 | forwarding starts on, with no album seen, nothing sent and the rate from the environment |
| Relay.Forwarder.UpdateRateOnce | forwarder.py:138-161 | the held rate becomes the updated rate of the fetch |
| Relay.Forwarder.Wake | forwarder.py:170-178 | one round of the loop: the pause until midnight, then a refresh |
| Relay.Forwarder.RunSchedule | forwarder.py:165-178 | after the first refresh and any number of rounds, the rate is the latest of all the fetches, and each pause is the positive time to the next midnight |
| Relay.ForwardOutcome | forwarder.py:205-237 | a single message is sent exactly when forwarding is on, it is no service message, it is not part of an album and it has media or text; media go as a file with the caption converted as written, text alone as a message converted as written |
| Relay.ForwardGated | forwarder.py:214-215 | while forwarding is off nothing is sent |
| Relay.ForwardWithoutRate | forwarder.py:88-89 | with no rate the text is sent as it came |
| Relay.ForwardWithoutDigits | forwarder.py:218 | a text without a digit is sent as it came |
| Relay.Forwarder.ForwardHandler | forwarder.py:198-242 | the outbox grows by the message `ForwardOutcome` decides on, or stays as it was |
| Relay.AlbumFilesEmpty | forwarder.py:263-272 | an album has no files exactly when every message in it is a service message or has no media |
| Relay.AlbumFilesFromMessages | forwarder.py:263-267 | every file sent is the media of a message of the album that is not a service message |
| Relay.FirstCaptionIsFirst | forwarder.py:268-269 | the caption is the text of the first message that is not a service message and has text, or empty if there is none |
| Relay.CollectAlbum | forwarder.py:260-269 | the loop collects exactly the album's files and its first caption |
| Relay.AlbumStep | forwarder.py:246-282 | an album is sent exactly when forwarding is on, it is not empty, its id was not seen and it has files; it is sent as its files with the first caption converted as written; the recorded ids only grow, an id is added only when forwarding is on and the album is not empty, and the id of an album sent is recorded |
| Relay.AlbumSentOnce | forwarder.py:253-258 | an album delivered again right after one with the same id was sent is not sent again |
| Relay.AlbumRunSendsOnce | forwarder.py:246-258 | over any run of album events, with the gate and the rate changing in between, the recorded ids only grow, every album sent with an id had one not recorded at the start and recorded at the end, and no two albums sent carry the same id |
| Relay.AlbumRecorded | forwarder.py:253-258 | while forwarding is on, the id of every non-empty album is recorded |
| Relay.AlbumGated | forwarder.py:250-251 | while forwarding is off albums are neither sent nor recorded |
| Relay.Forwarder.AlbumHandler | forwarder.py:246-287 | the set of seen ids and the outbox change exactly as `AlbumStep` decides |
| Config.JoinSplit | forwarder.py:48 | joining the pieces of `split(",")` with commas gives the text back |
| Config.SourceChannels | forwarder.py:41-50 | an unset or empty `SOURCE_CHANNELS` is an error; otherwise there are no more channels than pieces, and each is non-empty and starts with no white space |
| Config.SourceChannelsArePieces | forwarder.py:46-50 | the channels are exactly the stripped comma-separated pieces that are not blank, in order: each such piece is the channel after those of the pieces before it, and each channel is such a piece |
| Config.SourceChannelsClean | forwarder.py:46-50 | every channel name is non-empty, holds no comma and is its own strip |
| Config.ParseTarget | forwarder.py:57-66 | an unset or empty `TARGET_CHAT` is an error; a value that is not all digits after its leading dashes is a user name as written; a dashed number is an error exactly when it has two dashes or more |
| Config.TargetRoundTrip | forwarder.py:63-64 | a chat id written out as `str()` writes it is read back as that id |

## Left out

- Telegram I/O is not modelled beyond its effect. That covers connecting, event delivery, `send_file`, `send_message` and `reply`. Each send appends to `Forwarder.outbox` instead.
- `RPCError` is not modelled: a send is assumed to succeed. In the source a failed send changes no state anyway.
- Amounts.AmountToUzs: an amount whose value, or whose product with the rate, exceeds the largest float (about 1.8e308) becomes `inf`, and `round()` then raises `OverflowError` (forwarder.py:100). In `forward_handler` that exception is not an `RPCError`, escapes the `try` (forwarder.py:217-242), and the message is not sent. In `album_handler` the conversion at forwarder.py:274 runs outside the `try` and after the album id is recorded, so the album is never sent, not even when delivered again. The model reads every amount as an exact real, so it converts such a price and sends both.
- Console output (`print`) is left out.
- `API_ID`, `API_HASH`, `SESSION_NAME` and the client set-up are not part of this model. The same goes for the event filters `chats=SOURCE_CHANNELS`, and for `event.chat.username`, which is used only for logging.
- Floating point: amounts, rates and products are exact reals. Binary rounding of `amount * rate` can differ from the model in the last place, and so can a tie in `round`.
- Amounts.ParseFloat: `float()` is modelled for the forms an amount can take (digits with at most one dot). Exponents, signs, `inf`, `nan` and `_` between digits cannot reach it from a price. A rate string in those forms gives no rate in the model.
- PyText.IsDigit: `\d` and `str.isdigit` are modelled on ASCII digits only. `\s` is modelled as Python's white-space set. `\w` and `str.lower` are modelled for ASCII and the basic Cyrillic letters only.
- Rate.JsonFloat: JSON decoding is abstracted. The model starts from the decoded value, or from its absence when `resp.json()` fails.
- Relay.Forwarder.RunSchedule: the endless loop is modelled as a finite sequence of rounds. Each round gives the local time of day, in seconds, and the result of that round's fetch. `datetime.now()` and the sleep are not modelled.
- The rate refresher runs concurrently with the handlers in the source. Interleavings are not modelled: each handler call sees the rate as it stands.

## Findings

| source | as written | input that shows it | evidently intended | confidence | as-written member | corrected member |
|---|---|---|---|---|---|---|
| forwarder.py:129-131 | the repeated group `(?:[ _]\d{3})+` can give back its last group, so the negative lookahead is checked after a shorter match; "4 800 000 UZS" then matches as "4 800", whose next character is a space and a digit | "400$" at a rate of 12000: pass 2 gives "400$ (4 800 000 UZS)", and pass 3 turns it into "400$ (4 800 (57 600 000 UZS) 000 UZS)" | a grouped number followed by "UZS", "$", "usd", "USD" or "(" is left alone as a whole, which is what a possessive group `(?:[ _]\d{3})++` or a lookahead for a further group would give | high (proved about the model; not executed) | PriceGuard.AsWrittenSplitsGuardedNumber | PriceGuard.PossessiveKeepsAnnotation |

`Prices.ConvertPricesAsWritten` is `_convert_prices` with the pattern as written, and the handlers of `Relay` use it, as the script does. `Prices.ConvertPrices` is the corrected definition: it uses the matcher `Prices.GroupedMatchPossessive`, and `PriceGuard.PossessiveKeepsGuardedNumber` and `PriceGuard.PossessiveKeepsAnnotation` are proved about it. `PriceGuard.FreeNumberConverted` shows that the correction still converts every grouped number the lookahead lets through, and `PriceGuard.GroupedMatchPossessiveExact` characterises the corrected matches in both directions. `PriceGuard.AnnotationOfMillions` shows that every annotation of a million sums or more written by pass 2 meets the premise of `PriceGuard.AsWrittenSplitsGuardedNumber`.
