# mania — a Dafny model of the admin bot's rules

The bot (index.js) registers its commands globally (index.js:71), so they are
offered in every Discord guild it is in. There is a single pair of data files
(index.js:23-24) and one module-level cooldown map (index.js:27), so all guilds
share one message store, one trigger table and one gate.
Administrators store short texts
and see them as a panel of buttons; a click re-sends the stored text. They also
register keyword auto-replies: a chat message `m!<keyword>` is answered with the
registered response. Non-administrators may use the auto-replies, but no more
than once per 10 seconds.

This project models the deterministic rules inside the bot's two event handlers.
File by file:

- `text.dfy` (module `Text`): the host-language string operations the handlers
  use. These are the prefix test, replacing the first occurrence of a pattern,
  splitting on `_`, writing an index in decimal, and integer parsing of a
  decimal prefix.
- `cooldown.dfy` (module `Cooldown`): the cooldown gate.
  - `Step` is one decision on the map from user id to the time of last
    accepted use.
  - `Replay` and `DecisionAt` run the gate over a sequence of attempts.
  - The class `CooldownGate` owns the mutable map. Its method `Allow` is what
    the handler calls.
- `triggers.dfy` (module `Triggers`): keyword extraction, response lookup, and
  the loop that lists all registered triggers.
- `panel.dfy` (module `Panel`): button labels, button ids and their parsing, the
  loop that lays out the buttons five to a row, and the click rule.
- `bot.dfy` (module `Bot`): the class `Bot`, holding the message store, the
  trigger table and the gate, with its two handlers, `OnMessage` and
  `OnInteraction`. Client methods (`PanelScenario` with its steps `PanelAndClick` and
  `ClickSecond`, `TriggerScenario`, `ClearScenario`) call the handlers in
  concrete scenarios whose outcomes the verifier checks. In one of them two
  messages are stored; their labels are `hell...` and `a lo...`, and a click on
  the second button re-sends `a longer message`.

Clock readings are a parameter (`now`, integer milliseconds). The stores are
in-memory fields. The bot starts with both stores empty, which is how the source
treats a missing or unreadable data file (index.js:29-36).

Two facts about the code that a reader might not expect:

- The comment at index.js:26 says the cooldown map holds the next usable time.
  The code stores the time of last use (index.js:104) and adds the 10-second
  window when checking (index.js:91). The model stores the last-use time.
- The label of the message `hello` is `hell...`, not `hello`: index.js:178
  truncates every message longer than four characters. `PanelAndClick` asserts
  the label `hell...`.

## Model

| member | source | states |
|---|---|---|
| `Cooldown.Step` | index.js:86-104 | A non-admin whose last use `t` satisfies `now < t + 10000` is denied and the map is unchanged. The reported wait is `t + 10000 - now`, which is positive and at most 10000 when `now >= t`. Any other non-admin is allowed and recorded at exactly `now`. Admins are allowed and the map is unchanged. Other users' entries never change, and no entry is removed or moved back in time. |
| `Cooldown.CooldownGate.Allow` | index.js:86-107 | Updates the gate's map in place and returns the decision. The new map and the decision are exactly what `Step` gives on the old map. |
| `Cooldown.CooldownGate.constructor` | index.js:27 | The gate starts with no recorded users. |
| `Cooldown.EntryPersists` | index.js:104 | Across any sequence of attempts, a recorded user stays recorded, and the recorded time never decreases. |
| `Cooldown.AcceptedTriggersSpaced` | index.js:86-107 | The rate limit itself. Take any two accepted non-admin attempts by the same user, in any interleaving with other users' attempts. The later one is at least 10000 ms after the earlier one. |
| `Cooldown.AdminNeverDenied` | index.js:86 | Within any sequence of attempts, an admin attempt is always allowed. |
| `Cooldown.RetriggerInsideWindow` | index.js:90-101 | After an accepted trigger at `t1`, the same user triggering at `t2` with `t1 <= t2 < t1 + 10000` is denied. The reported wait is `t1 + 10000 - t2` and the map does not change. |
| `Cooldown.StepOnExpired` | index.js:106 | A map, and the same map without one entry whose window has passed, give the same decision at any later time. The two results again differ at most by that entry. |
| `Cooldown.ExpiryUnobservable` | index.js:106 | Deleting an entry once its window is over (what the expiry timer does) changes no later decision of the gate. |
| `Triggers.Keyword` | index.js:79-80 | There is a keyword exactly when the content starts with `m!`. The content is then `m!` followed by the keyword. |
| `Triggers.KeywordDropsPrefix` | index.js:80 | Replacing the first `m!` in content that starts with `m!` drops exactly the first two characters. |
| `Triggers.Dispatch` | index.js:79-83 | A message triggers a response exactly when it starts with `m!` and the rest is a keyword with a non-empty response. That response is the one stored for the keyword. |
| `Triggers.DispatchAfterRegister` | index.js:140 | After registering a non-empty response `r` for `k`, `m!k` triggers `r`, so the last write wins. Every other message triggers what it did before. |
| `Triggers.ListTriggers` | index.js:145-151 | An empty table gives the "none registered" reply. Otherwise the list has one entry per keyword, each paired with its stored response, and no keyword appears twice. |
| `Panel.Label` | index.js:178 | A message of at most 4 characters is its own label. A longer one is labelled with its first 4 characters followed by `...`. No label is longer than 7 characters. |
| `Panel.ButtonId` | index.js:179 | The id of message `i` starts with `send_msg_`, followed by a non-empty run of decimal digits. |
| `Panel.ParseButtonId` | index.js:186-187 | An id not starting with `send_msg_` names no message. |
| `Panel.ButtonIdRoundTrip` | index.js:179-187 | Reading the third `_`-separated field of `send_msg_<i>` as an integer gives back `i`. |
| `Panel.ButtonIdInjective` | index.js:179 | Different messages get different button ids. |
| `Panel.ButtonFor` | index.js:178-179 | The button made for message `k` has an id that parses back to `k`. Its caption is the message's `Label`: the message itself when it has at most 4 characters, otherwise its first 4 characters followed by `...`, never more than 7 characters. |
| `Panel.PanelButtons` | index.js:173-179 | There is one button per message, in store order. The id of button `k` parses back to `k`, so a click on it addresses message `k`. Its caption is the message's `Label`: the message itself when it has at most 4 characters, otherwise its first 4 characters followed by `...`, never more than 7 characters. |
| `Panel.RenderPanel` | index.js:168-181 | An empty store gives the "no data" reply. Otherwise there are ceil(N/5) rows: every row holds 1 to 5 buttons, every row but the last holds 5, and the rows read in order are the buttons of messages 0..N-1. |
| `Panel.BuiltNext` | index.js:173-180 | One step of the row-building loop keeps its state consistent: full rows of 5, then the row being filled, together holding the first `index` buttons. A new row is started before every fifth message. |
| `Panel.RowHoldsConsecutiveMessages` | index.js:171-181 | Button `j` of row `i` of a rendered panel is the button of message `5i + j`, and its id parses back to `5i + j`. |
| `Panel.Click` | index.js:186-193 | A click re-sends only a non-empty stored message. An id without the `send_msg_` prefix does nothing. |
| `Panel.ClickButtonFor` | index.js:179-190 | A click on the button for message `i` re-sends exactly `messages[i]` if `i` is still in range and the message is non-empty. Otherwise it does nothing, which covers a store cleared after the panel was shown. |
| `Text.ReplaceFirstWithoutOccurrence` | index.js:80 | Replacing in a string where the pattern does not occur returns the string unchanged. |
| `Text.ReplaceFirstAtFirstOccurrence` | index.js:80 | When the leftmost occurrence of the pattern is at `i`, only that occurrence is replaced: the result is `s[..i]`, then the replacement, then the rest of `s` after the occurrence. |
| `Text.Split` | index.js:187 | Splitting yields at least one field, and no field contains the separator. |
| `Text.JoinSplit` | index.js:187 | Gluing the fields back with the separator gives the original string. |
| `Text.DecimalString` | index.js:179 | An index is written as a non-empty string of decimal digits without leading zeros. |
| `Text.DigitPrefix` | index.js:187 | Parsing reads the longest run of digits at the front of the string. |
| `Text.ParseInt` | index.js:187 | There is no number exactly when the string does not start with a digit. |
| `Text.DecimalRoundTrip` | index.js:179-187 | Parsing the decimal form of `n` gives `n`. |
| `Bot.Bot.constructor` | index.js:29-36 | The bot starts with an empty message store, an empty trigger table and an empty gate, as it does when the data files are missing or unreadable. |
| `Bot.Bot.Register` | index.js:136-141 | After registering, looking up the keyword gives the new response. Every other keyword is untouched, and the message store is unchanged. |
| `Bot.Bot.Append` | index.js:154-159 | The message is appended and every earlier index is unchanged. The reported count is the new length. The trigger table is unchanged. |
| `Bot.Bot.ClearAll` | index.js:162-165 | Both stores end up empty. |
| `Bot.Bot.Execute` | index.js:122-183 | Each of the six commands from an admin does to the stores, and answers with, what its case of `CommandOutcome` says. Listing and panel replies follow `IsListingOf` and `PanelLayout`. |
| `Bot.Bot.OnInteraction` | index.js:115-193 | A non-admin's command or button press gets the "admin required" reply and changes nothing. Other interaction kinds do nothing. An admin's button press re-sends what `Click` names and changes nothing. An admin's command behaves as `Execute` states. |
| `Bot.Bot.OnMessage` | index.js:76-111 | Messages from bots, messages without `m!`, and keywords without a non-empty response get no reply and leave the gate as it was. A matching message goes through the gate as `Step` describes: a denial gives the cooldown notice with the wait, and otherwise the registered response is sent. |

## Left out

- The gateway client, intents, slash-command registration, the REST upload, login and the keep-alive server (index.js:1-21, 42-73, 196-197) are foreign library and network calls.
- JSON file I/O (index.js:29-40) is not modelled. The stores are in-memory fields, and persistence across restarts is left out. Within one process each command loads, changes and saves a file without waiting in between, so no write is lost. Two processes sharing the files could lose writes; that is not modelled.
- The 5-second deletion of the cooldown notice (index.js:99) is a timer on a reply. `CooldownNotice` only records that the notice is sent.
- The 10-second expiry timer (index.js:106) is not an operation of the model. `Cooldown.ExpiryUnobservable` shows that deleting an expired entry changes no decision. The race in which an old timer deletes a newer entry for the same user is timer concurrency and is not modelled. `Cooldown.ExpiryUnobservable` requires every later clock reading to be at or after the end of the deleted entry's window. The timer runs on a monotonic clock while the gate reads the wall clock (`Date.now()`), so a wall clock stepped backwards after the timer fires could still observe the deletion; that case is not covered.
- `Cooldown.Step`: the wait is reported in integer milliseconds rather than as seconds rounded to one decimal (index.js:94-96), which would need floating point.
- `Triggers.ListTriggers`: returns the (keyword, response) pairs rather than the formatted text (index.js:149-150). It promises no particular order, where the source uses the key order of the host's object.
- The help text and the wording of every reply are not modelled. The replies are constructors of `Reply`.
- `Panel.Label`: lengths count Unicode scalar values, whereas the source counts UTF-16 code units. The two differ on characters outside the Basic Multilingual Plane.
- `Text.ParseInt`: reads a decimal digit prefix only. Leading whitespace, a sign, a `0x` prefix and the precision limit of large numbers are not modelled. The bot only ever produces ids of the form `send_msg_<decimal>`.
- Look-ups of inherited object properties in the trigger table are not modelled; the table is a plain map. In the source, `m!toString` or `m!__proto__` finds an inherited value, which passes the truthiness test at index.js:83, so a non-string is handed to the send at index.js:110; any user can send these. For the same reason, in the source `mtrigger __proto__ <response>` is silently ignored at index.js:140: the inherited `__proto__` setter drops a value that is not an object. No key is stored, yet the reply at index.js:142 still says the trigger was registered. The model stores it as an ordinary key.
- The interaction acknowledgement after a re-send (index.js:191) is not modelled separately from the send itself.
- Discord accepts at most 5 action rows (25 buttons) in one reply. `Panel.RenderPanel` returns all ceil(N/5) rows, as index.js:168-181 builds them. With 26 or more messages the panel reply at index.js:182 has 6 or more rows; Discord rejects it and the source does not catch the error. The platform's limit is not modelled.
- Button style (index.js:179) and the panel's heading text (index.js:182) are constant presentation and are not modelled.
- `Bot.Bot.OnInteraction`: `isAdmin` assumes the interaction comes from a guild member. The global commands are also offered in a direct message with the bot, where the interaction has no member and the permission test at index.js:117 throws instead of replying "admin required". The error is not caught, and under Node's default handling it ends the process, which also empties the cooldown map. This path is not modelled. Chat messages in a direct message never reach the message handler, because the client does not ask for direct-message events (index.js:16-20).
- Command names other than the six registered ones never arrive, so they are not modelled.
