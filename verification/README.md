# VC tracker bot: the session ledger in Dafny

The tracker watches two configured users in a voice channel. A *session* is open
while at least one of them is in the call. During a session the tracker adds up
each user's connected time, and it keeps one status message that it posts at the
session start, refreshes periodically and overwrites with a summary at the end.

This project models that core as pure functions over an immutable ledger:

- `duration.dfy`, module `Duration`: `format_duration`, that is,
  `str(timedelta(seconds=int(x)))`. This includes the `N day(s), ` prefix and
  negative values. There is also a reader for `H:MM:SS` texts. Within one day the
  reader and the formatter are proved to be inverses.
- `ledger.dfy`, module `Ledger`: the tracking variables as a `Ledger` datatype,
  plus their invariant. It also defines the connect and disconnect transitions,
  session opening and closing, and the live elapsed time.
- `bot.dfy`, module `Bot`: `on_voice_state_update`, `update_live_message` and
  one firing of `live_update_loop`, with the three message layouts. The chat
  platform is a collaborator:
  - What it answers during one event is an `Env`: whether the guild and the log
    channel are found, the display names of the members it finds, the timestamp
    rendering, the handle `channel.send` returns, and whether an edit ends in
    `NotFound`.
  - The message operations a handler asks for come back as `Send` and `Edit`
    actions.
- `sessions.dfy`, module `Sessions`: properties of a single event. These cover
  idempotent connects, exactly when a session opens or closes and what that does,
  and agreement between the refresher and the summary. They also cover when a
  stale message handle can survive a session.
- `accounting.dfy`, module `Accounting`: whole event traces from start-up. The
  ledger is compared with a reference computed from the trace alone: who is
  present, since when, and the completed connect/disconnect intervals since the
  last session opened.
- `scenarios.dfy`, module `Scenarios`: worked sessions with the exact messages
  posted and edited.

Time is an integer count of microseconds, the resolution of Python's `datetime`.
So `int(total_seconds)` becomes an explicit truncation toward zero.

A voice-update handler that raises stops at the raising line and keeps every
change made before it, as the event dispatch in the Python code does. Two cases
follow from it:

- If a member lookup fails when a session opens, the session is open but no
  message is posted.
- If a member lookup fails when a session closes, the session is closed, no summary
  is written and the old message handle is kept. `Sessions.StaleHandleReusedByNextSession`
  shows the result: when the next session cannot find its log channel, the
  refresher edits the previous session's last live message with the new session's
  times.

The model follows these details of the code:

- Closing a session does not clear `vc_session_start`.
- Each user line of the messages carries the stopwatch sign `⏱` before the time.
- A disconnect is keyed on the recorded connect time (`vc_start_times.pop`), not
  on membership of the in-call set. The two agree under the invariant
  `Ledger.Consistent`.
- `if start_time:` is always true for a recorded `datetime`, so it is modelled as
  "a connect time was recorded".

## Model

| member | source | states |
|---|---|---|
| Duration.IntToString | bot.py:52-53 | `%d` of the day count: a canonical numeral that reads back as the number, with a minus sign in front of negative ones |
| Duration.TruncateSeconds | bot.py:53 | `int(x)` on an elapsed time keeps the whole seconds, rounding toward zero for either sign |
| Duration.FormatDuration | bot.py:52-53 | `str(timedelta(seconds=int(x)))`; it has no contract of its own, and what it prints is stated by the FormatDurationRoundTrip, ParseClockInverse, FormatDurationTruncates and example rows |
| Duration.FormatDurationRoundTrip | bot.py:52-53 | below one day the formatted text reads back as `H:MM:SS` (hours unpadded, minutes and seconds two digits) with the truncated whole seconds |
| Duration.ParseClockInverse | bot.py:52-53 | every `H:MM:SS` text below one day is exactly what the formatter prints for its value, so the formatter is onto that format |
| Duration.FormatDurationTruncates | bot.py:53 | fractions of a second never change the text |
| Duration.FormatZeroExample | bot.py:52-53 | no time prints as `0:00:00`, the literal of the initial message |
| Duration.FormatMinuteExample | bot.py:52-53 | 65.999999 s prints as `0:01:05`: minutes and seconds padded, fraction dropped |
| Duration.FormatHourExample | bot.py:52-53 | 3661 s prints as `1:01:01`: hours unpadded |
| Duration.FormatNegativeFractionExample | bot.py:53 | -0.5 s truncates toward zero and prints as `0:00:00` |
| Duration.FormatDurationOneDayExample | bot.py:52-53 | from one day on the days are printed in front, singular for one day |
| Duration.FormatDurationDaysExample | bot.py:52-53 | several days are printed in the plural |
| Duration.FormatDurationNegativeExample | bot.py:52-53 | a negative elapsed second prints as `-1 day, 23:59:59` |
| Ledger.Initial | bot.py:42-47 | the start-up state has no session, no session start, no handle, nobody in the call, no totals, and satisfies the invariant |
| Ledger.RecordConnect | bot.py:102-105 | a connect adds the user to the in-call set and records its connect time only if none is recorded; no total changes |
| Ledger.RecordDisconnect | bot.py:106-111 | a disconnect removes the user from the set and the start map and adds exactly `now - start` to its total, and only to its own; with no recorded start no total changes |
| Ledger.OpenSession | bot.py:115-118 | opening sets the flag and the start instant and zeroes every total, keeping the in-call set, the start map and the handle |
| Ledger.CloseSession | bot.py:133-134 | closing only lowers the flag; the start instant is not reset |
| Ledger.ActiveIffTrackedInCall | bot.py:94-95 | under the invariant a session is active exactly while one of the two tracked users is in the call |
| Ledger.LiveElapsed | bot.py:65-71 | the live time is the total, plus `now - start` for a user in the call |
| Ledger.LiveElapsedRate | bot.py:65-71 | while in the call the live time grows exactly with the clock; after leaving it is frozen |
| Ledger.LiveElapsedMonotone | bot.py:65-71 | the live time never decreases as the clock advances |
| Ledger.RecordConnectIdempotent | bot.py:102-105 | a second connect changes nothing: the first connect time survives |
| Ledger.ConnectThenDisconnect | bot.py:102-111 | a connect at t1 followed by a disconnect at t2 adds exactly t2 - t1 |
| Bot.LiveContent | bot.py:76-80 | the live layout, one stopwatch line per tracked user and the start line; it has no contract of its own, and its relation to the other layouts is stated by Bot.InitialContent, Bot.SummaryContent and Sessions.RefreshAtOpenShowsZero |
| Bot.InitialContent | bot.py:125-129 | the opening message is the live layout with both users at `0:00:00` |
| Bot.SummaryContent | bot.py:140-146 | the summary is the live layout with the final times, followed by the end instant and the total session length |
| Bot.StartSession | bot.py:115-130 | opening posts exactly one message with both users at `0:00:00` and stores the returned handle, unless the channel or a member is missing |
| Bot.EndSession | bot.py:133-154 | closing writes the summary to the handle, if there is one, and drops the handle whether or not the edit found the message; if the start or a member is missing it stops before that |
| Bot.OnVoiceStateUpdate | bot.py:91-154 | untracked users and a missing guild change nothing; otherwise the in-call set and start map follow the update; an update that neither opens nor closes a session only records the presence and issues nothing; at most one message operation is issued, and the invariant is preserved |
| Bot.UpdateLiveMessage | bot.py:59-85 | the refresh changes at most the handle; without a handle, a member or the session start it issues nothing and changes nothing; otherwise it edits the current handle with each user's live time and drops the handle exactly on `NotFound` |
| Bot.LiveUpdateLoop | bot.py:163-167 | a tick with no active session or no guild does nothing; otherwise it performs exactly the refresh of `update_live_message` |
| Bot.Step | bot.py:91-167 | every event preserves the ledger invariant and issues at most one message operation |
| Sessions.DuplicateConnectIgnored | bot.py:102-105 | a connect for a user already in the call changes nothing and issues nothing |
| Sessions.DisconnectWithoutStartIgnored | bot.py:106-111 | a disconnect without a recorded start changes nothing, totals included |
| Sessions.SessionOpensExactlyWhen | bot.py:115 | a session opens exactly when a tracked user connects while nobody is in the call |
| Sessions.SessionClosesExactlyWhen | bot.py:133 | a session closes exactly when the only user in the call disconnects |
| Sessions.OpenEffects | bot.py:115-130 | on opening, every total is zero, the opener alone is in the call since now, and exactly one message is posted when the channel and members are found |
| Sessions.CloseEffects | bot.py:133-154 | on closing, the start instant is kept, the leaver's last interval is added, and the summary goes to the old handle, which is then dropped |
| Sessions.SendExactlyOnOpen | bot.py:115-130 | a message is posted on an event if and only if that event opens a session with the channel and both members found |
| Sessions.SummaryExtendsLive | bot.py:140-146 | the summary's user lines are what the refresher would show at the closing instant, followed by the end and total lines |
| Sessions.RefreshAtOpenShowsZero | bot.py:125-129 | a refresh at the opening instant renders exactly the initial message |
| Sessions.NoStaleHandlePreserved | bot.py:149-154 | when member lookups succeed, no message handle outlives its session |
| Sessions.VoiceEditExactlyOnClose | bot.py:133-154 | a voice update edits a message exactly when it closes a session that has a status message and both members are found, so one summary per session end and no edit on any other voice update |
| Sessions.StaleHandleReusedByNextSession | bot.py:137-154 | a close whose member lookup fails issues no edit and keeps the old handle, and a later refresh edits that old message with the next session's live times: both users at `0:00:00` under the new session's start |
| Accounting.Run | bot.py:101-133 | running any trace from a consistent ledger keeps the invariant |
| Accounting.RunAgrees | bot.py:101-118 | after any trace from start-up, the in-call set, the connect times and the totals equal the reference computed from the trace |
| Accounting.AccumulatedIsSumOfIntervals | bot.py:104-118 | each total equals the summed `disconnect - connect` of the user's completed intervals since the last session opened |
| Accounting.LiveElapsedFromTrace | bot.py:65-71 | the live time equals the completed intervals plus the running one |
| Accounting.ActiveIffSomebodyPresent | bot.py:115-134 | after any trace, a session is active exactly while somebody is present |
| Accounting.OpensExactlyOnFirstArrival | bot.py:115-118 | after any trace, a session opens on an event exactly when presence goes from nobody to somebody; later arrivals never reopen it |
| Accounting.ClosesExactlyOnLastDeparture | bot.py:133-134 | after any trace, a session closes on an event exactly when presence goes from somebody to nobody; departures that leave somebody never close it |
| Accounting.SessionStartIsLastOpen | bot.py:115-134 | after any trace from start-up, the recorded session start is the instant of the last input that opened a session; closing never resets it |
| Scenarios.SoloSession | bot.py:115-154 | one user present for 3661 s: initial message at `0:00:00`, summary `1:01:01` and `0:00:00` |
| Scenarios.OverlappingSession | bot.py:101-154 | presence from 0 to 40 s and from 10 to 100 s: one session, summary `0:00:40` and `0:01:30` |
| Scenarios.IdleTickDoesNothing | bot.py:163-167 | on any ledger without an active session, a tick changes nothing and issues no message operation |

## Left out

- Platform plumbing: intents, `commands.Bot`, event registration, `on_ready` and the
  30-second loop period (bot.py:33-37, 162, 169-173). It is modelled only as `Tick`
  inputs.
- Token loading (bot.py:14-15), the append-only log file (bot.py:55-57) and every
  `log(...)` call. This is I/O that the core never reads back.
- The keep-alive web server and its thread (bot.py:178-192), and the restart loop in
  run_bot_forever.py. This is networking, concurrency and process supervision.
- Interleaving at `await` points. The handlers are modelled as running to
  completion. In the program, another event can run while `channel.send` or
  `message.edit` is pending.
- The clock is read once per event. The program reads `utcnow()` separately at
  lines 105, 110, 117 and 135, a few microseconds apart.
- Floating point. Elapsed times are exact integer microseconds. The program adds
  `total_seconds()` floats, whose rounding is not modelled.
- Timestamp rendering (`strftime`) and display names. These are uninterpreted
  values supplied by `Env`.
- Exceptions other than `NotFound` from `message.edit`, and any failure of
  `channel.send`. Their effect depends on the platform.
- The unfinished `if channel:` at bot.py:156-158. An `if` without an indented block
  is an `IndentationError`, so the file as written does not compile; the model
  assumes those lines are deleted.
- The end of the refresh loop. `live_update_loop` is a `tasks.loop` (bot.py:162),
  and an exception escaping `update_live_message` (a missing member at bot.py:77-78,
  or an HTTP error other than `NotFound` at bot.py:83) stops it for the rest of the
  process. The model treats such a refresh as doing nothing and keeps handling later
  `Tick` inputs as if the loop were still running.
- Duration.FormatDurationRoundTrip: the read-back is proved only for elapsed times
  under one day. The `N day(s), ` form is pinned down by examples only.
- Accounting.RunAgrees: the agreement with the trace reference is stated for traces
  from the start-up state, the only ledger the program ever begins with.
