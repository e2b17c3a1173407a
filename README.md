# Whatnot giveaway bot — a verified model

This project models the decision core of a bot that drives the Whatnot app
on an Android phone. The bot scrolls the live feed of a category and looks
for a stream that shows a "Giveaway" badge and has few enough viewers. It
opens the giveaway panel, classifies the giveaway as a pack giveaway or
another kind, and taps the first entry button the panel shows. It then
stays on the stream until the giveaway ends or a wall-clock cap is hit,
and appends one row to a CSV history. If the stream still has few viewers,
it waits a while for a second giveaway on the same stream. A small web
dashboard starts and stops the bot, reports its counters, and changes its
configuration while it is idle.

The phone is observed through snapshots. A snapshot is one list of UI
nodes (text, content description, bounds). The model lets some queries
made in immediate succession share one snapshot:
- the badge and viewer-count queries of one discovery pass;
- the classification and the up to three button lookups of
  `enter_giveaway`;
- the two label lookups of one `is_giveaway_still_active` call.

Two badge checks get a snapshot of their own even though only logging
separates them from the query before. `enter_giveaway`'s badge check
(bot.py:184) reads `Visit.badge`, apart from the discovery pass that found
the badge (bot.py:228). After the wait for another giveaway saw a badge
(bot.py:353), `enter_giveaway` reads `NextGiveaway.badge`, apart from that
wait pass's `Tick.screen`. This is more general: the two readings may
agree or differ.

The clock is a sequence of readings given with each poll. What the
bot does to the phone and to its log is recorded, in order, as an event
trace on the bot object:
- a tap on a labelled node;
- a swipe to the next stream;
- a finished stay;
- a logged row.

The bot class keeps its two counters (`giveaways_entered`,
`streams_checked`) equal to the number of entry taps and swipes in that
trace.

Modules:

- `Search`: first-match search over sequences.
- `Decimal`: what Python's `str.isdigit`, `int()` and `str()` do with
  decimal text.
- `Screen`: the extractors of `bot.py`: viewer count, streamer name, pack
  classification, badge, entry buttons.
- `Policy`: the six configured limits.
- `Dwell`: `stay_for_giveaway`.
- `GiveawayLog`: the `_log_giveaway` row, with a reader that shows what the
  row keeps.
- `Bot`: `enter_giveaway`, `find_giveaway_stream`, the body of `run`, and
  the `WhatnotBot` class.
- `Dashboard`: `api_status`, `api_start`, `api_stop` and `api_set_config`
  of `server.py`, over a `Server` class holding the module state.

Behaviours of the code worth knowing, which the model keeps:

- Only a node whose whole text is a digit string is read as a viewer
  count. A compact form such as "1.3k" is never parsed.
- Discovery looks at up to thirty streams of the swipe feed. There is no
  detection of a stuck feed and no grid layout.
- The stricter cap for non-pack giveaways is applied after the entry
  button was tapped. The entry counts, but there is no stay and no row.
- A stay only watches the badge and the entries list. It does not look for
  a replacing giveaway. The bot module never reads a stop flag, so a stay
  cannot be cancelled.
- The wait for a second giveaway lasts 15 to 30 seconds (bot.py:32).
- A missing entry button leads to a stay only for the second giveaway on a
  stream. For the first giveaway the bot only scrolls on.
- A viewer count of 0 is logged as "?", like an unknown count.

Problems in the source that are not modelled as behaviour:

- `config.py` defines neither `DEFAULT_CONFIG` nor the per-type limits
  that `bot.py` imports at bot.py:13-19. So `server.py` fails at its own
  import at server.py:14. Even with that import fixed, `run_bot` would
  fail at `from bot import WhatnotBot` at server.py:84 with an ImportError.
  That line is outside the `try` at server.py:85, so the error is neither
  caught nor logged, and the `finally` at server.py:94-95 does not run.
  The model takes the limits as a parameter (`Policy.Limits`) and the
  dashboard's initial configuration as a constructor argument.
- Once `config.py` defines those names, `server.py` would build the bot
  with keyword arguments (`config`, `stop_event`, `log_deque`) that
  `WhatnotBot.__init__` at bot.py:49 does not accept. That TypeError is
  raised inside the `try`, so `run_bot` logs it and its `finally` drops
  the bot. `Dashboard.Server.ThreadFinished` models that end of the
  thread.
- `api_stop` drops its handle on the thread even when the 30-second join
  expires. A second bot can then be started while the first is still
  running.

## Model

| member | source | states |
|---|---|---|
| Decimal.NatToString | bot.py:66 | `str(n)` of a non-negative int is a non-empty digit string with no leading zero except for 0 itself |
| Decimal.NatToStringValue | bot.py:66 | the digits `str(n)` prints have value `n` |
| Decimal.ParseIntToString | server.py:135 | `int(str(i)) == i` for every int, negative ones included |
| Decimal.NegativeParsed | server.py:135 | `int("-" + str(n)) == -n` |
| Decimal.NonNegativeParsed | server.py:135 | `int(str(n)) == n` for `n >= 0` |
| Decimal.PlainDigitsParsed | server.py:135 | `int()` of a plain digit string is the value of its digits |
| Decimal.GroupingIgnored | server.py:135 | `int()` accepts an underscore between two groups of digits and reads the same value as without it |
| Decimal.Ungrouped | server.py:135 | dropping the underscores of a grouped number leaves only digits, and a string with no underscore is unchanged |
| Screen.ViewerCount | bot.py:142-151 | None exactly when no node is a digit-only text at left > 700 and top < 300; otherwise the value of the first such node, with none before it |
| Screen.NonDigitTextIgnored | bot.py:147-150 | removing a node whose text is not a digit string (a "1.3k") never changes the viewer count |
| Screen.StreamerName | bot.py:153-162 | the description of the first described node in the top-left band that is not "Leave" or "Ship Time", or "unknown" when there is none; never empty and never a control label |
| Screen.IsPackGiveaway | bot.py:164-176 | true exactly when some node above y = 400 has "pack" in its lower-cased text |
| Screen.PackWordAnyCase | bot.py:171-174 | "PACK", "Pack" and "pack" all classify as a pack giveaway, and a node without bounds counts as being at the top |
| Screen.HasGiveaway | bot.py:139-140 | true exactly when some node's whole text is "Giveaway" |
| Screen.IsGiveawayStillActive | bot.py:212-213 | every screen with the badge counts as active, and so does every screen with a node whose text is "Entries"; one without the badge counts as active only through such a node |
| Screen.OtherTextIgnored | bot.py:139-140 | dropping a node whose text is neither "Giveaway" nor "Entries" changes neither check |
| Screen.EntryLabelFrom | bot.py:195-207 | the first entry label, in the order "Follow Host & Enter Giveaway", "Enter Giveaway", "Enter", that the panel shows, with none shown before it; None when none is shown |
| Dwell.ExitFrom | bot.py:264-282 | the first poll on which the loop stops: the cap is reached, or enough consecutive gone checks |
| Dwell.StayForGiveaway | bot.py:249-285 | the loop returns the time read on its first stopping poll, and capped exactly when that poll reached the cap for the giveaway's type |
| Dwell.GoneRun | bot.py:274-279 | the gone counter after poll `k` is at most `k + 1`; what it counts is stated by `Dwell.GoneRunMissed` and `Dwell.MissesCounted` |
| Dwell.GoneRunMissed | bot.py:274-279 | every poll within the run the gone counter reports after poll `k` showed the giveaway gone: an active check resets the count |
| Dwell.MissesCounted | bot.py:274-279 | conversely, `n` consecutive gone polls ending at poll `k` make the counter at least `n` |
| Dwell.ConfirmedEndNeedsMisses | bot.py:264-282 | every poll before the stopping one was under the cap; an uncapped stay ends only after `ended_checks` (at least one) consecutive gone checks |
| Dwell.MissesEndDwell | bot.py:277-282 | conversely, `ended_checks` consecutive gone checks always end the stay, at the last of them at the latest |
| Dwell.CappedWaitReachesCap | bot.py:266-272 | with a clock that does not run backwards within a poll, a capped stay reports at least the cap |
| GiveawayLog.WaitCell | bot.py:66 | the wait cell ends in "+" exactly when the stay was capped |
| GiveawayLog.ViewersCell | bot.py:75 | the viewers cell is "?" exactly when the count is unknown or zero |
| GiveawayLog.FormatRow | bot.py:64-77 | the row keeps the streamer as given, its type cell reads back as the type, its wait cell ends in "+" exactly when capped, and its viewers cell is "?" exactly for an unknown or zero count |
| GiveawayLog.ReadWaitCell | bot.py:66 | the wait cell reads back as the whole seconds and the capped flag |
| GiveawayLog.ReadViewersCell | bot.py:75 | the viewers cell reads back as the count, except that 0 reads back as unknown |
| GiveawayLog.ReadFormattedRow | bot.py:64-77 | a logged row keeps the streamer, the type, the whole seconds, the capped flag and any non-zero viewer count |
| Bot.StaysLoggedMeaning | bot.py:337-341 | the trace shape "every stay is followed at once by the row that logs it, and every row follows its stay" is equivalent to its recursive definition |
| Bot.LoggedStaysCounted | bot.py:337-341 | when stays are paired with rows, there are as many stays as rows |
| Bot.EntryOf | bot.py:178-210 | no badge means no tap and (False, False); otherwise the badge is tapped and the panel classified; the bot enters exactly when an entry button is shown, tapping the badge and then the first button; with no button the badge tap is the only tap; exactly one entry tap when entered |
| Bot.FirstEligibleFrom | bot.py:225-244 | the first of the thirty streams that shows the badge and whose count is unknown or within the pack cap, every stream before it failing that test |
| Bot.DiscoveryFirstMatch | bot.py:217-247 | discovery scrolls at most thirty times; it reports a stream only when that stream shows the badge, with the count read there being unknown or within the pack cap; it reports (False, None) exactly after thirty scrolls; its swipes count `d.scrolls` scrolls and nothing of any other kind |
| Bot.WindowStopFrom | bot.py:350-353 | the first pass of the wait on which the time is out or a badge shows |
| Bot.DwellEvents | bot.py:337-341 | a stay is logged right after it: one stay, one row, nothing else |
| Bot.NextGiveawayLogged | bot.py:355-366 | a second giveaway gives at most one entry tap, and one logged stay exactly when it was entered, is a pack giveaway, or still looks active |
| Bot.WindowAtMostOne | bot.py:345-368 | the wait for another giveaway handles at most one; it does anything only when a badge showed before the time was out, every earlier pass showing none |
| Bot.EngagedLogged | bot.py:334-368 | the first stay comes first and is logged; there are one or two stays; a second stay, and any entry tap at all, only when the count read after the first is known and within the cap for the type and the first was not capped |
| Bot.VisitLogged | bot.py:322-371 | on one stream: every stay logged; at most two stays; one scroll, last; at most two entry taps, and an entry tap at all exactly when `enter_giveaway` entered; a stay at all exactly when entered and not ruled out by the stricter cap; a second stay or a second entry tap only when re-engagement was allowed |
| Bot.OverCapSkipped | bot.py:325-332 | a non-pack giveaway over the stricter cap is skipped after it was entered: the entry tap counts, no stay and no row, one scroll |
| Bot.RunLogged | bot.py:309-374 | over a whole run, every stay is followed by exactly one row for it and every row follows its stay |
| Bot.WhatnotBot.constructor | bot.py:49-55 | a new bot has both counters at zero and an empty trace |
| Bot.WhatnotBot.ScrollToNextStream | bot.py:120-124 | one swipe is recorded and `streams_checked` goes up by one |
| Bot.WhatnotBot.EnterGiveaway | bot.py:178-210 | the method returns and taps what `EntryOf` specifies, and `giveaways_entered` goes up by one exactly when it entered |
| Bot.WhatnotBot.FindGiveawayStream | bot.py:217-247 | the method returns the first qualifying stream found by `FirstEligibleFrom` and records exactly the swipes before it; `streams_checked` counts them |
| Bot.WhatnotBot.Stay | bot.py:249-285 | one stay with the outcome `StayForGiveaway` specifies is recorded |
| Bot.WhatnotBot.LogGiveaway | bot.py:64-77 | one row, formatted from the stay's outcome and the viewer count, is recorded |
| Bot.WhatnotBot.StayAndLog | bot.py:337-341 | a stay followed by its row, with the count read after the stay |
| Bot.WhatnotBot.EnterNextGiveaway | bot.py:355-366 | the trace grows by what `NextGiveawayLogged` characterises |
| Bot.WhatnotBot.WaitForAnotherGiveaway | bot.py:347-366 | the trace grows by the wait's events, characterised by `WindowAtMostOne` |
| Bot.WhatnotBot.StayOnStream | bot.py:334-368 | the trace grows by the events `EngagedLogged` characterises |
| Bot.WhatnotBot.HandleFoundStream | bot.py:322-371 | the trace grows by the events `VisitLogged` characterises |
| Bot.WhatnotBot.PlayRound | bot.py:310-371 | one pass of the loop records the discovery swipes and the visit; it returns whether the loop goes on |
| Bot.WhatnotBot.Run | bot.py:295-374 | nothing happens when the category or the first stream is missing; otherwise the trace grows by the run's events, paired as `RunLogged` states, and the counters keep counting entry taps and swipes |
| Dashboard.Truncate | server.py:135 | `int(x)` of a finite float rounds toward zero |
| Dashboard.CoerceInt | server.py:134-137 | `int(v)` overflows exactly on an infinity and is refused exactly for None, NaN, a list, an object or a string `int()` cannot parse; a float is truncated |
| Dashboard.StoredIntReadsBack | server.py:135-140 | an int sent as a number or as its `str()` text is stored as itself |
| Dashboard.StrOf | server.py:140 | `str(v)` keeps a string as it is, prints a bool as "True" or "False", and prints an int as text that `int()` reads back as the same int |
| Dashboard.Merged | server.py:126-140 | the corrected merge: keys outside the two lists and keys the request omits keep their values; an int key `int()` refuses keeps its value; a converted int key stores the int; a str key stores `str()` of the value |
| Dashboard.SetConfigAsWritten | server.py:120-142 | as written: refused with 400 while running; a 500 happens only when some int key overflows, and then no str key has changed |
| Dashboard.AsWrittenWithoutInfinity | server.py:132-140 | without an infinity among the int keys, the handler as written and the corrected merge agree |
| Dashboard.InfinityAbortsHalfway | server.py:132-137 | as written, a request with `max_wait_pack` = `1e999` fails with 500 after `max_viewers_pack` changed and before `mode` did |
| Dashboard.InfinityIgnoredWhenMerged | server.py:132-140 | the corrected merge ignores that infinity and applies the rest of the same request |
| Dashboard.Server.constructor | server.py:19-23 | no thread, no bot, the stop flag clear, the default configuration |
| Dashboard.Server.CurrentStatus | server.py:36-44 | running exactly when a thread is alive; the counters of the bot, or 0 and 0 when there is none |
| Dashboard.Server.Start | server.py:48-99 | 400 while running; 500 with the message when the device check raised; 400 when no device is listed; otherwise a fresh stop flag and a live thread; an error changes nothing |
| Dashboard.Server.Stop | server.py:103-111 | 400 when not running, changing nothing; otherwise the stop flag is set and the thread forgotten |
| Dashboard.Server.SetConfig | server.py:120-142 | 400 while running, changing nothing; otherwise the configuration becomes the corrected merge of the old one and the request, and is returned |
| Dashboard.Server.BotCreated | server.py:86-90 | the bot the thread built becomes the status source |
| Dashboard.Server.ThreadFinished | server.py:92-95 | when the thread ends the bot is dropped, status reads 0 and 0, and the registered thread is no longer alive |

## Left out

- The queries listed at the top of this file share one snapshot. So the
  model does not capture a screen that changes between them. An example is
  a badge that vanishes between the viewer-count query and the badge query
  of one discovery pass.
- Device I/O is not modelled. The uiautomator2 connection, taps and swipes
  as gestures, sleeps and random delays become snapshots, clock readings and
  trace events.
- Navigation is not modelled: `go_home`, `go_to_category`,
  `enter_first_stream`, `leave_stream`. Whether the category and the first
  stream were reached, and whether the bot got back into a stream after an
  empty discovery, are inputs.
- The random length of the wait for another giveaway is an input
  (`Visit.window`).
- `run`'s loop is unbounded. The model runs it over a finite sequence of
  observed rounds and stops early when a round ends the loop.
- `Bot.WhatnotBot.Run`: does not model the `KeyboardInterrupt` and
  exception handlers or the final log lines. An exception raised by the
  driver in the middle of a step is not modelled.
- Logging to the console, the `_init_log` header row, and the timestamp
  column of the history are not modelled. The clock is outside the model.
- The dashboard's log deque, the server-sent-events stream, Flask routing,
  `api_get_config` and `index` are not modelled. The ADB keep-awake
  commands are not modelled either; their failure is ignored by the source
  anyway.
- `Dashboard.Server.Start`: the output of `adb devices` is not parsed. The
  check is an input that gives the number of listed devices or the message
  of the exception. Clearing the log deque is not modelled.
- `Dashboard.Server.Stop`: the 30-second join with the thread is not
  modelled. Threads are not modelled; their effects come in through
  `BotCreated` and `ThreadFinished`.
- Python text semantics are modelled on ASCII only. That covers
  `isdigit`, `lower`, `int()`'s whitespace stripping and digits. Python's
  limit of 4300 digits for `int()` of a string is not modelled.
- Floats are real numbers. `str()` of a float is carried as text with the
  value, and a JSON number too large for a float is an infinity. Rounding
  during JSON parsing is not modelled.
- `Dashboard.SetConfigAsWritten`: a request body that is not a JSON object
  is not modelled. Depending on the body, the source either leaves the
  configuration unchanged or fails. A list such as `[1, 2]` passes every
  `k in data` test as false, and the reply is 200 with the configuration
  unchanged. A string that contains an int key's name raises a TypeError
  inside the `try`, which is caught. `null`, a number, or a string that
  contains a str key's name raises a TypeError that is not caught.

## Findings

| source | as written | input that shows it | evidently intended | confidence | as-written member | corrected member |
|---|---|---|---|---|---|---|
| server.py:132-137 | `int(data[k])` of an infinity raises OverflowError, which `except (ValueError, TypeError)` does not catch. The request ends with status 500 after the earlier int keys were already written and before any str key is. | `{"max_viewers_pack": 20, "max_wait_pack": 1e999, "mode": "all"}` against `max_viewers_pack` = 50, `max_wait_pack` = 600, `mode` = "pack". The reply is 500, `max_viewers_pack` becomes 20, and `mode` stays "pack". | A value `int()` cannot convert is ignored and the rest of the request is applied: `max_viewers_pack` 20, `max_wait_pack` 600, `mode` "all". | not executed | Dashboard.InfinityAbortsHalfway | Dashboard.InfinityIgnoredWhenMerged |
