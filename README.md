# Church program timer — timer and roster core

`Timer.py` is a Tkinter desktop app for a church service. The operator keeps a roster of speakers. Each speaker has a name, a segment title, notes, and an allocated time in minutes and seconds. The operator loads one speaker at a time and runs a one-second countdown, which goes negative once the speaker overruns. A shared snapshot holds five fields:

- the `MM:SS` label text
- the speaker's name
- the speaker's segment
- a warning flag
- a past-zero flag

The app republishes that snapshot whenever the countdown or the current speaker changes. An embedded HTTP server serves it as JSON at `GET /timer_state` to phones that poll it.

This project models that core in Dafny:

- `Text`: Python's `str.strip()` and the `{n:02d}` zero-padded decimal rendering.
- `Clock`: the countdown label text (`_display_time`). It comes with a parser that reads the text back, which proves the text identifies the remaining time.
- `Roster`: the speaker record, the input bounds, the allocation in seconds, and the list-box line.
- `SharedState`:
  - the warning threshold and the on-screen bands
  - the published snapshot (`_update_shared_timer_state`)
  - the initial store contents
  - the `Store` class that holds the shared snapshot
- `Countdown`: the tick and stop as functions on values. Lemmas cover repeated ticks.
- `Scheduling`: the `after(1000, …)` reschedule. It counts the callback requests still pending with Tk and fires each of them once per second of wall time.
- `PollEndpoint`: `TimerRequestHandler.do_GET`.
- `App`: the `ChurchTimerApp` class. It has:
  - fields `timeLeft`, `running`, `speakers` and `current`, plus the store
  - one method per command: tick, stop, load, reset, start, next, remove, add/update, roster select
  - the roster display loop, specified by the list-box view `RosterView`

  The class invariant `Valid()` says:
  - `current` is -1 or an index into the roster
  - every entry passed the add/update checks
  - the store always holds `SnapshotOf(timeLeft, current speaker)`

  Every command that changes state is proved to preserve the invariant.

Dialog boxes become `Fail` outcomes with an `Error` value. In the class, the `after(1000, …)` reschedule becomes the caller calling `Tick` once per second, and `Tick` returns `None` while the timer is stopped. That is the schedule of a single chain of callbacks. Timer.py never cancels a pending countdown tick (the `after` of Timer.py:586), so it does not always keep to a single chain: `Scheduling` models the pending requests and shows what happens then (see Findings).

Where the code behaves differently from what one might expect, the model follows the code:

- The published warning flag is `0 < t <= 60` (`Timer.py:536`). A zero time raises no flag, even though the tick shows "ROUND UP!" at zero (`Timer.py:568`). `SharedState.BandsAndFlags` states the difference.
- Loading a speaker does not stop the timer (`Timer.py:794-832`). `App.ChurchTimerApp.Load` keeps `running` as it was. Of the commands that load an entry, only next speaker and reset stop it, and reset includes the removal of the current speaker.
- Starting performs the first tick at once (`Timer.py:618-619`). A successful start therefore leaves one second less than the time it started from. That is the allocation only on a first start, since a start after a stop continues from the time left.

## Model

| member | source | states |
|---|---|---|
| Text.Strip | Timer.py:659-663 | The stripped text is what remains of the input once leading whitespace is dropped, cut before a tail made only of whitespace. It has no whitespace at either end, and it is empty exactly when every character of the input is whitespace. |
| Text.StripUnique | Timer.py:659-663 | Those properties pin the stripped text down: any prefix of the left-trimmed input that is followed only by whitespace and does not itself end in whitespace is the stripped text. |
| Text.DecimalValue | Timer.py:768 | Reading back the decimal digits of `n` gives `n`. |
| Text.Pad2Value | Timer.py:593 | Zero-padding to two digits does not change the number the digits denote. |
| Text.Pad2Small | Timer.py:593 | Below 100, `{n:02d}` is exactly the tens digit followed by the units digit. |
| Text.Pad2 | Timer.py:593 | `{n:02d}` is all digits and at least two long, and exactly two long below 100. |
| Text.Pad2LeadingZero | Timer.py:593 | `{n:02d}` starts with a zero exactly when `n` is below 10, so zero-filling happens only where it is needed. |
| Clock.Format | Timer.py:589-600 | The label text is at least `MM:SS` long, with the colon third from the end. It starts with `-` exactly when the time is negative. |
| Clock.MinSecRoundTrip | Timer.py:591-594 | Parsing the `MM:SS` text of a non-negative time gives the time back. |
| Clock.ParseFormat | Timer.py:589-600 | Parsing the label text gives back the exact remaining time, for every integer, negative included. |
| Clock.FormatNegative | Timer.py:594-597 | A negative time shows as `-` followed by the label of its magnitude. |
| Clock.FormatInjective | Timer.py:589-600 | Two different remaining times never show the same label. |
| Clock.SecondsField | Timer.py:592-598 | The last two characters of the label are always digits below 60, for any sign and size of the time. |
| Clock.FormatExamples | Timer.py:589-600 | Worked examples: 125 s is `02:05`, -65 s is `-01:05`, and 0 is `00:00`. |
| Clock.FormatLargest | Timer.py:591-594 | The largest allocation, 999:59, shows a three-digit minutes field. |
| Roster.Allocation | Timer.py:799 | For a valid entry, the allocation in seconds is below 60000. Minutes and seconds are recovered from it by `/ 60` and `% 60`. It is zero exactly when both fields are zero. |
| Roster.RosterLine | Timer.py:767-769 | A roster line opens with the 1-based position in decimal followed by `. ` and closes with `)`. |
| Roster.RosterLineShowsLabel | Timer.py:768-769 | The time in a roster line is the same text the countdown label shows when that speaker is loaded. |
| SharedState.IsWarning | Timer.py:536 | The published warning flag is raised exactly when some time is left but no more than the 60-second threshold. |
| SharedState.IsPastZero | Timer.py:537 | The published past-zero flag is raised exactly when the label shows a minus sign, that is, when the speaker has overrun. |
| SharedState.WarningText | Timer.py:562-579 | The warning label is empty exactly in the normal band and otherwise ends with `!`. |
| SharedState.TickBand | Timer.py:562-579 | The tick shows TIME'S UP! exactly when the time is below zero. It shows ROUND UP! exactly when the warning flag is raised or the time is zero. |
| SharedState.BandsAndFlags | Timer.py:536-537 | The normal band is exactly the time with neither flag raised, zero excepted. The two flags never clash. At zero the band shows "ROUND UP!" although neither flag is raised. |
| SharedState.SnapshotOf | Timer.py:522-537 | The two flags are never both set. The text starts with `-` exactly when past-zero is set. Name and segment come from the current speaker, or read "N/A" when there is none. |
| SharedState.SnapshotSelfConsistent | Timer.py:533-537 | A snapshot's text parses back to the time it was taken at. Its flags are the warning and past-zero classifications of that time. |
| SharedState.InitialIsIdle | Timer.py:13-19 | The initial store contents equal the snapshot of an idle window: 0 seconds and no speaker. |
| SharedState.Store.Publish | Timer.py:532-537 | Publishing replaces the whole snapshot. |
| SharedState.Store.Read | Timer.py:31-32 | A read returns the snapshot currently stored. |
| Countdown.Step | Timer.py:558-559 | A tick never changes the running flag. It changes the state exactly when the timer is running, and lowers the time by at most one second. |
| Countdown.Halt | Timer.py:627 | A stop leaves the timer stopped with the remaining time unchanged. |
| Countdown.StepsCount | Timer.py:558-559 | While running, `n` ticks lower the time by exactly `n` and keep it running. While stopped, ticks change nothing. |
| Countdown.HaltIdempotent | Timer.py:625-630 | Stopping twice is stopping once. A stop keeps the remaining time and leaves the timer stopped. |
| Countdown.HaltedStaysPut | Timer.py:625-630 | After a stop, any number of ticks leaves the countdown where it was. |
| Countdown.WarningScenario | Timer.py:536-537 | From 65 s, five ticks reach 60 and raise the warning flag. Sixty-six ticks reach -1, which raises past-zero and clears the warning. |
| Scheduling.Update | Timer.py:556-586 | A call of `_update_timer` is one tick. It adds a pending request exactly when the timer is running. |
| Scheduling.Stop | Timer.py:627 | `_stop_timer` stops the countdown and keeps its time, but leaves every pending request in place. |
| Scheduling.StartAsWritten | Timer.py:618-619 | A start while running changes nothing. From stopped, it runs the timer, counts one second off at once and adds a request beside those still pending. |
| Scheduling.StartFixed | Timer.py:618-619 | The corrected start: while running it changes nothing. From stopped, it runs the timer, counts one second off and leaves exactly one request pending. |
| Scheduling.Fire | Timer.py:556-586 | A request falling due is one tick. Its chain goes on exactly when the timer is running, and otherwise it is used up. |
| Scheduling.FireNCount | Timer.py:556-586 | While running, `n` firings count off `n` seconds and keep every request pending. While stopped, they count nothing and use up `n` requests. |
| Scheduling.SecondCount | Timer.py:556-586 | While running, one second of wall time counts off one second per pending request. While stopped, it counts nothing and every pending request dies out. |
| Scheduling.StopStartDoublesSpeed | Timer.py:618-627 | As written: start, stop and start again within one second leave two requests pending, and the next second counts off two seconds. |
| Scheduling.FixedKeepsOneChain | Timer.py:618-627 | With the pending request cancelled on start, start, stop and every second keep at most one request pending, and exactly one while running. |
| Scheduling.SecondIsStep | Timer.py:556-586 | With a single chain, one second of wall time is exactly one tick. |
| Scheduling.FixedSecondsAreSteps | Timer.py:556-586 | With a single chain, `n` seconds of wall time are exactly `n` ticks. |
| Scheduling.StopStartFixed | Timer.py:618-627 | With the corrected start, start, stop and start again within one second leave one request, and the next second counts off one second. |
| PollEndpoint.Respond | Timer.py:24-38 | The response is 200 exactly for `/timer_state`, with the JSON content type, the CORS header and the snapshot as body. Every other path gets 404 with the body "404 Not Found". |
| PollEndpoint.DoGet | Timer.py:24-38 | The answer is exactly `Respond` applied to the path and the snapshot the store holds at the time of the request: status, headers and body. |
| App.NewEntry | Timer.py:659-661 | The stored entry is valid exactly when the stripped name is not empty and the time is in range. Its allocation is `minutes * 60 + seconds`. |
| App.CheckEntry | Timer.py:665-677 | The name check fails exactly when the stripped name is empty, that is, when the name is blank. With a name, NotANumber is reported exactly when a number did not parse, and TimeOutOfRange exactly when both parsed but are out of range. The entry passes exactly when none of these holds, and then the stored entry is valid whatever its title and notes. |
| App.LoadTarget | Timer.py:794-825 | An index inside the roster yields that index and its allocation. Any other index yields nobody and 0. |
| App.NextIndex | Timer.py:786-788 | The next index is the one after `i`, wrapping to 0 at the end of the roster, and is always inside the roster. |
| App.NextWalksRoster | Timer.py:777-790 | From nobody loaded, `k` presses reach entry `k - 1`. `n` presses on an `n`-entry roster come back to the same entry. |
| App.NextWithoutWrap | Timer.py:784-788 | Before the end of the roster, each press of next speaker moves on by one. |
| App.NextCompose | Timer.py:784-788 | `a + b` presses of next speaker are `a` presses followed by `b` presses. |
| App.Without | Timer.py:717 | Deleting entry `i` keeps the earlier entries in place and moves the later ones up by one. |
| App.RepairedIndex | Timer.py:719-725 | After deleting entry `i`, the current index is cleared exactly when nobody was current or the current entry was deleted. Otherwise it is the same position moved up by one when it lay after `i`, and so names the same speaker in the shortened roster. |
| App.RosterView | Timer.py:765-774 | The list box has one line per entry, in order, each the roster line of that entry. Exactly the current entry is highlighted. |
| App.StaleRefreshAfterRemove | Timer.py:717-725 | As written: the list box is refreshed before the index is repaired. Deleting an entry before the current one leaves the current speaker unhighlighted. Deleting the current one highlights the next speaker although nobody is current. |
| App.RefreshAfterRepair | Timer.py:717-725 | Refreshing with the repaired index highlights only the speaker who is still current, and highlights that speaker whenever there is one. |
| App.ChurchTimerApp.CurrentSpeaker | Timer.py:527-530 | There is a current speaker exactly when the index is not -1, and it is the roster entry at that index. |
| App.ChurchTimerApp.constructor | Timer.py:282-287 | A new window is stopped at 0 with an empty roster and nobody loaded. The store holds the initial snapshot, and the invariant holds. |
| App.ChurchTimerApp.Tick | Timer.py:550-586 | While running, one second is counted off, the new snapshot is published and the band is returned. While stopped, nothing changes and `None` is returned. The invariant is kept. |
| App.ChurchTimerApp.Stop | Timer.py:625-630 | Only the running flag drops. The time, roster and current index stay. The invariant is kept. |
| App.ChurchTimerApp.Load | Timer.py:794-832 | `(current, timeLeft)` becomes the load target of the index. `running` and the roster are untouched, and the snapshot is republished. |
| App.ChurchTimerApp.Reset | Timer.py:632-654 | The timer stops. The current entry's allocation is restored, or the state falls back to nobody and 0. The snapshot is republished. |
| App.ChurchTimerApp.Start | Timer.py:602-623 | Already running: nothing happens. Nobody loaded and an empty roster: NoSpeaker. Nobody loaded otherwise: the first entry is loaded. 0 left on an entry allocated 00:00: ZeroAllocation. Otherwise the timer runs and one second is counted off at once. |
| App.ChurchTimerApp.Next | Timer.py:777-791 | An empty roster gives RosterEmpty and changes nothing. Otherwise the timer stops and the next entry, wrapping around, is loaded with its allocation. |
| App.ChurchTimerApp.Remove | Timer.py:710-730 | No selection, or one outside the roster, gives NoSelection. If unconfirmed, nothing changes. If confirmed, the entry is deleted, the current index keeps naming the same speaker, and removing the current speaker resets to nobody and 0, stopped. |
| App.ChurchTimerApp.DeleteEntry | Timer.py:716-725 | The roster loses entry `i`. The current index becomes the repaired index, and the timer is reset only when the current speaker was removed. |
| App.ChurchTimerApp.AddOrUpdate | Timer.py:657-707 | The outcome is the input check. A failure changes nothing. With a selection, that entry is replaced and reloaded if current. Without one, the entry is appended, and the first entry is loaded if nobody was. `running` is never touched. |
| App.ChurchTimerApp.ReplaceEntry | Timer.py:680-690 | Entry `i` is overwritten and reloaded when it is the current one. Nothing else changes. |
| App.ChurchTimerApp.AppendEntry | Timer.py:693-704 | The entry is appended. When nobody was loaded, the first entry is loaded. |
| App.ChurchTimerApp.Select | Timer.py:732-752 | Selecting an existing entry loads it only while stopped and only if it is not already current. Otherwise nothing changes. |
| App.ChurchTimerApp.RosterDisplay | Timer.py:765-774 | The loop builds exactly the list-box view of the roster and the current index. |
| App.SessionStart | Timer.py:602-623 | Adding a 01:05 speaker to an empty roster loads it. Starting then runs the timer with 64 s left. |
| App.SessionStop | Timer.py:625-654 | Four more ticks reach the warning band at 60. Two stops in a row leave the timer stopped, a later tick changes nothing, and reset restores 65 s. |

## Left out

- The Tkinter user interface is not modelled: widgets, colours, fonts, window centring, the resize debounce, the speaker display window (`SpeakerDisplayWindow`) and its blinking. The band each tick shows (`TickBand`, `WarningText`) is modelled; its colours are not.
- The HTTP server thread, sockets, `_get_local_ip`, request logging and application shutdown are not modelled. `DoGet` takes the path and the store as parameters.
- `timer_state_lock` is not modelled. The store is one object that is read and replaced whole, which matches what the lock guarantees.
- JSON serialisation and UTF-8 encoding of the response are not modelled. The body carries the snapshot record itself.
- The Tk event loop is not modelled. `Scheduling` fires every pending request once per second of wall time and does not model their order within a second.
- `int()` parsing of the minutes and seconds entries is not modelled. The parsed value, or `None` for a `ValueError`, is a parameter of `AddOrUpdate` and `CheckEntry`.
- Reading and filling the entry fields (`_clear_speaker_input_fields`, and the field updates in `_on_roster_select` and `_load_speaker_details`) is not modelled, because it only affects the display. The info and confirmation dialogs are not modelled either; the user's answer to the removal question is the `confirmed` parameter.
- Text.Strip: removes exactly the characters for which Python's `str.isspace()` holds, taken from a fixed list. Unicode data beyond that list is not consulted.
- App.ChurchTimerApp.Start: Timer.py has a second "Invalid Time" check for 0 seconds with an empty roster. Under the invariant it can never fire, because somebody is always loaded by then. The body leaves it out, and the contract covers every reachable case.
- App.ChurchTimerApp.AddOrUpdate: requires the list-box selection to name an existing entry. In Timer.py, a stale selection raises an uncaught `IndexError` after the checks have passed.
- App.ChurchTimerApp.Tick: does not model the colours or the text of the warning label. It returns the band that selects them.
- App.ChurchTimerApp.Tick: the class is ticked once per second, which is the single chain of `Scheduling.StartFixed`. The extra chains that Timer.py piles up when a stop and a start fall within one second are modelled only in `Scheduling`.
- App.ChurchTimerApp.Remove: the class refreshes the list box only through `RosterDisplay` with the repaired index. The stale refresh of Timer.py:718 is stated by `App.StaleRefreshAfterRemove`.

## Findings

| source | as written | input that shows it | evidently intended | confidence | as-written member | corrected member |
|---|---|---|---|---|---|---|
| Timer.py:586, 618-619, 627 | `_stop_timer` leaves the pending `after` request alive, and `_start_timer` starts a new chain beside it | start at 65 s, stop and start again within one second: two requests are pending and the countdown then drops two seconds per second | one chain of ticks, with the pending request cancelled as the file does for its blink and resize jobs | high (not executed) | Scheduling.StopStartDoublesSpeed | Scheduling.FixedSecondsAreSteps |
| Timer.py:717-725 | the list box is refreshed before `current_speaker_index` is repaired | roster of three with entry 2 current, remove entry 0: the refreshed list box highlights nobody, though the same speaker is still current | refresh after the index is repaired | high (not executed) | App.StaleRefreshAfterRemove | App.RefreshAfterRepair |
