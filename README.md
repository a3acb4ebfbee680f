# Alarm registry of smart_alarm.py, in Dafny

smart_alarm.py is a Flask alarm clock. A request to `/` or `/home` can clear the notifications,
cancel an alarm or create one. Creating an alarm appends a display text to `ALARM_LIST`. It then
starts a `new_alarm` thread, which enters an event in the shared `sched.scheduler` and appends the
returned handle to `ALARM_ACTIVE`. When the event fires, a one-shot alarm (`alarm_expired`) posts
a notice to `ALARM_EXPIRED_LIST` and removes its text. A weekly alarm (`alarm_expired_repeat`)
posts a notice and starts a `repeat_alarm` thread, which enters the same alarm a week later.
`cancel_alarm` looks the display text up in `ALARM_LIST` and cancels the handle at the same
index of `ALARM_ACTIVE`.

This project models that registry:

- `wrappers.dfy` holds `Option`.
- `pylist.dfy` (`PyList`) models `list.index`, `list.pop(i)` and `list.remove`.
- `alarm_text.dfy` (`AlarmText`) builds every string the registry stores or hands to `speech`.
  The date and time are cut out of the `YYYY-MM-DD HH:MM` argument by Python's clamping slices.
- `sched.dfy` (`Sched`) holds the scheduler's events, ordered by time and then by entry order. Its
  `Scheduler` class has `enter`, `cancel` and one turn of `run`.
- `alarm_spec.dfy` (`AlarmSpec`) gives the registry as a value, with one step function per thread
  body or request:
  - `NewAlarm`, `Cancel`, `Expired`, `ExpiredRepeat`, `RepeatAlarm`, `Fire` (one turn of
    `SCHEDULER.run()`) and `Home`.
  - Where Python raises in `cancel_alarm`, `alarm_expired` or `home`, the step reports the
    exception as an outcome and leaves the lists exactly as they are at the raise. `NewAlarm`
    returns only a state: the strptime failure at smart_alarm.py:114 arrives as an end time of
    `None`, and the step then returns the registry unchanged.
- `registry.dfy` (`AlarmClock`) has `Registry`, a class whose fields are the three global lists,
  the speech trace and the scheduler. Each method is the source's function, written
  imperatively. Each is proved to move the registry from its old snapshot to the state the
  matching step function gives.
- `alarm_properties.dfy` (`AlarmProperties`) proves which steps keep the registry consistent:
  - Every step keeps the scheduler handles sound: entry numbers are below the counter, no two
    different handles share one, and there are no duplicates.
  - Cancel and clear requests, and a create whose date parses, keep `ALARM_LIST[i]` and
    `ALARM_ACTIVE[i]` the same alarm, as the comment at smart_alarm.py:192 assumes. A create whose
    date strptime rejects breaks the pairing.
  - Both expiry callbacks break that pairing.
  - `StaleHandleScenario` and `CancelledAlarmStillFires` show the consequence: after one alarm has expired, cancelling another
    alarm picks the stale handle, raises in `SCHEDULER.cancel`, and leaves the cancelled alarm
    queued.
  - The weekly lemmas follow a repeating alarm through `n` expirations. Each re-arm may run at
    or after the due time, and each turn is proved to be a real scheduler turn followed by the
    repeat_alarm thread.

## Model

| member | source | states |
|---|---|---|
| PyList.FirstIndex | smart_alarm.py:148 | `list.index`: the result holds `x` and no earlier position does |
| PyList.RemoveAt | smart_alarm.py:149 | `list.pop(i)`: one element fewer; the elements before `i` stay in place and the ones after `i` shift down by one; exactly `xs[i]` is gone from the multiset |
| PyList.Remove | smart_alarm.py:194 | `sched.cancel` removes one copy of the event from the queue: one element fewer, and the multiset loses exactly that event |
| AlarmText.DisplayText | smart_alarm.py:218-226 | the display text starts with the summary; the ending is 12 characters (" every week.") when repeat is "true" and 1 otherwise; the text always ends in "." |
| AlarmText.DisplayTextLayout | smart_alarm.py:215-228 | for an alarm argument of 16 or more characters, the text is "Alarm for " + description + " set at " + alarm[11..16] + " on " + alarm[0..10], then " every week." when repeat is "true" and "." otherwise; an argument of 11 or fewer characters still gives a text, with an empty time part |
| AlarmText.DisplayTextEnding | smart_alarm.py:221-226 | a one-shot text is the summary plus ".", the exact key alarm_expired looks up; a weekly text is the summary plus " every week." |
| AlarmText.WeeklyTextShape | smart_alarm.py:221-224 | a weekly text starts with "Alarm for " + description + " set at " and ends with " every week." |
| AlarmText.DisplayTextIsNotDescription | smart_alarm.py:186 | the display text is strictly longer than the description, so cancelling by the bare description never finds that alarm |
| AlarmText.MeetingExample | smart_alarm.py:215-228 | the concrete one-shot and weekly texts for "Meeting" at "2030-01-01 09:00" |
| AlarmText.MeetingCancelNotice | smart_alarm.py:201 | cancelling that alarm by its display text leaves "<display text> has been cancelled.", which differs from "Meeting has been cancelled." |
| Sched.Earliest | smart_alarm.py:136 | the position of an event that no other queued event precedes (earlier time, or the same time and entered earlier) |
| Sched.NextDue | smart_alarm.py:136 | nothing is due iff every queued event lies after `now`; otherwise the result is queued, due, and no queued event precedes it |
| Sched.Scheduler.constructor | smart_alarm.py:21 | the scheduler starts with an empty queue and entry counter 0 |
| Sched.Scheduler.Enter | smart_alarm.py:120-121 | the event is due `delay` seconds after `now`, takes the next entry number, and is appended to the queue |
| Sched.Scheduler.Cancel | smart_alarm.py:194 | succeeds iff the event is still queued, and then removes it; otherwise the queue is unchanged (Python raises ValueError) |
| Sched.Scheduler.PopDue | smart_alarm.py:136 | takes the next due event off the queue, or leaves the queue alone when nothing is due |
| AlarmSpec.AppendAlarm | smart_alarm.py:215-228 | ALARM_LIST keeps its old entries and gains exactly the display text at its end; every other list and the scheduler are untouched |
| AlarmSpec.Arm | smart_alarm.py:120-123 | `enter` then `ALARM_ACTIVE.append`: one handle appended and queued, due `delay` after `now`, with the next entry number and the given callback; ALARM_LIST, the notices and the speech are untouched |
| AlarmSpec.ArmKeepsValid | smart_alarm.py:120-123 | entering an event and appending its handle keeps entry numbers below the counter and both queues free of duplicates |
| AlarmSpec.NewAlarm | smart_alarm.py:101-132 | an unparsable date changes nothing; otherwise exactly one handle is appended to ALARM_ACTIVE and queued, due exactly at the end time (even one in the past), with the callback repeat selects and the next entry number, which the counter then moves past; the creation is spoken and ALARM_LIST and the notices are untouched |
| AlarmSpec.Cancel | smart_alarm.py:181-206 | a text not in ALARM_LIST changes nothing but the speech; otherwise the first match is popped; the outcome is IndexError iff ALARM_ACTIVE is too short, ValueError iff the handle at that index is no longer queued; a successful cancel pops ALARM_ACTIVE at the same index, removes the handle from the queue and appends the one cancellation notice |
| AlarmSpec.CancelKeepsValid | smart_alarm.py:193-199 | removing a queued handle from ALARM_ACTIVE and from the queue keeps the bookkeeping sound |
| AlarmSpec.Expired | smart_alarm.py:138-153 | the notice is appended first; the text is found iff the summary plus "." is listed, and then its first occurrence is popped and the expiry is spoken; ALARM_ACTIVE and the queue are never touched |
| AlarmSpec.ExpiredRepeat | smart_alarm.py:155-163 | one repeat notice appended to the notices and to the speech; ALARM_LIST, ALARM_ACTIVE and the queue are untouched |
| AlarmSpec.RepeatAlarm | smart_alarm.py:170-178 | one handle is appended, due 604800 seconds after `now`, with the weekly callback and the next entry number, which the counter then moves past; ALARM_LIST and the notices are untouched |
| AlarmSpec.Clear | smart_alarm.py:245-246 | ALARM_EXPIRED_LIST becomes empty; nothing else changes |
| AlarmSpec.Fire | smart_alarm.py:136 | idle iff nothing is due; otherwise a due event that no queued event precedes leaves the queue (the queue loses exactly that event) and its callback runs: a weekly one appends its notice and speaks it, a one-shot one appends its notice and, iff its text is listed, pops that text and speaks the expiry; ALARM_ACTIVE and the counter are never touched |
| AlarmSpec.Home | smart_alarm.py:245-260 | the request fails iff a cancellation raised; otherwise it starts new_alarm iff both alarm and description are given; ALARM_ACTIVE, the queue, the notices and the speech are exactly what clearing (if asked) and then cancel_alarm (if asked) leave; ALARM_LIST is what they leave, plus the new display text at the end when an alarm is created; without a cancel argument ALARM_ACTIVE and the queue are untouched and the notices are emptied iff clear is given |
| AlarmProperties.InitIsValidAndPaired | smart_alarm.py:14-21 | the empty registry is sound and paired |
| AlarmProperties.NewAlarmKeepsValid | smart_alarm.py:101-132 | new_alarm keeps the handle bookkeeping sound |
| AlarmProperties.RepeatAlarmKeepsValid | smart_alarm.py:170-178 | repeat_alarm keeps the handle bookkeeping sound |
| AlarmProperties.CancelStepKeepsValid | smart_alarm.py:181-206 | cancel_alarm keeps the handle bookkeeping sound, whichever way it ends |
| AlarmProperties.FireKeepsValid | smart_alarm.py:136 | a turn of the scheduler keeps the handle bookkeeping sound |
| AlarmProperties.NextDuePrecedesOthers | smart_alarm.py:136 | on a sound registry the event a scheduler turn runs precedes every other queued event, since no two queued events share an entry number |
| AlarmProperties.HomeKeepsValid | smart_alarm.py:245-260 | a request keeps the handle bookkeeping sound |
| AlarmProperties.CreateKeepsPairing | smart_alarm.py:252-260 | append_alarm followed by a new_alarm that parses its date keeps the lists paired and lists exactly the new display text at the new index |
| AlarmProperties.UnparsedCreateBreaksPairing | smart_alarm.py:114 | when strptime raises, ALARM_LIST ends up one longer than ALARM_ACTIVE |
| AlarmProperties.CancelKeepsPairing | smart_alarm.py:186-203 | on a paired registry a listed text is always cancelled: both lists lose one entry, one notice is appended, and the pairing holds |
| AlarmProperties.CancelGuardsHold | smart_alarm.py:186-199 | the `len(...) > 0` guards always hold once the text is listed and the handle is read; AlarmClock.Registry.CancelAlarm, which keeps the guards and is proved equal to the guard-free AlarmSpec.Cancel, is the full evidence that they are redundant |
| AlarmProperties.RequestKeepsPairing | smart_alarm.py:245-260 | a request on a paired registry never raises, and the registry is paired again once the new_alarm thread has armed its event |
| AlarmProperties.ClearOnlyEmptiesNotices | smart_alarm.py:245-246 | clear empties ALARM_EXPIRED_LIST and changes nothing else |
| AlarmProperties.OneShotExpiryBreaksPairing | smart_alarm.py:144-149 | a one-shot expiry on a paired registry finds and pops its text but keeps its handle, so ALARM_ACTIVE is one longer and the lists are no longer paired |
| AlarmProperties.WeeklyExpiryBreaksPairing | smart_alarm.py:160-177 | a weekly expiry and its rearm keep ALARM_LIST and append a second handle, so the lists are no longer paired |
| AlarmProperties.NewAlarmDueWhenEndTimeReached | smart_alarm.py:113-120 | a new alarm is due at once iff its end time is not after `now`: a negative delay is accepted |
| AlarmProperties.OneWeek | smart_alarm.py:155-178 | a lone weekly event due by the firing time fires, posts one notice, and is re-entered as the only queued event, due one week after the moment repeat_alarm runs |
| AlarmProperties.WeeklyAlarmFireTime | smart_alarm.py:170-178 | after weekly turns whose re-arms never run before the event was due, the one queued event is that alarm's, due a week after the last re-arm, so at least `n` weeks after the first due time, and exactly `n` weeks after when every turn is on time |
| AlarmProperties.WeeklyAlarmNotices | smart_alarm.py:160-163 | after `n` weekly turns there are exactly `n` more repeat notices, and ALARM_LIST is unchanged |
| AlarmProperties.WeeklyAlarmHandles | smart_alarm.py:176-177 | after `n` weekly turns ALARM_ACTIVE keeps its old handles and has `n` more |
| AlarmProperties.RunWeeksIsFireThenRearm | smart_alarm.py:155-178 | after any number of turns, a scheduler turn at or after the waiting event's due time, followed by the repeat_alarm thread, is exactly one more weekly turn |
| AlarmProperties.ScenarioCreated | smart_alarm.py:252-260 | two one-shot alarms, for 09:00 and 09:05 of the same day (end times 100 and 400, 300 seconds apart), are listed and queued in creation order |
| AlarmProperties.ScenarioFirstExpiry | smart_alarm.py:144-149 | the first alarm's expiry pops its text but leaves its handle at index 0 |
| AlarmProperties.ScenarioCancel | smart_alarm.py:188-194 | cancelling the second alarm then pops its text, picks the stale handle and raises ValueError, leaving the second event queued |
| AlarmProperties.ScenarioSecondExpiry | smart_alarm.py:144-148 | the second event still fires: its notice is appended and the lookup raises |
| AlarmProperties.StaleHandleScenario | smart_alarm.py:181-206 | from the registry ScenarioCreated builds: "A" expires at 100 (its handle stays at index 0), then cancelling "B" pops "B"'s text, picks "A"'s stale handle and fails with ValueError, leaving "B" queued and no notice added |
| AlarmProperties.CancelledAlarmStillFires | smart_alarm.py:138-153 | after that failed cancel, the "cancelled" alarm "B" still expires at 400: its notice is appended and then the lookup raises |
| AlarmClock.Registry.constructor | smart_alarm.py:14-21 | the registry starts with every list empty and an empty scheduler |
| AlarmClock.Registry.AppendAlarm | smart_alarm.py:215-228 | appends exactly the display text to ALARM_LIST and changes nothing else |
| AlarmClock.Registry.NewAlarm | smart_alarm.py:101-132 | the registry afterwards is AlarmSpec.NewAlarm of the registry before |
| AlarmClock.Registry.AlarmExpired | smart_alarm.py:138-153 | the registry and the found flag are AlarmSpec.Expired of the registry before |
| AlarmClock.Registry.AlarmExpiredRepeat | smart_alarm.py:155-163 | one repeat notice is appended to the notices and to the speech trace |
| AlarmClock.Registry.RepeatAlarm | smart_alarm.py:170-178 | the registry afterwards is AlarmSpec.RepeatAlarm of the registry before |
| AlarmClock.Registry.CancelAlarm | smart_alarm.py:181-206 | with the source's own guards, the registry and outcome are AlarmSpec.Cancel of the registry before |
| AlarmClock.Registry.Fire | smart_alarm.py:136 | one turn of the scheduler with the callbacks dispatched is AlarmSpec.Fire of the registry before |
| AlarmClock.Registry.Home | smart_alarm.py:245-260 | the clear, cancel and create dispatch is AlarmSpec.Home of the registry before |

## Left out

- Weather, icon, news and sport retrieval (smart_alarm.py:30-98): HTTP calls and float arithmetic, not part of the registry.
- `speech` (smart_alarm.py:208-213): the text-to-speech engine is a foreign call. The model only keeps the `spoken` trace of the messages handed to it.
- Flask routing and `render_template`, reading `config.json`, and every `logging` call: I/O. `AlarmSpec.Home` covers only the registry part of the handler.
- Threads, `THREADS` and the blocking `SCHEDULER.run()`: concurrency. Each thread body is one atomic step. One turn of `run()` is `Fire`, and the thread that `home` or `alarm_expired_repeat` starts is a separate `NewAlarm` or `RepeatAlarm` step. Interleavings inside a step are not modelled.
- `time.time`, `time.strptime` and `time.mktime`: library calls with floating-point time. `now` and the end time are integer seconds passed in. An end time of `None` stands for the date that strptime rejects.
- `args=(description)` at smart_alarm.py:165 is not a tuple, so Python unpacks the description character by character. `repeat_alarm` then raises TypeError for every description that is not exactly one character long, so the program as written never re-arms such a weekly alarm. The model treats the call as passing the description as the single argument, and the weekly lemmas describe that call.
- AlarmProperties.WeeklyAlarmFireTime: covers a weekly alarm whose event is the only one queued, and re-arm times no earlier than each due time. It does not cover a queue that holds other alarms' events between the turns.
- The priority field of scheduler events is always 1, so events are ordered by time and then by entry order only.
- Events compare by time, entry number and callback. This follows the `sched` module of Python 3.12, whose `Event` namedtuple has a `sequence` field, so the entry number alone makes each handle distinct; `Valid` states that no two different handles share an entry number. Older versions compared events by time and priority only, which the model does not follow.
- When a cancelled text is not listed, the program only speaks "The alarm you have entered is not valid.". It appends no notice, and the model follows the code.
