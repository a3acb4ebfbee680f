/** What the registry steps of smart_alarm.py keep and what they break. The requests a user makes
    (create, cancel, clear) keep ALARM_LIST and ALARM_ACTIVE paired index by index; the two expiry
    callbacks do not, and once the pairing is gone a later cancellation can fail half-way. */
module AlarmProperties {
  import opened Wrappers
  import opened PyList
  import opened AlarmText
  import opened Sched
  import opened AlarmSpec

  lemma InitIsValidAndPaired()
    ensures Valid(Init) && Paired(Init)
  {
  }

  // ---------------------------------------------------------------------------------------------
  // Every step keeps the handle bookkeeping sound.

  lemma NewAlarmKeepsValid(s: State, description: string, alarm: string, repeat: string,
                           endTime: Option<int>, now: int)
    requires Valid(s)
    ensures Valid(NewAlarm(s, description, alarm, repeat, endTime, now))
  {
    if endTime.Some? {
      var action := if repeat == "true" then ExpireRepeat(description)
                    else Expire(description, AlarmDescription(description, alarm));
      ArmKeepsValid(s, endTime.value - now, action, now);
    }
  }

  lemma RepeatAlarmKeepsValid(s: State, description: string, now: int)
    requires Valid(s)
    ensures Valid(RepeatAlarm(s, description, now))
  {
    ArmKeepsValid(s, Week, ExpireRepeat(description), now);
  }

  lemma CancelStepKeepsValid(s: State, description: string)
    requires Valid(s)
    ensures Valid(Cancel(s, description).0)
  {
    if description in s.alarmList {
      var i := FirstIndex(s.alarmList, description);
      if i < |s.alarmActive| && s.alarmActive[i] in s.queue {
        CancelKeepsValid(s, i);
      }
    }
  }

  lemma FireKeepsValid(s: State, now: int)
    requires Valid(s)
    ensures Valid(Fire(s, now).0)
  {
    if NextDue(s.queue, now).Some? {
      var k := Earliest(s.queue);
      var r := Fire(s, now).0;
      RemoveAtKeepsDistinct(s.queue, k);
      forall x | x in RemoveAt(s.queue, k) ensures x in s.queue {
        RemoveAtShrinksMembers(s.queue, k, x);
      }
      assert r.queue == RemoveAt(s.queue, k);
      SubsetKeepsValid(s, r);
    }
  }

  /** On a sound registry the event a scheduler turn runs is strictly first: it precedes every
      other queued event, because no two queued events share an entry number. */
  lemma NextDuePrecedesOthers(s: State, now: int)
    requires Valid(s) && NextDue(s.queue, now).Some?
    ensures var d := NextDue(s.queue, now).value;
      forall e :: e in s.queue && e != d ==> Precedes(d, e)
  {
    var d := NextDue(s.queue, now).value;
    forall e | e in s.queue && e != d ensures Precedes(d, e) {
      assert e in s.queue + s.alarmActive && d in s.queue + s.alarmActive;
    }
  }

  lemma HomeKeepsValid(s: State, req: Request)
    requires Valid(s)
    ensures Valid(Home(s, req).0)
  {
    var s1 := if Given(req.clear) then Clear(s) else s;
    if Given(req.cancel) {
      CancelStepKeepsValid(s1, req.cancel.value);
    }
  }

  // ---------------------------------------------------------------------------------------------
  // The user's requests keep ALARM_LIST[i] and ALARM_ACTIVE[i] the same alarm.

  /** append_alarm followed by a new_alarm whose date parses: one display text and the handle of
      the event that expires exactly that text, at the same index. */
  lemma CreateKeepsPairing(s: State, description: string, alarm: string, repeat: string,
                           end: int, now: int)
    requires Valid(s) && Paired(s)
    ensures var r := NewAlarm(AppendAlarm(s, description, alarm, repeat), description, alarm, repeat, Some(end), now);
      && Valid(r) && Paired(r)
      && |r.alarmList| == |s.alarmList| + 1
      && r.alarmList[|s.alarmList|] == DisplayText(description, alarm, repeat)
  {
    var s1 := AppendAlarm(s, description, alarm, repeat);
    var r := NewAlarm(s1, description, alarm, repeat, Some(end), now);
    NewAlarmKeepsValid(s1, description, alarm, repeat, Some(end), now);
    DisplayTextEnding(description, alarm, repeat);
    if repeat == "true" {
      WeeklyTextShape(description, alarm);
    }
    forall i | 0 <= i < |r.alarmList|
      ensures Describes(r.alarmList[i], r.alarmActive[i]) && r.alarmActive[i] in r.queue
    {
      if i < |s.alarmList| {
        assert r.alarmList[i] == s.alarmList[i] && r.alarmActive[i] == s.alarmActive[i];
      }
    }
  }

  /** When `time.strptime` rejects the date, new_alarm raises after append_alarm has already
      listed the text, so ALARM_LIST is one longer than ALARM_ACTIVE from then on. */
  lemma UnparsedCreateBreaksPairing(s: State, description: string, alarm: string, repeat: string, now: int)
    requires Paired(s)
    ensures var r := NewAlarm(AppendAlarm(s, description, alarm, repeat), description, alarm, repeat, None, now);
      |r.alarmList| == |r.alarmActive| + 1 && !Paired(r)
  {
  }

  /** cancel_alarm on a paired registry: the listed text is always found with a live handle at the
      same index, so the cancellation goes through, both lists lose exactly that index, and the
      pairing holds afterwards. */
  lemma CancelKeepsPairing(s: State, description: string)
    requires Valid(s) && Paired(s) && description in s.alarmList
    ensures Cancel(s, description).1 == Cancelled
    ensures var r := Cancel(s, description).0;
      && Paired(r)
      && |r.alarmList| == |s.alarmList| - 1
      && |r.alarmActive| == |s.alarmActive| - 1
      && r.expiredList == s.expiredList + [CancelledNotice(description)]
  {
    var i := FirstIndex(s.alarmList, description);
    var h := s.alarmActive[i];
    var r := Cancel(s, description).0;
    var k := FirstIndex(s.queue, h);
    forall j | 0 <= j < |r.alarmList|
      ensures Describes(r.alarmList[j], r.alarmActive[j]) && r.alarmActive[j] in r.queue
    {
      var j' := if j < i then j else j + 1;
      assert r.alarmList[j] == s.alarmList[j'] && r.alarmActive[j] == s.alarmActive[j'];
      assert s.alarmActive[j'] != h;
      RemoveAtKeepsOthers(s.queue, k, s.alarmActive[j']);
    }
  }

  /** The `len(...) > 0` guards in cancel_alarm always hold: a text that is listed makes
      ALARM_LIST non-empty, and a handle that is read at the found index makes ALARM_ACTIVE
      non-empty. */
  lemma CancelGuardsHold(s: State, description: string)
    requires description in s.alarmList
    ensures |s.alarmList| > 0
    ensures FirstIndex(s.alarmList, description) < |s.alarmList|
    ensures FirstIndex(s.alarmList, description) < |s.alarmActive| ==> |s.alarmActive| > 0
  {
  }

  /** A request to `home` on a paired registry never raises, and the registry is still paired
      afterwards, once the new_alarm thread it starts (if any) has armed its event. */
  lemma RequestKeepsPairing(s: State, req: Request, end: int, now: int)
    requires Valid(s) && Paired(s)
    ensures Home(s, req).1.Rendered?
    ensures var r := Home(s, req);
      if r.1.startsNewAlarm
      then Paired(NewAlarm(r.0, req.description.value, req.alarm.value, RepeatArg(req), Some(end), now))
      else Paired(r.0)
  {
    var s1 := if Given(req.clear) then Clear(s) else s;
    assert Valid(s1) && Paired(s1);
    var s2 := s1;
    if Given(req.cancel) {
      s2 := Cancel(s1, req.cancel.value).0;
      if req.cancel.value in s1.alarmList {
        CancelKeepsPairing(s1, req.cancel.value);
      }
      CancelStepKeepsValid(s1, req.cancel.value);
    }
    assert Home(s, req).1.Rendered?;
    if Given(req.alarm) && Given(req.description) {
      CreateKeepsPairing(s2, req.description.value, req.alarm.value, RepeatArg(req), end, now);
    }
  }

  /** The clear command empties ALARM_EXPIRED_LIST and touches neither ALARM_LIST, ALARM_ACTIVE
      nor the scheduler. */
  lemma ClearOnlyEmptiesNotices(s: State, req: Request)
    requires Given(req.clear) && !Given(req.cancel) && !(Given(req.alarm) && Given(req.description))
    ensures Home(s, req) == (s.(expiredList := []), Rendered(false))
    ensures Paired(s) ==> Paired(Home(s, req).0)
  {
  }

  // ---------------------------------------------------------------------------------------------
  // The expiry callbacks break the pairing.

  /** A one-shot event of a paired registry finds its text (so alarm_expired does not raise) and
      pops it from ALARM_LIST, but its handle stays in ALARM_ACTIVE: afterwards ALARM_ACTIVE is
      one longer than ALARM_LIST and the registry is no longer paired. */
  lemma OneShotExpiryBreaksPairing(s: State, now: int)
    requires Paired(s)
    requires Fire(s, now).1.Fired?
    requires Fire(s, now).1.event.action.Expire? && Fire(s, now).1.event in s.alarmActive
    ensures Fire(s, now).1.textFound
    ensures var r := Fire(s, now).0;
      && r.alarmActive == s.alarmActive
      && |r.alarmActive| == |r.alarmList| + 1
      && !Paired(r)
  {
    var e := Fire(s, now).1.event;
    var i :| 0 <= i < |s.alarmActive| && s.alarmActive[i] == e;
    assert Describes(s.alarmList[i], e);
    assert s.alarmList[i] == e.action.alarmDescription + ".";
  }

  /** A weekly event leaves ALARM_LIST as it is, and its repeat_alarm thread appends a second
      handle for the same text: afterwards ALARM_ACTIVE is one longer than ALARM_LIST. */
  lemma WeeklyExpiryBreaksPairing(s: State, now: int)
    requires Paired(s)
    requires Fire(s, now).1.Fired? && Fire(s, now).1.event.action.ExpireRepeat?
    ensures var r := RepeatAlarm(Fire(s, now).0, Fire(s, now).1.event.action.description, now);
      && r.alarmList == s.alarmList
      && |r.alarmActive| == |s.alarmActive| + 1
      && !Paired(r)
  {
  }

  /** An end time in the past is armed all the same and is due at once; an end time in the future
      is not due before it, as long as nothing else queued is due either. */
  lemma NewAlarmDueWhenEndTimeReached(s: State, description: string, alarm: string, repeat: string,
                                      end: int, now: int)
    requires forall e :: e in s.queue ==> now < e.time
    ensures var r := NewAlarm(s, description, alarm, repeat, Some(end), now);
      Fire(r, now).1.Fired? <==> end <= now
  {
    var r := NewAlarm(s, description, alarm, repeat, Some(end), now);
    var e := r.alarmActive[|s.alarmActive|];
    assert e in r.queue;
  }

  // ---------------------------------------------------------------------------------------------
  // A weekly alarm fired and re-armed on time, week after week.

  /** One week of a weekly alarm that is alone in the queue: the event leaves the queue, the
      repeat notice is appended and spoken, and repeat_alarm, running at `rearm`, enters the next
      event one week after that. OneWeek shows this is what the scheduler and the rearm thread do. */
  function WeekTurn(s: State, description: string, rearm: int): State {
    RepeatAlarm(ExpiredRepeat(s.(queue := []), description), description, rearm)
  }

  /** Weekly turns of the alarm for `description`, the k-th repeat_alarm thread running at
      `rearms[k]`. */
  function RunWeeks(s: State, description: string, rearms: seq<int>): State
    decreases |rearms|
  {
    if |rearms| == 0 then s
    else RunWeeks(WeekTurn(s, description, rearms[0]), description, rearms[1..])
  }

  /** No repeat_alarm thread runs before the event it follows was due: the first event is due at
      `t0`, and each later one a week after the previous rearm. */
  predicate RearmsNotEarly(t0: int, rearms: seq<int>) {
    && (|rearms| > 0 ==> t0 <= rearms[0])
    && forall k :: 0 < k < |rearms| ==> rearms[k - 1] + Week <= rearms[k]
  }

  /** The due time of the event waiting after the turns `rearms`. */
  function NextDueTime(t0: int, rearms: seq<int>): int {
    if |rearms| == 0 then t0 else rearms[|rearms| - 1] + Week
  }

  /** When the weekly event for `description` is the only one queued and is due by `fireTime`,
      one turn of the scheduler at `fireTime` followed by the repeat_alarm thread it starts,
      running at `rearm`, is WeekTurn: one notice, one new handle, and the one event left is due a
      week after `rearm`. */
  lemma OneWeek(s: State, description: string, fireTime: int, rearm: int)
    requires |s.queue| == 1 && s.queue[0].time <= fireTime && s.queue[0].action == ExpireRepeat(description)
    ensures var e := Event(rearm + Week, s.nextSeq, ExpireRepeat(description));
      && Fire(s, fireTime).1 == Fired(s.queue[0], true)
      && RepeatAlarm(Fire(s, fireTime).0, description, rearm) == WeekTurn(s, description, rearm)
      && WeekTurn(s, description, rearm) ==
           s.(alarmActive := s.alarmActive + [e],
              expiredList := s.expiredList + [RepeatNotice(description)],
              queue := [e],
              nextSeq := s.nextSeq + 1,
              spoken := s.spoken + [RepeatNotice(description)])
  {
    var e := s.queue[0];
    assert e in s.queue;
    var f := Fire(s, fireTime);
    assert f.1.Fired? && f.1.event == e;
    assert |f.0.queue| == 0;
  }

  /** Starting from a queue that holds only the weekly event for `description`, due at `t0`:
      after the turns `rearms` the one event left is that alarm's, due a week after the last
      rearm. Since no rearm runs early, that is at least `|rearms|` weeks after `t0`, and exactly
      that when every turn runs on time. */
  lemma {:induction false} WeeklyAlarmFireTime(s: State, description: string, t0: int, rearms: seq<int>)
    requires |s.queue| == 1 && s.queue[0].time == t0 && s.queue[0].action == ExpireRepeat(description)
    requires RearmsNotEarly(t0, rearms)
    decreases |rearms|
    ensures var r := RunWeeks(s, description, rearms);
      && |r.queue| == 1 && r.queue[0].action == ExpireRepeat(description)
      && r.queue[0].time == NextDueTime(t0, rearms)
      && r.queue[0].time >= t0 + |rearms| * Week
      && ((forall k :: 0 <= k < |rearms| ==> rearms[k] == t0 + k * Week) ==>
            r.queue[0].time == t0 + |rearms| * Week)
  {
    if |rearms| > 0 {
      var n := |rearms|;
      var t1 := rearms[0] + Week;
      var tail := rearms[1..];
      assert RearmsNotEarly(t1, tail) by {
        forall k | 0 < k < |tail| ensures tail[k - 1] + Week <= tail[k] {
          assert tail[k - 1] == rearms[k] && tail[k] == rearms[k + 1];
        }
      }
      WeeklyAlarmFireTime(WeekTurn(s, description, rearms[0]), description, t1, tail);
      assert NextDueTime(t1, tail) == NextDueTime(t0, rearms);
      assert t1 + (n - 1) * Week >= t0 + n * Week;
      if forall k :: 0 <= k < n ==> rearms[k] == t0 + k * Week {
        assert rearms[n - 1] == t0 + (n - 1) * Week;
      }
    }
  }

  /** ... there are exactly `|rearms|` repeat notices more, and ALARM_LIST is unchanged. */
  lemma {:induction false} WeeklyAlarmNotices(s: State, description: string, rearms: seq<int>)
    decreases |rearms|
    ensures var r := RunWeeks(s, description, rearms);
      && r.alarmList == s.alarmList
      && r.expiredList == s.expiredList + Replicate(RepeatNotice(description), |rearms|)
  {
    if |rearms| == 0 {
      assert s.expiredList + [] == s.expiredList;
    } else {
      var n := |rearms|;
      var s' := WeekTurn(s, description, rearms[0]);
      WeeklyAlarmNotices(s', description, rearms[1..]);
      ReplicateCons(RepeatNotice(description), n - 1);
      assert s'.expiredList + Replicate(RepeatNotice(description), n - 1)
          == s.expiredList + Replicate(RepeatNotice(description), n);
    }
  }

  /** ... and ALARM_ACTIVE keeps every handle it held and has gained `|rearms|` more, so it is
      that many entries longer than before while ALARM_LIST is not. */
  lemma {:induction false} WeeklyAlarmHandles(s: State, description: string, rearms: seq<int>)
    decreases |rearms|
    ensures var r := RunWeeks(s, description, rearms);
      && |r.alarmActive| == |s.alarmActive| + |rearms|
      && forall k :: 0 <= k < |s.alarmActive| ==> r.alarmActive[k] == s.alarmActive[k]
  {
    if |rearms| > 0 {
      var s' := WeekTurn(s, description, rearms[0]);
      WeeklyAlarmHandles(s', description, rearms[1..]);
      forall k | 0 <= k < |s.alarmActive|
        ensures RunWeeks(s, description, rearms).alarmActive[k] == s.alarmActive[k]
      {
        assert s'.alarmActive[k] == s.alarmActive[k];
      }
    }
  }

  /** One more turn at the end of RunWeeks. */
  lemma {:induction false} RunWeeksSnoc(s: State, description: string, rearms: seq<int>, rearm: int)
    decreases |rearms|
    ensures RunWeeks(s, description, rearms + [rearm]) ==
            WeekTurn(RunWeeks(s, description, rearms), description, rearm)
  {
    if |rearms| == 0 {
      assert ([] + [rearm])[1..] == [];
    } else {
      assert (rearms + [rearm])[1..] == rearms[1..] + [rearm];
      RunWeeksSnoc(WeekTurn(s, description, rearms[0]), description, rearms[1..], rearm);
    }
  }

  /** Every turn of RunWeeks is what the program does: after the turns `rearms`, a scheduler turn
      at any `fireTime` at or after the waiting event's due time fires it, and the repeat_alarm
      thread it starts, running at `rearm`, gives RunWeeks with one turn more. */
  lemma RunWeeksIsFireThenRearm(s: State, description: string, t0: int, rearms: seq<int>,
                                fireTime: int, rearm: int)
    requires |s.queue| == 1 && s.queue[0].time == t0 && s.queue[0].action == ExpireRepeat(description)
    requires RearmsNotEarly(t0, rearms) && NextDueTime(t0, rearms) <= fireTime
    ensures var p := RunWeeks(s, description, rearms);
      && Fire(p, fireTime).1.Fired?
      && RunWeeks(s, description, rearms + [rearm]) == RepeatAlarm(Fire(p, fireTime).0, description, rearm)
  {
    WeeklyAlarmFireTime(s, description, t0, rearms);
    RunWeeksSnoc(s, description, rearms, rearm);
    OneWeek(RunWeeks(s, description, rearms), description, fireTime, rearm);
  }

  lemma {:induction false} ReplicateCons<T>(x: T, n: nat)
    ensures Replicate(x, n + 1) == [x] + Replicate(x, n)
  {
    if n > 0 {
      ReplicateCons(x, n - 1);
    }
  }

  // ---------------------------------------------------------------------------------------------
  // Once unpaired, a cancellation fails half-way.

  const AtA := "2030-01-01 09:00"
  const AtB := "2030-01-01 09:05"
  const EventA := Event(100, 0, Expire("A", AlarmDescription("A", AtA)))
  const EventB := Event(400, 1, Expire("B", AlarmDescription("B", AtB)))

  /** Creating "A" for 09:00 (due at 100) and then "B" for 09:05 (due at 400) lists both texts
      and queues both events, with the handles in the same order. The end times stand for what
      `time.mktime` gives the two alarm strings, counted from the moment both requests arrive
      (now = 0); five minutes apart, they differ by 300 seconds. */
  lemma ScenarioCreated()
    ensures
      var s1 := NewAlarm(AppendAlarm(Init, "A", AtA, ""), "A", AtA, "", Some(100), 0);
      var s2 := NewAlarm(AppendAlarm(s1, "B", AtB, ""), "B", AtB, "", Some(400), 0);
      s2 == State([DisplayText("A", AtA, ""), DisplayText("B", AtB, "")], [EventA, EventB], [],
                  [EventA, EventB], 2, [CreatedSpeech("A", AtA, ""), CreatedSpeech("B", AtB, "")])
  {
  }

  /** At 100 only "A" is due: it leaves the queue and its text leaves ALARM_LIST, but its handle
      stays at index 0 of ALARM_ACTIVE. */
  lemma ScenarioFirstExpiry(s: State)
    requires s.alarmList == [DisplayText("A", AtA, ""), DisplayText("B", AtB, "")]
    requires s.alarmActive == [EventA, EventB] && s.queue == [EventA, EventB] && s.expiredList == []
    ensures Fire(s, 100) ==
      (s.(alarmList := [DisplayText("B", AtB, "")], queue := [EventB],
          expiredList := [ExpiredNotice(AlarmDescription("A", AtA))],
          spoken := s.spoken + [ExpiredSpeech("A")]),
       Fired(EventA, true))
  {
    DisplayTextEnding("A", AtA, "");
    assert Precedes(EventA, EventB);
    assert NextDue(s.queue, 100) == Some(EventA);
    assert Earliest(s.queue) == 0;
    assert RemoveAt(s.queue, 0) == [EventB];
    assert FirstIndex(s.alarmList, AlarmDescription("A", AtA) + ".") == 0;
    assert RemoveAt(s.alarmList, 0) == [DisplayText("B", AtB, "")];
    var s1 := s.(queue := [EventB]);
    assert s1.expiredList + [ExpiredNotice(AlarmDescription("A", AtA))] == [ExpiredNotice(AlarmDescription("A", AtA))];
    assert Expired(s1, "A", AlarmDescription("A", AtA)) ==
      (s.(alarmList := [DisplayText("B", AtB, "")], queue := [EventB],
          expiredList := [ExpiredNotice(AlarmDescription("A", AtA))],
          spoken := s.spoken + [ExpiredSpeech("A")]), true);
  }

  /** Cancelling "B" now pops its text from index 0 of ALARM_LIST, takes the stale handle of "A"
      at the same index and fails in the scheduler: no notice, and "B" is still queued. */
  lemma ScenarioCancel(s: State)
    requires s.alarmList == [DisplayText("B", AtB, "")]
    requires s.alarmActive == [EventA, EventB] && s.queue == [EventB]
    ensures Cancel(s, DisplayText("B", AtB, "")) == (s.(alarmList := []), NotQueued)
  {
    assert FirstIndex(s.alarmList, DisplayText("B", AtB, "")) == 0;
    assert EventA != EventB;
  }

  /** At 400 "B" fires: its notice is appended, then alarm_expired raises because its text is
      no longer listed. */
  lemma ScenarioSecondExpiry(s: State)
    requires s.alarmList == [] && s.queue == [EventB]
    ensures Fire(s, 400) ==
      (s.(queue := [], expiredList := s.expiredList + [ExpiredNotice(AlarmDescription("B", AtB))]),
       Fired(EventB, false))
  {
    assert EventB in s.queue;
  }

  /** From the registry ScenarioCreated builds: two one-shot alarms, "A" for 09:00 (due at 100)
      and "B" for 09:05 (due at 400). "A" expires, leaving its stale handle at index 0 of
      ALARM_ACTIVE while "B"'s text moves to index 0 of ALARM_LIST. Cancelling "B" then pops
      "B"'s text, picks "A"'s stale handle and raises ValueError in `SCHEDULER.cancel`: no
      notice, and "B"'s event is still queued. */
  lemma StaleHandleScenario(s: State)
    requires s.alarmList == [DisplayText("A", AtA, ""), DisplayText("B", AtB, "")]
    requires s.alarmActive == [EventA, EventB] && s.queue == [EventA, EventB] && s.expiredList == []
    ensures
      var f := Fire(s, 100);
      var c := Cancel(f.0, DisplayText("B", AtB, ""));
      && f.1 == Fired(EventA, true)
      && c.1 == NotQueued
      && c.0.alarmList == [] && c.0.alarmActive == [EventA, EventB] && c.0.queue == [EventB]
      && c.0.expiredList == [ExpiredNotice(AlarmDescription("A", AtA))]
  {
    ScenarioFirstExpiry(s);
    ScenarioCancel(Fire(s, 100).0);
  }

  /** ... and from there the "cancelled" alarm "B" still expires at 400: its notice is appended,
      then alarm_expired raises because its text is gone. */
  lemma CancelledAlarmStillFires(s: State)
    requires s.alarmList == [DisplayText("B", AtB, "")]
    requires s.alarmActive == [EventA, EventB] && s.queue == [EventB]
    requires s.expiredList == [ExpiredNotice(AlarmDescription("A", AtA))]
    ensures
      var c := Cancel(s, DisplayText("B", AtB, ""));
      var f := Fire(c.0, 400);
      && c.1 == NotQueued
      && f.1 == Fired(EventB, false)
      && f.0.expiredList == [ExpiredNotice(AlarmDescription("A", AtA)), ExpiredNotice(AlarmDescription("B", AtB))]
  {
    ScenarioCancel(s);
    ScenarioSecondExpiry(s.(alarmList := []));
  }
}
