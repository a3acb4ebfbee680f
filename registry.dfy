/** The module-level state of smart_alarm.py as the program keeps it: three lists updated in
    place, the shared scheduler, and the speech engine's trace. Each method is one function of
    the program, proved to take the registry from `old(Snapshot())` to the state its AlarmSpec
    step function gives. */
module AlarmClock {
  import opened Wrappers
  import opened PyList
  import opened AlarmText
  import opened Sched
  import AlarmSpec
  import AlarmProperties

  class Registry {
    /** ALARM_LIST: the display text of every alarm, in creation order. */
    var alarmList: seq<string>
    /** ALARM_ACTIVE: the scheduler handles, in the order their events were entered. */
    var alarmActive: seq<Event>
    /** ALARM_EXPIRED_LIST: the notifications shown on the page. */
    var expiredList: seq<string>
    /** Every message handed to `speech`, in order. */
    var spoken: seq<string>
    /** SCHEDULER. */
    const scheduler: Scheduler

    /** The registry as a value. */
    function Snapshot(): AlarmSpec.State
      reads this, scheduler
    {
      AlarmSpec.State(alarmList, alarmActive, expiredList, scheduler.queue, scheduler.nextSeq, spoken)
    }

    ghost predicate Valid()
      reads this, scheduler
    {
      AlarmSpec.Valid(Snapshot())
    }

    /** Program start: every list empty and a fresh scheduler. */
    constructor ()
      ensures Snapshot() == AlarmSpec.Init && Valid()
      ensures fresh(scheduler)
    {
      alarmList := [];
      alarmActive := [];
      expiredList := [];
      spoken := [];
      scheduler := new Scheduler();
    }

    /** append_alarm: builds the display text from the date and time slices of `alarm`. */
    method AppendAlarm(description: string, alarm: string, repeat: string)
      modifies this
      ensures Snapshot() == AlarmSpec.AppendAlarm(old(Snapshot()), description, alarm, repeat)
      ensures alarmList == old(alarmList) + [DisplayText(description, alarm, repeat)]
      ensures old(Valid()) ==> Valid()
    {
      var day := Slice(alarm, 0, 10);
      var alarmTime := Slice(alarm, 11, 16);
      var alarmDescription := "Alarm for " + description + " set at " + alarmTime + " on " + day;
      if repeat == "true" {
        alarmDescription := alarmDescription + " every week.";
      } else {
        alarmDescription := alarmDescription + ".";
      }
      alarmList := alarmList + [alarmDescription];
    }

    /** new_alarm up to `SCHEDULER.run()`: `endTime` is None where strptime raises. The event is
        entered with delay `endTime - now`, its handle appended to ALARM_ACTIVE and the creation
        announced. */
    method NewAlarm(description: string, alarm: string, repeat: string, endTime: Option<int>, now: int)
      modifies this, scheduler
      ensures Snapshot() == AlarmSpec.NewAlarm(old(Snapshot()), description, alarm, repeat, endTime, now)
      ensures old(Valid()) ==> Valid()
    {
      if endTime.None? {
        return;
      }
      var alarmDescription := AlarmDescription(description, alarm);
      var timeDifference := endTime.value - now;
      var event: Event;
      if repeat == "true" {
        event := scheduler.Enter(timeDifference, ExpireRepeat(description), now);
        alarmActive := alarmActive + [event];
        spoken := spoken + [alarmDescription + " every week."];
      } else {
        event := scheduler.Enter(timeDifference, Expire(description, alarmDescription), now);
        alarmActive := alarmActive + [event];
        spoken := spoken + [alarmDescription];
        assert alarmDescription + "" == alarmDescription;
      }
      if old(Valid()) {
        AlarmSpec.ArmKeepsValid(old(Snapshot()), timeDifference, event.action, now);
      }
    }

    /** alarm_expired: the notice is appended before the lookup; `found` is false where
        `ALARM_LIST.index` raises. */
    method AlarmExpired(description: string, alarmDescription: string) returns (found: bool)
      modifies this
      ensures (Snapshot(), found) == AlarmSpec.Expired(old(Snapshot()), description, alarmDescription)
      ensures old(Valid()) ==> Valid()
    {
      expiredList := expiredList + [ExpiredNotice(alarmDescription)];
      var key := alarmDescription + ".";
      if key !in alarmList {
        return false;
      }
      var indexAlarm := FirstIndex(alarmList, key);
      alarmList := RemoveAt(alarmList, indexAlarm);
      spoken := spoken + [ExpiredSpeech(description)];
      found := true;
    }

    /** alarm_expired_repeat up to starting the repeat_alarm thread. */
    method AlarmExpiredRepeat(description: string)
      modifies this
      ensures Snapshot() == AlarmSpec.ExpiredRepeat(old(Snapshot()), description)
      ensures old(Valid()) ==> Valid()
    {
      spoken := spoken + [RepeatNotice(description)];
      expiredList := expiredList + [RepeatNotice(description)];
    }

    /** repeat_alarm up to `SCHEDULER.run()`: a weekly event one week on, its handle appended. */
    method RepeatAlarm(description: string, now: int)
      modifies this, scheduler
      ensures Snapshot() == AlarmSpec.RepeatAlarm(old(Snapshot()), description, now)
      ensures old(Valid()) ==> Valid()
    {
      var event := scheduler.Enter(AlarmSpec.Week, ExpireRepeat(description), now);
      alarmActive := alarmActive + [event];
      if old(Valid()) {
        AlarmSpec.ArmKeepsValid(old(Snapshot()), AlarmSpec.Week, ExpireRepeat(description), now);
      }
    }

    /** cancel_alarm, with the source's guards on the list lengths. Where Python raises, the
        method returns at the same point with the lists as they are there. */
    method CancelAlarm(description: string) returns (outcome: AlarmSpec.CancelOutcome)
      modifies this, scheduler
      ensures (Snapshot(), outcome) == AlarmSpec.Cancel(old(Snapshot()), description)
      ensures old(Valid()) ==> Valid()
    {
      if description !in alarmList {
        spoken := spoken + [InvalidCancelSpeech];
        return AlarmSpec.NotFound;
      }
      var indexAlarm := FirstIndex(alarmList, description);
      if |alarmList| > 0 {
        alarmList := RemoveAt(alarmList, indexAlarm);
      }
      if indexAlarm >= |alarmActive| {
        return AlarmSpec.NoHandle;
      }
      var alarm := alarmActive[indexAlarm];
      var ok := scheduler.Cancel(alarm);
      if !ok {
        return AlarmSpec.NotQueued;
      }
      if |alarmActive| > 0 {
        alarmActive := RemoveAt(alarmActive, indexAlarm);
      }
      expiredList := expiredList + [CancelledNotice(description)];
      spoken := spoken + [CancelledSpeech(description)];
      outcome := AlarmSpec.Cancelled;
      if old(Valid()) {
        AlarmSpec.CancelKeepsValid(old(Snapshot()), indexAlarm);
      }
    }

    /** One turn of `SCHEDULER.run()`: the earliest due event leaves the queue and its callback
        runs. */
    method Fire(now: int) returns (outcome: AlarmSpec.FireOutcome)
      modifies this, scheduler
      ensures (Snapshot(), outcome) == AlarmSpec.Fire(old(Snapshot()), now)
      ensures old(Valid()) ==> Valid()
    {
      var due := scheduler.PopDue(now);
      if due.None? {
        return AlarmSpec.Idle;
      }
      var event := due.value;
      match event.action {
        case Expire(description, alarmDescription) =>
          var found := AlarmExpired(description, alarmDescription);
          outcome := AlarmSpec.Fired(event, found);
        case ExpireRepeat(description) =>
          AlarmExpiredRepeat(description);
          outcome := AlarmSpec.Fired(event, true);
      }
      if old(Valid()) {
        AlarmProperties.FireKeepsValid(old(Snapshot()), now);
      }
    }

    /** home, minus the page itself: clear, cancel, then append the new alarm's text. Where
        cancel_alarm raises, the rest of the handler does not run. */
    method Home(req: AlarmSpec.Request) returns (outcome: AlarmSpec.HomeOutcome)
      modifies this, scheduler
      ensures (Snapshot(), outcome) == AlarmSpec.Home(old(Snapshot()), req)
      ensures old(Valid()) ==> Valid()
    {
      if AlarmSpec.Given(req.clear) {
        expiredList := [];
      }
      if AlarmSpec.Given(req.cancel) {
        var cancelled := CancelAlarm(req.cancel.value);
        if cancelled == AlarmSpec.NoHandle || cancelled == AlarmSpec.NotQueued {
          return AlarmSpec.Failed(cancelled);
        }
      }
      if AlarmSpec.Given(req.alarm) && AlarmSpec.Given(req.description) {
        AppendAlarm(req.description.value, req.alarm.value, AlarmSpec.RepeatArg(req));
        return AlarmSpec.Rendered(true);
      }
      outcome := AlarmSpec.Rendered(false);
    }
  }
}
