/** The alarm registry of smart_alarm.py as a value, and one function per step the program takes:
    a web request to `home`, the `new_alarm` thread it starts, one turn of the scheduler firing an
    event, and the `repeat_alarm` thread a weekly expiry starts. Each thread body is one atomic
    step. Where `cancel_alarm`, `alarm_expired` or `home` raises, the step reports the exception
    as an outcome and leaves the state exactly as Python leaves it at that point. NewAlarm returns
    only a state: where `time.strptime` raises, it returns the registry unchanged. */
module AlarmSpec {
  import opened Wrappers
  import opened PyList
  import opened AlarmText
  import opened Sched

  /** ALARM_LIST, ALARM_ACTIVE and ALARM_EXPIRED_LIST, the scheduler's queue and entry counter,
      and every message handed to the speech engine so far. */
  datatype State = State(
    alarmList: seq<string>,
    alarmActive: seq<Event>,
    expiredList: seq<string>,
    queue: seq<Event>,
    nextSeq: nat,
    spoken: seq<string>)

  /** The state when the program starts: every list empty. */
  const Init: State := State([], [], [], [], 0, [])

  /** One week in seconds, the period of a weekly alarm. */
  const Week: int := 604800

  /** Every handle was obtained from the scheduler, so its entry number is below the counter,
      no two different handles share an entry number, and neither the queue nor ALARM_ACTIVE
      holds the same event twice. */
  ghost predicate Valid(s: State) {
    && (forall e :: e in s.queue ==> e.sequence < s.nextSeq)
    && (forall e :: e in s.alarmActive ==> e.sequence < s.nextSeq)
    && (forall a, b ::
          a in s.queue + s.alarmActive && b in s.queue + s.alarmActive && a.sequence == b.sequence
          ==> a == b)
    && Distinct(s.queue)
    && Distinct(s.alarmActive)
  }

  /** `text` is the display text of the alarm that event `e` expires: the one-shot callback looks
      up exactly its summary plus "."; a weekly event records only the description. */
  predicate Describes(text: string, e: Event) {
    match e.action
    case Expire(_, alarmDescription) => text == alarmDescription + "."
    case ExpireRepeat(description) => "Alarm for " + description + " set at " <= text && EndsWithWeek(text)
  }

  /** The pairing the source relies on: ALARM_LIST[i] and ALARM_ACTIVE[i] are the same alarm,
      and that alarm's event is still waiting in the scheduler. */
  ghost predicate Paired(s: State) {
    && |s.alarmList| == |s.alarmActive|
    && forall i :: 0 <= i < |s.alarmList| ==>
         Describes(s.alarmList[i], s.alarmActive[i]) && s.alarmActive[i] in s.queue
  }

  /** append_alarm: the display text goes to the end of ALARM_LIST. */
  function AppendAlarm(s: State, description: string, alarm: string, repeat: string): (r: State)
    ensures |r.alarmList| == |s.alarmList| + 1 && r.alarmList[..|s.alarmList|] == s.alarmList
    ensures r.alarmList[|s.alarmList|] == DisplayText(description, alarm, repeat)
    ensures r.alarmActive == s.alarmActive && r.queue == s.queue && r.nextSeq == s.nextSeq
    ensures r.expiredList == s.expiredList && r.spoken == s.spoken
  {
    s.(alarmList := s.alarmList + [DisplayText(description, alarm, repeat)])
  }

  /** `SCHEDULER.enter(delay, 1, action)` followed by `ALARM_ACTIVE.append(event)`. */
  function Arm(s: State, delay: int, action: Action, now: int): (r: State)
    ensures |r.alarmActive| == |s.alarmActive| + 1 && r.alarmActive[..|s.alarmActive|] == s.alarmActive
    ensures var e := r.alarmActive[|s.alarmActive|];
      && r.queue == s.queue + [e]
      && e.time == now + delay && e.sequence == s.nextSeq && e.action == action
      && r.nextSeq == s.nextSeq + 1
    ensures r.alarmList == s.alarmList && r.expiredList == s.expiredList && r.spoken == s.spoken
  {
    var e := Event(now + delay, s.nextSeq, action);
    s.(alarmActive := s.alarmActive + [e], queue := s.queue + [e], nextSeq := s.nextSeq + 1)
  }

  lemma ArmKeepsValid(s: State, delay: int, action: Action, now: int)
    requires Valid(s)
    ensures Valid(Arm(s, delay, action, now))
  {
    var e := Event(now + delay, s.nextSeq, action);
    assert e !in s.queue && e !in s.alarmActive;
  }

  /** new_alarm: `endTime` is the alarm's time as seconds, None where `time.strptime` rejects
      the text (Python raises before anything changes). The delay is `endTime - now`, so the event
      is due exactly at `endTime`; an end time in the past is armed all the same, already due. */
  function NewAlarm(s: State, description: string, alarm: string, repeat: string,
                    endTime: Option<int>, now: int): (r: State)
    ensures endTime.None? ==> r == s
    ensures endTime.Some? ==>
      && r.alarmList == s.alarmList
      && r.expiredList == s.expiredList
      && |r.alarmActive| == |s.alarmActive| + 1
      && r.alarmActive[..|s.alarmActive|] == s.alarmActive
      && r.queue == s.queue + [r.alarmActive[|s.alarmActive|]]
      && r.alarmActive[|s.alarmActive|].time == endTime.value
      && r.alarmActive[|s.alarmActive|].action ==
           (if repeat == "true" then ExpireRepeat(description)
            else Expire(description, AlarmDescription(description, alarm)))
      && r.alarmActive[|s.alarmActive|].sequence == s.nextSeq && r.nextSeq == s.nextSeq + 1
      && r.spoken == s.spoken + [CreatedSpeech(description, alarm, repeat)]
  {
    match endTime
    case None => s
    case Some(end) =>
      var delay := end - now;
      var action := if repeat == "true" then ExpireRepeat(description)
                    else Expire(description, AlarmDescription(description, alarm));
      Arm(s, delay, action, now).(spoken := s.spoken + [CreatedSpeech(description, alarm, repeat)])
  }

  /** How cancel_alarm ends: the cancellation went through; the text was not in ALARM_LIST; or
      Python raised after ALARM_LIST had already been popped, with IndexError because
      ALARM_ACTIVE is too short, or with ValueError because the handle at the same index is no
      longer in the scheduler's queue. */
  datatype CancelOutcome = Cancelled | NotFound | NoHandle | NotQueued

  /** cancel_alarm: exact lookup of `description` among the display texts. */
  function Cancel(s: State, description: string): (r: (State, CancelOutcome))
    ensures r.1 == NotFound <==> description !in s.alarmList
    ensures r.1 == NotFound ==> r.0 == s.(spoken := s.spoken + [InvalidCancelSpeech])
    ensures description in s.alarmList ==>
      var i := FirstIndex(s.alarmList, description);
      && r.0.alarmList == RemoveAt(s.alarmList, i)
      && (r.1 == NoHandle <==> |s.alarmActive| <= i)
      && (r.1 == NotQueued <==> i < |s.alarmActive| && s.alarmActive[i] !in s.queue)
      && (r.1 != Cancelled ==> r.0 == s.(alarmList := r.0.alarmList))
      && (r.1 == Cancelled ==>
            && r.0.alarmActive == RemoveAt(s.alarmActive, i)
            && r.0.queue == Remove(s.queue, s.alarmActive[i])
            && r.0.expiredList == s.expiredList + [CancelledNotice(description)]
            && r.0.spoken == s.spoken + [CancelledSpeech(description)]
            && r.0.nextSeq == s.nextSeq)
  {
    if description !in s.alarmList then
      (s.(spoken := s.spoken + [InvalidCancelSpeech]), NotFound)
    else
      var i := FirstIndex(s.alarmList, description);
      var s1 := s.(alarmList := RemoveAt(s.alarmList, i));
      if |s.alarmActive| <= i then (s1, NoHandle)
      else
        var handle := s.alarmActive[i];
        if handle !in s.queue then (s1, NotQueued)
        else
          (s1.(alarmActive := RemoveAt(s.alarmActive, i),
               queue := Remove(s.queue, handle),
               expiredList := s.expiredList + [CancelledNotice(description)],
               spoken := s.spoken + [CancelledSpeech(description)]),
           Cancelled)
  }

  /** A registry whose handles all come from a sound one, with the same counter and still
      without repeats, is sound. */
  lemma SubsetKeepsValid(s: State, t: State)
    requires Valid(s) && t.nextSeq == s.nextSeq
    requires forall e :: e in t.queue ==> e in s.queue
    requires forall e :: e in t.alarmActive ==> e in s.alarmActive
    requires Distinct(t.queue) && Distinct(t.alarmActive)
    ensures Valid(t)
  {
    forall a, b | a in t.queue + t.alarmActive && b in t.queue + t.alarmActive && a.sequence == b.sequence
      ensures a == b
    {
      assert a in s.queue + s.alarmActive && b in s.queue + s.alarmActive;
    }
  }

  lemma CancelKeepsValid(s: State, i: nat)
    requires Valid(s) && i < |s.alarmActive| && s.alarmActive[i] in s.queue
    ensures var q := Remove(s.queue, s.alarmActive[i]);
            var a := RemoveAt(s.alarmActive, i);
            Valid(s.(alarmActive := a, queue := q))
  {
    var k := FirstIndex(s.queue, s.alarmActive[i]);
    RemoveAtKeepsDistinct(s.queue, k);
    RemoveAtKeepsDistinct(s.alarmActive, i);
    forall e | e in RemoveAt(s.queue, k) ensures e in s.queue { RemoveAtShrinksMembers(s.queue, k, e); }
    forall e | e in RemoveAt(s.alarmActive, i) ensures e in s.alarmActive { RemoveAtShrinksMembers(s.alarmActive, i, e); }
  }

  /** alarm_expired: the notice is appended first; `found` is false where `ALARM_LIST.index`
      raises ValueError because the summary plus "." is no longer listed. ALARM_ACTIVE is never
      touched. */
  function Expired(s: State, description: string, alarmDescription: string): (r: (State, bool))
    ensures r.1 <==> alarmDescription + "." in s.alarmList
    ensures r.0.expiredList == s.expiredList + [ExpiredNotice(alarmDescription)]
    ensures r.0.alarmActive == s.alarmActive && r.0.queue == s.queue && r.0.nextSeq == s.nextSeq
    ensures r.1 ==>
      && r.0.alarmList == RemoveAt(s.alarmList, FirstIndex(s.alarmList, alarmDescription + "."))
      && r.0.spoken == s.spoken + [ExpiredSpeech(description)]
    ensures !r.1 ==> r.0.alarmList == s.alarmList && r.0.spoken == s.spoken
  {
    var s1 := s.(expiredList := s.expiredList + [ExpiredNotice(alarmDescription)]);
    var key := alarmDescription + ".";
    if key !in s.alarmList then (s1, false)
    else
      (s1.(alarmList := RemoveAt(s.alarmList, FirstIndex(s.alarmList, key)),
           spoken := s.spoken + [ExpiredSpeech(description)]),
       true)
  }

  /** alarm_expired_repeat: the repeat notice is spoken and appended; ALARM_LIST keeps the
      weekly display text. It then starts a repeat_alarm thread (RepeatAlarm). */
  function ExpiredRepeat(s: State, description: string): (r: State)
    ensures r.expiredList == s.expiredList + [RepeatNotice(description)]
    ensures r.spoken == s.spoken + [RepeatNotice(description)]
    ensures r.alarmList == s.alarmList && r.alarmActive == s.alarmActive
    ensures r.queue == s.queue && r.nextSeq == s.nextSeq
  {
    s.(expiredList := s.expiredList + [RepeatNotice(description)],
       spoken := s.spoken + [RepeatNotice(description)])
  }

  /** repeat_alarm: a fresh weekly event one week after `now`, its handle appended to
      ALARM_ACTIVE; ALARM_LIST is not touched. */
  function RepeatAlarm(s: State, description: string, now: int): (r: State)
    ensures r.alarmList == s.alarmList && r.expiredList == s.expiredList && r.spoken == s.spoken
    ensures |r.alarmActive| == |s.alarmActive| + 1
    ensures r.alarmActive[..|s.alarmActive|] == s.alarmActive
    ensures r.queue == s.queue + [r.alarmActive[|s.alarmActive|]]
    ensures r.alarmActive[|s.alarmActive|].time == now + Week
    ensures r.alarmActive[|s.alarmActive|].action == ExpireRepeat(description)
    ensures r.alarmActive[|s.alarmActive|].sequence == s.nextSeq && r.nextSeq == s.nextSeq + 1
  {
    Arm(s, Week, ExpireRepeat(description), now)
  }

  /** What a turn of the scheduler did: nothing was due, or `event` ran; `textFound` is false
      where its alarm_expired callback raised. A weekly `event` also starts a repeat_alarm thread. */
  datatype FireOutcome = Idle | Fired(event: Event, textFound: bool)

  /** One turn of `SCHEDULER.run()` at time `now`: the earliest due event leaves the queue and
      its callback runs. */
  function Fire(s: State, now: int): (r: (State, FireOutcome))
    ensures r.1 == Idle <==> forall e :: e in s.queue ==> now < e.time
    ensures r.1 == Idle ==> r.0 == s
    ensures r.1.Fired? ==>
      var e := r.1.event;
      && e in s.queue && e.time <= now
      && (forall e' :: e' in s.queue ==> !Precedes(e', e))
      && |r.0.queue| == |s.queue| - 1 && multiset(r.0.queue) + multiset{e} == multiset(s.queue)
      && r.0.alarmActive == s.alarmActive && r.0.nextSeq == s.nextSeq
      && (e.action.ExpireRepeat? ==>
            r.0.alarmList == s.alarmList && r.1.textFound
            && r.0.expiredList == s.expiredList + [RepeatNotice(e.action.description)]
            && r.0.spoken == s.spoken + [RepeatNotice(e.action.description)])
      && (e.action.Expire? ==>
            r.0.expiredList == s.expiredList + [ExpiredNotice(e.action.alarmDescription)]
            && (r.1.textFound <==> e.action.alarmDescription + "." in s.alarmList)
            && r.0.alarmList ==
                 (if r.1.textFound
                  then RemoveAt(s.alarmList, FirstIndex(s.alarmList, e.action.alarmDescription + "."))
                  else s.alarmList)
            && r.0.spoken ==
                 (if r.1.textFound then s.spoken + [ExpiredSpeech(e.action.description)] else s.spoken))
  {
    match NextDue(s.queue, now)
    case None => (s, Idle)
    case Some(e) =>
      var k := Earliest(s.queue);
      var s1 := s.(queue := RemoveAt(s.queue, k));
      match e.action
      case Expire(description, alarmDescription) =>
        var (s2, found) := Expired(s1, description, alarmDescription);
        (s2, Fired(e, found))
      case ExpireRepeat(description) =>
        (ExpiredRepeat(s1, description), Fired(e, true))
  }

  /** The `clear` branch of home: ALARM_EXPIRED_LIST.clear(). */
  function Clear(s: State): (r: State)
    ensures r.expiredList == []
    ensures r.alarmList == s.alarmList && r.alarmActive == s.alarmActive
    ensures r.queue == s.queue && r.nextSeq == s.nextSeq && r.spoken == s.spoken
  {
    s.(expiredList := [])
  }

  /** The query arguments of a request to `/` or `/home`, as `request.args.get` returns them. */
  datatype Request = Request(
    alarm: Option<string>,
    description: Option<string>,
    repeat: Option<string>,
    cancel: Option<string>,
    clear: Option<string>)

  /** Python truthiness of an argument: present and not empty. */
  predicate Given(arg: Option<string>) {
    arg.Some? && arg.value != ""
  }

  /** The repeat argument as append_alarm compares it; a missing argument is not "true". */
  function RepeatArg(req: Request): string {
    if req.repeat.Some? then req.repeat.value else ""
  }

  /** How a request ended: the page was rendered, having started a new_alarm thread or not; or
      cancel_alarm raised and the rest of the handler did not run. */
  datatype HomeOutcome = Rendered(startsNewAlarm: bool) | Failed(error: CancelOutcome)

  /** The registry part of `home`: clear, then cancel, then create. A started new_alarm thread
      is the separate step NewAlarm. */
  function Home(s: State, req: Request): (r: (State, HomeOutcome))
    ensures r.1.Failed? <==>
      Given(req.cancel) && Cancel(if Given(req.clear) then Clear(s) else s, req.cancel.value).1 in {NoHandle, NotQueued}
    ensures r.1 == Rendered(true) <==> !r.1.Failed? && Given(req.alarm) && Given(req.description)
    ensures r.1 == Rendered(true) ==>
      && |r.0.alarmList| > 0
      && r.0.alarmList[|r.0.alarmList| - 1] == DisplayText(req.description.value, req.alarm.value, RepeatArg(req))
    ensures !Given(req.cancel) ==>
      && r.0.alarmActive == s.alarmActive && r.0.queue == s.queue && r.0.nextSeq == s.nextSeq
      && r.0.expiredList == (if Given(req.clear) then [] else s.expiredList)
    // Whatever the cancel did stays done; a create only appends its text to ALARM_LIST.
    ensures
      var pre := if Given(req.cancel) then Cancel(if Given(req.clear) then Clear(s) else s, req.cancel.value).0
                 else if Given(req.clear) then Clear(s) else s;
      && r.0.alarmActive == pre.alarmActive && r.0.queue == pre.queue && r.0.nextSeq == pre.nextSeq
      && r.0.expiredList == pre.expiredList && r.0.spoken == pre.spoken
      && r.0.alarmList ==
           (if r.1 == Rendered(true)
            then pre.alarmList + [DisplayText(req.description.value, req.alarm.value, RepeatArg(req))]
            else pre.alarmList)
  {
    var s1 := if Given(req.clear) then Clear(s) else s;
    var (s2, cancelled) := if Given(req.cancel) then Cancel(s1, req.cancel.value) else (s1, NotFound);
    if Given(req.cancel) && cancelled in {NoHandle, NotQueued} then
      (s2, Failed(cancelled))
    else if Given(req.alarm) && Given(req.description) then
      (AppendAlarm(s2, req.description.value, req.alarm.value, RepeatArg(req)), Rendered(true))
    else
      (s2, Rendered(false))
  }
}
