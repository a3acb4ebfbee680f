/** The shared `sched.scheduler` object the program arms its alarms on. An event fires at an
    absolute time; events are ordered by time, then by priority (always 1 here), then by the
    order in which they were entered. */
module Sched {
  import opened Wrappers
  import opened PyList

  /** The callback an event runs: alarm_expired(description, alarm_description) or
      alarm_expired_repeat(description). */
  datatype Action =
    | Expire(description: string, alarmDescription: string)
    | ExpireRepeat(description: string)

  /** A scheduled event, the handle `SCHEDULER.enter` returns. */
  datatype Event = Event(time: int, sequence: nat, action: Action)

  /** `a` runs before `b`. */
  predicate Precedes(a: Event, b: Event) {
    a.time < b.time || (a.time == b.time && a.sequence < b.sequence)
  }

  /** The position of the event the scheduler runs next. */
  function Earliest(q: seq<Event>): (k: nat)
    requires |q| > 0
    ensures k < |q|
    ensures forall j :: 0 <= j < |q| ==> !Precedes(q[j], q[k])
  {
    if |q| == 1 then 0
    else
      var k := Earliest(q[..|q| - 1]);
      if Precedes(q[|q| - 1], q[k]) then |q| - 1 else k
  }

  /** The event one turn of `scheduler.run()` executes at time `now`, if any is due. */
  function NextDue(q: seq<Event>, now: int): (due: Option<Event>)
    ensures due.None? <==> forall e :: e in q ==> now < e.time
    ensures due.Some? ==> due.value in q && due.value.time <= now
    ensures due.Some? ==> forall e :: e in q ==> !Precedes(e, due.value)
  {
    if |q| == 0 then None
    else if q[Earliest(q)].time <= now then Some(q[Earliest(q)])
    else None
  }

  class Scheduler {
    var queue: seq<Event>
    var nextSeq: nat

    constructor ()
      ensures queue == [] && nextSeq == 0
    {
      queue := [];
      nextSeq := 0;
    }

    /** `enter(delay, 1, action)`: the event is due `delay` seconds after `now`; a negative
        delay gives an event that is already due. */
    method Enter(delay: int, action: Action, now: int) returns (e: Event)
      modifies this
      ensures e == Event(now + delay, old(nextSeq), action)
      ensures queue == old(queue) + [e] && nextSeq == old(nextSeq) + 1
    {
      e := Event(now + delay, nextSeq, action);
      queue := queue + [e];
      nextSeq := nextSeq + 1;
    }

    /** `cancel(event)`; `ok` is false where Python raises ValueError because the event is no
        longer queued (it has already run or was cancelled before). */
    method Cancel(e: Event) returns (ok: bool)
      modifies this
      ensures ok == (e in old(queue))
      ensures queue == (if ok then Remove(old(queue), e) else old(queue))
      ensures nextSeq == old(nextSeq)
    {
      ok := e in queue;
      if ok {
        queue := Remove(queue, e);
      }
    }

    /** One turn of `run()`: takes the next event off the queue when it is due at `now`. */
    method PopDue(now: int) returns (due: Option<Event>)
      modifies this
      ensures due == NextDue(old(queue), now)
      ensures queue == (if due.Some? then RemoveAt(old(queue), Earliest(old(queue))) else old(queue))
      ensures nextSeq == old(nextSeq)
    {
      due := NextDue(queue, now);
      if due.Some? {
        queue := RemoveAt(queue, Earliest(queue));
      }
    }
  }
}
