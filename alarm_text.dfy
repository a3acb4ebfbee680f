/** The texts smart_alarm.py builds: the display text kept in ALARM_LIST, the notices kept in
    ALARM_EXPIRED_LIST and the messages handed to the speech engine. The alarm argument is the
    `YYYY-MM-DD HH:MM` string of the web form, cut at fixed character positions. */
module AlarmText {

  /** Python's `s[lo:hi]` for `0 <= lo <= hi`: both bounds are clamped to the length, so a
      short string gives a shorter (possibly empty) slice and never an error. */
  function Slice(s: string, lo: nat, hi: nat): string
    requires lo <= hi
  {
    if hi <= |s| then s[lo..hi] else if lo <= |s| then s[lo..] else ""
  }

  /** `alarm[0:10]`, the `YYYY-MM-DD` part. */
  function Day(alarm: string): string {
    Slice(alarm, 0, 10)
  }

  /** `alarm[11:16]`, the `HH:MM` part. */
  function ClockTime(alarm: string): string {
    Slice(alarm, 11, 16)
  }

  /** The summary both new_alarm and append_alarm build before any ending is added. */
  function AlarmDescription(description: string, alarm: string): string {
    "Alarm for " + description + " set at " + ClockTime(alarm) + " on " + Day(alarm)
  }

  const WeekSuffix: string := " every week."

  /** The entry append_alarm adds to ALARM_LIST; only the exact string "true" asks for a
      weekly alarm. */
  function DisplayText(description: string, alarm: string, repeat: string): (r: string)
    ensures AlarmDescription(description, alarm) <= r
    ensures |r| == |AlarmDescription(description, alarm)| + (if repeat == "true" then 12 else 1)
    ensures |r| > 0 && r[|r| - 1] == '.'
  {
    AlarmDescription(description, alarm) + (if repeat == "true" then WeekSuffix else ".")
  }

  /** Notice appended by alarm_expired. */
  function ExpiredNotice(alarmDescription: string): string {
    alarmDescription + " has expired."
  }

  /** Notice appended by cancel_alarm. */
  function CancelledNotice(description: string): string {
    description + " has been cancelled."
  }

  /** Notice appended, and also spoken, by alarm_expired_repeat. */
  function RepeatNotice(description: string): string {
    "Alarm for " + description + " has expired. Alarm set for the same time next week."
  }

  /** What new_alarm speaks on creation: the weekly form ends in " every week.", the one-shot
      form has no full stop. */
  function CreatedSpeech(description: string, alarm: string, repeat: string): string {
    AlarmDescription(description, alarm) + (if repeat == "true" then WeekSuffix else "")
  }

  /** What alarm_expired speaks; the source has no space before "has". */
  function ExpiredSpeech(description: string): string {
    "Alarm for " + description + "has expired."
  }

  /** What cancel_alarm speaks after a cancellation. */
  function CancelledSpeech(description: string): string {
    "Alarm for " + description + " has been cancelled."
  }

  /** What cancel_alarm speaks when the text is not in ALARM_LIST. */
  const InvalidCancelSpeech: string := "The alarm you have entered is not valid."

  /** A well-formed `YYYY-MM-DD HH:MM` input (or anything at least 16 characters long) yields
      "Alarm for <description> set at <HH:MM> on <YYYY-MM-DD>" followed by " every week." for a
      weekly alarm and "." otherwise; a shorter input still yields a text, with the missing
      characters dropped, because slicing never fails. */
  lemma DisplayTextLayout(description: string, alarm: string, repeat: string)
    ensures 16 <= |alarm| ==>
      DisplayText(description, alarm, repeat) ==
        "Alarm for " + description + " set at " + alarm[11..16] + " on " + alarm[0..10]
        + (if repeat == "true" then " every week." else ".")
    ensures |alarm| <= 11 ==>
      DisplayText(description, alarm, repeat) ==
        "Alarm for " + description + " set at  on " + Day(alarm)
        + (if repeat == "true" then " every week." else ".")
  {
    if |alarm| <= 11 {
      assert ClockTime(alarm) == "";
      assert "Alarm for " + description + " set at " + "" + " on " == "Alarm for " + description + " set at  on ";
    }
  }

  /** The one-shot display text is the summary plus ".", which is exactly the key alarm_expired
      looks up; the weekly text is the summary plus " every week.". */
  lemma DisplayTextEnding(description: string, alarm: string, repeat: string)
    ensures repeat != "true" ==> DisplayText(description, alarm, repeat) == AlarmDescription(description, alarm) + "."
    ensures repeat == "true" ==> DisplayText(description, alarm, repeat) == AlarmDescription(description, alarm) + WeekSuffix
  {
  }

  /** A weekly display text begins with "Alarm for <description> set at " and ends with
      " every week.", which is all an ExpireRepeat event records about its alarm. */
  lemma WeeklyTextShape(description: string, alarm: string)
    ensures "Alarm for " + description + " set at " <= DisplayText(description, alarm, "true")
    ensures EndsWithWeek(DisplayText(description, alarm, "true"))
  {
    var p := "Alarm for " + description + " set at ";
    var t := DisplayText(description, alarm, "true");
    assert t == p + (ClockTime(alarm) + " on " + Day(alarm) + WeekSuffix);
    assert t[|t| - |WeekSuffix|..] == WeekSuffix;
  }

  predicate EndsWithWeek(text: string) {
    |WeekSuffix| <= |text| && text[|text| - |WeekSuffix|..] == WeekSuffix
  }

  /** cancel_alarm compares its argument with whole display texts, so the bare description of an
      alarm never finds that alarm: the display text is always strictly longer. */
  lemma DisplayTextIsNotDescription(description: string, alarm: string, repeat: string)
    ensures |DisplayText(description, alarm, repeat)| > |description|
    ensures DisplayText(description, alarm, repeat) != description
  {
  }

  /** The example create("Meeting", "2030-01-01 09:00") shows
      "Alarm for Meeting set at 09:00 on 2030-01-01." as a one-shot alarm and
      "Alarm for Meeting set at 09:00 on 2030-01-01 every week." as a weekly one. */
  lemma MeetingExample()
    ensures DisplayText("Meeting", "2030-01-01 09:00", "") == "Alarm for Meeting set at 09:00 on 2030-01-01."
    ensures DisplayText("Meeting", "2030-01-01 09:00", "true") == "Alarm for Meeting set at 09:00 on 2030-01-01 every week."
  {
    MeetingSummary();
  }

  /** Cancelling that one-shot alarm by its display text (the only argument that finds it)
      leaves the notice "<display text> has been cancelled.", not "Meeting has been cancelled.". */
  lemma MeetingCancelNotice()
    ensures CancelledNotice(DisplayText("Meeting", "2030-01-01 09:00", "")) ==
      "Alarm for Meeting set at 09:00 on 2030-01-01. has been cancelled."
    ensures CancelledNotice(DisplayText("Meeting", "2030-01-01 09:00", "")) != CancelledNotice("Meeting")
  {
    MeetingSummary();
    var t := DisplayText("Meeting", "2030-01-01 09:00", "");
    assert t == "Alarm for Meeting set at 09:00 on 2030-01-01" + ".";
    assert |CancelledNotice(t)| != |CancelledNotice("Meeting")|;
  }

  lemma MeetingSummary()
    ensures AlarmDescription("Meeting", "2030-01-01 09:00") == "Alarm for Meeting set at 09:00 on 2030-01-01"
  {
    var a := "2030-01-01 09:00";
    assert ClockTime(a) == "09:00";
    assert Day(a) == "2030-01-01";
  }
}
