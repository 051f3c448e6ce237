/** The reminder a visit schedules: ten minutes before its departure, on its date, in the alarm
    slot that belongs to its id. */
module Reminders {
  import opened Base
  import opened Text
  import opened Calendar
  import opened Records

  const LeadMinutes := 10

  /** An alarm: when it fires (local date and time), and the name and departure text the
      notification shows. */
  datatype Reminder = Reminder(trigger: DateTime, name: string, time: string)

  /** The departure as the scheduler reads it: split on ':' into exactly two parts, each read
      with `toIntOrNull`, and accepted by `LocalTime.of`. This is looser than "HH:mm": "9:5" and
      "+9:05" are read as well. */
  function DepartureTime(departure: string): (r: Option<Time>)
    ensures r.Some? ==> r.value.Valid()
    ensures r.Some? <==>
      var parts := Split(departure, ':');
      && |parts| == 2 && ToIntOrNull(parts[0]).Some? && ToIntOrNull(parts[1]).Some?
      && 0 <= ToIntOrNull(parts[0]).value <= 23 && 0 <= ToIntOrNull(parts[1]).value <= 59
    ensures r.Some? ==>
      Some(r.value.hour) == ToIntOrNull(Split(departure, ':')[0]) && Some(r.value.minute) == ToIntOrNull(Split(departure, ':')[1])
  {
    var parts := Split(departure, ':');
    if |parts| != 2 then None
    else
      match (ToIntOrNull(parts[0]), ToIntOrNull(parts[1]))
      case (Some(h), Some(m)) => if 0 <= h <= 23 && 0 <= m <= 59 then Some(Time(h, m)) else None
      case _ => None
  }

  /** The day the reminder is for: the visit's date, or today when it does not parse. */
  function VisitDay(v: Visitor, today: Date): (d: Date)
    requires today.Valid()
    ensures d.Valid()
    ensures ParseDate(v.date).Some? ==> d == ParseDate(v.date).value
    ensures ParseDate(v.date).None? ==> d == today
  {
    ParseDate(v.date).GetOr(today)
  }

  /** `scheduleReminder`'s computation. There is no reminder when the departure cannot be read,
      or when the trigger would fall before the first representable date (where Java throws and
      the caller swallows the exception). */
  function ReminderFor(v: Visitor, today: Date): (r: Option<Reminder>)
    requires today.Valid()
    ensures r.None? <==>
      DepartureTime(v.departure).None? ||
      (VisitDay(v, today) == MinDate && MinuteOfDay(DepartureTime(v.departure).value) < LeadMinutes)
    ensures r.Some? ==>
      && r.value.name == v.name && r.value.time == v.departure && r.value.trigger.Valid()
      && Stamp(r.value.trigger) == Stamp(DateTime(VisitDay(v, today), DepartureTime(v.departure).value)) - LeadMinutes
  {
    match DepartureTime(v.departure)
    case None => None
    case Some(t) =>
      match MinusMinutes(DateTime(VisitDay(v, today), t), LeadMinutes)
      case None => None
      case Some(trigger) => Some(Reminder(trigger, v.name, v.departure))
  }

  /** From 00:10 on the reminder fires the same day, ten minutes earlier on the clock. */
  lemma ReminderSameDay(v: Visitor, today: Date)
    requires today.Valid() && DepartureTime(v.departure).Some?
    requires MinuteOfDay(DepartureTime(v.departure).value) >= LeadMinutes
    ensures ReminderFor(v, today).Some?
    ensures ReminderFor(v, today).value.trigger.date == VisitDay(v, today)
    ensures MinuteOfDay(ReminderFor(v, today).value.trigger.time) == MinuteOfDay(DepartureTime(v.departure).value) - LeadMinutes
  {
    var t := DepartureTime(v.departure).value;
    var k := MinuteOfDay(t) - LeadMinutes;
    var expected := DateTime(VisitDay(v, today), Time(k / 60, k % 60));
    StampInjective(ReminderFor(v, today).value.trigger, expected);
  }

  /** Before 00:10 it fires on the previous day, late in the evening. */
  lemma ReminderPreviousDay(v: Visitor, today: Date)
    requires today.Valid() && DepartureTime(v.departure).Some?
    requires MinuteOfDay(DepartureTime(v.departure).value) < LeadMinutes && VisitDay(v, today) != MinDate
    ensures ReminderFor(v, today).Some?
    ensures Some(ReminderFor(v, today).value.trigger.date) == PreviousDay(VisitDay(v, today))
    ensures MinuteOfDay(ReminderFor(v, today).value.trigger.time) == MinuteOfDay(DepartureTime(v.departure).value) + 1440 - LeadMinutes
  {
    var t := DepartureTime(v.departure).value;
    var k := MinuteOfDay(t) + 1440 - LeadMinutes;
    var p := PreviousDay(VisitDay(v, today)).value;
    var expected := DateTime(p, Time(k / 60, k % 60));
    StampInjective(ReminderFor(v, today).value.trigger, expected);
  }

  /** A stored "HH:mm" departure is read back as the time it was written from. */
  lemma DepartureOfStored(t: Time)
    requires t.Valid()
    ensures DepartureTime(FormatTime(t)) == Some(t)
  {
    Pow10Values();
    var hh, mm := Padded(t.hour, 2), Padded(t.minute, 2);
    assert ':' !in hh by {
      forall i | 0 <= i < |hh| ensures hh[i] != ':' {
        assert IsDigit(hh[i]);
      }
    }
    assert ':' !in mm by {
      forall i | 0 <= i < |mm| ensures mm[i] != ':' {
        assert IsDigit(mm[i]);
      }
    }
    assert FormatTime(t) == hh + [':'] + mm;
    SplitAt(hh, mm, ':');
    SplitNone(mm, ':');
    DigitsToInt(hh);
    DigitsToInt(mm);
  }

  /** The alarm slots, one per visitor id. */
  function Schedule(alarms: map<string, Reminder>, v: Visitor, today: Date): (r: map<string, Reminder>)
    requires today.Valid()
    ensures ReminderFor(v, today).None? ==> r == alarms
    ensures ReminderFor(v, today).Some? ==> v.id in r && r[v.id] == ReminderFor(v, today).value
    ensures forall id :: id != v.id ==> (id in r <==> id in alarms)
    ensures forall id :: id != v.id && id in alarms ==> r[id] == alarms[id]
  {
    match ReminderFor(v, today)
    case None => alarms
    case Some(rem) => alarms[v.id := rem]
  }

  /** Rescheduling a visit replaces its earlier alarm instead of adding a second one. */
  lemma RescheduleReplaces(alarms: map<string, Reminder>, v: Visitor, w: Visitor, today: Date)
    requires today.Valid() && v.id == w.id
    ensures ReminderFor(w, today).Some? ==> Schedule(Schedule(alarms, v, today), w, today) == Schedule(alarms, w, today)
  {
  }

  /** `fmt24` writes 11:00 as "11:00". */
  lemma ElevenOClock()
    ensures FormatTime(Time(11, 0)) == "11:00"
  {
    assert Decimal(11) == "11";
    assert Decimal(0) == "0";
    assert Padded(0, 2) == "00";
  }

  /** `LocalDate.toString` writes 2025-03-14 as "2025-03-14". */
  lemma FourteenthOfMarch()
    ensures FormatDate(Date(2025, 3, 14)) == "2025-03-14"
  {
    assert Decimal(2025) == "2025";
    assert Decimal(3) == "3";
    assert Padded(3, 2) == "03";
    assert Decimal(14) == "14";
  }

  /** The stored departure "11:00" reads as 11:00. */
  lemma ElevenOClockDeparture()
    ensures DepartureTime("11:00") == Some(Time(11, 0))
  {
    ElevenOClock();
    DepartureOfStored(Time(11, 0));
  }

  /** The stored date "2025-03-14" parses to that date. */
  lemma FourteenthOfMarchParses()
    ensures ParseDate("2025-03-14") == Some(Date(2025, 3, 14))
  {
    FourteenthOfMarch();
    ParseFormatDate(Date(2025, 3, 14));
  }

  /** A departure at least ten minutes after midnight on a date that parses is reminded on
      that date, ten clock minutes earlier. */
  lemma ReminderAt(v: Visitor, today: Date, d: Date, t: Time)
    requires today.Valid() && DepartureTime(v.departure) == Some(t) && ParseDate(v.date) == Some(d)
    requires MinuteOfDay(t) >= LeadMinutes
    ensures var k := MinuteOfDay(t) - LeadMinutes;
      ReminderFor(v, today) == Some(Reminder(DateTime(d, Time(k / 60, k % 60)), v.name, v.departure))
  {
    ReminderSameDay(v, today);
    var r := ReminderFor(v, today).value;
    var k := MinuteOfDay(t) - LeadMinutes;
    assert r.trigger.time == Time(k / 60, k % 60) by {
      assert r.trigger.time.Valid();
    }
  }

  /** A departure that reads as 11:00 on a date that parses is reminded at 10:50 that day. A visit
      stored with departure "11:00" and date "2025-03-14" meets both hypotheses, by
      `ElevenOClockDeparture` and `FourteenthOfMarchParses`, and is reminded at 10:50 on
      2025-03-14. */
  lemma ExampleReminder(v: Visitor, today: Date, d: Date)
    requires today.Valid() && DepartureTime(v.departure) == Some(Time(11, 0)) && ParseDate(v.date) == Some(d)
    ensures ReminderFor(v, today) == Some(Reminder(DateTime(d, Time(10, 50)), v.name, v.departure))
  {
    ReminderAt(v, today, d, Time(11, 0));
  }
}
