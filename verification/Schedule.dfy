/** Schedules and their due times.  Times are microseconds since the epoch, in UTC. */
module Schedules {
  import opened Ordering
  import opened Text

  const DAY: int := 86_400_000_000
  const MINUTE: int := 60_000_000

  datatype Schedule =
    | Once(at: int)
    | Every(interval: int)
    | Daily(timeOfDay: int)
    | Weekly(weekday: int, timeOfDay: int)
    | Unreadable  // a ONCE, DAILY or WEEKLY entry with a non-empty text that is no time
  {
    /** Intervals are positive, Monday is day 0, and a text that is a time of day names a whole minute of a day.
        That the text is a time is not asked. */
    predicate Valid() {
      && (Every? ==> interval > 0)
      && (Daily? || Weekly? ==> 0 <= timeOfDay < DAY && timeOfDay % MINUTE == 0)
      && (Weekly? ==> 0 <= weekday < 7)
    }
  }

  datatype Entry = Entry(
    scheduleId: Id, name: string, createdAt: int, schedule: Schedule, maxExecutions: Option<int>, enabled: bool)
  {
    /** What the entry's constructor accepts. */
    predicate Valid() {
      !IsBlank(name) && schedule.Valid() && (maxExecutions.Some? ==> maxExecutions.value >= 1)
    }
  }

  /** The epoch, day 0, was a Thursday. */
  function Weekday(t: int): int {
    (t / DAY + 3) % 7
  }

  function SlotsElapsed(e: Entry, now: int): int
    requires e.schedule.Every? && e.schedule.interval > 0
  {
    (now - e.createdAt) / e.schedule.interval
  }

  /** `next_due_time`, which raises for an unreadable schedule. */
  function NextDue(e: Entry, now: int): int
    requires e.schedule.Valid() && !e.schedule.Unreadable?
  {
    match e.schedule
    case Once(at) => at
    case Every(interval) =>
      var slots := SlotsElapsed(e, now);
      if slots >= 1 then e.createdAt + slots * interval else e.createdAt + interval
    case Daily(timeOfDay) =>
      var candidate := now / DAY * DAY + timeOfDay;
      if candidate <= now then candidate + DAY else candidate
    case Weekly(weekday, timeOfDay) =>
      var daysAhead := (weekday - Weekday(now)) % 7;
      var candidate := now / DAY * DAY + timeOfDay + daysAhead * DAY;
      if candidate <= now then candidate + 7 * DAY else candidate
  }

  // ------------------------------------------------------- what the due time is

  /** The instants that a schedule names. */
  ghost predicate Names(e: Entry, t: int) {
    match e.schedule
    case Once(at) => t == at
    case Every(interval) => exists k: int :: k >= 1 && t == e.createdAt + k * interval
    case Daily(timeOfDay) => t % DAY == timeOfDay
    case Weekly(weekday, timeOfDay) => t % DAY == timeOfDay && Weekday(t) == weekday
    case Unreadable => false
  }

  lemma SlotOrder(j: int, k: int, interval: int)
    requires interval > 0 && j <= k
    ensures j * interval <= k * interval
  {
  }

  lemma SlotsElapsedFacts(e: Entry, now: int)
    requires e.schedule.Every? && e.schedule.interval > 0
    ensures var slots := SlotsElapsed(e, now);
      e.createdAt + slots * e.schedule.interval <= now < e.createdAt + (slots + 1) * e.schedule.interval
  {
    var elapsed, interval := now - e.createdAt, e.schedule.interval;
    assert elapsed == elapsed / interval * interval + elapsed % interval;
    assert (elapsed / interval + 1) * interval == elapsed / interval * interval + interval;
  }

  /** An interval entry is due at its latest slot that has come, or else at its first slot.  So it is
      overdue for ever after the first slot, where its documentation says "the first > now". */
  lemma IntervalDue(e: Entry, now: int)
    requires e.Valid() && e.schedule.Every?
    ensures var due := NextDue(e, now);
      && Names(e, due)
      && (due <= now <==> now >= e.createdAt + e.schedule.interval)
      && (due <= now ==> forall t :: Names(e, t) && t <= now ==> t <= due)
      && (due > now ==> forall t :: Names(e, t) ==> due <= t)
  {
    var interval := e.schedule.interval;
    var slots := SlotsElapsed(e, now);
    var due := NextDue(e, now);
    SlotsElapsedFacts(e, now);
    var index := if slots >= 1 then slots else 1;
    assert due == e.createdAt + index * interval;
    if slots >= 1 {
      SlotOrder(1, slots, interval);
    } else {
      SlotOrder(slots + 1, 1, interval);
    }
    forall t | Names(e, t) && (t <= now || due > now)
      ensures due <= now ==> t <= due
      ensures due > now ==> due <= t
    {
      var k: int :| k >= 1 && t == e.createdAt + k * interval;
      if k <= slots {
        SlotOrder(k, slots, interval);
      } else {
        SlotOrder(slots + 1, k, interval);
        SlotOrder(1, k, interval);
      }
    }
  }

  lemma DayOf(q: int, timeOfDay: int)
    requires 0 <= timeOfDay < DAY
    ensures (q * DAY + timeOfDay) / DAY == q && (q * DAY + timeOfDay) % DAY == timeOfDay
  {
  }

  /** A daily entry is due at the least matching instant after now, within a day. */
  lemma DailyDue(e: Entry, now: int)
    requires e.Valid() && e.schedule.Daily?
    ensures var due := NextDue(e, now);
      Names(e, due) && now < due <= now + DAY && forall t :: Names(e, t) && t > now ==> due <= t
  {
    DayOf(now / DAY, e.schedule.timeOfDay);
    DayOf(now / DAY + 1, e.schedule.timeOfDay);
  }

  lemma WeekdayAhead(d: int, weekday: int, ahead: int, q: int)
    requires 0 <= weekday < 7 && ahead == (weekday - (d + 3) % 7) % 7
    ensures 0 <= ahead < 7 && (d + ahead + 3) % 7 == weekday
    ensures q >= d && (q + 3) % 7 == weekday ==> q >= d + ahead
    ensures q > d + ahead && (q + 3) % 7 == weekday ==> q >= d + ahead + 7
  {
  }

  /** A weekly entry is due at the least matching instant after now, within a week. */
  lemma WeeklyDue(e: Entry, now: int)
    requires e.Valid() && e.schedule.Weekly?
    ensures var due := NextDue(e, now);
      Names(e, due) && now < due <= now + 7 * DAY && forall t :: Names(e, t) && t > now ==> due <= t
  {
    var d, weekday, timeOfDay := now / DAY, e.schedule.weekday, e.schedule.timeOfDay;
    var ahead := (weekday - Weekday(now)) % 7;
    WeekdayAhead(d, weekday, ahead, d);
    DayOf(d + ahead, timeOfDay);
    DayOf(d + ahead + 7, timeOfDay);
    forall t | Names(e, t) && t > now
      ensures NextDue(e, now) <= t
    {
      WeekdayAhead(d, weekday, ahead, t / DAY);
      assert t == t / DAY * DAY + timeOfDay;
    }
  }

  /** From when on a tick finds an entry due; a daily, weekly or unreadable entry never. */
  predicate DueBy(e: Entry, now: int) {
    match e.schedule
    case Once(at) => at <= now
    case Every(interval) => e.createdAt + interval <= now
    case Daily(_) => false
    case Weekly(_, _) => false
    case Unreadable => false
  }

  /** What a tick can ever find due: daily and weekly entries are always due later than now, and the others
      stay due for ever. */
  lemma DueIff(e: Entry, now: int)
    requires e.Valid() && !e.schedule.Unreadable?
    ensures NextDue(e, now) <= now <==> DueBy(e, now)
  {
    match e.schedule
    case Once(_) =>
    case Every(_) => IntervalDue(e, now);
    case Daily(_) => DailyDue(e, now);
    case Weekly(_, _) => WeeklyDue(e, now);
  }
}
