/**
 * Deriving the local (weekday, minute of day) pair of the "today" query.
 *
 * The instant is UTC, in whole seconds since 1970-01-01T00:00:00Z (a
 * Thursday); the local clock is that instant shifted by a fixed signed
 * offset in minutes, -360 (UTC-6) when none is given. Weekdays count from
 * Monday = 0. Seconds within the minute are dropped. An offset of a whole
 * day or more is refused, as a fixed-offset time zone must be strictly
 * within 24 hours of UTC.
 */
module LocalClock {
  import opened Wrappers

  const DefaultOffsetMinutes: int := -6 * 60
  const SecondsPerDay: int := 24 * 60 * 60
  /** The weekday of 1970-01-01, with Monday = 0. */
  const EpochWeekday: int := 3

  datatype LocalNow = LocalNow(weekday: int, minuteOfDay: int)

  datatype ClockError = OffsetOutOfRange(offsetMinutes: int)

  function EffectiveOffset(offset: Option<int>): (minutes: int)
  {
    if offset.None? then DefaultOffsetMinutes else offset.value
  }

  /** The local weekday and minute of day at a UTC instant. */
  function ToLocal(utcSeconds: int, offset: Option<int>): (r: Result<LocalNow, ClockError>)
    ensures r.Ok? <==> -1440 < EffectiveOffset(offset) < 1440
    ensures r.Err? ==> r.error == OffsetOutOfRange(EffectiveOffset(offset))
    ensures r.Ok? ==> 0 <= r.value.weekday <= 6 && 0 <= r.value.minuteOfDay <= 1439
    ensures r.Ok? ==>
              var local := utcSeconds + 60 * EffectiveOffset(offset);
              var day := local / SecondsPerDay;
              day * SecondsPerDay + 60 * r.value.minuteOfDay <= local < day * SecondsPerDay + 60 * r.value.minuteOfDay + 60 &&
              r.value.weekday == (day + EpochWeekday) % 7
  {
    var off := EffectiveOffset(offset);
    if !(-1440 < off < 1440) then Err(OffsetOutOfRange(off))
    else
      var local := utcSeconds + 60 * off;
      var day := local / SecondsPerDay;
      var secondOfDay := local % SecondsPerDay;
      Ok(LocalNow((day + EpochWeekday) % 7, secondOfDay / 60))
  }

  /** With no offset the clock is local to UTC-6. */
  lemma DefaultIsUtcMinusSix(utcSeconds: int)
    ensures ToLocal(utcSeconds, None) == ToLocal(utcSeconds, Some(-360))
    ensures ToLocal(utcSeconds, None).Ok?
  {
  }

  /** One day later the minute of day is the same and the weekday is the next one. */
  lemma {:induction false} NextDay(utcSeconds: int, offset: Option<int>)
    requires ToLocal(utcSeconds, offset).Ok?
    ensures ToLocal(utcSeconds + SecondsPerDay, offset).Ok?
    ensures ToLocal(utcSeconds + SecondsPerDay, offset).value.minuteOfDay == ToLocal(utcSeconds, offset).value.minuteOfDay
    ensures ToLocal(utcSeconds + SecondsPerDay, offset).value.weekday == (ToLocal(utcSeconds, offset).value.weekday + 1) % 7
  {
    var local := utcSeconds + 60 * EffectiveOffset(offset);
    var q, r := local / 86400, local % 86400;
    assert local == q * 86400 + r && 0 <= r < 86400;
    DivModUnique(local + 86400, q + 1, r);
    var w := (q + EpochWeekday) % 7;
    WeekdayStep(q + EpochWeekday);
    assert ToLocal(utcSeconds, offset) == Ok(LocalNow(w, r / 60));
    assert ToLocal(utcSeconds + SecondsPerDay, offset) == Ok(LocalNow((q + 1 + EpochWeekday) % 7, r / 60));
  }

  /** Euclidean division by the length of a day is determined by quotient and remainder. */
  lemma DivModUnique(x: int, q: int, r: int)
    requires x == q * 86400 + r && 0 <= r < 86400
    ensures x / 86400 == q && x % 86400 == r
  {
  }

  /** Counting weekdays modulo seven. */
  lemma WeekdayStep(n: int)
    ensures (n + 1) % 7 == (n % 7 + 1) % 7
  {
  }

  /** Monday 16:30 in UTC-6 is 22:30 UTC on 1970-01-05. */
  lemma MondayAfternoon()
    ensures ToLocal(4 * SecondsPerDay + (22 * 60 + 30) * 60, None) == Ok(LocalNow(0, 16 * 60 + 30))
  {
  }
}
