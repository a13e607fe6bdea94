/** Calendar arithmetic of the journey (`src/brain/journey/schedule.ts`): where a tick is
    placed in the workspace's working week, and when its alarm really fires. Instants are
    real milliseconds, because jitter is not whole; the clock itself is whole. */
module Schedule {

  const MINUTE_MS := 60_000
  const HOUR_MS := 3_600_000
  const DAY_MS := 86_400_000
  const WORK_START_HOUR := 9
  const WORK_END_HOUR := 17
  const JITTER_MS := 6 * HOUR_MS
  const MIN_DELAY_MS := 5 * MINUTE_MS

  datatype Rung = Domain | Channels | SecondAsker | ToolWorkspace | Digest

  function RungDay(rung: Rung): nat {
    match rung
    case Domain => 0
    case Channels => 0
    case SecondAsker => 2
    case ToolWorkspace => 4
    case Digest => 7
  }

  // ---------------------------------------------------------------------------
  // Reading a calendar off milliseconds since the epoch.

  /** What `new Date(x)` keeps of a fractional instant: it cuts towards zero. */
  function Clip(x: real): int {
    if x >= 0.0 then x.Floor else -((-x).Floor)
  }

  function UtcHour(ms: int): int { ms / HOUR_MS % 24 }

  /** 0 is Sunday; 1 January 1970 was a Thursday. */
  function UtcDay(ms: int): int { (ms / DAY_MS + 4) % 7 }

  function OffsetMs(tzOffsetSeconds: int): int { tzOffsetSeconds * 1000 }

  function Local(at: real, tzOffsetSeconds: int): int {
    Clip(at + OffsetMs(tzOffsetSeconds) as real)
  }

  predicate InWorkingHours(local: int) {
    WORK_START_HOUR <= UtcHour(local) < WORK_END_HOUR && 1 <= UtcDay(local) <= 5
  }

  predicate Weekend(local: int) {
    UtcDay(local) == 0 || UtcDay(local) == 6
  }

  /** Local time is not before the epoch, as with any reading of the clock. */
  predicate AfterEpoch(at: real, tzOffsetSeconds: int) {
    at + OffsetMs(tzOffsetSeconds) as real >= 0.0
  }

  // ---------------------------------------------------------------------------
  // Placement.

  /** Hours until nine o'clock, or none inside [9, 17). */
  function HoursToMorning(hour: int): int {
    if hour < WORK_START_HOUR then WORK_START_HOUR - hour
    else if hour >= WORK_END_HOUR then 24 - hour + WORK_START_HOUR
    else 0
  }

  function DaysToMonday(day: int): int {
    if day == 6 then 2 else if day == 0 then 1 else 0
  }

  /** By how many hours an instant is moved. */
  function ShiftHours(local: int): int {
    var toMorning := HoursToMorning(UtcHour(local));
    toMorning + 24 * DaysToMonday(UtcDay(local + toMorning * HOUR_MS))
  }

  lemma HoursLater(ms: int, hours: int)
    ensures UtcHour(ms + hours * HOUR_MS) == (ms / HOUR_MS + hours) % 24
    ensures UtcDay(ms + hours * HOUR_MS) == ((ms / HOUR_MS + hours) / 24 + 4) % 7
  {
    assert (ms + hours * HOUR_MS) / HOUR_MS == ms / HOUR_MS + hours;
    var later := ms + hours * HOUR_MS;
    assert later / DAY_MS == later / HOUR_MS / 24;
  }

  lemma DaysLater(ms: int, days: int)
    ensures UtcHour(ms + days * DAY_MS) == UtcHour(ms)
    ensures UtcDay(ms + days * DAY_MS) == (UtcDay(ms) + days) % 7
  {
    HoursLater(ms, 24 * days);
    HoursLater(ms, 0);
    var h := ms / HOUR_MS;
    assert (h + 24 * days) / 24 == h / 24 + days;
    assert (h + 24 * days) % 24 == h % 24;
  }

  lemma LocalLater(at: real, tz: int, ms: int)
    requires AfterEpoch(at, tz) && ms >= 0
    ensures Local(at + ms as real, tz) == Local(at, tz) + ms
    ensures AfterEpoch(at + ms as real, tz)
  {
    var x := at + OffsetMs(tz) as real;
    assert at + ms as real + OffsetMs(tz) as real == x + ms as real;
    assert (x + ms as real).Floor == x.Floor + ms;
  }

  lemma MorningStep(local: int)
    ensures var toMorning := HoursToMorning(UtcHour(local));
      && 0 <= toMorning <= 16
      && WORK_START_HOUR <= UtcHour(local + toMorning * HOUR_MS) < WORK_END_HOUR
      && (toMorning == 0 || UtcHour(local + toMorning * HOUR_MS) == WORK_START_HOUR)
  {
    HoursLater(local, 0);
    HoursLater(local, HoursToMorning(UtcHour(local)));
  }

  /** Every instant ends up inside working hours, at most 64 hours on. */
  lemma ShiftLandsInWorkingHours(local: int)
    ensures 0 <= ShiftHours(local) <= 64
    ensures InWorkingHours(local + ShiftHours(local) * HOUR_MS)
    ensures ShiftHours(local) == 0 <==> InWorkingHours(local)
  {
    MorningStep(local);
    var morning := local + HoursToMorning(UtcHour(local)) * HOUR_MS;
    var days := DaysToMonday(UtcDay(morning));
    DaysLater(morning, days);
    assert local + ShiftHours(local) * HOUR_MS == morning + days * DAY_MS;
  }

  method ShiftIntoWorkingHours(at: real, tzOffsetSeconds: int) returns (shifted: real)
    requires AfterEpoch(at, tzOffsetSeconds)
    ensures shifted == at + (ShiftHours(Local(at, tzOffsetSeconds)) * HOUR_MS) as real
    ensures at <= shifted <= at + (64 * HOUR_MS) as real
    ensures InWorkingHours(Local(shifted, tzOffsetSeconds))
    ensures AfterEpoch(shifted, tzOffsetSeconds)
  {
    var local := Local(at, tzOffsetSeconds);
    var hour := UtcHour(local);
    shifted := at;
    if hour < WORK_START_HOUR {
      shifted := at + ((WORK_START_HOUR - hour) * HOUR_MS) as real;
    } else if hour >= WORK_END_HOUR {
      shifted := at + ((24 - hour + WORK_START_HOUR) * HOUR_MS) as real;
    }
    MorningStep(local);
    ghost var morning := local + HoursToMorning(hour) * HOUR_MS;
    LocalLater(at, tzOffsetSeconds, HoursToMorning(hour) * HOUR_MS);
    ghost var start := shifted;
    ghost var days := DaysToMonday(UtcDay(morning));
    var guard := 0;
    while guard < 3
      invariant 0 <= guard <= days
      invariant shifted == start + (guard * DAY_MS) as real
    {
      LocalLater(start, tzOffsetSeconds, guard * DAY_MS);
      DaysLater(morning, guard);
      var day := UtcDay(Local(shifted, tzOffsetSeconds));
      if day != 0 && day != 6 { break; }
      shifted := shifted + DAY_MS as real;
      guard := guard + 1;
    }
    assert guard == days;  // the loop always leaves by `break`
    ShiftLandsInWorkingHours(local);
    LocalLater(at, tzOffsetSeconds, ShiftHours(local) * HOUR_MS);
  }

  /** The comment in the source says weekends roll to Monday morning, that is, to the first
      working hour. They do exactly when the weekend instant is not inside [10, 17): from
      Saturday 16:00 the tick lands on Monday 16:00, although Monday 9:00 would do. */
  lemma FirstWorkingHourIff(local: int)
    ensures (forall k :: 0 <= k < ShiftHours(local) ==> !InWorkingHours(local + k * HOUR_MS))
       <==> !(Weekend(local) && WORK_START_HOUR < UtcHour(local) < WORK_END_HOUR)
  {
    HoursLater(local, 0);
    var hour, day, shift := UtcHour(local), UtcDay(local), ShiftHours(local);
    OnTheWeek(local, HoursToMorning(hour));
    if Weekend(local) && WORK_START_HOUR < hour < WORK_END_HOUR {
      var k := shift - (hour - WORK_START_HOUR);
      OnTheWeek(local, k);
      assert 0 <= k < shift && InWorkingHours(local + k * HOUR_MS);
    } else {
      forall k | 0 <= k < shift ensures !InWorkingHours(local + k * HOUR_MS) {
        OnTheWeek(local, k);
        NoEarlierSlot(hour, day, k);
      }
    }
  }

  /** Hour and weekday `k` hours on, as day and hour of one week. */
  lemma OnTheWeek(local: int, k: int)
    ensures UtcHour(local + k * HOUR_MS) == (UtcHour(local) + k) % 24
    ensures UtcDay(local + k * HOUR_MS) == (UtcDay(local) + (UtcHour(local) + k) / 24) % 7
  {
    HoursLater(local, 0);
    HoursLater(local, k);
    DayAndHour(local / HOUR_MS, k);
    DayOfWeek(local / HOUR_MS / 24, (local / HOUR_MS % 24 + k) / 24);
  }

  lemma DayAndHour(h: int, k: int)
    ensures (h + k) / 24 == h / 24 + (h % 24 + k) / 24
    ensures (h + k) % 24 == (h % 24 + k) % 24
  {
    assert h == 24 * (h / 24) + h % 24;
  }

  lemma DayOfWeek(d: int, k: int)
    ensures (d + k + 4) % 7 == ((d + 4) % 7 + k) % 7
  {
  }

  lemma NoEarlierSlot(hour: int, day: int, k: int)
    requires 0 <= hour < 24 && 0 <= day < 7
    requires !((day == 0 || day == 6) && WORK_START_HOUR < hour < WORK_END_HOUR)
    requires 0 <= k < HoursToMorning(hour) + 24 * DaysToMonday((day + (hour + HoursToMorning(hour)) / 24) % 7)
    ensures !(WORK_START_HOUR <= (hour + k) % 24 < WORK_END_HOUR && 1 <= (day + (hour + k) / 24) % 7 <= 5)
  {
  }

  // ---------------------------------------------------------------------------
  // The next beat and its alarm.

  function Max(x: real, y: real): real { if x >= y then x else y }

  /** `fastForward` is `journeyFastForward`: never true in production. */
  method NextBeatAt(rung: Rung, installedAt: int, now: int, jitter: real, tzOffsetSeconds: int, fastForward: bool)
    returns (at: real)
    requires now >= 0 && AfterEpoch(now as real, tzOffsetSeconds)
    requires 0.0 <= jitter < JITTER_MS as real
    ensures fastForward ==> at == (installedAt + RungDay(rung) * MINUTE_MS) as real
    ensures !fastForward ==> at >= (now + MIN_DELAY_MS) as real
    ensures !fastForward ==> at >= (installedAt + RungDay(rung) * DAY_MS) as real
    ensures !fastForward ==> InWorkingHours(Local(at, tzOffsetSeconds)) || at == (now + MIN_DELAY_MS) as real
    ensures !fastForward ==>
              at <= Max(now as real, (installedAt + RungDay(rung) * DAY_MS) as real) + (70 * HOUR_MS) as real
  {
    if fastForward {
      return (installedAt + RungDay(rung) * MINUTE_MS) as real;
    }
    var target := (installedAt + RungDay(rung) * DAY_MS) as real;
    var jittered := Max(now as real, target) + jitter;
    var placed := ShiftIntoWorkingHours(jittered, tzOffsetSeconds);
    at := Max(placed, (now + MIN_DELAY_MS) as real);
  }

  /** `Math.round`: halves go up. */
  function Round(x: real): int { (x + 0.5).Floor }

  function DelaySecondsUntil(at: real, now: int): int {
    var seconds := Round((at - now as real) / 1000.0);
    if seconds < 60 then 60 else seconds
  }

  function WakesAt(at: real, now: int): int {
    now + DelaySecondsUntil(at, now) * 1000
  }

  /** An alarm fires at least a minute out and at most half a second early. */
  lemma WakesOnTime(at: real, now: int)
    ensures WakesAt(at, now) >= now + 60_000
    ensures WakesAt(at, now) as real >= at - 500.0
    ensures at >= (now + 60_000) as real ==> WakesAt(at, now) as real <= at + 500.0
  {
    var seconds := (at - now as real) / 1000.0;
    assert seconds * 1000.0 == at - now as real;
    assert seconds - 0.5 < Round(seconds) as real <= seconds + 0.5;
  }

  /** Rounding to nearest does wake early, for instance 60 400 ms ahead; exactly when the
      instant is over a minute out and less than half a second past a whole second. */
  lemma WakesEarlyIff(ahead: nat, now: int)
    ensures WakesAt((now + ahead) as real, now) < now + ahead <==> ahead > 60_000 && 0 < ahead % 1000 < 500
    ensures WakesAt((now + 60_400) as real, now) < now + 60_400
  {
    RoundThousandths(ahead);
    assert (now + ahead) as real - now as real == ahead as real;
    RoundThousandths(60_400);
    assert (now + 60_400) as real - now as real == 60_400 as real;
  }

  /** The same for an alarm placed at `at`, no earlier than `floor`: when it fires before `floor`. */
  lemma WakesShortIff(floor: int, at: real, now: int)
    requires at >= floor as real
    ensures var ahead := floor - now;
      WakesAt(at, now) < floor <==>
      ahead > 60_000 && 0 < ahead % 1000 < 500 && at < (floor - ahead % 1000 + 500) as real
  {
    var ahead := floor - now;
    var q, m := ahead / 1000, ahead % 1000;
    var x := (at - now as real) / 1000.0;
    assert x * 1000.0 == at - now as real;
    if ahead > 60_000 {
      assert x >= q as real;
      assert Round(x) <= q <==> x + 0.5 < (q + 1) as real;
      assert x + 0.5 < (q + 1) as real <==> at < (floor - m + 500) as real;
    }
  }

  /** Where the alarm lies: a minute out at least, and else within half a second of its instant,
      exactly at it when that is a whole number of seconds away. */
  lemma WakesWithin(at: real, now: int)
    ensures at < (now + 60_000) as real ==> WakesAt(at, now) == now + 60_000
    ensures at >= (now + 60_000) as real ==> at - 500.0 <= WakesAt(at, now) as real <= at + 500.0
    ensures forall seconds: int :: seconds >= 60 && at == (now + seconds * 1000) as real ==>
              WakesAt(at, now) == now + seconds * 1000
  {
    WakesOnTime(at, now);
    var x := (at - now as real) / 1000.0;
    assert x * 1000.0 == at - now as real;
    if at < (now + 60_000) as real {
      assert Round(x) <= 60;
    }
    forall seconds: int | seconds >= 60 && at == (now + seconds * 1000) as real
      ensures WakesAt(at, now) == now + seconds * 1000
    {
      assert x == seconds as real;
    }
  }

  lemma RoundThousandths(ms: nat)
    ensures Round(ms as real / 1000.0) == ms / 1000 + if ms % 1000 < 500 then 0 else 1
  {
    var q, m := ms / 1000, ms % 1000;
    assert ms as real / 1000.0 == q as real + m as real / 1000.0;
    var frac := m as real / 1000.0;
    assert 0.0 <= frac < 1.0;
    assert m < 500 <==> frac < 0.5;
    assert (q as real + frac + 0.5).Floor == q + (frac + 0.5).Floor;
  }
}
