/** The evaluator: a time clue and a reference instant ("now") give one
    instant, or an evaluation error. An instant is a local calendar day, a
    second of that day and the fixed UTC offset of now's time zone; all
    results keep now's offset. */
module Interpreter {
  import opened Wrappers
  import opened Integers
  import opened Clues
  import opened Calendar

  const SECONDS_PER_DAY: int := 86400

  /** `day` counts local calendar days since 1970-01-01, `sod` is the second
      of that day and `offset` is the zone's offset east of UTC in seconds. */
  datatype Instant = Instant(day: int, sod: int, offset: int) {

    predicate Valid() {
      0 <= sod < SECONDS_PER_DAY
    }
  }

  /** Seconds since 1970-01-01T00:00:00 on the local clock. */
  function LocalSeconds(t: Instant): int {
    t.day * SECONDS_PER_DAY + t.sod
  }

  /** Seconds since 1970-01-01T00:00:00 UTC: the point in time itself. */
  function UtcSeconds(t: Instant): int {
    LocalSeconds(t) - t.offset
  }

  /** The instant at a local second count, in the zone with offset `offset`. */
  function FromLocalSeconds(secs: int, offset: int): (t: Instant)
    ensures t.Valid() && t.offset == offset
    ensures LocalSeconds(t) == secs
  {
    Instant(secs / SECONDS_PER_DAY, secs % SECONDS_PER_DAY, offset)
  }

  /** `t + Duration::seconds(secs)` (a negative count goes back in time). */
  function Plus(t: Instant, secs: int): (r: Instant)
    ensures r.Valid() && r.offset == t.offset
    ensures UtcSeconds(r) == UtcSeconds(t) + secs
  {
    FromLocalSeconds(LocalSeconds(t) + secs, t.offset)
  }

  /** `a < b` on date-times: `a` is the earlier point in time. */
  predicate Before(a: Instant, b: Instant) {
    UtcSeconds(a) < UtcSeconds(b)
  }

  /** An hour, minute and second that name a second of a day. */
  predicate IsClock(hms: HMS) {
    hms.0 < 24 && hms.1 < 60 && hms.2 < 60
  }

  function ClockSeconds(hms: HMS): (secs: nat)
    requires IsClock(hms)
    ensures secs < SECONDS_PER_DAY
  {
    hms.0 * 3600 + hms.1 * 60 + hms.2
  }

  /** `date.and_hms(h, m, s)`: the given clock time on a local day. */
  function AtTime(day: int, hms: HMS, offset: int): (t: Instant)
    requires IsClock(hms)
    ensures t.Valid()
  {
    Instant(day, ClockSeconds(hms), offset)
  }

  /** Shifting by whole days keeps the clock time and moves the date. */
  lemma {:induction false} PlusDays(t: Instant, k: int)
    requires t.Valid()
    ensures Plus(t, k * SECONDS_PER_DAY) == Instant(t.day + k, t.sod, t.offset)
  {
    var secs := LocalSeconds(t) + k * SECONDS_PER_DAY;
    assert secs == (t.day + k) * SECONDS_PER_DAY + t.sod;
    assert secs / SECONDS_PER_DAY == t.day + k;
  }

  // ---------------------------------------------------------------------
  // Errors and the clock check

  datatype EvaluationError =
    | InvalidTimeAMPM(hour: nat, minute: nat, second: nat, amOrPm: AmPm)
    | InvalidTime(hour: nat, minute: nat, second: nat)
    | ChronoISOError(year: int, month: nat, day: nat, hour: nat, minute: nat, second: nat)

  /** The hour on the 24-hour clock: PM adds twelve, AM and no marker keep it. */
  function ShiftedHour(h: nat, ampm: Option<AmPm>): nat {
    if ampm == Some(PM) then h + 12 else h
  }

  /** The one place where hour, minute and second are range-checked; the
      error reports the hour as written, before any PM shift. */
  function CheckHms(hms: HMS, ampm: Option<AmPm>): (r: Result<HMS, EvaluationError>)
    ensures r.Success? <==> (if ampm == Some(PM) then hms.0 < 12 else hms.0 < 24) && hms.1 < 60 && hms.2 < 60
    ensures r.Success? ==> IsClock(r.value) && r.value.1 == hms.1 && r.value.2 == hms.2
    ensures r.Success? && ampm == Some(PM) ==> 12 <= r.value.0 && r.value.0 - 12 == hms.0
    ensures r.Success? && ampm != Some(PM) ==> r.value == hms
    ensures r.Failure? && ampm.Some? ==> r.error == InvalidTimeAMPM(hms.0, hms.1, hms.2, ampm.value)
    ensures r.Failure? && ampm.None? ==> r.error == InvalidTime(hms.0, hms.1, hms.2)
  {
    var (h, m, s) := hms;
    var hour := ShiftedHour(h, ampm);
    if hour < 24 && m < 60 && s < 60 then
      Success((hour, m, s))
    else
      match ampm
      case Some(a) => Failure(InvalidTimeAMPM(h, m, s, a))
      case None => Failure(InvalidTime(h, m, s))
  }

  /** An AM marker changes nothing but the error reported; the PM reading of
      an hour is twelve hours after its AM reading. */
  lemma AmPmReadings(hms: HMS)
    ensures CheckHms(hms, Some(AM)).Success? == CheckHms(hms, None).Success?
    ensures CheckHms(hms, Some(AM)).Success? ==> CheckHms(hms, Some(AM)).value == CheckHms(hms, None).value
    ensures CheckHms(hms, Some(PM)).Success? ==>
              CheckHms(hms, Some(AM)).Success? && CheckHms(hms, Some(PM)).value.0 == CheckHms(hms, Some(AM)).value.0 + 12
  {
  }

  lemma CheckHmsExamples()
    ensures CheckHms((19, 43, 42), None) == Success((19, 43, 42))
    ensures CheckHms((19, 43, 42), Some(AM)) == Success((19, 43, 42))
    ensures CheckHms((19, 43, 42), Some(PM)).Failure?
    ensures CheckHms((24, 43, 42), None).Failure?
    ensures CheckHms((19, 63, 42), None).Failure?
    ensures CheckHms((19, 43, 62), None).Failure?
    ensures CheckHms((6, 42, 43), Some(PM)) == Success((18, 42, 43))
    ensures CheckHms((12, 0, 0), Some(PM)) == Failure(InvalidTimeAMPM(12, 0, 0, PM))
  {
  }

  // ---------------------------------------------------------------------
  // The clue families

  /** A time of day on now's date; with `assumeNextDay`, a time already past
      today is taken on the following day. */
  function EvaluateTime(hms: HMS, ampm: Option<AmPm>, now: Instant, assumeNextDay: bool)
    : (r: Result<Instant, EvaluationError>)
    requires now.Valid()
    ensures CheckHms(hms, ampm).Failure? ==> r == Failure(CheckHms(hms, ampm).error)
    ensures CheckHms(hms, ampm).Success? ==> r.Success?
    ensures r.Success? ==> r.value.Valid() && r.value.offset == now.offset
                           && r.value.sod == ClockSeconds(CheckHms(hms, ampm).value)
    ensures r.Success? && !assumeNextDay ==> r.value.day == now.day
    ensures r.Success? && assumeNextDay ==> !Before(r.value, now)
    ensures r.Success? && assumeNextDay ==>
              r.value.day == (if r.value.sod < now.sod then now.day + 1 else now.day)
  {
    var clock :- CheckHms(hms, ampm);
    var d := AtTime(now.day, clock, now.offset);
    if assumeNextDay && Before(d, now) then
      PlusDays(d, 1);
      Success(Plus(d, SECONDS_PER_DAY))
    else
      Success(d)
  }

  /** The length of one unit of a relative clue; a month is thirty days. */
  function UnitSeconds(q: Quantifier): (u: nat)
    ensures u > 0 && u % 60 == 0
  {
    match q
    case Min => 60
    case Hours => 60 * 60
    case Days => SECONDS_PER_DAY
    case Weeks => 7 * SECONDS_PER_DAY
    case Months => 30 * SECONDS_PER_DAY
  }

  /** `n` units before now. */
  function EvaluateRelative(n: nat, q: Quantifier, now: Instant): (r: Instant)
    ensures r.Valid() && r.offset == now.offset
    ensures UtcSeconds(now) - UtcSeconds(r) == n * UnitSeconds(q)
  {
    Plus(now, -(n * UnitSeconds(q)))
  }

  /** `n` units after now. */
  function EvaluateRelativeFuture(n: nat, q: Quantifier, now: Instant): (r: Instant)
    ensures r.Valid() && r.offset == now.offset
    ensures UtcSeconds(r) - UtcSeconds(now) == n * UnitSeconds(q)
  {
    Plus(now, n * UnitSeconds(q))
  }

  /** "n units ago" and "in n units" lie on either side of now, equally far
      from it, and coincide with now only for a count of zero. */
  lemma RelativeSymmetric(n: nat, q: Quantifier, now: Instant)
    ensures UtcSeconds(EvaluateRelative(n, q, now)) + UtcSeconds(EvaluateRelativeFuture(n, q, now))
            == 2 * UtcSeconds(now)
    ensures n > 0 ==> Before(EvaluateRelative(n, q, now), now) && Before(now, EvaluateRelativeFuture(n, q, now))
    ensures n == 0 ==> UtcSeconds(EvaluateRelative(n, q, now)) == UtcSeconds(now)
  {
  }

  /** Whole-day units keep the clock time: "3 days ago" is three dates back
      at now's time of day. */
  lemma {:induction false} RelativeDays(n: nat, q: Quantifier, now: Instant)
    requires now.Valid() && (q == Days || q == Weeks || q == Months)
    ensures EvaluateRelative(n, q, now).sod == now.sod
    ensures EvaluateRelativeFuture(n, q, now).sod == now.sod
    ensures now.day - EvaluateRelative(n, q, now).day == EvaluateRelativeFuture(n, q, now).day - now.day
            == n * UnitSeconds(q) / SECONDS_PER_DAY
  {
    var k := n * (UnitSeconds(q) / SECONDS_PER_DAY);
    assert n * UnitSeconds(q) == k * SECONDS_PER_DAY;
    PlusDays(now, -k);
    assert -(n * UnitSeconds(q)) == (-k) * SECONDS_PER_DAY;
    PlusDays(now, k);
  }

  /** The time of a day-at clue: an absent time reads as 0:00:00 before the
      clock check, so it is midnight, or noon when the clue says "pm". */
  function DayAtClock(time: Option<HMS>, ampm: Option<AmPm>): (r: Result<HMS, EvaluationError>)
    ensures time.Some? ==> r == CheckHms(time.value, ampm)
    ensures time.None? && ampm != Some(PM) ==> r == Success((0, 0, 0))
    ensures time.None? && ampm == Some(PM) ==> r == Success((12, 0, 0))
  {
    CheckHms(time.GetOr((0, 0, 0)), ampm)
  }

  /** "last w" / "next w": the weekday `w` of now's week when it lies on the
      requested side of today, otherwise the same weekday a week earlier or
      later. */
  function EvaluateRelativeDayAt(modifier: Modifier, w: Weekday, time: Option<HMS>, ampm: Option<AmPm>,
                                 now: Instant): (r: Result<Instant, EvaluationError>)
    requires now.Valid()
    ensures DayAtClock(time, ampm).Failure? ==> r == Failure(DayAtClock(time, ampm).error)
    ensures DayAtClock(time, ampm).Success? ==> r.Success?
    ensures r.Success? ==> r.value.Valid() && r.value.offset == now.offset
                           && r.value.sod == ClockSeconds(DayAtClock(time, ampm).value)
    ensures r.Success? ==> WeekdayIndex(r.value.day) == w.Index()
    ensures r.Success? && modifier == Last ==> now.day - 7 <= r.value.day <= now.day - 1
    ensures r.Success? && modifier == Next ==> now.day + 1 <= r.value.day <= now.day + 7
    ensures r.Success? && modifier == Last ==>
              (WeekStart(r.value.day) == WeekStart(now.day) <==> w.Index() < WeekdayIndex(now.day))
    ensures r.Success? && modifier == Next ==>
              (WeekStart(r.value.day) == WeekStart(now.day) <==> w.Index() > WeekdayIndex(now.day))
  {
    var clock :- DayAtClock(time, ampm);
    var today := WeekdayIndex(now.day);
    var monday := now.day - today;
    var sameWeekDay := monday + w.Index();
    WeekOf(now.day, w.Index());
    var d := AtTime(sameWeekDay, clock, now.offset);
    match modifier
    case Last =>
      if w.Index() < today then Success(d)
      else
        PlusDays(d, -7);
        WeekdaySteps(sameWeekDay - 7);
        Success(Plus(d, -7 * SECONDS_PER_DAY))
    case Next =>
      if w.Index() > today then Success(d)
      else
        PlusDays(d, 7);
        WeekdaySteps(sameWeekDay);
        Success(Plus(d, 7 * SECONDS_PER_DAY))
  }

  /** A weekday of now's own Monday-based week. */
  function EvaluateSameWeekDayAt(w: Weekday, time: Option<HMS>, ampm: Option<AmPm>, now: Instant)
    : (r: Result<Instant, EvaluationError>)
    requires now.Valid()
    ensures DayAtClock(time, ampm).Failure? ==> r == Failure(DayAtClock(time, ampm).error)
    ensures DayAtClock(time, ampm).Success? ==> r.Success?
    ensures r.Success? ==> r.value.Valid() && r.value.offset == now.offset
                           && r.value.sod == ClockSeconds(DayAtClock(time, ampm).value)
    ensures r.Success? ==> WeekdayIndex(r.value.day) == w.Index()
    ensures r.Success? ==> WeekStart(r.value.day) == WeekStart(now.day)
  {
    var clock :- DayAtClock(time, ampm);
    var monday := now.day - WeekdayIndex(now.day);
    WeekOf(now.day, w.Index());
    Success(AtTime(monday + w.Index(), clock, now.offset))
  }

  /** Days from today to the day a shortcut names. */
  function ShortcutOffset(d: ShortcutDay): (k: int)
    ensures -1 <= k <= 1
    ensures k == 0 <==> d == Today
  {
    match d
    case Today => 0
    case Yesterday => -1
    case Tomorrow => 1
  }

  /** "today", "yesterday", "tomorrow", at a time of that day. */
  function EvaluateShortcutDayAt(d: ShortcutDay, time: Option<HMS>, ampm: Option<AmPm>, now: Instant)
    : (r: Result<Instant, EvaluationError>)
    requires now.Valid()
    ensures DayAtClock(time, ampm).Failure? ==> r == Failure(DayAtClock(time, ampm).error)
    ensures DayAtClock(time, ampm).Success? ==> r.Success?
    ensures r.Success? ==> r.value.Valid() && r.value.offset == now.offset
                           && r.value.sod == ClockSeconds(DayAtClock(time, ampm).value)
    ensures r.Success? ==> r.value.day - now.day == ShortcutOffset(d)
  {
    var clock :- DayAtClock(time, ampm);
    match d
    case Today => Success(AtTime(now.day, clock, now.offset))
    case Yesterday => Success(AtTime(now.day - 1, clock, now.offset))
    case Tomorrow => Success(AtTime(now.day + 1, clock, now.offset))
  }

  /** The fields of an ISO clue name a date-time the backend can build: a real
      date in its year range and a clock time. */
  predicate IsoFieldsValid(ymd: YMD, hms: HMS) {
    MIN_YEAR <= ymd.0 <= MAX_YEAR && IsValidDate(ymd.0, ymd.1, ymd.2) && IsClock(hms)
  }

  /** The seconds since the epoch of a UTC date-time. */
  function IsoUtcSeconds(ymd: YMD, hms: HMS): int
    requires IsoFieldsValid(ymd, hms)
  {
    DaysFromCivil(ymd.0, ymd.1, ymd.2) * SECONDS_PER_DAY + ClockSeconds(hms)
  }

  /** The fields read as a UTC date-time, shown in now's zone. */
  function EvaluateIso(ymd: YMD, hms: HMS, now: Instant): (r: Result<Instant, EvaluationError>)
    ensures r.Success? <==> IsoFieldsValid(ymd, hms)
    ensures r.Success? ==> r.value.Valid() && r.value.offset == now.offset
                           && UtcSeconds(r.value) == IsoUtcSeconds(ymd, hms)
    ensures r.Failure? ==> r.error == ChronoISOError(ymd.0, ymd.1, ymd.2, hms.0, hms.1, hms.2)
  {
    if IsoFieldsValid(ymd, hms) then
      Success(FromLocalSeconds(IsoUtcSeconds(ymd, hms) + now.offset, now.offset))
    else
      Failure(ChronoISOError(ymd.0, ymd.1, ymd.2, hms.0, hms.1, hms.2))
  }

  /** In a zone at UTC, the ISO fields are the instant's own date and clock. */
  lemma {:induction false} IsoAtUtc(ymd: YMD, hms: HMS, now: Instant)
    requires IsoFieldsValid(ymd, hms) && now.offset == 0
    ensures EvaluateIso(ymd, hms, now) == Success(Instant(DaysFromCivil(ymd.0, ymd.1, ymd.2), ClockSeconds(hms), 0))
  {
    var t := EvaluateIso(ymd, hms, now).value;
    var day := DaysFromCivil(ymd.0, ymd.1, ymd.2);
    assert LocalSeconds(t) == day * SECONDS_PER_DAY + ClockSeconds(hms);
    assert t.day == day;
  }

  /** The same clock time on consecutive dates is one day apart. */
  lemma {:induction false} IsoNextDate(ymd: YMD, hms: HMS, now: Instant)
    requires IsoFieldsValid(ymd, hms) && ymd.0 < MAX_YEAR
    ensures var n := NextDate(ymd.0, ymd.1, ymd.2);
            EvaluateIso(n, hms, now).Success?
            && UtcSeconds(EvaluateIso(n, hms, now).value) == UtcSeconds(EvaluateIso(ymd, hms, now).value) + SECONDS_PER_DAY
  {
    DaysFromCivilNext(ymd.0, ymd.1, ymd.2);
  }

  // ---------------------------------------------------------------------
  // The evaluator

  function EvaluateTimeClue(clue: TimeClue, now: Instant, assumeNextDay: bool): (r: Result<Instant, EvaluationError>)
    requires now.Valid()
    ensures r.Success? ==> r.value.Valid() && r.value.offset == now.offset
    ensures clue.Now? ==> r == Success(now)
  {
    match clue
    case Now => Success(now)
    case Time(hms, ampm) => EvaluateTime(hms, ampm, now, assumeNextDay)
    case Relative(n, q) => Success(EvaluateRelative(n, q, now))
    case RelativeFuture(n, q) => Success(EvaluateRelativeFuture(n, q, now))
    case RelativeDayAt(modifier, w, time, ampm) => EvaluateRelativeDayAt(modifier, w, time, ampm, now)
    case SameWeekDayAt(w, time, ampm) => EvaluateSameWeekDayAt(w, time, ampm, now)
    case ShortcutDayAt(d, time, ampm) => EvaluateShortcutDayAt(d, time, ampm, now)
    case ISO(ymd, hms) => EvaluateIso(ymd, hms, now)
  }

  /** The flag only concerns clues that give a time of day without a date. */
  lemma FlagOnlyForTimes(clue: TimeClue, now: Instant)
    requires now.Valid() && !clue.Time?
    ensures EvaluateTimeClue(clue, now, true) == EvaluateTimeClue(clue, now, false)
  {
  }

  /** `evaluate`: the evaluator with times of day taken on now's date. */
  function Evaluate(clue: TimeClue, now: Instant): (r: Result<Instant, EvaluationError>)
    requires now.Valid()
    ensures r.Success? ==> r.value.Valid() && r.value.offset == now.offset
    ensures r.Success? && clue.Time? ==> r.value.day == now.day
  {
    EvaluateTimeClue(clue, now, false)
  }

  // ---------------------------------------------------------------------
  // The library's own examples, at 2020-07-12T12:45:00 UTC, a Sunday

  const EXAMPLE_NOW: Instant := Instant(18455, 12 * 3600 + 45 * 60, 0)

  lemma ExampleNow()
    ensures EvaluateIso((2020, 7, 12), (12, 45, 0), EXAMPLE_NOW) == Success(EXAMPLE_NOW)
    ensures WeekdayIndex(EXAMPLE_NOW.day) == Sunday.Index()
  {
    IsoAtUtc((2020, 7, 12), (12, 45, 0), EXAMPLE_NOW);
    KnownWeekdays();
  }

  /** Next Friday from Sunday 2020-07-12 is Friday 2020-07-17 at midnight. */
  lemma NextWeekdayExample()
    ensures Evaluate(TimeClue.RelativeDayAt(Next, Friday, None, None), EXAMPLE_NOW)
            == EvaluateIso((2020, 7, 17), (0, 0, 0), EXAMPLE_NOW)
  {
    IsoAtUtc((2020, 7, 17), (0, 0, 0), EXAMPLE_NOW);
  }

  /** 8:00 is on the same day without the flag, and on the next day with it. */
  lemma AssumeNextDayExample()
    ensures EvaluateTimeClue(TimeClue.Time((8, 0, 0), None), EXAMPLE_NOW, false)
            == EvaluateIso((2020, 7, 12), (8, 0, 0), EXAMPLE_NOW)
    ensures EvaluateTimeClue(TimeClue.Time((8, 0, 0), None), EXAMPLE_NOW, true)
            == EvaluateIso((2020, 7, 13), (8, 0, 0), EXAMPLE_NOW)
  {
    IsoAtUtc((2020, 7, 12), (8, 0, 0), EXAMPLE_NOW);
    IsoAtUtc((2020, 7, 13), (8, 0, 0), EXAMPLE_NOW);
  }

  /** The 30th of February is not a date. */
  lemma InvalidIsoExample()
    ensures Evaluate(TimeClue.ISO((2020, 2, 30), (0, 0, 0)), EXAMPLE_NOW) == Failure(ChronoISOError(2020, 2, 30, 0, 0, 0))
  {
  }

  // ---------------------------------------------------------------------
  // Machine integers as the code writes them. The evaluator above uses
  // unbounded counts and hours; these two members keep Rust's wrap-around
  // so that the difference can be stated.

  const U32_MODULUS: int := 0x1_0000_0000
  const I64_MODULUS: int := 0x1_0000_0000_0000_0000
  const I64_MIN: int := -0x8000_0000_0000_0000
  const I64_MAX: int := 0x7FFF_FFFF_FFFF_FFFF

  /** `n as i64` for a 64-bit `usize`: the same bits read as two's complement. */
  function AsI64(n: nat): (v: int)
    requires n <= USIZE_MAX
    ensures I64_MIN <= v <= I64_MAX
    ensures v == n || v == n - I64_MODULUS
  {
    if n <= I64_MAX then n else n - I64_MODULUS
  }

  /** `now - Duration::minutes(n as i64)` and its siblings, with the cast as
      written (the panics of `Duration` and of date-time overflow aside). */
  function EvaluateRelativeAsWritten(n: nat, q: Quantifier, now: Instant): (r: Instant)
    requires n <= USIZE_MAX
    ensures r.Valid() && r.offset == now.offset
    ensures UtcSeconds(now) - UtcSeconds(r) == AsI64(n) * UnitSeconds(q)
  {
    Plus(now, -(AsI64(n) * UnitSeconds(q)))
  }

  /** Below 2^63 the cast changes nothing. */
  lemma RelativeAsWrittenAgrees(n: nat, q: Quantifier, now: Instant)
    requires n <= I64_MAX
    ensures EvaluateRelativeAsWritten(n, q, now) == EvaluateRelative(n, q, now)
  {
  }

  /** "18446744073709551615 min ago" is one minute after now. */
  lemma RelativeAsWrittenGoesForward(now: Instant)
    ensures UtcSeconds(EvaluateRelativeAsWritten(USIZE_MAX, Min, now)) == UtcSeconds(now) + 60
    ensures Before(now, EvaluateRelativeAsWritten(USIZE_MAX, Min, now))
  {
    assert AsI64(USIZE_MAX) == -1;
  }

  /** `check_hms` with `h + 12` on `u32` wrapping, as a release build does. */
  function CheckHmsAsWritten(hms: HMS, ampm: Option<AmPm>): (r: Result<HMS, EvaluationError>)
    requires hms.0 <= U32_MAX
    ensures r.Success? ==> IsClock(r.value)
    ensures r.Success? && ampm == Some(PM) ==> r.value.0 == (hms.0 + 12) % U32_MODULUS
  {
    var (h, m, s) := hms;
    var hour := if ampm == Some(PM) then (h + 12) % U32_MODULUS else h;
    if hour < 24 && m < 60 && s < 60 then
      Success((hour, m, s))
    else
      match ampm
      case Some(a) => Failure(InvalidTimeAMPM(h, m, s, a))
      case None => Failure(InvalidTime(h, m, s))
  }

  /** Hours that do not wrap are checked alike. */
  lemma CheckHmsAsWrittenAgrees(hms: HMS, ampm: Option<AmPm>)
    requires hms.0 + 12 < U32_MODULUS
    ensures CheckHmsAsWritten(hms, ampm) == CheckHms(hms, ampm)
  {
  }

  /** "4294967295 pm" is accepted as 11:00, where the intended check rejects it. */
  lemma CheckHmsAsWrittenWraps()
    ensures CheckHmsAsWritten((U32_MAX, 0, 0), Some(PM)) == Success((11, 0, 0))
    ensures CheckHms((U32_MAX, 0, 0), Some(PM)) == Failure(InvalidTimeAMPM(U32_MAX, 0, 0, PM))
  {
  }
}
