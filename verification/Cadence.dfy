/** The instants a recurring schedule denotes (apps/backend/src/modules/cadence/cadence.engine.ts). */
module Cadence {
  import opened Wrappers
  import opened Calendar
  import opened TimeZones

  datatype MonthEndPolicy = ClampToLastDay | SkipMonth

  datatype TimeOfDay = TimeOfDay(hour: int, minute: int, second: int)

  datatype NthWeekday = NthWeekday(nth: int, weekday: int)

  datatype Spec =
    | Adhoc(runAt: int)
    | Monthly(atTime: TimeOfDay, onDayOfMonth: Option<int>, onNthWeekday: Option<NthWeekday>,
              everyNMonths: Option<int>, monthEndPolicy: Option<MonthEndPolicy>)
    | Quarterly(atTime: TimeOfDay, monthOffsetInQuarter: int, onDayOfMonth: Option<int>,
                monthEndPolicy: Option<MonthEndPolicy>)

  datatype Outcome = Occurrences(instants: seq<int>) | WindowTooLarge(months: int)

  const MAX_SCANNED_MONTHS := 400

  /** What the cadence schema admits. */
  predicate ValidTime(t: TimeOfDay) {
    0 <= t.hour <= 23 && 0 <= t.minute <= 59 && 0 <= t.second <= 59
  }

  predicate ValidSpec(spec: Spec) {
    match spec
    case Adhoc(_) => true
    case Monthly(atTime, day, nth, every, policy) =>
      && ValidTime(atTime)
      && (day.Some? <==> nth.None?)
      && (day.Some? ==> 1 <= day.value <= 31)
      && (nth.Some? ==> -1 <= nth.value.nth <= 5 && nth.value.nth != 0 && 0 <= nth.value.weekday <= 6)
      && (every.Some? ==> 1 <= every.value <= 12)
    case Quarterly(atTime, offset, day, policy) =>
      && ValidTime(atTime)
      && 0 <= offset <= 2
      && day.Some? && 1 <= day.value <= 31
  }

  // ---------------------------------------------------------------------------
  // One month
  // ---------------------------------------------------------------------------

  function EveryN(spec: Spec): int
    requires spec.Monthly?
  {
    if spec.everyNMonths.Some? then spec.everyNMonths.value else 1
  }

  function PolicyOf(spec: Spec): MonthEndPolicy
    requires !spec.Adhoc?
  {
    if spec.monthEndPolicy.Some? then spec.monthEndPolicy.value else ClampToLastDay
  }

  function ClampDayOfMonth(year: int, month: int, requestedDay: int, policy: MonthEndPolicy): Option<int> {
    var lastDay := DaysInMonth(year, month);
    if requestedDay <= lastDay then Some(CivilToDays(year, month, requestedDay))
    else if policy == SkipMonth then None
    else Some(CivilToDays(year, month, lastDay))
  }

  function NthWeekdayOfMonth(year: int, month: int, nth: int, weekday: int): Option<int> {
    NthBetween(CivilToDays(year, month, 1), CivilToDays(year, month, DaysInMonth(year, month)), nth, weekday)
  }

  function NthBetween(firstDay: int, lastDay: int, nth: int, weekday: int): Option<int> {
    if nth == -1 then
      Some(lastDay - JsRem(WeekdayFromDays(lastDay) - weekday + 7, 7))
    else
      var candidate := firstDay + JsRem(weekday - WeekdayFromDays(firstDay) + 7, 7) + (nth - 1) * 7;
      if candidate > lastDay then None else Some(candidate)
  }

  /** Whether the month takes part in the cadence at all, counted from the anchor month. */
  predicate Participates(spec: Spec, monthIndex: int, anchorMonthIndex: int)
    requires ValidSpec(spec) && !spec.Adhoc?
  {
    var monthsSinceAnchor := monthIndex - anchorMonthIndex;
    if spec.Quarterly? then
      JsRem(JsRem(monthsSinceAnchor, 3) + 3, 3) == spec.monthOffsetInQuarter
    else
      JsRem(JsRem(monthsSinceAnchor, EveryN(spec)) + EveryN(spec), EveryN(spec)) == 0
  }

  function DayWithinMonth(spec: Spec, year: int, month: int, monthIndex: int, anchorMonthIndex: int): Option<int>
    requires ValidSpec(spec) && !spec.Adhoc?
  {
    if !Participates(spec, monthIndex, anchorMonthIndex) then None
    else if spec.Monthly? && spec.onNthWeekday.Some? then
      NthWeekdayOfMonth(year, month, spec.onNthWeekday.value.nth, spec.onNthWeekday.value.weekday)
    else
      ClampDayOfMonth(year, month, if spec.onDayOfMonth.Some? then spec.onDayOfMonth.value else 1, PolicyOf(spec))
  }

  // ---------------------------------------------------------------------------
  // What the cadence means, on the calendar itself
  // ---------------------------------------------------------------------------

  ghost predicate InMonth(i: int, day: int) {
    MonthStart(i) <= day < MonthStart(i + 1)
  }

  /** The nth day from first to last that falls on the weekday; -1 asks for the last. */
  ghost predicate IsNthBetween(first: int, last: int, nth: int, weekday: int, day: int) {
    && first <= day <= last && WeekdayFromDays(day) == weekday
    && if nth == -1 then CountWeekday(day + 1, last, weekday) == 0 else CountWeekday(first, day, weekday) == nth
  }

  /** The day month i asks for, on the month's own first day and length. */
  function FireDay(spec: Spec, i: int): Option<int>
    requires ValidSpec(spec) && !spec.Adhoc?
  {
    if spec.Monthly? && spec.onNthWeekday.Some? then
      NthIn(MonthStart(i), LengthOf(i), spec.onNthWeekday.value.nth, spec.onNthWeekday.value.weekday)
    else
      ClampedDay(MonthStart(i), LengthOf(i), if spec.onDayOfMonth.Some? then spec.onDayOfMonth.value else 1, PolicyOf(spec))
  }

  function NthIn(start: int, length: int, nth: int, weekday: int): Option<int> {
    NthBetween(start, start + length - 1, nth, weekday)
  }

  function ClampedDay(start: int, length: int, requestedDay: int, policy: MonthEndPolicy): Option<int> {
    if requestedDay <= length then Some(start + requestedDay - 1)
    else if policy == SkipMonth then None
    else Some(start + length - 1)
  }

  lemma ProgramDay(i: int, day: int)
    requires 0 <= i
    ensures CivilToDays(YearOf(i), MonthOf(i), day) == MonthStart(i) + day - 1
  {
    CivilToDaysExact(YearOf(i), MonthOf(i), day);
    assert 12 * YearOf(i) + MonthOf(i) - 1 == i;
  }

  lemma ProgramLength(i: int)
    requires 0 <= i
    ensures DaysInMonth(YearOf(i), MonthOf(i)) == LengthOf(i)
  {
    DaysInMonthExact(YearOf(i), MonthOf(i));
  }

  /** What the program's day functions come to on a month whose first day and length it gets right. */
  lemma ClampFrom(year: int, month: int, requestedDay: int, policy: MonthEndPolicy, start: int, length: int)
    requires CivilToDays(year, month, 1) == start && DaysInMonth(year, month) == length
    ensures ClampDayOfMonth(year, month, requestedDay, policy) == ClampedDay(start, length, requestedDay, policy)
  {
  }

  lemma NthFrom(year: int, month: int, nth: int, weekday: int, start: int, length: int)
    requires CivilToDays(year, month, 1) == start && DaysInMonth(year, month) == length
    ensures NthWeekdayOfMonth(year, month, nth, weekday) == NthIn(start, length, nth, weekday)
  {
    assert CivilToDays(year, month, length) == start + length - 1;
  }

  lemma ProgramMonth(i: int)
    requires 0 <= i
    ensures CivilToDays(YearOf(i), MonthOf(i), 1) == MonthStart(i) && DaysInMonth(YearOf(i), MonthOf(i)) == LengthOf(i)
  {
    ProgramDay(i, 1);
    ProgramLength(i);
  }

  lemma ClampExact(i: int, requestedDay: int, policy: MonthEndPolicy)
    requires 0 <= i
    ensures ClampDayOfMonth(YearOf(i), MonthOf(i), requestedDay, policy)
            == ClampedDay(MonthStart(i), LengthOf(i), requestedDay, policy)
  {
    ProgramMonth(i);
    ClampFrom(YearOf(i), MonthOf(i), requestedDay, policy, MonthStart(i), LengthOf(i));
  }

  lemma NthExact(i: int, nth: int, weekday: int)
    requires 0 <= i
    ensures NthWeekdayOfMonth(YearOf(i), MonthOf(i), nth, weekday)
            == NthIn(MonthStart(i), LengthOf(i), nth, weekday)
  {
    ProgramMonth(i);
    NthFrom(YearOf(i), MonthOf(i), nth, weekday, MonthStart(i), LengthOf(i));
  }

  /** On every month from year 0 on, the program asks for the day the calendar has there. */
  lemma DayWithinMonthExact(spec: Spec, i: int, anchor: int)
    requires ValidSpec(spec) && !spec.Adhoc? && 0 <= i
    ensures DayWithinMonth(spec, i / 12, JsRem(i, 12) + 1, i, anchor)
            == if Participates(spec, i, anchor) then FireDay(spec, i) else None
  {
    assert i / 12 == YearOf(i) && JsRem(i, 12) + 1 == MonthOf(i);
    if spec.Monthly? && spec.onNthWeekday.Some? {
      NthExact(i, spec.onNthWeekday.value.nth, spec.onNthWeekday.value.weekday);
    } else {
      ClampExact(i, if spec.onDayOfMonth.Some? then spec.onDayOfMonth.value else 1, PolicyOf(spec));
    }
  }

  // ---------------------------------------------------------------------------
  // The day of a month
  // ---------------------------------------------------------------------------

  lemma OffsetToWeekday(first: int, weekday: int)
    requires 0 <= weekday <= 6
    ensures var offset := JsRem(weekday - WeekdayFromDays(first) + 7, 7);
            0 <= offset <= 6 && WeekdayFromDays(first + offset) == weekday
  {
    var offset := JsRem(weekday - WeekdayFromDays(first) + 7, 7);
    WeekdaysGoRound(first);
    assert offset == if weekday < WeekdayFromDays(first) then weekday - WeekdayFromDays(first) + 7
                     else weekday - WeekdayFromDays(first);
    WeekdayMoves(first, offset);
  }

  lemma OffsetBackToWeekday(last: int, weekday: int)
    requires 0 <= weekday <= 6
    ensures var offset := JsRem(WeekdayFromDays(last) - weekday + 7, 7);
            0 <= offset <= 6 && WeekdayFromDays(last - offset) == weekday
  {
    var offset := JsRem(WeekdayFromDays(last) - weekday + 7, 7);
    WeekdaysGoRound(last);
    assert offset == if WeekdayFromDays(last) < weekday then WeekdayFromDays(last) - weekday + 7
                     else WeekdayFromDays(last) - weekday;
    WeekdayMoves(last, -offset);
  }

  lemma {:induction false} NoneWithinWeek(day: int, last: int, weekday: int)
    requires day <= last <= day + 6 && WeekdayFromDays(day) == weekday
    ensures CountWeekday(day + 1, last, weekday) == 0
    decreases last - day
  {
    if day < last {
      NoneWithinWeek(day, last - 1, weekday);
      WeekdaysDiffer(day, last);
    }
  }

  lemma CountGrows(first: int, last: int, later: int, weekday: int)
    requires first <= last + 1 && last <= later
    ensures CountWeekday(first, last, weekday) <= CountWeekday(first, later, weekday)
  {
    CountWeekdaySplits(first, last, later, weekday);
  }

  /** nthWeekdayOfMonth: exactly the nth such weekday between the two days, the last one for -1,
      and nothing exactly when there are fewer than nth. */
  lemma NthBetweenExact(first: int, last: int, nth: int, weekday: int)
    requires first + 27 <= last && 0 <= weekday <= 6 && (nth == -1 || 1 <= nth)
    ensures var r := NthBetween(first, last, nth, weekday);
            && (r.Some? ==> first <= r.value <= last && WeekdayFromDays(r.value) == weekday)
            && (nth == -1 ==> r.Some? && CountWeekday(r.value + 1, last, weekday) == 0)
            && (nth != -1 && r.Some? ==> CountWeekday(first, r.value, weekday) == nth)
            && (r.None? <==> nth != -1 && CountWeekday(first, last, weekday) < nth)
  {
    if nth == -1 {
      OffsetBackToWeekday(last, weekday);
      NoneWithinWeek(NthBetween(first, last, nth, weekday).value, last, weekday);
    } else {
      OffsetToWeekday(first, weekday);
      var offset := JsRem(weekday - WeekdayFromDays(first) + 7, 7);
      NthByWeeks(first, offset, nth, weekday);
      var candidate := first + offset + (nth - 1) * 7;
      if candidate > last {
        CountGrows(first, last, candidate - 1, weekday);
      } else {
        CountGrows(first, candidate, last, weekday);
      }
    }
  }

  /** Of two days that are both the nth such weekday, neither is earlier. */
  lemma NthWeekdayUnique(first: int, last: int, nth: int, weekday: int, d: int, e: int)
    requires IsNthBetween(first, last, nth, weekday, d) && IsNthBetween(first, last, nth, weekday, e)
    ensures e <= d
  {
    if d < e && nth == -1 {
      CountWeekdaySplits(d + 1, e, last, weekday);
    } else if d < e {
      CountGrows(first, d, e - 1, weekday);
    }
  }

  /** The program's formula finds the nth such weekday of a month exactly when there is one. */
  lemma NthInMeans(i: int, nth: int, weekday: int, d: int)
    requires (nth == -1 || 1 <= nth) && 0 <= weekday <= 6
    ensures NthIn(MonthStart(i), LengthOf(i), nth, weekday) == Some(d)
            <==> IsNthBetween(MonthStart(i), MonthStart(i + 1) - 1, nth, weekday, d)
  {
    var first, last := MonthStart(i), MonthStart(i + 1) - 1;
    NextMonthStart(i);
    NthBetweenExact(first, last, nth, weekday);
    FoundIsTheOne(first, last, nth, weekday, NthBetween(first, last, nth, weekday), d);
  }

  lemma FoundIsTheOne(first: int, last: int, nth: int, weekday: int, found: Option<int>, d: int)
    requires found.Some? ==> IsNthBetween(first, last, nth, weekday, found.value)
    requires found.None? ==> nth != -1 && CountWeekday(first, last, weekday) < nth
    ensures found == Some(d) <==> IsNthBetween(first, last, nth, weekday, d)
  {
    if IsNthBetween(first, last, nth, weekday, d) {
      if found == None {
        CountGrows(first, d, last, weekday);
      } else {
        NthWeekdayUnique(first, last, nth, weekday, found.value, d);
        NthWeekdayUnique(first, last, nth, weekday, d, found.value);
      }
    }
  }

  /** The day a cadence asks month i for: the nth or last such weekday; or the day of that number, and when
      the month is too short its last day, unless such months are skipped. */
  ghost predicate AsksFor(spec: Spec, i: int, day: int)
    requires ValidSpec(spec) && !spec.Adhoc?
  {
    if spec.Monthly? && spec.onNthWeekday.Some? then
      IsNthBetween(MonthStart(i), MonthStart(i + 1) - 1, spec.onNthWeekday.value.nth, spec.onNthWeekday.value.weekday, day)
    else
      InMonth(i, day) &&
      var number, requested := day - MonthStart(i) + 1, spec.onDayOfMonth.value;
      number == requested
      || (PolicyOf(spec) == ClampToLastDay && number < requested && day == MonthStart(i + 1) - 1)
  }

  lemma FireDayMeans(spec: Spec, i: int, day: int)
    requires ValidSpec(spec) && !spec.Adhoc?
    ensures FireDay(spec, i) == Some(day) <==> AsksFor(spec, i, day)
  {
    NextMonthStart(i);
    if spec.Monthly? && spec.onNthWeekday.Some? {
      NthInMeans(i, spec.onNthWeekday.value.nth, spec.onNthWeekday.value.weekday, day);
    }
  }

  lemma FireDayInMonth(spec: Spec, i: int)
    requires ValidSpec(spec) && !spec.Adhoc? && FireDay(spec, i).Some?
    ensures InMonth(i, FireDay(spec, i).value)
  {
    NextMonthStart(i);
    if spec.Monthly? && spec.onNthWeekday.Some? {
      var nth := spec.onNthWeekday.value;
      NthBetweenExact(MonthStart(i), MonthStart(i) + LengthOf(i) - 1, nth.nth, nth.weekday);
    }
  }

  /** The same weekday asked for in two successive months comes at least four weeks apart. */
  lemma NthGap(start: int, length: int, nextLength: int, nth: int, weekday: int)
    requires 28 <= length <= 31 && 28 <= nextLength <= 31 && 0 <= weekday <= 6 && (nth == -1 || 1 <= nth)
    requires NthBetween(start, start + length - 1, nth, weekday).Some?
    requires NthBetween(start + length, start + length + nextLength - 1, nth, weekday).Some?
    ensures 28 <= NthBetween(start + length, start + length + nextLength - 1, nth, weekday).value
                  - NthBetween(start, start + length - 1, nth, weekday).value
  {
    var d := NthBetween(start, start + length - 1, nth, weekday).value;
    var e := NthBetween(start + length, start + length + nextLength - 1, nth, weekday).value;
    assert WeekdayFromDays(d) == weekday == WeekdayFromDays(e) && 22 <= e - d by {
      NthBetweenExact(start, start + length - 1, nth, weekday);
      NthBetweenExact(start + length, start + length + nextLength - 1, nth, weekday);
      OffsetToWeekday(start, weekday);
      OffsetToWeekday(start + length, weekday);
      OffsetBackToWeekday(start + length - 1, weekday);
      OffsetBackToWeekday(start + length + nextLength - 1, weekday);
    }
    if e - d < 28 { WeekdaysDiffer(d + 21, e); WeekLater(d); WeekLater(d + 7); WeekLater(d + 14); }
  }

  /** Any two months that fire do so at least 28 days apart. */
  lemma FireDaysApart(spec: Spec, i: int, j: int)
    requires ValidSpec(spec) && !spec.Adhoc? && i < j
    requires FireDay(spec, i).Some? && FireDay(spec, j).Some?
    ensures 28 <= FireDay(spec, j).value - FireDay(spec, i).value
  {
    NextMonthStart(i);
    if i + 1 < j {
      FireDayInMonth(spec, i);
      FireDayInMonth(spec, j);
      MonthStartsRise(i + 2, j);
      NextMonthStart(i + 1);
    } else if spec.Monthly? && spec.onNthWeekday.Some? {
      var nth := spec.onNthWeekday.value;
      NthGap(MonthStart(i), LengthOf(i), LengthOf(j), nth.nth, nth.weekday);
    }
  }

  // ---------------------------------------------------------------------------
  // The instants a cadence denotes
  // ---------------------------------------------------------------------------

  /** Months from February of year 100 on; windows that start in April of that year or later
      scan no month before it. */
  const FIRST_MONTH := 1201
  const EARLIEST_WINDOW := (YEAR_100_DAY + 60) * DAY

  function Naive(day: int, time: TimeOfDay): int {
    Reading(day, time.hour, time.minute, time.second)
  }

  /** Month i denotes instant t. */
  ghost predicate FiresIn(z: Zone, spec: Spec, anchorMonth: int, i: int, t: int)
    requires ValidSpec(spec) && !spec.Adhoc?
  {
    && Participates(spec, i, anchorMonth)
    && FireDay(spec, i).Some?
    && t == Resolve(z, Naive(FireDay(spec, i).value, spec.atTime))
  }

  /** The cadence denotes instant t, whatever the window. */
  ghost predicate Fires(z: Zone, spec: Spec, anchorMonth: int, t: int)
    requires ValidSpec(spec)
  {
    if spec.Adhoc? then t == spec.runAt
    else exists i | FIRST_MONTH <= i :: FiresIn(z, spec, anchorMonth, i, t)
  }

  lemma MonthExists(day: int)
    requires YEAR_100_DAY <= day
    ensures exists i :: InMonth(i, day)
  {
    DaysToCivilExact(day);
    var c := DaysToCivil(day);
    MonthOfDate(c, day);
    assert InMonth(12 * c.year + c.month - 1, day);
  }

  lemma MonthOfDate(c: Civil, day: int)
    requires IsDate(c) && DayNumber(c.year, c.month, c.day) == day
    ensures InMonth(12 * c.year + c.month - 1, day)
  {
    MonthIndexSplits(c.year, c.month);
    NextMonthStart(12 * c.year + c.month - 1);
  }

  /** The month the wall clock shows at t. */
  ghost function MonthIndex(z: Zone, t: int): (i: int)
    requires Bounded(z) && EARLIEST <= t
    ensures InMonth(i, LocalDay(z, t))
  {
    LocalDayNear(z, t);
    MonthExists(LocalDay(z, t));
    var i :| InMonth(i, LocalDay(z, t));
    i
  }

  lemma LocalDayNear(z: Zone, t: int)
    requires Bounded(z)
    ensures t - 2 * DAY < LocalDay(z, t) * DAY < t + DAY
    ensures EARLIEST <= t ==> YEAR_100_DAY <= LocalDay(z, t)
  {
    assert -DAY < z(t) < DAY;
  }

  lemma NaiveWithinDay(day: int, time: TimeOfDay)
    requires ValidTime(time)
    ensures day * DAY <= Naive(day, time) < (day + 1) * DAY
  {
  }

  /** An instant of month i lies within a day of the calendar day it was asked for. */
  lemma FiresNearDay(z: Zone, spec: Spec, a: int, i: int, t: int)
    requires Bounded(z) && ValidSpec(spec) && !spec.Adhoc? && FiresIn(z, spec, a, i, t)
    ensures var d := FireDay(spec, i).value;
            InMonth(i, d) && (d - 1) * DAY < t < (d + 2) * DAY
  {
    var d := FireDay(spec, i).value;
    FireDayInMonth(spec, i);
    NaiveWithinDay(d, spec.atTime);
    ResolveNear(z, Naive(d, spec.atTime));
  }

  lemma LaterMonthsFireLater(z: Zone, spec: Spec, a: int, i: int, j: int, t: int, u: int)
    requires Bounded(z) && ValidSpec(spec) && !spec.Adhoc? && i < j
    requires FiresIn(z, spec, a, i, t) && FiresIn(z, spec, a, j, u)
    ensures t < u
  {
    FireDaysApart(spec, i, j);
    FiresNearDay(z, spec, a, i, t);
    FiresNearDay(z, spec, a, j, u);
  }

  /** One month of margin on either side of the window misses nothing. */
  lemma MarginSuffices(z: Zone, spec: Spec, a: int, i: int, t: int, from: int, to: int)
    requires Bounded(z) && ValidSpec(spec) && !spec.Adhoc? && FiresIn(z, spec, a, i, t)
    requires EARLIEST <= from <= t < to
    ensures MonthIndex(z, from) - 1 <= i <= MonthIndex(z, to) + 1
  {
    FiresNearDay(z, spec, a, i, t);
    LocalDayNear(z, from);
    LocalDayNear(z, to);
    MonthsNearby(i, FireDay(spec, i).value, MonthIndex(z, from), LocalDay(z, from), MonthIndex(z, to), LocalDay(z, to));
  }

  /** A day less than three days outside a stretch of days lies at most a month outside its months. */
  lemma MonthsNearby(i: int, day: int, first: int, firstDay: int, last: int, lastDay: int)
    requires InMonth(i, day) && InMonth(first, firstDay) && InMonth(last, lastDay)
    requires firstDay <= day + 2 && day - 2 <= lastDay
    ensures first - 1 <= i <= last + 1
  {
    if i < first - 1 { MonthStartsRise(i + 1, first - 1); MonthStartsRise(first - 1, first); }
    if last + 1 < i { MonthStartsRise(last + 2, i); MonthStartsRise(last + 1, last + 2); }
  }

  // ---------------------------------------------------------------------------
  // The scan
  // ---------------------------------------------------------------------------

  ghost predicate Increasing(s: seq<int>) {
    forall i, j | 0 <= i < j < |s| :: s[i] < s[j]
  }

  /** The instant month i contributes, if any. */
  function InstantsOf(z: Zone, spec: Spec, anchorMonth: int, i: int): (r: seq<int>)
    requires ValidSpec(spec) && !spec.Adhoc?
    ensures |r| <= 1
  {
    if Participates(spec, i, anchorMonth) && FireDay(spec, i).Some?
    then [Resolve(z, Naive(FireDay(spec, i).value, spec.atTime))] else []
  }

  lemma InstantsOfExact(z: Zone, spec: Spec, a: int, i: int, t: int)
    requires ValidSpec(spec) && !spec.Adhoc?
    ensures t in InstantsOf(z, spec, a, i) <==> FiresIn(z, spec, a, i, t)
  {
  }

  /** The instants of the months from first to last. */
  function Scan(z: Zone, spec: Spec, anchorMonth: int, first: int, last: int): seq<int>
    requires ValidSpec(spec) && !spec.Adhoc?
    decreases last - first
  {
    if last < first then []
    else
      Scan(z, spec, anchorMonth, first, last - 1) + InstantsOf(z, spec, anchorMonth, last)
  }

  lemma IncreasingAppend(s: seq<int>, x: int)
    requires Increasing(s) && forall t | t in s :: t < x
    ensures Increasing(s + [x])
  {
    forall i | 0 <= i < |s| ensures s[i] < x {
      assert s[i] in s;
    }
  }

  lemma {:induction false} ScanHas(z: Zone, spec: Spec, a: int, first: int, last: int, i: int, t: int)
    requires ValidSpec(spec) && !spec.Adhoc? && first <= i <= last && t in InstantsOf(z, spec, a, i)
    ensures t in Scan(z, spec, a, first, last)
    decreases last - first
  {
    if i < last { ScanHas(z, spec, a, first, last - 1, i, t); }
  }

  lemma {:induction false} ScanComesFrom(z: Zone, spec: Spec, a: int, first: int, last: int, t: int) returns (i: int)
    requires ValidSpec(spec) && !spec.Adhoc? && t in Scan(z, spec, a, first, last)
    ensures first <= i <= last && t in InstantsOf(z, spec, a, i)
    decreases last - first
  {
    if t in Scan(z, spec, a, first, last - 1) {
      i := ScanComesFrom(z, spec, a, first, last - 1, t);
    } else {
      i := last;
    }
  }

  lemma {:induction false} ScanIncreasing(z: Zone, spec: Spec, a: int, first: int, last: int)
    requires Bounded(z) && ValidSpec(spec) && !spec.Adhoc?
    ensures Increasing(Scan(z, spec, a, first, last))
    decreases last - first
  {
    if first <= last {
      var before := Scan(z, spec, a, first, last - 1);
      ScanIncreasing(z, spec, a, first, last - 1);
      if InstantsOf(z, spec, a, last) != [] {
        var u := InstantsOf(z, spec, a, last)[0];
        InstantsOfExact(z, spec, a, last, u);
        forall t | t in before ensures t < u {
          var i := ScanComesFrom(z, spec, a, first, last - 1, t);
          InstantsOfExact(z, spec, a, i, t);
          LaterMonthsFireLater(z, spec, a, i, last, t, u);
        }
        IncreasingAppend(before, u);
        assert InstantsOf(z, spec, a, last) == [u];
      } else {
        assert Scan(z, spec, a, first, last) == before;
      }
    }
  }

  function Within(s: seq<int>, from: int, to: int): (r: seq<int>)
    ensures forall t :: t in r <==> t in s && from <= t < to
  {
    if s == [] then []
    else Within(s[..|s| - 1], from, to) + if from <= s[|s| - 1] < to then [s[|s| - 1]] else []
  }

  lemma {:induction false} WithinIncreasing(s: seq<int>, from: int, to: int)
    requires Increasing(s)
    ensures Increasing(Within(s, from, to))
  {
    if s != [] {
      var before := s[..|s| - 1];
      WithinIncreasing(before, from, to);
      forall t | t in before ensures t < s[|s| - 1] {
        var k :| 0 <= k < |before| && before[k] == t;
      }
      if from <= s[|s| - 1] < to { IncreasingAppend(Within(before, from, to), s[|s| - 1]); }
    }
  }

  /** Array.prototype.sort with a numeric comparison. */
  function Insert(x: int, s: seq<int>): seq<int> {
    if s == [] || x <= s[0] then [x] + s else [s[0]] + Insert(x, s[1..])
  }

  function SortAscending(s: seq<int>): seq<int> {
    if s == [] then [] else Insert(s[0], SortAscending(s[1..]))
  }

  lemma {:induction false} SortedAlready(s: seq<int>)
    requires Increasing(s)
    ensures SortAscending(s) == s
  {
    if s != [] {
      SortedAlready(s[1..]);
    }
  }

  /** Array.prototype.slice(0, end): a negative end counts from the back. */
  function JsSlice(s: seq<int>, end: int): seq<int> {
    if 0 <= end <= |s| then s[..end]
    else if |s| < end then s
    else if 0 <= |s| + end then s[..|s| + end]
    else []
  }

  /** The instants of the cadence in [from, to), in order. */
  ghost predicate Exactly(z: Zone, spec: Spec, anchorMonth: int, from: int, to: int, all: seq<int>)
    requires ValidSpec(spec)
  {
    Increasing(all) && forall t :: t in all <==> from <= t < to && Fires(z, spec, anchorMonth, t)
  }

  lemma {:induction false} ExactlyUnique(p: seq<int>, q: seq<int>)
    requires Increasing(p) && Increasing(q) && forall t :: t in p <==> t in q
    ensures p == q
  {
    assert p == [] <==> q == [] by {
      if p != [] { assert p[0] in p; }
      if q != [] { assert q[0] in q; }
    }
    if p != [] {
      assert p[|p| - 1] in p && q[|q| - 1] in q;
      assert p[|p| - 1] in q;
      assert q[|q| - 1] in p;
      var p', q' := p[..|p| - 1], q[..|q| - 1];
      assert p == p' + [p[|p| - 1]] && q == q' + [q[|q| - 1]];
      assert p[|p| - 1] == q[|q| - 1];
      forall t ensures t in p' <==> t in q' {
        assert t in p' ==> t in p;
        assert t in q' ==> t in q;
      }
      ExactlyUnique(p', q');
    }
  }

  /** What the scan, filter and sort leave is exactly the cadence's instants in the window. */
  lemma WindowComplete(z: Zone, spec: Spec, a: int, from: int, to: int)
    requires Bounded(z) && ValidSpec(spec) && !spec.Adhoc? && EARLIEST_WINDOW <= from < to
    ensures var all := Within(Scan(z, spec, a, MonthIndex(z, from) - 1, MonthIndex(z, to) + 1), from, to);
            Exactly(z, spec, a, from, to, all) && SortAscending(all) == all
  {
    var first, last := MonthIndex(z, from) - 1, MonthIndex(z, to) + 1;
    var scan := Scan(z, spec, a, first, last);
    var all := Within(scan, from, to);
    ScanIncreasing(z, spec, a, first, last);
    WithinIncreasing(scan, from, to);
    SortedAlready(all);
    WindowStartsLate(z, from);
    forall t ensures t in all <==> from <= t < to && Fires(z, spec, a, t) {
      if t in all {
        var i := ScanComesFrom(z, spec, a, first, last, t);
        InstantsOfExact(z, spec, a, i, t);
      }
      if from <= t < to && Fires(z, spec, a, t) {
        var i :| FIRST_MONTH <= i && FiresIn(z, spec, a, i, t);
        MarginSuffices(z, spec, a, i, t, from, to);
        InstantsOfExact(z, spec, a, i, t);
        ScanHas(z, spec, a, first, last, i, t);
      }
    }
  }

  lemma WindowStartsLate(z: Zone, from: int)
    requires Bounded(z) && EARLIEST_WINDOW <= from
    ensures FIRST_MONTH <= MonthIndex(z, from) - 1
  {
    LocalDayNear(z, from);
    Year100();
    NextMonthStart(1200);
    NextMonthStart(1201);
    var f := MonthIndex(z, from);
    if f < 1202 { MonthStartsRise(f + 1, 1202); }
  }

  // ---------------------------------------------------------------------------
  // The engine
  // ---------------------------------------------------------------------------

  /** The instants of the cadence in [from, to), from the scan with its margin. */
  ghost function AllBetween(z: Zone, spec: Spec, anchorMonth: int, from: int, to: int): seq<int>
    requires Bounded(z) && ValidSpec(spec) && EARLIEST_WINDOW <= from < to
  {
    if spec.Adhoc? then Within([spec.runAt], from, to)
    else Within(Scan(z, spec, anchorMonth, MonthIndex(z, from) - 1, MonthIndex(z, to) + 1), from, to)
  }

  lemma AllBetweenExactly(z: Zone, spec: Spec, a: int, from: int, to: int)
    requires Bounded(z) && ValidSpec(spec) && EARLIEST_WINDOW <= from < to
    ensures Exactly(z, spec, a, from, to, AllBetween(z, spec, a, from, to))
    ensures SortAscending(AllBetween(z, spec, a, from, to)) == AllBetween(z, spec, a, from, to)
  {
    if spec.Adhoc? {
      WithinIncreasing([spec.runAt], from, to);
      SortedAlready(Within([spec.runAt], from, to));
    } else {
      WindowComplete(z, spec, a, from, to);
    }
  }

  ghost predicate TooLarge(z: Zone, spec: Spec, from: int, to: int)
    requires Bounded(z) && EARLIEST_WINDOW <= from < to
  {
    !spec.Adhoc? && MonthIndex(z, to) - MonthIndex(z, from) + 2 > 400
  }

  method MonthIndexAt(z: Zone, t: int) returns (i: int)
    requires Bounded(z) && EARLIEST <= t
    ensures i == MonthIndex(z, t)
  {
    LocalDayNear(z, t);
    var p := ToZonedParts(z, t);
    i := p.year * 12 + (p.month - 1);
    MonthOfDate(Civil(p.year, p.month, p.day), LocalDay(z, t));
    MonthOfDayUnique(i, MonthIndex(z, t), LocalDay(z, t));
  }

  method InstantFor(z: Zone, day: int, time: TimeOfDay) returns (t: int)
    requires Bounded(z) && ValidTime(time) && YEAR_100_DAY + 3 <= day
    ensures t == Resolve(z, Naive(day, time))
  {
    var c := DaysToCivil(day);
    FromYear100On(day, c);
    t := FromZonedParts(z, ZonedParts(c.year, c.month, c.day, time.hour, time.minute, time.second));
  }

  /** The body of the month loop: at most one instant. */
  method ScanMonth(z: Zone, spec: Spec, anchorMonthIndex: int, monthIndex: int) returns (instants: seq<int>)
    requires Bounded(z) && ValidSpec(spec) && !spec.Adhoc? && FIRST_MONTH <= monthIndex
    ensures instants == InstantsOf(z, spec, anchorMonthIndex, monthIndex)
  {
    var year, month := monthIndex / 12, JsRem(monthIndex, 12) + 1;
    var candidateDays := DayWithinMonth(spec, year, month, monthIndex, anchorMonthIndex);
    DayWithinMonthExact(spec, monthIndex, anchorMonthIndex);
    if candidateDays.None? {
      return [];
    }
    ScannedDayIsLate(spec, monthIndex);
    var t := InstantFor(z, candidateDays.value, spec.atTime);
    return [t];
  }

  /** The outcome of a scan of the months from first to last: refused when there are too many of them. */
  ghost predicate ScansTo(z: Zone, spec: Spec, a: int, first: int, last: int, r: Outcome)
    requires ValidSpec(spec) && !spec.Adhoc?
  {
    if last - first > MAX_SCANNED_MONTHS then r == WindowTooLarge(last - first)
    else r.Occurrences? && ScannedTo(z, spec, a, first, last + 1, r.instants)
  }

  method GenerateMonthBased(z: Zone, spec: Spec, anchorAt: int, from: int, to: int) returns (r: Outcome)
    requires Bounded(z) && ValidSpec(spec) && !spec.Adhoc?
    requires EARLIEST <= anchorAt && EARLIEST_WINDOW <= from < to
    ensures ScansTo(z, spec, MonthIndex(z, anchorAt), MonthIndex(z, from) - 1, MonthIndex(z, to) + 1, r)
  {
    var anchorMonthIndex := MonthIndexAt(z, anchorAt);
    var firstMonthIndex := MonthIndexAt(z, from);
    firstMonthIndex := firstMonthIndex - 1;
    var lastMonthIndex := MonthIndexAt(z, to);
    lastMonthIndex := lastMonthIndex + 1;
    if lastMonthIndex - firstMonthIndex > MAX_SCANNED_MONTHS {
      return WindowTooLarge(lastMonthIndex - firstMonthIndex);
    }
    WindowMonths(z, from, to);
    var occurrences := ScanMonths(z, spec, anchorMonthIndex, firstMonthIndex, lastMonthIndex);
    r := Occurrences(occurrences);
  }

  lemma WindowMonths(z: Zone, from: int, to: int)
    requires Bounded(z) && EARLIEST_WINDOW <= from < to
    ensures FIRST_MONTH <= MonthIndex(z, from) - 1 <= MonthIndex(z, to) + 2
  {
    WindowStartsLate(z, from);
    WindowForward(z, from, to);
  }

  /** The instants of the months from first up to, not including, end. */
  ghost predicate ScannedTo(z: Zone, spec: Spec, a: int, first: int, end: int, instants: seq<int>)
    requires ValidSpec(spec) && !spec.Adhoc?
  {
    forall last | last == end - 1 :: instants == Scan(z, spec, a, first, last)
  }

  lemma ScannedAll(z: Zone, spec: Spec, a: int, first: int, last: int, instants: seq<int>)
    requires ValidSpec(spec) && !spec.Adhoc? && ScannedTo(z, spec, a, first, last + 1, instants)
    ensures instants == Scan(z, spec, a, first, last)
  {
  }

  lemma NothingScanned(z: Zone, spec: Spec, a: int, first: int)
    requires ValidSpec(spec) && !spec.Adhoc?
    ensures ScannedTo(z, spec, a, first, first, [])
  {
  }

  method ScanOnto(z: Zone, spec: Spec, anchorMonthIndex: int, firstMonthIndex: int, monthIndex: int, occurrences: seq<int>)
    returns (more: seq<int>)
    requires Bounded(z) && ValidSpec(spec) && !spec.Adhoc? && FIRST_MONTH <= firstMonthIndex <= monthIndex
    requires ScannedTo(z, spec, anchorMonthIndex, firstMonthIndex, monthIndex, occurrences)
    ensures ScannedTo(z, spec, anchorMonthIndex, firstMonthIndex, monthIndex + 1, more)
  {
    var instants := ScanMonth(z, spec, anchorMonthIndex, monthIndex);
    assert occurrences == Scan(z, spec, anchorMonthIndex, firstMonthIndex, monthIndex - 1);
    more := occurrences + instants;
  }

  method ScanMonths(z: Zone, spec: Spec, anchorMonthIndex: int, firstMonthIndex: int, lastMonthIndex: int)
    returns (occurrences: seq<int>)
    requires Bounded(z) && ValidSpec(spec) && !spec.Adhoc?
    requires FIRST_MONTH <= firstMonthIndex <= lastMonthIndex + 1
    ensures ScannedTo(z, spec, anchorMonthIndex, firstMonthIndex, lastMonthIndex + 1, occurrences)
  {
    NothingScanned(z, spec, anchorMonthIndex, firstMonthIndex);
    occurrences := [];
    var monthIndex := firstMonthIndex;
    while monthIndex <= lastMonthIndex
      invariant firstMonthIndex <= monthIndex <= lastMonthIndex + 1
      invariant ScannedTo(z, spec, anchorMonthIndex, firstMonthIndex, monthIndex, occurrences)
    {
      occurrences := ScanOnto(z, spec, anchorMonthIndex, firstMonthIndex, monthIndex, occurrences);
      monthIndex := monthIndex + 1;
    }
  }

  lemma ScannedDayIsLate(spec: Spec, i: int)
    requires ValidSpec(spec) && !spec.Adhoc? && FIRST_MONTH <= i && FireDay(spec, i).Some?
    ensures YEAR_100_DAY + 3 <= FireDay(spec, i).value
  {
    FireDayInMonth(spec, i);
    Year100();
    MonthStartsRise(1200, i);
  }

  lemma WindowForward(z: Zone, from: int, to: int)
    requires Bounded(z) && EARLIEST <= from < to
    ensures MonthIndex(z, from) - 1 <= MonthIndex(z, to)
  {
    LocalDayNear(z, from);
    LocalDayNear(z, to);
    var f, l := MonthIndex(z, from), MonthIndex(z, to);
    assert LocalDay(z, from) - 3 <= LocalDay(z, to);
    if l < f - 1 { MonthStartsRise(l + 1, f - 1); MonthStartsRise(f - 1, f); }
  }

  /** Cut to the window and sorted, what was generated is the whole answer. */
  lemma SortedWindow(z: Zone, spec: Spec, a: int, from: int, to: int, r: Outcome)
    requires Bounded(z) && ValidSpec(spec) && EARLIEST_WINDOW <= from < to
    requires spec.Adhoc? ==> r == Occurrences([spec.runAt])
    requires !spec.Adhoc? ==> ScansTo(z, spec, a, MonthIndex(z, from) - 1, MonthIndex(z, to) + 1, r)
    ensures r.WindowTooLarge? <==> TooLarge(z, spec, from, to)
    ensures r.WindowTooLarge? ==> r.months == MonthIndex(z, to) - MonthIndex(z, from) + 2
    ensures r.Occurrences? ==> SortAscending(Within(r.instants, from, to)) == AllBetween(z, spec, a, from, to)
  {
    AllBetweenSorted(z, spec, a, from, to);
    if !spec.Adhoc? {
      ScanIsAll(z, spec, a, from, to, r);
    }
  }

  lemma AllBetweenSorted(z: Zone, spec: Spec, a: int, from: int, to: int)
    requires Bounded(z) && ValidSpec(spec) && EARLIEST_WINDOW <= from < to
    ensures SortAscending(AllBetween(z, spec, a, from, to)) == AllBetween(z, spec, a, from, to)
  {
    AllBetweenExactly(z, spec, a, from, to);
  }

  lemma ScanIsAll(z: Zone, spec: Spec, a: int, from: int, to: int, r: Outcome)
    requires Bounded(z) && ValidSpec(spec) && !spec.Adhoc? && EARLIEST_WINDOW <= from < to
    requires ScansTo(z, spec, a, MonthIndex(z, from) - 1, MonthIndex(z, to) + 1, r)
    ensures r.WindowTooLarge? <==> TooLarge(z, spec, from, to)
    ensures r.Occurrences? ==> Within(r.instants, from, to) == AllBetween(z, spec, a, from, to)
  {
    if r.Occurrences? {
      ScannedAll(z, spec, a, MonthIndex(z, from) - 1, MonthIndex(z, to) + 1, r.instants);
    }
  }

  /** The first n instants, in order, at which the cadence fires in the window, or all when there are no more. */
  ghost predicate FirstFiring(z: Zone, spec: Spec, a: int, from: int, to: int, n: int, instants: seq<int>)
    requires ValidSpec(spec)
  {
    && Increasing(instants) && |instants| <= n
    && (forall t | t in instants :: from <= t < to && Fires(z, spec, a, t))
    && (forall t | from <= t < to && Fires(z, spec, a, t) && t !in instants ::
          |instants| == n && forall u | u in instants :: u < t)
  }

  /** Some list of all the instants of the window, in order, without its last n. */
  ghost predicate AllButLast(z: Zone, spec: Spec, a: int, from: int, to: int, n: nat, instants: seq<int>)
    requires ValidSpec(spec)
  {
    exists all | Exactly(z, spec, a, from, to, all) :: instants == all[..if n <= |all| then |all| - n else 0]
  }

  lemma SliceIsFirst(z: Zone, spec: Spec, a: int, from: int, to: int, n: int, instants: seq<int>)
    requires Bounded(z) && ValidSpec(spec) && EARLIEST_WINDOW <= from < to
    requires instants == JsSlice(AllBetween(z, spec, a, from, to), n)
    ensures 0 <= n ==> FirstFiring(z, spec, a, from, to, n, instants)
    ensures n < 0 ==> AllButLast(z, spec, a, from, to, -n, instants)
  {
    var all := AllBetween(z, spec, a, from, to);
    AllBetweenExactly(z, spec, a, from, to);
    FirstOfExactly(z, spec, a, from, to, n, all);
  }

  lemma FirstOfExactly(z: Zone, spec: Spec, a: int, from: int, to: int, n: int, all: seq<int>)
    requires ValidSpec(spec) && Exactly(z, spec, a, from, to, all)
    ensures 0 <= n ==> FirstFiring(z, spec, a, from, to, n, JsSlice(all, n))
    ensures n < 0 ==> AllButLast(z, spec, a, from, to, -n, JsSlice(all, n))
  {
    var instants := JsSlice(all, n);
    if 0 <= n {
      forall t | t in instants ensures t in all {
      }
      forall t | from <= t < to && Fires(z, spec, a, t) && t !in instants
        ensures |instants| == n && forall u | u in instants :: u < t
      {
        var k :| 0 <= k < |all| && all[k] == t;
        assert forall j | 0 <= j < |instants| :: instants[j] == all[j] && instants[j] in instants;
      }
    } else {
      assert instants == all[..if -n <= |all| then |all| + n else 0];
    }
  }

  method OccurrencesBetween(z: Zone, spec: Spec, anchorAt: int, from: int, to: int, maxOccurrences: int)
    returns (r: Outcome)
    requires Bounded(z) && ValidSpec(spec)
    requires EARLIEST <= anchorAt && EARLIEST_WINDOW <= from
    ensures to <= from ==> r == Occurrences([])
    ensures from < to ==> (r.WindowTooLarge? <==> TooLarge(z, spec, from, to))
    ensures from < to && !TooLarge(z, spec, from, to) ==>
              r.instants == JsSlice(AllBetween(z, spec, MonthIndex(z, anchorAt), from, to), maxOccurrences)
    ensures from < to && r.WindowTooLarge? ==> r.months == MonthIndex(z, to) - MonthIndex(z, from) + 2
    ensures from < to && !TooLarge(z, spec, from, to) && 0 <= maxOccurrences ==>
              FirstFiring(z, spec, MonthIndex(z, anchorAt), from, to, maxOccurrences, r.instants)
    ensures from < to && !TooLarge(z, spec, from, to) && maxOccurrences < 0 ==>
              AllButLast(z, spec, MonthIndex(z, anchorAt), from, to, -maxOccurrences, r.instants)
  {
    if to <= from {
      return Occurrences([]);
    }
    var occurrences := Occurrences([]);
    match spec {
      case Adhoc(runAt) => occurrences := Occurrences([runAt]);
      case _ => occurrences := GenerateMonthBased(z, spec, anchorAt, from, to);
    }
    SortedWindow(z, spec, MonthIndex(z, anchorAt), from, to, occurrences);
    if occurrences.WindowTooLarge? {
      return occurrences;
    }
    r := Occurrences(JsSlice(SortAscending(Within(occurrences.instants, from, to)), maxOccurrences));
    SliceIsFirst(z, spec, MonthIndex(z, anchorAt), from, to, maxOccurrences, r.instants);
  }

  ghost predicate IsNext(z: Zone, spec: Spec, anchorMonth: int, from: int, to: int, next: Option<int>)
    requires ValidSpec(spec)
  {
    match next
    case None => forall t | from <= t < to :: !Fires(z, spec, anchorMonth, t)
    case Some(u) =>
      from <= u < to && Fires(z, spec, anchorMonth, u)
      && forall t | from <= t && Fires(z, spec, anchorMonth, t) :: u <= t
  }

  lemma FirstIsNext(z: Zone, spec: Spec, a: int, from: int, to: int, all: seq<int>)
    requires ValidSpec(spec) && Exactly(z, spec, a, from, to, all)
    ensures IsNext(z, spec, a, from, to, if all == [] then None else Some(all[0]))
  {
    if all != [] {
      assert all[0] in all;
      forall t | from <= t && Fires(z, spec, a, t) ensures all[0] <= t {
        if t < to { assert t in all; }
      }
    }
  }

  lemma FirstOfWindow(z: Zone, spec: Spec, a: int, from: int, to: int, instants: seq<int>)
    requires Bounded(z) && ValidSpec(spec) && EARLIEST_WINDOW <= from < to
    requires instants == JsSlice(AllBetween(z, spec, a, from, to), 1)
    ensures IsNext(z, spec, a, from, to, if instants == [] then None else Some(instants[0]))
  {
    var all := AllBetween(z, spec, a, from, to);
    AllBetweenExactly(z, spec, a, from, to);
    FirstIsNext(z, spec, a, from, to, all);
    assert instants == if all == [] then [] else [all[0]];
  }

  method FirstBetween(z: Zone, spec: Spec, anchorAt: int, from: int, to: int) returns (next: Option<int>, refused: bool)
    requires Bounded(z) && ValidSpec(spec)
    requires EARLIEST <= anchorAt && EARLIEST_WINDOW <= from < to
    ensures refused <==> TooLarge(z, spec, from, to)
    ensures !refused ==> IsNext(z, spec, MonthIndex(z, anchorAt), from, to, next)
  {
    var r := OccurrencesBetween(z, spec, anchorAt, from, to, 1);
    if r.WindowTooLarge? {
      return None, true;
    }
    FirstOfWindow(z, spec, MonthIndex(z, anchorAt), from, to, r.instants);
    next, refused := if |r.instants| == 0 then None else Some(r.instants[0]), false;
  }

  /** The first occurrence in the horizon, if there is one and the window is not refused. */
  method NextOccurrenceAfter(z: Zone, spec: Spec, anchorAt: int, from: int, horizonDays: int)
    returns (next: Option<int>, refused: bool)
    requires Bounded(z) && ValidSpec(spec)
    requires EARLIEST <= anchorAt && EARLIEST_WINDOW <= from && 0 < horizonDays
    ensures refused <==> TooLarge(z, spec, from, from + horizonDays * DAY)
    ensures !refused ==> IsNext(z, spec, MonthIndex(z, anchorAt), from, from + horizonDays * DAY, next)
  {
    var to := from + horizonDays * 24 * 60 * 60 * 1000;
    assert to == from + horizonDays * DAY;
    next, refused := FirstBetween(z, spec, anchorAt, from, to);
  }

  // ---------------------------------------------------------------------------
  // Whole-window laws
  // ---------------------------------------------------------------------------

  /** Adjacent windows add up. */
  lemma WindowsConcatenate(z: Zone, spec: Spec, a: int, from: int, middle: int, to: int)
    requires Bounded(z) && ValidSpec(spec) && EARLIEST_WINDOW <= from < middle < to
    ensures AllBetween(z, spec, a, from, middle) + AllBetween(z, spec, a, middle, to)
            == AllBetween(z, spec, a, from, to)
  {
    var left, right, both := AllBetween(z, spec, a, from, middle), AllBetween(z, spec, a, middle, to),
                             AllBetween(z, spec, a, from, to);
    AllBetweenExactly(z, spec, a, from, middle);
    AllBetweenExactly(z, spec, a, middle, to);
    AllBetweenExactly(z, spec, a, from, to);
    IncreasingConcat(left, right, middle);
    forall t ensures t in left + right <==> t in both {
    }
    ExactlyUnique(left + right, both);
  }

  lemma IncreasingConcat(p: seq<int>, q: seq<int>, middle: int)
    requires Increasing(p) && Increasing(q)
    requires (forall t | t in p :: t < middle) && (forall t | t in q :: middle <= t)
    ensures Increasing(p + q)
  {
    forall i, j | 0 <= i < j < |p + q| ensures (p + q)[i] < (p + q)[j] {
      if i < |p| <= j { assert p[i] in p && q[j - |p|] in q; }
    }
  }

  // ---------------------------------------------------------------------------
  // Phase
  // ---------------------------------------------------------------------------

  lemma EuclidUnique(a: int, n: int, q: int, r: int)
    requires 0 < n && 0 <= r < n && a == n * q + r
    ensures a % n == r
  {
    var d := a / n - q;
    assert n * d == r - a % n;
    MultiplesFarApart(n, d);
  }

  lemma MultiplesFarApart(n: int, d: int)
    requires 0 < n
    ensures d >= 1 ==> n * d >= n
    ensures d <= -1 ==> n * d <= -n
  {
  }

  /** The doubled remainder is the remainder of the calendar sense. */
  lemma DoubledRemainder(x: int, n: int)
    requires 0 < n
    ensures JsRem(JsRem(x, n) + n, n) == x % n
  {
    var r := x % n;
    if 0 <= x {
      EuclidUnique(r + n, n, 1, r);
    } else {
      if r == 0 {
        EuclidUnique(-x, n, -(x / n), 0);
        EuclidUnique(n, n, 1, 0);
      } else {
        EuclidUnique(-x, n, -(x / n) - 1, n - r);
        EuclidUnique(r, n, 0, r);
      }
    }
  }

  function Period(spec: Spec): int
    requires !spec.Adhoc?
  {
    if spec.Quarterly? then 3 else EveryN(spec)
  }

  function Phase(spec: Spec): int
    requires !spec.Adhoc?
  {
    if spec.Quarterly? then spec.monthOffsetInQuarter else 0
  }

  lemma ParticipatesExactly(spec: Spec, i: int, a: int)
    requires ValidSpec(spec) && !spec.Adhoc?
    ensures Participates(spec, i, a) <==> (i - a) % Period(spec) == Phase(spec)
  {
    DoubledRemainder(i - a, Period(spec));
  }

  /** What a cadence denotes, in terms of the calendar alone: in every month of its period from its anchor on,
      the instant of the day it asks for. */
  lemma FiresMeans(z: Zone, spec: Spec, a: int, t: int)
    requires ValidSpec(spec) && !spec.Adhoc?
    ensures Fires(z, spec, a, t)
            <==> exists i, day :: FIRST_MONTH <= i && (i - a) % Period(spec) == Phase(spec) && AsksFor(spec, i, day)
                                  && t == Resolve(z, Naive(day, spec.atTime))
  {
    forall i, day ensures AsksFor(spec, i, day) <==> FireDay(spec, i) == Some(day) {
      FireDayMeans(spec, i, day);
    }
    forall i ensures Participates(spec, i, a) <==> (i - a) % Period(spec) == Phase(spec) {
      ParticipatesExactly(spec, i, a);
    }
    if Fires(z, spec, a, t) {
      var i :| FIRST_MONTH <= i && FiresIn(z, spec, a, i, t);
      assert AsksFor(spec, i, FireDay(spec, i).value);
    }
    if i, day :| FIRST_MONTH <= i && (i - a) % Period(spec) == Phase(spec) && AsksFor(spec, i, day)
                 && t == Resolve(z, Naive(day, spec.atTime)) {
      assert FiresIn(z, spec, a, i, t);
    }
  }

  /** A quarterly cadence is a three-monthly one whose anchor is that many months later: every scan finds the same instants. */
  lemma {:induction false} QuarterlyIsThreeMonthly(z: Zone, time: TimeOfDay, offset: int, day: Option<int>,
                                                   policy: Option<MonthEndPolicy>, a: int, first: int, last: int)
    requires ValidSpec(Quarterly(time, offset, day, policy))
    ensures Scan(z, Quarterly(time, offset, day, policy), a, first, last)
            == Scan(z, Monthly(time, day, None, Some(3), policy), a + offset, first, last)
    decreases last - first
  {
    if first <= last {
      QuarterlyIsThreeMonthly(z, time, offset, day, policy, a, first, last - 1);
      SameInstants(z, time, offset, day, policy, a, last);
    }
  }

  lemma SameInstants(z: Zone, time: TimeOfDay, offset: int, day: Option<int>,
                     policy: Option<MonthEndPolicy>, a: int, i: int)
    requires ValidSpec(Quarterly(time, offset, day, policy))
    ensures InstantsOf(z, Quarterly(time, offset, day, policy), a, i)
            == InstantsOf(z, Monthly(time, day, None, Some(3), policy), a + offset, i)
  {
    ParticipatesExactly(Quarterly(time, offset, day, policy), i, a);
    ParticipatesExactly(Monthly(time, day, None, Some(3), policy), i, a + offset);
    var k := (i - a) / 3;
    assert (i - a) % 3 == offset <==> (i - (a + offset)) % 3 == 0;
  }

  // ---------------------------------------------------------------------------
  // The default horizon
  // ---------------------------------------------------------------------------

  const DEFAULT_HORIZON_DAYS := 400

  /** No month that takes part is ever passed over: clamped days, days every month has, and
      weekdays every month has. */
  predicate NeverSkips(spec: Spec)
    requires ValidSpec(spec) && !spec.Adhoc?
  {
    if spec.Monthly? && spec.onNthWeekday.Some? then spec.onNthWeekday.value.nth != 5
    else PolicyOf(spec) == ClampToLastDay || spec.onDayOfMonth.value <= 28
  }

  lemma NeverSkipsFires(spec: Spec, i: int)
    requires ValidSpec(spec) && !spec.Adhoc? && NeverSkips(spec)
    ensures FireDay(spec, i).Some?
  {
    if spec.Monthly? && spec.onNthWeekday.Some? {
      OffsetToWeekday(MonthStart(i), spec.onNthWeekday.value.weekday);
    }
  }

  lemma YearLength(i: int)
    ensures 365 <= MonthStart(i + 12) - MonthStart(i) <= 366
  {
    MonthStartClosed(i);
    MonthStartClosed(i + 12);
    var y, m := YearOf(i), MonthOf(i);
    MonthIndexSplits(y + 1, m);
    LeapStep(ShiftedYear(y + 1, m));
  }

  /** Where in the month the cadence fires varies little from month to month. */
  lemma PositionBounds(spec: Spec, i: int) returns (low: int)
    requires ValidSpec(spec) && !spec.Adhoc? && FireDay(spec, i).Some?
    ensures low <= FireDay(spec, i).value - MonthStart(i) <= low + 9
    ensures low == if spec.Monthly? && spec.onNthWeekday.Some?
                   then (if spec.onNthWeekday.value.nth == -1 then 21 else (spec.onNthWeekday.value.nth - 1) * 7)
                   else (var r := if spec.onDayOfMonth.Some? then spec.onDayOfMonth.value else 1;
                         if r <= 28 then r - 1 else 27)
  {
    if spec.Monthly? && spec.onNthWeekday.Some? {
      var nth := spec.onNthWeekday.value;
      low := if nth.nth == -1 then 21 else (nth.nth - 1) * 7;
      OffsetToWeekday(MonthStart(i), nth.weekday);
      OffsetBackToWeekday(MonthStart(i) + LengthOf(i) - 1, nth.weekday);
    } else {
      var r := if spec.onDayOfMonth.Some? then spec.onDayOfMonth.value else 1;
      low := if r <= 28 then r - 1 else 27;
    }
  }

  lemma NextFireClose(spec: Spec, i: int)
    requires ValidSpec(spec) && !spec.Adhoc?
    requires FireDay(spec, i).Some? && FireDay(spec, i + Period(spec)).Some?
    ensures 28 <= FireDay(spec, i + Period(spec)).value - FireDay(spec, i).value <= 375
  {
    var n := Period(spec);
    FireDaysApart(spec, i, i + n);
    var low := PositionBounds(spec, i);
    var low' := PositionBounds(spec, i + n);
    if n == 12 { YearLength(i); } else { MonthStartsRise(i, i + n); }
  }

  lemma PeriodsParticipate(spec: Spec, a: int, q: int)
    requires ValidSpec(spec) && !spec.Adhoc?
    ensures Participates(spec, a + Period(spec) * q + Phase(spec), a)
  {
    var i := a + Period(spec) * q + Phase(spec);
    ParticipatesExactly(spec, i, a);
    EuclidUnique(i - a, Period(spec), q, Phase(spec));
  }

  /** The first month from k on that takes part. */
  lemma NextParticipant(spec: Spec, k: int, a: int) returns (i: int)
    requires ValidSpec(spec) && !spec.Adhoc?
    ensures k <= i < k + Period(spec) && Participates(spec, i, a)
  {
    var n, behind := Period(spec), a + Phase(spec) - k;
    i := k + behind % n;
    assert i == a + n * -(behind / n) + Phase(spec);
    PeriodsParticipate(spec, a, -(behind / n));
  }

  lemma ParticipatesAgain(spec: Spec, i: int, a: int)
    requires ValidSpec(spec) && !spec.Adhoc? && Participates(spec, i, a)
    ensures Participates(spec, i + Period(spec), a)
  {
    var n, q := Period(spec), (i - a) / Period(spec);
    assert i + n == a + n * (q + 1) + Phase(spec) by {
      ParticipatesExactly(spec, i, a);
    }
    PeriodsParticipate(spec, a, q + 1);
  }

  /** Some month from k on fires at least three days past day l and at most 377 days past it. */
  lemma FireSoonAfter(spec: Spec, a: int, k: int, l: int) returns (i: int)
    requires ValidSpec(spec) && !spec.Adhoc? && NeverSkips(spec) && InMonth(k, l)
    ensures k <= i && Participates(spec, i, a) && FireDay(spec, i).Some?
    ensures l + 3 <= FireDay(spec, i).value <= l + 377
  {
    i := NextParticipant(spec, k, a);
    FirstFireSoon(spec, k, l, i);
    for step := 0 to 2
      invariant k <= i && Participates(spec, i, a) && FireDay(spec, i).Some?
      invariant FireDay(spec, i).value <= l + 377
      invariant l + 3 <= FireDay(spec, i).value || l - 30 + 28 * step <= FireDay(spec, i).value
    {
      if FireDay(spec, i).value < l + 3 {
        ParticipatesAgain(spec, i, a);
        NeverSkipsFires(spec, i + Period(spec));
        NextFireClose(spec, i);
        i := i + Period(spec);
      }
    }
  }

  lemma FirstFireSoon(spec: Spec, k: int, l: int, i: int)
    requires ValidSpec(spec) && !spec.Adhoc? && NeverSkips(spec) && InMonth(k, l)
    requires k <= i < k + Period(spec)
    ensures FireDay(spec, i).Some? && l - 30 <= FireDay(spec, i).value <= l + 377
  {
    var n := Period(spec);
    NextMonthStart(k);
    NeverSkipsFires(spec, i);
    NeverSkipsFires(spec, i - n);
    FireDayInMonth(spec, i - n);
    MonthStartsRise(i - n + 1, k);
    NextFireClose(spec, i - n);
    FireDayInMonth(spec, i);
    MonthStartsRise(k, i);
  }

  /** A cadence that passes no month over fires within 400 days of any instant, in any zone, and
      the window that looks for it is never refused: nextOccurrenceAfter is not null. */
  lemma NextWithinDefaultHorizon(z: Zone, spec: Spec, a: int, from: int)
    requires Bounded(z) && ValidSpec(spec) && !spec.Adhoc? && NeverSkips(spec) && EARLIEST_WINDOW <= from
    ensures !TooLarge(z, spec, from, from + DEFAULT_HORIZON_DAYS * DAY)
    ensures !IsNext(z, spec, a, from, from + DEFAULT_HORIZON_DAYS * DAY, None)
  {
    var k, l := MonthIndex(z, from), LocalDay(z, from);
    var i := FireSoonAfter(spec, a, k, l);
    var t := Resolve(z, Naive(FireDay(spec, i).value, spec.atTime));
    assert FiresIn(z, spec, a, i, t);
    WindowStartsLate(z, from);
    assert Fires(z, spec, a, t);
    FiresNearDay(z, spec, a, i, t);
    LocalDayNear(z, from);
    HorizonFewMonths(z, from);
  }

  lemma HorizonFewMonths(z: Zone, from: int)
    requires Bounded(z) && EARLIEST_WINDOW <= from
    ensures MonthIndex(z, from + DEFAULT_HORIZON_DAYS * DAY) <= MonthIndex(z, from) + 20
  {
    var to := from + DEFAULT_HORIZON_DAYS * DAY;
    LocalDayNear(z, from);
    LocalDayNear(z, to);
    var k, l := MonthIndex(z, from), MonthIndex(z, to);
    assert LocalDay(z, to) <= LocalDay(z, from) + 404;
    if k + 20 < l { MonthStartsRise(k + 1, l); }
  }

  /** The most days the month of the year ever has. */
  function LongestOf(month: int): int {
    if month == 2 then 29 else MonthLength(2000, month)
  }

  lemma LongestIs(i: int)
    ensures LengthOf(i) <= LongestOf(MonthOf(i))
    ensures MonthOf(i) != 2 ==> LengthOf(i) == LongestOf(MonthOf(i))
  {
  }

  /** Months are skipped, only one month of the year takes part, and it is always too short. */
  predicate SkipsEveryMonth(spec: Spec, a: int)
    requires ValidSpec(spec) && !spec.Adhoc?
  {
    PolicyOf(spec) == SkipMonth && Period(spec) == 12 && spec.onDayOfMonth.Some?
    && LongestOf(MonthOf(a)) < spec.onDayOfMonth.value
  }

  /** A cadence on a day of the month denotes some instant, in any zone, unless it is yearly, skips short months and
      its anchor's month is always too short. */
  lemma FiresAtAllIff(z: Zone, spec: Spec, a: int)
    requires ValidSpec(spec) && !spec.Adhoc? && spec.onDayOfMonth.Some?
    ensures (exists t :: Fires(z, spec, a, t)) <==> !SkipsEveryMonth(spec, a)
  {
    if SkipsEveryMonth(spec, a) {
      forall t ensures !Fires(z, spec, a, t) {
        forall i ensures !FiresIn(z, spec, a, i, t) {
          ParticipatesExactly(spec, i, a);
          if Participates(spec, i, a) {
            SameMonthOfYear(i, a);
            LongestIs(i);
          }
        }
      }
    } else {
      var i := SomeMonthFires(spec, a);
      assert FiresIn(z, spec, a, i, Resolve(z, Naive(FireDay(spec, i).value, spec.atTime)));
      assert Fires(z, spec, a, Resolve(z, Naive(FireDay(spec, i).value, spec.atTime)));
    }
  }

  lemma SameMonthOfYear(i: int, a: int)
    requires (i - a) % 12 == 0
    ensures MonthOf(i) == MonthOf(a)
  {
  }

  lemma SomeMonthFires(spec: Spec, a: int) returns (i: int)
    requires ValidSpec(spec) && !spec.Adhoc? && spec.onDayOfMonth.Some? && !SkipsEveryMonth(spec, a)
    ensures FIRST_MONTH <= i && Participates(spec, i, a) && FireDay(spec, i).Some?
  {
    if Period(spec) == 12 {
      i := 12 * 2000 + MonthOf(a) - 1;
      YearlyFires(spec, a);
    } else {
      i := LongMonthTakesPart(spec, a);
      LongMonthFires(spec, i);
    }
  }

  /** In the leap year 2000 every month is as long as it ever is. */
  lemma YearlyFires(spec: Spec, a: int)
    requires ValidSpec(spec) && !spec.Adhoc? && spec.onDayOfMonth.Some? && !SkipsEveryMonth(spec, a) && Period(spec) == 12
    ensures var i := 12 * 2000 + MonthOf(a) - 1; Participates(spec, i, a) && FireDay(spec, i).Some?
  {
    var i := 12 * 2000 + MonthOf(a) - 1;
    assert (i - a) % 12 == 0;
    ParticipatesExactly(spec, i, a);
    MonthIndexSplits(2000, MonthOf(a));
    assert LengthOf(i) == LongestOf(MonthOf(a));
  }

  lemma LongMonthTakesPart(spec: Spec, a: int) returns (i: int)
    requires ValidSpec(spec) && !spec.Adhoc? && Period(spec) != 12
    ensures FIRST_MONTH <= i && Participates(spec, i, a) && IsLong(i % 12)
  {
    var first := NextParticipant(spec, FIRST_MONTH, a);
    var steps := LongMonthAhead(first % 12, Period(spec));
    ParticipatesLater(spec, first, a, steps);
    i := first + Period(spec) * steps;
    RemainderMoves(first, Period(spec) * steps);
  }

  lemma RemainderMoves(i: int, x: int)
    ensures (i % 12 + x) % 12 == (i + x) % 12
  {
  }

  lemma {:induction false} ParticipatesLater(spec: Spec, i: int, a: int, k: nat)
    requires ValidSpec(spec) && !spec.Adhoc? && Participates(spec, i, a)
    ensures Participates(spec, i + Period(spec) * k, a) && i <= i + Period(spec) * k
  {
    if k > 0 {
      ParticipatesLater(spec, i, a, k - 1);
      ParticipatesAgain(spec, i + Period(spec) * (k - 1), a);
      OnePeriodMore(Period(spec), k);
    }
  }

  lemma OnePeriodMore(n: int, k: nat)
    requires 0 < n && 0 < k
    ensures n * k == n * (k - 1) + n
  {
  }

  predicate IsLong(month0: int) {
    month0 == 0 || month0 == 2 || month0 == 4 || month0 == 6 || month0 == 7 || month0 == 9 || month0 == 11
  }

  lemma LongMonthFires(spec: Spec, i: int)
    requires ValidSpec(spec) && !spec.Adhoc? && spec.onDayOfMonth.Some? && IsLong(i % 12)
    ensures FireDay(spec, i).Some?
  {
    assert LengthOf(i) == 31;
  }

  /** Half a year after a month of fewer than 31 days comes one of 31, and unless a cadence is yearly
      some of its periods lead there, or to another such month. */
  lemma LongMonthAhead(m: int, n: int) returns (steps: nat)
    requires 0 <= m <= 11 && 1 <= n <= 11
    ensures IsLong((m + n * steps) % 12)
  {
    if IsLong(m) {
      steps := 0;
    } else if n == 4 || n == 8 {
      steps := if IsLong((m + n) % 12) then 1 else 2;
    } else {
      steps := if n == 6 then 1 else if n % 3 == 0 then 2 else if n % 2 == 0 then 3 else 6;
      HalfYear(n, steps);
      assert IsLong((m + 6) % 12);
      RemainderMoves(n * steps, m);
    }
  }

  lemma HalfYear(n: int, steps: int)
    requires 1 <= n <= 11 && n != 4 && n != 8
    requires steps == if n == 6 then 1 else if n % 3 == 0 then 2 else if n % 2 == 0 then 3 else 6
    ensures (n * steps) % 12 == 6
  {
    if n == 6 {} else if n % 3 == 0 { assert n == 3 || n == 9; }
    else if n % 2 == 0 { assert n == 2 || n == 10; } else { assert n == 1 || n == 5 || n == 7 || n == 11; }
  }

  /** So skipping instead of clamping can leave nothing at all: the 31st, yearly, from a February. */
  lemma SkippedFebruaryNeverFires(z: Zone, time: TimeOfDay, year: int, t: int)
    requires ValidTime(time)
    ensures !Fires(z, Monthly(time, Some(31), None, Some(12), Some(SkipMonth)), 12 * year + 1, t)
  {
    var spec := Monthly(time, Some(31), None, Some(12), Some(SkipMonth));
    MonthIndexSplits(year, 2);
    assert SkipsEveryMonth(spec, 12 * year + 1);
    FiresAtAllIff(z, spec, 12 * year + 1);
  }
}
