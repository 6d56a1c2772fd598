/** Proleptic Gregorian day arithmetic (apps/backend/src/modules/cadence/timezone.util.ts). */
module Calendar {

  // First the calendar itself, then what the program computes, and where the two agree.

  datatype Civil = Civil(year: int, month: int, day: int)

  /** JavaScript's remainder: it takes the sign of the dividend. */
  function JsRem(a: int, b: int): int
    requires b != 0
  {
    if 0 <= a then a % b else -((-a) % b)
  }

  // ---------------------------------------------------------------------------
  // The calendar itself: months of known lengths, one after the other
  // ---------------------------------------------------------------------------

  predicate IsLeap(year: int) {
    year % 4 == 0 && (year % 100 != 0 || year % 400 == 0)
  }

  function MonthLength(year: int, month: int): int {
    if month == 2 then (if IsLeap(year) then 29 else 28)
    else if month == 4 || month == 6 || month == 9 || month == 11 then 30
    else 31
  }

  /** Months are numbered from January of year 0; these are their year, month and length. */
  function YearOf(i: int): int { i / 12 }

  function MonthOf(i: int): int { i % 12 + 1 }

  function LengthOf(i: int): (r: int)
    ensures 28 <= r <= 31
  {
    MonthLength(YearOf(i), MonthOf(i))
  }

  const EPOCH_MONTH := 1970 * 12

  /** Days from 1970-01-01 to the first of month i, counted month by month. */
  function MonthStart(i: int): int
    decreases if i < EPOCH_MONTH then EPOCH_MONTH - i else i - EPOCH_MONTH
  {
    if i == EPOCH_MONTH then 0
    else if i > EPOCH_MONTH then MonthStart(i - 1) + LengthOf(i - 1)
    else MonthStart(i + 1) - LengthOf(i)
  }

  /** The day number of a date. */
  function DayNumber(year: int, month: int, day: int): int {
    MonthStart(12 * year + month - 1) + day - 1
  }

  predicate IsDate(c: Civil) {
    1 <= c.month <= 12 && 1 <= c.day <= MonthLength(c.year, c.month)
  }

  lemma {:induction false} MonthStartsRise(i: int, j: int)
    requires i <= j
    ensures MonthStart(i) + 28 * (j - i) <= MonthStart(j) <= MonthStart(i) + 31 * (j - i)
    decreases j - i
  {
    if i < j {
      MonthStartsRise(i, j - 1);
    }
  }

  /** A day lies in one month only. */
  lemma MonthOfDayUnique(i: int, j: int, days: int)
    requires MonthStart(i) <= days < MonthStart(i + 1) && MonthStart(j) <= days < MonthStart(j + 1)
    ensures i == j
  {
    if i < j { MonthStartsRise(i + 1, j); }
    if j < i { MonthStartsRise(j + 1, i); }
  }

  lemma MonthIndexSplits(year: int, month: int)
    requires 1 <= month <= 12
    ensures YearOf(12 * year + month - 1) == year && MonthOf(12 * year + month - 1) == month
  {
  }

  /** Two dates with one day number are one date. */
  lemma DayNumberInjective(c: Civil, d: Civil)
    requires IsDate(c) && IsDate(d)
    requires DayNumber(c.year, c.month, c.day) == DayNumber(d.year, d.month, d.day)
    ensures c == d
  {
    MonthIndexSplits(c.year, c.month);
    MonthIndexSplits(d.year, d.month);
    MonthOfDayUnique(12 * c.year + c.month - 1, 12 * d.year + d.month - 1, DayNumber(c.year, c.month, c.day));
  }

  // ---------------------------------------------------------------------------
  // Closed form
  // ---------------------------------------------------------------------------

  /** Days from 0000-03-01 to the first of March of year s. */
  function MarchDays(s: int): int {
    365 * s + s / 4 - s / 100 + s / 400
  }

  /** The year and month counted from March, as the algorithm counts them. */
  function ShiftedYear(year: int, month: int): int {
    year - if month <= 2 then 1 else 0
  }

  function DaysBeforeMonth(month: int): int {
    (153 * (month + if month > 2 then -3 else 9) + 2) / 5
  }

  function Closed(i: int): int {
    MarchDays(ShiftedYear(YearOf(i), MonthOf(i))) + DaysBeforeMonth(MonthOf(i)) - 719468
  }

  function ClosedDay(year: int, month: int, day: int): int {
    MarchDays(ShiftedYear(year, month)) + DaysBeforeMonth(month) + day - 1 - 719468
  }

  lemma LeapStep(s: int)
    ensures MarchDays(s) - MarchDays(s - 1) == 365 + if IsLeap(s) then 1 else 0
  {
    QuotientSteps(s);
    assert s % 400 == 0 ==> s % 100 == 0;
    assert s % 100 == 0 ==> s % 4 == 0;
  }

  lemma QuotientSteps(s: int)
    ensures s / 4 == (s - 1) / 4 + if s % 4 == 0 then 1 else 0
    ensures s / 100 == (s - 1) / 100 + if s % 100 == 0 then 1 else 0
    ensures s / 400 == (s - 1) / 400 + if s % 400 == 0 then 1 else 0
  {
  }

  lemma ClosedStep(i: int)
    ensures Closed(i + 1) - Closed(i) == LengthOf(i)
  {
    var y, m := YearOf(i), MonthOf(i);
    assert YearOf(i + 1) == (if m == 12 then y + 1 else y) && MonthOf(i + 1) == if m == 12 then 1 else m + 1;
    if m == 2 {
      LeapStep(y);
    } else {
      assert ShiftedYear(YearOf(i + 1), MonthOf(i + 1)) == ShiftedYear(y, m);
    }
  }

  /** Only one count of days starts at the epoch and grows by the lengths of the months. */
  lemma {:induction false} MonthStartUnique(start: int -> int, i: int)
    requires start(EPOCH_MONTH) == 0 && forall j :: start(j + 1) == start(j) + LengthOf(j)
    ensures MonthStart(i) == start(i)
    decreases if i < EPOCH_MONTH then EPOCH_MONTH - i else i - EPOCH_MONTH
  {
    if i > EPOCH_MONTH {
      MonthStartUnique(start, i - 1);
      assert start(i - 1 + 1) == start(i - 1) + LengthOf(i - 1);
    } else if i < EPOCH_MONTH {
      MonthStartUnique(start, i + 1);
      assert start(i + 1) == start(i) + LengthOf(i);
    }
  }

  lemma MonthStartClosed(i: int)
    ensures MonthStart(i) == Closed(i)
  {
    forall j ensures Closed(j + 1) == Closed(j) + LengthOf(j) {
      ClosedStep(j);
    }
    MonthStartUnique(Closed, i);
  }

  lemma DayNumberClosed(year: int, month: int, day: int)
    requires 1 <= month <= 12
    ensures DayNumber(year, month, day) == ClosedDay(year, month, day)
  {
    MonthIndexSplits(year, month);
    MonthStartClosed(12 * year + month - 1);
  }

  // ---------------------------------------------------------------------------
  // The program's arithmetic
  // ---------------------------------------------------------------------------

  lemma EraSplits(era: int, yearOfEra: int)
    ensures MarchDays(era * 400 + yearOfEra)
            == era * 146097 + yearOfEra * 365 + yearOfEra / 4 - yearOfEra / 100 + yearOfEra / 400
  {
    assert (era * 400 + yearOfEra) / 4 == era * 100 + yearOfEra / 4;
    assert (era * 400 + yearOfEra) / 100 == era * 4 + yearOfEra / 100;
    assert (era * 400 + yearOfEra) / 400 == era + yearOfEra / 400;
  }

  /** The year part of civilToDays, branch by branch; the divisions floor. */
  function YearDays(shiftedYear: int): int {
    var era := (if shiftedYear >= 0 then shiftedYear else shiftedYear - 399) / 400;
    var yearOfEra := shiftedYear - era * 400;
    era * 146097 + yearOfEra * 365 + yearOfEra / 4 - yearOfEra / 100
  }

  function CivilToDays(year: int, month: int, day: int): int {
    YearDays(ShiftedYear(year, month)) + DaysBeforeMonth(month) + day - 1 - 719468
  }

  predicate EraFloors(shiftedYear: int) {
    shiftedYear >= 0 || shiftedYear % 400 == 399
  }

  lemma YearDaysOffBy(s: int)
    ensures YearDays(s) == MarchDays(s) - if EraFloors(s) then 0 else 1
  {
    var era := (if s >= 0 then s else s - 399) / 400;
    EraSplits(era, s - era * 400);
    assert era == if EraFloors(s) then s / 400 else s / 400 - 1;
  }

  lemma YearDaysExact(s: int)
    requires -1 <= s
    ensures YearDays(s) == MarchDays(s)
  {
    YearDaysOffBy(s);
  }

  /** civilToDays is the day number exactly from March of year 0 on and, before that, in the years
      that end a 400-year era; everywhere else it is one day short. */
  lemma CivilToDaysExactIff(year: int, month: int, day: int)
    requires 1 <= month <= 12
    ensures CivilToDays(year, month, day)
            == DayNumber(year, month, day) - if EraFloors(ShiftedYear(year, month)) then 0 else 1
  {
    CivilToDaysClosed(year, month, day);
    DayNumberClosed(year, month, day);
  }

  lemma CivilToDaysClosed(year: int, month: int, day: int)
    ensures CivilToDays(year, month, day)
            == ClosedDay(year, month, day) - if EraFloors(ShiftedYear(year, month)) then 0 else 1
  {
    YearDaysOffBy(ShiftedYear(year, month));
  }

  function DaysInMonth(year: int, month: int): int {
    CivilToDays(if month == 12 then year + 1 else year, if month == 12 then 1 else month + 1, 1)
    - CivilToDays(year, month, 1)
  }

  lemma NextMonthStart(i: int)
    ensures MonthStart(i + 1) == MonthStart(i) + LengthOf(i)
  {
    MonthStartClosed(i);
    MonthStartClosed(i + 1);
    ClosedStep(i);
  }

  lemma CivilToDaysExact(year: int, month: int, day: int)
    requires 1 <= month <= 12 && 0 <= year
    ensures CivilToDays(year, month, day) == DayNumber(year, month, day)
  {
    YearDaysExact(ShiftedYear(year, month));
    DayNumberClosed(year, month, day);
  }

  lemma DaysInMonthExact(year: int, month: int)
    requires 1 <= month <= 12 && 0 <= year
    ensures DaysInMonth(year, month) == MonthLength(year, month)
  {
    if month == 2 {
      FebruaryExact(year);
    } else {
      var nextYear, next := if month == 12 then year + 1 else year, if month == 12 then 1 else month + 1;
      assert ShiftedYear(nextYear, next) == ShiftedYear(year, month);
      assert DaysBeforeMonth(next) - DaysBeforeMonth(month) == MonthLength(year, month);
    }
  }

  lemma FebruaryExact(year: int)
    requires 0 <= year
    ensures DaysInMonth(year, 2) == MonthLength(year, 2)
  {
    YearDaysExact(year - 1);
    YearDaysExact(year);
    LeapStep(year);
    assert DaysBeforeMonth(3) - DaysBeforeMonth(2) == -337;
  }

  function YearOfEra(dayOfEra: int): int {
    (dayOfEra - dayOfEra / 1460 + dayOfEra / 36524 - dayOfEra / 146096) / 365
  }

  /** Days of the first y years of an era, from its first of March. */
  function YearsOfEra(y: int): int { 365 * y + y / 4 - y / 100 }

  function DayOfYear(dayOfEra: int): int {
    var y := YearOfEra(dayOfEra);
    dayOfEra - YearsOfEra(y)
  }

  /** The date of a day counted from March. */
  function FromMarch(shiftedYear: int, dayOfYear: int): Civil {
    var monthPrime := (5 * dayOfYear + 2) / 153;
    var day := dayOfYear - (153 * monthPrime + 2) / 5 + 1;
    var month := monthPrime + if monthPrime < 10 then 3 else -9;
    Civil(shiftedYear + if month <= 2 then 1 else 0, month, day)
  }

  function CivilOfEra(era: int, dayOfEra: int): Civil {
    FromMarch(YearOfEra(dayOfEra) + era * 400, DayOfYear(dayOfEra))
  }

  /** daysToCivil, step by step. */
  function DaysToCivil(days: int): Civil {
    var shifted := days + 719468;
    var era := (if shifted >= 0 then shifted else shifted - 146096) / 146097;
    CivilOfEra(era, shifted - era * 146097)
  }

  // The year y of an era has the century c, the four-year cycle q and the year r within it.

  predicate AreParts(c: int, q: int, r: int, dayOfYear: int) {
    && 0 <= c <= 3 && 0 <= q <= 24 && 0 <= r <= 3
    && (0 <= dayOfYear <= 364 || (dayOfYear == 365 && r == 3 && (q < 24 || c == 3)))
  }

  function YearOfParts(c: int, q: int, r: int): int { 100 * c + 4 * q + r }

  function DayOfParts(c: int, q: int, r: int, dayOfYear: int): int { 36524 * c + 1461 * q + 365 * r + dayOfYear }

  lemma DayOfPartsIs(c: int, q: int, r: int, dayOfYear: int)
    requires AreParts(c, q, r, dayOfYear)
    ensures 0 <= YearOfParts(c, q, r) <= 399
    ensures DayOfParts(c, q, r, dayOfYear) == YearsOfEra(YearOfParts(c, q, r)) + dayOfYear
  {
    var y := YearOfParts(c, q, r);
    assert y / 4 == 25 * c + q && y / 100 == c;
  }

  lemma YearByNumerator(y: int, numerator: int)
    requires 365 * y <= numerator < 365 * y + 365
    ensures numerator / 365 == y
  {
  }

  /** The year-of-era formula: dividing out the leap days recovers the year. */
  lemma YearOfEraFormula(c: int, q: int, r: int, dayOfYear: int)
    requires AreParts(c, q, r, dayOfYear)
    ensures YearOfEra(DayOfParts(c, q, r, dayOfYear)) == YearOfParts(c, q, r)
  {
    var y, d := YearOfParts(c, q, r), DayOfParts(c, q, r, dayOfYear);
    var rest := 24 * c + q + 365 * r + dayOfYear;
    var k := if rest >= 1460 then 1 else 0;
    assert d == 1460 * (25 * c + q) + rest;
    assert d / 1460 == 25 * c + q + k;
    var last := if c == 3 && q == 24 && r == 3 && dayOfYear == 365 then 1 else 0;
    assert d / 36524 == c + last;
    assert d / 146096 == last;
    YearByNumerator(y, 365 * y + dayOfYear - k);
  }

  /** The parts of a day of an era: century, four-year cycle, year of the cycle, day of the year. */
  lemma DayOfEraParts(d: int) returns (c: int, q: int, r: int, dayOfYear: int)
    requires 0 <= d < 146097
    ensures AreParts(c, q, r, dayOfYear) && d == DayOfParts(c, q, r, dayOfYear)
  {
    c := if d / 36524 > 3 then 3 else d / 36524;
    var rest := d - 36524 * c;
    q := rest / 1461;
    var days := rest - 1461 * q;
    r := if days / 365 > 3 then 3 else days / 365;
    dayOfYear := days - 365 * r;
  }

  predicate FitsYear(shiftedYear: int, dayOfYear: int) {
    0 <= dayOfYear <= 364 || (dayOfYear == 365 && IsLeap(shiftedYear + 1))
  }

  lemma YearOfEraExact(d: int)
    requires 0 <= d < 146097
    ensures var y := YearOfEra(d);
            0 <= y <= 399 && FitsYear(y, DayOfYear(d)) && d == YearsOfEra(y) + DayOfYear(d)
  {
    var c, q, r, dayOfYear := DayOfEraParts(d);
    YearOfEraFormula(c, q, r, dayOfYear);
    DayOfPartsIs(c, q, r, dayOfYear);
    LeapAtTheEnd(c, q, r, dayOfYear);
    assert DayOfYear(d) == dayOfYear;
  }

  /** The last year of a four-year cycle ends with a leap day, except at the end of the first three centuries. */
  lemma LeapAtTheEnd(c: int, q: int, r: int, dayOfYear: int)
    requires AreParts(c, q, r, dayOfYear)
    ensures FitsYear(YearOfParts(c, q, r), dayOfYear)
  {
    var year := 100 * c + 4 * q + r + 1;
    assert r == 3 ==> year % 4 == 0;
    assert r == 3 && q < 24 ==> year % 100 == 4 * q + 4;
    assert r == 3 && q == 24 && c == 3 ==> year == 400;
  }

  lemma FromMarchExact(s: int, dayOfYear: int)
    requires FitsYear(s, dayOfYear)
    ensures var c := FromMarch(s, dayOfYear);
            IsDate(c) && ShiftedYear(c.year, c.month) == s && DaysBeforeMonth(c.month) + c.day - 1 == dayOfYear
  {
    var p := (5 * dayOfYear + 2) / 153;
    assert 0 <= p <= 11 && (153 * p + 2) / 5 <= dayOfYear && (p < 11 ==> dayOfYear < (153 * (p + 1) + 2) / 5);
  }

  lemma DateFromParts(era: int, y: int, dayOfYear: int)
    requires 0 <= y <= 399 && FitsYear(y, dayOfYear)
    ensures var c := FromMarch(y + era * 400, dayOfYear);
            IsDate(c) && ShiftedYear(c.year, c.month) == y + era * 400
            && ClosedDay(c.year, c.month, c.day)
               == era * 146097 + YearsOfEra(y) + dayOfYear - 719468
  {
    LeapPeriod(y + 1, era);
    FromMarchExact(y + era * 400, dayOfYear);
    EraSplits(era, y);
  }

  lemma CivilOfEraClosed(era: int, d: int)
    requires 0 <= d < 146097
    ensures var c := CivilOfEra(era, d);
            IsDate(c) && era * 400 <= ShiftedYear(c.year, c.month)
            && ClosedDay(c.year, c.month, c.day) == era * 146097 + d - 719468
  {
    YearOfEraExact(d);
    var y, dayOfYear := YearOfEra(d), DayOfYear(d);
    DateFromParts(era, y, dayOfYear);
    assert CivilOfEra(era, d) == FromMarch(y + era * 400, dayOfYear);
  }

  lemma DaysToCivilClosed(days: int)
    requires -719468 <= days
    ensures var c := DaysToCivil(days);
            IsDate(c) && 0 <= ShiftedYear(c.year, c.month) && ClosedDay(c.year, c.month, c.day) == days
  {
    var era := (days + 719468) / 146097;
    var d := days + 719468 - era * 146097;
    assert 0 <= d < 146097 && 0 <= era;
    CivilOfEraClosed(era, d);
  }

  /** From March of year 0 on, daysToCivil gives the date with that day number. */
  lemma DaysToCivilExact(days: int)
    requires -719468 <= days
    ensures var c := DaysToCivil(days);
            IsDate(c) && 0 <= ShiftedYear(c.year, c.month) && DayNumber(c.year, c.month, c.day) == days
  {
    DaysToCivilClosed(days);
    var c := DaysToCivil(days);
    DayNumberClosed(c.year, c.month, c.day);
  }

  lemma LeapPeriod(year: int, era: int)
    ensures IsLeap(year + era * 400) == IsLeap(year)
  {
    LeapByRemainder(year / 400, year % 400);
    LeapByRemainder(year / 400 + era, year % 400);
  }

  lemma LeapByRemainder(q: int, r: int)
    requires 0 <= r < 400
    ensures IsLeap(400 * q + r) == IsLeap(r)
  {
    Mod4(100 * q + r / 4, r % 4);
    Mod100(4 * q + r / 100, r % 100);
    Mod400(q, r);
  }

  lemma Mod4(k: int, r: int)
    requires 0 <= r < 4
    ensures (4 * k + r) % 4 == r
  {
  }

  lemma Mod100(k: int, r: int)
    requires 0 <= r < 100
    ensures (100 * k + r) % 100 == r
  {
  }

  lemma Mod400(k: int, r: int)
    requires 0 <= r < 400
    ensures (400 * k + r) % 400 == r
  {
  }

  // Before that the program's era is one too low, unless the day is the last of its era, and the
  // day of the era lies one era further on, where the year-of-era formula is a day ahead.

  const ERA_DAYS := 146097

  function PlaceInEra(days: int): int { (days + 719468) % ERA_DAYS }

  predicate EraOfDayFloors(days: int) {
    -719468 <= days || PlaceInEra(days) == ERA_DAYS - 1
  }

  lemma EraOneTooLow(days: int)
    requires !EraOfDayFloors(days)
    ensures DaysToCivil(days) == CivilOfEra((days + 719468) / ERA_DAYS - 1, ERA_DAYS + PlaceInEra(days))
  {
    var shifted := days + 719468;
    var era, place := shifted / ERA_DAYS, shifted % ERA_DAYS;
    EraAndPlace(era - 1, place + 1, shifted - 146096);
  }

  lemma EraRight(days: int)
    requires EraOfDayFloors(days)
    ensures DaysToCivil(days) == CivilOfEra((days + 719468) / ERA_DAYS, PlaceInEra(days))
  {
    var shifted := days + 719468;
    if shifted < 0 {
      EraAndPlace(shifted / ERA_DAYS, 0, shifted - 146096);
    }
  }

  lemma EraAndPlace(era: int, place: int, days: int)
    requires 0 <= place < ERA_DAYS && days == ERA_DAYS * era + place
    ensures days / ERA_DAYS == era
  {
  }

  /** One era on, the formula gives the year of the next day, or the year before it on a first of March. */
  lemma YearOfEraFormulaBeyond(c: int, q: int, r: int, dayOfYear: int)
    requires AreParts(c, q, r, dayOfYear)
    ensures YearOfEra(DayOfParts(c, q, r, dayOfYear) + 146096)
            == YearOfParts(c, q, r) + if dayOfYear == 0 then 399 else 400
  {
    var y, d := YearOfParts(c, q, r), DayOfParts(c, q, r, dayOfYear);
    var rest := 24 * c + q + 365 * r + dayOfYear + 96;
    var k := if rest >= 1460 then 1 else 0;
    assert d + 146096 == 1460 * (25 * c + q + 100) + rest;
    assert (d + 146096) / 1460 == 25 * c + q + 100 + k;
    var last := if c == 3 && q == 24 && r == 3 && dayOfYear == 365 then 1 else 0;
    assert (d + 146096) / 36524 == c + 4 + last;
    assert (d + 146096) / 146096 == 1 + last;
    YearByNumerator(y + if dayOfYear == 0 then 399 else 400, 365 * y + dayOfYear - k + 145999);
  }

  lemma DayOfEraBeyond(d: int)
    requires 0 < d < ERA_DAYS
    ensures var y, dayOfYear := YearOfEra(d), DayOfYear(d);
            if dayOfYear != 0 then YearOfEra(d + 146096) == y + 400 && DayOfYear(d + 146096) == dayOfYear
            else YearOfEra(d + 146096) == y + 399
                 && DayOfYear(d + 146096) == 365 + if IsLeap(y) then 1 else 0
  {
    var c, q, r, dayOfYear := DayOfEraParts(d);
    YearOfEraFormula(c, q, r, dayOfYear);
    YearOfEraFormulaBeyond(c, q, r, dayOfYear);
    DayOfPartsIs(c, q, r, dayOfYear);
    YearsOn(YearOfParts(c, q, r));
  }

  lemma YearsOn(y: int)
    requires 0 <= y <= 399
    ensures YearsOfEra(y + 400) == YearsOfEra(y) + 146096
    ensures 0 < y ==> YearsOfEra(y + 399) == YearsOfEra(y) + 146096 - 365 - if IsLeap(y) then 1 else 0
  {
    assert (y + 400) / 4 == y / 4 + 100 && (y + 400) / 100 == y / 100 + 4;
    assert (y + 399) / 4 == y / 4 + if y % 4 == 0 then 99 else 100;
    assert (y + 399) / 100 == y / 100 + if y % 100 == 0 then 3 else 4;
  }

  /** The day after the last of February, as a date of February. */
  function BeyondFebruary(year: int): Civil {
    Civil(year, 2, MonthLength(year, 2) + 1)
  }

  lemma MarchTheFirst(s: int)
    ensures FromMarch(s, 0) == Civil(s, 3, 1)
    ensures FromMarch(s - 1, 365 + if IsLeap(s) then 1 else 0) == BeyondFebruary(s)
  {
  }

  lemma CivilOfEraBeyond(era: int, d: int)
    requires 0 < d < ERA_DAYS
    ensures var c := CivilOfEra(era, d);
            CivilOfEra(era - 1, d + 146096) == if c.month == 3 && c.day == 1 then BeyondFebruary(c.year) else c
  {
    DayOfEraBeyond(d);
    YearOfEraExact(d);
    var s, dayOfYear := YearOfEra(d) + era * 400, DayOfYear(d);
    if dayOfYear == 0 {
      LeapPeriod(YearOfEra(d), era);
      MarchTheFirst(s);
    } else {
      LeapPeriod(YearOfEra(d) + 1, era);
      FromMarchExact(s, dayOfYear);
      assert ShiftedYear(s, 3) == s && DaysBeforeMonth(3) == 0;
    }
  }

  /** What daysToCivil computes, for every day there is: the date of the day, where the era is right;
      elsewhere the date of the next day, with a first of March written as a 29th or 30th of February. */
  lemma DaysToCivilEverywhere(days: int, c: Civil)
    requires IsDate(c) && DayNumber(c.year, c.month, c.day) == days + if EraOfDayFloors(days) then 0 else 1
    ensures DaysToCivil(days)
            == if !EraOfDayFloors(days) && c.month == 3 && c.day == 1 then BeyondFebruary(c.year) else c
  {
    var era, place := SplitDay(days);
    if EraOfDayFloors(days) {
      EraRight(days);
      CivilOfEraIs(era, place, c);
    } else {
      EraOneTooLow(days);
      CivilOfEraLate(era, place, c);
    }
  }

  lemma SplitDay(days: int) returns (era: int, place: int)
    ensures era == (days + 719468) / ERA_DAYS && place == PlaceInEra(days)
    ensures 0 <= place < ERA_DAYS && days == era * ERA_DAYS + place - 719468
  {
    era, place := (days + 719468) / ERA_DAYS, PlaceInEra(days);
  }

  lemma CivilOfEraLate(era: int, place: int, c: Civil)
    requires IsDate(c) && 0 <= place < ERA_DAYS - 1
    requires DayNumber(c.year, c.month, c.day) == era * ERA_DAYS + place + 1 - 719468
    ensures CivilOfEra(era - 1, ERA_DAYS + place) == if c.month == 3 && c.day == 1 then BeyondFebruary(c.year) else c
  {
    CivilOfEraIs(era, place + 1, c);
    CivilOfEraBeyond(era, place + 1);
  }

  lemma CivilOfEraIs(era: int, d: int, c: Civil)
    requires IsDate(c) && 0 <= d < ERA_DAYS && DayNumber(c.year, c.month, c.day) == era * ERA_DAYS + d - 719468
    ensures CivilOfEra(era, d) == c
  {
    CivilOfEraClosed(era, d);
    var e := CivilOfEra(era, d);
    DayNumberClosed(e.year, e.month, e.day);
    DayNumberInjective(c, e);
  }

  lemma DateOfDay(days: int) returns (c: Civil)
    ensures IsDate(c) && DayNumber(c.year, c.month, c.day) == days
  {
    CivilOfEraClosed((days + 719468) / ERA_DAYS, PlaceInEra(days));
    c := CivilOfEra((days + 719468) / ERA_DAYS, PlaceInEra(days));
    DayNumberClosed(c.year, c.month, c.day);
  }

  /** daysToCivil gives the date of a day exactly where the era is right; elsewhere it is a day late. */
  lemma DaysToCivilExactIff(days: int)
    ensures var c := DaysToCivil(days);
            && (IsDate(c) && DayNumber(c.year, c.month, c.day) == days <==> EraOfDayFloors(days))
            && (!EraOfDayFloors(days) ==> ClosedDay(c.year, c.month, c.day) == days + 1)
  {
    var c := DateOfDay(days + if EraOfDayFloors(days) then 0 else 1);
    DaysToCivilEverywhere(days, c);
    DayNumberClosed(c.year, c.month, c.day);
    BeyondFebruaryClosed(c.year);
  }

  lemma BeyondFebruaryClosed(year: int)
    ensures var c := BeyondFebruary(year);
            !IsDate(c) && ClosedDay(c.year, c.month, c.day) == ClosedDay(year, 3, 1)
  {
    LeapStep(year);
  }

  /** So before year 0 the last day of February of every common year comes out as a 29 February. */
  lemma CommonYearsGetALeapDay(year: int)
    requires year < 0 && !IsLeap(year)
    ensures DaysToCivil(DayNumber(year, 2, 28)) == Civil(year, 2, 29) && !IsDate(Civil(year, 2, 29))
  {
    var days := DayNumber(year, 2, 28);
    DayNumberClosed(year, 2, 28);
    DayNumberClosed(year, 3, 1);
    LeapStep(year);
    PlaceOfDate(Civil(year, 2, 28));
    DaysToCivilEverywhere(days, Civil(year, 3, 1));
  }

  /** Where a date lies in its era, by the year of the era and the day of the year, both from March on. */
  lemma PlaceOfDate(c: Civil)
    requires IsDate(c)
    ensures var s, dayOfYear := ShiftedYear(c.year, c.month), DaysBeforeMonth(c.month) + c.day - 1;
            && PlaceInEra(DayNumber(c.year, c.month, c.day)) == YearsOfEra(s % 400) + dayOfYear
            && 0 <= dayOfYear <= 365 && (dayOfYear == 0 <==> c.month == 3 && c.day == 1)
            && (dayOfYear == 365 <==> c.month == 2 && c.day == 29)
            && (0 <= s <==> -719468 <= DayNumber(c.year, c.month, c.day))
  {
    DayNumberClosed(c.year, c.month, c.day);
    DayOfYearOfDate(c);
    PlaceOfDay(ShiftedYear(c.year, c.month), DaysBeforeMonth(c.month) + c.day - 1);
  }

  lemma PlaceOfDay(s: int, dayOfYear: int)
    requires 0 <= dayOfYear <= 364 || (dayOfYear == 365 && IsLeap(s + 1))
    ensures var days := MarchDays(s) + dayOfYear - 719468;
            PlaceInEra(days) == YearsOfEra(s % 400) + dayOfYear && (0 <= s <==> -719468 <= days)
  {
    EraSplits(s / 400, s % 400);
    YearsOfEraBounded(s % 400);
    if dayOfYear == 365 { LeapYearOfEra(s); }
    EraAndPlace(s / 400, YearsOfEra(s % 400) + dayOfYear, MarchDays(s) + dayOfYear);
  }

  lemma DayOfYearOfDate(c: Civil)
    requires IsDate(c)
    ensures var dayOfYear := DaysBeforeMonth(c.month) + c.day - 1;
            && 0 <= dayOfYear <= 365 && (dayOfYear == 0 <==> c.month == 3 && c.day == 1)
            && (dayOfYear == 365 <==> c.month == 2 && c.day == 29)
            && (dayOfYear == 365 ==> IsLeap(ShiftedYear(c.year, c.month) + 1))
  {
  }

  lemma YearsOfEraBounded(y: int)
    requires 0 <= y <= 399
    ensures 365 * y <= YearsOfEra(y) <= 145731
    ensures y <= 398 ==> YearsOfEra(y) <= 145366
    ensures 0 < y ==> 365 <= YearsOfEra(y)
  {
  }

  lemma LeapYearOfEra(s: int)
    requires IsLeap(s + 1)
    ensures YearsOfEra(s % 400) + 365 < ERA_DAYS
  {
  }

  predicate ComesBack(c: Civil) {
    var s := ShiftedYear(c.year, c.month);
    0 <= s || if s % 400 == 399 then c.month == 2 && c.day == 29 else !(c.month == 3 && c.day == 1)
  }

  /** Converting a date to days and back gives the date again exactly from March of year 0 on and, before
      that, except on every first of March and in the last year of each era but on its leap day. */
  lemma CivilRoundTripIff(c: Civil)
    requires IsDate(c)
    ensures DaysToCivil(CivilToDays(c.year, c.month, c.day)) == c <==> ComesBack(c)
  {
    var days := CivilToDays(c.year, c.month, c.day);
    var d := DateOfDay(days + if EraOfDayFloors(days) then 0 else 1);
    DaysToCivilEverywhere(days, d);
    CivilToDaysExactIff(c.year, c.month, c.day);
    ComesBackIff(c);
    if DayNumber(d.year, d.month, d.day) == DayNumber(c.year, c.month, c.day) {
      DayNumberInjective(c, d);
    }
  }

  /** The two conversions err by a day each; the errors cancel or there are none. */
  lemma ComesBackIff(c: Civil)
    requires IsDate(c)
    ensures var n := DayNumber(c.year, c.month, c.day);
            ComesBack(c) <==>
            if EraFloors(ShiftedYear(c.year, c.month)) then EraOfDayFloors(n)
            else !EraOfDayFloors(n - 1) && !(c.month == 3 && c.day == 1)
  {
    PlaceOfDate(c);
    PlaceBefore(DayNumber(c.year, c.month, c.day));
    YearsOfEraBounded(ShiftedYear(c.year, c.month) % 400);
  }

  lemma PlaceBefore(days: int)
    ensures PlaceInEra(days - 1) == if PlaceInEra(days) == 0 then ERA_DAYS - 1 else PlaceInEra(days) - 1
  {
  }

  /** And days come back exactly from March of year 0 on and, before that, on the last day of each era
      and up to the day before its last year begins. */
  lemma DaysRoundTripIff(days: int)
    ensures var c := DaysToCivil(days);
            CivilToDays(c.year, c.month, c.day) == days
            <==> EraOfDayFloors(days) || PlaceInEra(days) < YearsOfEra(399)
  {
    var c := DateOfDay(days + if EraOfDayFloors(days) then 0 else 1);
    DaysToCivilEverywhere(days, c);
    CivilToDaysExactIff(c.year, c.month, c.day);
    if EraOfDayFloors(days) {
      EraFloorsAlike(days, c);
    } else {
      LastYearOfEra(days, c);
      BeyondFebruaryToDays(c.year);
    }
  }

  lemma EraFloorsAlike(days: int, c: Civil)
    requires IsDate(c) && DayNumber(c.year, c.month, c.day) == days && EraOfDayFloors(days)
    ensures EraFloors(ShiftedYear(c.year, c.month))
  {
    PlaceOfDate(c);
    YearsOfEraBounded(ShiftedYear(c.year, c.month) % 400);
  }

  lemma LastYearOfEra(days: int, c: Civil)
    requires IsDate(c) && DayNumber(c.year, c.month, c.day) == days + 1 && !EraOfDayFloors(days)
    ensures var s := if c.month == 3 && c.day == 1 then c.year - 1 else ShiftedYear(c.year, c.month);
            EraFloors(s) <==> YearsOfEra(399) <= PlaceInEra(days)
  {
    var s := ShiftedYear(c.year, c.month);
    PlaceOfDate(c);
    PlaceBefore(days + 1);
    YearsOfEraBounded(s % 400);
    assert s < 0;
    assert (s - 1) % 400 == if s % 400 == 0 then 399 else s % 400 - 1;
  }

  lemma BeyondFebruaryToDays(year: int)
    ensures var c := BeyondFebruary(year);
            CivilToDays(c.year, c.month, c.day)
            == DayNumber(year, 3, 1) - if EraFloors(year - 1) then 0 else 1
  {
    CivilToDaysClosed(year, 2, MonthLength(year, 2) + 1);
    BeyondFebruaryClosed(year);
    DayNumberClosed(year, 3, 1);
  }

  // ---------------------------------------------------------------------------
  // Weekdays
  // ---------------------------------------------------------------------------

  function WeekdayFromDays(days: int): int {
    JsRem(JsRem(days + 4, 7) + 7, 7)
  }

  /** 1970-01-01 was a Thursday, and the week goes round. */
  lemma WeekdaysGoRound(days: int)
    ensures WeekdayFromDays(0) == 4
    ensures 0 <= WeekdayFromDays(days) <= 6
    ensures WeekdayFromDays(days + 1) == if WeekdayFromDays(days) == 6 then 0 else WeekdayFromDays(days) + 1
  {
    WeekdayIs(0);
    WeekdayIs(days);
    WeekdayMoves(days, 1);
  }

  lemma WeekdayIs(days: int)
    ensures WeekdayFromDays(days) == (days + 4) % 7
  {
    var a := days + 4;
    assert JsRem(a, 7) == if 0 <= a then a % 7 else -((-a) % 7);
  }

  lemma Mod7(k: int, r: int)
    requires 0 <= r < 7
    ensures (7 * k + r) % 7 == r
  {
  }

  /** Moving on by the difference, round the week, reaches the other weekday. */
  lemma WeekdayMoves(days: int, offset: int)
    requires -6 <= offset <= 6
    ensures var w := WeekdayFromDays(days) + offset;
            WeekdayFromDays(days + offset) == if w < 0 then w + 7 else if 6 < w then w - 7 else w
  {
    WeekdayIs(days);
    WeekdayIs(days + offset);
    var k, w := (days + 4) / 7, (days + 4) % 7 + offset;
    assert days + offset + 4 == 7 * k + w;
    if w < 0 { Mod7(k - 1, w + 7); } else if 6 < w { Mod7(k + 1, w - 7); } else { Mod7(k, w); }
  }

  lemma WeekdaysDiffer(a: int, b: int)
    requires 0 < b - a < 7
    ensures WeekdayFromDays(a) != WeekdayFromDays(b)
  {
    WeekdayIs(a);
    WeekdayMoves(a, b - a);
  }

  lemma WeekLater(days: int)
    ensures WeekdayFromDays(days + 7) == WeekdayFromDays(days)
  {
    WeekdayIs(days);
    WeekdayIs(days + 7);
    Mod7((days + 4) / 7 + 1, (days + 4) % 7);
  }

  /** How many days from first to last, both included, fall on the weekday. */
  function CountWeekday(first: int, last: int, weekday: int): nat
    decreases last - first
  {
    if last < first then 0
    else CountWeekday(first, last - 1, weekday) + if WeekdayFromDays(last) == weekday then 1 else 0
  }

  lemma {:induction false} CountWeekdaySplits(first: int, middle: int, last: int, weekday: int)
    requires first <= middle + 1 && middle <= last
    ensures CountWeekday(first, last, weekday)
            == CountWeekday(first, middle, weekday) + CountWeekday(middle + 1, last, weekday)
    decreases last - middle
  {
    if middle < last {
      CountWeekdaySplits(first, middle, last - 1, weekday);
    }
  }

  lemma {:induction false} NoneBeforeFirst(first: int, offset: int, k: int, weekday: int)
    requires 0 <= k <= offset <= 6 && 0 <= weekday <= 6
    requires WeekdayFromDays(first + offset) == weekday
    ensures CountWeekday(first, first + k - 1, weekday) == 0
  {
    if 0 < k {
      NoneBeforeFirst(first, offset, k - 1, weekday);
      WeekdaysDiffer(first + k - 1, first + offset);
    }
  }

  /** Starting within a week before it, the (n-1) * 7 days that follow a weekday bring the nth. */
  lemma {:induction false} NthByWeeks(first: int, offset: int, nth: int, weekday: int)
    requires 0 <= offset <= 6 && 1 <= nth && 0 <= weekday <= 6
    requires WeekdayFromDays(first + offset) == weekday
    ensures var d := first + offset + (nth - 1) * 7;
            WeekdayFromDays(d) == weekday
            && CountWeekday(first, d, weekday) == nth && CountWeekday(first, d - 1, weekday) == nth - 1
  {
    var d := first + offset + (nth - 1) * 7;
    if nth == 1 {
      NoneBeforeFirst(first, offset, offset, weekday);
    } else {
      NthByWeeks(first, offset, nth - 1, weekday);
      WeekLater(d - 7);
      NoneBeforeFirst(d - 6, 6, 6, weekday);
      CountWeekdaySplits(first, d - 7, d - 1, weekday);
    }
  }
}
