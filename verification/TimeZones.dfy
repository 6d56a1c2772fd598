/** Wall clocks and instants (apps/backend/src/modules/cadence/timezone.util.ts). */
module TimeZones {

  // An instant is a number of milliseconds since 1970. A zone is any function from instants to
  // offsets in milliseconds, which is all the program sees of the time-zone database.

  import opened Calendar

  type Zone = int -> int

  datatype ZonedParts = ZonedParts(year: int, month: int, day: int, hour: int, minute: int, second: int)

  const SECOND := 1000
  const DAY := 86_400_000
  const TWELVE_HOURS := 43_200_000

  /** 0100-01-01, before which Date.UTC reads another year than the one written. */
  const YEAR_100_DAY := -683003

  /** Instants whose wall clock shows the year 100 or later in every bounded zone. */
  const EARLIEST := (YEAR_100_DAY + 1) * DAY

  ghost predicate Bounded(z: Zone) {
    forall t :: -DAY < z(t) < DAY
  }

  function WholeSeconds(ms: int): int { ms / SECOND * SECOND }

  /** The day the wall clock shows. */
  function LocalDay(z: Zone, t: int): int { (t + z(t)) / DAY }

  /** The offset in force at an instant, in whole seconds. */
  function Offset(z: Zone, t: int): int { WholeSeconds(z(WholeSeconds(t))) }

  /** Milliseconds of a reading, as if it were taken in UTC. */
  function Reading(days: int, hour: int, minute: int, second: int): int {
    days * DAY + ((hour * 60 + minute) * 60 + second) * SECOND
  }

  /** Date.UTC, with its reading of the years 0 to 99 as 1900 to 1999. */
  function DateUtc(p: ZonedParts): int {
    var year := if 0 <= p.year <= 99 then p.year + 1900 else p.year;
    Reading(DayNumber(year, p.month, p.day), p.hour, p.minute, p.second)
  }

  // ---------------------------------------------------------------------------
  // Resolving a reading
  // ---------------------------------------------------------------------------

  /** Reads as naive on the wall clock. */
  predicate Reads(z: Zone, instant: int, naive: int) {
    instant + Offset(z, instant) == naive
  }

  function Min(s: seq<int>): int
    requires s != []
  {
    if |s| == 1 then s[0] else var m := Min(s[1..]); if s[0] <= m then s[0] else m
  }

  function Max(s: seq<int>): int
    requires s != []
  {
    if |s| == 1 then s[0] else var m := Max(s[1..]); if s[0] >= m then s[0] else m
  }

  function Candidates(z: Zone, naive: int): seq<int> {
    [naive - Offset(z, naive), naive - Offset(z, naive - TWELVE_HOURS), naive - Offset(z, naive + TWELVE_HOURS)]
  }

  function ReadingBack(z: Zone, naive: int, candidates: seq<int>): (r: seq<int>)
    ensures forall c | c in r :: c in candidates
  {
    if candidates == [] then []
    else (if Reads(z, candidates[0], naive) then [candidates[0]] else []) + ReadingBack(z, naive, candidates[1..])
  }

  /** The earliest candidate that reads back as asked, else the latest candidate. */
  function Resolve(z: Zone, naive: int): int {
    var candidates := Candidates(z, naive);
    var valid := ReadingBack(z, naive, candidates);
    if valid != [] then Min(valid) else Max(candidates)
  }

  lemma {:induction false} MinIn(s: seq<int>)
    requires s != []
    ensures Min(s) in s && forall x | x in s :: Min(s) <= x
  {
    assert s == [s[0]] + s[1..];
    if |s| > 1 { MinIn(s[1..]); }
  }

  lemma {:induction false} MaxIn(s: seq<int>)
    requires s != []
    ensures Max(s) in s && forall x | x in s :: x <= Max(s)
  {
    assert s == [s[0]] + s[1..];
    if |s| > 1 { MaxIn(s[1..]); }
  }

  lemma {:induction false} ReadingBackIs(z: Zone, naive: int, candidates: seq<int>)
    ensures forall c :: c in ReadingBack(z, naive, candidates) <==> c in candidates && Reads(z, c, naive)
  {
    if candidates != [] {
      ReadingBackIs(z, naive, candidates[1..]);
    }
  }

  /** The answer is the reading minus an offset in force near it, and it reads back exactly
      whenever any of the three candidates does; of those it is the earliest. */
  lemma ResolveSound(z: Zone, naive: int)
    ensures Resolve(z, naive) in Candidates(z, naive)
    ensures (exists c | c in Candidates(z, naive) :: Reads(z, c, naive)) ==>
              Reads(z, Resolve(z, naive), naive)
              && forall c | c in Candidates(z, naive) && Reads(z, c, naive) :: Resolve(z, naive) <= c
    ensures (forall c | c in Candidates(z, naive) :: !Reads(z, c, naive)) ==>
              forall c | c in Candidates(z, naive) :: c <= Resolve(z, naive)
  {
    var valid := ReadingBack(z, naive, Candidates(z, naive));
    ReadingBackIs(z, naive, Candidates(z, naive));
    if valid != [] {
      MinIn(valid);
      assert valid[0] in valid;
    } else {
      MaxIn(Candidates(z, naive));
    }
  }

  lemma ResolveNear(z: Zone, naive: int)
    requires Bounded(z)
    ensures naive - DAY < Resolve(z, naive) <= naive + DAY
  {
    ResolveSound(z, naive);
    OffsetBounded(z, naive);
    OffsetBounded(z, naive - TWELVE_HOURS);
    OffsetBounded(z, naive + TWELVE_HOURS);
  }

  lemma OffsetBounded(z: Zone, t: int)
    requires Bounded(z)
    ensures -DAY <= Offset(z, t) < DAY
  {
    assert -DAY < z(WholeSeconds(t)) < DAY;
  }

  // ---------------------------------------------------------------------------
  // Readings near a change of offset
  // ---------------------------------------------------------------------------

  /** Within a day of the reading, the offset is before until the instant change and after from then
      on, all in whole seconds. At other times the zone may change as often as it likes. */
  ghost predicate ChangesNear(z: Zone, naive: int, change: int, before: int, after: int) {
    && naive % SECOND == change % SECOND == before % SECOND == after % SECOND == 0
    && before != after
    && -DAY < before < DAY && -DAY < after < DAY
    && forall t | naive - DAY <= t <= naive + DAY :: z(t) == if t < change then before else after
  }

  /** What a reading should resolve to: the first instant that shows it; when the change skips
      it, the instant after the gap that it would have been without the change. */
  function Expected(change: int, before: int, after: int, naive: int): int {
    if naive - before < change then naive - before
    else if change <= naive - after then naive - after
    else naive - before
  }

  /** A bounded zone shows a reading only within a day of it, so the instants are those of all time. */
  lemma ExpectedMeaning(z: Zone, change: int, before: int, after: int, naive: int)
    requires Bounded(z) && ChangesNear(z, naive, change, before, after)
    ensures var r := Expected(change, before, after, naive);
            && ((exists t :: t % SECOND == 0 && Reads(z, t, naive)) ==>
                  Reads(z, r, naive) && forall t | t % SECOND == 0 && Reads(z, t, naive) :: r <= t)
            && ((forall t | t % SECOND == 0 :: !Reads(z, t, naive)) ==> change <= r)
  {
    forall t | t % SECOND == 0 ensures Reads(z, t, naive) <==> t == naive - (if t < change then before else after) {
      OffsetBounded(z, t);
      if naive - DAY <= t <= naive + DAY {
        OffsetAcrossChange(z, change, before, after, naive, t);
      }
    }
    ReadingsAcrossChange(change, before, after, naive);
    assert Reads(z, naive - before, naive) <==> naive - before < change;
    assert Reads(z, naive - after, naive) <==> change <= naive - after;
  }

  lemma ReadingsAcrossChange(change: int, before: int, after: int, naive: int)
    requires naive % SECOND == before % SECOND == after % SECOND == 0
    ensures (naive - before) % SECOND == 0 && (naive - after) % SECOND == 0
  {
  }

  lemma OffsetAcrossChange(z: Zone, change: int, before: int, after: int, naive: int, t: int)
    requires ChangesNear(z, naive, change, before, after) && naive - DAY <= t <= naive + DAY
    ensures Offset(z, t) == if t < change then before else after
  {
    assert WholeSeconds(t) < change <==> t < change;
    assert naive - DAY <= WholeSeconds(t) <= naive + DAY;
    assert z(WholeSeconds(t)) == if WholeSeconds(t) < change then before else after;
  }

  /** The probes lie twelve hours either side of the reading, so the program finds the instant
      exactly when the offset that instant needs is in force at one of them. */
  lemma ResolveExpectedIff(z: Zone, change: int, before: int, after: int, naive: int)
    requires ChangesNear(z, naive, change, before, after)
    ensures Resolve(z, naive) == Expected(change, before, after, naive)
            <==> if change <= naive - before && change <= naive - after
                 then change <= naive + TWELVE_HOURS
                 else naive - TWELVE_HOURS < change
  {
    CandidatesAcrossChange(z, change, before, after, naive);
    ResolveAmongTwo(z, naive, naive - before, naive - after);
  }

  lemma ResolveAmongTwo(z: Zone, naive: int, a: int, b: int)
    requires forall c | c in Candidates(z, naive) :: c == a || c == b
    ensures var r, hasA, hasB := Resolve(z, naive), a in Candidates(z, naive), b in Candidates(z, naive);
            && ((hasA && r == a) || (hasB && r == b))
            && (hasA && Reads(z, a, naive) ==> Reads(z, r, naive) && r <= a)
            && (hasB && Reads(z, b, naive) ==> Reads(z, r, naive) && r <= b)
            && (!Reads(z, a, naive) && !Reads(z, b, naive) ==> (hasA ==> a <= r) && (hasB ==> b <= r))
  {
    ResolveSound(z, naive);
  }

  lemma CandidatesAcrossChange(z: Zone, change: int, before: int, after: int, naive: int)
    requires ChangesNear(z, naive, change, before, after)
    ensures Reads(z, naive - before, naive) <==> naive - before < change
    ensures Reads(z, naive - after, naive) <==> change <= naive - after
    ensures naive - before in Candidates(z, naive) <==> naive - TWELVE_HOURS < change
    ensures naive - after in Candidates(z, naive) <==> change <= naive + TWELVE_HOURS
    ensures forall c | c in Candidates(z, naive) :: c == naive - before || c == naive - after
  {
    OffsetAcrossChange(z, change, before, after, naive, naive);
    OffsetAcrossChange(z, change, before, after, naive, naive - TWELVE_HOURS);
    OffsetAcrossChange(z, change, before, after, naive, naive + TWELVE_HOURS);
    OffsetAcrossChange(z, change, before, after, naive, naive - before);
    OffsetAcrossChange(z, change, before, after, naive, naive - after);
    var cs := Candidates(z, naive);
    assert cs[1] == if naive - TWELVE_HOURS < change then naive - before else naive - after;
    assert cs[2] == if naive + TWELVE_HOURS < change then naive - before else naive - after;
  }

  /** So zones that stay within twelve hours of UTC resolve every reading as documented. */
  lemma ResolveExpectedWithinTwelveHours(z: Zone, change: int, before: int, after: int, naive: int)
    requires ChangesNear(z, naive, change, before, after)
    requires -TWELVE_HOURS <= before <= TWELVE_HOURS && -TWELVE_HOURS <= after <= TWELVE_HOURS
    ensures Resolve(z, naive) == Expected(change, before, after, naive)
  {
    ResolveExpectedIff(z, change, before, after, naive);
  }

  /** In a zone that is twelve hours or more ahead of UTC on both sides of a change, every repeated
      reading resolves to its second occurrence and every skipped one to before the gap. */
  lemma FarEastNeverAsDocumented(z: Zone, change: int, before: int, after: int, naive: int)
    requires ChangesNear(z, naive, change, before, after)
    requires TWELVE_HOURS <= before && TWELVE_HOURS <= after
    requires (naive - before < change <= naive - after) || (naive - after < change <= naive - before)
    ensures Resolve(z, naive) == naive - after != Expected(change, before, after, naive)
    ensures before > after ==> Reads(z, naive - before, naive) && naive - before < Resolve(z, naive)
    ensures before < after ==> Resolve(z, naive) < change
  {
    ResolveExpectedIff(z, change, before, after, naive);
    CandidatesAcrossChange(z, change, before, after, naive);
    ResolveSound(z, naive);
  }

  // As in New Zealand: thirteen hours ahead in summer and twelve in winter, year after year; here of 365 days.

  const HOUR := 3_600_000
  const YEAR := 31_536_000_000

  /** Summer time lasts for the given time from start on, and again every year. */
  function Seasonal(start: int, summer: int): Zone {
    t => if (t - start) % YEAR < summer then 13 * HOUR else 12 * HOUR
  }

  /** In every year the readings skipped in spring resolve to before the gap. */
  lemma NewZealandSkips(start: int, summer: int, k: int, spring: int, naive: int)
    requires start % SECOND == summer % SECOND == naive % SECOND == 0
    requires 4 * DAY <= summer <= YEAR - 4 * DAY && spring == start + k * YEAR
    requires spring + 12 * HOUR <= naive < spring + 13 * HOUR
    ensures Resolve(Seasonal(start, summer), naive) == naive - 13 * HOUR < spring
  {
    var z := Seasonal(start, summer);
    WholeYears(start, k);
    forall t | naive - DAY <= t <= naive + DAY ensures z(t) == if t < spring then 12 * HOUR else 13 * HOUR {
      SeasonAt(start, summer, k, spring, t);
    }
    FarEastNeverAsDocumented(z, spring, 12 * HOUR, 13 * HOUR, naive);
  }

  /** And in every year the readings repeated in autumn resolve to their second occurrence. */
  lemma NewZealandRepeats(start: int, summer: int, k: int, autumn: int, naive: int)
    requires start % SECOND == summer % SECOND == naive % SECOND == 0
    requires 4 * DAY <= summer <= YEAR - 4 * DAY && autumn == start + k * YEAR + summer
    requires autumn + 12 * HOUR <= naive < autumn + 13 * HOUR
    ensures var z := Seasonal(start, summer);
            Reads(z, naive - 13 * HOUR, naive) && Resolve(z, naive) == naive - 12 * HOUR
  {
    var z := Seasonal(start, summer);
    WholeYears(start, k);
    forall t | naive - DAY <= t <= naive + DAY ensures z(t) == if t < autumn then 13 * HOUR else 12 * HOUR {
      SeasonAt(start, summer, k, autumn - summer, t);
    }
    FarEastNeverAsDocumented(z, autumn, 13 * HOUR, 12 * HOUR, naive);
  }

  lemma WholeYears(start: int, k: int)
    requires start % SECOND == 0
    ensures (start + k * YEAR) % SECOND == 0
  {
    assert k * YEAR == SECOND * (k * 31_536_000);
  }

  lemma SeasonAt(start: int, summer: int, k: int, spring: int, t: int)
    requires spring == start + k * YEAR && 0 < summer <= YEAR - 2 * DAY
    requires spring - 2 * DAY <= t < spring + YEAR - 2 * DAY
    ensures Seasonal(start, summer)(t) == if spring <= t < spring + summer then 13 * HOUR else 12 * HOUR
  {
    YearAround(t - start, k);
  }

  lemma YearAround(x: int, k: int)
    requires -2 * DAY <= x - k * YEAR < YEAR
    ensures x % YEAR == if k * YEAR <= x then x - k * YEAR else x - k * YEAR + YEAR
  {
    var r := x - k * YEAR;
    if r >= 0 { EuclideanUnique(x, k, r); } else { EuclideanUnique(x, k - 1, r + YEAR); }
  }

  lemma EuclideanUnique(x: int, q: int, r: int)
    requires x == q * YEAR + r && 0 <= r < YEAR
    ensures x % YEAR == r
  {
  }

  // ---------------------------------------------------------------------------
  // The program
  // ---------------------------------------------------------------------------

  /** Intl.DateTimeFormat.formatToParts: the date and time the wall clock shows. */
  method ToZonedParts(z: Zone, t: int) returns (p: ZonedParts)
    requires YEAR_100_DAY <= LocalDay(z, t)
    ensures IsDate(Civil(p.year, p.month, p.day)) && 100 <= p.year
    ensures DayNumber(p.year, p.month, p.day) == LocalDay(z, t)
    ensures DateUtc(p) == WholeSeconds(t + z(t))
  {
    var local := t + z(t);
    var c := DateOf(local / DAY);
    var seconds := local % DAY / SECOND;
    p := ZonedParts(c.year, c.month, c.day, seconds / 3600, seconds / 60 % 60, seconds % 60);
    SecondsAddUp(local / DAY, seconds);
    assert local / DAY * DAY + seconds * SECOND == WholeSeconds(local);
  }

  method DateOf(days: int) returns (c: Civil)
    requires YEAR_100_DAY <= days
    ensures IsDate(c) && 100 <= c.year && DayNumber(c.year, c.month, c.day) == days
  {
    c := DaysToCivil(days);
    FromYear100On(days, c);
  }

  lemma SecondsAddUp(days: int, seconds: int)
    requires 0 <= seconds < 86400
    ensures Reading(days, seconds / 3600, seconds / 60 % 60, seconds % 60) == days * DAY + seconds * SECOND
  {
    assert seconds / 60 == seconds / 3600 * 60 + seconds / 60 % 60;
  }

  lemma FromYear100On(days: int, c: Civil)
    requires YEAR_100_DAY <= days && c == DaysToCivil(days)
    ensures IsDate(c) && 100 <= c.year && DayNumber(c.year, c.month, c.day) == days
  {
    DaysToCivilExact(days);
    YearFromDay(c);
  }

  lemma Year100()
    ensures MonthStart(1200) == YEAR_100_DAY
  {
    MonthStartClosed(1200);
  }

  lemma YearFromDay(c: Civil)
    requires IsDate(c) && YEAR_100_DAY <= DayNumber(c.year, c.month, c.day)
    ensures 100 <= c.year
  {
    var i := 12 * c.year + c.month - 1;
    if i < 1200 {
      Year100();
      MonthIndexSplits(c.year, c.month);
      NextMonthStart(i);
      MonthStartsRise(i + 1, 1200);
    }
  }

  method ZoneOffsetMsAt(z: Zone, utc: int) returns (offset: int)
    requires Bounded(z) && EARLIEST <= WholeSeconds(utc)
    ensures offset == Offset(z, utc)
  {
    var truncated := utc / SECOND * SECOND;
    assert -DAY < z(truncated) < DAY;
    var p := ToZonedParts(z, truncated);
    offset := DateUtc(p) - truncated;
    WholeSecondsShift(utc / SECOND, z(truncated));
  }

  lemma WholeSecondsShift(k: int, ms: int)
    ensures WholeSeconds(k * SECOND + ms) == k * SECOND + WholeSeconds(ms)
  {
  }

  method FromZonedParts(z: Zone, p: ZonedParts) returns (instant: int)
    requires Bounded(z) && EARLIEST + 2 * DAY <= DateUtc(p)
    ensures instant == Resolve(z, DateUtc(p))
  {
    var naive := DateUtc(p);
    var probes := [naive, naive - TWELVE_HOURS, naive + TWELVE_HOURS];
    var candidates, valid := [], [];
    var i := 0;
    while i < |probes|
      invariant 0 <= i <= 3
      invariant candidates == Candidates(z, naive)[..i]
    {
      var offset := ZoneOffsetMsAt(z, probes[i]);
      candidates := candidates + [naive - offset];
      i := i + 1;
    }
    i := 3;
    while i > 0
      invariant 0 <= i <= 3
      invariant valid == ReadingBack(z, naive, Candidates(z, naive)[i..])
    {
      i := i - 1;
      OffsetBounded(z, probes[i]);
      var offset := ZoneOffsetMsAt(z, candidates[i]);
      assert Candidates(z, naive)[i..][1..] == Candidates(z, naive)[i + 1..];
      if offset == naive - candidates[i] { valid := [candidates[i]] + valid; }
    }
    assert Candidates(z, naive)[0..] == Candidates(z, naive) == candidates;
    if |valid| > 0 {
      instant := Min(valid);
    } else {
      instant := Max(candidates);
    }
  }
}
