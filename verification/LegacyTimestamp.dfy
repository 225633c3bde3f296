/**
  The year of a legacy syslog timestamp.  Such a line carries month, day and clock only
  (section 4.1.2 of RFC 3164); the parser picks, of last, this and next year, the one whose
  instant is nearest to now.

  Instants are nanoseconds since the first of January of year 1, UTC; `zone` is the fixed
  offset of the local zone in seconds east.  Integer division rounds down.
 */
module LegacyTimestamp {

  const SECOND: int := 1_000_000_000
  const DAY_SECONDS: int := 86_400
  const DAY: int := 86_400_000_000_000

  // ---- the Gregorian calendar ----

  predicate IsLeap(y: int) {
    y % 4 == 0 && (y % 100 != 0 || y % 400 == 0)
  }

  function LeapDay(y: int): int { if IsLeap(y) then 1 else 0 }

  /** Days from the first of January of year 1 to that of year `y`. */
  function YearStart(y: int): int {
    365 * (y - 1) + (y - 1) / 4 - (y - 1) / 100 + (y - 1) / 400
  }

  /** Days of a common year before the first of the month. */
  function DaysBefore(month: int): (n: int)
    requires 1 <= month <= 13
    ensures 0 <= n <= 365
  {
    if month == 1 then 0 else if month == 2 then 31 else if month == 3 then 59 else if month == 4 then 90
    else if month == 5 then 120 else if month == 6 then 151 else if month == 7 then 181 else if month == 8 then 212
    else if month == 9 then 243 else if month == 10 then 273 else if month == 11 then 304 else if month == 12 then 334
    else 365
  }

  /** Days of year `y` before the first of the month; month 13 is the whole year. */
  function MonthStart(y: int, month: int): int
    requires 1 <= month <= 13
  {
    DaysBefore(month) + if month >= 3 then LeapDay(y) else 0
  }

  /** The day number time.Date computes: days beyond the month simply count on. */
  function DayNumber(y: int, month: int, day: int): int
    requires 1 <= month <= 12
  {
    YearStart(y) + MonthStart(y, month) + day - 1
  }

  /** The instant of a local date and clock (in seconds since midnight). */
  function Date(y: int, month: int, day: int, clock: int, zone: int): int
    requires 1 <= month <= 12
  {
    DayNumber(y, month, day) * DAY + (clock - zone) * SECOND
  }

  lemma YearLength(y: int)
    ensures YearStart(y + 1) == YearStart(y) + 365 + LeapDay(y)
  {
    var n := y - 1;
    assert (n + 1) / 4 == n / 4 + (if (n + 1) % 4 == 0 then 1 else 0);
    assert (n + 1) / 100 == n / 100 + (if (n + 1) % 100 == 0 then 1 else 0);
    assert (n + 1) / 400 == n / 400 + (if (n + 1) % 400 == 0 then 1 else 0);
    assert y % 400 == 0 ==> y % 100 == 0;
    assert y % 100 == 0 ==> y % 4 == 0;
  }

  // ---- the calendar as everyone knows it ----

  /** The length of a month. */
  function MonthDays(y: int, month: int): (n: int)
    ensures 28 <= n <= 31
  {
    if month == 4 || month == 6 || month == 9 || month == 11 then 30
    else if month != 2 then 31
    else if y % 4 == 0 && (y % 100 != 0 || y % 400 == 0) then 29
    else 28
  }

  /** The first of the next month is the length of the month later, and January follows December. */
  lemma MonthLength(y: int, month: int, day: int, clock: int, zone: int)
    requires 1 <= month <= 12
    ensures var next := if month < 12 then Date(y, month + 1, day, clock, zone) else Date(y + 1, 1, day, clock, zone);
      next - Date(y, month, day, clock, zone) == MonthDays(y, month) * 86_400_000_000_000
  {
    if month == 12 {
      YearLength(y);
    }
  }

  /**
    Within a month days are 24 hours apart; the clock counts seconds from midnight, and a zone
    further east reaches the same date and clock earlier.
   */
  lemma DateWithinMonth(y: int, month: int, day: int, clock: int, zone: int)
    requires 1 <= month <= 12
    ensures Date(y, month, day, clock, zone)
         == Date(y, month, 1, 0, 0) + (day - 1) * 86_400_000_000_000 + clock * 1_000_000_000 - zone * 1_000_000_000
  {
  }

  /** Instants count from the start of year 1, which puts 1970 where Unix time begins. */
  lemma Epoch()
    ensures Date(1, 1, 1, 0, 0) == 0
    ensures Date(1970, 1, 1, 0, 0) == 62_135_596_800 * 1_000_000_000
  {
  }

  function SearchYear(y: int, day: int): (r: int)
    ensures YearStart(r) <= day < YearStart(r + 1)
    decreases day < YearStart(y), if day < YearStart(y) then YearStart(y) - day else day - YearStart(y)
  {
    if day < YearStart(y) then YearLength(y - 1); SearchYear(y - 1, day)
    else if day >= YearStart(y + 1) then YearLength(y); SearchYear(y + 1, day)
    else y
  }

  /** The year a day number lies in. */
  function YearOfDay(day: int): (y: int)
    ensures YearStart(y) <= day < YearStart(y + 1)
  {
    SearchYear(1, day)
  }

  /** The local day number of an instant. */
  function LocalDay(t: int, zone: int): (d: int)
    ensures d * DAY <= t + zone * SECOND < (d + 1) * DAY
  {
    (t + zone * SECOND) / DAY
  }

  function LocalYear(t: int, zone: int): int {
    YearOfDay(LocalDay(t, zone))
  }

  lemma {:induction false} YearStartsApart(a: int, b: int)
    requires a <= b
    ensures YearStart(b) >= YearStart(a) + 365 * (b - a)
    decreases b - a
  {
    if a < b {
      YearStartsApart(a, b - 1);
      YearLength(b - 1);
    }
  }

  lemma YearIsUnique(day: int, y: int)
    requires YearStart(y) <= day < YearStart(y + 1)
    ensures YearOfDay(day) == y
  {
    var r := YearOfDay(day);
    if r < y {
      YearStartsApart(r + 1, y);
    } else if y < r {
      YearStartsApart(y + 1, r);
    }
  }

  // ---- reducing an instant to what the log line shows ----

  function SearchMonth(y: int, dayOfYear: int, month: int): (m: int)
    requires 1 <= month <= 12 && 0 <= dayOfYear < MonthStart(y, month + 1)
    ensures 1 <= m <= 12 && MonthStart(y, m) <= dayOfYear < MonthStart(y, m + 1)
    decreases month
  {
    if MonthStart(y, month) <= dayOfYear then month else SearchMonth(y, dayOfYear, month - 1)
  }

  datatype Shown = Shown(month: int, day: int, clock: int)

  /** Month, day of month and clock of an instant, as a log line shows them. */
  function Show(t: int, zone: int): (s: Shown)
    ensures 1 <= s.month <= 12 && 1 <= s.day <= 31 && 0 <= s.clock < DAY_SECONDS
  {
    var day := LocalDay(t, zone);
    var y := YearOfDay(day);
    YearLength(y);
    var month := SearchMonth(y, day - YearStart(y), 12);
    var clock := (t + zone * SECOND - day * DAY) / SECOND;
    Shown(month, day - YearStart(y) - MonthStart(y, month) + 1, clock)
  }

  lemma WholeSeconds(t: int, zone: int, day: int)
    requires t % SECOND == 0
    ensures var rest := t + zone * SECOND - day * DAY; rest / SECOND * SECOND == rest
  {
    var q := t / SECOND + zone - day * DAY_SECONDS;
    assert t == t / SECOND * SECOND;
    assert t + zone * SECOND - day * DAY == q * SECOND;
  }

  /** A whole-second instant is the date of its own year, month, day and clock. */
  lemma ShowIsDate(t: int, zone: int)
    requires t % SECOND == 0
    ensures var s := Show(t, zone); Date(LocalYear(t, zone), s.month, s.day, s.clock, zone) == t
  {
    var day := LocalDay(t, zone);
    var y := YearOfDay(day);
    YearLength(y);
    var s := Show(t, zone);
    assert DayNumber(y, s.month, s.day) == day;
    WholeSeconds(t, zone, day);
  }

  /** The local year of an instant, and that what is shown of it is a real day of a real month. */
  lemma ShownInMonth(t: int, zone: int)
    ensures var y, s := LocalYear(t, zone), Show(t, zone);
      && Date(y, 1, 1, 0, zone) <= t < Date(y + 1, 1, 1, 0, zone)
      && 1 <= s.day <= MonthDays(y, s.month)
      && Date(y, s.month, s.day, s.clock, zone) <= t < Date(y, s.month, s.day, s.clock + 1, zone)
  {
    var day := LocalDay(t, zone);
    var y := YearOfDay(day);
    YearLength(y);
    var s := Show(t, zone);
    assert DayNumber(y, s.month, s.day) == day;
    LocalYearBounds(t, zone, day, YearStart(y), YearStart(y + 1));
    var rest := t + zone * SECOND - day * DAY;
    assert s.clock == rest / SECOND;
    assert rest / SECOND * SECOND <= rest < (rest / SECOND + 1) * SECOND;
  }

  lemma LocalYearBounds(t: int, zone: int, day: int, start: int, next: int)
    requires day * DAY <= t + zone * SECOND < (day + 1) * DAY && start <= day < next
    ensures start * DAY - zone * SECOND <= t < next * DAY - zone * SECOND
  {
  }

  // ---- inference ----

  function Distance(t: int, now: int): int {
    if t - now < 0 then now - t else t - now
  }

  function Nearer(best: int, candidate: int, now: int): int {
    if Distance(candidate, now) < Distance(best, now) then candidate else best
  }

  /** The best of this, last and next year's candidate, in the order they are tried. */
  function Pick(candidate: int -> int, y: int, now: int): int {
    Nearer(Nearer(candidate(y), candidate(y - 1), now), candidate(y + 1), now)
  }

  /** The instant each year gives to a month, day and clock. */
  function Candidates(month: int, day: int, clock: int, zone: int): int -> int
    requires 1 <= month <= 12
  {
    (y: int) => Date(y, month, day, clock, zone)
  }

  function Infer(now: int, zone: int, month: int, day: int, clock: int): int
    requires 1 <= month <= 12
  {
    Pick(Candidates(month, day, clock, zone), LocalYear(now, zone), now)
  }

  // Candidates a little over a year apart, whatever they are.

  ghost predicate Spaced(candidate: int -> int) {
    forall a, b :: b == a + 1 ==> 365 * DAY <= candidate(b) - candidate(a) <= 366 * DAY
  }

  lemma {:induction false} SpacedFar(candidate: int -> int, a: int, b: int)
    requires Spaced(candidate) && a < b
    ensures candidate(b) - candidate(a) >= 365 * DAY
    decreases b - a
  {
    if a + 1 < b {
      SpacedFar(candidate, a, b - 1);
      assert candidate(b) - candidate(b - 1) >= 365 * DAY;
    }
  }

  lemma PickIsBestOfThree(candidate: int -> int, y: int, now: int) returns (year: int)
    ensures var best := Pick(candidate, y, now);
      && y - 1 <= year <= y + 1 && best == candidate(year)
      && Distance(best, now) <= Distance(candidate(y - 1), now)
      && Distance(best, now) <= Distance(candidate(y), now)
      && Distance(best, now) <= Distance(candidate(y + 1), now)
  {
    var best := Pick(candidate, y, now);
    year := if best == candidate(y) then y else if best == candidate(y - 1) then y - 1 else y + 1;
  }

  /** Now is not far beyond the outer two of the three candidates tried. */
  predicate Enclosed(candidate: int -> int, y: int, now: int) {
    candidate(y - 1) <= now + 70 * DAY && candidate(y + 1) >= now - 2 * DAY
  }

  lemma PickIsNearest(candidate: int -> int, y: int, now: int, other: int)
    requires Spaced(candidate) && Enclosed(candidate, y, now)
    ensures Distance(Pick(candidate, y, now), now) <= Distance(candidate(other), now)
  {
    var _ := PickIsBestOfThree(candidate, y, now);
    if other < y - 1 {
      SpacedFar(candidate, other, y - 1);
    } else if other > y + 1 {
      SpacedFar(candidate, y + 1, other);
    }
  }

  lemma PickIsWithin(candidate: int -> int, y: int, now: int)
    requires Spaced(candidate) && Enclosed(candidate, y, now)
    ensures Distance(Pick(candidate, y, now), now) <= 183 * DAY
  {
    var _ := PickIsBestOfThree(candidate, y, now);
    assert candidate(y) - candidate(y - 1) <= 366 * DAY;
    assert candidate(y + 1) - candidate(y) <= 366 * DAY;
  }

  lemma PickIsOwn(candidate: int -> int, y: int, now: int, own: int)
    requires Spaced(candidate) && Enclosed(candidate, y, now)
    requires 2 * Distance(candidate(own), now) < 365 * DAY
    ensures Pick(candidate, y, now) == candidate(own)
  {
    var year := PickIsBestOfThree(candidate, y, now);
    PickIsNearest(candidate, y, now, own);
    if year < own {
      SpacedFar(candidate, year, own);
      assert false;
    } else if own < year {
      SpacedFar(candidate, own, year);
      assert false;
    }
  }

  // ---- the candidates of a log line ----

  /** Two consecutive years put the same month, day and clock 365 or 366 days apart, normalised or not. */
  lemma CandidatesApart(y: int, month: int, day: int, clock: int, zone: int)
    requires 1 <= month <= 12
    ensures var gap := Date(y + 1, month, day, clock, zone) - Date(y, month, day, clock, zone);
      gap == 365 * DAY || gap == 366 * DAY
  {
    YearLength(y);
    YearLength(y + 1);
    var gap := DayNumber(y + 1, month, day) - DayNumber(y, month, day);
    assert gap == 365 || gap == 366;
  }

  lemma CandidatesSpaced(month: int, day: int, clock: int, zone: int)
    requires 1 <= month <= 12
    ensures Spaced(Candidates(month, day, clock, zone))
  {
    var candidate := Candidates(month, day, clock, zone);
    forall a, b | b == a + 1 ensures 365 * DAY <= candidate(b) - candidate(a) <= 366 * DAY {
      CandidatesApart(a, month, day, clock, zone);
    }
  }

  /** What the line pattern and the clock parser let through. */
  predicate ParsedFields(month: int, day: int, clock: int) {
    1 <= month <= 12 && 0 <= day <= 99 && 0 <= clock < DAY_SECONDS
  }

  /** Where now lies relative to the outer candidates tried, even when days overflow the month. */
  lemma CandidatesEnclose(now: int, zone: int, month: int, day: int, clock: int)
    requires ParsedFields(month, day, clock)
    ensures Enclosed(Candidates(month, day, clock, zone), LocalYear(now, zone), now)
  {
    var y := LocalYear(now, zone);
    YearLength(y - 1);
    DayNumberBounds(y - 1, month, day);
    DayNumberBounds(y + 1, month, day);
    EncloseArithmetic(now, zone, clock, LocalDay(now, zone), YearStart(y), YearStart(y + 1),
                      DayNumber(y - 1, month, day), DayNumber(y + 1, month, day));
  }

  lemma DayNumberBounds(y: int, month: int, day: int)
    requires 1 <= month <= 12 && 0 <= day <= 99
    ensures YearStart(y) - 1 <= DayNumber(y, month, day) <= YearStart(y) + 433
  {
  }

  lemma EncloseArithmetic(now: int, zone: int, clock: int, today: int, start: int, next: int, before: int, after: int)
    requires today * DAY <= now + zone * SECOND < (today + 1) * DAY && start <= today < next
    requires 0 <= clock < DAY_SECONDS && before <= start - 365 + 433 && next - 1 <= after
    ensures before * DAY + (clock - zone) * SECOND <= now + 70 * DAY
    ensures after * DAY + (clock - zone) * SECOND >= now - 2 * DAY
  {
    assert before * DAY <= (today + 68) * DAY;
    assert after * DAY >= today * DAY;
  }

  /**
    The chosen instant is at least as near to now as that of any year at all, for every
    month, every day the line pattern admits (0 to 99) and every clock.
   */
  lemma NearestOfAllYears(now: int, zone: int, month: int, day: int, clock: int, other: int)
    requires ParsedFields(month, day, clock)
    ensures Distance(Infer(now, zone, month, day, clock), now) <= Distance(Date(other, month, day, clock, zone), now)
  {
    CandidatesSpaced(month, day, clock, zone);
    CandidatesEnclose(now, zone, month, day, clock);
    PickIsNearest(Candidates(month, day, clock, zone), LocalYear(now, zone), now, other);
  }

  /** The chosen instant lies within 183 days of now. */
  lemma WithinHalfYear(now: int, zone: int, month: int, day: int, clock: int)
    requires ParsedFields(month, day, clock)
    ensures Distance(Infer(now, zone, month, day, clock), now) <= 183 * DAY
  {
    CandidatesSpaced(month, day, clock, zone);
    CandidatesEnclose(now, zone, month, day, clock);
    PickIsWithin(Candidates(month, day, clock, zone), LocalYear(now, zone), now);
  }

  /**
    Round trip: any whole-second instant less than 182.5 days from now, reduced to month, day
    and clock, is recovered exactly; the 29th of February and year ends included.
   */
  lemma RoundTrip(now: int, zone: int, t: int)
    requires t % SECOND == 0 && 2 * Distance(t, now) < 365 * DAY
    ensures var s := Show(t, zone); Infer(now, zone, s.month, s.day, s.clock) == t
  {
    var s := Show(t, zone);
    var candidate := Candidates(s.month, s.day, s.clock, zone);
    ShowIsDate(t, zone);
    assert candidate(LocalYear(t, zone)) == t;
    CandidatesSpaced(s.month, s.day, s.clock, zone);
    CandidatesEnclose(now, zone, s.month, s.day, s.clock);
    PickIsOwn(candidate, LocalYear(now, zone), now, LocalYear(t, zone));
  }

  /**
    The same from the other side: whatever year a line was written in, its instant is the one
    inferred as long as the line is read less than 182.5 days before or after it.
   */
  lemma WrittenYearIsFound(now: int, zone: int, y: int, month: int, day: int, clock: int)
    requires ParsedFields(month, day, clock)
    requires -365 * DAY < 2 * (Date(y, month, day, clock, zone) - now) < 365 * DAY
    ensures Infer(now, zone, month, day, clock) == Date(y, month, day, clock, zone)
  {
    CandidatesSpaced(month, day, clock, zone);
    CandidatesEnclose(now, zone, month, day, clock);
    PickIsOwn(Candidates(month, day, clock, zone), LocalYear(now, zone), now, y);
  }

  /**
    The bound is sharp: seen from midnight of 1 December 2025, noon of 1 June 2026 is exactly
    182.5 days away and is taken for noon of 1 June 2025.
   */
  lemma HalfYearIsAmbiguous()
    ensures var now, t := Date(2025, 12, 1, 0, 0), Date(2026, 6, 1, 43_200, 0);
      && 2 * Distance(t, now) == 365 * DAY
      && Infer(now, 0, 6, 1, 43_200) == Date(2025, 6, 1, 43_200, 0) != t
  {
    var now := Date(2025, 12, 1, 0, 0);
    var day := DayNumber(2025, 12, 1);
    assert LocalDay(now, 0) == day;
    YearIsUnique(day, 2025);
  }

  method AbsDuration(value: int) returns (r: int)
    ensures r == Distance(value, 0) && r >= 0 && (r == value || r == -value)
  {
    if value < 0 {
      return -value;
    }
    return value;
  }

  /** The loop over the neighbouring years, keeping the best candidate so far. */
  method ChooseNearest(candidates: int -> int, year: int, now: int) returns (best: int)
    ensures best == Pick(candidates, year, now)
  {
    best := candidates(year);
    var bestDistance := AbsDuration(best - now);
    var years := [year - 1, year + 1];
    var i := 0;
    while i < |years|
      invariant 0 <= i <= 2
      invariant bestDistance == Distance(best, now)
      invariant i == 0 ==> best == candidates(year)
      invariant i == 1 ==> best == Nearer(candidates(year), candidates(year - 1), now)
      invariant i == 2 ==> best == Pick(candidates, year, now)
    {
      var candidate := candidates(years[i]);
      var distance := AbsDuration(candidate - now);
      if distance < bestDistance {
        best, bestDistance := candidate, distance;
      }
      i := i + 1;
    }
  }

  method InferLegacyTimestamp(now: int, zone: int, month: int, day: int, clock: int) returns (best: int)
    requires ParsedFields(month, day, clock)
    ensures best == Infer(now, zone, month, day, clock)
    ensures forall y :: Distance(best, now) <= Distance(Date(y, month, day, clock, zone), now)
    ensures now - 183 * DAY <= best <= now + 183 * DAY
  {
    best := ChooseNearest(Candidates(month, day, clock, zone), LocalYear(now, zone), now);
    forall y ensures Distance(best, now) <= Distance(Date(y, month, day, clock, zone), now) {
      NearestOfAllYears(now, zone, month, day, clock, y);
    }
    WithinHalfYear(now, zone, month, day, clock);
  }
}
