/** The proleptic Gregorian calendar in UTC, as pandas uses it to turn a
    `datetime64[ns, UTC]` instant into the year, month, day, hour, minute and
    second fields that `strftime` prints. Instants are whole seconds since
    1970-01-01 00:00:00 UTC. */
module Calendar {

  const SecondsPerDay := 86400

  /** The whole-second instants pandas can represent: a `datetime64[ns]`
      lies between 1677-09-21 00:12:43.145224193 and
      2262-04-11 23:47:16.854775807, whose second fields floor to these. */
  const MinSeconds := -9223372037
  const MaxSeconds := 9223372036

  predicate InPandasRange(t: int) {
    MinSeconds <= t <= MaxSeconds
  }

  predicate IsLeapYear(y: int) {
    (y % 4 == 0 && y % 100 != 0) || y % 400 == 0
  }

  function DaysInYear(y: int): int {
    if IsLeapYear(y) then 366 else 365
  }

  function DaysInMonth(y: int, m: int): int
    requires 1 <= m <= 12
  {
    if m == 2 then (if IsLeapYear(y) then 29 else 28)
    else if m == 4 || m == 6 || m == 9 || m == 11 then 30
    else 31
  }

  /** Days of year `y` that precede the first of month `m`; `m == 13`
      gives the length of the whole year. */
  function DaysBeforeMonth(y: int, m: int): int
    requires 1 <= m <= 13
  {
    var cumulative := [0, 31, 59, 90, 120, 151, 181, 212, 243, 273, 304, 334, 365];
    cumulative[m - 1] + (if m > 2 && IsLeapYear(y) then 1 else 0)
  }

  /** Number of leap years strictly before year `y`, counted from a fixed
      origin (differences of it count leap years in a range of years). */
  function LeapYearsBefore(y: int): int {
    (y - 1) / 4 - (y - 1) / 100 + (y - 1) / 400
  }

  /** Days from 1970-01-01 to January 1st of year `y`; negative before 1970. */
  function DaysBeforeYear(y: int): int {
    365 * (y - 1970) + LeapYearsBefore(y) - LeapYearsBefore(1970)
  }

  datatype Date = Date(year: int, month: int, day: int)

  datatype DateTime = DateTime(year: int, month: int, day: int, hour: int, minute: int, second: int)

  predicate ValidDate(d: Date) {
    1 <= d.month <= 12 && 1 <= d.day <= DaysInMonth(d.year, d.month)
  }

  /** A calendar date with a wall-clock time of day (no leap seconds, as in
      Python's `datetime`). */
  predicate Valid(dt: DateTime) {
    && ValidDate(Date(dt.year, dt.month, dt.day))
    && 0 <= dt.hour < 24 && 0 <= dt.minute < 60 && 0 <= dt.second < 60
  }

  /** Days from 1970-01-01 to `d`. */
  function DaysFromCivil(d: Date): int
    requires ValidDate(d)
  {
    DaysBeforeYear(d.year) + DaysBeforeMonth(d.year, d.month) + d.day - 1
  }

  /** Floor division by `k` steps up by one exactly at multiples of `k`. */
  lemma DivStep4(x: int)
    ensures x / 4 - (x - 1) / 4 == (if x % 4 == 0 then 1 else 0)
  {
  }

  lemma DivStep100(x: int)
    ensures x / 100 - (x - 1) / 100 == (if x % 100 == 0 then 1 else 0)
  {
  }

  lemma DivStep400(x: int)
    ensures x / 400 - (x - 1) / 400 == (if x % 400 == 0 then 1 else 0)
  {
  }

  /** Year `y` adds one leap day to the count exactly when it is a leap
      year. */
  lemma LeapStep(y: int)
    ensures LeapYearsBefore(y + 1) - LeapYearsBefore(y) == (if IsLeapYear(y) then 1 else 0)
  {
    DivStep4(y);
    DivStep100(y);
    DivStep400(y);
    Divisors(y);
  }

  /** A multiple of 400 is a multiple of 100, which is a multiple of 4. */
  lemma Divisors(y: int)
    ensures y % 400 == 0 ==> y % 100 == 0
    ensures y % 100 == 0 ==> y % 4 == 0
  {
    if y % 400 == 0 {
      MultipleOf400(y / 400);
    }
    if y % 100 == 0 {
      MultipleOf100(y / 100);
    }
  }

  lemma MultipleOf400(k: int)
    ensures (400 * k) % 100 == 0
  {
    assert 400 * k == 100 * (4 * k);
  }

  lemma MultipleOf100(k: int)
    ensures (100 * k) % 4 == 0
  {
    assert 100 * k == 4 * (25 * k);
  }

  lemma YearStep(y: int)
    ensures DaysBeforeYear(y + 1) == DaysBeforeYear(y) + DaysInYear(y)
  {
    LeapStep(y);
  }

  lemma FourCenturies(y: int)
    ensures DaysBeforeYear(y + 400) == DaysBeforeYear(y) + 146097
  {
    var x := y - 1;
    assert (x + 400) / 4 == x / 4 + 100;
    assert (x + 400) / 100 == x / 100 + 4;
    assert (x + 400) / 400 == x / 400 + 1;
  }

  lemma MonthStep(y: int, m: int)
    requires 1 <= m <= 12
    ensures DaysBeforeMonth(y, m + 1) == DaysBeforeMonth(y, m) + DaysInMonth(y, m)
    ensures DaysBeforeMonth(y, 13) == DaysInYear(y)
  {
  }

  /** Later years start later: January 1st is strictly increasing in the
      year. */
  lemma {:induction false} YearMonotone(a: int, b: int)
    requires a < b
    ensures DaysBeforeYear(a + 1) <= DaysBeforeYear(b)
    decreases b - a
  {
    if a + 1 < b {
      YearMonotone(a + 1, b);
      YearStep(a + 1);
    }
  }

  lemma MonthMonotone(y: int, a: int, b: int)
    requires 1 <= a < b <= 12
    ensures DaysBeforeMonth(y, a + 1) <= DaysBeforeMonth(y, b)
  {
  }

  /** The year containing day `z`, searched upward from `y`. */
  function FindYear(z: int, y: int, bound: int): (r: int)
    requires y <= bound
    requires DaysBeforeYear(y) <= z < DaysBeforeYear(bound)
    ensures y <= r < bound
    ensures DaysBeforeYear(r) <= z < DaysBeforeYear(r + 1)
    decreases bound - y
  {
    if z < DaysBeforeYear(y + 1) then y else FindYear(z, y + 1, bound)
  }

  /** The month containing day-of-year `doy`, searched upward from `m`. */
  function FindMonth(y: int, doy: int, m: int): (r: int)
    requires 1 <= m <= 12
    requires DaysBeforeMonth(y, m) <= doy < DaysInYear(y)
    ensures m <= r <= 12
    ensures DaysBeforeMonth(y, r) <= doy < DaysBeforeMonth(y, r + 1)
    decreases 12 - m
  {
    if m == 12 || doy < DaysBeforeMonth(y, m + 1) then m else FindMonth(y, doy, m + 1)
  }

  lemma CycleDays(c: int)
    ensures DaysBeforeYear(2000 + 400 * c) == DaysBeforeYear(2000) + 146097 * c
  {
    var x := 1999 + 400 * c;
    assert x / 4 == 499 + 100 * c;
    assert x / 100 == 19 + 4 * c;
    assert x / 400 == 4 + c;
  }

  /** January 1st of the first year of the 400-year cycle holding day
      `z`, counted from 2000 (the calendar repeats every 146097 days). */
  function CycleStart(z: int): (y: int)
    ensures DaysBeforeYear(y) <= z < DaysBeforeYear(y + 400)
  {
    var cycles := (z - DaysBeforeYear(2000)) / 146097;
    var y := 2000 + 400 * cycles;
    CycleDays(cycles);
    FourCenturies(y);
    y
  }

  /** The date of day `doy` (counted from 0) of year `y`. */
  function DateInYear(y: int, doy: int): (d: Date)
    requires 0 <= doy < DaysInYear(y)
    ensures ValidDate(d) && d.year == y
    ensures DaysBeforeMonth(y, d.month) + d.day - 1 == doy
  {
    MonthStep(y, 1);
    var m := FindMonth(y, doy, 1);
    MonthStep(y, m);
    Date(y, m, doy - DaysBeforeMonth(y, m) + 1)
  }

  /** The date `z` days after 1970-01-01 (before it when `z` is negative). */
  function DateFromDays(z: int): (d: Date)
    ensures ValidDate(d)
    ensures DaysFromCivil(d) == z
  {
    var base := CycleStart(z);
    var y := FindYear(z, base, base + 400);
    YearStep(y);
    DateInYear(y, z - DaysBeforeYear(y))
  }

  /** A valid date lies inside its own year. */
  lemma DateWithinYear(d: Date)
    requires ValidDate(d)
    ensures DaysBeforeYear(d.year) <= DaysFromCivil(d) < DaysBeforeYear(d.year + 1)
  {
    MonthStep(d.year, d.month);
    YearStep(d.year);
  }

  /** Distinct valid dates are distinct days. */
  lemma DaysFromCivilInjective(a: Date, b: Date)
    requires ValidDate(a) && ValidDate(b)
    requires DaysFromCivil(a) == DaysFromCivil(b)
    ensures a == b
  {
    DateWithinYear(a);
    DateWithinYear(b);
    if a.year < b.year {
      YearMonotone(a.year, b.year);
    } else if b.year < a.year {
      YearMonotone(b.year, a.year);
    }
    assert a.year == b.year;
    MonthStep(a.year, a.month);
    MonthStep(b.year, b.month);
    if a.month < b.month {
      MonthMonotone(a.year, a.month, b.month);
    } else if b.month < a.month {
      MonthMonotone(a.year, b.month, a.month);
    }
  }

  /** Counting days and reading the date back gives the date again. */
  lemma DateRoundTrip(d: Date)
    requires ValidDate(d)
    ensures DateFromDays(DaysFromCivil(d)) == d
  {
    DaysFromCivilInjective(DateFromDays(DaysFromCivil(d)), d);
  }

  /** Seconds since the epoch of a valid date and time. */
  function ToSeconds(dt: DateTime): int
    requires Valid(dt)
  {
    DaysFromCivil(Date(dt.year, dt.month, dt.day)) * SecondsPerDay
      + dt.hour * 3600 + dt.minute * 60 + dt.second
  }

  /** Splitting a second of the day into hour, minute and second. */
  lemma TimeOfDay(sod: int)
    requires 0 <= sod < SecondsPerDay
    ensures 0 <= sod / 3600 < 24 && 0 <= sod % 3600 / 60 < 60
    ensures sod == sod / 3600 * 3600 + sod % 3600 / 60 * 60 + sod % 60
  {
  }

  /** The UTC wall-clock fields of instant `t`. */
  function FromSeconds(t: int): (dt: DateTime)
    ensures Valid(dt)
    ensures ToSeconds(dt) == t
  {
    var d := DateFromDays(t / SecondsPerDay);
    var sod := t % SecondsPerDay;
    TimeOfDay(sod);
    DateTime(d.year, d.month, d.day, sod / 3600, sod % 3600 / 60, sod % 60)
  }

  lemma DayAndSecond(days: int, sod: int)
    requires 0 <= sod < SecondsPerDay
    ensures (days * SecondsPerDay + sod) / SecondsPerDay == days
    ensures (days * SecondsPerDay + sod) % SecondsPerDay == sod
  {
  }

  lemma TimeOfDayRoundTrip(h: int, mi: int, s: int)
    requires 0 <= h < 24 && 0 <= mi < 60 && 0 <= s < 60
    ensures var sod := h * 3600 + mi * 60 + s;
            sod / 3600 == h && sod % 3600 / 60 == mi && sod % 60 == s
  {
  }

  /** Distinct valid dates and times are distinct instants. */
  lemma ToSecondsInjective(a: DateTime, b: DateTime)
    requires Valid(a) && Valid(b)
    requires ToSeconds(a) == ToSeconds(b)
    ensures a == b
  {
    var da, db := Date(a.year, a.month, a.day), Date(b.year, b.month, b.day);
    var sa := a.hour * 3600 + a.minute * 60 + a.second;
    var sb := b.hour * 3600 + b.minute * 60 + b.second;
    DayAndSecond(DaysFromCivil(da), sa);
    DayAndSecond(DaysFromCivil(db), sb);
    DaysFromCivilInjective(da, db);
    TimeOfDayRoundTrip(a.hour, a.minute, a.second);
    TimeOfDayRoundTrip(b.hour, b.minute, b.second);
  }

  /** Every valid date and time is the field set of the instant it converts
      to; `FromSecondsInjective` adds that no other instant has those fields. */
  lemma FromSecondsRoundTrip(dt: DateTime)
    requires Valid(dt)
    ensures FromSeconds(ToSeconds(dt)) == dt
  {
    ToSecondsInjective(FromSeconds(ToSeconds(dt)), dt);
  }

  /** Distinct instants have distinct wall-clock fields. */
  lemma FromSecondsInjective(s: int, t: int)
    ensures FromSeconds(s) == FromSeconds(t) <==> s == t
  {
  }

  /** The days pandas can hold: 1677-09-21 .. 2262-04-11. */
  lemma PandasDays(t: int)
    requires InPandasRange(t)
    ensures -106752 <= t / SecondsPerDay <= 106751
  {
  }

  lemma PandasYearStarts()
    ensures DaysBeforeYear(1677) == -107015
    ensures DaysBeforeYear(2263) == 107016
  {
  }

  /** Every instant pandas can hold falls in a four-digit year. */
  lemma PandasRangeYears(t: int)
    requires InPandasRange(t)
    ensures 1677 <= FromSeconds(t).year <= 2262
  {
    var z := t / SecondsPerDay;
    var d := DateFromDays(z);
    assert FromSeconds(t).year == d.year;
    PandasDays(t);
    PandasYearStarts();
    DateWithinYear(d);
    if d.year < 1677 {
      YearMonotone(d.year, 1677);
    }
    if d.year > 2262 {
      YearMonotone(2262, d.year);
    }
  }
}
