/** The part of Go's `time` package the core relies on: instants as nanoseconds since the
    Unix epoch, the US Eastern ("America/New_York") wall clock as a fixed UTC offset, calendar
    day numbers, weekdays and proleptic Gregorian (year, month, day) dates. */
module Calendar {

  const NanosPerSecond: int := 1_000_000_000
  const NanosPerDay: int := 86_400_000_000_000

  /** An absolute instant: nanoseconds since 1970-01-01T00:00:00Z. */
  type Instant = int

  /** Go's zero `time.Time` (0001-01-01T00:00:00Z), the value `IsZero` recognises. */
  const ZeroTime: Instant := -62_135_596_800 * NanosPerSecond

  /** A time zone with a constant offset from UTC, in nanoseconds (east positive). */
  datatype Zone = Zone(offset: int)

  /** The calendar day, counted from 1970-01-01 in that zone, on which `t` falls. */
  function LocalDay(z: Zone, t: Instant): int
  {
    (t + z.offset) / NanosPerDay
  }

  /** Nanoseconds elapsed since local midnight at `t`. */
  function LocalNanoOfDay(z: Zone, t: Instant): int
  {
    (t + z.offset) % NanosPerDay
  }

  /** The instant at which local day `d` begins in zone `z`. */
  function StartOfDay(z: Zone, d: int): (t: Instant)
    ensures LocalDay(z, t) == d && LocalNanoOfDay(z, t) == 0
  {
    d * NanosPerDay - z.offset
  }

  /** Midnight at the start of the local day of `t` (`truncateToLocationDay`). */
  function TruncateToDay(z: Zone, t: Instant): (r: Instant)
    ensures r <= t < r + NanosPerDay
    ensures LocalDay(z, r) == LocalDay(z, t) && LocalNanoOfDay(z, r) == 0
  {
    StartOfDay(z, LocalDay(z, t))
  }

  /** The previous local day begins exactly one day earlier. */
  lemma StartOfPreviousDay(z: Zone, d: int)
    ensures StartOfDay(z, d - 1) == StartOfDay(z, d) - NanosPerDay
  {
  }

  /** Later days begin later, by a whole number of days. */
  lemma StartOfDayMonotone(z: Zone, d1: int, d2: int)
    requires d1 < d2
    ensures StartOfDay(z, d1) < StartOfDay(z, d2)
    ensures StartOfDay(z, d2) - StartOfDay(z, d1) == (d2 - d1) * NanosPerDay
  {
  }

  const Sunday := 0
  const Saturday := 6

  /** Go's `Weekday` numbering (Sunday = 0); 1970-01-01 was a Thursday. */
  function Weekday(d: int): (w: int)
    ensures 0 <= w < 7
  {
    (d + 4) % 7
  }

  /** 1970-01-01 (day 0) was a Thursday, and each day's weekday follows the previous one's,
      Saturday wrapping round to Sunday. */
  lemma WeekdaySuccession(d: int)
    ensures Weekday(0) == 4
    ensures Weekday(d + 1) == if Weekday(d) == Saturday then Sunday else Weekday(d) + 1
  {
  }

  datatype Date = Date(year: int, month: int, day: int)

  /** Full years elapsed in a 400-year era that starts on 1 March, given the day of the era. */
  function YearOfEra(doe: int): int
  {
    (doe - doe / 1460 + doe / 36524 - doe / 146096) / 365
  }

  /** Days elapsed in the March-based year `yoe` of the era, given the day of the era. */
  function DayOfYear(doe: int, yoe: int): int
  {
    doe - (365 * yoe + yoe / 4 - yoe / 100)
  }

  lemma EraBounds(doe: int)
    requires 0 <= doe < 146097
    ensures 0 <= YearOfEra(doe) < 400
    ensures 0 <= DayOfYear(doe, YearOfEra(doe)) <= 365
  {
    if doe == 146096 {
      assert YearOfEra(doe) == 399;
    } else {
      // split the era into centuries, four-year cycles and single years
      var c := doe / 36524;
      var w := doe - 36524 * c;
      var f := w / 1461;
      var g := w - 1461 * f;
      assert 0 <= c <= 3 && 0 <= f <= 24 && 0 <= g <= 1460;
      var delta := (24 * c + f + g) / 1460;
      assert doe / 1460 == 25 * c + f + delta;
      assert doe / 146096 == 0;
      var k := (g - delta) / 365;
      assert 0 <= k <= 3;
      var yoe := 100 * c + 4 * f + k;
      assert YearOfEra(doe) == yoe;
      assert yoe / 4 == 25 * c + f;
      assert yoe / 100 == c;
      assert DayOfYear(doe, yoe) == g - 365 * k;
    }
  }

  /** The Gregorian date of day number `d` (the date `time.Time.Date` reports). */
  function CivilFromDays(d: int): (r: Date)
    ensures 1 <= r.month <= 12 && 1 <= r.day <= 31
  {
    var z := d + 719_468;
    var era := z / 146_097;
    var doe := z - era * 146_097;
    EraBounds(doe);
    var yoe := YearOfEra(doe);
    DateOfEraDay(era, yoe, DayOfYear(doe, yoe))
  }

  /** The day number of a Gregorian date (the inverse of `CivilFromDays`). */
  function DaysFromCivil(date: Date): int
  {
    var y := if date.month <= 2 then date.year - 1 else date.year;
    var era := y / 400;
    var yoe := y - era * 400;
    var mp := if date.month > 2 then date.month - 3 else date.month + 9;
    var doy := (153 * mp + 2) / 5 + date.day - 1;
    var doe := yoe * 365 + yoe / 4 - yoe / 100 + doy;
    era * 146_097 + doe - 719_468
  }

  /** Every day number has its own date: converting to a date and back is the identity. */
  lemma CivilRoundTrip(d: int)
    ensures DaysFromCivil(CivilFromDays(d)) == d
  {
    var z := d + 719_468;
    var era := z / 146_097;
    var doe := z - era * 146_097;
    EraBounds(doe);
    var yoe := YearOfEra(doe);
    var doy := DayOfYear(doe, yoe);
    CivilFromDaysAt(d, era, doe, yoe, doy, (5 * doy + 2) / 153);
    EraDayToCivil(era, yoe, doy);
  }

  /** Converting an era day to a date and back gives the same era, year of era and day. */
  lemma EraDayToCivil(era: int, yoe: int, doy: int)
    requires 0 <= yoe < 400 && 0 <= doy <= 365
    ensures DaysFromCivil(DateOfEraDay(era, yoe, doy))
      == era * 146_097 + (yoe * 365 + yoe / 4 - yoe / 100 + doy) - 719_468
  {
    var mp := (5 * doy + 2) / 153;
    assert 0 <= mp < 12;
    var r := DateOfEraDay(era, yoe, doy);
    var y := yoe + era * 400;
    YearOfEraDivision(era, yoe);
    assert (if r.month <= 2 then r.year - 1 else r.year) == y;
    assert (if r.month > 2 then r.month - 3 else r.month + 9) == mp;
    assert (153 * mp + 2) / 5 + r.day - 1 == doy;
  }

  lemma YearOfEraDivision(era: int, yoe: int)
    requires 0 <= yoe < 400
    ensures (yoe + era * 400) / 400 == era
  {
  }

  /** The date of an era day, given the era, the year of the era and the day of that year. */
  function DateOfEraDay(era: int, yoe: int, doy: int): Date
  {
    var mp := (5 * doy + 2) / 153;
    var day := doy - (153 * mp + 2) / 5 + 1;
    var month := if mp < 10 then mp + 3 else mp - 9;
    var y := yoe + era * 400;
    Date(if month <= 2 then y + 1 else y, month, day)
  }

  /** Evaluates `CivilFromDays` on a given day from its era, day of era, year of era, day of
      year and March-based month. */
  lemma CivilFromDaysAt(d: int, era: int, doe: int, yoe: int, doy: int, mp: int)
    requires 0 <= doe < 146_097 && d + 719_468 == era * 146_097 + doe
    requires YearOfEra(doe) == yoe && DayOfYear(doe, yoe) == doy && (5 * doy + 2) / 153 == mp
    ensures CivilFromDays(d) == DateOfEraDay(era, yoe, doy)
  {
    assert (d + 719_468) / 146_097 == era;
  }

  /** Distinct days have distinct dates. */
  lemma CivilInjective(d1: int, d2: int)
    requires CivilFromDays(d1) == CivilFromDays(d2)
    ensures d1 == d2
  {
    CivilRoundTrip(d1);
    CivilRoundTrip(d2);
  }
}
