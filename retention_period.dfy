/** The trading-day calendar of utils/retention_period.go: which US-Eastern calendar days the
    market is open, and how far back a retention period of `n` trading days reaches. Days are
    day numbers of the Eastern calendar (see `Calendar.LocalDay`). */
module RetentionPeriod {
  import opened Calendar

  /** The full-day market closures of 2025, as listed in `IsMarketHoliday`. */
  const Holidays: seq<Date> := [
    Date(2025, 1, 1), Date(2025, 1, 20), Date(2025, 2, 17), Date(2025, 4, 18),
    Date(2025, 5, 26), Date(2025, 6, 19), Date(2025, 7, 4), Date(2025, 9, 1),
    Date(2025, 11, 27), Date(2025, 12, 25)]

  /** The day numbers of the listed holidays. */
  const HolidayDays: set<int> := {20089, 20108, 20136, 20196, 20234, 20258, 20273, 20332, 20419, 20447}

  /** The market is open on day `d`: neither a Saturday, a Sunday nor a listed holiday. */
  predicate IsOpen(d: int)
  {
    Weekday(d) != Saturday && Weekday(d) != Sunday && d !in HolidayDays
  }

  // The dates of the holiday day numbers, one lemma per holiday.

  lemma NewYearsDay()
    ensures CivilFromDays(20089) == Date(2025, 1, 1) && DaysFromCivil(Date(2025, 1, 1)) == 20089
  {
    CivilFromDaysAt(20089, 5, 9072, 24, 306, 10);
  }

  lemma MartinLutherKingJrDay()
    ensures CivilFromDays(20108) == Date(2025, 1, 20) && DaysFromCivil(Date(2025, 1, 20)) == 20108
  {
    CivilFromDaysAt(20108, 5, 9091, 24, 325, 10);
  }

  lemma WashingtonsBirthday()
    ensures CivilFromDays(20136) == Date(2025, 2, 17) && DaysFromCivil(Date(2025, 2, 17)) == 20136
  {
    CivilFromDaysAt(20136, 5, 9119, 24, 353, 11);
  }

  lemma GoodFriday()
    ensures CivilFromDays(20196) == Date(2025, 4, 18) && DaysFromCivil(Date(2025, 4, 18)) == 20196
  {
    CivilFromDaysAt(20196, 5, 9179, 25, 48, 1);
  }

  lemma MemorialDay()
    ensures CivilFromDays(20234) == Date(2025, 5, 26) && DaysFromCivil(Date(2025, 5, 26)) == 20234
  {
    CivilFromDaysAt(20234, 5, 9217, 25, 86, 2);
  }

  lemma Juneteenth()
    ensures CivilFromDays(20258) == Date(2025, 6, 19) && DaysFromCivil(Date(2025, 6, 19)) == 20258
  {
    CivilFromDaysAt(20258, 5, 9241, 25, 110, 3);
  }

  lemma IndependenceDay()
    ensures CivilFromDays(20273) == Date(2025, 7, 4) && DaysFromCivil(Date(2025, 7, 4)) == 20273
  {
    CivilFromDaysAt(20273, 5, 9256, 25, 125, 4);
  }

  lemma LaborDay()
    ensures CivilFromDays(20332) == Date(2025, 9, 1) && DaysFromCivil(Date(2025, 9, 1)) == 20332
  {
    CivilFromDaysAt(20332, 5, 9315, 25, 184, 6);
  }

  lemma ThanksgivingDay()
    ensures CivilFromDays(20419) == Date(2025, 11, 27) && DaysFromCivil(Date(2025, 11, 27)) == 20419
  {
    CivilFromDaysAt(20419, 5, 9402, 25, 271, 8);
  }

  lemma ChristmasDay()
    ensures CivilFromDays(20447) == Date(2025, 12, 25) && DaysFromCivil(Date(2025, 12, 25)) == 20447
  {
    CivilFromDaysAt(20447, 5, 9430, 25, 299, 9);
  }

  lemma HolidayDaysOfDates()
    ensures forall i :: 0 <= i < |Holidays| ==> DaysFromCivil(Holidays[i]) in HolidayDays
  {
    forall i | 0 <= i < |Holidays| ensures DaysFromCivil(Holidays[i]) in HolidayDays {
      var h := Holidays[i];
      if i == 0 { assert h == Date(2025, 1, 1); NewYearsDay(); }
      else if i == 1 { assert h == Date(2025, 1, 20); MartinLutherKingJrDay(); }
      else if i == 2 { assert h == Date(2025, 2, 17); WashingtonsBirthday(); }
      else if i == 3 { assert h == Date(2025, 4, 18); GoodFriday(); }
      else if i == 4 { assert h == Date(2025, 5, 26); MemorialDay(); }
      else if i == 5 { assert h == Date(2025, 6, 19); Juneteenth(); }
      else if i == 6 { assert h == Date(2025, 7, 4); IndependenceDay(); }
      else if i == 7 { assert h == Date(2025, 9, 1); LaborDay(); }
      else if i == 8 { assert h == Date(2025, 11, 27); ThanksgivingDay(); }
      else { assert h == Date(2025, 12, 25); ChristmasDay(); }
    }
  }

  /** A day is in `HolidayDays` exactly when its year, month and day are those of a listed
      holiday. */
  lemma HolidayDaysAreListedDates(d: int)
    ensures d in HolidayDays <==> CivilFromDays(d) in Holidays
  {
    if CivilFromDays(d) in Holidays {
      CivilRoundTrip(d);
      var i :| 0 <= i < |Holidays| && Holidays[i] == CivilFromDays(d);
      HolidayDaysOfDates();
    }
    if d in HolidayDays {
      if d == 20089 { NewYearsDay(); }
      if d == 20108 { MartinLutherKingJrDay(); }
      if d == 20136 { WashingtonsBirthday(); }
      if d == 20196 { GoodFriday(); }
      if d == 20234 { MemorialDay(); }
      if d == 20258 { Juneteenth(); }
      if d == 20273 { IndependenceDay(); }
      if d == 20332 { LaborDay(); }
      if d == 20419 { ThanksgivingDay(); }
      if d == 20447 { ChristmasDay(); }
    }
  }

  /** `IsMarketHoliday`: a search of the holiday list that stops at the first entry whose
      year, month and day match those of `t` in the Eastern zone. */
  method IsMarketHoliday(z: Zone, t: Instant) returns (b: bool)
    ensures b <==> CivilFromDays(LocalDay(z, t)) in Holidays
  {
    var date := CivilFromDays(LocalDay(z, t));
    for i := 0 to |Holidays|
      invariant date !in Holidays[..i]
    {
      var h := Holidays[i];
      if date.year == h.year && date.month == h.month && date.day == h.day {
        return true;
      }
    }
    return false;
  }

  /** `IsMarketOpenOnDay`: not a weekend day and not a holiday. */
  method IsMarketOpenOnDay(z: Zone, t: Instant) returns (b: bool)
    ensures b == IsOpen(LocalDay(z, t))
    ensures Weekday(LocalDay(z, t)) == Saturday || Weekday(LocalDay(z, t)) == Sunday ==> !b
    ensures LocalDay(z, t) in HolidayDays ==> !b
  {
    var w := Weekday(LocalDay(z, t));
    if w == Saturday || w == Sunday {
      return false;
    }
    var holiday := IsMarketHoliday(z, t);
    HolidayDaysAreListedDates(LocalDay(z, t));
    return !holiday;
  }

  /** Among any four consecutive days at least one is open: a window of four days holds at
      most two weekend days, and no two holidays are fewer than four days apart. */
  lemma OpenInEveryFourDays(d: int)
    ensures IsOpen(d - 1) || IsOpen(d - 2) || IsOpen(d - 3) || IsOpen(d - 4)
  {
  }

  /** The latest open day strictly before `d`. */
  function PrevOpen(d: int): (p: int)
    ensures d - 4 <= p < d && IsOpen(p)
  {
    OpenInEveryFourDays(d);
    if IsOpen(d - 1) then d - 1
    else if IsOpen(d - 2) then d - 2
    else if IsOpen(d - 3) then d - 3
    else d - 4
  }

  /** No day between `PrevOpen(d)` and `d` is open. */
  lemma PrevOpenIsLatest(d: int)
    ensures forall k :: PrevOpen(d) < k < d ==> !IsOpen(k)
  {
  }

  /** The `n`-th open day before `d` (`d` itself when `n <= 0`). */
  function NthOpenDayBefore(d: int, n: int): int
    decreases n
  {
    if n <= 0 then d else NthOpenDayBefore(PrevOpen(d), n - 1)
  }

  /** The number of open days in `[lo, hi)`. */
  function CountOpen(lo: int, hi: int): nat
    decreases hi - lo
  {
    if hi <= lo then 0 else CountOpen(lo, hi - 1) + (if IsOpen(hi - 1) then 1 else 0)
  }

  lemma {:induction false} CountOpenSplit(a: int, b: int, c: int)
    requires a <= b <= c
    ensures CountOpen(a, c) == CountOpen(a, b) + CountOpen(b, c)
    decreases c - b
  {
    if b < c {
      CountOpenSplit(a, b, c - 1);
    }
  }

  /** Exactly one open day lies in `[PrevOpen(d), d)`. */
  lemma {:induction false} CountToPrevOpen(d: int)
    ensures CountOpen(PrevOpen(d), d) == 1
  {
    var p := PrevOpen(d);
    PrevOpenIsLatest(d);
    forall k | p < k <= d ensures CountOpen(k, d) == 0 {
      NoOpenDays(k, d);
    }
    assert CountOpen(p, d) == CountOpen(p + 1, d) + 1 by {
      CountOpenSplit(p, p + 1, d);
    }
  }

  lemma {:induction false} NoOpenDays(lo: int, hi: int)
    requires forall k :: lo <= k < hi ==> !IsOpen(k)
    ensures CountOpen(lo, hi) == 0
    decreases hi - lo
  {
    if lo < hi {
      NoOpenDays(lo, hi - 1);
    }
  }

  /** For `n > 0` the `n`-th open day before `d` is earlier than `d`, is itself open, and
      exactly `n` open days lie in `[result, d)`: `d` itself is never counted. */
  lemma {:induction false} NthOpenDayBeforeCounts(d: int, n: int)
    requires n > 0
    ensures NthOpenDayBefore(d, n) < d
    ensures IsOpen(NthOpenDayBefore(d, n))
    ensures CountOpen(NthOpenDayBefore(d, n), d) == n
    decreases n
  {
    var p := PrevOpen(d);
    CountToPrevOpen(d);
    if n > 1 {
      NthOpenDayBeforeCounts(p, n - 1);
      CountOpenSplit(NthOpenDayBefore(p, n - 1), p, d);
    }
  }

  /** Conversely, an open day `r < d` with exactly `n` open days in `[r, d)` is the `n`-th open
      day before `d`: the three facts above pin the result down. */
  lemma NthOpenDayBeforeUnique(d: int, n: int, r: int)
    requires n > 0 && r < d && IsOpen(r) && CountOpen(r, d) == n
    ensures r == NthOpenDayBefore(d, n)
  {
    var s := NthOpenDayBefore(d, n);
    NthOpenDayBeforeCounts(d, n);
    if r < s {
      CountOpenSplit(r, s, d);
      CountOpenSplit(r, r + 1, s);
    } else if s < r {
      CountOpenSplit(s, r, d);
      CountOpenSplit(s, s + 1, r);
    }
  }

  lemma NthStepClosed(d: int, k: int)
    requires k > 0 && !IsOpen(d - 1)
    ensures NthOpenDayBefore(d - 1, k) == NthOpenDayBefore(d, k)
  {
    assert PrevOpen(d - 1) == PrevOpen(d);
  }

  lemma NthStepOpen(d: int, k: int)
    requires k > 0 && IsOpen(d - 1)
    ensures NthOpenDayBefore(d - 1, k - 1) == NthOpenDayBefore(d, k)
  {
  }

  /** `LastRetainedDay`: walking back day by day from the start of today (Eastern time),
      counting open days until `n` of them have been passed, and returning the midnight at
      which the last of them begins. */
  method LastRetainedDay(z: Zone, now: Instant, n: int) returns (r: Instant)
    ensures LocalNanoOfDay(z, r) == 0
    ensures r == StartOfDay(z, NthOpenDayBefore(LocalDay(z, now), n))
    ensures n <= 0 ==> r == TruncateToDay(z, now)
    ensures n > 0 ==> r < TruncateToDay(z, now) && IsOpen(LocalDay(z, r))
    ensures n > 0 ==> CountOpen(LocalDay(z, r), LocalDay(z, now)) == n
  {
    var i := 0;
    var today := TruncateToDay(z, now);
    var curr := today;
    ghost var day := LocalDay(z, now);
    while i < n
      invariant 0 <= i && (n > 0 ==> i <= n)
      invariant curr == StartOfDay(z, day)
      invariant NthOpenDayBefore(day, n - i) == NthOpenDayBefore(LocalDay(z, now), n)
      decreases n - i, day - PrevOpen(day)
    {
      StartOfPreviousDay(z, day);
      curr := curr - NanosPerDay;
      day := day - 1;
      var open := IsMarketOpenOnDay(z, curr);
      if open {
        NthStepOpen(day + 1, n - i);
        i := i + 1;
      } else {
        NthStepClosed(day + 1, n - i);
        assert PrevOpen(day) == PrevOpen(day + 1);
      }
    }
    if n > 0 {
      NthOpenDayBeforeCounts(LocalDay(z, now), n);
      StartOfDayMonotone(z, day, LocalDay(z, now));
    }
    return curr;
  }

  /** US Eastern daylight time (UTC-4), in force in July. */
  const EasternDaylight: Zone := Zone(-14_400_000_000_000)

  /** Two trading days back from 2025-07-13T00:00Z (Saturday evening in New York): Friday and
      Thursday are retained, so the result is the start of Thursday 2025-07-10 in New York,
      which is 04:00 UTC and not the UTC midnight the repository's test expects. */
  method SundayScenario() returns (r: Instant, date: Date)
    ensures date == Date(2025, 7, 10)
    ensures r == 20279 * NanosPerDay + 14_400_000_000_000
  {
    r := LastRetainedDay(EasternDaylight, 20282 * NanosPerDay, 2);
    assert LocalDay(EasternDaylight, 20282 * NanosPerDay) == 20281;
    MidJulyOpenDays();
    TwoOpenDaysBack(20281);
    July10();
    date := CivilFromDays(LocalDay(EasternDaylight, r));
  }

  /** Two trading days back from Friday 2025-07-11 at noon UTC: Friday itself is not counted,
      so Thursday and Wednesday are retained and the result is Wednesday 2025-07-09. */
  method FridayScenario() returns (date: Date)
    ensures date == Date(2025, 7, 9)
  {
    var r := LastRetainedDay(EasternDaylight, 20280 * NanosPerDay + 43_200_000_000_000, 2);
    assert LocalDay(EasternDaylight, 20280 * NanosPerDay + 43_200_000_000_000) == 20280;
    MidJulyOpenDays();
    TwoOpenDaysBack(20280);
    July9();
    date := CivilFromDays(LocalDay(EasternDaylight, r));
  }

  /** One trading day back from Monday 2025-07-07: the weekend and the Independence Day
      holiday on Friday are skipped, so the result is Thursday 2025-07-03. */
  method HolidayScenario() returns (date: Date)
    ensures date == Date(2025, 7, 3)
  {
    var r := LastRetainedDay(EasternDaylight, 20276 * NanosPerDay + 57_600_000_000_000, 1);
    assert LocalDay(EasternDaylight, 20276 * NanosPerDay + 57_600_000_000_000) == 20276;
    assert !IsOpen(20275) && !IsOpen(20274) && !IsOpen(20273) && IsOpen(20272);
    assert NthOpenDayBefore(20276, 1) == 20272;
    July3();
    date := CivilFromDays(LocalDay(EasternDaylight, r));
  }

  /** Wednesday 2025-07-09 to Friday 2025-07-11 are trading days. */
  lemma MidJulyOpenDays()
    ensures IsOpen(20278) && IsOpen(20279) && IsOpen(20280)
  {
  }

  lemma TwoOpenDaysBack(d: int)
    requires IsOpen(d - 1) && IsOpen(d - 2)
    ensures NthOpenDayBefore(d, 2) == d - 2
  {
    assert PrevOpen(d) == d - 1;
    assert PrevOpen(d - 1) == d - 2;
  }

  lemma July3()
    ensures CivilFromDays(20272) == Date(2025, 7, 3)
  {
    CivilFromDaysAt(20272, 5, 9255, 25, 124, 4);
  }

  lemma July9()
    ensures CivilFromDays(20278) == Date(2025, 7, 9)
  {
    CivilFromDaysAt(20278, 5, 9261, 25, 130, 4);
  }

  lemma July10()
    ensures CivilFromDays(20279) == Date(2025, 7, 10)
  {
    CivilFromDaysAt(20279, 5, 9262, 25, 131, 4);
  }
}
