/** The start of a backfill: resume at the timestamp of the newest stored bar of the first
    symbol, or, when nothing is stored, at the start of the retention window. */
module Ingestion {
  import opened Wrappers
  import opened Text
  import opened Calendar
  import opened RetentionPeriod

  /** What the newest-bar query for one symbol produced. */
  datatype QueryResult = Row(ts: Instant) | NoRows | QueryError(reason: string)

  /** How `Backfill` ends: the process exits after a failed probe, the provider is handed the
      symbols and the instant to ingest from, or an empty symbol list panics on `symbols[0]`. */
  datatype Outcome = Exit(reason: string) | Handoff(symbols: seq<string>, ingestFrom: Instant) | IndexOutOfRange

  const DefaultRetentionDays: int := 14

  /** `mostRecentIngestion`: "no rows" is not an error but the zero time; any other query error
      is passed on. */
  function MostRecentIngestion(q: QueryResult): (r: Result<Instant, string>)
    ensures q.Row? ==> r == Success(q.ts)
    ensures q.NoRows? ==> r == Success(ZeroTime)
    ensures q.QueryError? ==> r == Failure(q.reason)
    ensures r.Success? && r.value != ZeroTime ==> q == Row(r.value)
  {
    match q
    case Row(ts) => Success(ts)
    case NoRows => Success(ZeroTime)
    case QueryError(e) => Failure(e)
  }

  /** A stored bar at Go's zero time cannot be told from an empty store: both read as "nothing
      stored", so the caller falls back to the retention window in either case. */
  lemma ZeroTimeRowReadsAsEmpty()
    ensures MostRecentIngestion(Row(ZeroTime)) == MostRecentIngestion(NoRows)
  {
  }

  /** The retention period from the value of `RETENTION_PERIOD_DAYS` (empty when unset): its
      integer value, or 14 when it is not an integer. */
  function RetentionDays(value: string): (n: int)
    ensures -Int64Bound <= n < Int64Bound
    ensures Atoi(value).Some? ==> n == Atoi(value).value
    ensures Atoi(value).None? ==> n == DefaultRetentionDays
  {
    match Atoi(value)
    case Some(v) => v
    case None => DefaultRetentionDays
  }

  /** `Backfill`, with the database probe as `latestBar`, the environment variable's value and
      the clock reading as parameters. Go indexes `symbols[0]`: an empty list is the
      index-out-of-range panic. */
  function Backfill(symbols: seq<string>, latestBar: string -> QueryResult, retentionVar: string,
                    zone: Zone, now: Instant): (o: Outcome)
    ensures o.IndexOutOfRange? <==> symbols == []
    ensures symbols != [] ==> (o.Exit? <==> latestBar(symbols[0]).QueryError?)
    ensures o.Handoff? ==> o.symbols == symbols
    ensures symbols != [] && latestBar(symbols[0]).Row? && latestBar(symbols[0]).ts != ZeroTime
      ==> o == Handoff(symbols, latestBar(symbols[0]).ts)
  {
    if symbols == [] then IndexOutOfRange
    else
    match MostRecentIngestion(latestBar(symbols[0]))
    case Failure(e) => Exit(e)
    case Success(ts) =>
      if ts == ZeroTime then
        Handoff(symbols, StartOfDay(zone, NthOpenDayBefore(LocalDay(zone, now), RetentionDays(retentionVar))))
      else
        Handoff(symbols, ts)
  }

  /** Only the first symbol is probed: lookups that agree on it give the same outcome. */
  lemma OnlyFirstSymbolProbed(symbols: seq<string>, bars1: string -> QueryResult, bars2: string -> QueryResult,
                              retentionVar: string, zone: Zone, now: Instant)
    requires |symbols| > 0 && bars1(symbols[0]) == bars2(symbols[0])
    ensures Backfill(symbols, bars1, retentionVar, zone, now) == Backfill(symbols, bars2, retentionVar, zone, now)
  {
  }

  /** With nothing stored, a positive retention period of `n` days starts the backfill at the
      midnight (Eastern time) of an open day before today, with exactly `n` open days from that
      day up to today; a period of zero or less starts it at the start of today. */
  lemma EmptyStoreStartsAtRetentionWindow(symbols: seq<string>, latestBar: string -> QueryResult,
                                          retentionVar: string, zone: Zone, now: Instant)
    requires |symbols| > 0
    requires latestBar(symbols[0]) == NoRows || latestBar(symbols[0]) == Row(ZeroTime)
    ensures var o := Backfill(symbols, latestBar, retentionVar, zone, now);
      var n := RetentionDays(retentionVar);
      o.Handoff? && LocalNanoOfDay(zone, o.ingestFrom) == 0 &&
      (n <= 0 ==> o.ingestFrom == TruncateToDay(zone, now)) &&
      (n > 0 ==> o.ingestFrom < TruncateToDay(zone, now) && IsOpen(LocalDay(zone, o.ingestFrom)) &&
                 CountOpen(LocalDay(zone, o.ingestFrom), LocalDay(zone, now)) == n)
  {
    var n := RetentionDays(retentionVar);
    var d := NthOpenDayBefore(LocalDay(zone, now), n);
    if n > 0 {
      NthOpenDayBeforeCounts(LocalDay(zone, now), n);
      assert StartOfDay(zone, d) < TruncateToDay(zone, now) by {
        assert LocalDay(zone, StartOfDay(zone, d)) < LocalDay(zone, TruncateToDay(zone, now));
      }
    } else {
      assert d == LocalDay(zone, now);
    }
  }

  /** An unset variable, or one with no digit in it, gives the default of 14 days. */
  lemma UnsetVariableGivesDefault(value: string)
    requires forall i :: 0 <= i < |value| ==> !IsDigit(value[i])
    ensures RetentionDays(value) == 14
  {
    if value != [] {
      assert !IsDigit(value[|value| - 1]);
      assert |value| > 1 ==> value[1..][|value| - 2] == value[|value| - 1];
    }
  }

  /** Any `int64` written in decimal is used as it is, with no clamping: zero, negative and
      very large periods pass straight through. */
  lemma RetentionDaysNotClamped(n: int)
    requires -Int64Bound <= n < Int64Bound
    ensures RetentionDays(FormatInt(n)) == n
  {
    AtoiFormatInt(n);
  }
}
