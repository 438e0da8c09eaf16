/** The Polygon flat-file backfill: an iterator that reads one day's minute-bar file after
    another from the bucket, skipping bars older than the ingestion threshold, and hands each
    remaining bar to the database copy in column order.

    The bucket is a map from object path to the file's CSV records (header first); a path
    that is not in the map is a file the server answers with 403 or 404. */
module PolygonIngestion {
  import opened Wrappers
  import opened Text
  import opened Calendar
  import Metrics
  import opened RetentionPeriod

  type Record = seq<string>

  /** Columns of a minute-aggregate record: ticker, volume, open, close, high, low,
      window_start (ns), transactions. */
  const NumColumns: int := 8

  predicate WellFormedRecords(rs: seq<Record>)
  {
    forall i :: 0 <= i < |rs| ==> |rs[i]| == NumColumns
  }

  /** A file the CSV reader reads without a fatal error: a header, then records with as many
      fields as the header. */
  predicate WellFormedFile(f: seq<Record>)
  {
    |f| >= 1 && WellFormedRecords(f)
  }

  predicate WellFormedBucket(bucket: map<string, seq<Record>>)
  {
    forall name :: name in bucket ==> WellFormedFile(bucket[name])
  }

  /** Go's conversion `int64(x)` of a `uint64`. */
  function Int64FromUint64(x: int): (r: int)
    requires 0 <= x <= MaxUint64
    ensures -Int64Bound <= r < Int64Bound
    ensures (r - x) % Metrics.Uint64Modulus == 0
  {
    if x < Int64Bound then x else x - Metrics.Uint64Modulus
  }

  /** The bar's start instant, from its window_start column. */
  function RowTime(row: Record): Instant
    requires |row| == NumColumns
  {
    Int64FromUint64(ParseUintOrDefault(row[6], MaxUint64))
  }

  /** A window_start column written in decimal with no sign reads as its value when that fits
      in an `int64`; any other column still gives an `int64`. */
  lemma RowTimeValue(row: Record)
    requires |row| == NumColumns
    ensures -Int64Bound <= RowTime(row) < Int64Bound
    ensures AllDigits(row[6]) && row[6] != [] && DecimalValue(row[6]) < Int64Bound ==> RowTime(row) == DecimalValue(row[6])
  {
    ParseUintOrDefaultCases(row[6], MaxUint64);
  }

  /** The records at or after `from`, in their original order. */
  function Keep(rows: seq<Record>, from: Instant): seq<Record>
    requires WellFormedRecords(rows)
  {
    if rows == [] then []
    else (if RowTime(rows[0]) >= from then [rows[0]] else []) + Keep(rows[1..], from)
  }

  /** `Keep` drops exactly the records older than `from`. */
  lemma {:induction false} KeepMembers(rows: seq<Record>, from: Instant)
    requires WellFormedRecords(rows)
    ensures forall r :: r in Keep(rows, from) <==> r in rows && RowTime(r) >= from
  {
    if rows != [] {
      KeepMembers(rows[1..], from);
      assert rows == [rows[0]] + rows[1..];
    }
  }

  /** One step of the reading loop: the record at `i` is kept or dropped, and the rest follow. */
  lemma KeepStep(rows: seq<Record>, i: nat, from: Instant)
    requires WellFormedRecords(rows) && i < |rows|
    ensures Keep(rows[i..], from)
      == (if RowTime(rows[i]) >= from then [rows[i]] else []) + Keep(rows[i + 1..], from)
  {
    assert rows[i..][1..] == rows[i + 1..];
  }

  /** The object path of the flat file for the Eastern date of `t`:
      us_stocks_sip/minute_aggs_v1/YYYY/MM/YYYY-MM-DD.csv.gz */
  function FlatFileName(zone: Zone, t: Instant): string
  {
    var date := CivilFromDays(LocalDay(zone, t));
    FileNameOf(FormatPadded(date.year, 4), FormatPadded(date.month, 2), FormatPadded(date.day, 2))
  }

  const FlatFilePrefix: string := "us_stocks_sip/minute_aggs_v1/"

  function FileNameOf(y: string, m: string, d: string): string
  {
    FlatFilePrefix + y + "/" + m + "/" + y + "-" + m + "-" + d + ".csv.gz"
  }

  /** Where the fields sit in a name built from a four-digit year and two-digit month and day. */
  lemma FileNameOfLayout(y: string, m: string, d: string)
    requires |y| == 4 && |m| == 2 && |d| == 2
    ensures var name := FileNameOf(y, m, d);
      |name| == 54 && name[..29] == FlatFilePrefix && name[47..] == ".csv.gz" &&
      name[29..33] == y && name[34..36] == m && name[37..41] == y && name[42..44] == m && name[45..47] == d
  {
    var name := FileNameOf(y, m, d);
    assert name == FlatFilePrefix + y + "/" + m + "/" + y + "-" + m + "-" + d + ".csv.gz";
    assert |FlatFilePrefix| == 29;
  }

  /** For years 0 to 9999 the name has one layout: the year and month directories repeat the
      year and month of the file name, and each field reads back as the Eastern date of `t`. */
  lemma FlatFileNameFields(zone: Zone, t: Instant)
    requires 0 <= CivilFromDays(LocalDay(zone, t)).year <= 9999
    ensures var date := CivilFromDays(LocalDay(zone, t));
      var name := FlatFileName(zone, t);
      |name| == 54 && name[..29] == FlatFilePrefix && name[47..] == ".csv.gz" &&
      name[29..33] == name[37..41] && name[34..36] == name[42..44] &&
      AllDigits(name[37..41]) && DecimalValue(name[37..41]) == date.year &&
      AllDigits(name[42..44]) && DecimalValue(name[42..44]) == date.month &&
      AllDigits(name[45..47]) && DecimalValue(name[45..47]) == date.day
  {
    var date := CivilFromDays(LocalDay(zone, t));
    FormatNatLength(date.year, 4);
    FormatNatLength(date.month, 2);
    FormatNatLength(date.day, 2);
    FormatPaddedValue(date.year, 4);
    FormatPaddedValue(date.month, 2);
    FormatPaddedValue(date.day, 2);
    FileNameOfLayout(FormatPadded(date.year, 4), FormatPadded(date.month, 2), FormatPadded(date.day, 2));
  }

  /** Different Eastern days (years 0 to 9999) have different files. */
  lemma FlatFileNameInjective(zone: Zone, t1: Instant, t2: Instant)
    requires 0 <= CivilFromDays(LocalDay(zone, t1)).year <= 9999
    requires 0 <= CivilFromDays(LocalDay(zone, t2)).year <= 9999
    requires FlatFileName(zone, t1) == FlatFileName(zone, t2)
    ensures LocalDay(zone, t1) == LocalDay(zone, t2)
  {
    FlatFileNameFields(zone, t1);
    FlatFileNameFields(zone, t2);
    CivilInjective(LocalDay(zone, t1), LocalDay(zone, t2));
  }

  /** At 02:00 UTC on 2025-07-11 it is still 2025-07-10 in New York, and that is the file
      read. */
  lemma LateEveningReadsEasternDate()
    ensures var name := FlatFileName(EasternDaylight, 20280 * NanosPerDay + 7_200_000_000_000);
      AllDigits(name[37..41]) && DecimalValue(name[37..41]) == 2025 &&
      AllDigits(name[42..44]) && DecimalValue(name[42..44]) == 7 &&
      AllDigits(name[45..47]) && DecimalValue(name[45..47]) == 10
  {
    var t := 20280 * NanosPerDay + 7_200_000_000_000;
    LateEveningDate();
    FlatFileNameFields(EasternDaylight, t);
  }

  lemma LateEveningDate()
    ensures CivilFromDays(LocalDay(EasternDaylight, 20280 * NanosPerDay + 7_200_000_000_000)) == Date(2025, 7, 10)
  {
    assert LocalDay(EasternDaylight, 20280 * NanosPerDay + 7_200_000_000_000) == 20279;
    July10();
  }

  /** The rows a fresh iterator at threshold `from` yields before `Next` first returns false:
      the rows of the day's file at or after `from`, then, while the next day does not pass
      `now`, those of the following days. A missing file ends the stream. */
  function StreamFrom(bucket: map<string, seq<Record>>, zone: Zone, from: Instant, now: Instant): seq<Record>
    requires WellFormedBucket(bucket)
    decreases if from <= now then now - from + 1 else 0
  {
    var name := FlatFileName(zone, from);
    if name !in bucket then []
    else Keep(bucket[name][1..], from) + StreamAfter(bucket, zone, from, now)
  }

  /** The rows of the days after the one at `from`. */
  function StreamAfter(bucket: map<string, seq<Record>>, zone: Zone, from: Instant, now: Instant): seq<Record>
    requires WellFormedBucket(bucket)
    decreases if from <= now then now - from + 1 else 0, 0
  {
    if from + NanosPerDay > now then [] else StreamFrom(bucket, zone, from + NanosPerDay, now)
  }

  /** Every row of the stream is a full record not older than the starting threshold: later
      days only raise the threshold. */
  lemma {:induction false} StreamRowsNotOlderThanThreshold(bucket: map<string, seq<Record>>, zone: Zone,
                                                           from: Instant, now: Instant)
    requires WellFormedBucket(bucket)
    ensures forall r :: r in StreamFrom(bucket, zone, from, now) ==> |r| == NumColumns && RowTime(r) >= from
    decreases if from <= now then now - from + 1 else 0
  {
    var name := FlatFileName(zone, from);
    if name in bucket {
      var rows := bucket[name][1..];
      KeepMembers(rows, from);
      forall r | r in rows ensures |r| == NumColumns {
        var i :| 0 <= i < |rows| && rows[i] == r;
        assert rows[i] == bucket[name][i + 1];
      }
      if from + NanosPerDay <= now {
        StreamRowsNotOlderThanThreshold(bucket, zone, from + NanosPerDay, now);
      }
    }
  }

  /** The threshold moves on by whole days and keeps its time of day, so every row of a later
      day's file that is earlier in the day than the original threshold is never yielded, though
      only the first day's rows can be known to be stored already. */
  lemma LaterDaysKeepTimeOfDay(bucket: map<string, seq<Record>>, zone: Zone, from: Instant, now: Instant,
                               r: Record)
    requires WellFormedBucket(bucket)
    requires r in StreamAfter(bucket, zone, from, now)
    ensures |r| == NumColumns && RowTime(r) >= from + NanosPerDay
  {
    if from + NanosPerDay <= now {
      StreamRowsNotOlderThanThreshold(bucket, zone, from + NanosPerDay, now);
    }
  }

  /** A bar in database column order: symbol, ts, open, high, low, close, volume, transactions.
      Prices are kept as the text of their fields. */
  datatype Bar = Bar(symbol: string, ts: Instant, open: string, high: string, low: string,
                     close: string, volume: nat, transactions: nat)

  /** The column permutation of `Values`; malformed numbers read as 0 and out-of-range ones as
      the largest value of their width. */
  function ToBar(row: Record): (bar: Bar)
    requires |row| == NumColumns
    ensures bar.volume <= MaxUint32 && bar.transactions <= MaxUint32
    ensures bar.ts == RowTime(row)
  {
    Bar(row[0], RowTime(row), row[2], row[4], row[5], row[3],
        ParseUintOrDefault(row[1], MaxUint32), ParseUintOrDefault(row[7], MaxUint32))
  }

  /** The CSV record a bar is read from: the inverse permutation. */
  function FromBar(bar: Bar): (row: Record)
    requires bar.ts >= 0
    ensures |row| == NumColumns
  {
    [bar.symbol, FormatNat(bar.volume), bar.open, bar.close, bar.high, bar.low,
     FormatNat(bar.ts), FormatNat(bar.transactions)]
  }

  lemma ParseFormatted(n: nat, max: nat)
    requires n <= max
    ensures ParseUintOrDefault(FormatNat(n), max) == n
  {
    FormatNatValue(n);
    ParseUintOrDefaultCases(FormatNat(n), max);
  }

  /** `Values` undoes the column order of the file: every bar with in-range fields comes back
      from its CSV record unchanged. */
  lemma ValuesRoundTrip(bar: Bar)
    requires 0 <= bar.ts < Int64Bound
    requires bar.volume <= MaxUint32 && bar.transactions <= MaxUint32
    ensures ToBar(FromBar(bar)) == bar
  {
    ParseFormatted(bar.volume, MaxUint32);
    ParseFormatted(bar.transactions, MaxUint32);
    ParseFormatted(bar.ts, MaxUint64);
  }

  /** The loop of `readFromFlatFile`: reads the records from `start` on, counting each one
      older than `from` as skipped, until one is not older (`found`) or the records run out. */
  method SkipOlderRecords(records: seq<Record>, start: nat, from: Instant, m: Metrics.Metrics)
    returns (next: nat, found: bool)
    requires WellFormedRecords(records) && start <= |records| && m.Valid()
    modifies m
    ensures m.Valid() && start <= next <= |records|
    ensures found ==> next < |records| && RowTime(records[next]) >= from
    ensures !found ==> next == |records|
    ensures forall j :: start <= j < next ==> RowTime(records[j]) < from
    ensures Keep(records[start..], from) == Keep(records[next..], from)
    ensures m.skippedRows == Metrics.IncrementTimes(old(m.skippedRows), next - start)
    ensures m.currentSource == old(m.currentSource) && m.currentTicker == old(m.currentTicker)
    ensures m.rows == old(m.rows)
  {
    next, found := start, false;
    while next < |records|
      invariant start <= next <= |records| && m.Valid()
      invariant forall j :: start <= j < next ==> RowTime(records[j]) < from
      invariant Keep(records[start..], from) == Keep(records[next..], from)
      invariant m.skippedRows == Metrics.IncrementTimes(old(m.skippedRows), next - start)
      invariant m.currentSource == old(m.currentSource) && m.currentTicker == old(m.currentTicker)
      invariant m.rows == old(m.rows)
    {
      KeepStep(records, next, from);
      if RowTime(records[next]) >= from {
        return next, true;
      }
      next := next + 1;
      m.SkipRow();
    }
  }

  class BackfillIter {
    const bucket: map<string, seq<Record>>
    const zone: Zone
    const metrics: Metrics.Metrics
    /** Never assigned after construction. */
    const err: Option<string>
    var ingestFrom: Instant
    /** Whether a file is open (the gzip reader is not nil). */
    var open: bool
    /** The records of the open file and the index of the next one to read. */
    var records: seq<Record>
    var pos: nat
    /** The current record; empty after the reader reported the end of the file. */
    var row: Record

    predicate Valid()
      reads this, metrics
    {
      ReaderValid() && metrics.Valid()
    }

    /** The reader's own state: the bucket's files are readable and an open file has had its
        header consumed. */
    predicate ReaderValid()
      reads this
    {
      WellFormedBucket(bucket) && err == None &&
      (|row| == NumColumns || row == []) &&
      (open ==> WellFormedFile(records) && 1 <= pos <= |records|)
    }

    /** The rows still to come, before `Next` first returns false. */
    function Pending(now: Instant): seq<Record>
      requires ReaderValid()
      reads this
    {
      if !open then StreamFrom(bucket, zone, ingestFrom, now)
      else Keep(records[pos..], ingestFrom) + StreamAfter(bucket, zone, ingestFrom, now)
    }

    /** `PolygonIngestion.Backfill` builds the iterator around the threshold it is given. */
    constructor (bucket: map<string, seq<Record>>, zone: Zone, metrics: Metrics.Metrics, ingestFrom: Instant)
      requires WellFormedBucket(bucket) && metrics.Valid()
      ensures Valid()
      ensures this.bucket == bucket && this.zone == zone && this.metrics == metrics
      ensures this.ingestFrom == ingestFrom && !open && row == []
    {
      this.bucket := bucket;
      this.zone := zone;
      this.metrics := metrics;
      this.err := None;
      this.ingestFrom := ingestFrom;
      open := false;
      records := [];
      pos := 0;
      row := [];
    }

    /** Opens `name`, reports it as the metrics' source (even when it is missing) and consumes
        the header record. False when the server has no such file. */
    method OpenFlatFile(name: string) returns (ok: bool)
      requires Valid() && !open
      modifies this, metrics
      ensures Valid()
      ensures ok <==> name in bucket
      ensures ok ==> open && records == bucket[name] && pos == 1
      ensures !ok ==> !open
      ensures ingestFrom == old(ingestFrom) && row == old(row)
      ensures metrics.currentSource == name
      ensures metrics.currentTicker == old(metrics.currentTicker) && metrics.rows == old(metrics.rows)
      ensures metrics.skippedRows == old(metrics.skippedRows)
    {
      metrics.SetSource(name);
      if name !in bucket {
        return false;
      }
      records := bucket[name];
      open := true;
      pos := 1;
      return true;
    }

    /** Reads records until one is at or after `ingestFrom` (it becomes the current row) or the
        file ends; every record read before is skipped and counted. */
    method ReadFromFlatFile() returns (eof: bool)
      requires Valid() && open
      modifies this, metrics
      ensures Valid() && open
      ensures ingestFrom == old(ingestFrom) && records == old(records) && old(pos) <= pos
      ensures eof ==> pos == |records| && row == [] && Keep(records[old(pos)..], ingestFrom) == []
      ensures eof ==> metrics.skippedRows == Metrics.IncrementTimes(old(metrics.skippedRows), pos - old(pos))
      ensures !eof ==> |row| == NumColumns && RowTime(row) >= ingestFrom
      ensures !eof ==> old(pos) < pos && row == records[pos - 1]
      ensures !eof ==> Keep(records[old(pos)..], ingestFrom) == [row] + Keep(records[pos..], ingestFrom)
      ensures !eof ==> metrics.skippedRows == Metrics.IncrementTimes(old(metrics.skippedRows), pos - 1 - old(pos))
      ensures metrics.currentSource == old(metrics.currentSource) && metrics.currentTicker == old(metrics.currentTicker)
      ensures metrics.rows == old(metrics.rows)
    {
      var next, found := SkipOlderRecords(records, pos, ingestFrom, metrics);
      if found {
        KeepStep(records, next, ingestFrom);
        row, pos := records[next], next + 1;
        return false;
      }
      assert records[next..] == [];
      row, pos := [], next;
      return true;
    }

    method CloseFlatFile()
      requires Valid() && open
      modifies this
      ensures Valid() && !open
      ensures ingestFrom == old(ingestFrom) && row == old(row) && records == old(records) && pos == old(pos)
    {
      open := false;
    }

    /** Moves the threshold one calendar day on, keeping its time of day; true when that passes
        `now`. */
    method IncrementDate(now: Instant) returns (pastNow: bool)
      requires Valid()
      modifies this
      ensures Valid()
      ensures ingestFrom == old(ingestFrom) + NanosPerDay
      ensures pastNow <==> ingestFrom > now
      ensures open == old(open) && records == old(records) && pos == old(pos) && row == old(row)
    {
      ingestFrom := ingestFrom + NanosPerDay;
      return ingestFrom > now;
    }

    /** Advances to the next row. True: the row is the next one of the stream, and it is not
        older than the threshold. False: the stream had nothing left. */
    method Next(now: Instant) returns (b: bool)
      requires Valid()
      modifies this, metrics
      ensures Valid()
      ensures b ==> open && |row| == NumColumns && RowTime(row) >= ingestFrom
      ensures b ==> old(Pending(now)) == [row] + Pending(now)
      ensures !b ==> old(Pending(now)) == [] && !open
      ensures metrics.rows == old(metrics.rows) && metrics.currentTicker == old(metrics.currentTicker)
      decreases if ingestFrom <= now then now - ingestFrom + 1 else 0, 2
    {
      if !open {
        var ok := OpenFlatFile(FlatFileName(zone, ingestFrom));
        if !ok {
          return false;
        }
      }
      b := ReadNext(now);
    }

    /** `Next` once a file is open: read on, and at the end of the file move to the next
        day. */
    method ReadNext(now: Instant) returns (b: bool)
      requires Valid() && open
      modifies this, metrics
      ensures Valid()
      ensures b ==> open && |row| == NumColumns && RowTime(row) >= ingestFrom
      ensures b ==> old(Pending(now)) == [row] + Pending(now)
      ensures !b ==> old(Pending(now)) == [] && !open
      ensures metrics.rows == old(metrics.rows) && metrics.currentTicker == old(metrics.currentTicker)
      decreases if ingestFrom <= now then now - ingestFrom + 1 else 0, 1
    {
      ghost var rest := StreamAfter(bucket, zone, ingestFrom, now);
      assert old(Pending(now)) == Keep(records[pos..], ingestFrom) + rest;
      ghost var kept := Keep(records[pos..], ingestFrom);
      var eof := ReadFromFlatFile();
      if eof {
        assert kept == [];
        b := NextDay(now);
      } else {
        assert Pending(now) == Keep(records[pos..], ingestFrom) + rest;
        assert kept + rest == [row] + (Keep(records[pos..], ingestFrom) + rest);
        b := true;
      }
    }

    /** `Next` at the end of a file: close it, move the threshold to the next day and, unless
        that passes `now`, start over with that day's file. */
    method NextDay(now: Instant) returns (b: bool)
      requires Valid() && open
      modifies this, metrics
      ensures Valid()
      ensures b ==> open && |row| == NumColumns && RowTime(row) >= ingestFrom
      ensures b ==> old(StreamAfter(bucket, zone, ingestFrom, now)) == [row] + Pending(now)
      ensures !b ==> old(StreamAfter(bucket, zone, ingestFrom, now)) == [] && !open
      ensures metrics.rows == old(metrics.rows) && metrics.currentTicker == old(metrics.currentTicker)
      decreases if ingestFrom <= now then now - ingestFrom + 1 else 0, 0
    {
      ghost var rest := StreamAfter(bucket, zone, ingestFrom, now);
      CloseFlatFile();
      var pastNow := IncrementDate(now);
      if pastNow {
        return false;
      }
      assert rest == StreamFrom(bucket, zone, ingestFrom, now) == Pending(now);
      b := Next(now);
    }

    /** The current row in database column order; each call counts one ingested bar under the
        row's ticker. The error is always nil. */
    method Values() returns (bar: Bar, e: Option<string>)
      requires Valid() && |row| == NumColumns
      modifies metrics
      ensures Valid()
      ensures bar == ToBar(row) && e == None
      ensures metrics.rows == Metrics.Increment(old(metrics.rows)) && metrics.currentTicker == row[0]
      ensures metrics.currentSource == old(metrics.currentSource) && metrics.skippedRows == old(metrics.skippedRows)
    {
      metrics.IngestRow(row[0]);
      return ToBar(row), None;
    }

    method Err() returns (e: Option<string>)
      requires Valid()
      ensures e == None
    {
      return err;
    }
  }
}
