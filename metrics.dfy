/** Ingestion metrics: the file being read, the ticker of the last ingested bar and two unsigned
    64-bit counters, reported as one progress line. */
module Metrics {
  import opened Text
  import ProgressPrinter

  /** Go's `uint64` arithmetic: results are taken modulo 2^64. */
  const Uint64Modulus: int := 0x1_0000_0000_0000_0000

  predicate IsUint64(x: int) {
    0 <= x < Uint64Modulus
  }

  /** `x++` on a `uint64`. */
  function Increment(x: int): (r: int)
    requires IsUint64(x)
    ensures IsUint64(r)
  {
    if x == MaxUint64 then 0 else x + 1
  }

  /** An increment adds one modulo 2^64. */
  lemma IncrementIsModular(x: int)
    requires IsUint64(x)
    ensures Increment(x) == (x + 1) % Uint64Modulus
  {
  }

  /** `k` successive increments. */
  function IncrementTimes(x: int, k: nat): (r: int)
    requires IsUint64(x)
    ensures IsUint64(r)
  {
    if k == 0 then x else Increment(IncrementTimes(x, k - 1))
  }

  /** `k` successive increments add `k` modulo 2^64. */
  lemma {:induction false} IncrementTimesAdds(x: int, k: nat)
    requires IsUint64(x)
    ensures IncrementTimes(x, k) == (x + k) % Uint64Modulus
  {
    if k > 0 {
      IncrementTimesAdds(x, k - 1);
      IncrementIsModular(IncrementTimes(x, k - 1));
    }
  }

  /** The progress line: "[<source>] <rows> bars read, <skipped> bars skipped (current ticker: <ticker>)". */
  function Message(source: string, rows: nat, skipped: nat, ticker: string): (msg: string)
    ensures |msg| > |source| + 3 && msg[..|source| + 3] == "[" + source + "] "
    ensures msg[|msg| - 1] == ')'
  {
    SourceTag(source) + FormatNat(rows) + Counters(skipped, ticker)
  }

  function SourceTag(source: string): (tag: string)
    ensures |tag| == |source| + 3
  {
    "[" + source + "] "
  }

  /** The text after the row count. */
  function Counters(skipped: nat, ticker: string): (s: string)
    ensures |s| > 0 && s[0] == ' ' && s[|s| - 1] == ')'
  {
    " bars read, " + FormatNat(skipped) + " bars skipped (current ticker: " + ticker + ")"
  }

  /** The row count can be read back from the message: its decimal digits follow the bracketed
      source and end at the next space. */
  lemma MessageShowsRows(source: string, rows: nat, skipped: nat, ticker: string)
    ensures var msg := Message(source, rows, skipped, ticker);
      var i := |source| + 3;
      var j := i + |FormatNat(rows)|;
      j < |msg| && AllDigits(msg[i..j]) && DecimalValue(msg[i..j]) == rows && msg[j] == ' '
  {
    var tag := SourceTag(source);
    var digits := FormatNat(rows);
    var rest := Counters(skipped, ticker);
    var msg := tag + digits + rest;
    assert msg[|tag|..|tag| + |digits|] == digits;
    assert msg[|tag| + |digits|] == rest[0];
    FormatNatValue(rows);
  }

  /** After the row count, the message is the rest of the progress line, in that order. */
  lemma MessageAfterRows(source: string, rows: nat, skipped: nat, ticker: string)
    ensures var msg := Message(source, rows, skipped, ticker);
      var j := |source| + 3 + |FormatNat(rows)|;
      j < |msg| &&
      msg[j..] == " bars read, " + FormatNat(skipped) + " bars skipped (current ticker: " + ticker + ")"
  {
    var head, rest := SourceTag(source) + FormatNat(rows), Counters(skipped, ticker);
    assert Message(source, rows, skipped, ticker) == head + rest + [];
    ConcatParts(head, rest, []);
  }

  /** The skipped count reads back from the text after the row count, and the ticker closes it. */
  lemma CountersShowSkippedAndTicker(skipped: nat, ticker: string)
    ensures var c := Counters(skipped, ticker);
      var n := |FormatNat(skipped)|;
      12 + n < |c| && c[..12] == " bars read, " &&
      AllDigits(c[12..12 + n]) && DecimalValue(c[12..12 + n]) == skipped &&
      c[12 + n..] == " bars skipped (current ticker: " + ticker + ")"
  {
    var read, sk, tail := " bars read, ", FormatNat(skipped), " bars skipped (current ticker: " + ticker + ")";
    assert Counters(skipped, ticker) == read + sk + tail;
    ConcatParts(read, sk, tail);
    FormatNatValue(skipped);
  }

  /** Where the parts of a concatenation sit. */
  lemma ConcatParts(x: string, y: string, z: string)
    ensures (x + y + z)[..|x|] == x
    ensures (x + y + z)[|x|..] == y + z
    ensures (x + y + z)[|x|..|x| + |y|] == y
    ensures (x + y + z)[|x| + |y|..] == z
  {
  }

  class Metrics {
    var currentSource: string
    var currentTicker: string
    var rows: int
    var skippedRows: int

    predicate Valid()
      reads this
    {
      IsUint64(rows) && IsUint64(skippedRows)
    }

    /** The zero value `Metrics{}`. */
    constructor ()
      ensures Valid()
      ensures currentSource == [] && currentTicker == [] && rows == 0 && skippedRows == 0
    {
      currentSource := [];
      currentTicker := [];
      rows := 0;
      skippedRows := 0;
    }

    method SetSource(source: string)
      requires Valid()
      modifies this
      ensures Valid()
      ensures currentSource == source
      ensures currentTicker == old(currentTicker) && rows == old(rows) && skippedRows == old(skippedRows)
    {
      currentSource := source;
    }

    method IngestRow(ticker: string)
      requires Valid()
      modifies this
      ensures Valid()
      ensures currentTicker == ticker && rows == Increment(old(rows))
      ensures currentSource == old(currentSource) && skippedRows == old(skippedRows)
    {
      currentTicker := ticker;
      rows := Increment(rows);
    }

    method SkipRow()
      requires Valid()
      modifies this
      ensures Valid()
      ensures skippedRows == Increment(old(skippedRows))
      ensures currentSource == old(currentSource) && currentTicker == old(currentTicker) && rows == old(rows)
    {
      skippedRows := Increment(skippedRows);
    }

    /** Accepts a reason and records nothing. */
    method SetError(reason: string)
      ensures unchanged(this)
    {
    }

    /** Sends the current counters to the printer as one update. */
    method Print(pp: ProgressPrinter.Printer)
      requires Valid() && pp.Valid()
      modifies pp
      ensures pp.Valid()
      ensures pp.output == old(pp.output)
        + ProgressPrinter.Line(old(pp.max), Message(currentSource, rows, skippedRows, currentTicker))
      ensures pp.max == Max(old(pp.max), |Message(currentSource, rows, skippedRows, currentTicker)|)
    {
      pp.Update(Message(currentSource, rows, skippedRows, currentTicker));
    }
  }

  /** A file is opened, two bars are read and one is skipped: the printed line names the file,
      both counts and the last ticker. */
  method PrintAfterReading() returns (out: string)
    ensures out == Message("f.csv", 2, 1, "MSFT") + "\r"
  {
    var m := new Metrics();
    m.SetSource("f.csv");
    m.IngestRow("AAPL");
    m.SkipRow();
    m.IngestRow("MSFT");
    m.SetError("ignored");
    assert m.rows == 2 && m.skippedRows == 1;
    var pp := new ProgressPrinter.Printer();
    m.Print(pp);
    ProgressPrinter.FirstLine(Message("f.csv", 2, 1, "MSFT"));
    out := pp.output;
  }

  /** The row counter wraps to zero after 2^64 - 1, as Go's `uint64` does. */
  lemma RowCounterWraps()
    ensures Increment(MaxUint64) == 0
  {
  }
}
