/** `partiallyFilledRange` (ohlcv/partially_filled_range.go): two optional timestamps that
    bound the stored bars. Bars before `filledBefore` are known to be stored for every symbol;
    bars after `unfilledAfter` are known to be stored for none. */
module FilledRange {
  import opened Wrappers
  import opened Calendar

  datatype PartiallyFilledRange = PartiallyFilledRange(filledBefore: Option<Instant>, unfilledAfter: Option<Instant>)
  {
    /** `Contains` exactly as written: true at or after `filledBefore`, or at or before
        `unfilledAfter` (a disjunction of the two tests, each skipped when its bound is nil). */
    predicate Contains(t: Instant)
    {
      if filledBefore.Some? && t >= filledBefore.value then true
      else if unfilledAfter.Some? && t <= unfilledAfter.value then true
      else false
    }

    /** `Exists`: both bounds are present. */
    predicate Exists()
    {
      filledBefore.Some? && unfilledAfter.Some?
    }

    /** The reading the doc comment of `Contains` gives: `t` lies within
        `[filledBefore, unfilledAfter]`, which requires both bounds. */
    predicate Within(t: Instant)
    {
      Exists() && filledBefore.value <= t <= unfilledAfter.value
    }
  }

  /** Every instant at or after a present `filledBefore` is contained, whatever the other bound. */
  lemma ContainsAtOrAfterFilledBefore(r: PartiallyFilledRange, t: Instant)
    requires r.filledBefore.Some? && t >= r.filledBefore.value
    ensures r.Contains(t)
  {
  }

  /** Every instant at or before a present `unfilledAfter` is contained, whatever the other bound. */
  lemma ContainsAtOrBeforeUnfilledAfter(r: PartiallyFilledRange, t: Instant)
    requires r.unfilledAfter.Some? && t <= r.unfilledAfter.value
    ensures r.Contains(t)
  {
  }

  /** With neither bound present nothing is contained. */
  lemma EmptyRangeContainsNothing(t: Instant)
    ensures !PartiallyFilledRange(None, None).Contains(t)
  {
  }

  /** With only `filledBefore` present, `Contains` is exactly "at or after it". */
  lemma OnlyFilledBefore(fb: Instant, t: Instant)
    ensures PartiallyFilledRange(Some(fb), None).Contains(t) <==> t >= fb
  {
  }

  /** With only `unfilledAfter` present, `Contains` is exactly "at or before it". */
  lemma OnlyUnfilledAfter(ua: Instant, t: Instant)
    ensures PartiallyFilledRange(None, Some(ua)).Contains(t) <==> t <= ua
  {
  }

  /** `Exists` holds exactly when both bounds are present. */
  lemma ExistsIffBothPresent(r: PartiallyFilledRange)
    ensures r.Exists() <==> (r.filledBefore.Some? && r.unfilledAfter.Some?)
  {
  }

  /** As written, once both bounds are present and ordered, `Contains` holds of every instant:
      every `t` is either at or after `filledBefore` or before it, hence at or before
      `unfilledAfter`. */
  lemma ContainsEverythingWhenOrdered(r: PartiallyFilledRange, t: Instant)
    requires r.Exists() && r.filledBefore.value <= r.unfilledAfter.value
    ensures r.Contains(t)
  {
    if t < r.filledBefore.value {
      assert t <= r.unfilledAfter.value;
    }
  }

  /** A concrete witness of the gap between the code and its doc comment: with the range
      [10, 20], the instant 5 is contained although it lies outside the range. */
  lemma ContainsOutsideRange()
    ensures var r := PartiallyFilledRange(Some(10), Some(20));
            r.Contains(5) && !r.Within(5)
  {
  }

  /** The range reading: `Within` agrees with `Contains` inside the window and rejects
      everything outside it, and it holds of nothing when a bound is missing. */
  lemma WithinIsTheWindow(r: PartiallyFilledRange, t: Instant)
    ensures r.Within(t) ==> r.Contains(t)
    ensures r.Exists() ==> (r.Within(t) <==> r.filledBefore.value <= t <= r.unfilledAfter.value)
    ensures !r.Exists() ==> !r.Within(t)
  {
  }
}
