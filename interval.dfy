/** Quote::Interval (lib/quote/interval.rb): the quote for a range of
    dates. */
module Interval {
  import opened Wrappers
  import opened Hashes
  import opened Strings
  import opened Sources
  import opened Rates
  import opened Formatting

  /** `result_hash` once the source line has run: amount, base, the first
      and last dates (nil for an empty result), the whole result, then the
      source when one is set. */
  function ResultHash(s: Settings, result: Table): (h: Draft)
    requires TableWf(result)
    ensures h.Wf()
    ensures h.keys ==
      [AmountField, BaseField, StartDateField, EndDateField, RatesField] +
      (if s.source.Some? then [SourceField] else [])
    ensures AmountField in h.vals && h.vals[AmountField] == Some(Number(s.amount))
    ensures BaseField in h.vals && h.vals[BaseField] == Some(Text(s.base))
    ensures StartDateField in h.vals &&
      h.vals[StartDateField] == if result.IsEmpty() then None else Some(Text(result.keys[0]))
    ensures EndDateField in h.vals &&
      h.vals[EndDateField] == if result.IsEmpty() then None else Some(Text(result.keys[|result.keys| - 1]))
    ensures RatesField in h.vals && h.vals[RatesField] == Some(TableValue(result))
    ensures SourceField in h.vals <==> s.source.Some?
    ensures SourceField in h.vals ==> h.vals[SourceField] == Some(Text(s.source.value))
  {
    var first := result.FirstKey();
    var last := result.LastKey();
    var literal := Hash([AmountField, BaseField, StartDateField, EndDateField, RatesField], map[
      AmountField := Some(Number(s.amount)),
      BaseField := Some(Text(s.base)),
      StartDateField := if first.Some? then Some(Text(first.value)) else None,
      EndDateField := if last.Some? then Some(Text(last.value)) else None,
      RatesField := Some(TableValue(result))]);
    WithSource(literal, s.source)
  }

  /** `formatted`: `result_hash.compact`. */
  function Formatted(s: Settings, result: Table): (r: Hash<Field, Value>)
    requires TableWf(result)
    ensures r.Wf()
  {
    Compact(ResultHash(s, result))
  }

  /** The output lists amount and base, then the start and end dates unless
      the result is empty, then the rates, then source when one is set. */
  lemma FormattedKeys(s: Settings, result: Table)
    requires TableWf(result)
    ensures Formatted(s, result).keys ==
      [AmountField, BaseField] +
      (if result.IsEmpty() then [] else [StartDateField, EndDateField]) +
      [RatesField] +
      (if s.source.Some? then [SourceField] else [])
  {
    var h := ResultHash(s, result);
    var tail := if s.source.Some? then [SourceField] else [];
    PresentKeysFrontLast(AmountField, BaseField, StartDateField, EndDateField, RatesField, tail, h.vals);
  }

  /** Amount, base and the whole result (even an empty one) are always
      there; the start and end dates are there exactly when the result is
      not empty, and are its first and last keys; source is there exactly
      when one is set. */
  lemma FormattedValues(s: Settings, result: Table)
    requires TableWf(result)
    ensures var r := Formatted(s, result);
      AmountField in r.vals && r.vals[AmountField] == Number(s.amount) &&
      BaseField in r.vals && r.vals[BaseField] == Text(s.base) &&
      (StartDateField in r.vals <==> !result.IsEmpty()) &&
      (StartDateField in r.vals ==> r.vals[StartDateField] == Text(result.keys[0])) &&
      (EndDateField in r.vals <==> !result.IsEmpty()) &&
      (EndDateField in r.vals ==> r.vals[EndDateField] == Text(result.keys[|result.keys| - 1])) &&
      RatesField in r.vals && r.vals[RatesField] == TableValue(result) &&
      (SourceField in r.vals <==> s.source.Some?) &&
      (SourceField in r.vals ==> r.vals[SourceField] == Text(s.source.value))
  {
  }

  /** `cache_key`: nil for an empty result, otherwise the first and last
      dates joined by an underscore, then a dash and the source. */
  function CacheKey(s: Settings, result: Table): (r: Option<string>)
    requires TableWf(result)
    ensures r.None? <==> result.vals == map[]
    ensures r.Some? ==>
      r.value == result.keys[0] + "_" + result.keys[|result.keys| - 1] + "-" + SourceText(s.source)
  {
    if result.IsEmpty() then
      None
    else
      assert result.keys[0] in result.vals;
      Some(result.keys[0] + "_" + result.keys[|result.keys| - 1] + "-" + SourceText(s.source))
  }

  /** Dates are written without underscores and source codes are letters,
      so a cache key tells apart results with a different first date, a
      different last date, or a different source. */
  lemma CacheKeyDistinguishes(s1: Settings, result1: Table, s2: Settings, result2: Table)
    requires TableWf(result1) && TableWf(result2)
    requires forall d :: d in result1.vals ==> '_' !in d
    requires forall d :: d in result2.vals ==> '_' !in d
    requires s1.source.Some? ==> CodeFormat(s1.source.value)
    requires s2.source.Some? ==> CodeFormat(s2.source.value)
    requires CacheKey(s1, result1) == CacheKey(s2, result2) != None
    ensures result1.keys[0] == result2.keys[0]
    ensures result1.keys[|result1.keys| - 1] == result2.keys[|result2.keys| - 1]
    ensures s1.source == s2.source
  {
    var first1, last1 := result1.keys[0], result1.keys[|result1.keys| - 1];
    var first2, last2 := result2.keys[0], result2.keys[|result2.keys| - 1];
    assert first1 in result1.vals && first2 in result2.vals;
    NoDash(s1.source);
    NoDash(s2.source);
    SplitLast(first1 + "_" + last1, SourceText(s1.source), first2 + "_" + last2, SourceText(s2.source), '-');
    SplitFirst(first1, last1, first2, last2, '_');
  }

  /** The filter part of `fetch_data`: the rates between the dates, from the
      source when one is set, for `symbols + [base]` when symbols are
      given. */
  function FetchQuery(s: Settings): (q: Query)
    ensures q.scope == Between(s.date)
    ensures forall row :: Admits(q, row) <==> FromSource(s, row) && Requested(s, row)
    ensures q.only.Some? <==> s.symbols.Some?
    ensures forall row :: FromSource(s, row) && row.iso == s.base ==> Admits(q, row)
  {
    Query(Between(s.date), s.source, if s.symbols.Some? then Some(s.symbols.value + [s.base]) else None)
  }
}
