/** Quote::EndOfDay (lib/quote/end_of_day.rb): the quote for one date. */
module EndOfDay {
  import opened Wrappers
  import opened Hashes
  import opened Strings
  import opened Sources
  import opened Rates
  import opened Formatting

  /** `result_hash` once the source line has run: amount, base, the
      first date and its rates (nil for an empty result), then the source
      when one is set. */
  function ResultHash(s: Settings, result: Table): (h: Draft)
    requires TableWf(result)
    ensures h.Wf()
    ensures h.keys == [AmountField, BaseField, DateField, RatesField] + (if s.source.Some? then [SourceField] else [])
    ensures AmountField in h.vals && h.vals[AmountField] == Some(Number(s.amount))
    ensures BaseField in h.vals && h.vals[BaseField] == Some(Text(s.base))
    ensures DateField in h.vals && h.vals[DateField] == if result.IsEmpty() then None else Some(Text(result.keys[0]))
    ensures RatesField in h.vals &&
      h.vals[RatesField] == if result.IsEmpty() then None else Some(DayValue(result.vals[result.keys[0]]))
    ensures SourceField in h.vals <==> s.source.Some?
    ensures SourceField in h.vals ==> h.vals[SourceField] == Some(Text(s.source.value))
  {
    var first := result.FirstKey();
    var rates := result.FirstValue();
    var literal := Hash([AmountField, BaseField, DateField, RatesField], map[
      AmountField := Some(Number(s.amount)),
      BaseField := Some(Text(s.base)),
      DateField := if first.Some? then Some(Text(first.value)) else None,
      RatesField := if rates.Some? then Some(DayValue(rates.value)) else None]);
    WithSource(literal, s.source)
  }

  /** `formatted`: `result_hash.compact`. */
  function Formatted(s: Settings, result: Table): (r: Hash<Field, Value>)
    requires TableWf(result)
    ensures r.Wf()
  {
    Compact(ResultHash(s, result))
  }

  /** The output lists amount and base, then date and rates unless the
      result is empty, then source when one is set. */
  lemma FormattedKeys(s: Settings, result: Table)
    requires TableWf(result)
    ensures Formatted(s, result).keys ==
      [AmountField, BaseField] +
      (if result.IsEmpty() then [] else [DateField, RatesField]) +
      (if s.source.Some? then [SourceField] else [])
  {
    var h := ResultHash(s, result);
    var tail := if s.source.Some? then [SourceField] else [];
    PresentKeysFrontSet(AmountField, BaseField, DateField, RatesField, tail, h.vals);
  }

  /** Amount and base are always there; date and rates are there exactly
      when the result is not empty, and are its first key and that key's
      rates; source is there exactly when one is set. */
  lemma FormattedValues(s: Settings, result: Table)
    requires TableWf(result)
    ensures var r := Formatted(s, result);
      AmountField in r.vals && r.vals[AmountField] == Number(s.amount) &&
      BaseField in r.vals && r.vals[BaseField] == Text(s.base) &&
      (DateField in r.vals <==> !result.IsEmpty()) &&
      (DateField in r.vals ==> r.vals[DateField] == Text(result.keys[0])) &&
      (RatesField in r.vals <==> !result.IsEmpty()) &&
      (RatesField in r.vals ==> r.vals[RatesField] == DayValue(result.vals[result.keys[0]])) &&
      (SourceField in r.vals <==> s.source.Some?) &&
      (SourceField in r.vals ==> r.vals[SourceField] == Text(s.source.value))
  {
  }

  /** `cache_key`: nil for an empty result, otherwise the first date and the
      source joined by a dash. */
  function CacheKey(s: Settings, result: Table): (r: Option<string>)
    requires TableWf(result)
    ensures r.None? <==> result.vals == map[]
    ensures r.Some? ==> r.value == result.keys[0] + "-" + SourceText(s.source)
  {
    if result.IsEmpty() then
      None
    else
      assert result.keys[0] in result.vals;
      Some(result.keys[0] + "-" + SourceText(s.source))
  }

  /** Source codes are letters, so the dash before the source is the last
      one: a cache key tells apart results that start on different dates
      and quotes from different sources. */
  lemma CacheKeyDistinguishes(s1: Settings, result1: Table, s2: Settings, result2: Table)
    requires TableWf(result1) && TableWf(result2)
    requires s1.source.Some? ==> CodeFormat(s1.source.value)
    requires s2.source.Some? ==> CodeFormat(s2.source.value)
    requires CacheKey(s1, result1) == CacheKey(s2, result2) != None
    ensures result1.keys[0] == result2.keys[0]
    ensures s1.source == s2.source
  {
    var src1, src2 := SourceText(s1.source), SourceText(s2.source);
    NoDash(s1.source);
    NoDash(s2.source);
    SplitLast(result1.keys[0], src1, result2.keys[0], src2, '-');
  }

  /** The filter part of `fetch_data`: the latest rates for the date, from
      the source when one is set, for `symbols + [base]` when symbols are
      given. */
  function FetchQuery(s: Settings): (q: Query)
    ensures q.scope == Latest(s.date)
    ensures forall row :: Admits(q, row) <==> FromSource(s, row) && Requested(s, row)
    ensures q.only.Some? <==> s.symbols.Some?
    ensures forall row :: FromSource(s, row) && row.iso == s.base ==> Admits(q, row)
  {
    Query(Latest(s.date), s.source, if s.symbols.Some? then Some(s.symbols.value + [s.base]) else None)
  }
}
