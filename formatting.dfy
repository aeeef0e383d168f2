/** The output records that the two quote kinds build with `formatted`. */
module Formatting {
  import opened Wrappers
  import opened Hashes
  import opened Sources
  import opened Rates

  /** The keys of a formatted quote. */
  datatype Field = AmountField | BaseField | DateField | StartDateField | EndDateField | RatesField | SourceField

  /** The values a formatted quote holds. */
  datatype Value = Number(number: real) | Text(text: string) | DayValue(day: DayRates) | TableValue(table: Table)

  /** A result hash before `compact`: nil is `None`. */
  type Draft = Hash<Field, Option<Value>>

  /** `result_hash[:source] = source if source`. */
  function WithSource(h: Draft, source: Option<string>): (r: Draft)
    requires h.Wf() && SourceField !in h.vals
    ensures r.Wf()
    ensures r.keys == h.keys + if source.Some? then [SourceField] else []
    ensures forall f :: f in r.vals <==> f in h.vals || (f == SourceField && source.Some?)
    ensures forall f :: f in h.vals ==> r.vals[f] == h.vals[f]
    ensures SourceField in r.vals ==> r.vals[SourceField] == Some(Text(source.value))
  {
    if source.Some? then h.Put(SourceField, Some(Text(source.value))) else h
  }

  /** `"#{source}"`: nil interpolates as the empty string. */
  function SourceText(source: Option<string>): (r: string)
    ensures source.None? ==> r == []
    ensures source.Some? ==> r == source.value
  {
    source.GetOr("")
  }

  /** A source code has no dash, and a set source is not empty. */
  lemma NoDash(source: Option<string>)
    requires source.Some? ==> CodeFormat(source.value)
    ensures '-' !in SourceText(source)
    ensures source.Some? ==> SourceText(source) != []
  {
    if source.Some? {
      var code := source.value;
      forall i | 0 <= i < |code| ensures code[i] != '-' {
        assert IsUpper(code[i]);
      }
    }
  }
}
