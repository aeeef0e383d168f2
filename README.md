# Frankfurter quote engine in Dafny

This project models the quote engine of the Frankfurter exchange-rate
service, together with the validation of its rate providers.

A quote (`Quote::Base`) is built from request parameters:

- `amount` defaults to 1.0.
- `base` defaults to EUR.
- `date` and `symbols` are kept as given.
- A provider (`source`) is resolved when the `:source` key is present.

`perform` does its work once. It fetches the stored rows and groups them into a
`date -> {iso_code -> round(amount * rate)}` result hash. When the base is not
EUR it rebases every date against the base currency, then freezes the result.

The two specialisations each build three things from that hash:

- `Quote::EndOfDay` serves one date.
- `Quote::Interval` serves a range of dates.
- Each builds the output record (`formatted`), the cache key (`cache_key`) and
  the filter of its fetch.

`Source#validate` decides which provider rows may be saved.

Modules:

- `Wrappers`: Option and Result.
- `Hashes`: Ruby's insertion-ordered Hash, as a key sequence plus a map.
  - `Put`, `Delete` and `compact`.
  - `Transform`, the "keep or replace every key, in order" pass that
    `rebase_rates` performs.
  - The loop invariant `Visited` of that pass.
- `Strings`: the order of `String#<=>`, an insertion sort, and splitting a
  string at a separator.
- `Sources`: `validate`, `Source[code]` and
  `Source.first(base_currency:)`.
- `Rates`: the specification functions of the engine.
  - Rows, the result table and `prepare_rates` (`Record`, `Prepared`).
  - The per-date rebase (`RebaseDay`) and the whole rebase (`Rebased`).
  - `Compute`, what `perform` leaves.
  - The fetch query.
- `RateProperties`: what the result holds, in terms of the fetched rows.
- `Resolution`: `initialize` and `resolve_source`.
- `QuoteBase`: class `Base`. Its `result` and `frozen` fields are updated by
  `Perform`, `PrepareRates` and `RebaseRates`. Each method is proved against
  the functions of `Rates`.
- `Formatting`, `EndOfDay` and `Interval`: `formatted`, `cache_key` and the
  fetch filter.

Behaviour where the code decides:

- After a rebase, EUR (when wanted) is not worth `amount`. It is set to
  `amount` before the division, so it comes out as
  `round(amount * amount / divisor)`. `RateProperties.RebasedValue` states
  this.
- A date's currencies are sorted only by the rebase. With base EUR they keep
  the order in which the rows were fetched.

## Model

| member | source | states |
|---|---|---|
| Sources.Failures | lib/source.rb:8-13 | A provider row has no error exactly when its name is not blank, its whole code is 2 to 10 letters A-Z and no stored row has that code; the presence errors are raised exactly for a blank code or name, the uniqueness error exactly when the code is present and taken, and the format error exactly for a code outside that format. The format here is the corrected whole-string rule; the rule as written is `Sources.MatchesAsWritten`, and `Sources.MultilineCodeAccepted` shows where the two differ |
| Sources.SavedCodesDistinct | lib/source.rb:11-12 | Rows saved one after another, each valid against those before it, have pairwise different codes, each of the required format |
| Sources.MatchesAsWritten | lib/source.rb:12 | The format rule as written, with Ruby's line anchors: some whole line of the code is 2 to 10 letters A-Z |
| Sources.MultilineCodeAccepted | lib/source.rb:12 | The format rule as written (Ruby's `^`/`$` match at line breaks) accepts the code "x\nECB", which is not 2 to 10 capitals |
| Sources.CodeFormatMatchesAsWritten | lib/source.rb:12 | Every code of the intended format passes the rule as written |
| Sources.SingleLineAgrees | lib/source.rb:12 | On a code without a line feed, the rule as written and the intended format agree in both directions |
| Sources.FindByCode | lib/quote/base.rb:53 | `Source[code]` finds a row exactly when the code is registered, and the row it finds has that code |
| Sources.FirstWithBase | lib/quote/base.rb:58 | `Source.first(base_currency:)` is nil exactly when no row is anchored to the currency, and otherwise is the first row that is |
| Resolution.Message | lib/quote/base.rb:54-62 | The three error messages: "Source X not found", "No source found for currency X", and "No data available for X from Y source" |
| Resolution.HasData | lib/quote/base.rb:61 | A provider has data exactly when some stored row comes from it |
| Resolution.Resolve | lib/quote/base.rb:48-66 | An explicit code succeeds exactly when registered, returns that code, and otherwise fails with SourceNotFound; without one, it fails NoSourceFor exactly when no provider is anchored to the currency, and otherwise returns the first anchored provider's code if it has rows, else fails NoDataFor |
| Resolution.ExplicitIgnoresStore | lib/quote/base.rb:52-56 | With an explicit code, the stored rows never affect the outcome |
| Resolution.Configure | lib/quote/base.rb:13-20 | amount defaults to 1.0 and base to EUR; date and symbols are kept; source is nil when the `:source` key is absent, and is otherwise resolved (even for a nil value) against the base, with a failed resolution failing construction |
| QuoteBase.Base.constructor | lib/quote/base.rb:19 | A new quote has the given settings, an empty unfrozen result |
| QuoteBase.Base.NotFound | lib/quote/base.rb:38-40 | `not_found?` holds exactly when the result has no date |
| QuoteBase.Base.Perform | lib/quote/base.rb:22-28 | On a frozen result: returns false, result unchanged. Otherwise returns true and the result becomes `Compute(rows)`: prepared, then rebased exactly when base is not EUR. Frozen afterwards in both cases |
| QuoteBase.Base.PrepareRates | lib/quote/base.rb:76-81 | The loop leaves the result as `PrepareInto(old result, rows)`: one `Record` step per row, in order |
| QuoteBase.Base.PrepareRow | lib/quote/base.rb:78-80 | One iteration of the prepare loop performs exactly one `Record` step |
| QuoteBase.Base.RebaseRates | lib/quote/base.rb:84-98 | The result becomes `Rebased(old result)` and the frozen flag is untouched |
| QuoteBase.Base.RebasedResult | lib/quote/base.rb:85-97 | The loop over the dates yields `Rebased(result)` (each date rebased or deleted, order kept) |
| QuoteBase.Base.RebaseDate | lib/quote/base.rb:86-96 | One iteration performs the `Visit` step of the pass for its date and keeps the pass invariant `Visited` |
| QuoteBase.Base.RebaseRatesOf | lib/quote/base.rb:86-95 | The block's computation for one date equals `RebaseDay` of that date |
| QuoteBase.RebasedAtEnd | lib/quote/base.rb:85-97 | A pass that has visited every date leaves exactly the rebased table |
| Rates.MustRebase | lib/quote/base.rb:30-32 | Rebasing is asked for exactly when the base is not EUR |
| Rates.Record | lib/quote/base.rb:78-80 | One row adds its date if new, adds or overwrites its currency on that date with `round(amount * rate)`, and leaves every other entry unchanged |
| Rates.RecordKeys | lib/quote/base.rb:79 | A new date is appended to the keys, a known date keeps the key order |
| Rates.PrepareIntoStep | lib/quote/base.rb:77-81 | Preparing `i + 1` rows is preparing `i` rows then recording row `i` |
| Rates.PrepareInto | lib/quote/base.rb:76-81 | Recording the rows one by one, in order, into a well-formed table keeps it well formed; its contents are stated by `Rates.PrepareIntoStep`, `Rates.PreparedFrom` and `Rates.PreparedLast` |
| Rates.Prepared | lib/quote/base.rb:76-81 | `prepare_rates` on a fresh quote, starting from `{}`, gives a well-formed table; its dates, currencies and values are stated by `Rates.PreparedFrom`, `Rates.PreparedLast` and `RateProperties.PreparedKeys` |
| Rates.PreparedFrom | lib/quote/base.rb:76-81 | Every (date, currency) in the prepared table comes from a fetched row with that date and currency, and holds that row's scaled, rounded rate |
| Rates.PreparedLast | lib/quote/base.rb:80 | Every fetched row lands in the prepared table; the last row for a (date, currency) decides the value |
| Rates.EurInScope | lib/quote/base.rb:86 | EUR is wanted exactly when no symbols were given or EUR is one of them |
| Rates.WithEur | lib/quote/base.rb:86 | Adding EUR when it is wanted keeps a date's rates well formed |
| Rates.WithEurEntries | lib/quote/base.rb:86 | Adding EUR sets EUR to `amount` when it is wanted (appending it to the keys when new) and leaves every other currency and its rate as it was |
| Rates.RebaseDay | lib/quote/base.rb:86-96 | A date is kept exactly when, after EUR is added, the base has a rate and something else remains |
| Rates.RebaseDayShape | lib/quote/base.rb:91 | A rebased date's currencies are in ascending order and do not include the base |
| Rates.RebaseDayEntry | lib/quote/base.rb:86-93 | A rebased date holds exactly the currencies other than the base (EUR included when wanted), each worth `round(amount * rate / divisor)`, the divisor being the base's nonzero rate |
| Rates.SurvivesWitness | lib/quote/base.rb:88 | A kept date has a rate for the base and for some other currency |
| Rates.SurvivesFrom | lib/quote/base.rb:88 | A date with a base rate and one other currency is kept |
| Rates.Rebased | lib/quote/base.rb:84-98 | The rebased result, the `Transform` of the table by the rebased rates of its surviving dates, is a well-formed table; which dates it keeps and what they hold is stated by `Rates.RebasedEntries` |
| Rates.RebasedEntries | lib/quote/base.rb:84-98 | The rebase keeps exactly the dates that survive, in their original order, each holding its `RebaseDay` rates |
| Rates.PreparedRebaseable | lib/quote/base.rb:87-93 | When no prepared date holds a zero base rate, no prepared date has a zero divisor, since adding EUR never changes another base's rate |
| Rates.Compute | lib/quote/base.rb:25-26 | What `perform` computes (the prepared table, rebased when the base is not EUR) is a well-formed table |
| RateProperties.PreparedKeys | lib/quote/base.rb:79 | The dates of the prepared table are the fetched dates in order of first appearance |
| RateProperties.PreparedDates | lib/quote/base.rb:79 | A date is prepared exactly when some row has it, and the first row's date comes first |
| RateProperties.PreparedHas | lib/quote/base.rb:79-80 | Every fetched row's date and currency are present |
| RateProperties.ComputeRebased | lib/quote/base.rb:26 | With a base other than EUR, `perform` computes the rebase of the prepared table |
| RateProperties.RebasedDateFrom | lib/quote/base.rb:87-89 | A date kept by the rebase has a row for the base, and a row for another currency unless EUR is wanted |
| RateProperties.RebasedDateFromRows | lib/quote/base.rb:87-89 | A date with a base row, and either EUR wanted or another currency's row, is kept |
| RateProperties.RebasedShape | lib/quote/base.rb:91 | Rebased dates list currencies in ascending order and never the base |
| RateProperties.RebasedHas | lib/quote/base.rb:86-93 | On a kept date every fetched non-base currency appears, and EUR appears when wanted |
| RateProperties.RebasedValue | lib/quote/base.rb:86-93 | Each rebased value is `round(amount * v / divisor)`. The divisor is the base row's rounded value. `v` is `amount` for EUR when wanted, otherwise the rounded value of the currency's last row |
| RateProperties.RebasedKeys | lib/quote/base.rb:85-89 | The rebased dates are the fetched dates in first-appearance order, restricted to the kept ones |
| RateProperties.UnrebasedKeys | lib/quote/base.rb:26 | With base EUR the dates are the fetched dates in first-appearance order, and the result is empty exactly when nothing was fetched |
| RateProperties.UnrebasedValue | lib/quote/base.rb:26 | With base EUR each currency holds its last row's rate scaled and rounded |
| RateProperties.ComputeRequested | lib/quote/end_of_day.rb:31 | When symbols are given and the rows are restricted to `symbols + [base]`, every currency in the result was requested, except the base on an unrebased quote |
| EndOfDay.ResultHash | lib/quote/end_of_day.rb:8-14 | Before `compact`: amount, base, date and rates in that order, then source when set; date is the first result key and rates its rates, both nil for an empty result |
| EndOfDay.Formatted | lib/quote/end_of_day.rb:7-16 | `formatted` is a well-formed hash; its keys and values are stated by `EndOfDay.FormattedKeys` and `EndOfDay.FormattedValues` |
| EndOfDay.FormattedKeys | lib/quote/end_of_day.rb:7-16 | The output lists amount and base, then date and rates unless the result is empty, then source when one is set |
| EndOfDay.FormattedValues | lib/quote/end_of_day.rb:8-15 | amount and base are always present. date is the first result key and rates its rates, both present exactly when the result is not empty. source is present exactly when set |
| EndOfDay.CacheKey | lib/quote/end_of_day.rb:18-22 | nil exactly when the result is empty, otherwise "first date-source" with nil as the empty string |
| EndOfDay.CacheKeyDistinguishes | lib/quote/end_of_day.rb:21 | Equal cache keys mean the same first date and the same source (codes are letters, so the last dash splits the key) |
| EndOfDay.FetchQuery | lib/quote/end_of_day.rb:29-32 | The latest-rates scope for the date. A row is admitted exactly when it is from the source (if one is set) and for a requested currency or the base (if symbols are given). The base is always admitted |
| Interval.ResultHash | lib/quote/interval.rb:8-15 | Before `compact`: amount, base, start date, end date and rates in that order, then source when set; the dates are the first and last result keys, nil for an empty result, and rates is the whole result |
| Interval.Formatted | lib/quote/interval.rb:7-17 | `formatted` is a well-formed hash; its keys and values are stated by `Interval.FormattedKeys` and `Interval.FormattedValues` |
| Interval.FormattedKeys | lib/quote/interval.rb:7-17 | The output lists amount, base, then start and end dates unless the result is empty, then rates, then source when one is set |
| Interval.FormattedValues | lib/quote/interval.rb:8-16 | start_date and end_date are the first and last result keys, present exactly when the result is not empty. rates is the whole result, present even when empty. source is present exactly when set |
| Interval.CacheKey | lib/quote/interval.rb:19-23 | nil exactly when the result is empty, otherwise "first_last-source" |
| Interval.CacheKeyDistinguishes | lib/quote/interval.rb:22 | For dates without underscores and letter codes, equal cache keys mean the same first date, last date and source |
| Interval.FetchQuery | lib/quote/interval.rb:30-32 | The between scope for the dates, with the same source and currency restriction as the end-of-day fetch; the base is always admitted |
| Formatting.WithSource | lib/quote/end_of_day.rb:14 | `result_hash[:source] = source if source`: source is appended with its code exactly when set, and every other entry is unchanged |
| Hashes.Compact | lib/quote/end_of_day.rb:15 | `compact` keeps exactly the non-nil entries with their values |
| Hashes.Transform | lib/quote/base.rb:85-97 | Keeping or replacing every key of a hash by a map keeps exactly the mapped keys, in order, with the mapped values |

## Left out

- Rows come in as the `rows` parameter of `Perform`. This stands for the
  memoised `data`, which `perform` reads once. The queries themselves
  (`Currency.latest`, `Currency.between`, `by_source`, `only`, `naked`) are
  database code and are not part of this model. The fetch filter is a
  `Query` value, and `Admits` says which rows it lets through. The
  weekend/future-date fallback of `latest` is not modelled.
- `round` (Roundable) is an arbitrary function over `real`, given at
  construction. Its precision and floating-point behaviour are not modelled.
- Rates are exact reals. Float overflow and division by zero are not
  modelled: when rebasing, `Perform` requires that no date of the prepared
  table holds a base rate of zero (`Rates.DivisorsNonzero`).
- A row's date is taken as already in its `to_date.to_s` form.
- A nil code or name of a provider is the empty string. Presence and format
  treat the two alike.
- `Source[code]` and `Source.first` are searches of a registry sequence in
  stored order. `Currency.by_source(code).limit(1).any?` is "some stored row
  has that source".
- QuoteBase.Base.Perform: `perform` returns the frozen hash on success. Its
  truthiness is modelled as `true`.
- Freezing is the `frozen` flag. Errors raised by writing to a frozen hash
  are not modelled.
- QuoteBase.Base.RebaseRates: `rebase_rates` edits `@result` while iterating
  over it. The model iterates over the dates as they were and builds the new
  table in a local, then stores it. No other code observes the hash in
  between, so the final result is the same.
- JSON serialisation, HTTP routing and headers, and the web layer are not
  part of this model.
- Interval.CacheKeyDistinguishes: dates are assumed to contain no underscore,
  which holds for the ISO date strings the data layer produces.

## Findings

| source | as written | input that shows it | evidently intended | confidence | as-written member | corrected member |
|---|---|---|---|---|---|---|
| lib/source.rb:12 | `/^[A-Z]{2,10}$/` uses line anchors, so a code passes if any one line of it is 2 to 10 capitals | the code "x\nECB" is accepted | the whole code is 2 to 10 capitals (`\A...\z`) | not executed | Sources.MatchesAsWritten, Sources.MultilineCodeAccepted | Sources.Failures |
