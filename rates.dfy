/** What Quote::Base computes (lib/quote/base.rb), as functions of its
    inputs: the fetched rows, the result table `date -> {iso_code -> value}`
    that prepare_rates builds, the per-date rebase of rebase_rates, and the
    fetch query that the two specialisations compose. */
module Rates {
  import opened Wrappers
  import opened Hashes
  import opened Strings

  const DefaultBase: string := "EUR"

  /** A stored rate row: on `date` (its string form), currency `iso` is worth
      `rate` units per euro, as published by provider `source`. */
  datatype Rate = Rate(date: string, iso: string, rate: real, source: string)

  /** The requested date or date range; the engine passes it to the data
      layer unread. */
  datatype DateParam = Day(day: string) | Span(startDate: string, endDate: string)

  /** The attributes a quote fixes when it is constructed. */
  datatype Settings = Settings(
    amount: real,
    base: string,
    date: Option<DateParam>,
    symbols: Option<seq<string>>,
    source: Option<string>)

  /** One date's rates, `iso_code -> value`. */
  type DayRates = Hash<string, real>

  /** The result, `date -> DayRates`. */
  type Table = Hash<string, DayRates>

  ghost predicate TableWf(t: Table) {
    t.Wf() && forall d :: d in t.vals ==> t.vals[d].Wf()
  }

  function EmptyTable(): (t: Table)
    ensures TableWf(t)
  {
    Empty()
  }

  /** `must_rebase?`: stored rates are EUR-relative, so only another base
      needs rebasing. */
  predicate MustRebase(s: Settings) {
    s.base != DefaultBase
  }

  /** `amount * rate`: a stored rate scaled to the requested amount. */
  function Scale(amount: real, rate: real): real {
    amount * rate
  }

  /** `amount * rate / divisor`: a rate scaled and re-expressed against the
      base currency's rate. */
  function Relative(amount: real, rate: real, divisor: real): real
    requires divisor != 0.0
  {
    amount * rate / divisor
  }

  // ---------------------------------------------------------------------
  // prepare_rates
  // ---------------------------------------------------------------------

  /** One step of prepare_rates: `result[date] ||= {}` and then
      `result[date][iso_code] = round(amount * rate)`. */
  function Record(t: Table, row: Rate, amount: real, round: real -> real): (r: Table)
    requires TableWf(t)
    ensures TableWf(r)
    ensures forall d :: d in r.vals <==> d in t.vals || d == row.date
    ensures forall d :: d in t.vals && d != row.date ==> r.vals[d] == t.vals[d]
    ensures forall c :: c in r.vals[row.date].vals <==>
      c == row.iso || (row.date in t.vals && c in t.vals[row.date].vals)
    ensures r.vals[row.date].vals[row.iso] == round(Scale(amount, row.rate))
    ensures forall c :: row.date in t.vals && c in t.vals[row.date].vals && c != row.iso ==>
      r.vals[row.date].vals[c] == t.vals[row.date].vals[c]
  {
    var day := if row.date in t.vals then t.vals[row.date] else Empty();
    t.Put(row.date, day.Put(row.iso, round(Scale(amount, row.rate))))
  }

  /** prepare_rates over `rows`, in order, starting from the table `t`. */
  function PrepareInto(t: Table, rows: seq<Rate>, amount: real, round: real -> real): (r: Table)
    requires TableWf(t)
    ensures TableWf(r)
    decreases |rows|
  {
    if rows == [] then t
    else Record(PrepareInto(t, rows[..|rows| - 1], amount, round), rows[|rows| - 1], amount, round)
  }

  /** prepare_rates on a fresh quote, whose result starts as `{}`. */
  function Prepared(rows: seq<Rate>, amount: real, round: real -> real): (t: Table)
    ensures TableWf(t)
  {
    PrepareInto(EmptyTable(), rows, amount, round)
  }

  /** After one step of prepare_rates, the dates present are the old ones
      and the row's. */
  lemma RecordDates(t: Table, row: Rate, amount: real, round: real -> real, d: string)
    requires TableWf(t)
    ensures d in Record(t, row, amount, round).vals <==> d in t.vals || d == row.date
  {
  }

  /** After one step of prepare_rates, a date's currencies are the old ones
      and, on the row's date, the row's. */
  lemma RecordCurrencies(t: Table, row: Rate, amount: real, round: real -> real, d: string, c: string)
    requires TableWf(t) && d in Record(t, row, amount, round).vals
    ensures c in Record(t, row, amount, round).vals[d].vals <==>
      (d == row.date && c == row.iso) || (d in t.vals && c in t.vals[d].vals)
  {
  }

  /** After one step of prepare_rates, the row's entry holds its scaled and
      rounded rate and every other entry is unchanged. */
  lemma RecordValue(t: Table, row: Rate, amount: real, round: real -> real, d: string, c: string)
    requires TableWf(t) && d in Record(t, row, amount, round).vals
    requires c in Record(t, row, amount, round).vals[d].vals
    ensures Record(t, row, amount, round).vals[d].vals[c] ==
      if d == row.date && c == row.iso then round(Scale(amount, row.rate)) else t.vals[d].vals[c]
  {
    if d != row.date {
    } else if c != row.iso {
      RecordCurrencies(t, row, amount, round, d, c);
    }
  }

  /** One step of prepare_rates appends the row's date to the keys when the
      date is new, and leaves the keys alone otherwise. */
  lemma RecordKeys(t: Table, row: Rate, amount: real, round: real -> real)
    requires TableWf(t)
    ensures Record(t, row, amount, round).keys ==
      if row.date in t.vals then t.keys else t.keys + [row.date]
  {
  }

  /** prepare_rates over the first `i + 1` rows is one more step after the
      first `i`. */
  lemma PrepareIntoStep(t: Table, rows: seq<Rate>, i: int, amount: real, round: real -> real)
    requires TableWf(t) && 0 <= i < |rows|
    ensures PrepareInto(t, rows[..i + 1], amount, round) ==
      Record(PrepareInto(t, rows[..i], amount, round), rows[i], amount, round)
  {
    assert rows[..i + 1][..i] == rows[..i];
  }

  /** prepare_rates over no rows leaves the result empty. */
  lemma PreparedNil(amount: real, round: real -> real)
    ensures Prepared([], amount, round).keys == []
    ensures Prepared([], amount, round).vals == map[]
  {
  }

  /** prepare_rates over a non-empty list is prepare_rates over all but the
      last row followed by one step for the last row. */
  lemma PreparedSnoc(rows: seq<Rate>, amount: real, round: real -> real)
    requires rows != []
    ensures Prepared(rows, amount, round) ==
      Record(Prepared(rows[..|rows| - 1], amount, round), rows[|rows| - 1], amount, round)
  {
  }

  /** The effect of the last row on the prepared table, entry by entry. */
  lemma PreparedStep(rows: seq<Rate>, amount: real, round: real -> real, d: string, c: string)
    requires rows != []
    ensures var whole, p, last := Prepared(rows, amount, round), Prepared(rows[..|rows| - 1], amount, round), rows[|rows| - 1];
      (d in whole.vals <==> d in p.vals || d == last.date) &&
      (d in whole.vals ==>
        (c in whole.vals[d].vals <==> (d == last.date && c == last.iso) || (d in p.vals && c in p.vals[d].vals))) &&
      (d in whole.vals && c in whole.vals[d].vals ==>
        whole.vals[d].vals[c] == if d == last.date && c == last.iso then round(Scale(amount, last.rate)) else p.vals[d].vals[c])
  {
    var p, last := Prepared(rows[..|rows| - 1], amount, round), rows[|rows| - 1];
    PreparedSnoc(rows, amount, round);
    RecordDates(p, last, amount, round, d);
    if d in Record(p, last, amount, round).vals {
      RecordCurrencies(p, last, amount, round, d, c);
      if c in Record(p, last, amount, round).vals[d].vals {
        RecordValue(p, last, amount, round, d, c);
      }
    }
  }

  /** Every (date, currency) in the prepared table comes from a fetched row
      `rows[k]`, and its value is that row's rate scaled by `amount` and
      rounded. */
  lemma {:induction false} PreparedFrom(rows: seq<Rate>, amount: real, round: real -> real, d: string, c: string)
    returns (k: int)
    requires d in Prepared(rows, amount, round).vals
    requires c in Prepared(rows, amount, round).vals[d].vals
    ensures 0 <= k < |rows| && rows[k].date == d && rows[k].iso == c
    ensures Prepared(rows, amount, round).vals[d].vals[c] == round(Scale(amount, rows[k].rate))
  {
    if rows == [] {
      PreparedNil(amount, round);
      assert false;
    }
    var init, last := rows[..|rows| - 1], rows[|rows| - 1];
    PreparedStep(rows, amount, round, d, c);
    if !(last.date == d && last.iso == c) {
      k := PreparedFrom(init, amount, round, d, c);
      assert rows[k] == init[k];
    } else {
      k := |rows| - 1;
    }
  }

  /** No row after `rows[k]` has the same date and currency. */
  predicate LastOfPair(rows: seq<Rate>, k: int) {
    0 <= k < |rows| &&
    forall j :: k < j < |rows| ==> !(rows[j].date == rows[k].date && rows[j].iso == rows[k].iso)
  }

  /** Every fetched row lands in the prepared table, under its date and
      currency; the last row for a date and currency decides the value. */
  lemma {:induction false} PreparedLast(rows: seq<Rate>, amount: real, round: real -> real, k: int)
    requires LastOfPair(rows, k)
    ensures rows[k].date in Prepared(rows, amount, round).vals
    ensures rows[k].iso in Prepared(rows, amount, round).vals[rows[k].date].vals
    ensures Prepared(rows, amount, round).vals[rows[k].date].vals[rows[k].iso] == round(Scale(amount, rows[k].rate))
  {
    var d, c := rows[k].date, rows[k].iso;
    PreparedStep(rows, amount, round, d, c);
    if k < |rows| - 1 {
      var init := rows[..|rows| - 1];
      assert init[k] == rows[k];
      assert LastOfPair(init, k) by {
        forall j | k < j < |init|
          ensures !(init[j].date == d && init[j].iso == c)
        {
          assert init[j] == rows[j];
        }
      }
      PreparedLast(init, amount, round, k);
    }
  }

  // ---------------------------------------------------------------------
  // rebase_rates
  // ---------------------------------------------------------------------

  /** "EUR" is wanted: no symbols were given, or "EUR" is one of them. */
  predicate EurInScope(s: Settings) {
    s.symbols.None? || "EUR" in s.symbols.value
  }

  /** A date's rates after `rates["EUR"] = amount` when EUR is wanted. */
  function WithEur(day: DayRates, s: Settings): (r: DayRates)
    requires day.Wf()
    ensures r.Wf()
  {
    if EurInScope(s) then day.Put("EUR", s.amount) else day
  }

  /** Adding EUR sets it to `amount` when it is wanted and touches no other
      currency. */
  lemma WithEurEntries(day: DayRates, s: Settings, c: string)
    requires day.Wf()
    ensures c in WithEur(day, s).vals <==> c in day.vals || (c == "EUR" && EurInScope(s))
    ensures c in WithEur(day, s).vals ==>
      WithEur(day, s).vals[c] == if c == "EUR" && EurInScope(s) then s.amount else day.vals[c]
    ensures WithEur(day, s).keys ==
      day.keys + if EurInScope(s) && "EUR" !in day.vals then ["EUR"] else []
  {
  }

  /** The value this date would be divided by is not zero. */
  predicate DivisorOk(day: DayRates, s: Settings)
    requires day.Wf()
  {
    WithEur(day, s).Get(s.base) != Some(0.0)
  }

  /** Every date of `t` can be rebased without dividing by zero. */
  ghost predicate Rebaseable(t: Table, s: Settings) {
    TableWf(t) && forall d :: d in t.vals ==> DivisorOk(t.vals[d], s)
  }

  /** The date keeps its place in the rebased result: once EUR is added,
      the base currency has a rate on it and taking that rate out leaves
      something. */
  predicate Survives(day: DayRates, s: Settings)
    requires day.Wf()
  {
    var rates := WithEur(day, s);
    s.base in rates.vals && !rates.Delete(s.base).IsEmpty()
  }

  /** The body of rebase_rates for one date: EUR is added when wanted, the
      base is taken out as the divisor, and the date is dropped (None) when
      the base had no rate or nothing else is left; otherwise every other
      currency is scaled, divided by the divisor, rounded and sorted. */
  function RebaseDay(day: DayRates, s: Settings, round: real -> real): (r: Option<DayRates>)
    requires day.Wf() && DivisorOk(day, s)
    ensures r.Some? <==> Survives(day, s)
    ensures r.Some? ==> r.value.Wf()
  {
    var rates := WithEur(day, s);
    var divisor := rates.Get(s.base);
    var rest := rates.Delete(s.base);
    if divisor.None? || rest.IsEmpty() then
      None
    else
      var order := Sort(rest.keys);
      AscendingDistinct(order);
      assert forall c :: c in order <==> c in rest.keys by {
        forall c ensures c in order <==> c in rest.keys {
          assert c in order <==> c in multiset(order);
          assert c in rest.keys <==> c in multiset(rest.keys);
        }
      }
      Some(Hash(order, map c | c in rest.vals :: round(Relative(s.amount, rest.vals[c], divisor.value))))
  }

  /** A rebased date lists its currencies in ascending order, and the base
      currency is not among them. */
  lemma RebaseDayShape(day: DayRates, s: Settings, round: real -> real)
    requires day.Wf() && DivisorOk(day, s) && Survives(day, s)
    ensures Ascending(RebaseDay(day, s, round).value.keys)
    ensures s.base !in RebaseDay(day, s, round).value.vals
  {
  }

  /** A rebased date holds exactly the currencies of the date (with EUR
      added when wanted) other than the base, each worth `amount` times its
      rate divided by the base's rate, rounded. */
  lemma RebaseDayEntry(day: DayRates, s: Settings, round: real -> real, c: string)
    requires day.Wf() && DivisorOk(day, s) && Survives(day, s)
    ensures var rates, r := WithEur(day, s), RebaseDay(day, s, round).value;
      s.base in rates.vals && rates.vals[s.base] != 0.0 &&
      (c in r.vals <==> c in rates.vals && c != s.base) &&
      (c in r.vals ==> r.vals[c] == round(Relative(s.amount, rates.vals[c], rates.vals[s.base])))
  {
  }

  /** A date survives exactly when the base has a rate on it and some other
      currency does too: this direction names that other currency. */
  lemma SurvivesWitness(day: DayRates, s: Settings) returns (c: string)
    requires day.Wf() && Survives(day, s)
    ensures s.base in WithEur(day, s).vals
    ensures c in WithEur(day, s).vals && c != s.base
  {
    var rest := WithEur(day, s).Delete(s.base);
    c := rest.keys[0];
    assert c in rest.keys;
  }

  /** A date survives exactly when the base has a rate on it and some other
      currency does too: this direction starts from that other currency. */
  lemma SurvivesFrom(day: DayRates, s: Settings, c: string)
    requires day.Wf()
    requires s.base in WithEur(day, s).vals
    requires c in WithEur(day, s).vals && c != s.base
    ensures Survives(day, s)
  {
    var rest := WithEur(day, s).Delete(s.base);
    assert c in rest.vals;
  }

  /** The rebased rates of every date of `t` that survives. */
  function RebaseMap(t: Table, s: Settings, round: real -> real): (f: map<string, DayRates>)
    requires Rebaseable(t, s)
    ensures forall d :: d in f <==> d in t.vals && Survives(t.vals[d], s)
    ensures forall d :: d in f ==> f[d] == RebaseDay(t.vals[d], s, round).value && f[d].Wf()
  {
    map d | d in t.vals && Survives(t.vals[d], s) :: RebaseDay(t.vals[d], s, round).value
  }

  /** rebase_rates applied to the whole table: dropped dates disappear, the
      others keep their place and get their rebased rates. */
  function Rebased(t: Table, s: Settings, round: real -> real): (r: Table)
    requires Rebaseable(t, s)
    ensures TableWf(r)
  {
    Transform(t, RebaseMap(t, s, round))
  }

  /** rebase_rates keeps exactly the dates that survive, in their order,
      each holding its rebased rates. */
  lemma RebasedEntries(t: Table, s: Settings, round: real -> real, d: string)
    requires Rebaseable(t, s)
    ensures d in Rebased(t, s, round).vals <==> d in t.vals && Survives(t.vals[d], s)
    ensures d in Rebased(t, s, round).vals ==>
      RebaseDay(t.vals[d], s, round) == Some(Rebased(t, s, round).vals[d])
    ensures Rebased(t, s, round).keys == Restrict(t.keys, RebaseMap(t, s, round).Keys)
  {
  }

  /** No date of the prepared table holds a base rate of zero, so no rebase
      divides by zero. Only asked when rebasing happens. */
  predicate DivisorsNonzero(rows: seq<Rate>, s: Settings, round: real -> real) {
    MustRebase(s) ==>
      var p := Prepared(rows, s.amount, round);
      forall d :: d in p.vals ==> p.vals[d].Get(s.base) != Some(0.0)
  }

  /** Adding EUR does not touch the rate of another base. */
  lemma WithEurKeepsBase(day: DayRates, s: Settings)
    requires day.Wf() && MustRebase(s)
    ensures WithEur(day, s).Get(s.base) == day.Get(s.base)
  {
  }

  /** When no prepared base rate is zero, no date of the prepared table has
      a zero divisor: adding EUR never changes another base's rate. */
  lemma PreparedRebaseable(rows: seq<Rate>, s: Settings, round: real -> real)
    requires MustRebase(s) && DivisorsNonzero(rows, s, round)
    ensures Rebaseable(Prepared(rows, s.amount, round), s)
  {
    var p := Prepared(rows, s.amount, round);
    forall d | d in p.vals
      ensures DivisorOk(p.vals[d], s)
    {
      WithEurKeepsBase(p.vals[d], s);
    }
  }

  /** What `perform` leaves in the result of a fresh quote: the prepared
      table, rebased when the base is not EUR. */
  function Compute(rows: seq<Rate>, s: Settings, round: real -> real): (t: Table)
    requires DivisorsNonzero(rows, s, round)
    ensures TableWf(t)
  {
    var prepared := Prepared(rows, s.amount, round);
    if MustRebase(s) then
      PreparedRebaseable(rows, s, round);
      Rebased(prepared, s, round)
    else
      prepared
  }

  // ---------------------------------------------------------------------
  // The fetch boundary
  // ---------------------------------------------------------------------

  /** Which dates the data layer is asked for: `Currency.latest(date)` or
      `Currency.between(date)`. Both are resolved outside this model. */
  datatype Scope = Latest(date: Option<DateParam>) | Between(range: Option<DateParam>)

  /** A composed fetch: the date scope, then `by_source(code)` when given,
      then `only(*codes)` when given. */
  datatype Query = Query(scope: Scope, bySource: Option<string>, only: Option<seq<string>>)

  /** The row passes the query's provider and currency restrictions (its
      date restriction is the data layer's). */
  predicate Admits(q: Query, row: Rate) {
    (q.bySource.Some? ==> row.source == q.bySource.value) &&
    (q.only.Some? ==> row.iso in q.only.value)
  }

  /** The row comes from the quote's source, when one is set. */
  predicate FromSource(s: Settings, row: Rate) {
    s.source.Some? ==> row.source == s.source.value
  }

  /** The row is for a requested currency or the base, when symbols are
      given. */
  predicate Requested(s: Settings, row: Rate) {
    s.symbols.Some? ==> row.iso in s.symbols.value || row.iso == s.base
  }
}
