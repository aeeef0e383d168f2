/** Quote::Base (lib/quote/base.rb): a quote object whose result hash is
    filled once by `perform` and frozen afterwards. */
module QuoteBase {
  import opened Wrappers
  import opened Hashes
  import opened Strings
  import opened Rates

  class Base {
    /** amount, base, date, symbols and source, fixed at construction. */
    const settings: Settings
    /** Roundable#round. */
    const round: real -> real
    /** `@result`, the `date -> {iso_code -> value}` hash. */
    var result: Table
    /** Whether `@result` has been frozen. */
    var frozen: bool

    /** The result is a well-formed table, and it is still `{}` until it is
        frozen. */
    ghost predicate Valid()
      reads this
    {
      TableWf(result) && (!frozen ==> result == EmptyTable())
    }

    /** The tail of `initialize`: `@result = {}`. */
    constructor (settings: Settings, round: real -> real)
      ensures Valid() && !frozen
      ensures this.settings == settings && this.round == round
      ensures result == EmptyTable()
    {
      this.settings := settings;
      this.round := round;
      result := EmptyTable();
      frozen := false;
    }

    /** `not_found?`: the result has no date. */
    function NotFound(): (r: bool)
      reads this
      requires Valid()
      ensures r <==> result.vals == map[]
    {
      assert result.keys != [] ==> result.keys[0] in result.vals;
      result.IsEmpty()
    }

    /** `perform`: a frozen result is left alone and false is returned;
        otherwise the rows are prepared, rebased when the base is not EUR,
        and the result is frozen. */
    method Perform(rows: seq<Rate>) returns (performed: bool)
      requires Valid() && DivisorsNonzero(rows, settings, round)
      modifies this
      ensures Valid() && frozen
      ensures performed == !old(frozen)
      ensures old(frozen) ==> result == old(result)
      ensures !old(frozen) ==> result == Compute(rows, settings, round)
    {
      if frozen {
        return false;
      }
      PrepareRates(rows);
      if MustRebase(settings) {
        PreparedRebaseable(rows, settings, round);
        RebaseRates();
      }
      frozen := true;
      return true;
    }

    /** `prepare_rates`: each row, in order, creates its date's entry on
        first sight and sets its currency to `round(amount * rate)`. */
    method PrepareRates(rows: seq<Rate>)
      requires TableWf(result)
      modifies this
      ensures result == PrepareInto(old(result), rows, settings.amount, round)
      ensures frozen == old(frozen)
    {
      var i := 0;
      while i < |rows|
        invariant 0 <= i <= |rows|
        invariant frozen == old(frozen)
        invariant TableWf(result)
        invariant result == PrepareInto(old(result), rows[..i], settings.amount, round)
      {
        PrepareRow(rows[i]);
        PrepareIntoStep(old(result), rows, i, settings.amount, round);
        i := i + 1;
      }
      assert rows[..i] == rows;
    }

    /** The block of prepare_rates for one row: `result[date] ||= {}`, then
        `result[date][iso_code] = round(amount * rate)`. */
    method PrepareRow(row: Rate)
      requires TableWf(result)
      modifies this
      ensures result == Record(old(result), row, settings.amount, round)
      ensures frozen == old(frozen)
    {
      if row.date !in result.vals {
        PutPut(result, row.date, Empty(), Empty<string, real>().Put(row.iso, round(Scale(settings.amount, row.rate))));
        result := result.Put(row.date, Empty());
      }
      var day := result.vals[row.date];
      result := result.Put(row.date, day.Put(row.iso, round(Scale(settings.amount, row.rate))));
    }

    /** `rebase_rates`: every date, in order, is rebased or deleted. */
    method RebaseRates()
      requires Rebaseable(result, settings)
      modifies this
      ensures result == Rebased(old(result), settings, round)
      ensures frozen == old(frozen)
    {
      result := RebasedResult();
    }

    /** The loop of rebase_rates: the dates of `result`, in order, are each
        rebased or deleted, working on a copy that `RebaseRates` stores
        back. */
    method RebasedResult() returns (table: Table)
      requires Rebaseable(result, settings)
      ensures table == Rebased(result, settings, round)
    {
      table := result;
      var dates := table.keys;
      VisitStart(result, RebaseMap(result, settings, round));
      var i := 0;
      while i < |dates|
        invariant 0 <= i <= |dates|
        invariant Visited(result, RebaseMap(result, settings, round), i, table)
      {
        table := RebaseDate(result, i, dates[i], table);
        i := i + 1;
      }
      RebasedAtEnd(result, settings, round, table);
    }

    /** The block of rebase_rates for the `i`-th date of `t`: EUR is set when
        wanted, the base is deleted and kept as the divisor, and the date is
        deleted or replaced by its sorted, divided rates. */
    method RebaseDate(ghost t: Table, ghost i: int, date: string, table: Table) returns (next: Table)
      requires Rebaseable(t, settings)
      requires Visited(t, RebaseMap(t, settings, round), i, table) && i < |t.keys| && date == t.keys[i]
      ensures next == Visit(t, RebaseMap(t, settings, round), i, table)
      ensures Visited(t, RebaseMap(t, settings, round), i + 1, next)
    {
      VisitKey(t.keys, i);
      assert table.vals[date] == t.vals[date];
      var rebased := RebaseRatesOf(table.vals[date]);
      if rebased.None? {
        next := table.Delete(date);
      } else {
        next := table.Put(date, rebased.value);
      }
      VisitStep(t, RebaseMap(t, settings, round), i, table);
    }

    /** The rates of one date as the block of rebase_rates leaves them:
        None when the date is deleted. */
    method RebaseRatesOf(day: DayRates) returns (rebased: Option<DayRates>)
      requires day.Wf()
      requires DivisorOk(day, settings)
      ensures rebased == RebaseDay(day, settings, round)
    {
      var rates := day;
      if settings.symbols.None? || "EUR" in settings.symbols.value {
        rates := rates.Put("EUR", settings.amount);
      }
      assert rates == WithEur(day, settings);
      var divisor := rates.Get(settings.base);
      rates := rates.Delete(settings.base);
      if divisor.None? || rates.IsEmpty() {
        rebased := None;
      } else {
        var order := Sort(rates.keys);
        rebased := Some(Hash(order, map c | c in rates.vals :: round(Relative(settings.amount, rates.vals[c], divisor.value))));
      }
    }
  }

  /** A pass of rebase_rates that has visited every date leaves the rebased
      table. */
  lemma RebasedAtEnd(t: Table, s: Settings, round: real -> real, cur: Table)
    requires Rebaseable(t, s) && Visited(t, RebaseMap(t, s, round), |t.keys|, cur)
    ensures cur == Rebased(t, s, round)
  {
    VisitEnd(t, RebaseMap(t, s, round), cur);
  }
}
