/** What prepare_rates and rebase_rates (lib/quote/base.rb) promise about the
    result, stated in terms of the fetched rows. */
module RateProperties {
  import opened Wrappers
  import opened Hashes
  import opened Strings
  import opened Rates

  /** The dates of the rows, in fetch order, repeats included. */
  function DatesOf(rows: seq<Rate>): (ds: seq<string>)
    ensures |ds| == |rows|
    decreases |rows|
  {
    if rows == [] then [] else DatesOf(rows[..|rows| - 1]) + [rows[|rows| - 1].date]
  }

  lemma {:induction false} DatesOfIndex(rows: seq<Rate>, i: int)
    requires 0 <= i < |rows|
    ensures DatesOf(rows)[i] == rows[i].date
    decreases |rows|
  {
    if i < |rows| - 1 {
      DatesOfIndex(rows[..|rows| - 1], i);
    }
  }

  /** The prepared table lists its dates in the order the rows first
      mention them, each once. */
  lemma {:induction false} PreparedKeys(rows: seq<Rate>, amount: real, round: real -> real)
    ensures Prepared(rows, amount, round).keys == FirstSeen(DatesOf(rows))
    decreases |rows|
  {
    if rows == [] {
      PreparedNil(amount, round);
    } else {
      var init, last := rows[..|rows| - 1], rows[|rows| - 1];
      var p := Prepared(init, amount, round);
      PreparedKeys(init, amount, round);
      PreparedSnoc(rows, amount, round);
      RecordKeys(p, last, amount, round);
      var ds := DatesOf(rows);
      assert ds[..|ds| - 1] == DatesOf(init);
      assert last.date in p.vals <==> last.date in FirstSeen(DatesOf(init));
    }
  }

  /** A date is in the prepared table exactly when some row has it, and the
      first key is the first row's date. */
  lemma PreparedDates(rows: seq<Rate>, amount: real, round: real -> real, d: string)
    ensures d in Prepared(rows, amount, round).vals <==> d in DatesOf(rows)
    ensures rows != [] ==>
      (Prepared(rows, amount, round).keys != [] && Prepared(rows, amount, round).keys[0] == rows[0].date)
  {
    PreparedKeys(rows, amount, round);
    if rows != [] {
      DatesOfIndex(rows, 0);
    }
  }

  /** From any row, the last row with the same date and currency. */
  lemma {:induction false} LastIndex(rows: seq<Rate>, k: int) returns (l: int)
    requires 0 <= k < |rows|
    ensures k <= l && LastOfPair(rows, l)
    ensures rows[l].date == rows[k].date && rows[l].iso == rows[k].iso
    decreases |rows| - k
  {
    if LastOfPair(rows, k) {
      l := k;
    } else {
      var j :| k < j < |rows| && rows[j].date == rows[k].date && rows[j].iso == rows[k].iso;
      l := LastIndex(rows, j);
    }
  }

  /** Every fetched row has an entry under its date and currency. */
  lemma PreparedHas(rows: seq<Rate>, amount: real, round: real -> real, k: int)
    requires 0 <= k < |rows|
    ensures rows[k].date in Prepared(rows, amount, round).vals
    ensures rows[k].iso in Prepared(rows, amount, round).vals[rows[k].date].vals
  {
    var l := LastIndex(rows, k);
    PreparedLast(rows, amount, round, l);
  }

  /** When rebasing, the result is the prepared table rebased date by
      date. */
  lemma ComputeRebased(rows: seq<Rate>, s: Settings, round: real -> real)
    requires MustRebase(s) && DivisorsNonzero(rows, s, round)
    ensures Rebaseable(Prepared(rows, s.amount, round), s)
    ensures Compute(rows, s, round) == Rebased(Prepared(rows, s.amount, round), s, round)
  {
    PreparedRebaseable(rows, s, round);
  }

  /** A date kept by the rebase has a row for the base currency and, unless
      EUR is added, a row for some other currency. */
  lemma RebasedDateFrom(rows: seq<Rate>, s: Settings, round: real -> real, d: string)
    returns (kb: int, ko: int)
    requires MustRebase(s) && DivisorsNonzero(rows, s, round)
    requires d in Compute(rows, s, round).vals
    ensures 0 <= kb < |rows| && rows[kb].date == d && rows[kb].iso == s.base
    ensures EurInScope(s) || (0 <= ko < |rows| && rows[ko].date == d && rows[ko].iso != s.base)
  {
    var p := Prepared(rows, s.amount, round);
    ComputeRebased(rows, s, round);
    var day := p.vals[d];
    var c := SurvivesWitness(day, s);
    kb := PreparedFrom(rows, s.amount, round, d, s.base);
    if EurInScope(s) {
      ko := kb;
    } else {
      ko := PreparedFrom(rows, s.amount, round, d, c);
    }
  }

  /** Conversely, a date with a row for the base currency is kept when EUR
      is added or another currency has a row on that date. */
  lemma RebasedDateFromRows(rows: seq<Rate>, s: Settings, round: real -> real, kb: int, ko: int)
    requires MustRebase(s) && DivisorsNonzero(rows, s, round)
    requires 0 <= kb < |rows| && rows[kb].iso == s.base
    requires EurInScope(s) || (0 <= ko < |rows| && rows[ko].date == rows[kb].date && rows[ko].iso != s.base)
    ensures rows[kb].date in Compute(rows, s, round).vals
  {
    var p := Prepared(rows, s.amount, round);
    var d := rows[kb].date;
    ComputeRebased(rows, s, round);
    PreparedHas(rows, s.amount, round, kb);
    var day := p.vals[d];
    if EurInScope(s) {
      SurvivesFrom(day, s, "EUR");
    } else {
      PreparedHas(rows, s.amount, round, ko);
      SurvivesFrom(day, s, rows[ko].iso);
    }
  }

  /** A rebased date lists its currencies in ascending order and never the
      base currency. */
  lemma RebasedShape(rows: seq<Rate>, s: Settings, round: real -> real, d: string)
    requires MustRebase(s) && DivisorsNonzero(rows, s, round)
    requires d in Compute(rows, s, round).vals
    ensures Ascending(Compute(rows, s, round).vals[d].keys)
    ensures s.base !in Compute(rows, s, round).vals[d].vals
  {
    var p := Prepared(rows, s.amount, round);
    ComputeRebased(rows, s, round);
    RebaseDayShape(p.vals[d], s, round);
  }

  /** On a kept date every currency other than the base that has a row is
      present, and so is EUR when it is added. */
  lemma RebasedHas(rows: seq<Rate>, s: Settings, round: real -> real, d: string, k: int)
    requires MustRebase(s) && DivisorsNonzero(rows, s, round)
    requires d in Compute(rows, s, round).vals
    requires 0 <= k < |rows| && rows[k].date == d && rows[k].iso != s.base
    ensures rows[k].iso in Compute(rows, s, round).vals[d].vals
    ensures EurInScope(s) ==> "EUR" in Compute(rows, s, round).vals[d].vals
  {
    var p := Prepared(rows, s.amount, round);
    ComputeRebased(rows, s, round);
    PreparedHas(rows, s.amount, round, k);
    RebaseDayEntry(p.vals[d], s, round, rows[k].iso);
    RebaseDayEntry(p.vals[d], s, round, "EUR");
  }

  /** Each value on a kept date is `amount` times the currency's prepared
      value divided by the base's prepared value, rounded, where a prepared
      value is the last matching row's rate times `amount`, rounded. EUR,
      when added, enters with `amount` itself as its prepared value. */
  lemma RebasedValue(rows: seq<Rate>, s: Settings, round: real -> real, d: string, c: string)
    returns (kb: int, kc: int)
    requires MustRebase(s) && DivisorsNonzero(rows, s, round)
    requires d in Compute(rows, s, round).vals
    requires c in Compute(rows, s, round).vals[d].vals
    ensures c != s.base
    ensures LastOfPair(rows, kb) && rows[kb].date == d && rows[kb].iso == s.base
    ensures round(Scale(s.amount, rows[kb].rate)) != 0.0
    ensures EurInScope(s) && c == "EUR" ==>
      Compute(rows, s, round).vals[d].vals[c] ==
        round(Relative(s.amount, s.amount, round(Scale(s.amount, rows[kb].rate))))
    ensures !(EurInScope(s) && c == "EUR") ==>
      LastOfPair(rows, kc) && rows[kc].date == d && rows[kc].iso == c &&
      Compute(rows, s, round).vals[d].vals[c] ==
        round(Relative(s.amount, round(Scale(s.amount, rows[kc].rate)), round(Scale(s.amount, rows[kb].rate))))
  {
    var p := Prepared(rows, s.amount, round);
    ComputeRebased(rows, s, round);
    var day := p.vals[d];
    RebaseDayEntry(day, s, round, c);
    var b := PreparedFrom(rows, s.amount, round, d, s.base);
    kb := LastIndex(rows, b);
    PreparedLast(rows, s.amount, round, kb);
    if EurInScope(s) && c == "EUR" {
      kc := kb;
    } else {
      var j := PreparedFrom(rows, s.amount, round, d, c);
      kc := LastIndex(rows, j);
      PreparedLast(rows, s.amount, round, kc);
    }
  }

  /** Rebasing keeps the surviving dates in the order the rows first
      mention them. */
  lemma RebasedKeys(rows: seq<Rate>, s: Settings, round: real -> real)
    requires MustRebase(s) && DivisorsNonzero(rows, s, round)
    ensures Rebaseable(Prepared(rows, s.amount, round), s)
    ensures Compute(rows, s, round).keys ==
      Restrict(FirstSeen(DatesOf(rows)), RebaseMap(Prepared(rows, s.amount, round), s, round).Keys)
  {
    ComputeRebased(rows, s, round);
    PreparedKeys(rows, s.amount, round);
  }

  /** Without a rebase the result lists every fetched date, in the order the
      rows first mention them, so it is empty exactly when nothing was
      fetched. */
  lemma UnrebasedKeys(rows: seq<Rate>, s: Settings, round: real -> real)
    requires !MustRebase(s)
    ensures Compute(rows, s, round).keys == FirstSeen(DatesOf(rows))
    ensures Compute(rows, s, round).keys == [] <==> rows == []
  {
    PreparedKeys(rows, s.amount, round);
    PreparedDates(rows, s.amount, round, "");
  }

  /** Without a rebase every fetched row is present under its date and
      currency, and the last such row gives the value: its rate times
      `amount`, rounded. */
  lemma UnrebasedValue(rows: seq<Rate>, s: Settings, round: real -> real, k: int)
    requires !MustRebase(s) && LastOfPair(rows, k)
    ensures rows[k].date in Compute(rows, s, round).vals
    ensures rows[k].iso in Compute(rows, s, round).vals[rows[k].date].vals
    ensures Compute(rows, s, round).vals[rows[k].date].vals[rows[k].iso] == round(Scale(s.amount, rows[k].rate))
  {
    PreparedLast(rows, s.amount, round, k);
  }

  /** When symbols are given and the fetch returned only requested rows,
      every currency of the result was requested, except the base itself
      on an unrebased quote; so the base currency is fetched only to serve
      as the divisor. */
  lemma ComputeRequested(rows: seq<Rate>, s: Settings, round: real -> real, d: string, c: string)
    requires DivisorsNonzero(rows, s, round)
    requires s.symbols.Some? && forall k :: 0 <= k < |rows| ==> Requested(s, rows[k])
    requires d in Compute(rows, s, round).vals && c in Compute(rows, s, round).vals[d].vals
    ensures c in s.symbols.value || (!MustRebase(s) && c == s.base)
  {
    if MustRebase(s) {
      var kb, kc := RebasedValue(rows, s, round, d, c);
      if !(EurInScope(s) && c == "EUR") {
        assert Requested(s, rows[kc]);
      }
    } else {
      var k := PreparedFrom(rows, s.amount, round, d, c);
      assert Requested(s, rows[k]);
    }
  }
}
