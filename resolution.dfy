/** The constructor of Quote::Base (lib/quote/base.rb): parameter defaults
    and the choice of data provider (`resolve_source`). */
module Resolution {
  import opened Wrappers
  import opened Sources
  import opened Rates

  /** The `:source` entry of the parameters: absent, or present with a code
      or with nil. */
  datatype SourceParam = NoSourceKey | SourceKey(code: Option<string>)

  /** The parameters a quote is built from; nil is None. */
  datatype Params = Params(
    amount: Option<real>,
    base: Option<string>,
    date: Option<DateParam>,
    symbols: Option<seq<string>>,
    source: SourceParam)

  /** The three ArgumentErrors of resolve_source. */
  datatype ResolveError =
    | SourceNotFound(code: string)
    | NoSourceFor(currency: string)
    | NoDataFor(currency: string, code: string)

  /** The message each error is raised with. */
  function Message(e: ResolveError): (m: string)
    ensures e.SourceNotFound? ==>
      |m| >= 17 && m[..7] == "Source " && m[|m| - 10..] == " not found" && m[7..|m| - 10] == e.code
    ensures e.NoSourceFor? ==>
      |m| >= 29 && m[..29] == "No source found for currency " && m[29..] == e.currency
    ensures e.NoDataFor? ==>
      |m| >= 35 && m[..22] == "No data available for " && m[|m| - 7..] == " source" &&
      m[22..|m| - 7] == e.currency + " from " + e.code
  {
    match e
    case SourceNotFound(code) => "Source " + code + " not found"
    case NoSourceFor(currency) => "No source found for currency " + currency
    case NoDataFor(currency, code) =>
      "No data available for " + currency + " from " + code + " source"
  }

  /** Some stored row comes from provider `code`
      (`Currency.by_source(code).limit(1).any?`). */
  predicate HasData(store: seq<Rate>, code: string) {
    exists k :: 0 <= k < |store| && store[k].source == code
  }

  /** resolve_source: an explicit code is accepted when the registry knows
      it; otherwise the first provider anchored to `from` is taken, provided
      it has published some rates. */
  function Resolve(registry: seq<Source>, store: seq<Rate>, from: string, param: Option<string>)
    : (r: Result<string, ResolveError>)
    ensures r.Ok? ==> Registered(registry, r.value)
    ensures param.Some? ==>
      (r.Ok? <==> Registered(registry, param.value)) &&
      (r.Ok? ==> r.value == param.value) &&
      (r.Err? ==> r.error == SourceNotFound(param.value))
    ensures param.None? ==>
      (r == Err(NoSourceFor(from)) <==>
        forall i :: 0 <= i < |registry| ==> registry[i].baseCurrency != Some(from))
    ensures param.None? ==> forall i :: FirstAnchored(registry, from, i) ==>
      r == if HasData(store, registry[i].code) then Ok(registry[i].code)
           else Err(NoDataFor(from, registry[i].code))
  {
    match param
    case Some(code) =>
      if FindByCode(registry, code).Some? then Ok(code) else Err(SourceNotFound(code))
    case None =>
      match FirstWithBase(registry, from)
      case None => Err(NoSourceFor(from))
      case Some(src) =>
        assert Registered(registry, src.code) by {
          var i :| FirstAnchored(registry, from, i) && registry[i] == src;
        }
        assert forall i :: FirstAnchored(registry, from, i) ==> registry[i] == src by {
          forall i | FirstAnchored(registry, from, i) ensures registry[i] == src {
            var j :| FirstAnchored(registry, from, j) && registry[j] == src;
            FirstAnchoredUnique(registry, from, i, j);
          }
        }
        if HasData(store, src.code) then Ok(src.code) else Err(NoDataFor(from, src.code))
  }

  /** An explicit code is never checked for data: the stored rates do not
      influence the outcome. */
  lemma ExplicitIgnoresStore(registry: seq<Source>, store1: seq<Rate>, store2: seq<Rate>, from: string, code: string)
    ensures Resolve(registry, store1, from, Some(code)) == Resolve(registry, store2, from, Some(code))
  {
  }

  /** `initialize`: amount defaults to 1.0 and base to EUR, date and symbols
      are kept as given, and a provider is resolved exactly when the
      `:source` key is present, even with a nil value; a failed resolution
      fails the construction. */
  function Configure(p: Params, registry: seq<Source>, store: seq<Rate>): (r: Result<Settings, ResolveError>)
    ensures p.source.NoSourceKey? ==> r.Ok? && r.value.source.None?
    ensures p.source.SourceKey? ==>
      var res := Resolve(registry, store, p.base.GetOr(DefaultBase), p.source.code);
      (r.Ok? <==> res.Ok?) &&
      (r.Ok? ==> r.value.source == Some(res.value)) &&
      (r.Err? ==> r.error == res.error)
    ensures r.Ok? ==>
      (p.amount.None? ==> r.value.amount == 1.0) &&
      (p.amount.Some? ==> r.value.amount == p.amount.value) &&
      (p.base.None? ==> r.value.base == "EUR") &&
      (p.base.Some? ==> r.value.base == p.base.value) &&
      r.value.date == p.date && r.value.symbols == p.symbols
  {
    var amount := p.amount.GetOr(1.0);
    var base := p.base.GetOr(DefaultBase);
    match p.source
    case NoSourceKey => Ok(Settings(amount, base, p.date, p.symbols, None))
    case SourceKey(code) =>
      match Resolve(registry, store, base, code)
      case Ok(resolved) => Ok(Settings(amount, base, p.date, p.symbols, Some(resolved)))
      case Err(e) => Err(e)
  }
}
