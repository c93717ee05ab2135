/** Reference data: the five market tables, regions, countries, markets and
    symbols, and the case-insensitive symbol lookup by name. */
module Markets {
  import opened Wrappers
  import Text

  /** The five per-market data tables; replaces the name-to-model dictionary. */
  datatype MarketKind = IndiaStocks | UsStocks | IntlStocks | Crypto | PreciousMetals

  /** The market name each table is registered under. */
  function MarketName(k: MarketKind): string
  {
    match k
    case IndiaStocks => "india_stocks_indexes"
    case UsStocks => "us_stocks_indexes"
    case IntlStocks => "international_stocks_indexes"
    case Crypto => "crypto"
    case PreciousMetals => "precious_metals"
  }

  /** The dictionary's iteration order. */
  const TableOrder: seq<MarketKind> := [IndiaStocks, UsStocks, IntlStocks, Crypto, PreciousMetals]

  /** `TABLE_MODEL_MAP.get(name)`: the table registered under `name`, if any. */
  function TableFor(name: string): (k: Option<MarketKind>)
    ensures k.Some? ==> MarketName(k.value) == name
    ensures k.None? ==> forall m: MarketKind :: MarketName(m) != name
  {
    if name == "india_stocks_indexes" then Some(IndiaStocks)
    else if name == "us_stocks_indexes" then Some(UsStocks)
    else if name == "international_stocks_indexes" then Some(IntlStocks)
    else if name == "crypto" then Some(Crypto)
    else if name == "precious_metals" then Some(PreciousMetals)
    else None
  }

  /** Every table is found under its own name, and under no other. */
  lemma TableForName(k: MarketKind)
    ensures TableFor(MarketName(k)) == Some(k)
  {
  }

  /** The iteration order lists every table exactly once. */
  lemma TableOrderComplete(k: MarketKind)
    ensures k in TableOrder
    ensures forall i, j :: 0 <= i < j < |TableOrder| ==> TableOrder[i] != TableOrder[j]
  {
  }

  datatype Region = Region(id: int, code: string, name: string)

  datatype Country = Country(id: int, code: string, name: string, region: int)

  /** `title` holds the source's `label` column (`label` is a Dafny keyword). */
  datatype Market = Market(id: int, name: string, title: Option<string>)

  /** A tracked symbol; crypto and metals symbols usually have no country. */
  datatype Symbol = Symbol(
    id: int, name: string, title: Option<string>,
    market: Option<Market>, country: Option<int>)

  /** The table a symbol's data lives in, when its market is registered. */
  function TableOf(s: Symbol): Option<MarketKind>
  {
    if s.market.Some? then TableFor(s.market.value.name) else None
  }

  /** `market__name=` filter: the symbol belongs to the market of that table. */
  predicate InMarket(s: Symbol, kind: MarketKind)
  {
    s.market.Some? && s.market.value.name == MarketName(kind)
  }

  /** `Symbol.objects.filter(market__name=...)`, taken in catalog order (the
      query has no `order_by`). */
  function OfMarket(catalog: seq<Symbol>, kind: MarketKind): (r: seq<Symbol>)
    ensures |r| <= |catalog|
    ensures forall s :: s in r <==> s in catalog && InMarket(s, kind)
    ensures forall i :: 0 <= i < |r| ==> TableOf(r[i]) == Some(kind)
  {
    if |catalog| == 0 then []
    else
      var rest := OfMarket(catalog[1..], kind);
      if InMarket(catalog[0], kind) then
        TableForName(kind);
        [catalog[0]] + rest
      else rest
  }

  /** Outcome of `Symbol.objects.get(name__iexact=...)`. */
  datatype Lookup = NoMatch | Unique(symbol: Symbol) | Ambiguous

  /** The symbols whose name equals `name` ignoring case, taken in catalog order. */
  function NameMatches(catalog: seq<Symbol>, name: string): (r: seq<Symbol>)
    ensures forall s :: s in r <==> s in catalog && Text.SameIgnoringCase(s.name, name)
  {
    if |catalog| == 0 then []
    else
      var rest := NameMatches(catalog[1..], name);
      if Text.SameIgnoringCase(catalog[0].name, name) then [catalog[0]] + rest else rest
  }

  /** `get` raises DoesNotExist for no match and MultipleObjectsReturned for
      more than one. */
  function LookupByName(catalog: seq<Symbol>, name: string): (r: Lookup)
    ensures r.NoMatch? <==> forall s :: s in catalog ==> !Text.SameIgnoringCase(s.name, name)
    ensures r.Unique? ==> r.symbol in catalog && Text.SameIgnoringCase(r.symbol.name, name)
    ensures r.Unique? ==> forall s :: s in catalog && Text.SameIgnoringCase(s.name, name) ==> s == r.symbol
    ensures r.Ambiguous? <==> |NameMatches(catalog, name)| >= 2
  {
    var m := NameMatches(catalog, name);
    if |m| == 0 then NoMatch
    else if |m| == 1 then
      assert m[0] in m;
      Unique(m[0])
    else Ambiguous
  }
}
