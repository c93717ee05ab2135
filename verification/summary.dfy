/** `global_market_summary_v2`: one entry per tracked index, grouped by
    region and country, with crypto and precious metals appended as
    pseudo-regions. */
module Summary {
  import opened Wrappers
  import opened Markets
  import opened Store
  import opened Zones
  import opened Momentum
  import Polling
  import Sorting
  import Text

  /** Both leverage keys of an entry; they are present together or not at all. */
  datatype LeverageDisplay = LeverageDisplay(moderate: string, aggressive: Option<string>)

  /** The dictionary `_build_index_data` returns (the `last_updated_at`
      timestamp left out). */
  datatype IndexEntry = IndexEntry(
    id: SymbolId, name: string, title: Option<string>, market: Option<string>,
    score: Option<int>, status: Polling.PollStatus,
    activeZone: Option<Zone>, zoneSinceDate: Option<Date>, zoneEntryValue: Option<int>,
    leverage: Option<LeverageDisplay>)

  /** `_build_index_data`: the score and zone of the newest row (whatever its
      `mv_score`), when that zone began according to the newest rows that do
      have an `mv_score`, the polling status (`ready` when none is stored),
      and the leverage pair when the newest row has a moderate leverage. */
  function BuildIndexData(s: Symbol, t: Table, statuses: map<SymbolId, Polling.PollStatus>): (e: IndexEntry)
    ensures e.id == s.id && e.name == s.name && e.title == s.title
    ensures e.market == (if s.market.Some? then Some(s.market.value.name) else None)
    ensures e.score == EntryScore(Latest(t, s.id)) && e.activeZone == ZoneOf(e.score)
    ensures e.status == (if s.id in statuses then statuses[s.id] else Polling.Ready)
    ensures (e.zoneSinceDate, e.zoneEntryValue) == ZoneSince(e.activeZone, ScoredWindow(t, s.id, SinceWindow))
    ensures e.leverage.Some? <==> Latest(t, s.id).Some? && Latest(t, s.id).value.fields.levModerate.Some?
    ensures e.leverage.Some? ==>
      var f := Latest(t, s.id).value.fields;
      e.leverage.value == LeverageDisplay(FormatLeverage(f.levModerate).value, FormatLeverage(f.levAggressive))
  {
    var latest := Latest(t, s.id);
    var score := EntryScore(latest);
    var zone := ZoneOf(score);
    var since := ZoneSince(zone, ScoredWindow(t, s.id, SinceWindow));
    var lev :=
      if latest.Some? && latest.value.fields.levModerate.Some? then
        Some(LeverageDisplay(FormatLeverage(latest.value.fields.levModerate).value,
                             FormatLeverage(latest.value.fields.levAggressive)))
      else None;
    IndexEntry(s.id, s.name, s.title, if s.market.Some? then Some(s.market.value.name) else None,
               score, if s.id in statuses then statuses[s.id] else Polling.Ready,
               zone, since.0, since.1, lev)
  }

  /** A zone start is reported only with an active zone; its score lies in
      that zone and its date is no later than the newest row's. */
  lemma IndexEntrySince(s: Symbol, t: Table, statuses: map<SymbolId, Polling.PollStatus>)
    ensures var e := BuildIndexData(s, t, statuses);
      e.zoneSinceDate.Some? ==>
        && e.activeZone.Some?
        && ZoneOf(e.zoneEntryValue) == e.activeZone
        && Latest(t, s.id).Some?
        && e.zoneSinceDate.value <= DateOf(Latest(t, s.id).value.ts)
  {
    var e := BuildIndexData(s, t, statuses);
    var w := ScoredWindow(t, s.id, SinceWindow);
    ZoneSinceInZone(e.activeZone, w);
    LatestIsNewest(t, s.id);
    if e.zoneSinceDate.Some? {
      var i :| 0 <= i < |w| && e.zoneSinceDate == Some(DateOf(w[i].ts));
      assert w[i] in t && w[i].symbol == s.id;
      DateOfMonotone(w[i].ts, Latest(t, s.id).value.ts);
    }
  }

  lemma DateOfMonotone(a: Timestamp, b: Timestamp)
    requires a <= b
    ensures DateOf(a) <= DateOf(b)
  {
  }

  /** The newest row has only a manual override (no `mv_score`), while the
      older one is red: the entry shows the green override as its zone but
      reports no zone start, because the start is looked up among rows with
      an `mv_score` only. */
  lemma ZoneSinceMismatch()
    ensures var older := StoredRow(7, SecondsPerDay, Blank.(mvScore := Some(20)));
      var newest := StoredRow(7, 2 * SecondsPerDay, Blank.(cbScore := Some(80)));
      var e := BuildIndexData(Symbol(7, "X", None, None, None), [older, newest], map[]);
      e.activeZone == Some(Green) && e.zoneSinceDate.None? && e.zoneEntryValue.None?
  {
    var older := StoredRow(7, SecondsPerDay, Blank.(mvScore := Some(20)));
    var newest := StoredRow(7, 2 * SecondsPerDay, Blank.(cbScore := Some(80)));
    var t := [older, newest];
    assert t[..1] == [older];
    assert RowsOf([], 7) == [];
    assert RowsOf([older], 7) == [older] by { assert [older][..0] == []; }
    assert RowsOf(t, 7) == [older, newest];
    var key := (r: StoredRow) => r.ts;
    assert Sorting.SortDesc([newest], key) == [newest];
    assert Sorting.SortDesc([older, newest], key) == Sorting.Insert(older, [newest], key);
    assert History(t, 7) == [newest, older];
    assert Scored([older]) == [older];
    assert Scored([newest, older]) == [older];
    assert ScoredWindow(t, 7, SinceWindow) == [older];
    assert ZoneAt([older], 0) == Some(Red);
    assert LeadingRun([older], Green) == 0;
  }

  /** A country of the tree; `id` is the database id it was built from (not
      part of the response; `None` for a pseudo-region's only country). The
      tree is first grouped over symbols (`E` = `Symbol`), then rendered into
      entries (`E` = `IndexEntry`). */
  datatype CountryNode<E> = CountryNode(id: Option<int>, code: string, name: string, indexes: seq<E>)

  /** A region of the tree (`id` as for countries). */
  datatype RegionNode<E> = RegionNode(id: Option<int>, code: string, name: string, countries: seq<CountryNode<E>>)

  function RegionKey(r: Region): int { 0 - r.id }

  function CountryKey(c: Country): int { 0 - c.id }

  /** `Region.objects.all().order_by('id')`. */
  function RegionsById(regions: seq<Region>): (r: seq<Region>)
    ensures multiset(r) == multiset(regions)
    ensures forall i, j :: 0 <= i < j < |r| ==> r[i].id <= r[j].id
  {
    Sorting.SortPermutes(regions, RegionKey);
    Sorting.SortDescending(regions, RegionKey);
    Sorting.SortDesc(regions, RegionKey)
  }

  /** `Country.objects.order_by('id')`, before filtering by region. */
  function CountriesById(countries: seq<Country>): (r: seq<Country>)
    ensures multiset(r) == multiset(countries)
    ensures forall i, j :: 0 <= i < j < |r| ==> r[i].id <= r[j].id
  {
    Sorting.SortPermutes(countries, CountryKey);
    Sorting.SortDescending(countries, CountryKey);
    Sorting.SortDesc(countries, CountryKey)
  }

  /** The symbols whose market has a table (`TABLE_MODEL_MAP.get` succeeds),
      taken in catalog order; the others are skipped. */
  function MappedSymbols(catalog: seq<Symbol>): (r: seq<Symbol>)
    ensures |r| <= |catalog|
    ensures forall s :: s in r <==> s in catalog && TableOf(s).Some?
  {
    if |catalog| == 0 then []
    else
      var rest := MappedSymbols(catalog[1..]);
      if TableOf(catalog[0]).Some? then [catalog[0]] + rest else rest
  }

  /** `Symbol.objects.filter(country=c)`, taken in catalog order. */
  function ListedSymbols(c: Country, catalog: seq<Symbol>): (r: seq<Symbol>)
    ensures |r| <= |catalog|
    ensures forall s :: s in r <==> s in catalog && s.country == Some(c.id)
  {
    if |catalog| == 0 then []
    else
      var rest := ListedSymbols(c, catalog[1..]);
      if catalog[0].country == Some(c.id) then [catalog[0]] + rest else rest
  }

  /** Every symbol of the grouped tree has a table to read its entry from. */
  predicate AllMapped(tree: seq<RegionNode<Symbol>>)
  {
    forall i, k, n :: 0 <= i < |tree| && 0 <= k < |tree[i].countries| && 0 <= n < |tree[i].countries[k].indexes| ==>
      TableOf(tree[i].countries[k].indexes[n]).Some?
  }

  /** The positions in `xs` of the elements satisfying `p`, in increasing order. */
  function Positions<T>(xs: seq<T>, p: T -> bool): (ks: seq<nat>)
    ensures forall i :: 0 <= i < |ks| ==> ks[i] < |xs| && p(xs[ks[i]])
    ensures forall i, j :: 0 <= i < j < |ks| ==> ks[i] < ks[j]
    ensures forall k :: 0 <= k < |xs| && p(xs[k]) ==> k in ks
  {
    if |xs| == 0 then []
    else
      var n := |xs| - 1;
      var ks := Positions(xs[..n], p);
      assert forall i :: 0 <= i < |ks| ==> xs[..n][ks[i]] == xs[ks[i]];
      assert forall k :: 0 <= k < n ==> xs[..n][k] == xs[k];
      if p(xs[n]) then ks + [n] else ks
  }

  /** A country gets a node when it belongs to the region and has symbols. */
  predicate KeepsCountry(region: Region, c: Country, catalog: seq<Symbol>)
  {
    c.region == region.id && |ListedSymbols(c, catalog)| > 0
  }

  /** Positions of the countries of `region` that get a node. */
  function KeptCountries(region: Region, countries: seq<Country>, catalog: seq<Symbol>): seq<nat>
  {
    Positions(countries, (c: Country) => KeepsCountry(region, c, catalog))
  }

  function CountryNodeOf(c: Country, catalog: seq<Symbol>): CountryNode<Symbol>
  {
    CountryNode(Some(c.id), c.code, c.name, ListedSymbols(c, catalog))
  }

  /** The country nodes of one region, in the order the countries are given:
      node `i` is the node of the `i`-th kept country. */
  function CountryNodes(region: Region, countries: seq<Country>, catalog: seq<Symbol>): (r: seq<CountryNode<Symbol>>)
    ensures |r| == |KeptCountries(region, countries, catalog)| <= |countries|
    ensures forall i :: 0 <= i < |r| ==> r[i].id.Some? && |r[i].indexes| > 0
    ensures forall i :: 0 <= i < |r| ==>
      && KeptCountries(region, countries, catalog)[i] < |countries|
      && KeepsCountry(region, countries[KeptCountries(region, countries, catalog)[i]], catalog)
      && r[i] == CountryNodeOf(countries[KeptCountries(region, countries, catalog)[i]], catalog)
  {
    var ks := KeptCountries(region, countries, catalog);
    assert |ks| <= |countries| by { PositionsBound(countries, (c: Country) => KeepsCountry(region, c, catalog)); }
    seq(|ks|, i requires 0 <= i < |ks| => CountryNodeOf(countries[ks[i]], catalog))
  }

  /** Increasing positions are at most as many as the elements. */
  lemma {:induction false} PositionsBound<T>(xs: seq<T>, p: T -> bool)
    ensures |Positions(xs, p)| <= |xs|
  {
    if |xs| > 0 {
      PositionsBound(xs[..|xs| - 1], p);
    }
  }

  /** Country node ids are present and in non-decreasing order. */
  predicate CountriesAscending<E>(nodes: seq<CountryNode<E>>)
  {
    && (forall i :: 0 <= i < |nodes| ==> nodes[i].id.Some?)
    && (forall i, j :: 0 <= i < j < |nodes| ==> nodes[i].id.value <= nodes[j].id.value)
  }

  /** Region node ids are present and in non-decreasing order. */
  predicate RegionsAscending<E>(nodes: seq<RegionNode<E>>)
  {
    && (forall i :: 0 <= i < |nodes| ==> nodes[i].id.Some?)
    && (forall i, j :: 0 <= i < j < |nodes| ==> nodes[i].id.value <= nodes[j].id.value)
  }

  /** Countries given in id order give country nodes in id order. */
  lemma CountryNodesOrdered(region: Region, countries: seq<Country>, catalog: seq<Symbol>)
    requires forall i, j :: 0 <= i < j < |countries| ==> countries[i].id <= countries[j].id
    ensures CountriesAscending(CountryNodes(region, countries, catalog))
  {
    var r := CountryNodes(region, countries, catalog);
    var ks := KeptCountries(region, countries, catalog);
    forall i, j | 0 <= i < j < |r| ensures r[i].id.value <= r[j].id.value {
      assert ks[i] < ks[j];
    }
  }

  /** A country of the region is left out only when it has no symbols. */
  lemma CountryNodesComplete(region: Region, countries: seq<Country>, catalog: seq<Symbol>, k: nat)
    requires k < |countries| && KeepsCountry(region, countries[k], catalog)
    ensures exists i ::
      && 0 <= i < |CountryNodes(region, countries, catalog)|
      && CountryNodes(region, countries, catalog)[i] == CountryNodeOf(countries[k], catalog)
  {
    var ks := KeptCountries(region, countries, catalog);
    assert k in ks;
    var i :| 0 <= i < |ks| && ks[i] == k;
    assert CountryNodes(region, countries, catalog)[i] == CountryNodeOf(countries[k], catalog);
  }

  /** A region gets a node when at least one of its countries does. */
  predicate KeepsRegion(g: Region, countries: seq<Country>, catalog: seq<Symbol>)
  {
    |CountryNodes(g, countries, catalog)| > 0
  }

  /** Positions of the regions that get a node. */
  function KeptRegions(regions: seq<Region>, countries: seq<Country>, catalog: seq<Symbol>): seq<nat>
  {
    Positions(regions, (g: Region) => KeepsRegion(g, countries, catalog))
  }

  function RegionNodeOf(g: Region, countries: seq<Country>, catalog: seq<Symbol>): RegionNode<Symbol>
  {
    RegionNode(Some(g.id), g.code, g.name, CountryNodes(g, countries, catalog))
  }

  /** The region nodes, in the order the regions are given: node `i` is the
      node of the `i`-th kept region. */
  function RegionNodes(regions: seq<Region>, countries: seq<Country>, catalog: seq<Symbol>): (r: seq<RegionNode<Symbol>>)
    ensures |r| == |KeptRegions(regions, countries, catalog)| <= |regions|
    ensures forall i :: 0 <= i < |r| ==> r[i].id.Some? && |r[i].countries| > 0
    ensures forall i :: 0 <= i < |r| ==>
      && KeptRegions(regions, countries, catalog)[i] < |regions|
      && r[i] == RegionNodeOf(regions[KeptRegions(regions, countries, catalog)[i]], countries, catalog)
  {
    var ks := KeptRegions(regions, countries, catalog);
    assert |ks| <= |regions| by { PositionsBound(regions, (g: Region) => KeepsRegion(g, countries, catalog)); }
    seq(|ks|, i requires 0 <= i < |ks| => RegionNodeOf(regions[ks[i]], countries, catalog))
  }

  /** Regions given in id order give region nodes in id order. */
  lemma RegionNodesOrdered(regions: seq<Region>, countries: seq<Country>, catalog: seq<Symbol>)
    requires forall i, j :: 0 <= i < j < |regions| ==> regions[i].id <= regions[j].id
    ensures RegionsAscending(RegionNodes(regions, countries, catalog))
  {
    var r := RegionNodes(regions, countries, catalog);
    var ks := KeptRegions(regions, countries, catalog);
    forall i, j | 0 <= i < j < |r| ensures r[i].id.value <= r[j].id.value {
      assert ks[i] < ks[j];
    }
  }

  /** A region is left out only when none of its countries has symbols. */
  lemma RegionNodesComplete(regions: seq<Region>, countries: seq<Country>, catalog: seq<Symbol>, k: nat)
    requires k < |regions| && KeepsRegion(regions[k], countries, catalog)
    ensures exists i ::
      && 0 <= i < |RegionNodes(regions, countries, catalog)|
      && RegionNodes(regions, countries, catalog)[i] == RegionNodeOf(regions[k], countries, catalog)
  {
    var ks := KeptRegions(regions, countries, catalog);
    assert k in ks;
    var i :| 0 <= i < |ks| && ks[i] == k;
    assert RegionNodes(regions, countries, catalog)[i] == RegionNodeOf(regions[k], countries, catalog);
  }

  /** A market listed as its own region: code is the market name upper-cased,
      with a single country of the same code and name holding every symbol
      of that market, whatever their country. Absent when the market has no
      symbols. */
  function PseudoRegion(kind: MarketKind, caption: string, catalog: seq<Symbol>): (r: seq<RegionNode<Symbol>>)
    ensures |r| == (if |OfMarket(catalog, kind)| > 0 then 1 else 0)
    ensures |r| == 1 ==>
      && r[0].id.None?
      && r[0].code == Text.Upper(MarketName(kind)) && r[0].name == caption
      && r[0].countries == [CountryNode(None, r[0].code, caption, OfMarket(catalog, kind))]
  {
    var syms := OfMarket(catalog, kind);
    if |syms| == 0 then []
    else
      var code := Text.Upper(MarketName(kind));
      [RegionNode(None, code, caption, [CountryNode(None, code, caption, syms)])]
  }

  /** The geographic part: regions and countries in id order, symbols
      whose market has no table skipped. */
  function GeoNodes(regions: seq<Region>, countries: seq<Country>, catalog: seq<Symbol>): seq<RegionNode<Symbol>>
  {
    RegionNodes(RegionsById(regions), CountriesById(countries), MappedSymbols(catalog))
  }

  /** The crypto pseudo-region, then the precious-metals one. */
  function PseudoNodes(catalog: seq<Symbol>): seq<RegionNode<Symbol>>
  {
    PseudoRegion(Crypto, "Crypto", catalog) + PseudoRegion(PreciousMetals, "Precious Metals", catalog)
  }

  /** The grouping of `global_market_summary_v2`. */
  function Grouping(regions: seq<Region>, countries: seq<Country>, catalog: seq<Symbol>): seq<RegionNode<Symbol>>
  {
    GeoNodes(regions, countries, catalog) + PseudoNodes(catalog)
  }

  /** The geographic regions and each region's countries come in id order,
      none is empty, and each country node holds exactly the catalog's
      symbols of that country whose market has a table. */
  lemma GeoNodesSpec(regions: seq<Region>, countries: seq<Country>, catalog: seq<Symbol>)
    ensures RegionsAscending(GeoNodes(regions, countries, catalog))
    ensures forall i :: 0 <= i < |GeoNodes(regions, countries, catalog)| ==>
      && |GeoNodes(regions, countries, catalog)[i].countries| > 0
      && CountriesAscending(GeoNodes(regions, countries, catalog)[i].countries)
    ensures forall i, k, s ::
      && 0 <= i < |GeoNodes(regions, countries, catalog)|
      && 0 <= k < |GeoNodes(regions, countries, catalog)[i].countries|
      ==>
      var node := GeoNodes(regions, countries, catalog)[i].countries[k];
      && |node.indexes| > 0
      && (s in node.indexes <==> s in catalog && TableOf(s).Some? && s.country == node.id)
  {
    var rs, cs, mapped := RegionsById(regions), CountriesById(countries), MappedSymbols(catalog);
    var geo := GeoNodes(regions, countries, catalog);
    RegionNodesOrdered(rs, cs, mapped);
    forall i | 0 <= i < |geo| ensures CountriesAscending(geo[i].countries) {
      CountryNodesOrdered(rs[KeptRegions(rs, cs, mapped)[i]], cs, mapped);
    }
  }

  /** The pseudo-regions: crypto first, then precious metals, each present
      exactly when its market has symbols, each without a database id and
      with a single country whose code and name are the region's and which
      holds every symbol of the market, taken in catalog order. */
  lemma PseudoNodesSpec(catalog: seq<Symbol>)
    ensures var p := PseudoNodes(catalog);
      && |p| == (if |OfMarket(catalog, Crypto)| > 0 then 1 else 0) + (if |OfMarket(catalog, PreciousMetals)| > 0 then 1 else 0)
      && (forall i :: 0 <= i < |p| ==> p[i].id.None? && |p[i].countries| == 1 && p[i].countries[0].code == p[i].code)
      && (|OfMarket(catalog, Crypto)| > 0 ==>
            p[0] == RegionNode(None, "CRYPTO", "Crypto", [CountryNode(None, "CRYPTO", "Crypto", OfMarket(catalog, Crypto))]))
      && (|OfMarket(catalog, PreciousMetals)| > 0 ==>
            p[|p| - 1] == RegionNode(None, "PRECIOUS_METALS", "Precious Metals",
              [CountryNode(None, "PRECIOUS_METALS", "Precious Metals", OfMarket(catalog, PreciousMetals))]))
  {
    UpperNames();
  }

  /** No region without countries and no country without entries. */
  predicate NoEmptyNodes<E>(tree: seq<RegionNode<E>>)
  {
    forall i :: 0 <= i < |tree| ==>
      && |tree[i].countries| > 0
      && forall k :: 0 <= k < |tree[i].countries| ==> |tree[i].countries[k].indexes| > 0
  }

  lemma ConcatNodes(a: seq<RegionNode<Symbol>>, b: seq<RegionNode<Symbol>>)
    requires AllMapped(a) && AllMapped(b) && NoEmptyNodes(a) && NoEmptyNodes(b)
    ensures AllMapped(a + b) && NoEmptyNodes(a + b)
  {
    var r := a + b;
    assert forall i :: 0 <= i < |a| ==> r[i] == a[i];
    assert forall i :: |a| <= i < |r| ==> r[i] == b[i - |a|];
  }

  lemma PseudoMapped(catalog: seq<Symbol>)
    ensures AllMapped(PseudoNodes(catalog)) && NoEmptyNodes(PseudoNodes(catalog))
  {
    var p := PseudoNodes(catalog);
    PseudoNodesSpec(catalog);
    forall i, k, n | 0 <= i < |p| && 0 <= k < |p[i].countries| && 0 <= n < |p[i].countries[k].indexes|
      ensures TableOf(p[i].countries[k].indexes[n]).Some?
    {
      var s := p[i].countries[k].indexes[n];
      assert s in p[i].countries[k].indexes;
      assert s in OfMarket(catalog, Crypto) || s in OfMarket(catalog, PreciousMetals);
    }
  }

  lemma GeoMapped(regions: seq<Region>, countries: seq<Country>, catalog: seq<Symbol>)
    ensures AllMapped(GeoNodes(regions, countries, catalog)) && NoEmptyNodes(GeoNodes(regions, countries, catalog))
  {
    var g := GeoNodes(regions, countries, catalog);
    GeoNodesSpec(regions, countries, catalog);
    forall i, k, n | 0 <= i < |g| && 0 <= k < |g[i].countries| && 0 <= n < |g[i].countries[k].indexes|
      ensures TableOf(g[i].countries[k].indexes[n]).Some?
    {
      assert g[i].countries[k].indexes[n] in g[i].countries[k].indexes;
    }
  }

  /** Every symbol of the grouping has a table to read its entry from, and
      the grouping has no empty region or country. */
  lemma GroupingMapped(regions: seq<Region>, countries: seq<Country>, catalog: seq<Symbol>)
    ensures AllMapped(Grouping(regions, countries, catalog))
    ensures NoEmptyNodes(Grouping(regions, countries, catalog))
  {
    GeoMapped(regions, countries, catalog);
    PseudoMapped(catalog);
    ConcatNodes(GeoNodes(regions, countries, catalog), PseudoNodes(catalog));
  }

  lemma UpperNames()
    ensures Text.Upper(MarketName(Crypto)) == "CRYPTO"
    ensures Text.Upper(MarketName(PreciousMetals)) == "PRECIOUS_METALS"
  {
    assert MarketName(Crypto) == "crypto";
    assert MarketName(PreciousMetals) == "precious_metals";
  }

  /** The entry of one grouped symbol, read from its market's table. */
  function EntryOf(s: Symbol, db: Db, statuses: map<SymbolId, Polling.PollStatus>): IndexEntry
    requires TableOf(s).Some?
  {
    BuildIndexData(s, db.Get(TableOf(s).value), statuses)
  }

  /** Replaces every symbol of the grouping by its entry, keeping the shape. */
  function Render(tree: seq<RegionNode<Symbol>>, db: Db, statuses: map<SymbolId, Polling.PollStatus>): (r: seq<RegionNode<IndexEntry>>)
    requires AllMapped(tree)
    ensures |r| == |tree|
    ensures forall i :: 0 <= i < |r| ==>
      && r[i].id == tree[i].id && r[i].code == tree[i].code && r[i].name == tree[i].name
      && |r[i].countries| == |tree[i].countries|
      && forall k :: 0 <= k < |r[i].countries| ==>
           var c, g := r[i].countries[k], tree[i].countries[k];
           && c.id == g.id && c.code == g.code && c.name == g.name
           && |c.indexes| == |g.indexes|
           && forall n :: 0 <= n < |c.indexes| ==> c.indexes[n] == EntryOf(g.indexes[n], db, statuses)
  {
    seq(|tree|, i requires 0 <= i < |tree| =>
      var g := tree[i];
      RegionNode(g.id, g.code, g.name, seq(|g.countries|, k requires 0 <= k < |g.countries| =>
        var c := g.countries[k];
        CountryNode(c.id, c.code, c.name, seq(|c.indexes|, n requires 0 <= n < |c.indexes| =>
          EntryOf(c.indexes[n], db, statuses))))))
  }

  /** `global_market_summary_v2`'s response body. */
  function MarketSummary(regions: seq<Region>, countries: seq<Country>, catalog: seq<Symbol>, db: Db,
                         statuses: map<SymbolId, Polling.PollStatus>): seq<RegionNode<IndexEntry>>
  {
    GroupingMapped(regions, countries, catalog);
    Render(Grouping(regions, countries, catalog), db, statuses)
  }
}
