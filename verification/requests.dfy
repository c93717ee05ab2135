/** The request-handling endpoints that read the tables: `chart_data`, and
    the validation and data selection of `simulate`, `simulate_portfolio`
    and `simulate_portfolio_advanced`. The floating-point arithmetic of the
    simulations is not modelled: a simulation's outcome is the data it
    would compute with. */
module Requests {
  import opened Wrappers
  import opened Markets
  import opened Store
  import opened Zones
  import opened Momentum
  import Sorting
  import Text

  /** A scalar from a JSON request body: a string or a whole number. */
  datatype Value = Str(s: string) | Num(n: int)

  /** Python truthiness of a body field: absent, `null`, `""` and `0` are false. */
  predicate Present(v: Option<Value>)
  {
    match v
    case None => false
    case Some(Str(s)) => |s| > 0
    case Some(Num(n)) => n != 0
  }

  /** What a 400 response names as its cause. */
  datatype RequestError =
    | MissingFields
    | InvalidMarket
    | BadDate
    | NotEnoughData
    | BadAllocations(total: int)
    | BadStrategyMix(total: int)
    | UnknownSymbol(name: string)

  /** A non-200 response: 400 with a cause, 404 for an unknown symbol, or an
      uncaught exception (500). */
  datatype Failure = BadRequest(error: RequestError) | NotFound(name: string) | ServerError

  function StatusCode(f: Failure): int
  {
    match f
    case BadRequest(_) => 400
    case NotFound(_) => 404
    case ServerError => 500
  }

  /** `TABLE_MODEL_MAP.get(market_type)`: only a string can name a table. */
  function MarketOf(v: Value): (k: Option<MarketKind>)
    ensures k.Some? ==> v == Str(MarketName(k.value))
    ensures v.Num? ==> k.None?
  {
    if v.Str? then TableFor(v.s) else None
  }

  /** The name a body value is looked up by: a number is compared as its
      decimal text. */
  function NameOf(v: Value): (name: string)
    ensures v.Str? ==> name == v.s
    ensures v.Num? ==> Text.ParseInt(name) == Some(v.n)
  {
    match v
    case Str(s) => s
    case Num(n) => Text.IntRoundTrip(n); Text.IntToString(n)
  }

  /** Python's `int(s)` on a string: surrounding whitespace, an optional
      sign, then decimal digits. */
  function PyInt(s: string): (r: Option<int>)
    ensures r.Some? ==> |Text.Strip(s)| >= 1
  {
    var t := Text.Strip(s);
    if |t| >= 2 && t[0] == '+' && Text.AllDigits(t[1..]) then Some(Text.DigitsToNat(t[1..]))
    else Text.ParseInt(t)
  }

  /** `int` reads back `str(n)`, whatever whitespace surrounds it. */
  lemma PyIntRoundTrip(n: int, pre: string, post: string)
    requires Text.AllSpace(pre) && Text.AllSpace(post)
    ensures PyInt(pre + Text.IntToString(n) + post) == Some(n)
  {
    var core := Text.IntToString(n);
    assert !Text.IsSpace(core[0]);
    assert !Text.IsSpace(core[|core| - 1]) by {
      if n < 0 { assert core[1..][|core| - 2] == core[|core| - 1]; }
    }
    Text.StripPadded(pre, core, post);
    Text.IntRoundTrip(n);
  }

  /** A leading `+` is accepted and ignored. */
  lemma PyIntPlus(n: nat)
    ensures PyInt("+" + Text.IntToString(n)) == Some(n)
  {
    var t := "+" + Text.IntToString(n);
    assert Text.Trimmed(t);
    Text.StripTrimmed(t);
    assert t[1..] == Text.IntToString(n);
    Text.IntRoundTrip(n);
  }

  /** `int(duration)`: a number as it is, a string parsed. */
  function Years(v: Value): Option<int>
  {
    match v
    case Num(n) => Some(n)
    case Str(s) => PyInt(s)
  }

  const DaysPerYear: int := 365

  /** The closed timestamp range `[start, start + duration * 365 days]`. */
  datatype Window = Window(lo: Timestamp, hi: Timestamp)

  /** The `strptime` / `int(duration)` block: the start date must be a
      string in the accepted format (`parseDate` stands for `strptime`), the
      duration an integer; anything else is the 400 the block catches. */
  function ParseWindow(parseDate: string -> Option<Date>, start: Value, duration: Value): (w: Option<Window>)
    ensures w.Some? <==> start.Str? && parseDate(start.s).Some? && Years(duration).Some?
    ensures w.Some? ==>
      && w.value.lo % SecondsPerDay == 0
      && DateOf(w.value.lo) == parseDate(start.s).value
      && DateOf(w.value.hi) == parseDate(start.s).value + Years(duration).value * DaysPerYear
      && w.value.hi - w.value.lo == Years(duration).value * DaysPerYear * SecondsPerDay
  {
    var day := if start.Str? then parseDate(start.s) else None;
    var years := Years(duration);
    if day.None? || years.None? then None
    else
      var lo := day.value * SecondsPerDay;
      var hi := (day.value + years.value * DaysPerYear) * SecondsPerDay;
      Some(Window(lo, hi))
  }

  /** The sort key for `order_by('price_timestamp')`: oldest first. */
  function NegTs(r: StoredRow): int
  {
    0 - r.ts
  }

  /** Rows in chronological order, rows with equal timestamps keeping their
      table order. */
  function Chrono(rows: seq<StoredRow>): seq<StoredRow>
  {
    Sorting.SortDesc(rows, NegTs)
  }

  /** The chronological order holds exactly the given rows, oldest first. */
  lemma ChronoShape(rows: seq<StoredRow>)
    ensures multiset(Chrono(rows)) == multiset(rows)
    ensures |Chrono(rows)| == |rows|
    ensures forall i, j :: 0 <= i < j < |Chrono(rows)| ==> Chrono(rows)[i].ts <= Chrono(rows)[j].ts
  {
    Sorting.SortPermutes(rows, NegTs);
    Sorting.SortDescending(rows, NegTs);
    assert |multiset(Chrono(rows))| == |multiset(rows)|;
  }

  // ─── chart_data ───────────────────────────────────────────────────

  /** One point of a chart. `close`, `open`, `high` and `low` pass through
      Python truthiness, so a zero price is shown as missing. */
  datatype ChartPoint = ChartPoint(
    date: Date, close: Option<int>, open: Option<int>, high: Option<int>, low: Option<int>,
    volume: Option<int>, smartIndex: Option<int>,
    levModerate: Option<string>, levAggressive: Option<string>)

  /** `float(p) if p else None`. */
  function Price(p: Option<int>): (r: Option<int>)
    ensures r.Some? <==> p.Some? && p.value != 0
    ensures r.Some? ==> r == p
  {
    if p.Some? && p.value != 0 then p else None
  }

  function PointOf(x: StoredRow): ChartPoint
  {
    var f := x.fields;
    ChartPoint(DateOf(x.ts), Price(f.close), Price(f.open), Price(f.high), Price(f.low),
               f.volume, ScoreOf(f), FormatLeverage(f.levModerate), FormatLeverage(f.levAggressive))
  }

  /** A point keeps the row's day, volume and non-zero prices, shows the
      manual score over the model score, and its leverage text reads back
      to the stored leverage. */
  lemma PointFaithful(x: StoredRow)
    ensures DateOf(x.ts) * SecondsPerDay <= x.ts < (PointOf(x).date + 1) * SecondsPerDay
    ensures PointOf(x).volume == x.fields.volume
    ensures PointOf(x).close.Some? ==> PointOf(x).close == x.fields.close
    ensures PointOf(x).close.None? <==> x.fields.close.None? || x.fields.close == Some(0)
    ensures x.fields.cbScore.Some? ==> PointOf(x).smartIndex == x.fields.cbScore
    ensures x.fields.cbScore.None? ==> PointOf(x).smartIndex == x.fields.mvScore
    ensures PointOf(x).levModerate.None? <==> x.fields.levModerate.None?
    ensures PointOf(x).levModerate.Some? ==> ParseLeverage(PointOf(x).levModerate.value) == x.fields.levModerate
    ensures PointOf(x).levAggressive.Some? ==> ParseLeverage(PointOf(x).levAggressive.value) == x.fields.levAggressive
  {
    if x.fields.levModerate.Some? { LeverageRoundTrip(x.fields.levModerate.value); }
    if x.fields.levAggressive.Some? { LeverageRoundTrip(x.fields.levAggressive.value); }
  }

  function Points(rows: seq<StoredRow>): (p: seq<ChartPoint>)
    ensures |p| == |rows|
    ensures forall i :: 0 <= i < |rows| ==> p[i] == PointOf(rows[i])
  {
    seq(|rows|, i requires 0 <= i < |rows| => PointOf(rows[i]))
  }

  /** `chart_data`: the requested table's rows of the symbol, oldest first.
      The table comes from the URL, not from the symbol's own market. */
  function ChartData(catalog: seq<Symbol>, db: Db, market: string, name: string): Result<seq<ChartPoint>, Failure>
  {
    var kind := TableFor(market);
    if kind.None? then Err(BadRequest(InvalidMarket))
    else
      match LookupByName(catalog, name)
      case NoMatch => Err(NotFound(name))
      case Ambiguous => Err(ServerError)
      case Unique(s) => Ok(Points(Chrono(RowsOf(db.Get(kind.value), s.id))))
  }

  /** The three failures of `chart_data`, each exactly when its condition
      holds: an unknown market (400), no symbol of that name (404), and
      several symbols of that name, which nothing catches (500). */
  lemma ChartDataFailures(catalog: seq<Symbol>, db: Db, market: string, name: string)
    ensures ChartData(catalog, db, market, name) == Err(BadRequest(InvalidMarket))
        <==> forall m: MarketKind :: MarketName(m) != market
    ensures ChartData(catalog, db, market, name) == Err(NotFound(name))
        <==> TableFor(market).Some? && forall s :: s in catalog ==> !Text.SameIgnoringCase(s.name, name)
    ensures ChartData(catalog, db, market, name) == Err(ServerError)
        <==> TableFor(market).Some? && |NameMatches(catalog, name)| >= 2
  {
    if TableFor(market).Some? { TableForName(TableFor(market).value); }
  }

  /** The points of rows put in chronological order: one per row, every
      row represented, days never decreasing. */
  lemma ChronoPoints(rows: seq<StoredRow>)
    ensures |Points(Chrono(rows))| == |rows|
    ensures forall x :: x in rows ==> PointOf(x) in Points(Chrono(rows))
    ensures forall i :: 0 <= i < |rows| ==> Chrono(rows)[i] in rows && Points(Chrono(rows))[i] == PointOf(Chrono(rows)[i])
    ensures forall i, j :: 0 <= i < j < |rows| ==> Points(Chrono(rows))[i].date <= Points(Chrono(rows))[j].date
  {
    var c := Chrono(rows);
    ChronoShape(rows);
    var pts := Points(c);
    forall x | x in rows
      ensures PointOf(x) in pts
    {
      assert x in multiset(c);
      var i :| 0 <= i < |c| && c[i] == x;
      assert pts[i] == PointOf(x);
    }
    forall i | 0 <= i < |rows|
      ensures c[i] in rows
    {
      assert c[i] in multiset(rows);
    }
    forall i, j | 0 <= i < j < |rows|
      ensures pts[i].date <= pts[j].date
    {
      assert c[i].ts <= c[j].ts;
    }
  }

  /** `p` is the point of some row of symbol `id` in `t`. */
  predicate PointOfRow(t: Table, id: SymbolId, p: ChartPoint)
  {
    exists x :: x in t && x.symbol == id && p == PointOf(x)
  }

  /** A successful chart has one point per row of the symbol in the
      requested table, every such row appears, and the days never decrease. */
  lemma ChartDataOk(catalog: seq<Symbol>, db: Db, kind: MarketKind, s: Symbol, name: string)
    requires LookupByName(catalog, name) == Unique(s)
    ensures ChartData(catalog, db, MarketName(kind), name).Ok?
    ensures var pts := ChartData(catalog, db, MarketName(kind), name).value;
      && |pts| == |RowsOf(db.Get(kind), s.id)|
      && (forall x :: x in db.Get(kind) && x.symbol == s.id ==> PointOf(x) in pts)
      && (forall i :: 0 <= i < |pts| ==> PointOfRow(db.Get(kind), s.id, pts[i]))
      && (forall i, j :: 0 <= i < j < |pts| ==> pts[i].date <= pts[j].date)
  {
    TableForName(kind);
    var rows := RowsOf(db.Get(kind), s.id);
    var pts := Points(Chrono(rows));
    assert ChartData(catalog, db, MarketName(kind), name) == Ok(pts);
    ChronoPoints(rows);
    forall i | 0 <= i < |pts|
      ensures PointOfRow(db.Get(kind), s.id, pts[i])
    {
      var x := Chrono(rows)[i];
      assert x in rows && pts[i] == PointOf(x);
      assert x in db.Get(kind) && x.symbol == s.id;
    }
  }

  // ─── simulate ─────────────────────────────────────────────────────

  datatype SimulateRequest = SimulateRequest(
    market: Option<Value>, symbol: Option<Value>, amount: Option<Value>,
    startDate: Option<Value>, duration: Option<Value>)

  /** The parsers the endpoints rely on: `strptime` with `%Y-%m-%d`, and
      whether `float` accepts a string. */
  datatype Parsers = Parsers(date: string -> Option<Date>, isFloat: string -> bool)

  /** `float(amount)` succeeds. */
  predicate AmountParses(p: Parsers, v: Value)
  {
    v.Num? || p.isFloat(v.s)
  }

  /** The return is computed from the first and last close: both must be set
      and the first must be non-zero, or the division raises. */
  predicate PricesUsable(entries: seq<StoredRow>)
  {
    && |entries| >= 2
    && entries[0].fields.close.Some? && entries[0].fields.close.value != 0
    && entries[|entries| - 1].fields.close.Some?
  }

  /** The data a successful simulation computes with. */
  datatype Simulation = Simulation(symbol: Symbol, window: Window, entries: seq<StoredRow>)

  predicate SimulateFieldsPresent(req: SimulateRequest)
  {
    Present(req.market) && Present(req.symbol) && Present(req.amount) && Present(req.startDate) && Present(req.duration)
  }

  /** `simulate`: the checks in the order the view makes them. */
  function Simulate(catalog: seq<Symbol>, db: Db, p: Parsers, req: SimulateRequest): Result<Simulation, Failure>
  {
    if !SimulateFieldsPresent(req) then Err(BadRequest(MissingFields))
    else
      var kind := MarketOf(req.market.value);
      if kind.None? then Err(BadRequest(InvalidMarket))
      else
        var name := NameOf(req.symbol.value);
        match LookupByName(catalog, name)
        case NoMatch => Err(NotFound(name))
        case Ambiguous => Err(ServerError)
        case Unique(s) =>
          var w := ParseWindow(p.date, req.startDate.value, req.duration.value);
          if w.None? then Err(BadRequest(BadDate))
          else
            var entries := Chrono(RowsBetween(db.Get(kind.value), s.id, w.value.lo, w.value.hi));
            if |entries| < 2 then Err(BadRequest(NotEnoughData))
            else if !AmountParses(p, req.amount.value) || !PricesUsable(entries) then Err(ServerError)
            else Ok(Simulation(s, w.value, entries))
  }

  /** Each 400 and 404 of `simulate` happens exactly when every earlier
      check has passed and its own fails; "not enough data" means fewer than
      two rows of the symbol in the window. */
  lemma SimulateFailures(catalog: seq<Symbol>, db: Db, p: Parsers, req: SimulateRequest)
    ensures Simulate(catalog, db, p, req) == Err(BadRequest(MissingFields)) <==> !SimulateFieldsPresent(req)
    ensures Simulate(catalog, db, p, req) == Err(BadRequest(InvalidMarket))
        <==> SimulateFieldsPresent(req) && MarketOf(req.market.value).None?
    ensures Simulate(catalog, db, p, req).Err? && Simulate(catalog, db, p, req).error.NotFound?
        <==> && SimulateFieldsPresent(req) && MarketOf(req.market.value).Some?
             && forall s :: s in catalog ==> !Text.SameIgnoringCase(s.name, NameOf(req.symbol.value))
    ensures Simulate(catalog, db, p, req) == Err(BadRequest(BadDate))
        <==> && SimulateFieldsPresent(req) && MarketOf(req.market.value).Some?
             && LookupByName(catalog, NameOf(req.symbol.value)).Unique?
             && ParseWindow(p.date, req.startDate.value, req.duration.value).None?
    ensures Simulate(catalog, db, p, req) == Err(BadRequest(NotEnoughData))
        <==> && SimulateFieldsPresent(req) && MarketOf(req.market.value).Some?
             && LookupByName(catalog, NameOf(req.symbol.value)).Unique?
             && ParseWindow(p.date, req.startDate.value, req.duration.value).Some?
             && var w := ParseWindow(p.date, req.startDate.value, req.duration.value).value;
                |RowsBetween(db.Get(MarketOf(req.market.value).value),
                             LookupByName(catalog, NameOf(req.symbol.value)).symbol.id, w.lo, w.hi)| < 2
  {
    if SimulateFieldsPresent(req) && MarketOf(req.market.value).Some?
       && LookupByName(catalog, NameOf(req.symbol.value)).Unique?
       && ParseWindow(p.date, req.startDate.value, req.duration.value).Some?
    {
      var w := ParseWindow(p.date, req.startDate.value, req.duration.value).value;
      ChronoShape(RowsBetween(db.Get(MarketOf(req.market.value).value),
                              LookupByName(catalog, NameOf(req.symbol.value)).symbol.id, w.lo, w.hi));
    }
  }

  /** A successful simulation is about the one symbol of the requested
      name, its window is the parsed one (from midnight of the requested
      day to `365 * duration` days later), its amount parses, and it holds
      every row of that symbol in the requested table within the window, at
      least two, oldest first. */
  lemma SimulateOk(catalog: seq<Symbol>, db: Db, p: Parsers, req: SimulateRequest)
    ensures Simulate(catalog, db, p, req).Ok? ==>
      && SimulateFieldsPresent(req) && MarketOf(req.market.value).Some?
      && var sim := Simulate(catalog, db, p, req).value;
      && LookupByName(catalog, NameOf(req.symbol.value)) == Unique(sim.symbol)
      && req.startDate.value.Str?
      && p.date(req.startDate.value.s) == Some(DateOf(sim.window.lo))
      && ParseWindow(p.date, req.startDate.value, req.duration.value).Some?
      && sim.window == ParseWindow(p.date, req.startDate.value, req.duration.value).value
      && AmountParses(p, req.amount.value)
      && PricesUsable(sim.entries)
      && (forall x :: x in sim.entries
            <==> x in db.Get(MarketOf(req.market.value).value) && x.symbol == sim.symbol.id
                 && sim.window.lo <= x.ts <= sim.window.hi)
      && (forall i, j :: 0 <= i < j < |sim.entries| ==> sim.entries[i].ts <= sim.entries[j].ts)
  {
    if Simulate(catalog, db, p, req).Ok? {
      var sim := Simulate(catalog, db, p, req).value;
      var kind := MarketOf(req.market.value).value;
      var rows := RowsBetween(db.Get(kind), sim.symbol.id, sim.window.lo, sim.window.hi);
      ChronoShape(rows);
      forall x ensures x in sim.entries <==> x in rows {
        assert x in sim.entries <==> x in multiset(rows);
      }
    }
  }

  // ─── simulate_portfolio ──────────────────────────────────────────

  /** One entry of a `{name: percent}` body dictionary, in its order. */
  datatype Share = Share(name: string, pct: int)

  /** `sum(d.values())`. */
  function Total(shares: seq<Share>): int
  {
    if |shares| == 0 then 0 else Total(shares[..|shares| - 1]) + shares[|shares| - 1].pct
  }

  function Abs(x: int): nat
  {
    if x < 0 then -x else x
  }

  /** `abs(total - 100) > 1` is the rejection, so a total is accepted
      within one point of 100 on either side. */
  function SumAccepted(total: int): (ok: bool)
    ensures ok <==> 99 <= total <= 101
  {
    !(Abs(total - 100) > 1)
  }

  /** Adding a share adds its percentage to the total. */
  lemma {:induction false} TotalAppend(a: seq<Share>, b: seq<Share>)
    ensures Total(a + b) == Total(a) + Total(b)
    decreases |b|
  {
    if |b| > 0 {
      var b' := b[..|b| - 1];
      assert (a + b)[..|a + b| - 1] == a + b';
      assert (a + b)[|a + b| - 1] == b[|b| - 1];
      assert Total(a + b) == Total(a + b') + b[|b| - 1].pct;
      assert Total(b) == Total(b') + b[|b| - 1].pct;
      TotalAppend(a, b');
    } else {
      assert a + b == a;
    }
  }

  /** The total does not depend on the order of the dictionary. */
  lemma {:induction false} TotalPermutation(a: seq<Share>, b: seq<Share>)
    requires multiset(a) == multiset(b)
    ensures Total(a) == Total(b)
    decreases |a|
  {
    if |a| > 0 {
      var x := a[|a| - 1];
      assert x in multiset(b);
      var k :| 0 <= k < |b| && b[k] == x;
      var b' := b[..k] + b[k + 1..];
      assert b == b[..k] + [x] + b[k + 1..];
      assert a == a[..|a| - 1] + [x];
      assert multiset(b) == multiset(b[..k]) + multiset{x} + multiset(b[k + 1..]);
      assert multiset(a) == multiset(a[..|a| - 1]) + multiset{x};
      assert multiset(b') == multiset(b[..k]) + multiset(b[k + 1..]);
      assert multiset(b') == multiset(b) - multiset{x};
      assert multiset(a[..|a| - 1]) == multiset(a) - multiset{x};
      TotalPermutation(a[..|a| - 1], b');
      TotalRemove(b, k);
    }
  }

  /** Taking one share out lowers the total by its percentage. */
  lemma TotalRemove(b: seq<Share>, k: nat)
    requires k < |b|
    ensures Total(b) == Total(b[..k] + b[k + 1..]) + b[k].pct
  {
    var pre, one, post := b[..k], [b[k]], b[k + 1..];
    assert b == pre + (one + post);
    TotalAppend(pre, one + post);
    TotalAppend(one, post);
    TotalAppend(pre, post);
    assert Total(one) == b[k].pct by { assert one[..0] == []; }
  }

  /** A symbol that adds to the portfolio's return. */
  datatype Leg = Leg(symbol: Symbol, pct: int, entries: seq<StoredRow>)

  /** What a contributing leg holds: the one symbol named by the share, its
      percentage, and that symbol's rows in its own market's table within
      the window, oldest first, at least two and with usable prices. */
  predicate LegValid(catalog: seq<Symbol>, db: Db, w: Window, a: Share, l: Leg)
  {
    && LookupByName(catalog, a.name) == Unique(l.symbol)
    && l.pct == a.pct
    && TableOf(l.symbol).Some?
    && l.entries == Chrono(RowsBetween(db.Get(TableOf(l.symbol).value), l.symbol.id, w.lo, w.hi))
    && PricesUsable(l.entries)
  }

  /** One iteration of the allocation loop: an unknown name is a 400, an
      ambiguous name or a symbol without a market raises, and a symbol whose
      market has no table or with fewer than two rows in the window is
      skipped. */
  function LegOf(catalog: seq<Symbol>, db: Db, w: Window, a: Share): (r: Result<Option<Leg>, Failure>)
    ensures r == Err(BadRequest(UnknownSymbol(a.name))) <==> LookupByName(catalog, a.name).NoMatch?
    ensures r.Err? ==> r.error == BadRequest(UnknownSymbol(a.name)) || r.error == ServerError
  {
    match LookupByName(catalog, a.name)
    case NoMatch => Err(BadRequest(UnknownSymbol(a.name)))
    case Ambiguous => Err(ServerError)
    case Unique(s) =>
      if s.market.None? then Err(ServerError)
      else
        var kind := TableFor(s.market.value.name);
        if kind.None? then Ok(None)
        else
          var entries := Chrono(RowsBetween(db.Get(kind.value), s.id, w.lo, w.hi));
          if |entries| < 2 then Ok(None)
          else if !PricesUsable(entries) then Err(ServerError)
          else Ok(Some(Leg(s, a.pct, entries)))
  }

  /** A leg is always valid for its share, and a share is skipped exactly
      when its symbol's market has no table or fewer than two of its rows
      lie in the window. */
  lemma LegOfSpec(catalog: seq<Symbol>, db: Db, w: Window, a: Share)
    ensures LegOf(catalog, db, w, a).Ok? && LegOf(catalog, db, w, a).value.Some? ==>
      LegValid(catalog, db, w, a, LegOf(catalog, db, w, a).value.value)
    ensures LegOf(catalog, db, w, a) == Ok(None) <==>
      && LookupByName(catalog, a.name).Unique?
      && LookupByName(catalog, a.name).symbol.market.Some?
      && var s := LookupByName(catalog, a.name).symbol;
         TableOf(s).None? || |RowsBetween(db.Get(TableOf(s).value), s.id, w.lo, w.hi)| < 2
  {
    var m := LookupByName(catalog, a.name);
    if m.Unique? && m.symbol.market.Some? && TableOf(m.symbol).Some? {
      ChronoShape(RowsBetween(db.Get(TableOf(m.symbol).value), m.symbol.id, w.lo, w.hi));
    }
  }

  /** A loop whose every step may fail, contribute an item, or contribute
      nothing: it stops at the first failure, and otherwise collects the
      items in order. */
  function Collect<A, L, E>(xs: seq<A>, step: A -> Result<Option<L>, E>): (r: Result<seq<L>, E>)
    ensures r.Ok? <==> forall i :: 0 <= i < |xs| ==> step(xs[i]).Ok?
    ensures r.Ok? ==> |r.value| <= |xs|
    decreases |xs|
  {
    if |xs| == 0 then Ok([])
    else
      match step(xs[0])
      case Err(e) => Err(e)
      case Ok(l) =>
        match Collect(xs[1..], step)
        case Err(e) => Err(e)
        case Ok(rest) => Ok((if l.Some? then [l.value] else []) + rest)
  }

  /** Every collected item is the contribution of some input. */
  lemma {:induction false} CollectSound<A, L, E>(xs: seq<A>, step: A -> Result<Option<L>, E>)
    requires Collect(xs, step).Ok?
    ensures forall k :: 0 <= k < |Collect(xs, step).value| ==>
      exists i :: 0 <= i < |xs| && step(xs[i]) == Ok(Some(Collect(xs, step).value[k]))
    decreases |xs|
  {
    if |xs| > 0 {
      var items := Collect(xs, step).value;
      var head := step(xs[0]).value;
      var rest := Collect(xs[1..], step).value;
      CollectSound(xs[1..], step);
      assert items == (if head.Some? then [head.value] else []) + rest;
      forall k | 0 <= k < |items|
        ensures exists i :: 0 <= i < |xs| && step(xs[i]) == Ok(Some(items[k]))
      {
        if head.Some? && k == 0 {
          assert step(xs[0]) == Ok(Some(items[k]));
        } else {
          var k' := if head.Some? then k - 1 else k;
          assert items[k] == rest[k'];
          var i :| 0 <= i < |xs[1..]| && step(xs[1..][i]) == Ok(Some(rest[k']));
          assert xs[1..][i] == xs[i + 1];
        }
      }
    }
  }

  /** Every contribution is collected. */
  lemma {:induction false} CollectComplete<A, L, E>(xs: seq<A>, step: A -> Result<Option<L>, E>)
    requires Collect(xs, step).Ok?
    ensures forall i :: 0 <= i < |xs| && step(xs[i]).value.Some? ==>
      step(xs[i]).value.value in Collect(xs, step).value
    decreases |xs|
  {
    if |xs| > 0 {
      var items := Collect(xs, step).value;
      var head := step(xs[0]).value;
      CollectComplete(xs[1..], step);
      assert items == (if head.Some? then [head.value] else []) + Collect(xs[1..], step).value;
      forall i | 0 <= i < |xs| && step(xs[i]).value.Some?
        ensures step(xs[i]).value.value in items
      {
        if i > 0 {
          assert xs[i] == xs[1..][i - 1];
        }
      }
    }
  }

  /** A failed loop reports the failure of its first failing step. */
  lemma {:induction false} CollectFirstFailure<A, L, E>(xs: seq<A>, step: A -> Result<Option<L>, E>)
    requires Collect(xs, step).Err?
    ensures exists i ::
      && 0 <= i < |xs|
      && step(xs[i]) == Err(Collect(xs, step).error)
      && forall j :: 0 <= j < i ==> step(xs[j]).Ok?
    decreases |xs|
  {
    if step(xs[0]).Ok? {
      CollectFirstFailure(xs[1..], step);
      var i :|
        && 0 <= i < |xs[1..]|
        && step(xs[1..][i]) == Err(Collect(xs[1..], step).error)
        && forall j :: 0 <= j < i ==> step(xs[1..][j]).Ok?;
      assert forall j :: 0 < j <= i ==> xs[j] == xs[1..][j - 1];
      assert step(xs[i + 1]) == Err(Collect(xs, step).error);
    } else {
      assert step(xs[0]) == Err(Collect(xs, step).error);
    }
  }

  /** One share's step of the allocation loop. */
  function LegStep(catalog: seq<Symbol>, db: Db, w: Window): Share -> Result<Option<Leg>, Failure>
  {
    a => LegOf(catalog, db, w, a)
  }

  /** The allocation loop over the dictionary's shares, in order. */
  function Legs(catalog: seq<Symbol>, db: Db, w: Window, shares: seq<Share>): Result<seq<Leg>, Failure>
  {
    Collect(shares, LegStep(catalog, db, w))
  }

  datatype PortfolioRequest = PortfolioRequest(
    allocations: Option<seq<Share>>, amount: Option<Value>, startDate: Option<Value>, duration: Option<Value>)

  /** A dictionary field is truthy when present and non-empty. */
  predicate SharesPresent(d: Option<seq<Share>>)
  {
    d.Some? && |d.value| > 0
  }

  predicate PortfolioFieldsPresent(req: PortfolioRequest)
  {
    SharesPresent(req.allocations) && Present(req.amount) && Present(req.startDate) && Present(req.duration)
  }

  /** `simulate_portfolio`: presence, the allocation total, the dates, the
      amount, then the allocation loop. */
  function SimulatePortfolio(catalog: seq<Symbol>, db: Db, p: Parsers, req: PortfolioRequest): Result<seq<Leg>, Failure>
  {
    if !PortfolioFieldsPresent(req) then Err(BadRequest(MissingFields))
    else
      var total := Total(req.allocations.value);
      if !SumAccepted(total) then Err(BadRequest(BadAllocations(total)))
      else
        var w := ParseWindow(p.date, req.startDate.value, req.duration.value);
        if w.None? then Err(BadRequest(BadDate))
        else if !AmountParses(p, req.amount.value) then Err(ServerError)
        else Legs(catalog, db, w.value, req.allocations.value)
  }

  /** The loop fails only by raising or with an unknown symbol that one of
      the shares names. */
  lemma LegsFailure(catalog: seq<Symbol>, db: Db, w: Window, shares: seq<Share>)
    requires Legs(catalog, db, w, shares).Err?
    ensures Legs(catalog, db, w, shares).error == ServerError
      || exists i :: 0 <= i < |shares|
           && Legs(catalog, db, w, shares).error == BadRequest(UnknownSymbol(shares[i].name))
           && LookupByName(catalog, shares[i].name).NoMatch?
  {
    CollectFirstFailure(shares, LegStep(catalog, db, w));
    var i :| 0 <= i < |shares| && LegStep(catalog, db, w)(shares[i]) == Err(Legs(catalog, db, w, shares).error);
    assert LegOf(catalog, db, w, shares[i]) == Err(Legs(catalog, db, w, shares).error);
  }

  /** The portfolio's 400s, each exactly when the earlier checks pass and
      its own fails; an unknown symbol is only reported once the request
      itself is well-formed, and it is a name the allocations hold. */
  lemma PortfolioFailures(catalog: seq<Symbol>, db: Db, p: Parsers, req: PortfolioRequest)
    ensures SimulatePortfolio(catalog, db, p, req) == Err(BadRequest(MissingFields)) <==> !PortfolioFieldsPresent(req)
    ensures forall t :: (SimulatePortfolio(catalog, db, p, req) == Err(BadRequest(BadAllocations(t)))
        <==> PortfolioFieldsPresent(req) && t == Total(req.allocations.value) && (t < 99 || t > 101))
    ensures SimulatePortfolio(catalog, db, p, req) == Err(BadRequest(BadDate))
        <==> && PortfolioFieldsPresent(req) && SumAccepted(Total(req.allocations.value))
             && ParseWindow(p.date, req.startDate.value, req.duration.value).None?
    ensures forall n :: SimulatePortfolio(catalog, db, p, req) == Err(BadRequest(UnknownSymbol(n))) ==>
      && PortfolioFieldsPresent(req) && SumAccepted(Total(req.allocations.value))
      && ParseWindow(p.date, req.startDate.value, req.duration.value).Some?
      && LookupByName(catalog, n).NoMatch?
      && exists i :: 0 <= i < |req.allocations.value| && req.allocations.value[i].name == n
  {
    if PortfolioFieldsPresent(req) && SumAccepted(Total(req.allocations.value))
      && ParseWindow(p.date, req.startDate.value, req.duration.value).Some?
      && AmountParses(p, req.amount.value)
    {
      var w := ParseWindow(p.date, req.startDate.value, req.duration.value).value;
      if Legs(catalog, db, w, req.allocations.value).Err? {
        LegsFailure(catalog, db, w, req.allocations.value);
      }
    }
  }

  /** A successful portfolio: its legs are exactly the contributing shares'. */
  lemma PortfolioOk(catalog: seq<Symbol>, db: Db, p: Parsers, req: PortfolioRequest)
    requires SimulatePortfolio(catalog, db, p, req).Ok?
    ensures PortfolioFieldsPresent(req) && SumAccepted(Total(req.allocations.value))
    ensures ParseWindow(p.date, req.startDate.value, req.duration.value).Some?
    ensures var w := ParseWindow(p.date, req.startDate.value, req.duration.value).value;
      && (forall k :: 0 <= k < |SimulatePortfolio(catalog, db, p, req).value| ==>
            exists i :: 0 <= i < |req.allocations.value|
              && LegValid(catalog, db, w, req.allocations.value[i], SimulatePortfolio(catalog, db, p, req).value[k]))
      && (forall i :: 0 <= i < |req.allocations.value| ==> LookupByName(catalog, req.allocations.value[i].name).Unique?)
      && (forall i :: 0 <= i < |req.allocations.value| && LegOf(catalog, db, w, req.allocations.value[i]).value.Some? ==>
            LegOf(catalog, db, w, req.allocations.value[i]).value.value in SimulatePortfolio(catalog, db, p, req).value)
  {
    var w := ParseWindow(p.date, req.startDate.value, req.duration.value).value;
    var shares := req.allocations.value;
    var step := LegStep(catalog, db, w);
    var legs := SimulatePortfolio(catalog, db, p, req).value;
    assert Collect(shares, step) == Ok(legs);
    CollectSound(shares, step);
    CollectComplete(shares, step);
    forall k | 0 <= k < |legs|
      ensures exists i :: 0 <= i < |shares| && LegValid(catalog, db, w, shares[i], legs[k])
    {
      var i :| 0 <= i < |shares| && step(shares[i]) == Ok(Some(legs[k]));
      assert LegOf(catalog, db, w, shares[i]) == Ok(Some(legs[k]));
      LegOfSpec(catalog, db, w, shares[i]);
    }
    forall i | 0 <= i < |shares|
      ensures LookupByName(catalog, shares[i].name).Unique?
    {
      assert step(shares[i]).Ok?;
    }
    forall i | 0 <= i < |shares| && LegOf(catalog, db, w, shares[i]).value.Some?
      ensures LegOf(catalog, db, w, shares[i]).value.value in legs
    {
      assert step(shares[i]) == LegOf(catalog, db, w, shares[i]);
    }
  }

  // ─── simulate_portfolio_advanced ─────────────────────────────────

  datatype AdvancedRequest = AdvancedRequest(
    allocations: Option<seq<Share>>, strategyMix: Option<seq<Share>>,
    amount: Option<Value>, startDate: Option<Value>, duration: Option<Value>)

  /** The configuration the placeholder echoes back. */
  datatype AdvancedConfig = AdvancedConfig(
    allocations: seq<Share>, strategyMix: seq<Share>, amount: Value, startDate: Value, duration: Value)

  predicate AdvancedFieldsPresent(req: AdvancedRequest)
  {
    && SharesPresent(req.allocations) && SharesPresent(req.strategyMix)
    && Present(req.amount) && Present(req.startDate) && Present(req.duration)
  }

  /** `simulate_portfolio_advanced`: presence and the two totals are the
      only checks; the request is echoed back. */
  function SimulateAdvanced(req: AdvancedRequest): (r: Result<AdvancedConfig, Failure>)
    ensures r.Ok? <==>
      && AdvancedFieldsPresent(req)
      && 99 <= Total(req.allocations.value) <= 101
      && 99 <= Total(req.strategyMix.value) <= 101
    ensures r.Ok? ==> r.value == AdvancedConfig(req.allocations.value, req.strategyMix.value,
                                                req.amount.value, req.startDate.value, req.duration.value)
    ensures r.Err? ==> r.error.BadRequest?
    ensures r.Err? && r.error.error.BadStrategyMix? ==>
      && AdvancedFieldsPresent(req)
      && 99 <= Total(req.allocations.value) <= 101
      && r.error.error.total == Total(req.strategyMix.value)
  {
    if !AdvancedFieldsPresent(req) then Err(BadRequest(MissingFields))
    else
      var total := Total(req.allocations.value);
      if !SumAccepted(total) then Err(BadRequest(BadAllocations(total)))
      else
        var mix := Total(req.strategyMix.value);
        if !SumAccepted(mix) then Err(BadRequest(BadStrategyMix(mix)))
        else Ok(AdvancedConfig(req.allocations.value, req.strategyMix.value,
                               req.amount.value, req.startDate.value, req.duration.value))
  }

  /** The advanced endpoint applies the same presence and allocation checks
      as `simulate_portfolio`, and reports a bad allocation total the same way. */
  lemma AdvancedAgreesWithPortfolio(catalog: seq<Symbol>, db: Db, p: Parsers, req: AdvancedRequest)
    requires SharesPresent(req.strategyMix)
    ensures var basic := PortfolioRequest(req.allocations, req.amount, req.startDate, req.duration);
      && (SimulateAdvanced(req) == Err(BadRequest(MissingFields))
          <==> SimulatePortfolio(catalog, db, p, basic) == Err(BadRequest(MissingFields)))
      && (forall t :: (SimulateAdvanced(req) == Err(BadRequest(BadAllocations(t)))
          <==> SimulatePortfolio(catalog, db, p, basic) == Err(BadRequest(BadAllocations(t)))))
  {
    PortfolioFailures(catalog, db, p, PortfolioRequest(req.allocations, req.amount, req.startDate, req.duration));
  }

  /** The placeholder validates neither the date nor the symbols: a request
      that `simulate_portfolio` rejects for its date is accepted. */
  lemma AdvancedSkipsDates(catalog: seq<Symbol>, db: Db, p: Parsers)
    requires p.date("soon") == None
    ensures var shares := [Share("SPX", 100)];
      && SimulateAdvanced(AdvancedRequest(Some(shares), Some(shares), Some(Num(1)), Some(Str("soon")), Some(Num(1)))).Ok?
      && SimulatePortfolio(catalog, db, p, PortfolioRequest(Some(shares), Some(Num(1)), Some(Str("soon")), Some(Num(1))))
         == Err(BadRequest(BadDate))
  {
    assert Total([Share("SPX", 100)]) == 100 by { assert [Share("SPX", 100)][..0] == []; }
  }
}
