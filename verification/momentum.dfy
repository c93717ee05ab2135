/** Scores and zone history of one symbol: the effective score, when the
    current zone began, and the momentum alert scan over all markets. */
module Momentum {
  import opened Wrappers
  import opened Markets
  import opened Store
  import opened Zones
  import Ingest
  import Sorting

  /** `_get_score` on a row: the manual override `cb_score` when set,
      otherwise the model's `mv_score`. */
  function ScoreOf(f: Fields): (s: Option<int>)
    ensures f.cbScore.Some? ==> s == f.cbScore
    ensures f.cbScore.None? ==> s == f.mvScore
  {
    if f.cbScore.Some? then f.cbScore else f.mvScore
  }

  /** `_get_score` on an optional entry; no entry has no score. */
  function EntryScore(e: Option<StoredRow>): (s: Option<int>)
    ensures e.None? ==> s.None?
    ensures e.Some? ==> s == ScoreOf(e.value.fields)
  {
    if e.None? then None else ScoreOf(e.value.fields)
  }

  /** Re-ingesting a batch never changes the score shown for a stored row
      that carries an override. */
  lemma OverrideSticks(kind: MarketKind, m: Rows, sym: SymbolId, market: string, rows: seq<Ingest.ApiRow>)
    ensures var after := Ingest.SaveAll(kind, m, sym, market, rows).rows;
      forall k :: k in m && m[k].cbScore.Some? ==> k in after && ScoreOf(after[k]) == ScoreOf(m[k])
  {
    var after := Ingest.SaveAll(kind, m, sym, market, rows).rows;
    Ingest.SaveAllFrame(kind, m, sym, market, rows);
    forall k | k in m && m[k].cbScore.Some? ensures k in after && ScoreOf(after[k]) == ScoreOf(m[k]) {
      assert Ingest.AgreeOutside(kind, market, Prior(after, k), Prior(m, k));
    }
  }

  /** The zone of the `i`-th point of a window. */
  function ZoneAt(w: seq<StoredRow>, i: nat): Option<Zone>
    requires i < |w|
  {
    ZoneOf(ScoreOf(w[i].fields))
  }

  /** Length of the leading run of `w` whose points are all in zone `z`. */
  function LeadingRun(w: seq<StoredRow>, z: Zone): (n: nat)
    ensures n <= |w|
    ensures forall i :: 0 <= i < n ==> ZoneAt(w, i) == Some(z)
    ensures n < |w| ==> ZoneAt(w, n) != Some(z)
  {
    if |w| == 0 || ZoneAt(w, 0) != Some(z) then 0
    else
      var n := LeadingRun(w[1..], z);
      assert forall i :: 1 <= i <= n ==> ZoneAt(w, i) == ZoneAt(w[1..], i - 1);
      1 + n
  }

  /** Date and score of the point at which the current zone began. */
  type Since = (Option<Date>, Option<int>)

  /** The loop of `_get_zone_since`, from index `i` on: each point still in
      zone `z` replaces the remembered date and score; the first point in
      another zone stops the walk. */
  function ScanSince(w: seq<StoredRow>, z: Zone, i: nat, acc: Since): (r: Since)
    requires i <= |w|
    requires forall j :: 0 <= j < i ==> ZoneAt(w, j) == Some(z)
    requires i == 0 ==> acc == (None, None)
    requires i > 0 ==> acc == (Some(DateOf(w[i - 1].ts)), ScoreOf(w[i - 1].fields))
    ensures var n := LeadingRun(w, z);
      && (n == 0 ==> r == (None, None))
      && (n > 0 ==> r == (Some(DateOf(w[n - 1].ts)), ScoreOf(w[n - 1].fields)))
    decreases |w| - i
  {
    if i == |w| || ZoneAt(w, i) != Some(z) then acc
    else ScanSince(w, z, i + 1, (Some(DateOf(w[i].ts)), ScoreOf(w[i].fields)))
  }

  /** `_get_zone_since`: nothing without a current zone; otherwise the date
      and score of the oldest point of the leading run of `window` that stays
      in the current zone, and nothing when the newest point is already in
      another zone. */
  function ZoneSince(current: Option<Zone>, window: seq<StoredRow>): (r: Since)
    ensures current.None? ==> r == (None, None)
    ensures current.Some? ==>
      var n := LeadingRun(window, current.value);
      && (n == 0 ==> r == (None, None))
      && (n > 0 ==> r == (Some(DateOf(window[n - 1].ts)), ScoreOf(window[n - 1].fields)))
  {
    if current.None? then (None, None)
    else ScanSince(window, current.value, 0, (None, None))
  }

  /** A found start lies in the current zone and on a point of the window. */
  lemma ZoneSinceInZone(current: Option<Zone>, window: seq<StoredRow>)
    ensures var r := ZoneSince(current, window);
      r.0.Some? ==>
        && current.Some?
        && ZoneOf(r.1) == current
        && exists i :: 0 <= i < |window| && r.0 == Some(DateOf(window[i].ts))
  {
    var r := ZoneSince(current, window);
    if r.0.Some? {
      var n := LeadingRun(window, current.value);
      assert ZoneAt(window, n - 1) == current;
    }
  }

  /** A zone change found by the alert scan. */
  datatype Change = Change(fromScore: Option<int>, toScore: Option<int>, direction: Direction, days: nat, date: Date)

  /** First index at or after `i` whose zone differs from the newest point's. */
  function FirstChange(w: seq<StoredRow>, i: nat): (j: nat)
    requires 1 <= i <= |w|
    ensures i <= j <= |w|
    ensures forall k :: i <= k < j ==> ZoneAt(w, k) == ZoneAt(w, 0)
    ensures j < |w| ==> ZoneAt(w, j) != ZoneAt(w, 0)
    decreases |w| - i
  {
    if i == |w| || ZoneAt(w, i) != ZoneAt(w, 0) then i else FirstChange(w, i + 1)
  }

  /** The inner loop of `momentum_alerts` on a newest-first window: nothing
      for fewer than two points; otherwise the first point `i >= 1` whose
      zone differs from the newest one, reported as a move from the score at
      `i` to the newest score, `i` points ago, classified by the newest zone. */
  function Transition(recent: seq<StoredRow>): (c: Option<Change>)
    ensures |recent| < 2 ==> c.None?
    ensures c.None? && |recent| >= 2 ==> forall k :: 1 <= k < |recent| ==> ZoneAt(recent, k) == ZoneAt(recent, 0)
    ensures c.Some? ==>
      && 1 <= c.value.days < |recent|
      && ZoneAt(recent, c.value.days) != ZoneAt(recent, 0)
      && (forall k :: 1 <= k < c.value.days ==> ZoneAt(recent, k) == ZoneAt(recent, 0))
      && c.value.fromScore == ScoreOf(recent[c.value.days].fields)
      && c.value.toScore == ScoreOf(recent[0].fields)
      && c.value.direction == DirectionOf(ZoneAt(recent, 0))
      && c.value.date == DateOf(recent[0].ts)
  {
    if |recent| < 2 then None
    else
      var i := FirstChange(recent, 1);
      if i == |recent| then None
      else Some(Change(ScoreOf(recent[i].fields), ScoreOf(recent[0].fields),
                       DirectionOf(ZoneAt(recent, 0)), i, DateOf(recent[0].ts)))
  }

  /** How many points the alert scan looks back. */
  const AlertWindow: nat := 60

  /** How many points `_get_zone_since` looks back. */
  const SinceWindow: nat := 500

  /** One entry of the `alerts` list. */
  datatype Alert = Alert(
    symbol: string, title: Option<string>, market: Option<string>,
    fromScore: Option<int>, toScore: Option<int>, direction: Direction,
    days: nat, date: Date)

  /** What every alert satisfies: it moves between two different zones, is
      classified by the zone it moved into, and looks back less than the
      window. */
  predicate AlertShape(a: Alert)
  {
    && ZoneOf(a.fromScore) != ZoneOf(a.toScore)
    && a.direction == DirectionOf(ZoneOf(a.toScore))
    && 1 <= a.days < AlertWindow
  }

  /** The alert carries the change's scores, direction, day count and date. */
  predicate Reports(a: Alert, c: Change)
  {
    && a.fromScore == c.fromScore && a.toScore == c.toScore
    && a.direction == c.direction && a.days == c.days && a.date == c.date
  }

  /** The market label of an alert: the market's label, or the table's market
      name for a symbol without a market. */
  function MarketLabel(s: Symbol, kind: MarketKind): Option<string>
  {
    if s.market.Some? then s.market.value.title else Some(MarketName(kind))
  }

  /** The alert of one symbol of market `kind`, when its recent window
      shows a zone change; the market label falls back to the table's name
      for a symbol without a market. */
  function SymbolAlert(s: Symbol, t: Table, kind: MarketKind): (a: Option<Alert>)
    ensures a.Some? <==> Transition(ScoredWindow(t, s.id, AlertWindow)).Some?
    ensures a.Some? ==> AlertShape(a.value) && a.value.symbol == s.name && a.value.title == s.title
    ensures a.Some? ==> Reports(a.value, Transition(ScoredWindow(t, s.id, AlertWindow)).value)
    ensures a.Some? ==> a.value.market == MarketLabel(s, kind)
  {
    var c := Transition(ScoredWindow(t, s.id, AlertWindow));
    if c.None? then None
    else
      Some(Alert(s.name, s.title, MarketLabel(s, kind), c.value.fromScore, c.value.toScore, c.value.direction,
                 c.value.days, c.value.date))
  }

  /** The alert names one of `symbols`. */
  predicate AlertOf(a: Alert, symbols: seq<Symbol>)
  {
    exists s :: s in symbols && a.symbol == s.name
  }

  /** The alerts of one market: at most one per symbol, in symbol order. */
  function MarketAlerts(symbols: seq<Symbol>, t: Table, kind: MarketKind): (r: seq<Alert>)
    ensures |r| <= |symbols|
    ensures forall i :: 0 <= i < |r| ==> AlertShape(r[i])
    ensures forall i :: 0 <= i < |r| ==> AlertOf(r[i], symbols)
  {
    if |symbols| == 0 then []
    else
      var rest := MarketAlerts(symbols[1..], t, kind);
      var a := SymbolAlert(symbols[0], t, kind);
      AlertsCons(a, rest, symbols);
      Prepend(a, rest)
  }

  /** The alert, when there is one, in front of the rest. */
  function Prepend(a: Option<Alert>, rest: seq<Alert>): seq<Alert>
  {
    if a.None? then rest else [a.value] + rest
  }

  /** Putting a well-shaped alert of the first symbol in front of well-shaped
      alerts of the others gives well-shaped alerts of all. */
  lemma AlertsCons(a: Option<Alert>, rest: seq<Alert>, symbols: seq<Symbol>)
    requires |symbols| > 0 && |rest| <= |symbols| - 1
    requires a.Some? ==> AlertShape(a.value) && a.value.symbol == symbols[0].name
    requires forall i :: 0 <= i < |rest| ==> AlertShape(rest[i]) && AlertOf(rest[i], symbols[1..])
    ensures var r := Prepend(a, rest);
      && |r| <= |symbols|
      && (forall i :: 0 <= i < |r| ==> AlertShape(r[i]))
      && (forall i :: 0 <= i < |r| ==> AlertOf(r[i], symbols))
  {
    forall i | 0 <= i < |rest| ensures AlertOf(rest[i], symbols) {
      assert AlertOf(rest[i], symbols[1..]);
      var s :| s in symbols[1..] && rest[i].symbol == s.name;
      assert s in symbols;
    }
    if a.Some? {
      assert symbols[0] in symbols;
    }
  }

  /** Every alert comes from a symbol of the market, and every symbol whose
      window shows a change contributes its alert. */
  lemma {:induction false} MarketAlertsExact(symbols: seq<Symbol>, t: Table, kind: MarketKind)
    ensures forall s :: s in symbols && SymbolAlert(s, t, kind).Some? ==> SymbolAlert(s, t, kind).value in MarketAlerts(symbols, t, kind)
    ensures forall a :: a in MarketAlerts(symbols, t, kind) ==> exists s :: s in symbols && SymbolAlert(s, t, kind) == Some(a)
    decreases |symbols|
  {
    if |symbols| > 0 {
      var rest := symbols[1..];
      MarketAlertsExact(rest, t, kind);
      forall s | s in symbols && SymbolAlert(s, t, kind).Some?
        ensures SymbolAlert(s, t, kind).value in MarketAlerts(symbols, t, kind)
      {
        if s != symbols[0] { assert s in rest; }
      }
      forall a | a in MarketAlerts(symbols, t, kind)
        ensures exists s :: s in symbols && SymbolAlert(s, t, kind) == Some(a)
      {
        if a !in MarketAlerts(rest, t, kind) {
          assert SymbolAlert(symbols[0], t, kind) == Some(a);
        } else {
          var s :| s in rest && SymbolAlert(s, t, kind) == Some(a);
          assert s in symbols;
        }
      }
    }
  }

  /** The alerts of every market in `kinds`, market by market. */
  function CollectAlerts(catalog: seq<Symbol>, db: Db, kinds: seq<MarketKind>): (r: seq<Alert>)
    ensures forall i :: 0 <= i < |r| ==> AlertShape(r[i])
    ensures forall i :: 0 <= i < |r| ==> AlertOf(r[i], catalog)
  {
    if |kinds| == 0 then []
    else
      var here := MarketAlerts(OfMarket(catalog, kinds[0]), db.Get(kinds[0]), kinds[0]);
      var rest := CollectAlerts(catalog, db, kinds[1..]);
      assert forall i :: 0 <= i < |here| ==> AlertOf(here[i], catalog) by {
        forall i | 0 <= i < |here| ensures AlertOf(here[i], catalog) {
          var s :| s in OfMarket(catalog, kinds[0]) && here[i].symbol == s.name;
        }
      }
      here + rest
  }

  /** `a` is the alert of some symbol of one of the markets in `kinds`,
      read from that market's table. */
  predicate AlertFrom(a: Alert, catalog: seq<Symbol>, db: Db, kinds: seq<MarketKind>)
  {
    exists k, s :: k in kinds && s in OfMarket(catalog, k) && SymbolAlert(s, db.Get(k), k) == Some(a)
  }

  /** Every collected alert is the alert of some symbol of one of the
      markets in `kinds`, and every such alert is collected. */
  lemma {:induction false} CollectAlertsExact(catalog: seq<Symbol>, db: Db, kinds: seq<MarketKind>)
    ensures forall a :: a in CollectAlerts(catalog, db, kinds) <==> AlertFrom(a, catalog, db, kinds)
    decreases |kinds|
  {
    if |kinds| > 0 {
      var k0 := kinds[0];
      var here := MarketAlerts(OfMarket(catalog, k0), db.Get(k0), k0);
      var rest := CollectAlerts(catalog, db, kinds[1..]);
      assert CollectAlerts(catalog, db, kinds) == here + rest;
      MarketAlertsExact(OfMarket(catalog, k0), db.Get(k0), k0);
      CollectAlertsExact(catalog, db, kinds[1..]);
      forall a | a in here + rest ensures AlertFrom(a, catalog, db, kinds) {
        if a in here {
          var s :| s in OfMarket(catalog, k0) && SymbolAlert(s, db.Get(k0), k0) == Some(a);
          assert k0 in kinds;
        } else {
          assert AlertFrom(a, catalog, db, kinds[1..]);
          var k, s :| k in kinds[1..] && s in OfMarket(catalog, k) && SymbolAlert(s, db.Get(k), k) == Some(a);
          assert k in kinds;
        }
      }
      forall a | AlertFrom(a, catalog, db, kinds) ensures a in here + rest {
        var k, s :| k in kinds && s in OfMarket(catalog, k) && SymbolAlert(s, db.Get(k), k) == Some(a);
        if k == k0 {
          assert a in here;
        } else {
          assert k in kinds[1..];
          assert AlertFrom(a, catalog, db, kinds[1..]);
        }
      }
    }
  }

  function AlertDate(a: Alert): int
  {
    a.date
  }

  /** `momentum_alerts`: the collected alerts, newest date first; alerts of
      the same date keep their collection order. */
  function MomentumAlerts(catalog: seq<Symbol>, db: Db): seq<Alert>
  {
    Sorting.SortDesc(CollectAlerts(catalog, db, TableOrder), AlertDate)
  }

  /** The response is a permutation of the collected alerts, by date
      non-increasing, stable among equal dates, and every alert is well
      shaped. */
  lemma MomentumAlertsSpec(catalog: seq<Symbol>, db: Db)
    ensures var all := CollectAlerts(catalog, db, TableOrder);
      var r := MomentumAlerts(catalog, db);
      && multiset(r) == multiset(all)
      && (forall i, j :: 0 <= i < j < |r| ==> r[i].date >= r[j].date)
      && (forall d :: Sorting.WithKey(r, AlertDate, d) == Sorting.WithKey(all, AlertDate, d))
      && (forall a :: a in r ==> AlertShape(a))
  {
    var all := CollectAlerts(catalog, db, TableOrder);
    var key := AlertDate;
    Sorting.SortPermutes(all, key);
    Sorting.SortDescending(all, key);
    forall d ensures Sorting.WithKey(MomentumAlerts(catalog, db), key, d) == Sorting.WithKey(all, key, d) {
      Sorting.SortStable(all, key, d);
    }
    forall a | a in MomentumAlerts(catalog, db) ensures AlertShape(a) {
      assert a in multiset(all);
    }
  }

  /** A window point with only a model score. */
  function Point(ts: Timestamp, mv: int): StoredRow
  {
    StoredRow(1, ts, Blank.(mvScore := Some(mv)))
  }

  /** Five days scored 75, 60, 45, 30, 15 (the newest is 15): two red days
      after a grey one, a bearish change two points back from 45 to 15; the
      red zone began on the day scored 30. */
  lemma FallingExample()
    ensures var d := SecondsPerDay;
      var w := [Point(5 * d, 15), Point(4 * d, 30), Point(3 * d, 45), Point(2 * d, 60), Point(d, 75)];
      && Transition(w) == Some(Change(Some(45), Some(15), Bearish, 2, 5))
      && ZoneSince(Some(Red), w) == (Some(4), Some(30))
  {
    var d := SecondsPerDay;
    var w := [Point(5 * d, 15), Point(4 * d, 30), Point(3 * d, 45), Point(2 * d, 60), Point(d, 75)];
    assert ZoneAt(w, 0) == Some(Red) && ZoneAt(w, 1) == Some(Red) && ZoneAt(w, 2) == Some(Grey);
    assert FirstChange(w, 1) == 2;
    assert LeadingRun(w, Red) == 2;
  }
}
