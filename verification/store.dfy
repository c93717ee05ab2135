/** The historical data tables. A table is a sequence of rows: the schema
    declares no unique constraint on (symbol, timestamp), so uniqueness of
    keys is an invariant the writers must keep, not a property of the store.
    `AsMap` abstracts a table to a map from key to columns, and `Write` is the
    map-level reference for one `update_or_create`. */
module Store {
  import opened Wrappers
  import opened Markets
  import Sorting

  type SymbolId = int

  /** Seconds since the epoch, in the server's time zone. */
  type Timestamp = int

  /** Day number; `YYYY-MM-DD` strings order like these. */
  type Date = int

  const SecondsPerDay: int := 86400

  /** The calendar day a timestamp falls on (`strftime('%Y-%m-%d')`). */
  function DateOf(ts: Timestamp): Date
  {
    ts / SecondsPerDay
  }

  /** Non-key columns of a row. Prices are fixed-point integers; the
      crypto-only and international-only columns stay `None` elsewhere. */
  datatype Fields = Fields(
    open: Option<int>, high: Option<int>, low: Option<int>, close: Option<int>,
    volume: Option<int>,
    mvScore: Option<int>, cbScore: Option<int>,
    levModerate: Option<int>, levAggressive: Option<int>,
    volumeUsd: Option<int>, fundingRate: Option<int>, region: Option<string>)

  /** The columns of a freshly constructed row before any value is assigned. */
  const Blank: Fields := Fields(None, None, None, None, None, None, None, None, None, None, None, None)

  /** A market-specific column: left alone, or written with a (nullable) value. */
  datatype Column<T> = Untouched | Written(value: Option<T>)

  /** The `defaults` of an `update_or_create`: the eight shared columns are
      always written, `cb_score` never is. */
  datatype Writes = Writes(
    open: Option<int>, high: Option<int>, low: Option<int>, close: Option<int>,
    volume: Option<int>, mvScore: Option<int>,
    levModerate: Option<int>, levAggressive: Option<int>,
    volumeUsd: Column<int>, fundingRate: Column<int>, region: Column<string>)

  function Pick<T>(c: Column<T>, current: Option<T>): Option<T>
  {
    if c.Written? then c.value else current
  }

  /** The row after assigning the writes: written columns take the new value,
      every other column keeps its value. */
  function Apply(w: Writes, f: Fields): (g: Fields)
    ensures g.cbScore == f.cbScore
    ensures g.mvScore == w.mvScore
  {
    Fields(w.open, w.high, w.low, w.close, w.volume, w.mvScore, f.cbScore,
           w.levModerate, w.levAggressive,
           Pick(w.volumeUsd, f.volumeUsd), Pick(w.fundingRate, f.fundingRate),
           Pick(w.region, f.region))
  }

  /** Two writes assign the same set of columns. */
  predicate SameShape(w1: Writes, w2: Writes)
  {
    && w1.volumeUsd.Written? == w2.volumeUsd.Written?
    && w1.fundingRate.Written? == w2.fundingRate.Written?
    && w1.region.Written? == w2.region.Written?
  }

  /** A later write of the same shape hides an earlier one completely. */
  lemma ApplyOverwrites(w1: Writes, w2: Writes, f: Fields)
    requires SameShape(w1, w2)
    ensures Apply(w2, Apply(w1, f)) == Apply(w2, f)
  {
  }

  /** Every column named by the writes exists in the table. */
  predicate ColumnsExist(kind: MarketKind, w: Writes)
  {
    && (w.volumeUsd.Written? || w.fundingRate.Written? ==> kind == Crypto)
    && (w.region.Written? ==> kind == IntlStocks)
  }

  /** Assigning a column the table lacks only sets a stray attribute on the
      instance, which saving ignores. */
  function Restrict(kind: MarketKind, w: Writes): (r: Writes)
    ensures ColumnsExist(kind, r)
    ensures ColumnsExist(kind, w) ==> r == w
  {
    w.(volumeUsd := if kind == Crypto then w.volumeUsd else Untouched,
       fundingRate := if kind == Crypto then w.fundingRate else Untouched,
       region := if kind == IntlStocks then w.region else Untouched)
  }

  /** The NOT NULL columns of each table hold a value. */
  predicate RowValid(kind: MarketKind, f: Fields)
  {
    && f.open.Some? && f.high.Some? && f.low.Some? && f.close.Some?
    && (kind == Crypto ==> f.volume.Some? && f.volumeUsd.Some?)
  }

  /** Why a write raises: more than one row matches the key
      (MultipleObjectsReturned), a new row is built with a column its table
      lacks (FieldError), or a NOT NULL column would be null (IntegrityError). */
  datatype WriteError = DuplicateKey | UnknownColumn | NullColumn

  type Key = (SymbolId, Timestamp)

  /** The abstract content of one table. */
  type Rows = map<Key, Fields>

  /** The columns a write starts from: the stored row, or a blank new one. */
  function Prior(m: Rows, k: Key): Fields
  {
    if k in m then m[k] else Blank
  }

  /** Map-level `update_or_create(symbol_id, price_timestamp, defaults=w)`. */
  function Write(kind: MarketKind, m: Rows, k: Key, w: Writes): Result<Rows, WriteError>
  {
    if k !in m && !ColumnsExist(kind, w) then Err(UnknownColumn)
    else
      var f := Apply(Restrict(kind, w), Prior(m, k));
      if !RowValid(kind, f) then Err(NullColumn) else Ok(m[k := f])
  }

  datatype StoredRow = StoredRow(symbol: SymbolId, ts: Timestamp, fields: Fields)

  function KeyOf(r: StoredRow): Key
  {
    (r.symbol, r.ts)
  }

  /** A table, in insertion order. */
  type Table = seq<StoredRow>

  ghost predicate KeysUnique(t: Table)
  {
    forall i, j :: 0 <= i < j < |t| ==> KeyOf(t[i]) != KeyOf(t[j])
  }

  /** The content of a table; a later row shadows an earlier one with the same key. */
  function AsMap(t: Table): Rows
  {
    if |t| == 0 then map[] else AsMap(t[..|t| - 1])[KeyOf(t[|t| - 1]) := t[|t| - 1].fields]
  }

  /** How many rows carry key `k`. */
  function Count(t: Table, k: Key): nat
  {
    if |t| == 0 then 0
    else Count(t[..|t| - 1], k) + (if KeyOf(t[|t| - 1]) == k then 1 else 0)
  }

  lemma {:induction false} CountPositive(t: Table, k: Key)
    ensures Count(t, k) > 0 <==> exists i :: 0 <= i < |t| && KeyOf(t[i]) == k
    ensures Count(t, k) > 0 <==> k in AsMap(t)
  {
    if |t| > 0 {
      var p := t[..|t| - 1];
      CountPositive(p, k);
      if Count(p, k) > 0 {
        var i :| 0 <= i < |p| && KeyOf(p[i]) == k;
        assert KeyOf(t[i]) == k;
      }
      if exists i :: 0 <= i < |t| && KeyOf(t[i]) == k {
        var i :| 0 <= i < |t| && KeyOf(t[i]) == k;
        if i < |p| { assert KeyOf(p[i]) == k; }
      }
    }
  }

  lemma {:induction false} CountAtMostOne(t: Table, k: Key)
    ensures KeysUnique(t) ==> Count(t, k) <= 1
  {
    if |t| > 0 && KeysUnique(t) {
      var p := t[..|t| - 1];
      assert KeysUnique(p);
      CountAtMostOne(p, k);
      if KeyOf(t[|t| - 1]) == k {
        forall i | 0 <= i < |p| ensures KeyOf(p[i]) != k {
          assert KeyOf(t[i]) != KeyOf(t[|t| - 1]);
        }
        CountPositive(p, k);
      }
    }
  }

  /** The position of a row with key `k`. */
  function IndexOf(t: Table, k: Key): (i: nat)
    requires Count(t, k) > 0
    ensures i < |t| && KeyOf(t[i]) == k
  {
    if KeyOf(t[|t| - 1]) == k then |t| - 1 else IndexOf(t[..|t| - 1], k)
  }

  lemma {:induction false} AsMapAt(t: Table, i: int)
    requires KeysUnique(t) && 0 <= i < |t|
    ensures KeyOf(t[i]) in AsMap(t) && AsMap(t)[KeyOf(t[i])] == t[i].fields
  {
    var p := t[..|t| - 1];
    if i < |t| - 1 {
      assert KeysUnique(p);
      AsMapAt(p, i);
      assert KeyOf(t[i]) != KeyOf(t[|t| - 1]);
    }
  }

  lemma KeysUniqueAppend(t: Table, x: StoredRow)
    requires KeysUnique(t)
    requires forall i :: 0 <= i < |t| ==> KeyOf(t[i]) != KeyOf(x)
    ensures KeysUnique(t + [x])
  {
  }

  lemma {:induction false} AsMapReplace(t: Table, i: int, x: StoredRow)
    requires KeysUnique(t) && 0 <= i < |t| && KeyOf(x) == KeyOf(t[i])
    ensures KeysUnique(t[i := x])
    ensures AsMap(t[i := x]) == AsMap(t)[KeyOf(x) := x.fields]
  {
    var u := t[i := x];
    var p := t[..|t| - 1];
    if i == |t| - 1 {
      assert u[..|u| - 1] == p;
    } else {
      assert KeysUnique(p);
      AsMapReplace(p, i, x);
      assert u[..|u| - 1] == p[i := x];
      assert KeyOf(x) != KeyOf(t[|t| - 1]);
    }
  }

  /** With unique keys, the table has exactly one row per key of its content. */
  lemma {:induction false} AsMapSize(t: Table)
    requires KeysUnique(t)
    ensures |AsMap(t)| == |t|
  {
    if |t| > 0 {
      var p := t[..|t| - 1];
      assert KeysUnique(p);
      AsMapSize(p);
      CountPositive(p, KeyOf(t[|t| - 1]));
      assert KeyOf(t[|t| - 1]) !in AsMap(p);
    }
  }

  /** A table-level write agrees with the map-level one. */
  predicate Refines(r: Result<Table, WriteError>, a: Result<Rows, WriteError>)
  {
    match r
    case Ok(t) => a.Ok? && AsMap(t) == a.value
    case Err(e) => a == Err(e)
  }

  /** `update_or_create` on a table: one matching row is updated in place,
      no matching row appends a new one, several matching rows raise. */
  function Upsert(kind: MarketKind, t: Table, k: Key, w: Writes): (r: Result<Table, WriteError>)
    ensures Count(t, k) >= 2 ==> r == Err(DuplicateKey)
    ensures KeysUnique(t) ==> Refines(r, Write(kind, AsMap(t), k, w))
    ensures KeysUnique(t) && r.Ok? ==> KeysUnique(r.value)
    ensures r.Ok? ==> |r.value| == |t| + (if Count(t, k) == 0 then 1 else 0)
  {
    var c := Count(t, k);
    CountAtMostOne(t, k);
    if c >= 2 then Err(DuplicateKey)
    else if c == 0 then Create(kind, t, k, w)
    else Update(kind, t, k, w)
  }

  /** The create path of `update_or_create`: a new row at the end. */
  function Create(kind: MarketKind, t: Table, k: Key, w: Writes): (r: Result<Table, WriteError>)
    requires Count(t, k) == 0
    ensures KeysUnique(t) ==> Refines(r, Write(kind, AsMap(t), k, w))
    ensures KeysUnique(t) && r.Ok? ==> KeysUnique(r.value)
    ensures r.Ok? ==> |r.value| == |t| + 1
  {
    AbsentKey(t, k);
    var f := Apply(Restrict(kind, w), Blank);
    if !ColumnsExist(kind, w) then Err(UnknownColumn)
    else if !RowValid(kind, f) then Err(NullColumn)
    else
      var x := StoredRow(k.0, k.1, f);
      AppendNew(t, x);
      Ok(t + [x])
  }

  /** A key no row carries is not in the table's content. */
  lemma AbsentKey(t: Table, k: Key)
    requires Count(t, k) == 0
    ensures k !in AsMap(t)
  {
    CountPositive(t, k);
  }

  /** Appending a row with a new key adds exactly that key and keeps keys
      unique. */
  lemma AppendNew(t: Table, x: StoredRow)
    requires Count(t, KeyOf(x)) == 0
    ensures KeyOf(x) !in AsMap(t)
    ensures AsMap(t + [x]) == AsMap(t)[KeyOf(x) := x.fields]
    ensures KeysUnique(t) ==> KeysUnique(t + [x])
  {
    CountPositive(t, KeyOf(x));
    assert (t + [x])[..|t|] == t;
    if KeysUnique(t) {
      KeysUniqueAppend(t, x);
    }
  }

  /** The update path of `update_or_create`: the one matching row is
      rewritten in place. */
  function Update(kind: MarketKind, t: Table, k: Key, w: Writes): (r: Result<Table, WriteError>)
    requires Count(t, k) == 1
    ensures KeysUnique(t) ==> Refines(r, Write(kind, AsMap(t), k, w))
    ensures KeysUnique(t) && r.Ok? ==> KeysUnique(r.value)
    ensures r.Ok? ==> |r.value| == |t|
  {
    var i := IndexOf(t, k);
    var f := Apply(Restrict(kind, w), t[i].fields);
    var x := StoredRow(k.0, k.1, f);
    CountPositive(t, k);
    assert KeysUnique(t) ==>
      KeysUnique(t[i := x]) && AsMap(t)[k] == t[i].fields && AsMap(t[i := x]) == AsMap(t)[k := f] by {
      if KeysUnique(t) { AsMapAt(t, i); AsMapReplace(t, i, x); }
    }
    if !RowValid(kind, f) then Err(NullColumn)
    else
      Ok(t[i := x])
  }

  /** The rows of one symbol, in table order. */
  function RowsOf(t: Table, sym: SymbolId): (r: Table)
    ensures forall x :: x in r <==> x in t && x.symbol == sym
  {
    if |t| == 0 then []
    else
      var rest := RowsOf(t[..|t| - 1], sym);
      var last := t[|t| - 1];
      assert forall x :: x in t <==> x in t[..|t| - 1] || x == last by {
        assert t == t[..|t| - 1] + [last];
      }
      if last.symbol == sym then rest + [last] else rest
  }

  /** `filter(symbol_id=sym).delete()`: removes every row of `sym` and nothing else. */
  function DeleteSymbol(t: Table, sym: SymbolId): (r: Table)
    ensures forall x :: x in r <==> x in t && x.symbol != sym
  {
    if |t| == 0 then []
    else
      var p := t[..|t| - 1];
      var last := t[|t| - 1];
      assert t == p + [last];
      if last.symbol == sym then DeleteSymbol(p, sym) else DeleteSymbol(p, sym) + [last]
  }

  /** Deleting a symbol keeps keys unique, empties that symbol, and leaves
      every other key's content and every other symbol's rows as they were. */
  lemma DeleteSymbolEffect(t: Table, sym: SymbolId)
    ensures KeysUnique(t) ==> KeysUnique(DeleteSymbol(t, sym))
    ensures RowsOf(DeleteSymbol(t, sym), sym) == []
    ensures forall s :: s != sym ==> RowsOf(DeleteSymbol(t, sym), s) == RowsOf(t, s)
    ensures forall k :: k in AsMap(DeleteSymbol(t, sym)) <==> k in AsMap(t) && k.0 != sym
    ensures forall k :: k in AsMap(DeleteSymbol(t, sym)) ==> AsMap(DeleteSymbol(t, sym))[k] == AsMap(t)[k]
  {
    RowsOfEmpty(DeleteSymbol(t, sym), sym);
    if KeysUnique(t) { DeleteKeepsUnique(t, sym); }
    forall s | s != sym ensures RowsOf(DeleteSymbol(t, sym), s) == RowsOf(t, s) {
      DeleteKeepsOthers(t, sym, s);
    }
    DeleteAsMap(t, sym);
  }

  lemma {:induction false} DeleteKeepsUnique(t: Table, sym: SymbolId)
    requires KeysUnique(t)
    ensures KeysUnique(DeleteSymbol(t, sym))
  {
    if |t| > 0 {
      var p := t[..|t| - 1];
      var last := t[|t| - 1];
      var rest := DeleteSymbol(p, sym);
      assert KeysUnique(p);
      DeleteKeepsUnique(p, sym);
      if last.symbol != sym {
        forall i | 0 <= i < |rest| ensures KeyOf(rest[i]) != KeyOf(last) {
          assert rest[i] in p;
          var j :| 0 <= j < |p| && p[j] == rest[i];
          assert t[j] == rest[i];
        }
        KeysUniqueAppend(rest, last);
      }
    }
  }

  lemma {:induction false} DeleteKeepsOthers(t: Table, sym: SymbolId, s: SymbolId)
    requires s != sym
    ensures RowsOf(DeleteSymbol(t, sym), s) == RowsOf(t, s)
  {
    if |t| > 0 {
      var p := t[..|t| - 1];
      var last := t[|t| - 1];
      var rest := DeleteSymbol(p, sym);
      DeleteKeepsOthers(p, sym, s);
      if last.symbol != sym {
        var r := rest + [last];
        assert r[..|r| - 1] == rest;
      }
    }
  }

  lemma {:induction false} DeleteAsMap(t: Table, sym: SymbolId)
    ensures forall k :: k in AsMap(DeleteSymbol(t, sym)) <==> k in AsMap(t) && k.0 != sym
    ensures forall k :: k in AsMap(DeleteSymbol(t, sym)) ==> AsMap(DeleteSymbol(t, sym))[k] == AsMap(t)[k]
  {
    if |t| > 0 {
      var p := t[..|t| - 1];
      var last := t[|t| - 1];
      var rest := DeleteSymbol(p, sym);
      DeleteAsMap(p, sym);
      if last.symbol != sym {
        var r := rest + [last];
        assert r[..|r| - 1] == rest;
      }
    }
  }

  lemma RowsOfEmpty(t: Table, sym: SymbolId)
    requires forall x :: x in t ==> x.symbol != sym
    ensures RowsOf(t, sym) == []
  {
    if |RowsOf(t, sym)| > 0 {
      assert RowsOf(t, sym)[0] in RowsOf(t, sym);
    }
  }

  /** Newest first (`order_by('-price_timestamp')`). */
  function History(t: Table, sym: SymbolId): seq<StoredRow>
  {
    Sorting.SortDesc(RowsOf(t, sym), (r: StoredRow) => r.ts)
  }

  /** `_get_latest_entry`: the symbol's row with the largest timestamp. */
  function Latest(t: Table, sym: SymbolId): (r: Option<StoredRow>)
  {
    var h := History(t, sym);
    if |h| == 0 then None else Some(h[0])
  }

  /** The history holds exactly the symbol's rows, newest first. */
  lemma HistoryShape(t: Table, sym: SymbolId)
    ensures multiset(History(t, sym)) == multiset(RowsOf(t, sym))
    ensures forall i, j :: 0 <= i < j < |History(t, sym)| ==> History(t, sym)[i].ts >= History(t, sym)[j].ts
  {
    var key := (r: StoredRow) => r.ts;
    Sorting.SortPermutes(RowsOf(t, sym), key);
    Sorting.SortDescending(RowsOf(t, sym), key);
  }

  /** The latest row is a row of the symbol with the largest timestamp, and
      there is none exactly when the symbol has no rows. */
  lemma LatestIsNewest(t: Table, sym: SymbolId)
    ensures Latest(t, sym).None? <==> forall x :: x in t ==> x.symbol != sym
    ensures Latest(t, sym).Some? ==>
      var l := Latest(t, sym).value;
      l in t && l.symbol == sym && forall x :: x in t && x.symbol == sym ==> x.ts <= l.ts
  {
    var h := History(t, sym);
    HistoryShape(t, sym);
    if |h| == 0 {
      assert |multiset(RowsOf(t, sym))| == 0;
      assert RowsOf(t, sym) == [];
    } else {
      assert h[0] in multiset(RowsOf(t, sym));
      forall x | x in t && x.symbol == sym ensures x.ts <= h[0].ts {
        assert x in multiset(h);
        var j :| 0 <= j < |h| && h[j] == x;
      }
    }
  }

  /** The rows with a non-null `mv_score`, keeping their order. */
  function Scored(h: seq<StoredRow>): (r: seq<StoredRow>)
    ensures forall i :: 0 <= i < |r| ==> r[i].fields.mvScore.Some?
    ensures forall x :: x in r <==> x in h && x.fields.mvScore.Some?
  {
    if |h| == 0 then []
    else if h[0].fields.mvScore.Some? then [h[0]] + Scored(h[1..])
    else Scored(h[1..])
  }

  /** Rows ordered newest first, as `order_by('-price_timestamp')` leaves them. */
  predicate NewestFirst(h: seq<StoredRow>)
  {
    forall i, j :: 0 <= i < j < |h| ==> h[i].ts >= h[j].ts
  }

  /** Dropping the unscored rows keeps the order of the rest. */
  lemma {:induction false} ScoredNewestFirst(h: seq<StoredRow>)
    requires NewestFirst(h)
    ensures NewestFirst(Scored(h))
  {
    if |h| > 0 {
      var rest := Scored(h[1..]);
      assert NewestFirst(h[1..]);
      ScoredNewestFirst(h[1..]);
      if h[0].fields.mvScore.Some? {
        var r := [h[0]] + rest;
        forall j | 1 <= j < |r| ensures h[0].ts >= r[j].ts {
          assert r[j] == rest[j - 1];
          assert r[j] in h[1..];
          var k :| 0 <= k < |h[1..]| && h[1..][k] == r[j];
          assert h[k + 1] == r[j];
        }
      }
    }
  }

  /** `filter(mv_score__isnull=False).order_by('-price_timestamp')[:limit]`:
      the newest `limit` scored rows of `sym`. */
  function ScoredWindow(t: Table, sym: SymbolId, limit: nat): (r: seq<StoredRow>)
    ensures |r| <= limit
    ensures forall i :: 0 <= i < |r| ==> r[i].fields.mvScore.Some? && r[i].symbol == sym && r[i] in t
  {
    var s := Scored(History(t, sym));
    ScoredHistory(t, sym);
    if |s| <= limit then s else s[..limit]
  }

  /** The window is newest first, and a scored row of `sym` is left out only
      when the window is full of rows no older than it. */
  lemma ScoredWindowSpec(t: Table, sym: SymbolId, limit: nat)
    ensures var r := ScoredWindow(t, sym, limit);
      && (forall i, j :: 0 <= i < j < |r| ==> r[i].ts >= r[j].ts)
      && (forall x :: x in t && x.symbol == sym && x.fields.mvScore.Some? && x !in r ==>
            |r| == limit && forall i :: 0 <= i < |r| ==> r[i].ts >= x.ts)
  {
    var s := Scored(History(t, sym));
    ScoredHistory(t, sym);
    if |s| > limit {
      WindowComplete(s, limit);
    }
  }

  /** The scored history of `sym` holds exactly its scored rows, newest first. */
  lemma ScoredHistory(t: Table, sym: SymbolId)
    ensures forall x :: x in Scored(History(t, sym)) <==> x.symbol == sym && x in t && x.fields.mvScore.Some?
    ensures NewestFirst(Scored(History(t, sym)))
  {
    HistoryShape(t, sym);
    forall x ensures x in History(t, sym) <==> x in RowsOf(t, sym) {
      calc {
        x in History(t, sym);
        x in multiset(History(t, sym));
        x in multiset(RowsOf(t, sym));
        x in RowsOf(t, sym);
      }
    }
    ScoredNewestFirst(History(t, sym));
  }

  /** Cutting a newest-first sequence keeps rows no older than any it drops. */
  lemma WindowComplete(s: seq<StoredRow>, limit: nat)
    requires NewestFirst(s) && limit <= |s|
    ensures forall x :: x in s && x !in s[..limit] ==> forall i :: 0 <= i < limit ==> s[i].ts >= x.ts
  {
    forall x | x in s && x !in s[..limit] ensures forall i :: 0 <= i < limit ==> s[i].ts >= x.ts {
      var j :| 0 <= j < |s| && s[j] == x;
      assert j >= limit;
    }
  }

  /** The rows of `sym` whose timestamp lies in the closed range `[lo, hi]`. */
  function RowsBetween(t: Table, sym: SymbolId, lo: Timestamp, hi: Timestamp): (r: Table)
    ensures forall x :: x in r <==> x in t && x.symbol == sym && lo <= x.ts <= hi
  {
    if |t| == 0 then []
    else
      var rest := RowsBetween(t[..|t| - 1], sym, lo, hi);
      var last := t[|t| - 1];
      assert t == t[..|t| - 1] + [last];
      if last.symbol == sym && lo <= last.ts <= hi then rest + [last] else rest
  }

  /** The five tables. */
  datatype Db = Db(india: Table, us: Table, intl: Table, crypto: Table, metals: Table)
  {
    function Get(k: MarketKind): Table
    {
      match k
      case IndiaStocks => india
      case UsStocks => us
      case IntlStocks => intl
      case Crypto => crypto
      case PreciousMetals => metals
    }

    function Set(k: MarketKind, t: Table): (d: Db)
      ensures d.Get(k) == t
      ensures forall j :: j != k ==> d.Get(j) == Get(j)
    {
      match k
      case IndiaStocks => this.(india := t)
      case UsStocks => this.(us := t)
      case IntlStocks => this.(intl := t)
      case Crypto => this.(crypto := t)
      case PreciousMetals => this.(metals := t)
    }
  }

  ghost predicate DbUnique(db: Db)
  {
    forall k :: KeysUnique(db.Get(k))
  }
}
