/** One ingestion run: mapping upstream rows to columns, the upsert loop,
    the per-symbol status machine and the batch over all selected symbols. */
module Ingest {
  import opened Wrappers
  import opened Markets
  import opened Store

  /** A key of an upstream JSON row: missing, explicitly null, or a value. */
  datatype Entry<T> = Absent | Null | Present(value: T)

  /** `row.get(key, default)`: the default only replaces a missing key. */
  function GetOr<T>(e: Entry<T>, default: T): Option<T>
  {
    match e
    case Absent => Some(default)
    case Null => None
    case Present(v) => Some(v)
  }

  /** One upstream result row. `ts` is `None` when `price_timestamp` is
      missing, null or empty; the other keys read with `row.get` are `None`
      whether missing or null. */
  datatype ApiRow = ApiRow(
    ts: Option<Timestamp>,
    open: Option<int>, high: Option<int>, low: Option<int>, close: Option<int>,
    volume: Option<int>, smartIndex: Option<int>,
    levModerate: Option<int>, levAggressive: Option<int>,
    volumeUsd: Entry<int>, fundingRate: Option<int>, region: Option<string>)

  /** `_build_fields`: the shared columns always, `mv_score` from
      `smart_index_st`, crypto and international extras only for those
      markets (as named by the response, not by the symbol's table). */
  function BuildFields(row: ApiRow, market: string): (w: Writes)
    ensures w.mvScore == row.smartIndex
    ensures w.open == row.open && w.high == row.high && w.low == row.low && w.close == row.close
    ensures w.volume == row.volume
    ensures w.levModerate == row.levModerate && w.levAggressive == row.levAggressive
    ensures w.volumeUsd.Written? <==> market == MarketName(Crypto)
    ensures w.fundingRate.Written? <==> market == MarketName(Crypto)
    ensures w.region.Written? <==> market == MarketName(IntlStocks)
    ensures market == MarketName(Crypto) && row.volumeUsd.Absent? ==> w.volumeUsd == Written(Some(0))
    ensures market == MarketName(Crypto) ==> w.fundingRate == Written(row.fundingRate)
    ensures market == MarketName(IntlStocks) ==> w.region == Written(row.region)
  {
    var isCrypto := market == "crypto";
    var isIntl := market == "international_stocks_indexes";
    Writes(row.open, row.high, row.low, row.close, row.volume, row.smartIndex,
           row.levModerate, row.levAggressive,
           if isCrypto then Written(GetOr(row.volumeUsd, 0)) else Untouched,
           if isCrypto then Written(row.fundingRate) else Untouched,
           if isIntl then Written(row.region) else Untouched)
  }

  /** What one row writes into a table of kind `kind`. */
  function RowWrites(kind: MarketKind, row: ApiRow, market: string): Writes
  {
    Restrict(kind, BuildFields(row, market))
  }

  /** Two rows of a batch write the same set of columns. */
  lemma RowWritesSameShape(kind: MarketKind, a: ApiRow, b: ApiRow, market: string)
    ensures SameShape(RowWrites(kind, a, market), RowWrites(kind, b, market))
    ensures ColumnsExist(kind, BuildFields(a, market)) == ColumnsExist(kind, BuildFields(b, market))
  {
  }

  /** `f` and `g` agree on every column a batch for `market` never writes. */
  predicate AgreeOutside(kind: MarketKind, market: string, f: Fields, g: Fields)
  {
    && f.cbScore == g.cbScore
    && (kind != Crypto || market != "crypto" ==> f.volumeUsd == g.volumeUsd && f.fundingRate == g.fundingRate)
    && (kind != IntlStocks || market != "international_stocks_indexes" ==> f.region == g.region)
  }

  /** A row's write depends on the prior row only through the unwritten columns... */
  lemma ApplyOutside(kind: MarketKind, row: ApiRow, market: string, f: Fields, g: Fields)
    requires AgreeOutside(kind, market, f, g)
    ensures Apply(RowWrites(kind, row, market), f) == Apply(RowWrites(kind, row, market), g)
  {
  }

  /** ...and leaves those columns as they were. */
  lemma ApplyKeepsOutside(kind: MarketKind, row: ApiRow, market: string, f: Fields)
    ensures AgreeOutside(kind, market, Apply(RowWrites(kind, row, market), f), f)
  {
  }

  /** The keys a batch writes for `sym`: one per row that has a timestamp. */
  function BatchKeys(sym: SymbolId, rows: seq<ApiRow>): set<Key>
  {
    if |rows| == 0 then {}
    else (if rows[0].ts.Some? then {(sym, rows[0].ts.value)} else {}) + BatchKeys(sym, rows[1..])
  }

  /** Number of rows that have a timestamp. */
  function Stamped(rows: seq<ApiRow>): nat
  {
    if |rows| == 0 then 0 else (if rows[0].ts.Some? then 1 else 0) + Stamped(rows[1..])
  }

  /** Outcome of saving a batch into the abstract store. */
  datatype MapSave = MapSave(rows: Rows, saved: nat, error: Option<WriteError>)

  /** Map-level `_save_results`: rows without a timestamp are skipped, each
      other row is written in turn; the first write that raises stops the loop
      and the writes before it stay (there is no transaction). */
  function SaveAll(kind: MarketKind, m: Rows, sym: SymbolId, market: string, rows: seq<ApiRow>): MapSave
    decreases |rows|
  {
    if |rows| == 0 then MapSave(m, 0, None)
    else if rows[0].ts.None? then SaveAll(kind, m, sym, market, rows[1..])
    else
      match Write(kind, m, (sym, rows[0].ts.value), BuildFields(rows[0], market))
      case Err(e) => MapSave(m, 0, Some(e))
      case Ok(m1) =>
        var r := SaveAll(kind, m1, sym, market, rows[1..]);
        r.(saved := r.saved + 1)
  }

  /** A successful save reports one saved row per timestamped row. */
  lemma {:induction false} SaveAllCount(kind: MarketKind, m: Rows, sym: SymbolId, market: string, rows: seq<ApiRow>)
    ensures SaveAll(kind, m, sym, market, rows).error.None? ==>
            SaveAll(kind, m, sym, market, rows).saved == Stamped(rows)
    decreases |rows|
  {
    if |rows| > 0 {
      if rows[0].ts.None? {
        SaveAllCount(kind, m, sym, market, rows[1..]);
      } else {
        var w := Write(kind, m, (sym, rows[0].ts.value), BuildFields(rows[0], market));
        if w.Ok? { SaveAllCount(kind, w.value, sym, market, rows[1..]); }
      }
    }
  }

  /** Frame of one row's write: only its key is added or changed, and the
      unwritten columns keep their values everywhere. */
  lemma WriteFrame(kind: MarketKind, m: Rows, row: ApiRow, k0: Key, market: string)
    requires Write(kind, m, k0, BuildFields(row, market)).Ok?
    ensures var m1 := Write(kind, m, k0, BuildFields(row, market)).value;
      && m1.Keys == m.Keys + {k0}
      && (forall k :: k != k0 && k in m ==> m1[k] == m[k])
      && (forall k :: AgreeOutside(kind, market, Prior(m1, k), Prior(m, k)))
  {
    ApplyKeepsOutside(kind, row, market, Prior(m, k0));
  }

  /** Frame of a save, whether or not it fails part-way: keys outside the
      batch (other symbols' rows among them) are untouched, no key disappears,
      and no stored row changes a column the batch does not write (`cb_score`
      in particular). */
  lemma {:induction false} SaveAllFrame(kind: MarketKind, m: Rows, sym: SymbolId, market: string, rows: seq<ApiRow>)
    ensures var r := SaveAll(kind, m, sym, market, rows).rows;
      && m.Keys <= r.Keys <= m.Keys + BatchKeys(sym, rows)
      && (forall k :: k !in BatchKeys(sym, rows) && k in m ==> r[k] == m[k])
      && (forall k :: AgreeOutside(kind, market, Prior(r, k), Prior(m, k)))
    decreases |rows|
  {
    if |rows| > 0 {
      if rows[0].ts.None? {
        SaveAllFrame(kind, m, sym, market, rows[1..]);
      } else {
        var k0 := (sym, rows[0].ts.value);
        var w := Write(kind, m, k0, BuildFields(rows[0], market));
        if w.Ok? {
          var m1 := w.value;
          SaveAllFrame(kind, m1, sym, market, rows[1..]);
          WriteFrame(kind, m, rows[0], k0, market);
          var r := SaveAll(kind, m, sym, market, rows).rows;
          forall k ensures AgreeOutside(kind, market, Prior(r, k), Prior(m, k)) {
            assert AgreeOutside(kind, market, Prior(r, k), Prior(m1, k));
            assert AgreeOutside(kind, market, Prior(m1, k), Prior(m, k));
          }
        }
      }
    }
  }

  /** The index of the last row stamped `ts`, if any. */
  function LastWith(rows: seq<ApiRow>, ts: Timestamp): (i: Option<nat>)
    ensures i.None? <==> forall j :: 0 <= j < |rows| ==> rows[j].ts != Some(ts)
    ensures i.Some? ==> i.value < |rows| && rows[i.value].ts == Some(ts)
                        && forall j :: i.value < j < |rows| ==> rows[j].ts != Some(ts)
  {
    if |rows| == 0 then None
    else
      var rest := LastWith(rows[1..], ts);
      if rest.Some? then Some(rest.value + 1)
      else if rows[0].ts == Some(ts) then Some(0)
      else None
  }

  lemma {:induction false} BatchKeysMember(sym: SymbolId, rows: seq<ApiRow>, ts: Timestamp)
    ensures (sym, ts) in BatchKeys(sym, rows) <==> LastWith(rows, ts).Some?
    ensures forall k :: k in BatchKeys(sym, rows) ==> k.0 == sym
  {
    if |rows| > 0 {
      BatchKeysMember(sym, rows[1..], ts);
    }
  }

  /** After a successful save, each batch key holds the columns written by
      the LAST row with that timestamp, over what was stored before. */
  lemma {:induction false} SaveAllLastWins(kind: MarketKind, m: Rows, sym: SymbolId, market: string, rows: seq<ApiRow>, ts: Timestamp)
    requires SaveAll(kind, m, sym, market, rows).error.None?
    requires LastWith(rows, ts).Some?
    ensures var r := SaveAll(kind, m, sym, market, rows).rows;
      (sym, ts) in r && r[(sym, ts)] == Apply(RowWrites(kind, rows[LastWith(rows, ts).value], market), Prior(m, (sym, ts)))
    decreases |rows|
  {
    var k := (sym, ts);
    var rest := rows[1..];
    if rows[0].ts.None? {
      SaveAllLastWins(kind, m, sym, market, rest, ts);
    } else {
      var k0 := (sym, rows[0].ts.value);
      var m1 := Write(kind, m, k0, BuildFields(rows[0], market)).value;
      BatchKeysMember(sym, rest, ts);
      if LastWith(rest, ts).Some? {
        SaveAllLastWins(kind, m1, sym, market, rest, ts);
        var last := rest[LastWith(rest, ts).value];
        if k0 == k {
          ApplyKeepsOutside(kind, rows[0], market, Prior(m, k));
          ApplyOutside(kind, last, market, Prior(m1, k), Prior(m, k));
        }
      } else {
        assert rows[0].ts == Some(ts);
        SaveAllFrame(kind, m1, sym, market, rest);
      }
    }
  }

  /** `m1` and `m2` have the same rows outside `keys`, the same unwritten
      columns on `keys`, and `m1` has every key of `keys` that `m2` has. */
  ghost predicate Aligned(kind: MarketKind, market: string, m1: Rows, m2: Rows, keys: set<Key>)
  {
    && (forall k :: k !in keys ==> (k in m1 <==> k in m2))
    && (forall k :: k !in keys && k in m1 ==> m1[k] == m2[k])
    && (forall k :: k in keys ==> AgreeOutside(kind, market, Prior(m1, k), Prior(m2, k)))
    && (forall k :: k in keys && k in m2 ==> k in m1)
  }

  /** Stores aligned on no key are equal. */
  lemma AlignedNowhere(kind: MarketKind, market: string, m1: Rows, m2: Rows)
    requires Aligned(kind, market, m1, m2, {})
    ensures m1 == m2
  {
    assert m1.Keys == m2.Keys;
  }

  /** One row's write keeps two aligned stores aligned. */
  lemma WriteLockstep(kind: MarketKind, m1: Rows, m2: Rows, row: ApiRow, k0: Key, market: string, keys: set<Key>)
    requires Aligned(kind, market, m1, m2, keys + {k0})
    requires Write(kind, m2, k0, BuildFields(row, market)).Ok?
    ensures Write(kind, m1, k0, BuildFields(row, market)).Ok?
    ensures Aligned(kind, market, Write(kind, m1, k0, BuildFields(row, market)).value,
                    Write(kind, m2, k0, BuildFields(row, market)).value, keys)
  {
    ApplyOutside(kind, row, market, Prior(m1, k0), Prior(m2, k0));
    var w := BuildFields(row, market);
    var n1 := Write(kind, m1, k0, w).value;
    var n2 := Write(kind, m2, k0, w).value;
    assert n1[k0] == n2[k0];
    forall k | k in keys
      ensures AgreeOutside(kind, market, Prior(n1, k), Prior(n2, k))
    {
      if k != k0 { assert Prior(n1, k) == Prior(m1, k) && Prior(n2, k) == Prior(m2, k); }
    }
  }

  /** Two aligned stores: a batch that saves into the second saves into the
      first with the same outcome. */
  lemma {:induction false} SaveAllLockstep(kind: MarketKind, m1: Rows, m2: Rows, sym: SymbolId, market: string, rows: seq<ApiRow>)
    requires SaveAll(kind, m2, sym, market, rows).error.None?
    requires Aligned(kind, market, m1, m2, BatchKeys(sym, rows))
    ensures SaveAll(kind, m1, sym, market, rows) == SaveAll(kind, m2, sym, market, rows)
    decreases |rows|
  {
    if |rows| == 0 {
      AlignedNowhere(kind, market, m1, m2);
    } else if rows[0].ts.None? {
      assert BatchKeys(sym, rows) == BatchKeys(sym, rows[1..]);
      SaveAllLockstep(kind, m1, m2, sym, market, rows[1..]);
    } else {
      var rest := rows[1..];
      var k0 := (sym, rows[0].ts.value);
      var w := BuildFields(rows[0], market);
      assert BatchKeys(sym, rows) == BatchKeys(sym, rest) + {k0};
      WriteLockstep(kind, m1, m2, rows[0], k0, market, BatchKeys(sym, rest));
      SaveAllLockstep(kind, Write(kind, m1, k0, w).value, Write(kind, m2, k0, w).value, sym, market, rest);
    }
  }

  /** Saving the same batch twice leaves the store exactly as saving it once. */
  lemma SaveAllIdempotent(kind: MarketKind, m: Rows, sym: SymbolId, market: string, rows: seq<ApiRow>)
    requires SaveAll(kind, m, sym, market, rows).error.None?
    ensures var once := SaveAll(kind, m, sym, market, rows);
      SaveAll(kind, once.rows, sym, market, rows) == once
  {
    var once := SaveAll(kind, m, sym, market, rows);
    SaveAllFrame(kind, m, sym, market, rows);
    forall k | k in BatchKeys(sym, rows) ensures k in once.rows {
      BatchKeysMember(sym, rows, k.1);
      SaveAllLastWins(kind, m, sym, market, rows, k.1);
    }
    SaveAllLockstep(kind, once.rows, m, sym, market, rows);
  }

  /** Outcome of `_save_results` on a table. */
  datatype TableSave = TableSave(table: Table, saved: nat, error: Option<WriteError>)

  /** `_save_results` on a table: one `update_or_create` per timestamped row,
      keyed by (symbol, timestamp); `SaveResultsRefines` relates it to the
      abstract `SaveAll`. */
  function SaveResults(kind: MarketKind, t: Table, sym: SymbolId, market: string, rows: seq<ApiRow>): (r: TableSave)
    ensures r.error.None? ==> r.saved == Stamped(rows)
    ensures r.error.Some? ==> r.saved <= Stamped(rows)
    decreases |rows|
  {
    if |rows| == 0 then TableSave(t, 0, None)
    else if rows[0].ts.None? then SaveResults(kind, t, sym, market, rows[1..])
    else
      match Upsert(kind, t, (sym, rows[0].ts.value), BuildFields(rows[0], market))
      case Err(e) => TableSave(t, 0, Some(e))
      case Ok(t1) =>
        var r := SaveResults(kind, t1, sym, market, rows[1..]);
        r.(saved := r.saved + 1)
  }

  /** On a table with unique keys `_save_results` does what the abstract
      `SaveAll` does on its map view, and keeps the keys unique. */
  lemma {:induction false} SaveResultsRefines(kind: MarketKind, t: Table, sym: SymbolId, market: string, rows: seq<ApiRow>)
    requires KeysUnique(t)
    ensures var r := SaveResults(kind, t, sym, market, rows);
      var a := SaveAll(kind, AsMap(t), sym, market, rows);
      && KeysUnique(r.table)
      && AsMap(r.table) == a.rows && r.saved == a.saved && r.error == a.error
    decreases |rows|
  {
    if |rows| == 0 {
    } else if rows[0].ts.None? {
      SaveResultsRefines(kind, t, sym, market, rows[1..]);
    } else {
      match Upsert(kind, t, (sym, rows[0].ts.value), BuildFields(rows[0], market))
      case Err(e) =>
      case Ok(t1) =>
        SaveResultsRefines(kind, t1, sym, market, rows[1..]);
    }
  }

  /** After a successful save, each timestamp of the batch has exactly one
      stored row, holding the columns of the last batch row with that
      timestamp; the reported count is the number of timestamped rows. */
  lemma SaveResultsEntries(kind: MarketKind, t: Table, sym: SymbolId, market: string, rows: seq<ApiRow>)
    requires KeysUnique(t)
    requires SaveResults(kind, t, sym, market, rows).error.None?
    ensures var r := SaveResults(kind, t, sym, market, rows);
      && r.saved == Stamped(rows)
      && forall ts :: LastWith(rows, ts).Some? ==>
           && Count(r.table, (sym, ts)) == 1
           && (sym, ts) in AsMap(r.table)
           && AsMap(r.table)[(sym, ts)]
                == Apply(RowWrites(kind, rows[LastWith(rows, ts).value], market), Prior(AsMap(t), (sym, ts)))
  {
    var r := SaveResults(kind, t, sym, market, rows);
    SaveResultsRefines(kind, t, sym, market, rows);
    SaveAllCount(kind, AsMap(t), sym, market, rows);
    forall ts | LastWith(rows, ts).Some?
      ensures Count(r.table, (sym, ts)) == 1
      ensures (sym, ts) in AsMap(r.table)
      ensures AsMap(r.table)[(sym, ts)]
                == Apply(RowWrites(kind, rows[LastWith(rows, ts).value], market), Prior(AsMap(t), (sym, ts)))
    {
      SaveAllLastWins(kind, AsMap(t), sym, market, rows, ts);
      CountPositive(r.table, (sym, ts));
      CountAtMostOne(r.table, (sym, ts));
    }
  }

  /** Frame of `_save_results`, also when it stops on an error: content
      outside the batch keys (every other symbol's rows among them) is
      unchanged, no stored row disappears, and `cb_score` survives on every
      stored row. */
  lemma SaveResultsFrame(kind: MarketKind, t: Table, sym: SymbolId, market: string, rows: seq<ApiRow>)
    requires KeysUnique(t)
    ensures var after := AsMap(SaveResults(kind, t, sym, market, rows).table);
      && (forall k: Key :: k.0 != sym ==> (k in after <==> k in AsMap(t)))
      && (forall k :: k !in BatchKeys(sym, rows) ==> (k in after <==> k in AsMap(t)))
      && (forall k :: k !in BatchKeys(sym, rows) && k in after ==> after[k] == AsMap(t)[k])
      && (forall k :: k in AsMap(t) ==> k in after && after[k].cbScore == AsMap(t)[k].cbScore)
  {
    var m := AsMap(t);
    var after := AsMap(SaveResults(kind, t, sym, market, rows).table);
    SaveResultsRefines(kind, t, sym, market, rows);
    SaveAllFrame(kind, m, sym, market, rows);
    BatchKeysMember(sym, rows, 0);
    forall k | k in m ensures after[k].cbScore == m[k].cbScore {
      assert AgreeOutside(kind, market, Prior(after, k), Prior(m, k));
    }
  }

  /** Running the same poll twice is safe: the second save succeeds, reports
      the same count and leaves the table content and size as they were. */
  lemma SaveResultsTwice(kind: MarketKind, t: Table, sym: SymbolId, market: string, rows: seq<ApiRow>)
    requires KeysUnique(t)
    requires SaveResults(kind, t, sym, market, rows).error.None?
    ensures var once := SaveResults(kind, t, sym, market, rows);
      var twice := SaveResults(kind, once.table, sym, market, rows);
      && twice.error.None?
      && twice.saved == once.saved
      && AsMap(twice.table) == AsMap(once.table)
      && |twice.table| == |once.table|
      && KeysUnique(twice.table)
  {
    var once := SaveResults(kind, t, sym, market, rows);
    var twice := SaveResults(kind, once.table, sym, market, rows);
    SaveResultsRefines(kind, t, sym, market, rows);
    SaveResultsRefines(kind, once.table, sym, market, rows);
    SaveAllIdempotent(kind, AsMap(t), sym, market, rows);
    AsMapSize(once.table);
    AsMapSize(twice.table);
  }
}
