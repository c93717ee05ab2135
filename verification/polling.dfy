/** The `poll_data` command: choosing symbols from the command-line flags,
    the per-symbol status machine with its log, and the batch loop. */
module Polling {
  import opened Wrappers
  import opened Markets
  import opened Store
  import opened Ingest
  import Text

  datatype PollStatus = Ready | Processing | Failed
  datatype LogStatus = Success | Failure

  /** The `error_message` of a log entry: the fixed fetch-failure text, or
      the exception a save raised. */
  datatype LogError = ApiFetchFailed | Raised(cause: WriteError)

  /** A `PollingLog` row (timing left out). */
  datatype LogEntry = LogEntry(symbol: SymbolId, status: LogStatus, rows: Option<nat>, error: Option<LogError>)

  /** What `_fetch_from_marketvibes` produced: `None`, or a response whose
      `market` (default "") and `results` (default []) were read. */
  datatype FetchOutcome = FetchFailed | Fetched(market: string, results: seq<ApiRow>)

  /** One `(symbol_name, symbol_id, table_model)` triple to process. */
  datatype Target = Target(name: string, id: SymbolId, kind: MarketKind)

  /** What polling reads and writes: the market tables, the
      `DataPollingStatus` of each symbol, every status write in order, and
      the append-only polling log. */
  datatype PollState = PollState(
    db: Db, status: map<SymbolId, PollStatus>,
    statusWrites: seq<(SymbolId, PollStatus)>, log: seq<LogEntry>)

  /** The status a run ends in, given the log entry it wrote. */
  function StatusAfter(e: LogEntry): PollStatus
  {
    if e.status == Success then Ready else Failed
  }

  /** The store after the optional `--reset` wipe of one symbol. */
  function Cleared(db: Db, target: Target, reset: bool): (d: Db)
    ensures forall j :: j != target.kind ==> d.Get(j) == db.Get(j)
    ensures DbUnique(db) ==> DbUnique(d)
  {
    DeleteSymbolEffect(db.Get(target.kind), target.id);
    if reset then db.Set(target.kind, DeleteSymbol(db.Get(target.kind), target.id)) else db
  }

  /** Ends a run: the final status write and the one log entry. */
  function Finish(st: PollState, db: Db, entry: LogEntry): (r: PollState)
    ensures r.log == st.log + [entry] && r.db == db
    ensures r.statusWrites == st.statusWrites + [(entry.symbol, StatusAfter(entry))]
    ensures r.status == st.status[entry.symbol := StatusAfter(entry)]
  {
    PollState(db, st.status[entry.symbol := StatusAfter(entry)],
              st.statusWrites + [(entry.symbol, StatusAfter(entry))], st.log + [entry])
  }

  /** `_process_symbol`: status `processing`, the optional reset, then one of
      fetch failure, empty result, save error or success, each ending in one
      final status and exactly one log entry. */
  function ProcessSymbol(st: PollState, target: Target, reset: bool, fetch: FetchOutcome): (r: PollState)
    ensures |r.log| == |st.log| + 1 && r.log[..|st.log|] == st.log
    ensures var e := r.log[|st.log|];
      && e.symbol == target.id
      && r.statusWrites == st.statusWrites + [(target.id, Processing), (target.id, StatusAfter(e))]
      && r.status == st.status[target.id := StatusAfter(e)]
      && (e.status == Success <==> e.error.None?)
      && (e.status == Success <==> e.rows.Some?)
      && (fetch.FetchFailed? ==> e == LogEntry(target.id, Failure, None, Some(ApiFetchFailed)))
      && (fetch.Fetched? && |fetch.results| == 0 ==> e == LogEntry(target.id, Success, Some(0), None))
    ensures forall j :: j != target.kind ==> r.db.Get(j) == st.db.Get(j)
  {
    var id := target.id;
    var busy := st.(status := st.status[id := Processing], statusWrites := st.statusWrites + [(id, Processing)]);
    var outcome := RunOutcome(Cleared(st.db, target, reset), target, fetch);
    var r := Finish(busy, outcome.0, outcome.1);
    assert r.log[..|st.log|] == st.log;
    r
  }

  /** The store after a run's fetch and save, and the log entry the run
      writes. */
  function RunOutcome(db: Db, target: Target, fetch: FetchOutcome): (r: (Db, LogEntry))
    ensures r.1.symbol == target.id
    ensures r.1.status == Success <==> r.1.error.None?
    ensures r.1.status == Success <==> r.1.rows.Some?
    ensures fetch.FetchFailed? ==> r.1 == LogEntry(target.id, Failure, None, Some(ApiFetchFailed))
    ensures fetch.Fetched? && |fetch.results| == 0 ==> r == (db, LogEntry(target.id, Success, Some(0), None))
    ensures forall j :: j != target.kind ==> r.0.Get(j) == db.Get(j)
  {
    var id := target.id;
    match fetch
    case FetchFailed =>
      (db, LogEntry(id, Failure, None, Some(ApiFetchFailed)))
    case Fetched(market, results) =>
      if |results| == 0 then (db, LogEntry(id, Success, Some(0), None))
      else
        var saved := SaveResults(target.kind, db.Get(target.kind), id, market, results);
        var db2 := db.Set(target.kind, saved.table);
        if saved.error.Some? then (db2, LogEntry(id, Failure, None, Some(Raised(saved.error.value))))
        else (db2, LogEntry(id, Success, Some(saved.saved), None))
  }

  /** When rows arrive, the symbol's table ends up as the abstract save of
      the batch over the (possibly wiped) table, also when the save stops on
      an error (no transaction undoes the earlier upserts), and the log
      reports the count or the error. */
  lemma ProcessSymbolStore(st: PollState, target: Target, reset: bool, fetch: FetchOutcome)
    requires DbUnique(st.db)
    requires fetch.Fetched? && |fetch.results| > 0
    ensures var r := ProcessSymbol(st, target, reset, fetch);
      var base := AsMap(Cleared(st.db, target, reset).Get(target.kind));
      var a := SaveAll(target.kind, base, target.id, fetch.market, fetch.results);
      var e := r.log[|st.log|];
      && AsMap(r.db.Get(target.kind)) == a.rows
      && (a.error.None? ==> e == LogEntry(target.id, Success, Some(Stamped(fetch.results)), None))
      && (a.error.Some? ==> e == LogEntry(target.id, Failure, None, Some(Raised(a.error.value))))
  {
    var db := Cleared(st.db, target, reset);
    assert KeysUnique(db.Get(target.kind));
    SaveResultsRefines(target.kind, db.Get(target.kind), target.id, fetch.market, fetch.results);
    SaveAllCount(target.kind, AsMap(db.Get(target.kind)), target.id, fetch.market, fetch.results);
  }

  /** A run never touches another symbol's rows, whatever the outcome. */
  lemma ProcessSymbolOthers(st: PollState, target: Target, reset: bool, fetch: FetchOutcome)
    requires DbUnique(st.db)
    ensures var after := AsMap(ProcessSymbol(st, target, reset, fetch).db.Get(target.kind));
      var before := AsMap(st.db.Get(target.kind));
      && (forall k: Key :: k.0 != target.id ==> (k in after <==> k in before))
      && (forall k: Key :: k.0 != target.id && k in after ==> after[k] == before[k])
  {
    var t := st.db.Get(target.kind);
    var db := Cleared(st.db, target, reset);
    DeleteSymbolEffect(t, target.id);
    if fetch.Fetched? && |fetch.results| > 0 {
      assert KeysUnique(db.Get(target.kind));
      SaveResultsRefines(target.kind, db.Get(target.kind), target.id, fetch.market, fetch.results);
      SaveAllFrame(target.kind, AsMap(db.Get(target.kind)), target.id, fetch.market, fetch.results);
      BatchKeysMember(target.id, fetch.results, 0);
    }
  }

  /** With `--reset`, the symbol's old rows are gone before the fetch: a
      failed or empty fetch leaves it with no rows at all (other symbols'
      rows as they were), and afterwards every row it has came from this
      batch. */
  lemma ResetEffect(st: PollState, target: Target, fetch: FetchOutcome)
    requires DbUnique(st.db)
    ensures var t := ProcessSymbol(st, target, true, fetch).db.Get(target.kind);
      && (fetch.FetchFailed? || |fetch.results| == 0 ==>
            RowsOf(t, target.id) == []
            && forall s :: s != target.id ==> RowsOf(t, s) == RowsOf(st.db.Get(target.kind), s))
      && (forall k: Key :: k in AsMap(t) && k.0 == target.id ==>
            fetch.Fetched? && k in BatchKeys(target.id, fetch.results))
  {
    var t0 := st.db.Get(target.kind);
    DeleteSymbolEffect(t0, target.id);
    var db := Cleared(st.db, target, true);
    if fetch.Fetched? && |fetch.results| > 0 {
      assert KeysUnique(db.Get(target.kind));
      SaveResultsRefines(target.kind, db.Get(target.kind), target.id, fetch.market, fetch.results);
      SaveAllFrame(target.kind, AsMap(db.Get(target.kind)), target.id, fetch.market, fetch.results);
    }
  }

  /** True when no target of `targets` is the symbol `id`. */
  predicate NotTargeted(targets: seq<Target>, id: SymbolId)
  {
    forall i :: 0 <= i < |targets| ==> targets[i].id != id
  }

  /** The loop of `handle`: every target processed exactly once, in order,
      with `fetches[i]` the response for `targets[i]`. Exceptions are caught
      per symbol, so each target leaves its two status writes and its log
      entry whatever happened to the ones before it. */
  function RunBatch(st: PollState, targets: seq<Target>, reset: bool, fetches: seq<FetchOutcome>): (r: PollState)
    requires |fetches| == |targets|
    ensures |r.log| == |st.log| + |targets|
    ensures |r.statusWrites| == |st.statusWrites| + 2 * |targets|
    decreases |targets|
  {
    if |targets| == 0 then st
    else
      var n := |targets| - 1;
      ProcessSymbol(RunBatch(st, targets[..n], reset, fetches[..n]), targets[n], reset, fetches[n])
  }

  /** A run keeps every table's keys unique. */
  lemma ProcessSymbolUnique(st: PollState, target: Target, reset: bool, fetch: FetchOutcome)
    requires DbUnique(st.db)
    ensures DbUnique(ProcessSymbol(st, target, reset, fetch).db)
  {
    var db := Cleared(st.db, target, reset);
    assert ProcessSymbol(st, target, reset, fetch).db == RunOutcome(db, target, fetch).0;
    if fetch.Fetched? && |fetch.results| > 0 {
      assert KeysUnique(db.Get(target.kind));
      SaveResultsRefines(target.kind, db.Get(target.kind), target.id, fetch.market, fetch.results);
    }
  }

  /** So does a whole batch. */
  lemma {:induction false} RunBatchUnique(st: PollState, targets: seq<Target>, reset: bool, fetches: seq<FetchOutcome>)
    requires |fetches| == |targets|
    ensures DbUnique(st.db) ==> DbUnique(RunBatch(st, targets, reset, fetches).db)
    decreases |targets|
  {
    if |targets| > 0 {
      var n := |targets| - 1;
      var prev := RunBatch(st, targets[..n], reset, fetches[..n]);
      assert RunBatch(st, targets, reset, fetches) == ProcessSymbol(prev, targets[n], reset, fetches[n]);
      RunBatchUnique(st, targets[..n], reset, fetches[..n]);
      if DbUnique(st.db) {
        ProcessSymbolUnique(prev, targets[n], reset, fetches[n]);
      }
    }
  }

  /** `log` extends `base` by one entry per target, in target order. */
  predicate LogFollows(base: seq<LogEntry>, log: seq<LogEntry>, targets: seq<Target>)
  {
    && |log| == |base| + |targets| && log[..|base|] == base
    && forall i :: 0 <= i < |targets| ==> log[|base| + i].symbol == targets[i].id
  }

  /** Every target ends in a final status; other symbols keep theirs. */
  ghost predicate StatusFollows(before: map<SymbolId, PollStatus>, after: map<SymbolId, PollStatus>, targets: seq<Target>)
  {
    && (forall i :: 0 <= i < |targets| ==> targets[i].id in after && after[targets[i].id] != Processing)
    && (forall id :: NotTargeted(targets, id) ==>
          (id in after <==> id in before) && (id in before ==> after[id] == before[id]))
  }

  lemma LogFollowsStep(base: seq<LogEntry>, prev: seq<LogEntry>, log: seq<LogEntry>, targets: seq<Target>)
    requires |targets| > 0
    requires LogFollows(base, prev, targets[..|targets| - 1])
    requires |log| == |prev| + 1 && log[..|prev|] == prev && log[|prev|].symbol == targets[|targets| - 1].id
    ensures LogFollows(base, log, targets)
  {
    var n := |targets| - 1;
    assert log[..|base|] == prev[..|base|];
    forall i | 0 <= i < |targets| ensures log[|base| + i].symbol == targets[i].id {
      if i < n {
        assert targets[..n][i] == targets[i];
        assert log[|base| + i] == prev[|base| + i];
      }
    }
  }

  lemma StatusFollowsStep(before: map<SymbolId, PollStatus>, prev: map<SymbolId, PollStatus>,
                          after: map<SymbolId, PollStatus>, targets: seq<Target>, s: PollStatus)
    requires |targets| > 0 && s != Processing
    requires StatusFollows(before, prev, targets[..|targets| - 1])
    requires after == prev[targets[|targets| - 1].id := s]
    ensures StatusFollows(before, after, targets)
  {
    var n := |targets| - 1;
    forall i | 0 <= i < |targets| ensures targets[i].id in after && after[targets[i].id] != Processing {
      if i < n { assert targets[..n][i] == targets[i]; }
    }
    forall id | NotTargeted(targets, id)
      ensures (id in after <==> id in before) && (id in before ==> after[id] == before[id])
    {
      assert NotTargeted(targets[..n], id) && id != targets[n].id;
    }
  }

  /** The batch appends one log entry per target, in target order. */
  lemma {:induction false} RunBatchLog(st: PollState, targets: seq<Target>, reset: bool, fetches: seq<FetchOutcome>)
    requires |fetches| == |targets|
    ensures LogFollows(st.log, RunBatch(st, targets, reset, fetches).log, targets)
    decreases |targets|
  {
    if |targets| > 0 {
      var n := |targets| - 1;
      var prev := RunBatch(st, targets[..n], reset, fetches[..n]);
      RunBatchLog(st, targets[..n], reset, fetches[..n]);
      var r := ProcessSymbol(prev, targets[n], reset, fetches[n]);
      LogFollowsStep(st.log, prev.log, r.log, targets);
    }
  }

  /** No target is left `processing`, and every other symbol keeps its status. */
  lemma {:induction false} RunBatchStatus(st: PollState, targets: seq<Target>, reset: bool, fetches: seq<FetchOutcome>)
    requires |fetches| == |targets|
    ensures StatusFollows(st.status, RunBatch(st, targets, reset, fetches).status, targets)
    decreases |targets|
  {
    if |targets| > 0 {
      var n := |targets| - 1;
      var prev := RunBatch(st, targets[..n], reset, fetches[..n]);
      RunBatchStatus(st, targets[..n], reset, fetches[..n]);
      var r := ProcessSymbol(prev, targets[n], reset, fetches[n]);
      assert RunBatch(st, targets, reset, fetches) == r;
      assert r.status == prev.status[targets[n].id := StatusAfter(r.log[|prev.log|])];
      StatusFollowsStep(st.status, prev.status, r.status, targets, StatusAfter(r.log[|prev.log|]));
    }
  }

  /** The command-line flags `handle` reads. */
  datatype Options = Options(
    symbol: Option<string>,
    allIndia: bool, allUs: bool, allCrypto: bool, allMetals: bool, allIntl: bool, allIndexes: bool,
    reset: bool)

  /** Why `_resolve_symbols` raises instead of returning: `get` matched more
      than one symbol, or the matched symbol has no market. */
  datatype ResolveError = AmbiguousName(name: string) | NoMarket(name: string)

  function TargetOf(s: Symbol, kind: MarketKind): Target
  {
    Target(s.name, s.id, kind)
  }

  /** One target per symbol, in order. */
  function TargetsOf(syms: seq<Symbol>, kind: MarketKind): (r: seq<Target>)
    ensures |r| == |syms|
    ensures forall i :: 0 <= i < |r| ==> r[i] == TargetOf(syms[i], kind)
  {
    if |syms| == 0 then [] else [TargetOf(syms[0], kind)] + TargetsOf(syms[1..], kind)
  }

  /** `_get_symbols_for_market`: the catalog's symbols of one market, taken
      in catalog order, each turned into its polling target. */
  function SymbolsForMarket(catalog: seq<Symbol>, kind: MarketKind): (r: seq<Target>)
    ensures |r| <= |catalog|
    ensures |r| == |OfMarket(catalog, kind)|
    ensures forall i :: 0 <= i < |r| ==> r[i] == TargetOf(OfMarket(catalog, kind)[i], kind)
    ensures forall s :: s in catalog && InMarket(s, kind) ==> TargetOf(s, kind) in r
    ensures forall t :: t in r ==> exists s :: s in catalog && InMarket(s, kind) && t == TargetOf(s, kind)
  {
    var syms := OfMarket(catalog, kind);
    var r := TargetsOf(syms, kind);
    assert forall s :: s in catalog && InMarket(s, kind) ==> TargetOf(s, kind) in r by {
      forall s | s in catalog && InMarket(s, kind) ensures TargetOf(s, kind) in r {
        var i :| 0 <= i < |syms| && syms[i] == s;
        assert r[i] == TargetOf(s, kind);
      }
    }
    assert forall t :: t in r ==> exists s :: s in catalog && InMarket(s, kind) && t == TargetOf(s, kind) by {
      forall t | t in r ensures exists s :: s in catalog && InMarket(s, kind) && t == TargetOf(s, kind) {
        var i :| 0 <= i < |r| && r[i] == t;
        assert syms[i] in syms;
      }
    }
    r
  }

  /** The symbols of every market in `kinds`, market by market. */
  function AllMarkets(catalog: seq<Symbol>, kinds: seq<MarketKind>): (r: seq<Target>)
    ensures forall s, k :: s in catalog && k in kinds && InMarket(s, k) ==> TargetOf(s, k) in r
    ensures forall t :: t in r ==> t.kind in kinds && exists s :: s in catalog && InMarket(s, t.kind) && t == TargetOf(s, t.kind)
  {
    if |kinds| == 0 then []
    else SymbolsForMarket(catalog, kinds[0]) + AllMarkets(catalog, kinds[1..])
  }

  /** The market flags the options set, `--allindexes` selecting every market. */
  predicate Selected(opts: Options, kind: MarketKind)
  {
    || opts.allIndexes
    || (kind == IndiaStocks && opts.allIndia)
    || (kind == UsStocks && opts.allUs)
    || (kind == Crypto && opts.allCrypto)
    || (kind == PreciousMetals && opts.allMetals)
    || (kind == IntlStocks && opts.allIntl)
  }

  /** One market flag's contribution: its market's symbols when set. */
  function FlagPart(catalog: seq<Symbol>, on: bool, kind: MarketKind): (r: seq<Target>)
    ensures forall t :: t in r ==> on && t.kind == kind
    ensures on ==> forall s :: s in catalog && InMarket(s, kind) ==> TargetOf(s, kind) in r
  {
    if on then SymbolsForMarket(catalog, kind) else []
  }

  /** The market-flag part of `_resolve_symbols`: lists appended in the order
      india, us, crypto, metals, international, then every market for
      `--allindexes`, with no de-duplication. */
  function FlagTargets(catalog: seq<Symbol>, opts: Options): (r: seq<Target>)
    ensures forall t :: t in r ==> Selected(opts, t.kind)
    ensures forall s, k :: s in catalog && InMarket(s, k) && Selected(opts, k) ==> TargetOf(s, k) in r
  {
    var india := FlagPart(catalog, opts.allIndia, IndiaStocks);
    var us := FlagPart(catalog, opts.allUs, UsStocks);
    var crypto := FlagPart(catalog, opts.allCrypto, Crypto);
    var metals := FlagPart(catalog, opts.allMetals, PreciousMetals);
    var intl := FlagPart(catalog, opts.allIntl, IntlStocks);
    var every := if opts.allIndexes then AllMarkets(catalog, TableOrder) else [];
    forall k ensures k in TableOrder { TableOrderComplete(k); }
    var r := india + us + crypto + metals + intl + every;
    forall t | t in r ensures Selected(opts, t.kind) {
      InConcat(t, india, us, crypto, metals, intl, every);
    }
    forall s, k | s in catalog && InMarket(s, k) && Selected(opts, k) ensures TargetOf(s, k) in r {
      InConcat(TargetOf(s, k), india, us, crypto, metals, intl, every);
    }
    r
  }

  /** An element of a six-part concatenation is in one of the parts. */
  lemma InConcat<T>(x: T, a: seq<T>, b: seq<T>, c: seq<T>, d: seq<T>, e: seq<T>, f: seq<T>)
    ensures x in a + b + c + d + e + f <==> x in a || x in b || x in c || x in d || x in e || x in f
  {
  }

  /** `--allindia` symbols come first and `--allindexes` appends every market
      at the end, so a symbol selected by both appears twice. */
  lemma FlagOrder(catalog: seq<Symbol>, opts: Options)
    ensures var r := FlagTargets(catalog, opts);
      && (opts.allIndia ==>
            |SymbolsForMarket(catalog, IndiaStocks)| <= |r|
            && r[..|SymbolsForMarket(catalog, IndiaStocks)|] == SymbolsForMarket(catalog, IndiaStocks))
      && (opts.allIndexes ==>
            |AllMarkets(catalog, TableOrder)| <= |r|
            && r[|r| - |AllMarkets(catalog, TableOrder)|..] == AllMarkets(catalog, TableOrder))
  {
    var r := FlagTargets(catalog, opts);
    var india := if opts.allIndia then SymbolsForMarket(catalog, IndiaStocks) else [];
    var every := if opts.allIndexes then AllMarkets(catalog, TableOrder) else [];
    var us := if opts.allUs then SymbolsForMarket(catalog, UsStocks) else [];
    var crypto := if opts.allCrypto then SymbolsForMarket(catalog, Crypto) else [];
    var metals := if opts.allMetals then SymbolsForMarket(catalog, PreciousMetals) else [];
    var intl := if opts.allIntl then SymbolsForMarket(catalog, IntlStocks) else [];
    assert r == india + us + crypto + metals + intl + every;
    ConcatEnds(india, us, crypto, metals, intl, every);
  }

  /** A concatenation starts with its first part and ends with its last. */
  lemma ConcatEnds<T>(a: seq<T>, b: seq<T>, c: seq<T>, d: seq<T>, e: seq<T>, f: seq<T>)
    ensures |a| <= |a + b + c + d + e + f|
    ensures (a + b + c + d + e + f)[..|a|] == a
    ensures (a + b + c + d + e + f)[|a + b + c + d + e + f| - |f|..] == f
  {
    var front := a + b + c + d + e;
    assert a + b + c + d + e + f == front + f;
    assert front[..|a|] == a by {
      assert (a + b)[..|a|] == a;
      assert (a + b + c)[..|a|] == a;
      assert (a + b + c + d)[..|a|] == a;
    }
    assert (front + f)[..|a|] == front[..|a|];
  }

  /** The names of a `--symbol` value: split on commas, each piece stripped,
      blank pieces dropped. */
  function Names(arg: string): (names: seq<string>)
    ensures forall i :: 0 <= i < |names| ==> Text.Trimmed(names[i]) && ',' !in names[i]
  {
    KeepNonBlank(Text.Split(arg, ','))
  }

  function KeepNonBlank(parts: seq<string>): (names: seq<string>)
    requires forall i :: 0 <= i < |parts| ==> ',' !in parts[i]
    ensures forall i :: 0 <= i < |names| ==> Text.Trimmed(names[i]) && ',' !in names[i]
  {
    if |parts| == 0 then []
    else
      var p := Text.Strip(parts[0]);
      assert forall c :: c in p ==> c in parts[0];
      (if |p| > 0 then [p] else []) + KeepNonBlank(parts[1..])
  }

  /** Comma-separated trimmed names come back out of `Names` unchanged. */
  lemma NamesJoin(names: seq<string>)
    requires |names| >= 1
    requires forall i :: 0 <= i < |names| ==> Text.Trimmed(names[i]) && ',' !in names[i]
    ensures Names(Text.Join(names, ',')) == names
  {
    Text.SplitJoin(names, ',');
    KeepTrimmed(names);
  }

  lemma {:induction false} KeepTrimmed(names: seq<string>)
    requires forall i :: 0 <= i < |names| ==> Text.Trimmed(names[i]) && ',' !in names[i]
    ensures KeepNonBlank(names) == names
  {
    if |names| > 0 {
      Text.StripTrimmed(names[0]);
      KeepTrimmed(names[1..]);
    }
  }

  /** Looking a name up raises: more than one match, or a match without a market. */
  predicate Crashes(catalog: seq<Symbol>, name: string)
  {
    var l := LookupByName(catalog, name);
    l.Ambiguous? || (l.Unique? && l.symbol.market.None?)
  }

  /** The `--symbol` loop of `_resolve_symbols`: unknown names and symbols of
      an unregistered market are skipped; an ambiguous name or a symbol
      without a market raises out of the command. */
  function ResolveNames(catalog: seq<Symbol>, names: seq<string>): (r: Result<seq<Target>, ResolveError>)
    ensures r.Err? <==> exists i :: 0 <= i < |names| && Crashes(catalog, names[i])
    ensures r.Ok? ==> |r.value| <= |names|
    ensures r.Ok? ==> forall t :: t in r.value ==>
      exists s :: s in catalog && TableOf(s) == Some(t.kind) && t == TargetOf(s, t.kind)
    ensures r.Ok? ==> forall i :: 0 <= i < |names| && LookupByName(catalog, names[i]).Unique?
                                  && TableOf(LookupByName(catalog, names[i]).symbol).Some? ==>
      var s := LookupByName(catalog, names[i]).symbol;
      TargetOf(s, TableOf(s).value) in r.value
  {
    if |names| == 0 then Ok([])
    else
      var rest := ResolveNames(catalog, names[1..]);
      assert forall i :: 1 <= i < |names| ==> names[i] == names[1..][i - 1];
      match LookupByName(catalog, names[0])
      case NoMatch => rest
      case Ambiguous => Err(AmbiguousName(names[0]))
      case Unique(s) =>
        if s.market.None? then Err(NoMarket(names[0]))
        else match TableFor(s.market.value.name)
          case None => rest
          case Some(k) => if rest.Err? then rest else Ok([TargetOf(s, k)] + rest.value)
  }

  /** `_resolve_symbols`: the market flags, or, only when they produced
      nothing, the `--symbol` names. */
  function ResolveSymbols(catalog: seq<Symbol>, opts: Options): (r: Result<seq<Target>, ResolveError>)
    ensures |FlagTargets(catalog, opts)| > 0 ==> r.Ok? && forall t :: t in r.value ==> Selected(opts, t.kind)
    ensures (opts.symbol.None? || opts.symbol.value == "") ==> r == Ok(FlagTargets(catalog, opts))
    ensures |FlagTargets(catalog, opts)| == 0 && opts.symbol.Some? && opts.symbol.value != "" ==>
      r == ResolveNames(catalog, Names(opts.symbol.value))
  {
    var flagged := FlagTargets(catalog, opts);
    if |flagged| > 0 then Ok(flagged)
    else if opts.symbol.None? || |opts.symbol.value| == 0 then Ok([])
    else ResolveNames(catalog, Names(opts.symbol.value))
  }

  /** `--symbol` is ignored whenever a market flag found symbols. */
  lemma FlagsWin(catalog: seq<Symbol>, opts: Options, arg: string)
    requires |FlagTargets(catalog, opts)| > 0
    ensures ResolveSymbols(catalog, opts.(symbol := Some(arg))) == ResolveSymbols(catalog, opts.(symbol := None))
  {
    assert FlagTargets(catalog, opts.(symbol := Some(arg))) == FlagTargets(catalog, opts);
    assert FlagTargets(catalog, opts.(symbol := None)) == FlagTargets(catalog, opts);
  }

  /** `handle`: resolve, then run the batch; an empty selection processes
      nothing. `fetches` are the responses, one per resolved target. */
  function Handle(catalog: seq<Symbol>, opts: Options, st: PollState, fetches: seq<FetchOutcome>): (r: Result<PollState, ResolveError>)
    requires ResolveSymbols(catalog, opts).Ok? ==> |fetches| == |ResolveSymbols(catalog, opts).value|
    ensures r.Err? <==> ResolveSymbols(catalog, opts).Err?
    ensures r.Ok? && |ResolveSymbols(catalog, opts).value| == 0 ==> r.value == st
    ensures r.Ok? ==> LogFollows(st.log, r.value.log, ResolveSymbols(catalog, opts).value)
    ensures r.Ok? ==> StatusFollows(st.status, r.value.status, ResolveSymbols(catalog, opts).value)
    ensures r.Ok? && DbUnique(st.db) ==> DbUnique(r.value.db)
  {
    match ResolveSymbols(catalog, opts)
    case Err(e) => Err(e)
    case Ok(targets) =>
      if |targets| == 0 then Ok(st)
      else
        RunBatchLog(st, targets, opts.reset, fetches);
        RunBatchStatus(st, targets, opts.reset, fetches);
        RunBatchUnique(st, targets, opts.reset, fetches);
        Ok(RunBatch(st, targets, opts.reset, fetches))
  }
}
