# ClarityBox core engine — a Dafny model

This project models the two halves of the ClarityBox back end that touch the
market-data tables:

* the `poll_data` management command, which picks symbols from its
  command-line flags and, per symbol, marks the polling status
  `processing`, optionally wipes the symbol's rows (`--reset`), fetches
  rows from the upstream API, upserts them by (symbol, timestamp), and
  ends with one final status and exactly one polling-log entry;
* the read-side views: the zone of a score, the leverage display format,
  the effective score (`cb_score` over `mv_score`), when the current zone
  began, the per-index dictionary of `global_market_summary_v2` and its
  region > country > index tree with the crypto and precious-metals
  pseudo-regions, `chart_data`, `momentum_alerts` (scan and sort), and the
  request validation and data selection of `simulate`,
  `simulate_portfolio` and `simulate_portfolio_advanced`.

Modules, one per file:

| file | module | what it holds |
|---|---|---|
| wrappers.dfy | Wrappers | `Option` (Python `None`) and `Result` |
| text.dfy | Text | `str(int)`, an integer reader, ASCII case mapping, `split`, `strip` |
| sorting.dfy | Sorting | a stable sort by an integer key, largest first (Python's `sort(reverse=True)` and the ORM's `order_by`) |
| markets.dfy | Markets | the five market tables, regions, countries, markets, symbols, the `name__iexact` lookup |
| zones.dfy | Zones | `_get_zone`, alert directions, `_format_leverage` |
| store.dfy | Store | tables as row sequences, their map abstraction, `update_or_create`, `delete`, the read queries |
| ingest.dfy | Ingest | `_build_fields` and `_save_results`, against a map-level reference save |
| polling.dfy | Polling | `_process_symbol`, the batch loop, `_resolve_symbols`, `_get_symbols_for_market`, `handle` |
| momentum.dfy | Momentum | `_get_score`, `_get_zone_since`, the `momentum_alerts` scan and sort |
| summary.dfy | Summary | `_build_index_data` and the `global_market_summary_v2` tree |
| requests.dfy | Requests | `chart_data` and the three simulation endpoints |

Modelling choices, in the system's own terms:

* A table is a sequence of rows. The schema declares no unique constraint
  on (symbol, timestamp), so "keys are unique" is an invariant the writers
  keep (`KeysUnique`, `DbUnique`), not a given. `AsMap` abstracts a table to
  a map from key to columns; `Write` and `SaveAll` are the map-level
  reference for one `update_or_create` and for the whole save loop, and the
  table-level `Upsert` and `SaveResults` are proved to refine them.
* A write raises when more than one row matches the key
  (MultipleObjectsReturned), when a new row would get a column its table
  lacks (the crypto and international extras: the create parameters are
  checked against the model's fields and a FieldError is raised before any
  row exists), or when a NOT NULL column would be null (prices
  everywhere; volume and USD volume on crypto). Column widths are not
  checked (see "Left out"). On an existing row, a column the table lacks
  is only set as a stray attribute, which saving ignores (`Restrict`).
  The save loop has no transaction: the rows written before the failing
  one stay.
* Prices and scores are integers (fixed point). Timestamps are seconds;
  a calendar day is `ts / 86400`.
* The upstream response of each target is a parameter of the batch
  (`FetchOutcome`): either the fetch failed, or a market name and a list of
  rows was read. Date parsing (`strptime`) and "does `float` accept this
  string" are parameters of the request model (`Parsers`).
* A JSON request field is absent, a string or a whole number (`Value`),
  with Python truthiness deciding "missing". An exception the view does not
  catch is a 500 (`ServerError`): an ambiguous symbol name, a symbol
  without a market in `simulate_portfolio`, an amount `float` rejects, or a
  first close that is zero or null.
* `chart_data` and `simulate` read the table named in the request, not
  the table of the symbol's own market; the model keeps that.

## Model

| member | source | states |
|---|---|---|
| Zones.ZoneOf | client_api/views.py:25-33 | no score has no zone; GREEN exactly from 71 up, RED exactly up to 30, GREY exactly strictly between |
| Zones.ZoneMonotone | client_api/views.py:25-33 | a higher score never lands in a weaker zone |
| Zones.ZoneBoundaries | client_api/views.py:25-33 | the boundary scores 0, 30, 31, 50, 70, 71, 100 fall in RED, RED, GREY, GREY, GREY, GREEN, GREEN |
| Zones.DirectionOf | client_api/views.py:267 | BULLISH exactly for a move into GREEN, BEARISH exactly into RED, NEUTRAL otherwise |
| Zones.FormatLeverage | client_api/views.py:36-40 | `None` exactly for `None`; otherwise a string of at least two characters ending in `X` |
| Zones.LeverageRoundTrip | client_api/views.py:36-40 | the display string reads back to the leverage it was made from |
| Zones.LeverageExamples | client_api/views.py:36-40 | 2 is shown as "2X", 3 as "3X", `None` stays `None` |
| Momentum.ScoreOf | client_api/views.py:43-49 | the manual `cb_score` when set, otherwise the model's `mv_score` |
| Momentum.EntryScore | client_api/views.py:43-49 | no entry has no score; an entry has its row's effective score |
| Momentum.OverrideSticks | polling/management/commands/poll_data.py:176-230 | re-ingesting any batch never changes the effective score of a stored row that has a manual override |
| Momentum.LeadingRun | client_api/views.py:72-76 | the leading run of the window in one zone: every point before it is in the zone, the point after it is not |
| Momentum.ScanSince | client_api/views.py:69-80 | the loop's result is the date and score of the last point of the leading run, or nothing when the run is empty |
| Momentum.ZoneSince | client_api/views.py:59-80 | nothing without a current zone; otherwise the date and score of the oldest point of the newest run in the current zone |
| Momentum.ZoneSinceInZone | client_api/views.py:59-80 | a reported start has a current zone, its score lies in that zone, and its date is one of the window's |
| Momentum.FirstChange | client_api/views.py:262-266 | the first index at or after `i` whose zone differs from the newest point's; all points before it share the newest zone |
| Momentum.Transition | client_api/views.py:256-278 | no change for fewer than two points or when all points share the newest zone; a change names the first differing point, its score, the newest score, the direction of the newest zone and the newest date |
| Momentum.SymbolAlert | client_api/views.py:248-278 | a symbol has an alert exactly when its 60-point window shows a change; the alert is well shaped, carries the symbol's name and label, takes from-score, to-score, direction, days and date from that change, and is labelled with its market's label, or with the table's market name when the symbol has no market |
| Momentum.MarketAlerts | client_api/views.py:246-278 | at most one alert per symbol, every alert well shaped and naming a symbol of the market |
| Momentum.MarketAlertsExact | client_api/views.py:246-278 | every alert is some symbol's alert, and every symbol that has an alert contributes it |
| Momentum.CollectAlerts | client_api/views.py:245-278 | every collected alert is well shaped and names a catalog symbol |
| Momentum.CollectAlertsExact | client_api/views.py:244-278 | an alert is collected exactly when it is the alert of some symbol of one of the scanned markets, read from that market's table |
| Momentum.MomentumAlertsSpec | client_api/views.py:280-281 | the response is a permutation of the collected alerts, dates non-increasing, stable among equal dates, every alert well shaped |
| Momentum.FallingExample | client_api/tests.py:365-372 | scores 75, 60, 45, 30, 15 (newest last) give a BEARISH change two points back from 45 to 15, and the RED zone began on the day scored 30 |
| Store.Apply | polling/management/commands/poll_data.py:192-198 | an update never touches `cb_score` and always sets `mv_score` from the writes |
| Store.ApplyOverwrites | polling/management/commands/poll_data.py:176-206 | a later write of the same shape hides an earlier one completely |
| Store.Restrict | core/models.py:104-168 | the writes kept name only columns the table has, and are unchanged when they already do |
| Store.Upsert | polling/management/commands/poll_data.py:194-198 | two or more matching rows raise; with unique keys it agrees with the map-level write, keeps keys unique, and grows the table by one row exactly for a new key |
| Store.AsMapSize | polling/management/commands/poll_data.py:179-181 | with unique keys the table has exactly one row per key of its content |
| Store.RowsOf | client_api/views.py:212-214 | exactly the rows of the symbol |
| Store.DeleteSymbol | polling/management/commands/poll_data.py:111-113 | exactly the rows of other symbols remain |
| Store.DeleteSymbolEffect | polling/management/commands/poll_data.py:111-113 | the delete keeps keys unique, empties the symbol, leaves every other symbol's rows and every other key's content as they were |
| Store.HistoryShape | client_api/views.py:52-56 | the newest-first history holds exactly the symbol's rows, timestamps non-increasing |
| Store.LatestIsNewest | client_api/views.py:52-56 | no latest entry exactly when the symbol has no rows; otherwise a row of the symbol with the largest timestamp |
| Store.Scored | client_api/views.py:64-67 | exactly the rows with an `mv_score`, each carrying one |
| Store.ScoredWindow | client_api/views.py:64-67 | at most `limit` rows, each of the symbol, in the table, with an `mv_score` |
| Store.ScoredWindowSpec | client_api/views.py:64-67 | the window is newest first, and a scored row of the symbol is left out only when the window already holds `limit` rows, none older than it |
| Store.RowsBetween | client_api/views.py:314-318 | exactly the symbol's rows whose timestamp lies in the closed range |
| Markets.TableFor | client_api/views.py:16-22 | a found table is registered under that name; no table means no market has that name |
| Markets.TableForName | client_api/views.py:16-22 | every table is found under its own name |
| Markets.TableOrderComplete | polling/management/commands/poll_data.py:74-76 | the iteration order lists each table once |
| Markets.OfMarket | polling/management/commands/poll_data.py:97 | exactly the catalog's symbols of the market, each mapping to that table |
| Markets.NameMatches | client_api/views.py:208 | exactly the catalog's symbols whose name matches ignoring case |
| Markets.LookupByName | client_api/views.py:207-210 | no match exactly when no name matches; a unique match is the only matching symbol; ambiguous exactly with two or more matches |
| Ingest.BuildFields | polling/management/commands/poll_data.py:208-230 | the shared columns copy the row, `mv_score` comes from `smart_index_st`; the crypto extras are written exactly for a crypto response (USD volume 0 when missing), the region exactly for an international one |
| Ingest.RowWritesSameShape | polling/management/commands/poll_data.py:208-230 | two rows of one batch write the same set of columns |
| Ingest.ApplyOutside | polling/management/commands/poll_data.py:194-198 | a row's write depends on the stored row only through the columns the batch never writes |
| Ingest.ApplyKeepsOutside | polling/management/commands/poll_data.py:194-198 | a row's write leaves those columns (`cb_score` among them) as they were |
| Ingest.SaveAllCount | polling/management/commands/poll_data.py:184-206 | a successful save reports one saved row per row with a timestamp |
| Ingest.WriteFrame | polling/management/commands/poll_data.py:194-198 | one write adds or changes only its own key and keeps the unwritten columns everywhere |
| Ingest.SaveAllFrame | polling/management/commands/poll_data.py:176-206 | also when it fails part-way: keys outside the batch untouched, no key lost, unwritten columns kept on every row |
| Ingest.LastWith | polling/management/commands/poll_data.py:187-190 | the last index stamped `ts`, or none exactly when no row is |
| Ingest.BatchKeysMember | polling/management/commands/poll_data.py:187-198 | a key is written by the batch exactly when some row carries its timestamp; all batch keys belong to the symbol |
| Ingest.SaveAllLastWins | polling/management/commands/poll_data.py:176-206 | after a successful save each batch key holds the columns of the last row with that timestamp over what was stored |
| Ingest.SaveAllLockstep | polling/management/commands/poll_data.py:176-206 | when a batch saves into one store, it saves with the same outcome into any store that agrees with it outside the batch keys and on the unwritten columns |
| Ingest.SaveAllIdempotent | polling/management/commands/poll_data.py:179-182 | after a successful save, saving the same batch again changes nothing |
| Ingest.SaveResults | polling/management/commands/poll_data.py:176-206 | a successful save reports the number of timestamped rows, a failed one no more than that |
| Ingest.SaveResultsRefines | polling/management/commands/poll_data.py:176-206 | on a table with unique keys the save keeps keys unique and does what the map-level save does, also when it stops on an error |
| Ingest.SaveResultsEntries | polling/management/commands/poll_data.py:176-206 | after a successful save each timestamp of the batch has exactly one row, holding the last row with that timestamp; the count is the number of timestamped rows |
| Ingest.SaveResultsFrame | polling/management/commands/poll_data.py:176-206 | other symbols' rows and content outside the batch keys are unchanged, no stored row disappears, `cb_score` survives |
| Ingest.SaveResultsTwice | polling/management/commands/poll_data.py:179-182 | running the same poll twice succeeds, reports the same count, and leaves content, size and unique keys as they were |
| Polling.Cleared | polling/management/commands/poll_data.py:111-113 | the optional wipe touches only the symbol's table and keeps keys unique |
| Polling.Finish | polling/management/commands/poll_data.py:119-144 | a run ends with one status write and one appended log entry |
| Polling.ProcessSymbol | polling/management/commands/poll_data.py:102-144 | exactly one log entry for the symbol; status writes `processing` then `ready` or `failed`; success exactly without error and exactly with a row count; the fetch-failure and empty-result entries; other tables untouched |
| Polling.RunOutcome | polling/management/commands/poll_data.py:116-144 | the entry names the symbol; success exactly without error and with a count; fetch failure and empty result change no table; other tables untouched |
| Polling.ProcessSymbolStore | polling/management/commands/poll_data.py:124-144 | with rows, the symbol's table ends as the map-level save over the (possibly wiped) table, and the log reports the count or the error |
| Polling.ProcessSymbolOthers | polling/management/commands/poll_data.py:102-144 | a run never changes another symbol's rows, whatever the outcome |
| Polling.ResetEffect | polling/management/commands/poll_data.py:111-129 | with `--reset` a failed or empty fetch leaves the symbol without rows, and afterwards every row it has came from this batch |
| Polling.ProcessSymbolUnique | polling/management/commands/poll_data.py:102-144 | a run keeps every table's keys unique |
| Polling.RunBatch | polling/management/commands/poll_data.py:54-58 | one log entry and two status writes per target |
| Polling.RunBatchUnique | polling/management/commands/poll_data.py:54-58 | a batch keeps every table's keys unique |
| Polling.RunBatchLog | polling/management/commands/poll_data.py:54-58 | the log grows by one entry per target, in target order, earlier entries kept |
| Polling.RunBatchStatus | polling/management/commands/poll_data.py:54-58 | no target is left `processing`, and every untargeted symbol keeps its status |
| Polling.SymbolsForMarket | polling/management/commands/poll_data.py:94-100 | one target per symbol of the market, with the query taken in catalog order: the i-th target is the i-th symbol of the market with that market's table |
| Polling.AllMarkets | polling/management/commands/poll_data.py:74-76 | every symbol of every listed market is targeted, and nothing else |
| Polling.FlagTargets | polling/management/commands/poll_data.py:64-76 | every target's market is selected by a flag, and every symbol of a selected market is targeted |
| Polling.FlagOrder | polling/management/commands/poll_data.py:64-76 | `--allindia` symbols come first and `--allindexes` appends every market at the end, without de-duplication |
| Polling.Names | polling/management/commands/poll_data.py:80 | every name is non-empty, stripped and comma-free |
| Polling.NamesJoin | polling/management/commands/poll_data.py:80 | a non-empty list of stripped, comma-free names, joined with commas, reads back unchanged |
| Polling.ResolveNames | polling/management/commands/poll_data.py:81-90 | fails exactly when some name is ambiguous or names a symbol without a market; otherwise every target is a catalog symbol of a registered market, and every uniquely found symbol of a registered market is targeted |
| Polling.ResolveSymbols | polling/management/commands/poll_data.py:60-92 | when a market flag finds symbols the result succeeds and holds only symbols of selected markets; without `--symbol` the result is exactly the flag selection; when the flags find nothing and `--symbol` is non-empty, the result is exactly the resolution of its comma-separated names |
| Polling.FlagsWin | polling/management/commands/poll_data.py:79 | `--symbol` changes nothing once a market flag found symbols |
| Polling.Handle | polling/management/commands/poll_data.py:45-58 | fails exactly when resolving fails; an empty selection changes nothing; otherwise one log entry per target in order, no target left `processing`, other statuses kept, keys kept unique |
| Summary.BuildIndexData | client_api/views.py:83-111 | id, name, label and market copied; score and zone from the newest row; status `ready` when none is stored; the zone start date and entry score are those `_get_zone_since` finds for the active zone among the 500 newest scored rows; the leverage pair present exactly when the newest row has a moderate leverage, both formatted |
| Summary.IndexEntrySince | client_api/views.py:83-111 | a zone start comes only with an active zone, its score lies in that zone, and its date is not after the newest row's |
| Summary.ZoneSinceMismatch | client_api/views.py:85-88 | a newest row with only a manual override shows a GREEN zone with no zone start when the older scored row is RED |
| Summary.RegionsById | client_api/views.py:142 | a permutation of the regions in id order |
| Summary.CountriesById | client_api/views.py:147 | a permutation of the countries in id order |
| Summary.MappedSymbols | client_api/views.py:153-158 | exactly the symbols whose market has a table |
| Summary.ListedSymbols | client_api/views.py:150 | exactly the catalog's symbols of the country |
| Summary.CountryNodes | client_api/views.py:149-165 | one node per country of the region that has symbols, in the given order, none empty |
| Summary.CountryNodesOrdered | client_api/views.py:147-165 | countries given in id order give nodes in id order |
| Summary.CountryNodesComplete | client_api/views.py:149-165 | a country of the region with symbols always gets its node |
| Summary.RegionNodes | client_api/views.py:145-172 | one node per region with a non-empty country, in the given order, none empty |
| Summary.RegionNodesOrdered | client_api/views.py:142-172 | regions given in id order give nodes in id order |
| Summary.RegionNodesComplete | client_api/views.py:145-172 | a region with a non-empty country always gets its node |
| Summary.PseudoRegion | client_api/views.py:175-192 | present exactly when the market has symbols; code is the upper-cased market name, with a single country of that code holding every symbol of the market |
| Summary.GeoNodesSpec | client_api/views.py:142-172 | regions and their countries in id order, none empty, each country holding exactly its symbols whose market has a table |
| Summary.PseudoNodesSpec | client_api/views.py:174-192 | crypto first, then precious metals, each present exactly when it has symbols, named "CRYPTO" / "Crypto" and "PRECIOUS_METALS" / "Precious Metals" |
| Summary.GroupingMapped | client_api/views.py:138-194 | every symbol of the tree has a table to read its entry from, and no region or country is empty |
| Summary.Render | client_api/views.py:158-190 | the response keeps the tree's shape and codes, each symbol replaced by its index entry |
| Requests.MarketOf | client_api/views.py:203 | only a string naming a registered market finds a table |
| Requests.NameOf | client_api/views.py:304 | a string is looked up as itself, a number as its decimal text |
| Requests.PyIntRoundTrip | client_api/views.py:310 | `int` reads back `str(n)` whatever whitespace surrounds it |
| Requests.PyIntPlus | client_api/views.py:310 | a leading `+` is accepted |
| Requests.ParseWindow | client_api/views.py:308-312 | a window exactly when the start parses and the duration is an integer; it starts at midnight of the start day and ends `365 * duration` days later |
| Requests.ChronoShape | client_api/views.py:212-214 | oldest-first order holds exactly the given rows |
| Requests.Price | client_api/views.py:224-227 | a price is shown exactly when set and non-zero, unchanged |
| Requests.PointFaithful | client_api/views.py:220-232 | a chart point keeps the row's day, volume and non-zero close, shows the manual score over the model score, and its leverage texts read back to the stored leverage |
| Requests.ChartDataFailures | client_api/views.py:201-210 | 400 exactly for an unknown market, 404 exactly when no symbol has the name, 500 exactly when several do |
| Requests.ChronoPoints | client_api/views.py:212-232 | one point per row, every row's point present, days non-decreasing |
| Requests.ChartDataOk | client_api/views.py:201-234 | a known market and unique name give one point per row of the symbol in that table, every such row represented, days non-decreasing |
| Requests.SimulateFailures | client_api/views.py:288-321 | each 400 and the 404 happen exactly when every earlier check passed and their own failed; not enough data means fewer than two of the symbol's rows in the window |
| Requests.SimulateOk | client_api/views.py:288-339 | a success is about the one symbol of that name, its window is the parsed one (midnight of the requested day to 365 · duration days later), its amount parses, and it holds exactly that symbol's rows of the requested table in the window, oldest first, with usable prices |
| Requests.SumAccepted | client_api/views.py:355 | a total is accepted exactly within 99..101 |
| Requests.TotalAppend | client_api/views.py:354 | the total of two lists of shares is the sum of their totals |
| Requests.TotalPermutation | client_api/views.py:354 | the total does not depend on the order of the dictionary |
| Requests.TotalRemove | client_api/views.py:354 | taking a share out lowers the total by its percentage |
| Requests.LegOf | client_api/views.py:367-389 | an unknown name is the 400 exactly when no symbol matches; every other failure is a 500 |
| Requests.LegOfSpec | client_api/views.py:367-389 | a contributing leg is valid for its share; a share is skipped exactly when its market has no table or fewer than two of its rows lie in the window |
| Requests.Collect | client_api/views.py:367-389 | the loop succeeds exactly when every step does, collecting at most one item per step |
| Requests.CollectSound | client_api/views.py:367-389 | every collected item is some step's contribution |
| Requests.CollectComplete | client_api/views.py:367-389 | every step's contribution is collected |
| Requests.CollectFirstFailure | client_api/views.py:367-371 | a failed loop reports its first failing step |
| Requests.LegsFailure | client_api/views.py:367-389 | the loop fails with a 500 or with an unknown symbol that a share names |
| Requests.PortfolioFailures | client_api/views.py:344-371 | missing fields, a bad total and a bad date each exactly when earlier checks passed and their own failed; an unknown symbol only after those pass, and it is a share's name |
| Requests.PortfolioOk | client_api/views.py:344-389 | the legs are exactly the contributing shares', every share names exactly one symbol |
| Requests.SimulateAdvanced | client_api/views.py:404-432 | success exactly with every field present and both totals within 99..101, echoing the request; every failure is a 400; a bad strategy mix is reported only after the allocations passed, with its total |
| Requests.AdvancedAgreesWithPortfolio | client_api/views.py:412-417 | missing fields and a bad allocation total are reported exactly as `simulate_portfolio` reports them |
| Requests.AdvancedSkipsDates | client_api/views.py:404-432 | a request with a bad date that `simulate_portfolio` rejects is accepted |
| Text.IntRoundTrip | client_api/views.py:40 | the reader reads back `str(n)` |
| Text.JoinSplit | polling/management/commands/poll_data.py:80 | joining the pieces of a split gives back the string |
| Text.SplitJoin | polling/management/commands/poll_data.py:80 | splitting comma-joined comma-free pieces gives back the pieces |
| Text.Strip | polling/management/commands/poll_data.py:80 | the result is the input minus its leading and trailing whitespace |
| Text.StripEmpty | polling/management/commands/poll_data.py:80 | a name strips to empty exactly when it is all whitespace |
| Text.StripPadded | client_api/views.py:310 | stripping removes exactly the whitespace around a trimmed core |
| Sorting.SortPermutes | client_api/views.py:280 | the sort returns a permutation of its input |
| Sorting.SortDescending | client_api/views.py:280 | keys never increase |
| Sorting.SortStable | client_api/views.py:280 | elements with equal keys keep their input order |

## Left out

- The HTTP call to the upstream API (`_fetch_from_marketvibes`), its URL, headers, parameters (`--latest_only`, `--from_date`) and status handling: the response of each target is a parameter of the batch.
- Console output (`stdout`, `stderr`, logger lines) and the created/updated split of the save count, which is only printed.
- Wall-clock time: `now()`, elapsed seconds and `time_to_execute`, and `last_updated_at` in the index dictionary.
- The failures `_update_polling_status` and `_log_polling` swallow (a symbol id with no symbol, a symbol without a market): the model's status and log writes always succeed.
- The `market` and `market_name` columns of the polling status and log rows, and duplicate `DataPollingStatus` rows (`.first()` picks one; the model keeps one status per symbol).
- Floating-point arithmetic and formatting of the simulations (`simple_return`, `simple_pct`, the `%.2f` strings): a successful simulation returns the symbol, window and rows it would compute with.
- Decimal prices and float crypto columns are integers (fixed point); `float(p) if p else None` keeps the integer.
- `strptime` and `float(amount)` are parameters; `make_aware` and time zones are not modelled (a day starts at a multiple of 86400 seconds).
- A `timedelta` overflow for a huge duration (an uncaught OverflowError, a 500) is not modelled.
- `Requests.PyInt`: reads an optional sign and ASCII digits inside whitespace; the underscores and non-ASCII digits Python's `int` also accepts are not modelled.
- JSON values other than strings and whole numbers (booleans, floats, lists, objects) and non-dictionary `allocations` or `strategy_mix`, which make the views raise or compare differently; percentages are whole numbers.
- Duplicate keys in a JSON dictionary (the parser keeps the last); a dictionary is a sequence of shares.
- Case-insensitive matching folds ASCII letters only.
- `market_metadata` and the authentication views are not part of this model.
- Ties in `order_by('price_timestamp')` are broken by table order; the database gives no such guarantee.
- Every `Symbol` query without `order_by` (`filter(market__name=...)` at polling/management/commands/poll_data.py:97 and client_api/views.py:176 and 246, `filter(country=...)` at client_api/views.py:150) is taken to return the catalog's order; `Symbol` declares no default ordering (core/models.py:81-82), so the database promises none. The order shows in the batch order of the market flags, in the order of a country's symbols, and in the order of alerts of equal date.
- Malformed upstream payloads: `data` that is not a dictionary, `results` that is not a list, or a timestamp or price a column rejects raise inside the `try` of `_process_symbol` (polling/management/commands/poll_data.py:119-144) and are logged `failed` with the exception's text; a fetch outcome here is either a failure or a well-formed list of rows, so these paths are not modelled.
- `Store.Write`: column widths and ranges are not checked. The stock prices are `DecimalField(12, 2)` (core/models.py:106-109), the crypto funding rate is `DecimalField(10, 8)` (core/models.py:152), scores and leverages are 32-bit `IntegerField`s (core/models.py:92-95) and the international `region` is `CharField(max_length=20)` (core/models.py:135); saving a value too wide for its column raises in the database, which `_process_symbol` logs as a failed run, while the model writes any integer or string. Whether and where the error arises depends on the database backend.
- `Store.ScoredWindow`: states its order and completeness through `Store.ScoredWindowSpec`, not in its own contract, so that the many callers of the window do not carry those facts.
- `Momentum.MarketAlerts`: states the per-symbol membership through `Momentum.MarketAlertsExact`, not in its own contract.
- `Ingest.SaveResults`: its refinement of the map-level save is stated by `Ingest.SaveResultsRefines`, not in its own contract.
