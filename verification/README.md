# Staleness-gated refresh of `APICaller`, modelled in Dafny

This project models the refresh protocol of the `APICaller` class of the
simple_dashboard application (`dashboard/model/apicaller.py`). It keeps a
local append-only store in step with a remote data API. The store is gated
by a per-location time-to-live (`delta_mins`, in minutes). One cycle
(`check_and_update_db`) runs as follows:

1. It looks up the last ingestion timestamp stored for the caller's exact
   (latitude, longitude).
2. When that timestamp is at most `delta_mins` minutes old, it reads every
   configured key back from the store.
3. Otherwise it loads, cleans, annotates and restricts fresh data, then
   appends it. When the load fails, it falls back to the most recent stored
   rows. With no stored rows, that fallback fails with an empty-store error.

The model is purely functional:

- The store is a sequence of `(table, row)` entries. Rows are maps from
  column name to value.
- The caller's mutable fields are a `Caller` value. Each step returns a
  new `Caller`, a new store and an `Outcome`: `Fresh`, `Refreshed`,
  `FallbackStale` or `Failed(failure)`.
- The wall clock is the `now` parameter, in whole seconds.
- The network fetch is a `Fetch` input: `Fetched(payload)` or
  `FetchFailed`. `FetchFailed` is a False `API_loading_status` (see
  `load_API` under "Left out").
- Decoding plus source-specific cleaning is an opaque
  `clean: Payload -> Dataset` hook. The overridable `additional_API_check`
  is an opaque predicate.

Files and modules:

- `rows.dfy` (`Rows`): values, rows, datasets, the `Option`/`Result`
  wrappers, and the `Raised` variants. These variants stand for the
  exceptions the source lets propagate:
  - `EmptyStore`: the "DB should not be empty" KeyError.
  - `MissingDataKey`: a KeyError on a dataset key.
  - `MissingColumn`: a KeyError on a projected column.
  - `NoDataKeys`: the IndexError on `data_list[0]`.
- `tables.dfy` (`Tables`): the configuration and the three places where a
  data key is resolved to a physical table name.
- `store.dfy` (`Store`): the last-date lookup, the rows-since read, the
  append and the save loop over an append-only store.
- `normalise.dfy` (`Normalise`): annotation, then restriction (row filter
  first, column projection second).
- `staleness.dfy` (`Staleness`): the TTL decision.
- `caller.dfy` (`ApiCaller`): the setters, the per-key and all-keys reads,
  `load_and_clean_data`, `update_db_with_new_data` and
  `check_and_update_db`.

Points where the code's behaviour is easy to misread:

- **Timestamp column name.** The timestamp column is `<base>_date` for every
  physical table, including the per-key tables `<base>_<key>`.
- **Fresh path.** The code calls `read_last_updated_data`, which is not
  defined in the file. The model substitutes the defined
  `read_last_available_updated_data` (`ReadAll`). `ReadAll` re-queries each
  key's own last date rather than reusing the date found by the TTL check.
- **Unused window argument.** The `delta_mins` argument of
  `read_last_available_updated_data` is assigned but never used. The
  fallback's 10000-minute window therefore reads exactly what the ordinary
  read does (`FallbackWindowIgnored`).
- **Save decision.** `update_db_with_new_data` saves when the one-shot flag
  `update_boolean` is set, not when this load succeeded. A flag left set by
  an earlier, unsaved load makes a failed fetch save that older data
  (`PendingDataSavedOnFailedLoad`).
- **Decoding failures.** Decoding is not guarded (`#TODO : exceptions to
  capture`). A decoding failure is therefore not routed to the fallback, and
  the model's cleaning hook is total.
- **Empty key.** With per-key tables, the per-key read given the empty key
  `''` takes its last date from `<base>_<first key>` but reads rows from
  `<base>`. `ReadByKey` states its non-emptiness promise only for a
  non-empty key or a shared table.
- **Save mapping.** With a shared table, the save pairs the keys with the
  characters of the table name (see "Findings"). The refresh step
  `UpdateDb` saves through the corrected mapping `Tables.SaveTargets`
  instead. So `RefreshAppendsNewRows`, `SaveMakesLoadTimeLast`,
  `RefreshSetsLastDate` and `RefreshedDataIsFresh` hold for the corrected program only. For the code
  as written, `AsWrittenSaveLeavesLastDate` shows that a shared-table save
  never moves the checked table's last date. A cycle that found the data
  stale therefore finds it stale again on the next check, and refreshes
  again.

## Model

| member | source | states |
|---|---|---|
| ApiCaller.Init | dashboard/model/apicaller.py:16-28 | a new caller has the given coordinates and TTL and no pending update |
| ApiCaller.UpdateLatitude | dashboard/model/apicaller.py:31-33 | a numeric latitude replaces the old one, a non-numeric one is rejected; no other field changes |
| ApiCaller.UpdateLongitude | dashboard/model/apicaller.py:36-38 | a numeric longitude replaces the old one, a non-numeric one is rejected; no other field changes |
| ApiCaller.UpdateDeltaMins | dashboard/model/apicaller.py:41-43 | a numeric TTL replaces the old one, a non-numeric one is rejected; no other field changes |
| ApiCaller.PartialUpdateTolerance | dashboard/model/apicaller.py:31-43 | applying all three setters, each field changes exactly when its own input is numeric, whatever the others are, and re-applying them changes nothing |
| Tables.KeyTable | dashboard/model/apicaller.py:126-127 | a per-key table name is the base name, an underscore and the key, in that order |
| Tables.CheckTable | dashboard/model/apicaller.py:142-149 | the last-date table is the base table when tables are shared; with per-key tables it is `<base>_<key>`, and the empty key means the first configured key; with no configured key it is the IndexError |
| Tables.ReadTable | dashboard/model/apicaller.py:186-189 | the per-key read uses `<base>_<key>` only when tables are per key and the key is non-empty, else the base table |
| Tables.SaveTargets | dashboard/model/apicaller.py:126-130 | intended save mapping: one pair per configured key, in order, to `<base>_<key>` with per-key tables and to the base table otherwise |
| Tables.SaveTargetsAsWritten | dashboard/model/apicaller.py:126-130 | save mapping as written: with a shared table, key i is paired with the one-character name `base[i]`, and only as many keys as the base name has characters are saved |
| Tables.SavedWhereChecked | dashboard/model/apicaller.py:126-149 | with the intended mapping a non-empty key is saved to the same table its last date is checked in and its rows are read from |
| Tables.SharedTableSaveDiverges | dashboard/model/apicaller.py:128-130 | with a shared table whose name is longer than one character, the as-written save sends the first key to a table that is not the base table the reads use |
| Tables.SharedTableSaveExample | dashboard/model/apicaller.py:21-23 | default configuration: the as-written save targets tables `m` and `y`, the intended one `mytable` twice |
| Tables.PerKeyTablesExample | dashboard/model/apicaller.py:126-127 | base `mytable`, keys `a`, `b`, per-key tables: the save targets `mytable_a` and `mytable_b`, and the staleness check with no key uses `mytable_a` |
| Store.StampOf | dashboard/model/apicaller.py:151-156 | an entry answers a lookup exactly when its table matches, its latitude and longitude equal the caller's exactly, and it carries a timestamp |
| Store.LastDate | dashboard/model/apicaller.py:151-164 | the last date is `None` iff no entry answers the query, and otherwise it is the timestamp of an answering entry that no other answering entry exceeds |
| Store.ReadSince | dashboard/model/apicaller.py:191-199 | a row is read back iff it belongs to an entry answering the query with timestamp at least `since`, and as many times as that entry is stored in the queried table |
| Store.Append | dashboard/model/apicaller.py:131-136 | the old store is a prefix of the new one, and the new entries are exactly the given rows tagged with the table |
| Store.Save | dashboard/model/apicaller.py:130-136 | the save completes iff every key has a dataset, and then appends exactly each key's rows to its table in key order; an aborted save stops at the first key without a dataset and leaves exactly the rows of the keys before it appended; older rows are never altered |
| Store.WrittenComesFromData | dashboard/model/apicaller.py:130-136 | every entry a complete save writes is a row of some key's dataset, written to that key's table |
| Store.LastDateOfConcat | dashboard/model/apicaller.py:151-164 | after an append, the last date is the later of the old store's and the appended rows' last dates |
| Store.ReadSinceOfConcat | dashboard/model/apicaller.py:191-199 | reading an extended store reads the old rows, then the appended ones |
| Store.ReadAtLastDate | dashboard/model/apicaller.py:179-199 | reading from the last date returns at least one row, and every row returned is at the location and stamped exactly at that last date |
| Store.LastDateAfterBatch | dashboard/model/apicaller.py:151-164 | appending rows stamped `now` to a store with no later stamp makes `now` the last date |
| Normalise.DateColumnIsNotACoordinate | dashboard/model/apicaller.py:86-89 | the `<base>_date` column never coincides with `latitude` or `longitude` |
| Normalise.Annotate | dashboard/model/apicaller.py:84-90 | every row of every dataset gets the caller's latitude and longitude and the load time; the key set, the row counts and every other column are unchanged |
| Normalise.FilterRows | dashboard/model/apicaller.py:94-96 | the filtered rows are an in-order subsequence holding exactly the rows the predicate accepts, each as many times as it occurs in the input |
| Normalise.ProjectRows | dashboard/model/apicaller.py:97-99 | projection succeeds iff every row has the listed columns; each projected row then has exactly those columns with its old values |
| Normalise.FilterStage | dashboard/model/apicaller.py:94-96 | a filter naming a key with no dataset is a KeyError; otherwise filtered keys are filtered and the others are unchanged |
| Normalise.ProjectStage | dashboard/model/apicaller.py:97-99 | a projection naming a missing key or column is a KeyError; otherwise projected keys are projected and the others are unchanged |
| Normalise.Restrict | dashboard/model/apicaller.py:93-100 | filter before projection. The key set is kept and unrestricted keys are unchanged. A filtered key keeps exactly its accepted rows, in order and with their multiplicities. A projected key's rows have exactly the listed columns, with the filtered rows' values. Failure happens iff a key or a column is missing |
| Normalise.RestrictKeepsColumnValue | dashboard/model/apicaller.py:93-100 | the restrictions drop rows and columns but never change a value |
| Normalise.RestrictionOrderExample | dashboard/model/apicaller.py:93-100 | filter `value > 10` then projection on `value`, `latitude` turns {5, 1}, {20, 2} into {20, 2} alone |
| Staleness.Decide | dashboard/model/apicaller.py:214-223 | stale iff there is no prior entry or the age exceeds `delta_mins` minutes; the synthetic date for a missing entry always yields stale |
| Staleness.TtlBoundary | dashboard/model/apicaller.py:223 | an age of exactly `delta_mins` minutes is fresh, one second more is stale |
| Staleness.TtlExample | dashboard/model/apicaller.py:219-223 | TTL 10 minutes: 9 and 10 minutes old are fresh, 11 minutes old and no history are stale |
| ApiCaller.CheckLastDate | dashboard/model/apicaller.py:142-164 | the lookup is the IndexError exactly when the first key is needed and none is configured, and otherwise the last date in the resolved table |
| ApiCaller.ReadByKey | dashboard/model/apicaller.py:176-199 | the IndexError iff no table resolves; the empty-store error iff no row at the location is in the checked table; no other error is raised, so otherwise the read succeeds with the rows of the read table from the last date on, which, for a non-empty key, are non-empty, at the location and all stamped at the last date |
| ApiCaller.ReadKeys | dashboard/model/apicaller.py:170-171 | reads succeed iff every key's read does, giving one entry per key; otherwise the error is that of the first failing key |
| ApiCaller.ReadAll | dashboard/model/apicaller.py:166-173 | every configured key is read at its own last date; the only possible error is the empty store |
| ApiCaller.FallbackWindowIgnored | dashboard/model/apicaller.py:166-169 | the 10000-minute fallback read returns exactly what any other window returns |
| ApiCaller.NormaliseData | dashboard/model/apicaller.py:111-114 | normalisation keeps the key set, can fail only with a missing key or column, and rows of unrestricted keys carry the caller's coordinates and the load time |
| ApiCaller.NormalisedRowsCarryLoadStamp | dashboard/model/apicaller.py:84-100 | a normalised row that still has a coordinate or timestamp column holds the caller's coordinate or the load time there |
| ApiCaller.LoadAndClean | dashboard/model/apicaller.py:103-120 | the status is true iff the payload was fetched and passes the additional check; a false status leaves the caller unchanged; a true one sets the pending flag and replaces the data by exactly the result of normalising the cleaned payload (same keys, stamped with the load time) without touching the coordinates or TTL; it raises iff normalisation of an accepted payload raises, and only with a normalisation KeyError |
| ApiCaller.UpdateDb | dashboard/model/apicaller.py:201-211 | unless an exception propagates, the pending flag is clear afterwards; old rows are never altered; the fallback writes nothing |
| ApiCaller.CheckAndUpdate | dashboard/model/apicaller.py:214-229 | a full cycle only ever appends to the store |
| ApiCaller.RefreshAppendsNewRows | dashboard/model/apicaller.py:201-206 | a successful load appends exactly the new rows of each key to its table, keeps the old rows, hands the caller the new data and clears the flag, whether or not an earlier load was left unsaved |
| ApiCaller.FailedLoadFallsBack | dashboard/model/apicaller.py:207-211 | a failed load writes nothing and yields the read of every key, or the empty-store error |
| ApiCaller.FallbackGuarantee | dashboard/model/apicaller.py:207-211 | a failed load with history for every key returns that history and never the empty-store error |
| ApiCaller.EmptyStoreFailure | dashboard/model/apicaller.py:179-183 | a failed load with no history for the first key ends in the empty-store error and writes nothing |
| ApiCaller.PendingDataSavedOnFailedLoad | dashboard/model/apicaller.py:201-206 | a flag left set by an earlier load makes a failed fetch save that earlier data |
| ApiCaller.TtlGate | dashboard/model/apicaller.py:214-229 | the refresh step runs iff there is no history or the last date is more than `delta_mins` minutes old; otherwise every key is read and nothing is written |
| ApiCaller.WrittenStampsAreLoadTime | dashboard/model/apicaller.py:84-90 | every entry a save writes from normalised data carries the load time or no timestamp |
| ApiCaller.SaveMakesLoadTimeLast | dashboard/model/apicaller.py:131-164 | saving normalised data whose first key kept a complete row makes the load time the last date of the checked table |
| ApiCaller.FreshCheckWritesNothing | dashboard/model/apicaller.py:223-229 | a check within the TTL of the last date writes nothing |
| ApiCaller.AsWrittenSaveLeavesLastDate | dashboard/model/apicaller.py:128-136 | with a shared table whose name is longer than one character, the save as written leaves the last date of the checked table unchanged |
| ApiCaller.RefreshSetsLastDate | dashboard/model/apicaller.py:201-206 | after a refresh at `now` that stamped at least one complete first-key row, on a store with no later stamp, the checked table's last date is `now` |
| ApiCaller.RefreshedDataIsFresh | dashboard/model/apicaller.py:201-229 | after a refresh at `now` the last date is `now`, and a check within the TTL afterwards writes nothing |

## Left out

- `load_API` (lines 50-65): the URL templating (`replace_latitude_longitude`,
  not part of this model) and `urlopen` are network I/O. The fetch is the
  `Fetch` input. As written, a successful `urlopen` falls into the `else`
  branch (lines 60-63) and returns a False status, so line 65 is
  unreachable. When `urlopen` raises, the name `URLError` at line 56 is not
  imported. Evaluating the `except` clause then raises a `NameError`, which
  propagates out of `check_and_update_db` and never reaches the fallback at
  lines 207-211. `FetchFailed` stands for a False `API_loading_status`. In
  the code as written that status comes only from a successful `urlopen` or
  from a rejected `additional_API_check`. `FailedLoadFallsBack`,
  `FallbackGuarantee` and `EmptyStoreFailure` therefore do not cover a
  network error in the code as written: there the error escapes as a
  `NameError`, which the model does not represent. The model lets the fetch
  succeed (`Fetched`) so that the refresh path can be stated at all.
- `decode_API_raw_data` and `clean_decoded_API_data` (lines 70-81): UTF-8
  decoding, JSON parsing and cleaning are library code or a placeholder. They
  are folded into the opaque `clean` hook. Their exceptions are not modelled.
- `update_position_and_update_delay_from_session` (lines 45-48): this is web
  session plumbing, and it calls unbound names. `PartialUpdateTolerance`
  states what the three setter calls it intends would do.
- Logging, `print`, `current_app`, and the display helpers `print_data`,
  `prepare_data_for_html` and `data_to_html` (lines 232-244) contain no
  logic.
- SQL text and pandas internals are left out: `get_db`/`query_db`, query
  strings and `.query` string semantics. Row filters are opaque predicates
  and lookups are functions over the entry sequence. A frame is modelled as
  its sequence of rows: a projected column must be present in every row,
  and an empty frame projects to an empty frame without a KeyError.
- Timestamps: `datetime.now()` and `strftime` become one integer `now` per
  cycle, in seconds. The comparison of stored date strings with `datetime`
  values is not modelled. A stored row whose date column is missing or not
  a timestamp is never selected by the model.
- Store.LastDate: a row at the location whose date is NULL is ignored by the
  model. In the source's last-date query (lines 151-156) the WHERE clause
  tests only the coordinates, so such a row is selected. When every row at
  the location lacks a date, the query returns `[(None,)]`. The source then
  reports an existing entry with no date, and the age computation at line
  223 raises a TypeError. The model instead finds no entry and refreshes.
  This arises when a column projection drops `<base>_date`, which
  `ProjectRows` allows. Where NULLs sort under `DESC` depends on the
  database engine. That engine-specific ordering and the TypeError are not
  modelled.
- ApiCaller.UpdateDeltaMins: the TTL is whole minutes, because fractional
  minutes would need real-valued timestamps; Python accepts any number.
- Object state after an exception raised inside normalisation is not
  modelled. The model returns the caller unchanged. The store is untouched
  either way.
- Concurrency is not modelled. Two racing refreshes appending duplicate rows
  are outside a sequential model.

## Findings

| source | as written | input that shows it | evidently intended | confidence | as-written member | corrected member |
|---|---|---|---|---|---|---|
| dashboard/model/apicaller.py:128-130 | with `key_as_table` false, `zip(self.data_list, self.db_tablename)` pairs each key with one character of the table name | default configuration: base `mytable`, keys `key1`, `key2` saves to tables `m` and `y` (`SharedTableSaveExample`, `SharedTableSaveDiverges`) | every key is appended to the base table, the one its last date is checked in and its rows are read from | high; not executed | Tables.SaveTargetsAsWritten | Tables.SaveTargets |
