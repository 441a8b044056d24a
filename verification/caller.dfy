/**
 One monitored location and its refresh cycle: the validated setters, the
 per-key and all-keys reads, the load-and-clean step, the refresh-or-fallback
 step and the TTL-gated entry point.

 The network fetch, the payload decoding and the source-specific cleaning are
 inputs: a `Fetch` outcome, and the `Hooks` the caller is configured with.
 The wall clock is the `now` parameter, in whole seconds.
 */
module ApiCaller {
  import opened Rows
  import opened Tables
  import opened Store
  import opened Normalise
  import opened Staleness

  /** The raw response body. */
  type Payload = seq<bv8>

  /** What one attempt to reach the remote API produced. */
  datatype Fetch = Fetched(payload: Payload) | FetchFailed

  /** The overridable parts of a caller: the extra acceptance test on the
      fetch outcome, and decode-then-clean from payload to per-key data. */
  datatype Hooks = Hooks(additionalCheck: Fetch -> bool, clean: Payload -> Dataset)

  /** A setter argument: a number, or anything else. */
  datatype Input<T> = Numeric(value: T) | NonNumeric

  /** The mutable part of a caller.
      - updatePending: the one-shot flag set by a successful load and cleared
        by the save (`update_boolean`);
      - data: the last dataset loaded or read (`data_dict`). */
  datatype Caller = Caller(
    latitude: real,
    longitude: real,
    deltaMins: int,
    updatePending: bool,
    data: Dataset)

  /** The state right after construction. */
  function Init(latitude: real, longitude: real, deltaMins: int): (c: Caller)
    ensures !c.updatePending
    ensures c.latitude == latitude && c.longitude == longitude && c.deltaMins == deltaMins
  {
    Caller(latitude, longitude, deltaMins, false, map["data_name" := []])
  }

  /** A numeric latitude replaces the old one; anything else is rejected and
      leaves the caller as it was. No other field changes. */
  function UpdateLatitude(c: Caller, v: Input<real>): (c': Caller)
    ensures c'.latitude == (if v.Numeric? then v.value else c.latitude)
    ensures c'.longitude == c.longitude && c'.deltaMins == c.deltaMins
    ensures c'.updatePending == c.updatePending && c'.data == c.data
  {
    match v
    case Numeric(x) => c.(latitude := x)
    case NonNumeric => c
  }

  function UpdateLongitude(c: Caller, v: Input<real>): (c': Caller)
    ensures c'.longitude == (if v.Numeric? then v.value else c.longitude)
    ensures c'.latitude == c.latitude && c'.deltaMins == c.deltaMins
    ensures c'.updatePending == c.updatePending && c'.data == c.data
  {
    match v
    case Numeric(x) => c.(longitude := x)
    case NonNumeric => c
  }

  function UpdateDeltaMins(c: Caller, v: Input<int>): (c': Caller)
    ensures c'.deltaMins == (if v.Numeric? then v.value else c.deltaMins)
    ensures c'.latitude == c.latitude && c'.longitude == c.longitude
    ensures c'.updatePending == c.updatePending && c'.data == c.data
  {
    match v
    case Numeric(x) => c.(deltaMins := x)
    case NonNumeric => c
  }

  /** One bad field never spoils an update of all three: each field takes
      its new value exactly when that value is numeric, whatever the others
      are, and a second application of the same inputs changes nothing. */
  lemma PartialUpdateTolerance(c: Caller, lat: Input<real>, lon: Input<real>, mins: Input<int>)
    ensures var c' := UpdateDeltaMins(UpdateLongitude(UpdateLatitude(c, lat), lon), mins);
      && c'.latitude == (if lat.Numeric? then lat.value else c.latitude)
      && c'.longitude == (if lon.Numeric? then lon.value else c.longitude)
      && c'.deltaMins == (if mins.Numeric? then mins.value else c.deltaMins)
      && c'.updatePending == c.updatePending && c'.data == c.data
      && UpdateDeltaMins(UpdateLongitude(UpdateLatitude(c', lat), lon), mins) == c'
  {
  }

  /** The lookup a caller issues against one physical table. */
  function LocationQuery(c: Caller, cfg: Config, table: string): (q: Query)
    ensures q.table == table && q.dateCol == DateColumn(cfg.base)
    ensures q.lat == c.latitude && q.lon == c.longitude
  {
    Query(table, DateColumn(cfg.base), c.latitude, c.longitude)
  }

  /** The last-date lookup for a key (`""` for "no key"): the IndexError of a
      missing first key, or the last date of the resolved table, if any. */
  function CheckLastDate(store: Store, cfg: Config, c: Caller, key: string): (r: Result<Option<int>, Raised>)
    ensures r.Failure? <==> CheckTable(cfg, key).None?
    ensures r.Failure? ==> r.error == NoDataKeys
    ensures r.Success? ==> r.value == LastDate(store, LocationQuery(c, cfg, CheckTable(cfg, key).value))
  {
    match CheckTable(cfg, key)
    case None => Failure(NoDataKeys)
    case Some(t) => Success(LastDate(store, LocationQuery(c, cfg, t)))
  }

  /** The per-key read: the rows of the key's table, at the caller's
      location, stamped no earlier than the last date. With no stored row at
      the location it is the empty-store error. */
  function ReadByKey(store: Store, cfg: Config, c: Caller, key: string): (r: Result<seq<Row>, Raised>)
    ensures r == Failure(EmptyStore) <==>
      CheckTable(cfg, key).Some? && forall i :: 0 <= i < |store| ==> StampOf(store[i], LocationQuery(c, cfg, CheckTable(cfg, key).value)).None?
    ensures r == Failure(NoDataKeys) <==> CheckTable(cfg, key).None?
    ensures r.Failure? ==> r.error == EmptyStore || r.error == NoDataKeys
    ensures r.Success? ==>
      var d := LastDate(store, LocationQuery(c, cfg, CheckTable(cfg, key).value)).value;
      r.value == ReadSince(store, LocationQuery(c, cfg, ReadTable(cfg, key)), d)
    ensures r.Success? && (key != "" || !cfg.keyAsTable) ==>
      var q := LocationQuery(c, cfg, ReadTable(cfg, key));
      && |r.value| > 0
      && forall row :: row in r.value ==>
           && AtLocation(row, c.latitude, c.longitude)
           && q.dateCol in row && row[q.dateCol] == Time(LastDate(store, q).value)
  {
    match CheckLastDate(store, cfg, c, key)
    case Failure(e) => Failure(e)
    case Success(None) => Failure(EmptyStore)
    case Success(Some(d)) =>
      var q := LocationQuery(c, cfg, ReadTable(cfg, key));
      assert (key != "" || !cfg.keyAsTable) ==> |ReadSince(store, q, d)| > 0 by {
        if key != "" || !cfg.keyAsTable {
          assert CheckTable(cfg, key) == Some(ReadTable(cfg, key));
          ReadAtLastDate(store, q);
        }
      }
      Success(ReadSince(store, q, d))
  }

  /** The index of the first key whose read fails. */
  predicate FirstFailing(read: string -> Result<seq<Row>, Raised>, keys: seq<string>, i: int, e: Raised)
  {
    && 0 <= i < |keys|
    && read(keys[i]) == Failure(e)
    && forall j :: 0 <= j < i ==> read(keys[j]).Success?
  }

  /** Reads the given keys in order into one dataset; the first failing
      key's error is raised. */
  function ReadKeys(read: string -> Result<seq<Row>, Raised>, keys: seq<string>): (r: Result<Dataset, Raised>)
    ensures r.Success? <==> forall i :: 0 <= i < |keys| ==> read(keys[i]).Success?
    ensures r.Success? ==> r.value.Keys == set k | k in keys
    ensures r.Success? ==> forall i :: 0 <= i < |keys| ==> r.value[keys[i]] == read(keys[i]).value
    ensures r.Failure? ==> exists i :: FirstFailing(read, keys, i, r.error)
    decreases |keys|
  {
    if |keys| == 0 then Success(map[])
    else
      var first := read(keys[0]);
      if first.Failure? then
        assert FirstFailing(read, keys, 0, first.error);
        Failure(first.error)
      else
        var rest := ReadKeys(read, keys[1..]);
        assert forall i :: 1 <= i < |keys| ==> keys[i] == keys[1..][i - 1];
        if rest.Failure? then
          var i :| FirstFailing(read, keys[1..], i, rest.error);
          assert FirstFailing(read, keys, i + 1, rest.error);
          rest
        else
          assert (set k | k in keys) == (set k | k in keys[1..]) + {keys[0]};
          Success(rest.value[keys[0] := first.value])
  }

  /** `read_last_available_updated_data`: every configured key, read at its
      own last date, in configuration order; the first key with an empty
      history raises. The window argument is accepted and ignored. */
  function ReadAll(store: Store, cfg: Config, c: Caller, deltaMins: int): (r: Result<Dataset, Raised>)
    ensures r.Success? <==> forall i :: 0 <= i < |cfg.keys| ==> ReadByKey(store, cfg, c, cfg.keys[i]).Success?
    ensures r.Success? ==> r.value.Keys == set k | k in cfg.keys
    ensures r.Success? ==> forall i :: 0 <= i < |cfg.keys| ==> r.value[cfg.keys[i]] == ReadByKey(store, cfg, c, cfg.keys[i]).value
    ensures r.Failure? ==> exists i :: 0 <= i < |cfg.keys| && ReadByKey(store, cfg, c, cfg.keys[i]) == Failure(r.error)
    ensures r.Failure? ==> r.error == EmptyStore
  {
    ReadKeys(k => ReadByKey(store, cfg, c, k), cfg.keys)
  }

  /** The fallback read with its 10000-minute window reads exactly what the
      ordinary read does. */
  lemma FallbackWindowIgnored(store: Store, cfg: Config, c: Caller, deltaMins: int)
    ensures ReadAll(store, cfg, c, 10000) == ReadAll(store, cfg, c, deltaMins)
  {
  }

  /** Annotation then restriction of freshly cleaned data. */
  function NormaliseData(cfg: Config, c: Caller, cleaned: Dataset, now: int): (r: Result<Dataset, Raised>)
    ensures r.Failure? ==> r.error == MissingDataKey || r.error == MissingColumn
    ensures r.Success? ==> r.value.Keys == cleaned.Keys
    ensures r.Success? ==> forall k :: k in cleaned && k !in cfg.filters && k !in cfg.columns ==>
      |r.value[k]| == |cleaned[k]| &&
      forall i :: 0 <= i < |cleaned[k]| ==> Annotated(r.value[k][i], c.latitude, c.longitude, DateColumn(cfg.base), now)
  {
    Restrict(Annotate(cleaned, c.latitude, c.longitude, cfg.base, now), cfg.filters, cfg.columns)
  }

  /** Every normalised row that still has a coordinate or timestamp column
      has the caller's coordinate or the load time in it: the restrictions
      can drop these columns but never alter them. */
  lemma NormalisedRowsCarryLoadStamp(cfg: Config, c: Caller, cleaned: Dataset, now: int)
    requires NormaliseData(cfg, c, cleaned, now).Success?
    ensures var d := NormaliseData(cfg, c, cleaned, now).value;
      && ColumnEverywhere(d, LatitudeColumn, Num(c.latitude))
      && ColumnEverywhere(d, LongitudeColumn, Num(c.longitude))
      && ColumnEverywhere(d, DateColumn(cfg.base), Time(now))
  {
    var a := Annotate(cleaned, c.latitude, c.longitude, cfg.base, now);
    assert forall k, row :: k in a && row in a[k] ==> Annotated(row, c.latitude, c.longitude, DateColumn(cfg.base), now);
    RestrictKeepsColumnValue(a, cfg.filters, cfg.columns, LatitudeColumn, Num(c.latitude));
    RestrictKeepsColumnValue(a, cfg.filters, cfg.columns, LongitudeColumn, Num(c.longitude));
    RestrictKeepsColumnValue(a, cfg.filters, cfg.columns, DateColumn(cfg.base), Time(now));
  }

  /** `load_and_clean_data`: when the fetch succeeded and passes the
      additional check, the cleaned data is normalised into the caller and
      the pending flag is set; otherwise nothing changes. It raises exactly
      when normalisation of an accepted fetch raises. Returns the new caller
      and the load status. */
  function LoadAndClean(c: Caller, cfg: Config, hooks: Hooks, fetch: Fetch, now: int): (r: Result<(Caller, bool), Raised>)
    ensures r.Failure? <==>
      && fetch.Fetched? && hooks.additionalCheck(fetch)
      && NormaliseData(cfg, c, hooks.clean(fetch.payload), now).Failure?
    ensures r.Success? ==> (r.value.1 <==> fetch.Fetched? && hooks.additionalCheck(fetch))
    ensures r.Success? && !r.value.1 ==> r.value.0 == c
    ensures r.Success? && r.value.1 ==>
      var c' := r.value.0;
      && c'.updatePending
      && c'.latitude == c.latitude && c'.longitude == c.longitude && c'.deltaMins == c.deltaMins
      && c'.data == NormaliseData(cfg, c, hooks.clean(fetch.payload), now).value
      && c'.data.Keys == hooks.clean(fetch.payload).Keys
      && ColumnEverywhere(c'.data, DateColumn(cfg.base), Time(now))
    ensures r.Failure? ==> r.error == MissingDataKey || r.error == MissingColumn
  {
    if fetch.Fetched? && hooks.additionalCheck(fetch) then
      match NormaliseData(cfg, c, hooks.clean(fetch.payload), now)
      case Failure(e) => Failure(e)
      case Success(d) =>
        NormalisedRowsCarryLoadStamp(cfg, c, hooks.clean(fetch.payload), now);
        Success((c.(data := d, updatePending := true), true))
    else
      Success((c, false))
  }

  /** How a refresh cycle ended. `Failed` carries an exception the source
      lets propagate. */
  datatype Outcome = Fresh | Refreshed | FallbackStale | Failed(failure: Raised)

  /** The caller, the store and the outcome after one step. */
  datatype Cycle = Cycle(caller: Caller, store: Store, outcome: Outcome)

  /** `update_db_with_new_data`: load, then save if the pending flag is set
      (clearing it), else fall back to reading every key. The flag is what is
      tested, not the status of this load. */
  function UpdateDb(c: Caller, store: Store, cfg: Config, hooks: Hooks, fetch: Fetch, now: int): (r: Cycle)
    ensures r.outcome.Failed? || !r.caller.updatePending
    ensures |store| <= |r.store| && r.store[..|store|] == store
    ensures r.outcome == FallbackStale ==> r.store == store
  {
    match LoadAndClean(c, cfg, hooks, fetch, now)
    case Failure(e) => Cycle(c, store, Failed(e))
    case Success((c1, _)) =>
      if c1.updatePending then
        match Save(store, c1.data, SaveTargets(cfg))
        case SaveAborted(s') => Cycle(c1, s', Failed(MissingDataKey))
        case Saved(s') => Cycle(c1.(updatePending := false), s', Refreshed)
      else
        match ReadAll(store, cfg, c1, 10000)
        case Failure(e) => Cycle(c1, store, Failed(e))
        case Success(d) => Cycle(c1.(data := d), store, FallbackStale)
  }

  /** `check_and_update_db`: the TTL decision on the first key's table, then
      either the read of every key or the refresh step. */
  function CheckAndUpdate(c: Caller, store: Store, cfg: Config, hooks: Hooks, fetch: Fetch, now: int): (r: Cycle)
    ensures |store| <= |r.store| && r.store[..|store|] == store
  {
    match CheckLastDate(store, cfg, c, "")
    case Failure(e) => Cycle(c, store, Failed(e))
    case Success(last) =>
      match Decide(last, now, c.deltaMins)
      case Stale => UpdateDb(c, store, cfg, hooks, fetch, now)
      case UpToDate(_) =>
        match ReadAll(store, cfg, c, 0)
        case Failure(e) => Cycle(c, store, Failed(e))
        case Success(d) => Cycle(c.(data := d), store, Fresh)
  }

  /** A successful load that passes the additional check appends the new
      rows, key after key, to the tables they belong to: the store grows by
      exactly those rows, the old rows are untouched, the caller holds the
      new data and the pending flag is cleared again. */
  lemma RefreshAppendsNewRows(c: Caller, store: Store, cfg: Config, hooks: Hooks, fetch: Fetch, now: int)
    requires fetch.Fetched? && hooks.additionalCheck(fetch)
    requires NormaliseData(cfg, c, hooks.clean(fetch.payload), now).Success?
    requires forall i :: 0 <= i < |cfg.keys| ==> cfg.keys[i] in NormaliseData(cfg, c, hooks.clean(fetch.payload), now).value
    ensures var d := NormaliseData(cfg, c, hooks.clean(fetch.payload), now).value;
      UpdateDb(c, store, cfg, hooks, fetch, now)
        == Cycle(c.(data := d, updatePending := false), store + Written(d, SaveTargets(cfg)), Refreshed)
  {
  }

  /** When the load fails (no payload, or the additional check rejects it)
      nothing is written: the result is the read of every key, which is
      either the most recent stored rows or the empty-store error. */
  lemma FailedLoadFallsBack(c: Caller, store: Store, cfg: Config, hooks: Hooks, fetch: Fetch, now: int)
    requires !c.updatePending
    requires !(fetch.Fetched? && hooks.additionalCheck(fetch))
    ensures var r := UpdateDb(c, store, cfg, hooks, fetch, now);
      && r.store == store
      && (ReadAll(store, cfg, c, 0).Success? ==>
            r.outcome == FallbackStale && r.caller == c.(data := ReadAll(store, cfg, c, 0).value))
      && (ReadAll(store, cfg, c, 0).Failure? ==> r.outcome == Failed(EmptyStore) && r.caller == c)
  {
  }

  /** Availability over freshness: when the load fails but every key has
      some history at the location, the caller gets that history back and
      never the empty-store error. */
  lemma FallbackGuarantee(c: Caller, store: Store, cfg: Config, hooks: Hooks, fetch: Fetch, now: int)
    requires !c.updatePending
    requires !(fetch.Fetched? && hooks.additionalCheck(fetch))
    requires forall i :: 0 <= i < |cfg.keys| ==>
      exists j :: 0 <= j < |store| && StampOf(store[j], LocationQuery(c, cfg, CheckTable(cfg, cfg.keys[i]).value)).Some?
    ensures var r := UpdateDb(c, store, cfg, hooks, fetch, now);
      && r.outcome == FallbackStale
      && r.store == store
      && forall i :: 0 <= i < |cfg.keys| ==> r.caller.data[cfg.keys[i]] == ReadByKey(store, cfg, c, cfg.keys[i]).value
  {
    forall i | 0 <= i < |cfg.keys|
      ensures ReadByKey(store, cfg, c, cfg.keys[i]).Success?
    {
      var j :| 0 <= j < |store| && StampOf(store[j], LocationQuery(c, cfg, CheckTable(cfg, cfg.keys[i]).value)).Some?;
    }
  }

  /** When the load fails and the first key's table has no row at the
      location, the cycle ends in the empty-store error and writes nothing. */
  lemma EmptyStoreFailure(c: Caller, store: Store, cfg: Config, hooks: Hooks, fetch: Fetch, now: int)
    requires !c.updatePending
    requires !(fetch.Fetched? && hooks.additionalCheck(fetch))
    requires |cfg.keys| > 0
    requires forall j :: 0 <= j < |store| ==> StampOf(store[j], LocationQuery(c, cfg, CheckTable(cfg, cfg.keys[0]).value)).None?
    ensures var r := UpdateDb(c, store, cfg, hooks, fetch, now);
      r.outcome == Failed(EmptyStore) && r.store == store
  {
    assert ReadByKey(store, cfg, c, cfg.keys[0]) == Failure(EmptyStore);
  }

  /** The one-shot flag, not the status of this load, decides the save: a
      caller whose earlier load was never saved saves that older data when
      this fetch fails. */
  lemma PendingDataSavedOnFailedLoad(c: Caller, store: Store, cfg: Config, hooks: Hooks, fetch: Fetch, now: int)
    requires c.updatePending
    requires !(fetch.Fetched? && hooks.additionalCheck(fetch))
    requires forall i :: 0 <= i < |cfg.keys| ==> cfg.keys[i] in c.data
    ensures UpdateDb(c, store, cfg, hooks, fetch, now)
      == Cycle(c.(updatePending := false), store + Written(c.data, SaveTargets(cfg)), Refreshed)
  {
  }

  /** The TTL gate: the refresh step runs exactly when the first key's
      table has no row at the location or its last row is more than
      `deltaMins` minutes old; otherwise every key is read and nothing is
      written. */
  lemma TtlGate(c: Caller, store: Store, cfg: Config, hooks: Hooks, fetch: Fetch, now: int)
    requires CheckTable(cfg, "").Some?
    ensures var last := LastDate(store, LocationQuery(c, cfg, CheckTable(cfg, "").value));
      var r := CheckAndUpdate(c, store, cfg, hooks, fetch, now);
      && (last.None? || now - last.value > c.deltaMins * SecondsPerMinute ==>
            r == UpdateDb(c, store, cfg, hooks, fetch, now))
      && (last.Some? && now - last.value <= c.deltaMins * SecondsPerMinute ==>
            && r.store == store
            && (ReadAll(store, cfg, c, 0).Success? ==>
                  r == Cycle(c.(data := ReadAll(store, cfg, c, 0).value), store, Fresh))
            && (ReadAll(store, cfg, c, 0).Failure? ==> r == Cycle(c, store, Failed(EmptyStore))))
  {
  }

  /** Every entry a save writes from normalised data carries no timestamp
      for the query or exactly the load time. */
  lemma WrittenStampsAreLoadTime(d: Dataset, targets: seq<(string, string)>, q: Query, now: int)
    requires forall i :: 0 <= i < |targets| ==> targets[i].0 in d
    requires ColumnEverywhere(d, q.dateCol, Time(now))
    ensures forall j :: 0 <= j < |Written(d, targets)| ==>
      StampOf(Written(d, targets)[j], q).None? || StampOf(Written(d, targets)[j], q) == Some(now)
  {
    var w := Written(d, targets);
    WrittenComesFromData(d, targets);
    forall j | 0 <= j < |w|
      ensures StampOf(w[j], q).None? || StampOf(w[j], q) == Some(now)
    {
      assert w[j] in w;
    }
  }

  /** Saving normalised data whose first key kept a complete row makes the
      load time the last date of the first key's table. */
  lemma SaveMakesLoadTimeLast(store: Store, d: Dataset, cfg: Config, q: Query, now: int)
    requires |cfg.keys| > 0
    requires forall i :: 0 <= i < |cfg.keys| ==> cfg.keys[i] in d
    requires q.table == CheckTable(cfg, "").value && q.dateCol == DateColumn(cfg.base)
    requires ColumnEverywhere(d, LatitudeColumn, Num(q.lat))
    requires ColumnEverywhere(d, LongitudeColumn, Num(q.lon))
    requires ColumnEverywhere(d, DateColumn(cfg.base), Time(now))
    requires exists row :: (row in d[cfg.keys[0]] &&
      LatitudeColumn in row && LongitudeColumn in row && DateColumn(cfg.base) in row)
    requires LastDate(store, q).None? || LastDate(store, q).value <= now
    ensures LastDate(store + Written(d, SaveTargets(cfg)), q) == Some(now)
  {
    var targets := SaveTargets(cfg);
    var w := Written(d, targets);
    WrittenStampsAreLoadTime(d, targets, q, now);
    var row :| row in d[cfg.keys[0]] && LatitudeColumn in row && LongitudeColumn in row && DateColumn(cfg.base) in row;
    var m :| 0 <= m < |d[cfg.keys[0]]| && d[cfg.keys[0]][m] == row;
    assert w[m] == Entry(targets[0].1, row);
    assert AtLocation(row, q.lat, q.lon);
    assert StampOf(w[m], q) == Some(now);
    LastDateAfterBatch(store, w, q, now);
  }

  /** The save as the source writes it, with a shared table whose name is
      longer than one character: every row lands in a one-character table,
      so the last date of the table the TTL is checked in never moves and the
      next check finds the data as stale as before. */
  lemma AsWrittenSaveLeavesLastDate(store: Store, d: Dataset, cfg: Config, q: Query)
    requires !cfg.keyAsTable && |cfg.base| > 1
    requires forall i :: 0 <= i < |SaveTargetsAsWritten(cfg)| ==> SaveTargetsAsWritten(cfg)[i].0 in d
    requires q.table == cfg.base
    ensures LastDate(store + Written(d, SaveTargetsAsWritten(cfg)), q) == LastDate(store, q)
  {
    var targets := SaveTargetsAsWritten(cfg);
    var w := Written(d, targets);
    WrittenComesFromData(d, targets);
    forall j | 0 <= j < |w|
      ensures StampOf(w[j], q).None?
    {
      assert w[j] in w;
      var i :| 0 <= i < |targets| && w[j].table == targets[i].1 && w[j].row in d[targets[i].0];
      assert |w[j].table| == 1;
    }
    LastDateOfConcat(store, w, q);
  }

  /** A check whose last date is at most `deltaMins` minutes old writes
      nothing. */
  lemma FreshCheckWritesNothing(c: Caller, store: Store, cfg: Config, hooks: Hooks, fetch: Fetch, t: int, now: int)
    requires CheckLastDate(store, cfg, c, "") == Success(Some(t))
    requires now - t <= c.deltaMins * SecondsPerMinute
    ensures CheckAndUpdate(c, store, cfg, hooks, fetch, now).store == store
  {
    assert Decide(Some(t), now, c.deltaMins) == UpToDate(t);
  }

  /** A refresh at time `now` stamps the checked table: provided no stored
      row is stamped later than `now` and the first key kept at least one
      row with its coordinates and timestamp, the last date becomes `now`. */
  lemma RefreshSetsLastDate(c: Caller, store: Store, cfg: Config, hooks: Hooks, fetch: Fetch, now: int)
    requires fetch.Fetched? && hooks.additionalCheck(fetch)
    requires NormaliseData(cfg, c, hooks.clean(fetch.payload), now).Success?
    requires |cfg.keys| > 0
    requires forall i :: 0 <= i < |cfg.keys| ==> cfg.keys[i] in NormaliseData(cfg, c, hooks.clean(fetch.payload), now).value
    requires exists row :: (row in NormaliseData(cfg, c, hooks.clean(fetch.payload), now).value[cfg.keys[0]] &&
      LatitudeColumn in row && LongitudeColumn in row && DateColumn(cfg.base) in row)
    requires LastDate(store, LocationQuery(c, cfg, CheckTable(cfg, "").value)).None? ||
      LastDate(store, LocationQuery(c, cfg, CheckTable(cfg, "").value)).value <= now
    ensures var r := UpdateDb(c, store, cfg, hooks, fetch, now);
      CheckLastDate(r.store, cfg, r.caller, "") == Success(Some(now))
  {
    var d := NormaliseData(cfg, c, hooks.clean(fetch.payload), now).value;
    var q := LocationQuery(c, cfg, CheckTable(cfg, "").value);
    RefreshAppendsNewRows(c, store, cfg, hooks, fetch, now);
    var r := UpdateDb(c, store, cfg, hooks, fetch, now);
    assert r.store == store + Written(d, SaveTargets(cfg)) && r.caller == c.(data := d, updatePending := false);
    NormalisedRowsCarryLoadStamp(cfg, c, hooks.clean(fetch.payload), now);
    SaveMakesLoadTimeLast(store, d, cfg, q, now);
    assert LocationQuery(r.caller, cfg, CheckTable(cfg, "").value) == q;
  }

  /** A refresh at time `now` makes the store fresh: under the conditions of
      `RefreshSetsLastDate`, a check within the TTL afterwards writes
      nothing. */
  lemma RefreshedDataIsFresh(c: Caller, store: Store, cfg: Config, hooks: Hooks, fetch: Fetch, now: int,
                             fetch': Fetch, later: int)
    requires fetch.Fetched? && hooks.additionalCheck(fetch)
    requires NormaliseData(cfg, c, hooks.clean(fetch.payload), now).Success?
    requires |cfg.keys| > 0
    requires forall i :: 0 <= i < |cfg.keys| ==> cfg.keys[i] in NormaliseData(cfg, c, hooks.clean(fetch.payload), now).value
    requires exists row :: (row in NormaliseData(cfg, c, hooks.clean(fetch.payload), now).value[cfg.keys[0]] &&
      LatitudeColumn in row && LongitudeColumn in row && DateColumn(cfg.base) in row)
    requires LastDate(store, LocationQuery(c, cfg, CheckTable(cfg, "").value)).None? ||
      LastDate(store, LocationQuery(c, cfg, CheckTable(cfg, "").value)).value <= now
    requires now <= later <= now + c.deltaMins * SecondsPerMinute
    ensures var r := UpdateDb(c, store, cfg, hooks, fetch, now);
      && CheckLastDate(r.store, cfg, r.caller, "") == Success(Some(now))
      && CheckAndUpdate(r.caller, r.store, cfg, hooks, fetch', later).store == r.store
  {
    RefreshSetsLastDate(c, store, cfg, hooks, fetch, now);
    var r := UpdateDb(c, store, cfg, hooks, fetch, now);
    FreshCheckWritesNothing(r.caller, r.store, cfg, hooks, fetch', now, later);
  }
}
