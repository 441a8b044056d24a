/**
 The persistent store as an append-only sequence of (table, row) entries,
 with the two queries the refresh protocol issues against it: the most
 recent timestamp at a location, and every row at a location stamped at or
 after a given time.
 */
module Store {
  import opened Rows

  /** One persisted row and the physical table it was written to. */
  datatype Entry = Entry(table: string, row: Row)

  /** All tables, in insertion order. Rows are only ever appended. */
  type Store = seq<Entry>

  /** The parameters bound into both queries: the physical table, the
      timestamp column and the exact coordinates. */
  datatype Query = Query(table: string, dateCol: string, lat: real, lon: real)

  /** Exact equality on both coordinates; no tolerance, no range. */
  predicate AtLocation(row: Row, lat: real, lon: real)
  {
    && LatitudeColumn in row && row[LatitudeColumn] == Num(lat)
    && LongitudeColumn in row && row[LongitudeColumn] == Num(lon)
  }

  /** The timestamp of an entry if the entry answers the query: right table,
      right location, and a timestamp in the date column. The model never
      selects a row whose date column is missing or not a timestamp (see
      `Store.LastDate` under "Left out" in README.md). */
  function StampOf(e: Entry, q: Query): (r: Option<int>)
    ensures r.Some? <==> e.table == q.table && AtLocation(e.row, q.lat, q.lon) && q.dateCol in e.row && e.row[q.dateCol].Time?
    ensures r.Some? ==> e.row[q.dateCol] == Time(r.value)
  {
    if e.table == q.table && AtLocation(e.row, q.lat, q.lon) && q.dateCol in e.row && e.row[q.dateCol].Time?
    then Some(e.row[q.dateCol].t)
    else None
  }

  function MaxOpt(a: Option<int>, b: Option<int>): Option<int>
  {
    match (a, b)
    case (None, _) => b
    case (_, None) => a
    case (Some(x), Some(y)) => if x >= y then a else b
  }

  /** `ORDER BY date DESC LIMIT 1`: the greatest timestamp among the entries
      answering the query, or `None` when there is none. */
  function LastDate(s: Store, q: Query): (r: Option<int>)
    ensures r.None? <==> forall i :: 0 <= i < |s| ==> StampOf(s[i], q).None?
    ensures r.Some? ==> exists i :: 0 <= i < |s| && StampOf(s[i], q) == Some(r.value)
    ensures r.Some? ==> forall i :: 0 <= i < |s| && StampOf(s[i], q).Some? ==> StampOf(s[i], q).value <= r.value
    decreases |s|
  {
    if |s| == 0 then None
    else
      var rest := LastDate(s[1..], q);
      assert forall i :: 1 <= i < |s| ==> s[i] == s[1..][i - 1];
      MaxOpt(StampOf(s[0], q), rest)
  }

  /** An entry is read back when it answers the query and is stamped no
      earlier than `since`. */
  predicate Selected(e: Entry, q: Query, since: int)
  {
    StampOf(e, q).Some? && StampOf(e, q).value >= since
  }

  /** `SELECT * ... WHERE date >= since`: the selected rows, in store order.
      A row stored several times in the queried table is read back as many
      times. */
  function ReadSince(s: Store, q: Query, since: int): (r: seq<Row>)
    ensures |r| <= |s|
    ensures forall row :: row in r <==> exists i :: 0 <= i < |s| && Selected(s[i], q, since) && s[i].row == row
    ensures forall row ::
      multiset(r)[row] == if Selected(Entry(q.table, row), q, since) then multiset(s)[Entry(q.table, row)] else 0
    decreases |s|
  {
    if |s| == 0 then []
    else
      var rest := ReadSince(s[1..], q, since);
      ReadSinceMemberStep(s, q, since, rest);
      ReadSinceCountStep(s, q, since, rest);
      ReadHead(s[0], q, since) + rest
  }

  /** What the read returns for one entry: its row when it is selected. */
  function ReadHead(e: Entry, q: Query, since: int): seq<Row>
  {
    if Selected(e, q, since) then [e.row] else []
  }

  /** One step of the read: a row is read from the whole store iff it is
      the selected head's row or it is read from the tail. */
  lemma ReadSinceMemberStep(s: Store, q: Query, since: int, rest: seq<Row>)
    requires |s| > 0
    requires forall row :: row in rest <==> exists i :: 0 <= i < |s[1..]| && Selected(s[1..][i], q, since) && s[1..][i].row == row
    ensures forall row :: row in ReadHead(s[0], q, since) + rest <==>
      exists i :: 0 <= i < |s| && Selected(s[i], q, since) && s[i].row == row
  {
    assert forall i :: 1 <= i < |s| ==> s[i] == s[1..][i - 1];
  }

  /** One step of the read: the copies of a row read from the whole store
      are those read from the tail, plus the head's row when the head is
      selected. */
  lemma ReadSinceCountStep(s: Store, q: Query, since: int, rest: seq<Row>)
    requires |s| > 0
    requires forall row ::
      multiset(rest)[row] == if Selected(Entry(q.table, row), q, since) then multiset(s[1..])[Entry(q.table, row)] else 0
    ensures var r := ReadHead(s[0], q, since) + rest;
      forall row ::
        multiset(r)[row] == if Selected(Entry(q.table, row), q, since) then multiset(s)[Entry(q.table, row)] else 0
  {
    assert s == [s[0]] + s[1..];
    if Selected(s[0], q, since) {
      assert s[0] == Entry(q.table, s[0].row);
    }
  }

  /** The rows of one dataset, tagged with their table. */
  function Tag(table: string, rows: seq<Row>): (r: seq<Entry>)
    ensures |r| == |rows|
    ensures forall i :: 0 <= i < |rows| ==> r[i] == Entry(table, rows[i])
  {
    seq(|rows|, i requires 0 <= i < |rows| => Entry(table, rows[i]))
  }

  /** `to_sql(..., if_exists='append')`: insert only. The old store is a
      prefix of the new one and the new entries are exactly the given rows. */
  function Append(s: Store, table: string, rows: seq<Row>): (r: Store)
    ensures |r| == |s| + |rows|
    ensures r[..|s|] == s
    ensures forall i :: 0 <= i < |rows| ==> r[|s| + i] == Entry(table, rows[i])
  {
    s + Tag(table, rows)
  }

  /** Everything a complete save writes, key after key, when every key has a
      dataset. */
  function Written(data: Dataset, targets: seq<(string, string)>): seq<Entry>
    requires forall i :: 0 <= i < |targets| ==> targets[i].0 in data
    decreases |targets|
  {
    if |targets| == 0 then []
    else Tag(targets[0].1, data[targets[0].0]) + Written(data, targets[1..])
  }

  /** A complete save writes nothing but rows of the dataset, each into the
      table its key is mapped to. */
  lemma {:induction false} WrittenComesFromData(data: Dataset, targets: seq<(string, string)>)
    requires forall i :: 0 <= i < |targets| ==> targets[i].0 in data
    ensures forall e :: e in Written(data, targets) ==>
      exists i :: 0 <= i < |targets| && e.table == targets[i].1 && e.row in data[targets[i].0]
    decreases |targets|
  {
    if |targets| > 0 {
      var head := Tag(targets[0].1, data[targets[0].0]);
      assert forall i :: 1 <= i < |targets| ==> targets[i] == targets[1..][i - 1];
      WrittenComesFromData(data, targets[1..]);
      forall e | e in Written(data, targets)
        ensures exists i :: 0 <= i < |targets| && e.table == targets[i].1 && e.row in data[targets[i].0]
      {
        if e in head {
          var j :| 0 <= j < |head| && head[j] == e;
          assert e.table == targets[0].1 && e.row in data[targets[0].0];
        } else {
          var i :| 0 <= i < |targets[1..]| && e.table == targets[1..][i].1 && e.row in data[targets[1..][i].0];
          assert e.table == targets[i + 1].1 && e.row in data[targets[i + 1].0];
        }
      }
    }
  }

  datatype SaveResult = Saved(store: Store) | SaveAborted(store: Store)

  /** The first key without a dataset: every earlier key has one. */
  predicate FirstMissing(data: Dataset, targets: seq<(string, string)>, n: int)
  {
    && 0 <= n < |targets|
    && targets[n].0 !in data
    && forall i :: 0 <= i < n ==> targets[i].0 in data
  }

  /** Writing the first `m + 1` targets writes the first one, then the next
      `m`. */
  lemma WrittenPrefixStep(data: Dataset, targets: seq<(string, string)>, m: nat)
    requires m < |targets|
    requires forall i :: 0 <= i <= m ==> targets[i].0 in data
    ensures Written(data, targets[..m + 1]) == Tag(targets[0].1, data[targets[0].0]) + Written(data, targets[1..][..m])
  {
    assert targets[..m + 1][1..] == targets[1..][..m];
  }

  /** The save loop: appends each key's rows to its table in order. A key
      without a dataset raises a KeyError after the earlier keys have been
      written, so an aborted save leaves exactly the rows of the keys before
      the first missing one behind. */
  function Save(s: Store, data: Dataset, targets: seq<(string, string)>): (r: SaveResult)
    ensures r.Saved? <==> forall i :: 0 <= i < |targets| ==> targets[i].0 in data
    ensures r.Saved? ==> r.store == s + Written(data, targets)
    ensures r.SaveAborted? ==> exists n :: FirstMissing(data, targets, n) && r.store == s + Written(data, targets[..n])
    ensures |s| <= |r.store| && r.store[..|s|] == s
    decreases |targets|
  {
    if |targets| == 0 then Saved(s)
    else if targets[0].0 !in data then
      assert FirstMissing(data, targets, 0) && s == s + Written(data, targets[..0]);
      SaveAborted(s)
    else
      var head := Tag(targets[0].1, data[targets[0].0]);
      var s' := Append(s, targets[0].1, data[targets[0].0]);
      var r := Save(s', data, targets[1..]);
      assert s' == s + head;
      assert r.store[..|s|] == s'[..|s|];
      assert forall i :: 1 <= i < |targets| ==> targets[i] == targets[1..][i - 1];
      if r.Saved? then
        CompletedSaveStep(s, data, targets, r.store);
        r
      else
        assert exists n :: FirstMissing(data, targets, n) && r.store == s + Written(data, targets[..n]) by {
          var m :| FirstMissing(data, targets[1..], m) && r.store == s' + Written(data, targets[1..][..m]);
          AbortedSaveStep(s, data, targets, m, r.store);
        }
        r
  }

  /** One step of a completed save: the head's rows, then a complete save
      of the tail, is a complete save of the whole. */
  lemma CompletedSaveStep(s: Store, data: Dataset, targets: seq<(string, string)>, written: Store)
    requires |targets| > 0
    requires forall i :: 0 <= i < |targets| ==> targets[i].0 in data
    requires written == s + Tag(targets[0].1, data[targets[0].0]) + Written(data, targets[1..])
    ensures written == s + Written(data, targets)
  {
  }

  /** One step of an aborted save: a save of the tail that stopped at its
      `m`-th target, after the head's rows, is a save of the whole that
      stopped at its `m + 1`-th. */
  lemma AbortedSaveStep(s: Store, data: Dataset, targets: seq<(string, string)>, m: nat, written: Store)
    requires |targets| > 0 && targets[0].0 in data
    requires FirstMissing(data, targets[1..], m)
    requires written == s + Tag(targets[0].1, data[targets[0].0]) + Written(data, targets[1..][..m])
    ensures FirstMissing(data, targets, m + 1)
    ensures written == s + Written(data, targets[..m + 1])
  {
    assert forall i :: 1 <= i <= m + 1 ==> targets[i] == targets[1..][i - 1];
    WrittenPrefixStep(data, targets, m);
  }

  /** Appending never removes an answer: the last date of the extended store
      is the later of the two parts' last dates. */
  lemma {:induction false} LastDateOfConcat(s: Store, t: Store, q: Query)
    ensures LastDate(s + t, q) == MaxOpt(LastDate(s, q), LastDate(t, q))
    decreases |s|
  {
    if |s| == 0 {
      assert s + t == t;
    } else {
      assert (s + t)[1..] == s[1..] + t;
      LastDateOfConcat(s[1..], t, q);
    }
  }

  /** Reading the extended store reads the old part, then the new part. */
  lemma {:induction false} ReadSinceOfConcat(s: Store, t: Store, q: Query, since: int)
    ensures ReadSince(s + t, q, since) == ReadSince(s, q, since) + ReadSince(t, q, since)
    decreases |s|
  {
    if |s| == 0 {
      assert s + t == t;
    } else {
      var h := ReadHead(s[0], q, since);
      assert (s + t)[0] == s[0];
      assert (s + t)[1..] == s[1..] + t;
      ReadSinceOfConcat(s[1..], t, q, since);
      assert ReadSince(s + t, q, since) == h + (ReadSince(s[1..], q, since) + ReadSince(t, q, since));
    }
  }

  /** Reading from the last date returns something, and only rows stamped
      exactly at the last date and located at the queried coordinates. */
  lemma ReadAtLastDate(s: Store, q: Query)
    requires LastDate(s, q).Some?
    ensures var d := LastDate(s, q).value;
      var r := ReadSince(s, q, d);
      && |r| > 0
      && forall row :: row in r ==> AtLocation(row, q.lat, q.lon) && q.dateCol in row && row[q.dateCol] == Time(d)
  {
    var d := LastDate(s, q).value;
    var k :| 0 <= k < |s| && StampOf(s[k], q) == Some(d);
    assert Selected(s[k], q, d);
    assert s[k].row in ReadSince(s, q, d);
  }

  /** A batch whose stamps are all `now`, at least one present, has last
      date `now`. */
  lemma LastDateOfUniformBatch(batch: seq<Entry>, q: Query, now: int)
    requires forall j :: 0 <= j < |batch| ==> StampOf(batch[j], q).None? || StampOf(batch[j], q) == Some(now)
    requires exists j :: 0 <= j < |batch| && StampOf(batch[j], q) == Some(now)
    ensures LastDate(batch, q) == Some(now)
  {
    var b := LastDate(batch, q);
    var m :| 0 <= m < |batch| && StampOf(batch[m], q) == Some(b.value);
  }

  /** Appending a batch whose rows are all stamped `now` (or carry no stamp),
      at least one of which answers the query, to a store whose stamps are
      not later than `now`, makes `now` the last date. */
  lemma LastDateAfterBatch(s: Store, batch: seq<Entry>, q: Query, now: int)
    requires LastDate(s, q).None? || LastDate(s, q).value <= now
    requires forall j :: 0 <= j < |batch| ==> StampOf(batch[j], q).None? || StampOf(batch[j], q) == Some(now)
    requires exists j :: 0 <= j < |batch| && StampOf(batch[j], q) == Some(now)
    ensures LastDate(s + batch, q) == Some(now)
  {
    LastDateOfUniformBatch(batch, q, now);
    LastDateOfConcat(s, batch, q);
    MaxOptOfEarlier(LastDate(s, q), now);
  }

  /** `now` wins against anything not later than it. */
  lemma MaxOptOfEarlier(a: Option<int>, now: int)
    requires a.None? || a.value <= now
    ensures MaxOpt(a, Some(now)) == Some(now)
  {
  }
}
