/**
 Static configuration of a caller and the three places where the source
 turns a data key into a physical table name: the save, the last-date
 lookup and the per-key read.
 */
module Tables {
  import opened Rows

  /** Construction-time configuration.
      - base: the base table name (`db_tablename`);
      - keys: the ordered data keys (`data_list`);
      - keyAsTable: one table per key (`<base>_<key>`) or one shared table;
      - filters: per-key row predicate (`restriction_query_dict`);
      - columns: per-key ordered column projection (`restriction_columns_dict`). */
  datatype Config = Config(
    base: string,
    keys: seq<string>,
    keyAsTable: bool,
    filters: map<string, Row -> bool>,
    columns: map<string, seq<string>>)

  /** The per-key physical table name. */
  function KeyTable(base: string, key: string): (t: string)
    ensures |t| == |base| + 1 + |key|
    ensures t[..|base|] == base && t[|base|] == '_' && t[|base| + 1..] == key
  {
    base + "_" + key
  }

  /** Table of the last-date lookup. An empty key stands for "no key" and
      selects the first configured key; with no configured key the source
      raises an IndexError, modelled as `None`. */
  function CheckTable(cfg: Config, key: string): (r: Option<string>)
    ensures r.None? <==> cfg.keyAsTable && key == "" && |cfg.keys| == 0
    ensures !cfg.keyAsTable ==> r == Some(cfg.base)
    ensures cfg.keyAsTable && key != "" ==> r == Some(KeyTable(cfg.base, key))
    ensures cfg.keyAsTable && key == "" && |cfg.keys| > 0 ==> r == Some(KeyTable(cfg.base, cfg.keys[0]))
  {
    if !cfg.keyAsTable then Some(cfg.base)
    else if key == "" then
      if |cfg.keys| == 0 then None else Some(KeyTable(cfg.base, cfg.keys[0]))
    else Some(KeyTable(cfg.base, key))
  }

  /** Table of the per-key read. Unlike `CheckTable`, an empty key selects the
      base table even when tables are per key. */
  function ReadTable(cfg: Config, key: string): (t: string)
    ensures cfg.keyAsTable && key != "" ==> t == KeyTable(cfg.base, key)
    ensures !cfg.keyAsTable || key == "" ==> t == cfg.base
  {
    if cfg.keyAsTable && key != "" then KeyTable(cfg.base, key) else cfg.base
  }

  /** The evidently intended save mapping: every key to its own table when
      tables are per key, every key to the base table otherwise. */
  function SaveTargets(cfg: Config): (r: seq<(string, string)>)
    ensures |r| == |cfg.keys|
    ensures forall i :: 0 <= i < |r| ==> r[i].0 == cfg.keys[i]
    ensures cfg.keyAsTable ==> forall i :: 0 <= i < |r| ==> r[i].1 == KeyTable(cfg.base, cfg.keys[i])
    ensures !cfg.keyAsTable ==> forall i :: 0 <= i < |r| ==> r[i].1 == cfg.base
  {
    seq(|cfg.keys|, i requires 0 <= i < |cfg.keys| =>
      (cfg.keys[i], if cfg.keyAsTable then KeyTable(cfg.base, cfg.keys[i]) else cfg.base))
  }

  /** Python's `zip`: pairs up to the shorter of the two sequences. */
  function Zip<A, B>(xs: seq<A>, ys: seq<B>): (r: seq<(A, B)>)
    ensures |r| == if |xs| <= |ys| then |xs| else |ys|
    ensures forall i :: 0 <= i < |r| ==> r[i] == (xs[i], ys[i])
  {
    var n := if |xs| <= |ys| then |xs| else |ys|;
    seq(n, i requires 0 <= i < n => (xs[i], ys[i]))
  }

  /** The save mapping as the source writes it: with a shared table the key
      list is zipped with the table-name STRING, so each key is paired with
      one character of the base name. */
  function SaveTargetsAsWritten(cfg: Config): (r: seq<(string, string)>)
    ensures cfg.keyAsTable ==> r == SaveTargets(cfg)
    ensures !cfg.keyAsTable ==> |r| == (if |cfg.keys| <= |cfg.base| then |cfg.keys| else |cfg.base|)
    ensures !cfg.keyAsTable ==> forall i :: 0 <= i < |r| ==> r[i] == (cfg.keys[i], [cfg.base[i]])
  {
    if cfg.keyAsTable then
      Zip(cfg.keys, seq(|cfg.keys|, i requires 0 <= i < |cfg.keys| => KeyTable(cfg.base, cfg.keys[i])))
    else
      Zip(cfg.keys, seq(|cfg.base|, i requires 0 <= i < |cfg.base| => [cfg.base[i]]))
  }

  /** With the intended mapping, the table a key is saved to is exactly the
      table its freshness is checked in and its rows are read from (for every
      configured key that is not the empty string). */
  lemma SavedWhereChecked(cfg: Config, i: int)
    requires 0 <= i < |cfg.keys| && cfg.keys[i] != ""
    ensures SaveTargets(cfg)[i].1 == ReadTable(cfg, cfg.keys[i])
    ensures CheckTable(cfg, cfg.keys[i]) == Some(SaveTargets(cfg)[i].1)
  {
  }

  /** With a shared table, whose name is longer than one character, the
      as-written save sends the first key to a table other than the base
      table that the lookups and reads use. */
  lemma SharedTableSaveDiverges(cfg: Config)
    requires !cfg.keyAsTable && |cfg.keys| > 0 && |cfg.base| > 1
    ensures SaveTargetsAsWritten(cfg)[0].1 != cfg.base
    ensures SaveTargetsAsWritten(cfg)[0].1 != ReadTable(cfg, cfg.keys[0])
  {
    var t := SaveTargetsAsWritten(cfg)[0].1;
    assert |t| == 1;
  }

  /** The default configuration of the source: base `mytable`, keys `key1`
      and `key2`, shared table. The as-written save pairs the keys with the
      tables `m` and `y`; the intended save pairs both with `mytable`. */
  lemma SharedTableSaveExample()
    ensures var cfg := Config("mytable", ["key1", "key2"], false, map[], map[]);
      && SaveTargetsAsWritten(cfg) == [("key1", "m"), ("key2", "y")]
      && SaveTargets(cfg) == [("key1", "mytable"), ("key2", "mytable")]
  {
    var cfg := Config("mytable", ["key1", "key2"], false, map[], map[]);
    assert SaveTargetsAsWritten(cfg)[0] == ("key1", "m");
    assert SaveTargetsAsWritten(cfg)[1] == ("key2", "y");
  }

  /** Per-key tables for keys `a` and `b` of base `mytable`. */
  lemma PerKeyTablesExample()
    ensures var cfg := Config("mytable", ["a", "b"], true, map[], map[]);
      && SaveTargets(cfg) == [("a", "mytable_a"), ("b", "mytable_b")]
      && CheckTable(cfg, "") == Some("mytable_a")
  {
    var cfg := Config("mytable", ["a", "b"], true, map[], map[]);
    assert KeyTable("mytable", "a") == "mytable_a";
    assert KeyTable("mytable", "b") == "mytable_b";
    assert SaveTargets(cfg)[0] == ("a", "mytable_a");
    assert SaveTargets(cfg)[1] == ("b", "mytable_b");
  }
}
