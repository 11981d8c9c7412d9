/** The data store the watchers share (watchers/__init__.py, DataStore):
    the merged defaults, the current metric values, the startup schema
    check, reset, snapshot, the counter updates the watchers make, and the
    row written by save_to_db. */
module Store {
  import opened Basics
  import opened Values
  import opened Dicts
  import opened Registry
  import opened Storage
  import opened Timestamps
  import opened Prompt
  import opened Schema

  /** The integer an `int` metric holds; `True + 1 == 2` in Python. */
  function AsInt(v: Value): int
    requires IsInstanceInt(v)
  {
    if v.IntV? then v.i else if v.b then 1 else 0
  }

  /** Every name in `keys` holds an integer, so `+=` on it succeeds. */
  predicate CountersReady(m: map<string, Value>, keys: set<string>) {
    forall k :: k in keys ==> k in m && IsInstanceInt(m[k])
  }

  /** `metrics[k] += n` on an integer metric. */
  function Bump(m: map<string, Value>, k: string, n: int): (r: map<string, Value>)
    requires k in m && IsInstanceInt(m[k])
    ensures r.Keys == m.Keys
    ensures r[k].IntV? && r[k].i == AsInt(m[k]) + n
    ensures forall j :: j in m && j != k ==> r[j] == m[j]
  {
    m[k := IntV(AsInt(m[k]) + n)]
  }

  /** Counting never takes a counter away or turns it into something else. */
  lemma BumpKeepsCounters(m: map<string, Value>, keys: set<string>, k: string, n: int)
    requires CountersReady(m, keys) && k in m && IsInstanceInt(m[k])
    ensures CountersReady(Bump(m, k, n), keys)
    ensures CountersReady(Bump(m, k, n), keys + {k})
  {
  }

  /** The serialized values of the first `n` default names, read from the
      current metrics; the first missing name or unserializable value raises. */
  function SerializedUpTo(keys: seq<string>, metrics: map<string, Value>, enc: Value -> string, n: nat): (r: Result<seq<Value>, Error>)
    requires n <= |keys|
    ensures r.Ok? ==> |r.value| == n
    decreases n
  {
    if n == 0 then Ok([])
    else
      match SerializedUpTo(keys, metrics, enc, n - 1)
      case Err(e) => Err(e)
      case Ok(vs) =>
        var k := keys[n - 1];
        if k !in metrics then Err(MissingMetric(k))
        else
          match SerializeValue(metrics[k], enc)
          case Err(e) => Err(e)
          case Ok(v) => Ok(vs + [v])
  }

  /** Once a name fails, serializing more names raises the same error. */
  lemma {:induction false} SerializedErrorStays(keys: seq<string>, metrics: map<string, Value>, enc: Value -> string, m: nat, n: nat)
    requires m <= n <= |keys| && SerializedUpTo(keys, metrics, enc, m).Err?
    ensures SerializedUpTo(keys, metrics, enc, n) == SerializedUpTo(keys, metrics, enc, m)
    decreases n - m
  {
    if m < n {
      SerializedErrorStays(keys, metrics, enc, m, n - 1);
    }
  }

  /** Whether the `i`-th default name can be read and serialized. */
  predicate Storable(keys: seq<string>, metrics: map<string, Value>, enc: Value -> string, i: int)
    requires 0 <= i < |keys|
  {
    keys[i] in metrics && SerializeValue(metrics[keys[i]], enc).Ok?
  }

  /** The error raised for a default name that cannot be stored. */
  function StoreError(keys: seq<string>, metrics: map<string, Value>, enc: Value -> string, i: int): Error
    requires 0 <= i < |keys| && !Storable(keys, metrics, enc, i)
  {
    if keys[i] !in metrics then MissingMetric(keys[i]) else SerializeValue(metrics[keys[i]], enc).error
  }

  /** Serializing succeeds exactly when every name can be stored, and then
      gives each metric's serialized value in order; otherwise it raises the
      error of the first name that cannot. */
  lemma {:induction false} SerializedUpToSpec(keys: seq<string>, metrics: map<string, Value>, enc: Value -> string, n: nat)
    requires n <= |keys|
    ensures SerializedUpTo(keys, metrics, enc, n).Ok? <==> forall i :: 0 <= i < n ==> Storable(keys, metrics, enc, i)
    ensures SerializedUpTo(keys, metrics, enc, n).Ok? ==>
      forall i :: 0 <= i < n ==>
        keys[i] in metrics && SerializeValue(metrics[keys[i]], enc) == Ok(SerializedUpTo(keys, metrics, enc, n).value[i])
    ensures SerializedUpTo(keys, metrics, enc, n).Err? ==>
      exists j :: 0 <= j < n && !Storable(keys, metrics, enc, j)
        && (forall i :: 0 <= i < j ==> Storable(keys, metrics, enc, i))
        && SerializedUpTo(keys, metrics, enc, n).error == StoreError(keys, metrics, enc, j)
    decreases n
  {
    if n > 0 {
      SerializedUpToSpec(keys, metrics, enc, n - 1);
      var prev := SerializedUpTo(keys, metrics, enc, n - 1);
      if prev.Ok? && Storable(keys, metrics, enc, n - 1) {
        var r := SerializedUpTo(keys, metrics, enc, n);
        assert r.value == prev.value + [SerializeValue(metrics[keys[n - 1]], enc).value];
      } else if prev.Ok? {
        assert SerializedUpTo(keys, metrics, enc, n).error == StoreError(keys, metrics, enc, n - 1);
      }
    }
  }

  /** The row `save_to_db` inserts: the two fixed columns, then one column
      per default name in the defaults' order. */
  function InsertRow(keys: seq<string>, metrics: map<string, Value>, timestamp: string, interval: int, enc: Value -> string): Result<Row, Error> {
    match SerializedUpTo(keys, metrics, enc, |keys|)
    case Err(e) => Err(e)
    case Ok(vs) => Ok(Row([TimestampColumn, IntervalColumn] + keys, [StrV(timestamp), IntV(interval)] + vs))
  }

  /** The row has 2 + |keys| names and as many values: the timestamp and the
      interval, then each metric's serialized value, in the defaults' order.
      It exists exactly when every metric can be stored. */
  lemma RowShape(keys: seq<string>, metrics: map<string, Value>, timestamp: string, interval: int, enc: Value -> string)
    ensures InsertRow(keys, metrics, timestamp, interval, enc).Ok? <==>
      forall i :: 0 <= i < |keys| ==> Storable(keys, metrics, enc, i)
    ensures InsertRow(keys, metrics, timestamp, interval, enc).Ok? ==>
      var row := InsertRow(keys, metrics, timestamp, interval, enc).value;
      && row.names == [TimestampColumn, IntervalColumn] + keys
      && |row.values| == |row.names| == 2 + |keys|
      && row.values[0] == StrV(timestamp) && row.values[1] == IntV(interval)
      && forall i :: 0 <= i < |keys| ==> keys[i] in metrics && SerializeValue(metrics[keys[i]], enc) == Ok(row.values[i + 2])
  {
    SerializedUpToSpec(keys, metrics, enc, |keys|);
  }

  /** `save_to_db`: build the row, then insert it into the file's table. */
  function Save(files: Files, path: string, keys: seq<string>, metrics: map<string, Value>, timestamp: string, interval: int, enc: Value -> string): Result<Files, Error> {
    match InsertRow(keys, metrics, timestamp, interval, enc)
    case Err(e) => Err(e)
    case Ok(row) => Insert(files, path, row)
  }

  /** The table a migration creates accepts every row built from the same
      defaults, so after a migration each save appends exactly its row. */
  lemma {:induction false} FreshTableAcceptsRow(defaults: Dict<Value>, metrics: map<string, Value>, timestamp: string, interval: int, enc: Value -> string)
    requires defaults.Valid() && ExpectedLayout(defaults).Ok?
    requires InsertRow(defaults.keys, metrics, timestamp, interval, enc).Ok?
    ensures Accepts(TableDefinition(ExpectedLayout(defaults).value), InsertRow(defaults.keys, metrics, timestamp, interval, enc).value)
  {
    var e := ExpectedLayout(defaults).value;
    var row := InsertRow(defaults.keys, metrics, timestamp, interval, enc).value;
    ExpectedLayoutShape(defaults);
    RowShape(defaults.keys, metrics, timestamp, interval, enc);
    assert e.keys[..2] == [TimestampColumn, IntervalColumn];
    TableDefinitionShape(e);
    var cols := TableDefinition(e);
    assert ColumnNames(cols) == row.names;
    forall i | 0 <= i < |cols| && cols[i].notNull ensures cols[i].name in row.names {
      assert ColumnNames(cols)[i] == cols[i].name;
    }
  }

  /** Saving into the freshly created table appends the row to no rows. */
  lemma SaveAfterMigration(path: string, defaults: Dict<Value>, files: Files, response: string, now: DateTime,
                           metrics: map<string, Value>, timestamp: string, interval: int, enc: Value -> string)
    requires defaults.Valid()
    requires SchemaPlan(path, defaults, files, response, now).Migrate?
    requires InsertRow(defaults.keys, metrics, timestamp, interval, enc).Ok?
    ensures var after := ApplyPlan(files, path, SchemaPlan(path, defaults, files, response, now));
      var row := InsertRow(defaults.keys, metrics, timestamp, interval, enc).value;
      && Save(after, path, defaults.keys, metrics, timestamp, interval, enc).Ok?
      && Save(after, path, defaults.keys, metrics, timestamp, interval, enc).value[path].metrics.value.rows == [row]
  {
    MigrationResult(path, defaults, files, response, now);
    FreshTableAcceptsRow(defaults, metrics, timestamp, interval, enc);
  }

  /** A set default is given a TEXT column, but json.dumps refuses a set,
      so every save of an interval holding it raises. */
  lemma SetDefaultCannotBeSaved(elems: seq<Value>, enc: Value -> string)
    ensures PythonToSqlType(SetV(elems)) == Ok(TEXT)
    ensures SerializeValue(SetV(elems), enc).Err?
  {
  }

  /** What `snapshot` hands out: a copy of the current metric values. */
  datatype SnapshotView = SnapshotView(metrics: map<string, Value>)

  /** The outcome of constructing a data store: running with the files as
      the schema check left them, stopped by `sys.exit`, or an exception. */
  datatype Startup = Running(store: DataStore, files: Files) | Exited(status: int, files: Files) | Raised(error: Error)

  class DataStore {
    const dbPath: string
    const metricDefaults: Dict<Value>
    var metrics: map<string, Value>

    /** The merged defaults from `watchers`, before the schema check; the
        source has no `metrics` attribute until `reset` runs. */
    constructor(dbPath: string, watchers: seq<Declaration>)
      ensures this.dbPath == dbPath && metricDefaults == Merged(watchers)
      ensures metricDefaults.Valid() && metrics == map[]
    {
      this.dbPath := dbPath;
      var defaults := MergeDefaults(watchers);
      metricDefaults := defaults;
      metrics := map[];
    }

    /** `_ensure_schema`: type each default into the expected layout, compare
        it with the table on disk, and on a confirmed mismatch back up,
        remove and recreate the file. Reading the table opens the database,
        which creates an empty file when there is none; a default that
        raises does so before that. Returns the decision and the files
        after it. */
    method EnsureSchema(files: Files, response: string, now: DateTime) returns (plan: Plan, after: Files)
      requires metricDefaults.Valid()
      ensures plan == SchemaPlan(dbPath, metricDefaults, Connect(files, dbPath), response, now)
      ensures after == if plan.Invalid? then files else ApplyPlan(Connect(files, dbPath), dbPath, plan)
    {
      var layout := ExpectedColumns();
      if layout.Err? {
        return Invalid(layout.error), files;
      }
      var expected := layout.value;
      var connected := Connect(files, dbPath);
      after := connected;
      if TableColumns(connected, dbPath) == TypeNames(expected) {
        return UpToDate, connected;
      }
      if !Confirmed(response) {
        return Abort(1), connected;
      }
      var backup := BackupName(dbPath, now);
      if dbPath in after {
        after := after[backup := after[dbPath]];
      }
      if dbPath in after {
        after := after - {dbPath};
      }
      var columns := ColumnDefinitions(expected);
      after := after[dbPath := DbFile(Some(Table(columns, [])))];
      plan := Migrate(MigrationSteps(connected, dbPath, backup, columns));
      assert backup != dbPath by { assert |backup| > |dbPath|; }
      MigrationStepsUnfold(connected, dbPath, backup, columns);
    }

    /** The loop of lines 71-73 filling `expected_cols`, after the check
        for names of the fixed columns. */
    method ExpectedColumns() returns (r: Result<Dict<SqlType>, Error>)
      requires metricDefaults.Valid()
      ensures r == ExpectedLayout(metricDefaults)
    {
      if TimestampColumn in metricDefaults.vals {
        return Err(ReservedColumn(TimestampColumn));
      }
      if IntervalColumn in metricDefaults.vals {
        return Err(ReservedColumn(IntervalColumn));
      }
      var defaults := metricDefaults;
      var expected := FixedLayout();
      var keys := defaults.keys;
      for i := 0 to |keys|
        invariant ExpectedUpTo(defaults, i) == Ok(expected)
      {
        assert keys[i] in Elems(keys);
        var t := PythonToSqlType(defaults.vals[keys[i]]);
        if t.Err? {
          assert ExpectedUpTo(defaults, i + 1) == Err(t.error);
          ExpectedUpToErrorStays(defaults, i + 1, |keys|);
          return Err(t.error);
        }
        assert ExpectedUpTo(defaults, i + 1) == Ok(Put(expected, keys[i], t.value));
        expected := Put(expected, keys[i], t.value);
      }
      return Ok(expected);
    }

    /** The loop of lines 100-104 building `col_defs`. */
    static method ColumnDefinitions(expected: Dict<SqlType>) returns (columns: seq<Column>)
      requires expected.Valid() && |expected.keys| >= 2
      ensures columns == TableDefinition(expected)
    {
      columns := [Column(TimestampColumn, "TEXT", true), Column(IntervalColumn, "INTEGER", true)];
      var rest := expected.keys[2..];
      for j := 0 to |rest|
        invariant columns == TableDefinition(expected)[..2 + j]
      {
        assert rest[j] in Elems(expected.keys);
        columns := columns + [Column(rest[j], SqlTypeName(expected.vals[rest[j]]), true)];
      }
    }

    /** `reset`: every metric back to its default (a deep copy, which is the
        value itself once values are immutable). */
    method Reset()
      modifies this
      ensures metrics == metricDefaults.vals
    {
      metrics := map k | k in metricDefaults.vals :: metricDefaults.vals[k];
    }

    /** `snapshot`: a copy of the metrics, which stay as they were. */
    method Snapshot() returns (s: SnapshotView)
      ensures s.metrics == metrics
    {
      s := SnapshotView(metrics);
    }

    /** `metrics[key] += n`, the update the watchers make under the lock. */
    method Add(key: string, n: int)
      requires key in metrics && IsInstanceInt(metrics[key])
      modifies this
      ensures metrics == Bump(old(metrics), key, n)
    {
      metrics := metrics[key := IntV(AsInt(metrics[key]) + n)];
    }

    /** `save_to_db`: one row in the defaults' key order; the metrics are
        not reset and the files change only by the insert. */
    method SaveToDb(files: Files, timestamp: string, interval: int, enc: Value -> string) returns (r: Result<Files, Error>)
      requires metricDefaults.Valid()
      ensures r == Save(files, dbPath, metricDefaults.keys, metrics, timestamp, interval, enc)
    {
      var keys := metricDefaults.keys;
      var values := [StrV(timestamp), IntV(interval)];
      for i := 0 to |keys|
        invariant SerializedUpTo(keys, metrics, enc, i).Ok?
        invariant values == [StrV(timestamp), IntV(interval)] + SerializedUpTo(keys, metrics, enc, i).value
      {
        if keys[i] !in metrics {
          SerializedErrorStays(keys, metrics, enc, i + 1, |keys|);
          return Err(MissingMetric(keys[i]));
        }
        var v := SerializeValue(metrics[keys[i]], enc);
        if v.Err? {
          SerializedErrorStays(keys, metrics, enc, i + 1, |keys|);
          return Err(v.error);
        }
        values := values + [v.value];
      }
      r := Insert(files, dbPath, Row([TimestampColumn, IntervalColumn] + keys, values));
    }
  }

  /** Reset gives every merged name its merged default, and a watcher that
      is the only one to declare its names with integer defaults finds
      them ready to count. */
  lemma ResetReady(ws: seq<Declaration>, keys: set<string>)
    requires keys <= AllDeclared(ws)
    requires forall i, k :: 0 <= i < |ws| && k in keys && k in Declared(ws[i]) ==> DeclaredDefault(ws[i], k).IntV?
    ensures CountersReady(Merged(ws).vals, keys)
  {
    MergedCounters(ws, keys);
  }

  /** After a reset the row has one value per merged name, and exists
      exactly when every default can be serialized. */
  lemma {:induction false} AfterResetRow(defaults: Dict<Value>, timestamp: string, interval: int, enc: Value -> string)
    requires defaults.Valid()
    ensures InsertRow(defaults.keys, defaults.vals, timestamp, interval, enc).Ok? <==>
      forall k :: k in defaults.vals ==> SerializeValue(defaults.vals[k], enc).Ok?
    ensures InsertRow(defaults.keys, defaults.vals, timestamp, interval, enc).Ok? ==>
      |InsertRow(defaults.keys, defaults.vals, timestamp, interval, enc).value.values| == 2 + |defaults.vals|
  {
    RowShape(defaults.keys, defaults.vals, timestamp, interval, enc);
    DistinctCard(defaults.keys);
    forall k | k in defaults.vals ensures exists i :: 0 <= i < |defaults.keys| && defaults.keys[i] == k {
      assert k in Elems(defaults.keys);
    }
    if forall k :: k in defaults.vals ==> SerializeValue(defaults.vals[k], enc).Ok? {
      forall i | 0 <= i < |defaults.keys| ensures Storable(defaults.keys, defaults.vals, enc, i) {
        assert defaults.keys[i] in Elems(defaults.keys);
      }
    }
  }

  /** `DataStore(db_path, watchers)`: merge the defaults, check the schema,
      then reset. A refused migration exits with status 1, leaving the file
      the check opened, and an unsupported default raises, both before any
      metric exists. */
  method Open(dbPath: string, watchers: seq<Declaration>, files: Files, response: string, now: DateTime) returns (s: Startup)
    ensures var plan := SchemaPlan(dbPath, Merged(watchers), Connect(files, dbPath), response, now);
      && (plan.Invalid? ==> s == Raised(plan.error))
      && (plan.Abort? ==> s == Exited(plan.status, Connect(files, dbPath)))
      && ((plan.UpToDate? || plan.Migrate?) ==>
            && s.Running? && fresh(s.store)
            && s.files == ApplyPlan(Connect(files, dbPath), dbPath, plan)
            && s.store.dbPath == dbPath && s.store.metricDefaults == Merged(watchers)
            && s.store.metrics == Merged(watchers).vals)
  {
    var store := new DataStore(dbPath, watchers);
    var plan, after := store.EnsureSchema(files, response, now);
    match plan
    case Invalid(e) => s := Raised(e);
    case Abort(status) => s := Exited(status, after);
    case _ =>
      store.Reset();
      s := Running(store, after);
  }
}
