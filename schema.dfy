/** Schema reconciliation (watchers/__init__.py, `_ensure_schema`): the
    column layout the merged defaults call for, the decision taken against
    the layout found on disk, and the file effects of a migration, as a plan
    and its application to the abstract file system. */
module Schema {
  import opened Basics
  import opened Values
  import opened Dicts
  import opened Storage
  import opened Timestamps
  import opened Prompt

  const TimestampColumn: string := "timestamp"
  const IntervalColumn: string := "interval_seconds"

  /** `{'timestamp': 'TEXT', 'interval_seconds': 'INTEGER'}`. */
  function FixedLayout(): (d: Dict<SqlType>)
    ensures d.Valid() && d.keys == [TimestampColumn, IntervalColumn]
  {
    var d := Dict([TimestampColumn, IntervalColumn], map[TimestampColumn := TEXT, IntervalColumn := INTEGER]);
    assert Elems(d.keys) == {TimestampColumn, IntervalColumn};
    d
  }

  /** `expected_cols` once the loop has typed the first `n` defaults, as the
      source writes it: a default named like a fixed column overwrites that
      column's entry in place. The first unsupported default raises. */
  function ExpectedUpTo(defaults: Dict<Value>, n: nat): (r: Result<Dict<SqlType>, Error>)
    requires defaults.Valid() && n <= |defaults.keys|
    ensures r.Ok? ==> r.value.Valid() && |r.value.keys| >= 2
    ensures r.Ok? ==> r.value.keys[0] == TimestampColumn && r.value.keys[1] == IntervalColumn
  {
    if n == 0 then Ok(FixedLayout())
    else
      match ExpectedUpTo(defaults, n - 1)
      case Err(e) => Err(e)
      case Ok(acc) =>
        var k := defaults.keys[n - 1];
        match PythonToSqlType(defaults.vals[k])
        case Err(e) => Err(e)
        case Ok(t) => Ok(Put(acc, k, t))
  }

  /** The expected layout exactly as lines 71-73 compute it. */
  function ExpectedLayoutAsWritten(defaults: Dict<Value>): Result<Dict<SqlType>, Error>
    requires defaults.Valid()
  {
    ExpectedUpTo(defaults, |defaults.keys|)
  }

  /** A metric name that would collide with a fixed column. */
  predicate IsReserved(k: string) {
    k == TimestampColumn || k == IntervalColumn
  }

  /** The expected layout, with a metric named like a fixed column refused as
      a configuration error instead of silently retyping that column. */
  function ExpectedLayout(defaults: Dict<Value>): Result<Dict<SqlType>, Error>
    requires defaults.Valid()
  {
    if TimestampColumn in defaults.vals then Err(ReservedColumn(TimestampColumn))
    else if IntervalColumn in defaults.vals then Err(ReservedColumn(IntervalColumn))
    else ExpectedLayoutAsWritten(defaults)
  }

  /** Once a default fails, typing more defaults raises the same error. */
  lemma {:induction false} ExpectedUpToErrorStays(defaults: Dict<Value>, m: nat, n: nat)
    requires defaults.Valid() && m <= n <= |defaults.keys| && ExpectedUpTo(defaults, m).Err?
    ensures ExpectedUpTo(defaults, n) == ExpectedUpTo(defaults, m)
    decreases n - m
  {
    if m < n {
      ExpectedUpToErrorStays(defaults, m, n - 1);
    }
  }

  /** One successful step of the loop of lines 72-73: the `n`-th default is
      typed and assigned into the layout built so far. */
  lemma ExpectedUpToStep(defaults: Dict<Value>, n: nat)
    requires defaults.Valid() && 0 < n <= |defaults.keys| && ExpectedUpTo(defaults, n).Ok?
    ensures defaults.keys[n - 1] in defaults.vals
    ensures ExpectedUpTo(defaults, n - 1).Ok? && PythonToSqlType(defaults.vals[defaults.keys[n - 1]]).Ok?
    ensures ExpectedUpTo(defaults, n).value ==
      Put(ExpectedUpTo(defaults, n - 1).value, defaults.keys[n - 1], PythonToSqlType(defaults.vals[defaults.keys[n - 1]]).value)
  {
    assert defaults.keys[n - 1] in Elems(defaults.keys);
  }

  /** Typing the first `n` defaults succeeds exactly when each of them has a
      supported type. */
  lemma {:induction false} ExpectedUpToSucceeds(defaults: Dict<Value>, n: nat)
    requires defaults.Valid() && n <= |defaults.keys|
    ensures ExpectedUpTo(defaults, n).Ok? <==>
      forall i :: 0 <= i < n ==> PythonToSqlType(defaults.vals[defaults.keys[i]]).Ok?
    decreases n
  {
    if n > 0 {
      ExpectedUpToSucceeds(defaults, n - 1);
      assert defaults.keys[n - 1] in Elems(defaults.keys);
    }
  }

  /** Without reserved names, the first `n` defaults add one column each,
      in order, after the fixed columns. */
  lemma {:induction false} ExpectedUpToKeys(defaults: Dict<Value>, n: nat)
    requires defaults.Valid() && n <= |defaults.keys|
    requires TimestampColumn !in defaults.vals && IntervalColumn !in defaults.vals
    requires ExpectedUpTo(defaults, n).Ok?
    ensures ExpectedUpTo(defaults, n).value.keys == FixedLayout().keys + defaults.keys[..n]
    decreases n
  {
    var ks := defaults.keys;
    if n == 0 {
      assert ks[..0] == [];
    } else {
      ExpectedUpToStep(defaults, n);
      ExpectedUpToKeys(defaults, n - 1);
      assert ks[n - 1] in Elems(ks);
      PutNextKey(ks, n, ExpectedUpTo(defaults, n - 1).value, PythonToSqlType(defaults.vals[ks[n - 1]]).value);
    }
  }

  /** Assigning the next default's name to a layout holding the fixed
      columns and the earlier defaults appends it. */
  lemma PutNextKey(ks: seq<string>, n: nat, acc: Dict<SqlType>, t: SqlType)
    requires Distinct(ks) && 0 < n <= |ks| && acc.Valid()
    requires acc.keys == FixedLayout().keys + ks[..n - 1]
    requires ks[n - 1] != TimestampColumn && ks[n - 1] != IntervalColumn
    ensures Put(acc, ks[n - 1], t).keys == FixedLayout().keys + ks[..n]
  {
    DistinctNotEarlier(ks, n);
    assert ks[n - 1] !in acc.keys;
    assert ks[n - 1] !in Elems(acc.keys);
    PrefixSnoc(ks, n);
  }

  /** Without reserved names, the fixed columns keep their types. */
  lemma {:induction false} ExpectedUpToFixed(defaults: Dict<Value>, n: nat)
    requires defaults.Valid() && n <= |defaults.keys|
    requires TimestampColumn !in defaults.vals && IntervalColumn !in defaults.vals
    requires ExpectedUpTo(defaults, n).Ok?
    ensures var e := ExpectedUpTo(defaults, n).value;
      && TimestampColumn in e.vals && e.vals[TimestampColumn] == TEXT
      && IntervalColumn in e.vals && e.vals[IntervalColumn] == INTEGER
    decreases n
  {
    if n > 0 {
      var k := defaults.keys[n - 1];
      ExpectedUpToStep(defaults, n);
      var acc := ExpectedUpTo(defaults, n - 1).value;
      assert TimestampColumn in acc.vals && acc.vals[TimestampColumn] == TEXT
          && IntervalColumn in acc.vals && acc.vals[IntervalColumn] == INTEGER by {
        ExpectedUpToFixed(defaults, n - 1);
      }
      assert k != TimestampColumn && k != IntervalColumn;
      PutKeepsFixed(acc, k, PythonToSqlType(defaults.vals[k]).value);
    } else {
      assert ExpectedUpTo(defaults, n).value == FixedLayout();
    }
  }

  /** Assigning a name other than the fixed columns keeps their types. */
  lemma PutKeepsFixed(acc: Dict<SqlType>, k: string, t: SqlType)
    requires acc.Valid() && k != TimestampColumn && k != IntervalColumn
    requires TimestampColumn in acc.vals && acc.vals[TimestampColumn] == TEXT
    requires IntervalColumn in acc.vals && acc.vals[IntervalColumn] == INTEGER
    ensures var e := Put(acc, k, t);
      && TimestampColumn in e.vals && e.vals[TimestampColumn] == TEXT
      && IntervalColumn in e.vals && e.vals[IntervalColumn] == INTEGER
  {
  }

  /** Each of the first `n` defaults is typed by the mapping. */
  lemma {:induction false} ExpectedUpToTypes(defaults: Dict<Value>, n: nat, i: nat)
    requires defaults.Valid() && i < n <= |defaults.keys|
    requires ExpectedUpTo(defaults, n).Ok?
    ensures defaults.keys[i] in defaults.vals && defaults.keys[i] in ExpectedUpTo(defaults, n).value.vals
    ensures PythonToSqlType(defaults.vals[defaults.keys[i]]) == Ok(ExpectedUpTo(defaults, n).value.vals[defaults.keys[i]])
    decreases n
  {
    ExpectedUpToStep(defaults, n);
    if i < n - 1 {
      ExpectedUpToTypes(defaults, n - 1, i);
      assert defaults.keys[i] != defaults.keys[n - 1];
    }
  }

  /** The expected layout is an error exactly when a default is named like
      a fixed column or has an unsupported type. */
  lemma ExpectedLayoutOk(defaults: Dict<Value>)
    requires defaults.Valid()
    ensures ExpectedLayout(defaults).Ok? <==>
      && !(exists k :: k in defaults.vals && IsReserved(k))
      && forall k :: k in defaults.vals ==> PythonToSqlType(defaults.vals[k]).Ok?
  {
    var ks := defaults.keys;
    if TimestampColumn !in defaults.vals && IntervalColumn !in defaults.vals {
      ExpectedUpToSucceeds(defaults, |ks|);
      forall k | k in defaults.vals ensures exists i :: 0 <= i < |ks| && ks[i] == k {
        assert k in Elems(ks);
      }
      forall i | 0 <= i < |ks| ensures ks[i] in defaults.vals {
        assert ks[i] in Elems(ks);
      }
    } else {
      assert IsReserved(TimestampColumn) && IsReserved(IntervalColumn);
    }
  }

  /** When it exists, the expected layout is `timestamp:TEXT`,
      `interval_seconds:INTEGER` and one entry per merged default, typed by
      the mapping, in the merged order. */
  lemma ExpectedLayoutShape(defaults: Dict<Value>)
    requires defaults.Valid()
    ensures ExpectedLayout(defaults).Ok? ==>
      var e := ExpectedLayout(defaults).value;
      && e.keys == [TimestampColumn, IntervalColumn] + defaults.keys
      && e.vals[TimestampColumn] == TEXT && e.vals[IntervalColumn] == INTEGER
      && forall k :: k in defaults.vals ==> PythonToSqlType(defaults.vals[k]) == Ok(e.vals[k])
  {
    var ks := defaults.keys;
    if ExpectedLayout(defaults).Ok? {
      assert TimestampColumn !in defaults.vals && IntervalColumn !in defaults.vals;
      var e := ExpectedUpTo(defaults, |ks|).value;
      assert e.keys == [TimestampColumn, IntervalColumn] + ks by {
        ExpectedUpToKeys(defaults, |ks|);
        assert ks[..|ks|] == ks;
      }
      assert e.vals[TimestampColumn] == TEXT && e.vals[IntervalColumn] == INTEGER by {
        ExpectedUpToFixed(defaults, |ks|);
      }
      forall k | k in defaults.vals
        ensures PythonToSqlType(defaults.vals[k]) == Ok(e.vals[k])
      {
        assert k in Elems(ks);
        var i :| 0 <= i < |ks| && ks[i] == k;
        ExpectedUpToTypes(defaults, |ks|, i);
      }
    }
  }



  /** The layout as text: each column's declared type name, which is what
      the comparison with the table on disk sees. */
  function TypeNames(expected: Dict<SqlType>): (r: map<string, string>)
    ensures r.Keys == expected.vals.Keys
    ensures forall k :: k in r ==> r[k] == SqlTypeName(expected.vals[k])
  {
    map k | k in expected.vals :: SqlTypeName(expected.vals[k])
  }

  /** The columns of the recreated table (lines 100-105): the fixed columns,
      then every expected column after the first two, each NOT NULL. */
  function TableDefinition(expected: Dict<SqlType>): seq<Column>
    requires expected.Valid() && |expected.keys| >= 2
  {
    var rest := expected.keys[2..];
    [Column(TimestampColumn, "TEXT", true), Column(IntervalColumn, "INTEGER", true)]
    + seq(|rest|, i requires 0 <= i < |rest| =>
        assert rest[i] in Elems(expected.keys);
        Column(rest[i], SqlTypeName(expected.vals[rest[i]]), true))
  }

  /** `db_path + ".bak." + datetime.now().strftime("%Y%m%d_%H%M%S")`. */
  function BackupName(path: string, now: DateTime): string {
    path + ".bak." + Stamp(now)
  }

  /** One file effect of a confirmed migration. */
  datatype Step = BackupTo(name: string) | RemoveOld | CreateTable(columns: seq<Column>)

  /** What `_ensure_schema` does: return, exit with a status, run file
      effects in order, or raise. */
  datatype Plan = UpToDate | Abort(status: int) | Migrate(steps: seq<Step>) | Invalid(error: Error)

  /** The decision of `_ensure_schema`, from the merged defaults, the files
      on disk, the operator's answer and the clock reading. */
  function SchemaPlan(path: string, defaults: Dict<Value>, files: Files, response: string, now: DateTime): Plan
    requires defaults.Valid()
  {
    match ExpectedLayout(defaults)
    case Err(e) => Invalid(e)
    case Ok(expected) =>
      if TableColumns(files, path) == TypeNames(expected) then UpToDate
      else if !Confirmed(response) then Abort(1)
      else Migrate(MigrationSteps(files, path, BackupName(path, now), TableDefinition(expected)))
  }

  /** A confirmed migration: copy the file to `backup` and remove it when it
      exists (lines 88-96), then create the table (lines 99-106). */
  function MigrationSteps(files: Files, path: string, backup: string, columns: seq<Column>): seq<Step> {
    var copy := if path in files then [BackupTo(backup)] else [];
    var remove := if path in files then [RemoveOld] else [];
    copy + remove + [CreateTable(columns)]
  }

  /** `shutil.copy2`, `os.remove` and `CREATE TABLE` on the abstract files.
      The table is created right after the old file was removed, so in a
      file without a `metrics` table. */
  function ApplyStep(files: Files, path: string, step: Step): Files {
    match step
    case BackupTo(name) => if path in files then files[name := files[path]] else files
    case RemoveOld => files - {path}
    case CreateTable(columns) => files[path := DbFile(Some(Table(columns, [])))]
  }

  function ApplySteps(files: Files, path: string, steps: seq<Step>): Files
    decreases |steps|
  {
    if steps == [] then files else ApplySteps(ApplyStep(files, path, steps[0]), path, steps[1..])
  }

  /** The files after the plan has run; only a migration touches them. */
  function ApplyPlan(files: Files, path: string, plan: Plan): Files {
    if plan.Migrate? then ApplySteps(files, path, plan.steps) else files
  }

  /** When the layout on disk is the expected one, nothing happens. */
  lemma MatchingLayoutIsLeftAlone(path: string, defaults: Dict<Value>, files: Files, response: string, now: DateTime)
    requires defaults.Valid() && ExpectedLayout(defaults).Ok?
    requires TableColumns(files, path) == TypeNames(ExpectedLayout(defaults).value)
    ensures SchemaPlan(path, defaults, files, response, now) == UpToDate
    ensures ApplyPlan(files, path, SchemaPlan(path, defaults, files, response, now)) == files
  {
  }

  /** On a mismatch, any answer other than `y` exits with status 1 before
      any backup, removal or creation. */
  lemma DeclinedMigrationAborts(path: string, defaults: Dict<Value>, files: Files, response: string, now: DateTime)
    requires defaults.Valid() && ExpectedLayout(defaults).Ok?
    requires TableColumns(files, path) != TypeNames(ExpectedLayout(defaults).value)
    ensures SchemaPlan(path, defaults, files, response, now) == Abort(1) <==> !Confirmed(response)
    ensures !Confirmed(response) ==> ApplyPlan(files, path, SchemaPlan(path, defaults, files, response, now)) == files
  {
  }

  /** A confirmed migration backs up the file only if it exists, then
      removes it only if it exists, then always creates the table. */
  lemma MigrationStepOrder(files: Files, path: string, backup: string, columns: seq<Column>)
    ensures var steps := MigrationSteps(files, path, backup, columns);
      && |steps| == (if path in files then 3 else 1)
      && steps[|steps| - 1] == CreateTable(columns)
      && (path in files ==> steps[0] == BackupTo(backup) && steps[1] == RemoveOld)
  {
  }

  /** The steps of a migration, run one after the other. */
  lemma {:induction false} MigrationStepsUnfold(files: Files, path: string, backup: string, columns: seq<Column>)
    requires backup != path
    ensures ApplySteps(files, path, MigrationSteps(files, path, backup, columns)) ==
      (if path in files then files[backup := files[path]] - {path} else files)[path := DbFile(Some(Table(columns, [])))]
  {
    var steps := MigrationSteps(files, path, backup, columns);
    var table := CreateTable(columns);
    if path in files {
      assert steps == [BackupTo(backup), RemoveOld, table];
      var f1 := files[backup := files[path]];
      var f2 := f1 - {path};
      assert ApplySteps(files, path, steps) == ApplySteps(f1, path, [RemoveOld, table]) by {
        assert steps[1..] == [RemoveOld, table];
      }
      assert ApplySteps(f1, path, [RemoveOld, table]) == ApplySteps(f2, path, [table]) by {
        assert [RemoveOld, table][1..] == [table];
      }
      assert ApplySteps(f2, path, [table]) == ApplySteps(f2[path := DbFile(Some(Table(columns, [])))], path, []) by {
        assert [table][1..] == [];
      }
    } else {
      assert steps == [table];
      assert ApplySteps(files, path, steps) == ApplySteps(ApplyStep(files, path, table), path, []) by {
        assert steps[1..] == [];
      }
    }
  }

  /** What the steps of a migration leave on disk: the old file, rows and
      all, under the backup name when it existed; a new file at the path
      whose table has the given columns and no rows; every other file as it
      was. */
  lemma MigrationStepsEffect(files: Files, path: string, backup: string, columns: seq<Column>)
    requires backup != path
    ensures var after := ApplySteps(files, path, MigrationSteps(files, path, backup, columns));
      && path in after && after[path] == DbFile(Some(Table(columns, [])))
      && (path in files ==> backup in after && after[backup] == files[path])
      && forall p :: p != path && (path in files ==> p != backup) ==>
           (p in after <==> p in files) && (p in files ==> after[p] == files[p])
  {
    MigrationStepsUnfold(files, path, backup, columns);
  }

  /** The recreated table's columns are exactly the expected ones, in order,
      each NOT NULL and declared with the expected type. */
  lemma {:induction false} TableDefinitionShape(expected: Dict<SqlType>)
    requires expected.Valid() && |expected.keys| >= 2
    requires expected.keys[..2] == [TimestampColumn, IntervalColumn]
    requires TimestampColumn in expected.vals && expected.vals[TimestampColumn] == TEXT
    requires IntervalColumn in expected.vals && expected.vals[IntervalColumn] == INTEGER
    ensures ColumnNames(TableDefinition(expected)) == expected.keys
    ensures forall i :: 0 <= i < |expected.keys| ==>
      && TableDefinition(expected)[i].notNull
      && TableDefinition(expected)[i].declType == SqlTypeName(expected.vals[expected.keys[i]])
  {
    var cols := TableDefinition(expected);
    assert expected.keys[0] == TimestampColumn && expected.keys[1] == IntervalColumn by {
      assert expected.keys[..2][0] == expected.keys[0] && expected.keys[..2][1] == expected.keys[1];
    }
    forall i | 0 <= i < |expected.keys| ensures ColumnNames(cols)[i] == expected.keys[i] { }
  }

  lemma UpperTypeName(t: SqlType)
    ensures Upper(SqlTypeName(t)) == SqlTypeName(t)
  {
    var s := SqlTypeName(t);
    assert forall i :: 0 <= i < |s| ==> 'A' <= s[i] <= 'Z';
    assert Upper(s) == s;
  }

  /** Reading one column of the recreated table back gives its expected type. */
  lemma TableDefinitionEntry(expected: Dict<SqlType>, i: int)
    requires expected.Valid() && |expected.keys| >= 2
    requires expected.keys[..2] == [TimestampColumn, IntervalColumn]
    requires TimestampColumn in expected.vals && expected.vals[TimestampColumn] == TEXT
    requires IntervalColumn in expected.vals && expected.vals[IntervalColumn] == INTEGER
    requires 0 <= i < |expected.keys|
    ensures expected.keys[i] in expected.vals
    ensures expected.keys[i] in ColumnTypes(TableDefinition(expected))
    ensures ColumnTypes(TableDefinition(expected))[expected.keys[i]] == SqlTypeName(expected.vals[expected.keys[i]])
  {
    var cols := TableDefinition(expected);
    TableDefinitionShape(expected);
    assert expected.keys[i] in Elems(expected.keys);
    assert ColumnNames(cols)[i] == cols[i].name;
    ColumnTypesLookup(cols, i);
    UpperTypeName(expected.vals[expected.keys[i]]);
  }

  /** Reading the recreated table back names exactly the expected columns. */
  lemma TableDefinitionKeys(expected: Dict<SqlType>)
    requires expected.Valid() && |expected.keys| >= 2
    requires expected.keys[..2] == [TimestampColumn, IntervalColumn]
    requires TimestampColumn in expected.vals && expected.vals[TimestampColumn] == TEXT
    requires IntervalColumn in expected.vals && expected.vals[IntervalColumn] == INTEGER
    ensures ColumnTypes(TableDefinition(expected)).Keys == expected.vals.Keys
  {
    TableDefinitionShape(expected);
    ColumnTypesKeys(TableDefinition(expected));
  }

  /** Reading the recreated table back gives the expected layout, provided
      the fixed columns keep their own types. */
  lemma TableDefinitionReadsBack(expected: Dict<SqlType>)
    requires expected.Valid() && |expected.keys| >= 2
    requires expected.keys[..2] == [TimestampColumn, IntervalColumn]
    requires TimestampColumn in expected.vals && expected.vals[TimestampColumn] == TEXT
    requires IntervalColumn in expected.vals && expected.vals[IntervalColumn] == INTEGER
    ensures ColumnTypes(TableDefinition(expected)) == TypeNames(expected)
  {
    var read, want := ColumnTypes(TableDefinition(expected)), TypeNames(expected);
    TableDefinitionKeys(expected);
    forall k | k in want ensures k in read && read[k] == want[k] {
      assert k in Elems(expected.keys);
      var i :| 0 <= i < |expected.keys| && expected.keys[i] == k;
      TableDefinitionEntry(expected, i);
    }
  }

  /** A migration is planned exactly for a valid layout that differs from
      the one on disk and an answer of `y`; it leaves the old file under the
      backup name, the expected table, empty, at the path, and every other
      file as it was. */
  lemma MigrationResult(path: string, defaults: Dict<Value>, files: Files, response: string, now: DateTime)
    requires defaults.Valid()
    ensures SchemaPlan(path, defaults, files, response, now).Migrate? <==>
      && ExpectedLayout(defaults).Ok?
      && TableColumns(files, path) != TypeNames(ExpectedLayout(defaults).value)
      && Confirmed(response)
    ensures SchemaPlan(path, defaults, files, response, now).Migrate? ==>
      var after := ApplyPlan(files, path, SchemaPlan(path, defaults, files, response, now));
      var b := BackupName(path, now);
      && path in after && after[path] == DbFile(Some(Table(TableDefinition(ExpectedLayout(defaults).value), [])))
      && (path in files ==> b in after && after[b] == files[path])
      && forall p :: p != path && (path in files ==> p != b) ==>
           (p in after <==> p in files) && (p in files ==> after[p] == files[p])
  {
    if SchemaPlan(path, defaults, files, response, now).Migrate? {
      var b := BackupName(path, now);
      assert b != path by { assert |b| > |path|; }
      MigrationStepsEffect(files, path, b, TableDefinition(ExpectedLayout(defaults).value));
    }
  }

  /** On a first start there is no database file, but the introspection of
      line 61 creates an empty one before the comparison. The layouts then
      differ, so the operator is always asked, and a confirmed migration
      backs that empty file up before recreating it. */
  lemma FirstStartBacksUpEmptyFile(path: string, defaults: Dict<Value>, files: Files, response: string, now: DateTime)
    requires defaults.Valid() && ExpectedLayout(defaults).Ok? && path !in files
    ensures var plan := SchemaPlan(path, defaults, Connect(files, path), response, now);
      && plan != UpToDate
      && (plan.Migrate? <==> Confirmed(response))
      && (plan.Migrate? ==>
            var after := ApplyPlan(Connect(files, path), path, plan);
            BackupName(path, now) in after && after[BackupName(path, now)] == DbFile(None))
  {
    var connected := Connect(files, path);
    ExpectedLayoutShape(defaults);
    var e := ExpectedLayout(defaults).value;
    assert TimestampColumn in TypeNames(e);
    assert TableColumns(connected, path) != TypeNames(e);
    MigrationResult(path, defaults, connected, response, now);
  }

  /** After a confirmed migration, reconciling again with the same defaults
      does nothing, whatever the answer and the clock say. */
  lemma MigrationIsIdempotent(path: string, defaults: Dict<Value>, files: Files, response: string, now: DateTime,
                              response': string, now': DateTime)
    requires defaults.Valid()
    requires SchemaPlan(path, defaults, files, response, now).Migrate?
    ensures var after := ApplyPlan(files, path, SchemaPlan(path, defaults, files, response, now));
      SchemaPlan(path, defaults, after, response', now') == UpToDate
  {
    MigrationResult(path, defaults, files, response, now);
    ExpectedLayoutShape(defaults);
    var e := ExpectedLayout(defaults).value;
    assert e.keys[..2] == [TimestampColumn, IntervalColumn];
    TableDefinitionReadsBack(e);
  }

  /** A metric named `timestamp` with an integer default, as lines 71-73
      compute it, retypes the fixed column to INTEGER, while lines 101-104
      still create it as TEXT: the recreated table never matches the layout
      it is compared with, so every start asks to migrate again. */
  lemma ReservedNameNeverSettles()
    ensures var defaults := Dict([TimestampColumn], map[TimestampColumn := IntV(0)]);
      && defaults.Valid()
      && ExpectedLayoutAsWritten(defaults).Ok?
      && ExpectedLayoutAsWritten(defaults).value.vals[TimestampColumn] == INTEGER
      && ColumnTypes(TableDefinition(ExpectedLayoutAsWritten(defaults).value)) != TypeNames(ExpectedLayoutAsWritten(defaults).value)
  {
    var defaults := Dict([TimestampColumn], map[TimestampColumn := IntV(0)]);
    assert Elems(defaults.keys) == {TimestampColumn};
    assert ExpectedUpTo(defaults, 0) == Ok(FixedLayout());
    assert PythonToSqlType(IntV(0)) == Ok(INTEGER);
    var e := Put(FixedLayout(), TimestampColumn, INTEGER);
    assert ExpectedUpTo(defaults, 1) == Ok(e);
    assert e.vals[TimestampColumn] == INTEGER;
    assert e.keys == [TimestampColumn, IntervalColumn];
    var cols := TableDefinition(e);
    assert cols == [Column(TimestampColumn, "TEXT", true), Column(IntervalColumn, "INTEGER", true)];
    assert ColumnNames(cols) == [TimestampColumn, IntervalColumn];
    ColumnTypesLookup(cols, 0);
    UpperTypeName(TEXT);
    assert ColumnTypes(cols)[TimestampColumn] == "TEXT";
    assert TypeNames(e)[TimestampColumn] == "INTEGER";
  }

  /** The corrected layout refuses such a metric before storage is touched. */
  lemma ReservedNameRefused(defaults: Dict<Value>, path: string, files: Files, response: string, now: DateTime)
    requires defaults.Valid() && exists k :: k in defaults.vals && IsReserved(k)
    ensures SchemaPlan(path, defaults, files, response, now).Invalid?
    ensures SchemaPlan(path, defaults, files, response, now).error.ReservedColumn?
    ensures ApplyPlan(files, path, SchemaPlan(path, defaults, files, response, now)) == files
  {
  }
}
