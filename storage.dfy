/** The SQLite side of the data store as abstract state: the files on disk
    by path and, in each database file, the `metrics` table if it has one.
    Column introspection, INSERT and the table layout are stated here; the
    SQL text itself is not modelled. */
module Storage {
  import opened Basics
  import opened Values

  /** A column as PRAGMA table_info reports it: name, declared type, NOT NULL. */
  datatype Column = Column(name: string, declType: string, notNull: bool)

  /** One inserted row: the column names it lists and the values, in the same order. */
  datatype Row = Row(names: seq<string>, values: seq<Value>)

  datatype Table = Table(columns: seq<Column>, rows: seq<Row>)

  /** A database file; only its `metrics` table matters to the data store. */
  datatype DbFile = DbFile(metrics: Option<Table>)

  /** The file system: which paths hold a file, and what is in it. */
  type Files = map<string, DbFile>

  function UpperChar(c: char): char {
    if 'a' <= c <= 'z' then (c as int - 32) as char else c
  }

  /** `str.upper()` on ASCII letters. */
  function Upper(s: string): (r: string)
    ensures |r| == |s|
  {
    seq(|s|, i requires 0 <= i < |s| => UpperChar(s[i]))
  }

  function ColumnNames(columns: seq<Column>): (r: seq<string>)
    ensures |r| == |columns|
    ensures forall i :: 0 <= i < |columns| ==> r[i] == columns[i].name
  {
    seq(|columns|, i requires 0 <= i < |columns| => columns[i].name)
  }

  /** The dict comprehension over PRAGMA table_info: column name to its
      upper-cased declared type, a later row overriding an earlier one. */
  function ColumnTypes(columns: seq<Column>): map<string, string>
    decreases |columns|
  {
    if columns == [] then map[]
    else
      var last := columns[|columns| - 1];
      ColumnTypes(columns[..|columns| - 1])[last.name := Upper(last.declType)]
  }

  /** `_get_table_columns`: the layout of the `metrics` table, or the empty
      mapping when the file or the table is missing. */
  function TableColumns(files: Files, path: string): map<string, string> {
    if path in files && files[path].metrics.Some? then ColumnTypes(files[path].metrics.value.columns)
    else map[]
  }

  /** `sqlite3.connect(path)`: opening a database that does not exist
      creates an empty file, which has no table to introspect. */
  function Connect(files: Files, path: string): (r: Files)
    ensures path in r && TableColumns(r, path) == TableColumns(files, path)
    ensures path in files ==> r == files
    ensures path !in files ==> r[path] == DbFile(None)
    ensures forall p :: p != path ==> (p in r <==> p in files) && (p in files ==> r[p] == files[p])
  {
    if path in files then files else files[path := DbFile(None)]
  }

  /** The introspected layout names exactly the table's columns. */
  lemma {:induction false} ColumnTypesKeys(columns: seq<Column>)
    ensures ColumnTypes(columns).Keys == Elems(ColumnNames(columns))
    decreases |columns|
  {
    if columns != [] {
      var init := columns[..|columns| - 1];
      ColumnTypesKeys(init);
      assert ColumnNames(columns) == ColumnNames(init) + [columns[|columns| - 1].name];
    }
  }

  /** Without repeated names, each column's introspected type is its declared
      type upper-cased. */
  lemma {:induction false} ColumnTypesLookup(columns: seq<Column>, i: int)
    requires Distinct(ColumnNames(columns)) && 0 <= i < |columns|
    ensures columns[i].name in ColumnTypes(columns)
    ensures ColumnTypes(columns)[columns[i].name] == Upper(columns[i].declType)
    decreases |columns|
  {
    var n := |columns|;
    if i < n - 1 {
      var init := columns[..n - 1];
      assert ColumnNames(init) == ColumnNames(columns)[..n - 1];
      assert columns[n - 1].name != columns[i].name by {
        assert ColumnNames(columns)[i] == columns[i].name;
        assert ColumnNames(columns)[n - 1] == columns[n - 1].name;
      }
      assert init[i] == columns[i];
      ColumnTypesLookup(init, i);
    }
  }

  /** SQLite accepts an INSERT that lists existing columns only, one value per
      listed column, and leaves no NOT NULL column without a value. */
  predicate Accepts(columns: seq<Column>, row: Row) {
    && |row.names| == |row.values|
    && (forall n :: n in row.names ==> n in ColumnNames(columns))
    && (forall i :: 0 <= i < |columns| && columns[i].notNull ==> columns[i].name in row.names)
  }

  /** `INSERT INTO metrics (...) VALUES (...)` followed by a commit. */
  function Insert(files: Files, path: string, row: Row): (r: Result<Files, Error>)
    ensures r.Ok? <==> path in files && files[path].metrics.Some? && Accepts(files[path].metrics.value.columns, row)
    ensures r.Ok? ==>
      var t := files[path].metrics.value;
      r.value == files[path := DbFile(Some(Table(t.columns, t.rows + [row])))]
  {
    if path !in files || files[path].metrics.None? then Err(NoSuchTable)
    else
      var t := files[path].metrics.value;
      if !Accepts(t.columns, row) then Err(ColumnMismatch)
      else Ok(files[path := DbFile(Some(Table(t.columns, t.rows + [row])))])
  }
}
