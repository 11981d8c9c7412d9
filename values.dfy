/** Python runtime values as they appear as metric defaults and as current
    metric values, and the two case analyses the data store applies to them:
    the SQLite column type chosen for a default and the value handed to
    SQLite for a metric. */
module Values {
  import opened Basics

  /** A Python object, by its class. An instance of a subclass of one of the
      built-in classes below is carried by that class's variant: every test
      the core applies is an `isinstance` test, and json.dumps encodes such
      an instance as it encodes the base class. Floats are carried by their
      text only: nothing here does float arithmetic. */
  datatype Value =
    | IntV(i: int)
    | BoolV(b: bool)
    | FloatV(repr: string)
    | StrV(s: string)
    | ListV(items: seq<Value>)
    | TupleV(items: seq<Value>)
    | DictV(entries: seq<(Value, Value)>)
    | SetV(elems: seq<Value>)
    | NoneV
    | OtherV(className: string)

  /** The declared column types the data store can produce. */
  datatype SqlType = INTEGER | BOOLEAN | TEXT

  function SqlTypeName(t: SqlType): string {
    match t
    case INTEGER => "INTEGER"
    case BOOLEAN => "BOOLEAN"
    case TEXT => "TEXT"
  }

  /** The exceptions the core raises, and the failures of the storage layer. */
  datatype Error =
    | UnsupportedMetricType(value: Value)   // TypeError of the type mapping
    | CannotSerialize(value: Value)         // TypeError of the serializer
    | NotJsonSerializable(value: Value)     // TypeError raised by json.dumps
    | MissingMetric(key: string)            // KeyError on the metrics mapping
    | ReservedColumn(key: string)           // a metric named like a fixed column
    | NoSuchTable                           // INSERT into a file without the table
    | ColumnMismatch                        // INSERT whose columns do not fit the table

  // isinstance tests. bool is a subclass of int in Python, so a bool passes
  // the int test.
  predicate IsInstanceInt(v: Value) { v.IntV? || v.BoolV? }
  predicate IsInstanceFloat(v: Value) { v.FloatV? }
  predicate IsInstanceBool(v: Value) { v.BoolV? }
  predicate IsInstanceStr(v: Value) { v.StrV? }
  predicate IsInstanceContainer(v: Value) { v.ListV? || v.DictV? || v.SetV? }

  /** The values that reach SQLite unchanged. */
  predicate IsScalar(v: Value) { v.IntV? || v.BoolV? || v.FloatV? || v.StrV? }

  /** The column type for a metric default. Because the int/float test comes
      before the bool test and bool is an int, BOOLEAN is never chosen. */
  function PythonToSqlType(v: Value): (r: Result<SqlType, Error>)
    ensures r == Ok(INTEGER) <==> v.IntV? || v.BoolV? || v.FloatV?
    ensures r == Ok(TEXT) <==> v.StrV? || v.ListV? || v.DictV? || v.SetV?
    ensures r != Ok(BOOLEAN)
    ensures r.Err? <==> v.NoneV? || v.TupleV? || v.OtherV?
    ensures r.Err? ==> r.error == UnsupportedMetricType(v)
  {
    if IsInstanceInt(v) || IsInstanceFloat(v) then Ok(INTEGER)
    else if IsInstanceBool(v) then Ok(BOOLEAN)
    else if IsInstanceStr(v) then Ok(TEXT)
    else if IsInstanceContainer(v) then Ok(TEXT)
    else Err(UnsupportedMetricType(v))
  }

  /** A key json.dumps accepts in a mapping. */
  predicate IsJsonKey(v: Value) {
    v.IntV? || v.BoolV? || v.FloatV? || v.StrV? || v.NoneV?
  }

  /** Whether json.dumps accepts the value: a tuple is encoded as an array
      like a list, JSON has no set type, and objects of any class the
      encoder does not know are refused. */
  predicate JsonEncodable(v: Value) {
    match v
    case ListV(items) => forall i :: 0 <= i < |items| ==> JsonEncodable(items[i])
    case TupleV(items) => forall i :: 0 <= i < |items| ==> JsonEncodable(items[i])
    case DictV(entries) =>
      forall i :: 0 <= i < |entries| ==> IsJsonKey(entries[i].0) && JsonEncodable(entries[i].1)
    case SetV(_) => false
    case OtherV(_) => false
    case _ => true
  }

  /** The value handed to SQLite for a metric. `enc` stands for the compact
      json.dumps encoding of a list, dict or set. */
  function SerializeValue(v: Value, enc: Value -> string): (r: Result<Value, Error>)
    ensures IsScalar(v) ==> r == Ok(v)
    ensures IsInstanceContainer(v) && JsonEncodable(v) ==> r == Ok(StrV(enc(v)))
    ensures r.Ok? ==> IsScalar(r.value)
    ensures r.Err? <==> v.NoneV? || v.TupleV? || v.OtherV? || v.SetV? || (IsInstanceContainer(v) && !JsonEncodable(v))
  {
    if IsInstanceContainer(v) then
      if JsonEncodable(v) then Ok(StrV(enc(v))) else Err(NotJsonSerializable(v))
    else if IsInstanceInt(v) || IsInstanceFloat(v) || IsInstanceBool(v) || IsInstanceStr(v) then
      Ok(v)
    else
      Err(CannotSerialize(v))
  }

  /** A tuple is not one of the default types, but json.dumps encodes a
      tuple inside a list as a nested array, so such a metric is stored. */
  lemma NestedTupleIsStored(enc: Value -> string)
    ensures PythonToSqlType(TupleV([IntV(1), IntV(2)])).Err?
    ensures SerializeValue(TupleV([IntV(1), IntV(2)]), enc).Err?
    ensures SerializeValue(ListV([TupleV([IntV(1), IntV(2)])]), enc) == Ok(StrV(enc(ListV([TupleV([IntV(1), IntV(2)])]))))
  {
    var t := TupleV([IntV(1), IntV(2)]);
    assert JsonEncodable(t) by {
      assert JsonEncodable(t.items[0]) && JsonEncodable(t.items[1]);
    }
    assert JsonEncodable(ListV([t])) by {
      assert [t][0] == t;
    }
  }
}
