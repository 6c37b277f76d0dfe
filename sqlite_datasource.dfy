/** The data source backed by the embedded SQL engine: the operations that
    synthesise a statement, bind its values by position, hand both to the
    engine, and map what comes back into the layer's own types.

    The engine itself is not modelled: a `Connection` is what the adapter can
    observe of it, given as two functions of the statement text and the bound
    values. */
module SqliteDataSource {
  import opened Def
  import opened SqlText
  import opened SqliteValue
  import opened SqliteSql

  /** What the first step of a prepared statement reports: an engine error
      (from preparing, resetting, binding or stepping), a result row, or
      completion together with the connection's change count. */
  datatype Step =
    | Fault(message: string)
    | RowAvailable
    | Done(changes: nat)

  /** One row as the cursor yields it: a cell per column name, or an error. */
  datatype RowRead =
    | RowOk(cell: string -> SqlValue)
    | RowErr(message: string)

  /** What preparing and binding a query yields: an engine error, or the
      statement's column names and the rows it produces, in order. */
  datatype Fetch =
    | FetchFailed(message: string)
    | Cursor(columns: seq<string>, rows: seq<RowRead>)

  /** The engine as the adapter sees it through its one connection. */
  datatype Connection = Connection(
    run: (string, seq<SqlValue>) -> Step,
    fetch: (string, seq<SqlValue>) -> Fetch)

  /** The result of an insert or update from the first step of its
      statement: the change count when the statement is done, the engine's
      error as a `DB` error, and otherwise a `DB` error with the operation's
      own cause. There is no second step and no retry. */
  function Completion(step: Step, failure: string): (r: Result<nat>)
    ensures r.Ok? <==> step.Done?
    ensures r.Ok? ==> r.value == step.changes
    ensures r.Err? ==> r.error.DB?
    ensures step.RowAvailable? ==> r == Err(DB(failure))
    ensures step.Fault? ==> r == Err(DB(step.message))
  {
    match step
    case Fault(m) => Err(DB(m))
    case RowAvailable => Err(DB(failure))
    case Done(n) => Ok(n)
  }

  /** The row map of one row read: every column name mapped to its cell, or
      nothing at all when the engine reported the row as an error. */
  function Materialise(columns: seq<string>, read: RowRead): (m: Row)
    ensures forall name :: name in m <==> read.RowOk? && name in columns
    ensures read.RowOk? ==> forall name :: name in m ==> m[name] == FromSqlite(read.cell(name))
  {
    if read.RowOk? then map name | name in columns :: FromSqlite(read.cell(name)) else map[]
  }

  class SqliteDataSource {
    const connection: Connection

    constructor (connection: Connection)
      ensures this.connection == connection
    {
      this.connection := connection;
    }

    /** Binds `params` by position to the statement, runs it, and turns every
        row into a map from column name to value. */
    method Query(statement: string, params: seq<Value>) returns (r: Result<seq<Row>>)
      ensures match connection.fetch(statement, BindAll(params))
              case FetchFailed(m) => r == Err(DB(m))
              case Cursor(columns, rows) =>
                && r.Ok? && |r.value| == |rows|
                && forall i :: 0 <= i < |rows| ==> r.value[i] == Materialise(columns, rows[i])
    {
      var result := connection.fetch(statement, BindAll(params));
      if result.FetchFailed? {
        return Err(DB(result.message));
      }
      var columnNames := result.columns;
      var vec: seq<Row> := [];
      for i := 0 to |result.rows|
        invariant |vec| == i
        invariant forall k :: 0 <= k < i ==> vec[k] == Materialise(columnNames, result.rows[k])
      {
        var m := MaterialiseRow(columnNames, result.rows[i]);
        vec := vec + [m];
      }
      r := Ok(vec);
    }

    /** Inserts one row: `INSERT INTO table (f1,…,fn) VALUES (?,…,?)`, with
        the values bound in the order the pairs are supplied. */
    method Insert(table: string, item: seq<(string, Value)>) returns (r: Result<nat>)
      ensures r == Completion(connection.run(InsertText(table, Names(item)), BindAll(Payloads(item))),
                              "insert failed")
    {
      var namesPart := "";
      var valuesPart := "";
      var valuesList: seq<Value> := [];
      var first := true;
      NamesAndPayloadsAt(item);
      for i := 0 to |item|
        invariant first <==> i == 0
        invariant namesPart == Join(",", Names(item)[..i])
        invariant valuesPart == Join(",", Marks(|item|)[..i])
        invariant valuesList == Payloads(item)[..i]
      {
        var (field, value) := item[i];
        JoinStep(",", Names(item), i);
        JoinStep(",", Marks(|item|), i);
        assert Payloads(item)[..i + 1] == Payloads(item)[..i] + [value];
        valuesList := valuesList + [value];
        if !first {
          namesPart := namesPart + ",";
          valuesPart := valuesPart + ",";
        }
        namesPart := namesPart + field;
        valuesPart := valuesPart + "?";
        first := false;
      }
      assert Names(item)[..|item|] == Names(item);
      assert Marks(|item|)[..|item|] == Marks(|item|);
      assert Payloads(item)[..|item|] == Payloads(item);
      var sql := "INSERT INTO " + table + " (" + namesPart + ") VALUES (" + valuesPart + ")";
      var step := connection.run(sql, BindAll(valuesList));
      r := Completion(step, "insert failed");
    }

    /** Updates the rows matching every condition:
        `UPDATE table SET f1=?,… WHERE c1 AND c2 …`, binding the set values
        first and then the condition values, condition by condition. With no
        condition the text ends in `WHERE `, as the source builds it. */
    method Update(table: string, sets: seq<(string, Value)>, conditions: seq<FieldCondition>)
      returns (r: Result<nat>)
      ensures r == Completion(connection.run(UpdateText(table, Names(sets), conditions),
                                             BindAll(UpdateValues(sets, conditions))),
                              "update failed")
    {
      var setPart, setValues := SetList(sets);
      var conditionPart, conditionValues := ConditionList(conditions);
      var valueList := setValues + conditionValues;
      var sql := "UPDATE " + table + " SET " + setPart + " WHERE " + conditionPart;
      var step := connection.run(sql, BindAll(valueList));
      r := Completion(step, "update failed");
    }
  }

  /** The `SET` list of an update, `f1=?,f2=?,…`, and the values it binds,
      built one pair at a time. */
  method SetList(sets: seq<(string, Value)>) returns (setPart: string, valueList: seq<Value>)
    ensures setPart == Join(",", SetFragments(Names(sets)))
    ensures valueList == Payloads(sets)
  {
    setPart := "";
    valueList := [];
    var first := true;
    NamesAndPayloadsAt(sets);
    SetFragmentsAt(Names(sets));
    for i := 0 to |sets|
      invariant first <==> i == 0
      invariant setPart == Join(",", SetFragments(Names(sets))[..i])
      invariant valueList == Payloads(sets)[..i]
    {
      var (field, value) := sets[i];
      JoinStep(",", SetFragments(Names(sets)), i);
      assert Payloads(sets)[..i + 1] == Payloads(sets)[..i] + [value];
      valueList := valueList + [value];
      if !first {
        setPart := setPart + ",";
      }
      ConcatAssoc(setPart, field, "=?");
      setPart := setPart + field;
      setPart := setPart + "=?";
      first := false;
    }
    assert SetFragments(Names(sets))[..|sets|] == SetFragments(Names(sets));
    assert Payloads(sets)[..|sets|] == Payloads(sets);
  }

  /** The `WHERE` list of an update, the condition texts joined by `AND`, and
      the values the conditions bind, condition by condition. */
  method ConditionList(conditions: seq<FieldCondition>) returns (conditionPart: string, valueList: seq<Value>)
    ensures conditionPart == Join(" AND ", ConditionTexts(conditions))
    ensures valueList == ConditionValues(conditions)
  {
    conditionPart := "";
    valueList := [];
    var first := true;
    ConditionTextsAt(conditions);
    for j := 0 to |conditions|
      invariant first <==> j == 0
      invariant conditionPart == Join(" AND ", ConditionTexts(conditions)[..j])
      invariant valueList == ConditionValues(conditions[..j])
    {
      var (field, values) := ConvertCondition(conditions[j]);
      JoinStep(" AND ", ConditionTexts(conditions), j);
      ConditionValuesStep(conditions, j);
      valueList := valueList + values;
      if !first {
        conditionPart := conditionPart + " AND ";
      }
      conditionPart := conditionPart + field;
      first := false;
    }
    assert ConditionTexts(conditions)[..|conditions|] == ConditionTexts(conditions);
    assert conditions[..|conditions|] == conditions;
  }

  /** The map of one row, filled one column at a time. */
  method MaterialiseRow(columns: seq<string>, read: RowRead) returns (m: Row)
    ensures m == Materialise(columns, read)
  {
    m := map[];
    if read.RowOk? {
      for j := 0 to |columns|
        invariant m == map name | name in columns[..j] :: FromSqlite(read.cell(name))
      {
        var name := columns[j];
        assert columns[..j + 1] == columns[..j] + [name];
        m := m[name := FromSqlite(read.cell(name))];
      }
      assert columns[..|columns|] == columns;
    }
  }
}
