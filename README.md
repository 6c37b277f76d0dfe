# SQLite data source of vita-config, modelled in Dafny

vita-config serves data described by configuration, and its data-source layer stands between
the services and a storage engine. This project models the SQLite adapter of that layer and the
two datatypes it works on:

- `Def` (def.dfy): the closed `Value` union (Binary, Float, Integer, String, Null, with Null as
  the default), the seven-variant `FieldCondition` predicate algebra, the error kinds and the
  result shapes of `query`, `insert` and `update`.
- `SqliteValue` (sqlite_value.dfy): the engine's own value type. It covers the mapping from an
  engine value into a `Value`, the mapping used to bind a `Value` as an engine value, the
  primitive conversions into `Value`, and binding a list of values by position.
- `SqlText` (sql_text.dfy): joining fragments with a separator, and counting `?` placeholders.
- `SqliteSql` (sqlite_sql.dfy): `convert_condition` as a WHERE fragment plus its values. It also
  holds the INSERT and UPDATE texts and bind lists as functions of the table, the field names
  and the conditions.
- `SqliteDataSource` (sqlite_datasource.dfy): the `SqliteDataSource` class, whose one field is
  the connection. `Insert` and `Update` build their statement text and bind list step by step,
  with the `first` flag. `Query` turns every row into a column-name to `Value` map.

The engine is not modelled. A `Connection` is what the adapter can observe of it:
- `run` maps a statement text and its bound values to the first step of that statement. The step
  is an engine error, a row, or completion with the connection's change count.
- `fetch` maps a query and its bound values to an engine error, or to the column names and the
  rows read, each row being either readable or an error.

Every method is proved against these observations and against the text and bind-list functions
of `SqliteSql`. The properties proved about those functions are:
- one placeholder per bound value;
- values bound in the order supplied, set values before condition values;
- statement text that depends on identifiers and condition kinds only, never on a value;
- a value mapping that round-trips in both directions.

## Model

| member | source | states |
|---|---|---|
| Def.Default | src/datasource/def.rs:50-51 | the default value is `Null`, the fifth variant |
| Def.Variant | src/datasource/def.rs:40-52 | every value has one of five variant positions |
| Def.FiveVariants | src/datasource/def.rs:40-52 | each of the five positions is taken by some value, so there are exactly five variants |
| Def.DerivedEqIsEquality | src/datasource/def.rs:39 | the derived comparison (same variant, equal payloads) holds exactly when the values are equal |
| Def.OperandCount | src/datasource/def.rs:29-37 | a comparison carries one value, a null test none, and `Between` two, left bound first |
| SqliteValue.FromSqlite | src/datasource/sqlite/datasource.rs:8-18 | reading an engine value keeps its variant |
| SqliteValue.ToSqlite | src/datasource/sqlite/datasource.rs:56-62 | the engine value a `Value` is bound as reads back as that same `Value` |
| SqliteValue.BindThenRead | src/datasource/sqlite/datasource.rs:56-62 | binding then reading gives back the same variant and payload, for all five variants |
| SqliteValue.ReadThenBind | src/datasource/sqlite/datasource.rs:8-18 | reading then binding gives back the same engine value, so the two mappings are inverse |
| SqliteValue.BindInjective | src/datasource/sqlite/datasource.rs:56-62 | two values are bound as the same engine value exactly when they are equal |
| SqliteValue.DefaultBindsNull | src/datasource/sqlite/datasource.rs:61 | the default value is bound as the engine's null |
| SqliteValue.BindAll | src/datasource/sqlite/datasource.rs:133 | a bound list has one engine value per value, in the same position |
| SqliteValue.BindAllRecoverable | src/datasource/sqlite/datasource.rs:133 | every bound value reads back unchanged at its position |
| SqliteValue.FromBytes | src/datasource/sqlite/datasource.rs:20-24 | a byte vector becomes a value that binds as the engine's blob of those bytes |
| SqliteValue.FromFloat | src/datasource/sqlite/datasource.rs:26-30 | a float becomes a value that binds as the engine's float with that payload |
| SqliteValue.FromInteger | src/datasource/sqlite/datasource.rs:32-36 | an integer becomes a value that binds as the engine's integer |
| SqliteValue.FromString | src/datasource/sqlite/datasource.rs:38-48 | an owned or borrowed string becomes a value that binds as the engine's text |
| SqliteSql.ConvertCondition | src/datasource/sqlite/datasource.rs:190-202 | the values to bind are the condition's own values in declaration order, and the fragment starts with the field name |
| SqliteSql.FragmentPlaceholders | src/datasource/sqlite/datasource.rs:190-202 | a fragment holds one `?` per value it binds, besides any in the field name |
| SqliteSql.OneMark | src/datasource/sqlite/datasource.rs:192-195 | the four one-value comparisons add exactly one `?` |
| SqliteSql.NoMark | src/datasource/sqlite/datasource.rs:196-197 | `IS NOT NULL` and `IS NULL` add no `?` |
| SqliteSql.BetweenMarks | src/datasource/sqlite/datasource.rs:198-200 | `BETWEEN ? AND ?` adds exactly two `?` |
| SqliteSql.ConditionPlaceholders | src/datasource/sqlite/datasource.rs:190-202 | with a `?`-free field, a fragment's `?` count is 1, 0 or 2 according to its kind |
| SqliteSql.ConditionTextIgnoresValues | src/datasource/sqlite/datasource.rs:190-202 | two conditions with the same field and kind give the same fragment, whatever their values |
| SqliteSql.FragmentShape | src/datasource/sqlite/datasource.rs:192-199 | every fragment is its field name followed by the comparison of its kind |
| SqliteSql.OperatorInjective | src/datasource/sqlite/datasource.rs:192-199 | the seven comparisons are pairwise different texts |
| SqliteSql.ConditionTextDeterminesKind | src/datasource/sqlite/datasource.rs:190-202 | over the same field, equal fragments come from the same kind of condition, so a fragment is never ambiguous about its predicate |
| SqliteSql.NamesAndPayloadsAt | src/datasource/sqlite/datasource.rs:115-116 | the i-th name and the i-th bound value are those of the i-th supplied pair |
| SqliteSql.InsertText | src/datasource/sqlite/datasource.rs:125-130 | the INSERT text `Insert` is proved to run, built from the table and the field names only; `InsertPlaceholders`, `InsertTextIgnoresValues` and `InsertExample` are proved about it |
| SqliteSql.UpdateText | src/datasource/sqlite/datasource.rs:172-177 | the UPDATE text `Update` is proved to run, built from the table, the set names and the condition fragments only; `UpdatePlaceholders`, `UpdateTextIgnoresValues` and `UpdateWithoutConditions` are proved about it |
| SqliteSql.ConditionValues | src/datasource/sqlite/datasource.rs:163-165 | the condition part of the bind list `Update` is proved to bind: at most two values per condition, laid out condition by condition |
| SqliteSql.UpdateValues | src/datasource/sqlite/datasource.rs:152-171 | an UPDATE binds one value per set pair plus every condition value |
| SqliteSql.SetFragmentsAt | src/datasource/sqlite/datasource.rs:157-158 | the i-th assignment is the i-th field name followed by `=?` |
| SqliteSql.ConditionTextsAt | src/datasource/sqlite/datasource.rs:163-169 | the j-th WHERE fragment is `convert_condition` of the j-th condition |
| SqliteSql.ConditionValuesSnoc | src/datasource/sqlite/datasource.rs:163-165 | the condition values are laid out condition by condition, each condition's values in its own order |
| SqliteSql.InsertPlaceholders | src/datasource/sqlite/datasource.rs:115-130 | with `?`-free identifiers, an INSERT holds exactly one `?` per supplied pair, as many as it binds |
| SqliteSql.AssignmentsPlaceholders | src/datasource/sqlite/datasource.rs:152-160 | with `?`-free names, the SET list holds one `?` per assignment |
| SqliteSql.FiltersPlaceholders | src/datasource/sqlite/datasource.rs:162-171 | with `?`-free fields, the WHERE list holds one `?` per condition value |
| SqliteSql.UpdateHeadPlaceholders | src/datasource/sqlite/datasource.rs:172-177 | the UPDATE keywords and a `?`-free table add no `?` to the SET list |
| SqliteSql.UpdatePlaceholders | src/datasource/sqlite/datasource.rs:152-180 | with `?`-free identifiers, an UPDATE holds exactly as many `?` as values it binds |
| SqliteSql.ConditionTextsIgnoreValues | src/datasource/sqlite/datasource.rs:162-171 | condition lists with the same fields and kinds give the same WHERE fragments |
| SqliteSql.SameNames | src/datasource/sqlite/datasource.rs:115-121 | pairs with the same field names, position by position, give the same name list, whatever values they carry |
| SqliteSql.InsertTextIgnoresValues | src/datasource/sqlite/datasource.rs:125-130 | two rows with the same field names, position by position, give the same INSERT text, whatever values they carry; `Insert` passes only the names to the text |
| SqliteSql.UpdateTextIgnoresValues | src/datasource/sqlite/datasource.rs:172-177 | set pairs with the same field names, position by position, and conditions with the same fields and kinds give the same UPDATE text, whatever values they carry |
| SqliteSql.UpdateWithoutConditions | src/datasource/sqlite/datasource.rs:172-177 | with no condition the UPDATE text ends in `WHERE ` with nothing after it |
| SqliteSql.InsertExample | src/datasource/sqlite/datasource.rs:125-130 | two pairs give `INSERT INTO t_test_01 (ID,F_COUNT) VALUES (?,?)` and bind the two values in order |
| SqliteSql.UpdateExample | src/datasource/sqlite/datasource.rs:172-177 | one set and one `Equal` give `UPDATE t_test_01 SET F_UNIT_PRICE=? WHERE F_COUNT = ?` and bind the set value first |
| SqlText.Join | src/datasource/sqlite/datasource.rs:117-121 | the join the `first`-flag loops build (also at lines 154-159 and 166-170): parts with the separator between consecutive ones; `JoinEnds` and `JoinPlaceholders` are proved about it |
| SqlText.Marks | src/datasource/sqlite/datasource.rs:122 | the placeholder list of an INSERT: one `?` fragment per supplied pair |
| SqlText.JoinEnds | src/datasource/sqlite/datasource.rs:117-123 | a list joined under the `first` flag starts with its first part and ends with its last, so it has no leading or trailing separator |
| SqlText.JoinPlaceholders | src/datasource/sqlite/datasource.rs:117-121 | joining with a `?`-free separator neither adds nor loses a `?` |
| SqlText.MarksPlaceholders | src/datasource/sqlite/datasource.rs:122 | n placeholder fragments hold n `?` in all |
| SqlText.MarksShape | src/datasource/sqlite/datasource.rs:119-122 | the VALUES list of n pairs reads `?,?,…,?`, `2n-1` characters with `?` at even positions |
| SqliteDataSource.Completion | src/datasource/sqlite/datasource.rs:134-139 | the change count is returned exactly when the first step is done; an engine error and a row both give a `DB` error, the latter with the operation's own cause |
| SqliteDataSource.Materialise | src/datasource/sqlite/datasource.rs:96-105 | a readable row maps exactly the statement's column names to their cells; a row read as an error gives the empty map |
| SqliteDataSource.MaterialiseRow | src/datasource/sqlite/datasource.rs:97-104 | filling the map one column at a time gives the row map |
| SqliteDataSource.SqliteDataSource.constructor | src/datasource/sqlite/datasource.rs:67-69 | the data source holds the connection it is given |
| SqliteDataSource.SqliteDataSource.Query | src/datasource/sqlite/datasource.rs:84-108 | an engine error is returned as a `DB` error; otherwise there is one row map per row read, in order |
| SqliteDataSource.SqliteDataSource.Insert | src/datasource/sqlite/datasource.rs:110-140 | the statement run is the INSERT text of the pairs' names, bound with the pairs' values in order, and the result is the completion of its first step |
| SqliteDataSource.SqliteDataSource.Update | src/datasource/sqlite/datasource.rs:142-187 | the statement run is the UPDATE text of the set names and conditions, bound with the set values then the condition values, and the result is the completion of its first step |
| SqliteDataSource.SetList | src/datasource/sqlite/datasource.rs:152-160 | the loop over the set pairs builds the comma-joined `name=?` list and the set values in order |
| SqliteDataSource.ConditionList | src/datasource/sqlite/datasource.rs:162-171 | the loop over the conditions builds the `AND`-joined fragments and the condition values in order |

## Left out

- The SQLite engine is a foreign library and is only observed through `Connection`. This covers opening, preparing, resetting, binding, stepping, the change count, and SQL parsing and execution.
- `connect` and `command` are left out. Each passes its argument straight to the engine and adds no logic of its own.
- Engine state across calls is not modelled. `run` and `fetch` are functions of the statement and the bound values. The change count is the one reported with the statement's completion, not the connection-wide counter of the last statement.
- Prepare, reset, bind and step errors are one engine fault. They surface as a `DB` error carrying the engine's message, which is what the `?` conversion of an engine error produces.
- `Value::Float` is kept as an opaque 64-bit pattern. No floating-point operation is modelled. Under the derived comparison NaN is unequal to itself and `0.0` equals `-0.0`; the model compares bit patterns, so it has neither behaviour.
- The change count is an unbounded `nat`. The `usize` bound is not modelled.
- The `IO` error variant and the display texts of the errors are not modelled. The layer never produces `IO`, and converting the literal causes "insert failed" and "update failed" cannot fail.
- The configuration loading, the HTTP server, the parameter conversion (which is unimplemented in the source) and the adapter's module wiring are outside this model.
- ConditionPlaceholders, InsertPlaceholders, UpdatePlaceholders, AssignmentsPlaceholders and FiltersPlaceholders assume table and field names that contain no `?`. The source splices identifiers into the text unchecked and trusts them to come from configuration.
- Update: with no condition it runs the text ending in `WHERE `, as the source builds it (see UpdateWithoutConditions). Whether the engine rejects that text is up to the engine.
- Query: the source maps the cursor with an iterator and collects the result. The model walks the rows read in a loop, and the order of the rows is kept.
