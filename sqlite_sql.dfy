/** The SQL text the adapter synthesises: one WHERE fragment per condition,
    the INSERT and UPDATE statements, and the ordered lists of values bound to
    their placeholders. Values never enter the text; identifiers (table and
    field names) do, and are trusted to come from configuration. */
module SqliteSql {
  import opened Def
  import opened SqlText

  /** One condition as a WHERE fragment with `?` placeholders, and the values
      to bind to them. */
  function ConvertCondition(c: FieldCondition): (r: (string, seq<Value>))
    ensures r.1 == c.Operands()
    ensures |r.0| > |c.field| && r.0[..|c.field|] == c.field
  {
    match c
    case Equal(f, v) => (f + " = ?", [v])
    case NotEqual(f, v) => (f + " != ?", [v])
    case GraterThan(f, v) => (f + " > ?", [v])
    case LessThan(f, v) => (f + " < ?", [v])
    case NotNull(f) => (f + " IS NOT NULL", [])
    case IsNull(f) => (f + " IS NULL", [])
    case Between(f, lo, hi) => (f + " BETWEEN ? AND ?", [lo, hi])
  }

  /** A fragment holds one placeholder per value it binds, besides any the
      field name itself holds. */
  lemma FragmentPlaceholders(c: FieldCondition)
    ensures Placeholders(ConvertCondition(c).0) == Placeholders(c.field) + |ConvertCondition(c).1|
  {
    match c
    case Equal(f, v) => OneMark(f, " = ?");
    case NotEqual(f, v) => OneMark(f, " != ?");
    case GraterThan(f, v) => OneMark(f, " > ?");
    case LessThan(f, v) => OneMark(f, " < ?");
    case NotNull(f) => NoMark(f, " IS NOT NULL");
    case IsNull(f) => NoMark(f, " IS NULL");
    case Between(f, lo, hi) => BetweenMarks(f);
  }

  /** The operator part of a one-value comparison holds one placeholder. */
  lemma OneMark(field: string, op: string)
    requires op in {" = ?", " != ?", " > ?", " < ?"}
    ensures Placeholders(field + op) == Placeholders(field) + 1
  {
    PlaceholdersAppend(field, op);
    if op == " = ?" { assert Placeholders(" = ?") == 1; }
    else if op == " != ?" { assert Placeholders(" != ?") == 1; }
    else if op == " > ?" { assert Placeholders(" > ?") == 1; }
    else { assert Placeholders(" < ?") == 1; }
  }

  /** The null tests hold no placeholder. */
  lemma NoMark(field: string, op: string)
    requires op == " IS NOT NULL" || op == " IS NULL"
    ensures Placeholders(field + op) == Placeholders(field)
  {
    assert '?' !in op;
    AppendFree(field, op);
  }

  /** The range test holds two placeholders. */
  lemma BetweenMarks(field: string)
    ensures Placeholders(field + " BETWEEN ? AND ?") == Placeholders(field) + 2
  {
    var between, mark, and := field + " BETWEEN ", "?", " AND ";
    assert Placeholders(mark) == 1;
    assert '?' !in " BETWEEN " && '?' !in and;
    AppendFree(field, " BETWEEN ");
    PlaceholdersAppend(between, mark);
    AppendFree(between + mark, and);
    PlaceholdersAppend(between + mark + and, mark);
    assert between + mark + and + mark == field + " BETWEEN ? AND ?";
  }

  /** What the text of a condition may depend on: its field and its kind. */
  function ShapeOf(c: FieldCondition): (string, ConditionKind) {
    (c.field, c.Kind())
  }

  /** Conditions with the same field and kind give the same fragment text,
      whatever values they carry. */
  lemma ConditionTextIgnoresValues(c: FieldCondition, d: FieldCondition)
    requires ShapeOf(c) == ShapeOf(d)
    ensures ConvertCondition(c).0 == ConvertCondition(d).0
  {
  }

  /** The comparison each kind of condition appends to its field name. */
  function Operator(k: ConditionKind): string {
    match k
    case EqualKind => " = ?"
    case NotEqualKind => " != ?"
    case GraterThanKind => " > ?"
    case LessThanKind => " < ?"
    case NotNullKind => " IS NOT NULL"
    case IsNullKind => " IS NULL"
    case BetweenKind => " BETWEEN ? AND ?"
  }

  /** A fragment is its field name followed by the comparison of its kind. */
  lemma FragmentShape(c: FieldCondition)
    ensures ConvertCondition(c).0 == c.field + Operator(c.Kind())
  {
  }

  /** No two kinds share a comparison. */
  lemma OperatorInjective(k: ConditionKind, l: ConditionKind)
    requires Operator(k) == Operator(l)
    ensures k == l
  {
    var o, p := Operator(k), Operator(l);
    assert |o| == |p| && o[1] == p[1] && o[|o| - 1] == p[|p| - 1];
  }

  /** The converse of `ConditionTextIgnoresValues`: over the same field, the
      fragment tells which comparison was asked for. */
  lemma ConditionTextDeterminesKind(c: FieldCondition, d: FieldCondition)
    requires c.field == d.field && ConvertCondition(c).0 == ConvertCondition(d).0
    ensures c.Kind() == d.Kind()
  {
    FragmentShape(c);
    FragmentShape(d);
    var f := c.field;
    assert (f + Operator(c.Kind()))[|f|..] == Operator(c.Kind());
    assert (f + Operator(d.Kind()))[|f|..] == Operator(d.Kind());
    OperatorInjective(c.Kind(), d.Kind());
  }

  /** The number of placeholders in each condition's fragment, per kind. */
  lemma ConditionPlaceholders(c: FieldCondition)
    requires PlaceholderFree(c.field)
    ensures Placeholders(ConvertCondition(c).0) == Arity(c.Kind())
  {
    PlaceholderFreeHasNone(c.field);
    FragmentPlaceholders(c);
    OperandCount(c);
  }

  /** The field names of the supplied pairs, in order. */
  function Names(pairs: seq<(string, Value)>): (r: seq<string>)
    ensures |r| == |pairs|
    decreases |pairs|
  {
    if |pairs| == 0 then [] else Names(pairs[..|pairs| - 1]) + [pairs[|pairs| - 1].0]
  }

  /** The values of the supplied pairs, in order. */
  function Payloads(pairs: seq<(string, Value)>): (r: seq<Value>)
    ensures |r| == |pairs|
    decreases |pairs|
  {
    if |pairs| == 0 then [] else Payloads(pairs[..|pairs| - 1]) + [pairs[|pairs| - 1].1]
  }

  lemma {:induction false} NamesAndPayloadsAt(pairs: seq<(string, Value)>)
    ensures forall i :: 0 <= i < |pairs| ==> Names(pairs)[i] == pairs[i].0
    ensures forall i :: 0 <= i < |pairs| ==> Payloads(pairs)[i] == pairs[i].1
    decreases |pairs|
  {
    if |pairs| > 0 {
      NamesAndPayloadsAt(pairs[..|pairs| - 1]);
    }
  }

  /** The text of an INSERT of one row with the given columns. */
  function InsertText(table: string, names: seq<string>): string {
    "INSERT INTO " + table + " (" + Join(",", names) + ") VALUES ("
      + Join(",", Marks(|names|)) + ")"
  }

  /** The `name=?` assignments of an UPDATE. */
  function SetFragments(names: seq<string>): (r: seq<string>)
    ensures |r| == |names|
    decreases |names|
  {
    if |names| == 0 then [] else SetFragments(names[..|names| - 1]) + [names[|names| - 1] + "=?"]
  }

  /** The WHERE fragments of the conditions, in order. */
  function ConditionTexts(conds: seq<FieldCondition>): (r: seq<string>)
    ensures |r| == |conds|
    decreases |conds|
  {
    if |conds| == 0 then []
    else ConditionTexts(conds[..|conds| - 1]) + [ConvertCondition(conds[|conds| - 1]).0]
  }

  /** The values the conditions carry, condition by condition. */
  function ConditionValues(conds: seq<FieldCondition>): (r: seq<Value>)
    ensures |r| <= 2 * |conds|
    decreases |conds|
  {
    if |conds| == 0 then []
    else ConditionValues(conds[..|conds| - 1]) + conds[|conds| - 1].Operands()
  }

  /** The text of an UPDATE; with no condition the text ends in `WHERE `. */
  function UpdateText(table: string, names: seq<string>, conds: seq<FieldCondition>): string {
    "UPDATE " + table + " SET " + Join(",", SetFragments(names)) + " WHERE "
      + Join(" AND ", ConditionTexts(conds))
  }

  /** The bind list of an UPDATE: every set value in order, then every
      condition value in condition order. */
  function UpdateValues(sets: seq<(string, Value)>, conds: seq<FieldCondition>): (r: seq<Value>)
    ensures |r| == |sets| + |ConditionValues(conds)|
  {
    Payloads(sets) + ConditionValues(conds)
  }

  /** Identifiers are trusted not to contain a placeholder. */
  predicate TrustedNames(names: seq<string>) {
    forall n :: n in names ==> PlaceholderFree(n)
  }

  predicate TrustedFields(conds: seq<FieldCondition>) {
    forall c :: c in conds ==> PlaceholderFree(c.field)
  }

  /** An INSERT has exactly one placeholder per supplied pair, so as many as
      values it binds. */
  lemma InsertPlaceholders(table: string, pairs: seq<(string, Value)>)
    requires PlaceholderFree(table) && TrustedNames(Names(pairs))
    ensures Placeholders(InsertText(table, Names(pairs))) == |Payloads(pairs)| == |pairs|
  {
    var names := Names(pairs);
    var columns, marks := Join(",", names), Join(",", Marks(|names|));
    assert Placeholders(columns) == 0 by {
      NamesFree(names);
      JoinPlaceholders(",", names);
    }
    assert Placeholders(marks) == |names| by {
      JoinPlaceholders(",", Marks(|names|));
      MarksPlaceholders(|names|);
    }
    var head := "INSERT INTO " + table + " (";
    assert Placeholders(head) == 0 by {
      assert '?' !in "INSERT INTO " && '?' !in " (";
      PlaceholderFreeHasNone(head);
    }
    var t1 := head + columns + ") VALUES (";
    assert Placeholders(t1) == 0 by {
      PlaceholdersAppend(head, columns);
      AppendFree(head + columns, ") VALUES (");
    }
    assert Placeholders(t1 + marks + ")") == |names| by {
      PlaceholdersAppend(t1, marks);
      AppendFree(t1 + marks, ")");
    }
    assert InsertText(table, names) == t1 + marks + ")";
  }

  lemma {:induction false} NamesFree(names: seq<string>)
    requires TrustedNames(names)
    ensures TotalPlaceholders(names) == 0
    decreases |names|
  {
    if |names| > 0 {
      NamesFree(names[..|names| - 1]);
      PlaceholderFreeHasNone(names[|names| - 1]);
    }
  }

  lemma {:induction false} SetFragmentsPlaceholders(names: seq<string>)
    requires TrustedNames(names)
    ensures TotalPlaceholders(SetFragments(names)) == |names|
    decreases |names|
  {
    if |names| > 0 {
      var last := names[|names| - 1];
      SetFragmentsPlaceholders(names[..|names| - 1]);
      PlaceholderFreeHasNone(last);
      assert SetFragments(names)[..|names| - 1] == SetFragments(names[..|names| - 1]);
      PlaceholdersAppend(last, "=?");
    }
  }

  lemma {:induction false} ConditionTextsPlaceholders(conds: seq<FieldCondition>)
    requires TrustedFields(conds)
    ensures TotalPlaceholders(ConditionTexts(conds)) == |ConditionValues(conds)|
    decreases |conds|
  {
    if |conds| > 0 {
      var last := conds[|conds| - 1];
      ConditionTextsPlaceholders(conds[..|conds| - 1]);
      PlaceholderFreeHasNone(last.field);
      FragmentPlaceholders(last);
      assert ConditionTexts(conds)[..|conds| - 1] == ConditionTexts(conds[..|conds| - 1]);
    }
  }

  lemma AssignmentsPlaceholders(names: seq<string>)
    requires TrustedNames(names)
    ensures Placeholders(Join(",", SetFragments(names))) == |names|
  {
    SetFragmentsPlaceholders(names);
    JoinPlaceholders(",", SetFragments(names));
  }

  lemma FiltersPlaceholders(conds: seq<FieldCondition>)
    requires TrustedFields(conds)
    ensures Placeholders(Join(" AND ", ConditionTexts(conds))) == |ConditionValues(conds)|
  {
    ConditionTextsPlaceholders(conds);
    JoinPlaceholders(" AND ", ConditionTexts(conds));
  }

  /** The text of an UPDATE up to its filters holds the placeholders of its
      assignments and no other. */
  lemma UpdateHeadPlaceholders(table: string, assignments: string)
    requires PlaceholderFree(table)
    ensures Placeholders("UPDATE " + table + " SET " + assignments + " WHERE ") == Placeholders(assignments)
  {
    var head := "UPDATE " + table + " SET ";
    assert Placeholders(head) == 0 by {
      assert '?' !in "UPDATE " && '?' !in " SET ";
      PlaceholderFreeHasNone(head);
    }
    PlaceholdersAppend(head, assignments);
    AppendFree(head + assignments, " WHERE ");
  }

  /** An UPDATE has exactly as many placeholders as values it binds. */
  lemma UpdatePlaceholders(table: string, sets: seq<(string, Value)>, conds: seq<FieldCondition>)
    requires PlaceholderFree(table) && TrustedNames(Names(sets)) && TrustedFields(conds)
    ensures Placeholders(UpdateText(table, Names(sets), conds)) == |UpdateValues(sets, conds)|
  {
    var names := Names(sets);
    var assignments, filters := Join(",", SetFragments(names)), Join(" AND ", ConditionTexts(conds));
    AssignmentsPlaceholders(names);
    FiltersPlaceholders(conds);
    var t1 := "UPDATE " + table + " SET " + assignments + " WHERE ";
    UpdateHeadPlaceholders(table, assignments);
    assert Placeholders(t1 + filters) == |names| + |ConditionValues(conds)| by {
      PlaceholdersAppend(t1, filters);
    }
    assert UpdateText(table, names, conds) == t1 + filters;
  }

  lemma {:induction false} SetFragmentsAt(names: seq<string>)
    ensures forall i :: 0 <= i < |names| ==> SetFragments(names)[i] == names[i] + "=?"
    decreases |names|
  {
    if |names| > 0 {
      SetFragmentsAt(names[..|names| - 1]);
    }
  }

  lemma {:induction false} ConditionTextsAt(conds: seq<FieldCondition>)
    ensures forall j :: 0 <= j < |conds| ==> ConditionTexts(conds)[j] == ConvertCondition(conds[j]).0
    decreases |conds|
  {
    if |conds| > 0 {
      ConditionTextsAt(conds[..|conds| - 1]);
    }
  }

  /** Taking one more condition extends the values by its operands. */
  lemma ConditionValuesStep(conds: seq<FieldCondition>, j: nat)
    requires j < |conds|
    ensures ConditionValues(conds[..j + 1]) == ConditionValues(conds[..j]) + ConvertCondition(conds[j]).1
  {
    assert conds[..j + 1][..j] == conds[..j];
  }

  /** The condition values are laid out condition by condition: those of
      `conds + [c]` are those of `conds` followed by those of `c`. */
  lemma ConditionValuesSnoc(conds: seq<FieldCondition>, c: FieldCondition)
    ensures ConditionValues(conds + [c]) == ConditionValues(conds) + c.Operands()
  {
    assert (conds + [c])[..|conds|] == conds;
  }

  /** The shapes of a list of conditions. */
  function Shapes(conds: seq<FieldCondition>): (r: seq<(string, ConditionKind)>)
    ensures |r| == |conds|
    decreases |conds|
  {
    if |conds| == 0 then [] else Shapes(conds[..|conds| - 1]) + [ShapeOf(conds[|conds| - 1])]
  }

  lemma {:induction false} ConditionTextsIgnoreValues(c: seq<FieldCondition>, d: seq<FieldCondition>)
    requires Shapes(c) == Shapes(d)
    ensures ConditionTexts(c) == ConditionTexts(d)
    decreases |c|
  {
    if |c| > 0 {
      assert Shapes(c[..|c| - 1]) == Shapes(c)[..|c| - 1];
      assert Shapes(d[..|d| - 1]) == Shapes(d)[..|d| - 1];
      ConditionTextsIgnoreValues(c[..|c| - 1], d[..|d| - 1]);
      assert Shapes(c)[|c| - 1] == Shapes(d)[|d| - 1];
      ConditionTextIgnoresValues(c[|c| - 1], d[|d| - 1]);
    }
  }

  /** The text of an INSERT depends on the table and the field names only:
      two rows with the same columns give the same statement, whatever values
      they carry. */
  lemma InsertTextIgnoresValues(table: string, p: seq<(string, Value)>, q: seq<(string, Value)>)
    requires |p| == |q| && forall i :: 0 <= i < |p| ==> p[i].0 == q[i].0
    ensures InsertText(table, Names(p)) == InsertText(table, Names(q))
  {
    SameNames(p, q);
  }

  /** Pairs with the same field names, position by position, have the same
      name list, whatever values they carry. */
  lemma SameNames(p: seq<(string, Value)>, q: seq<(string, Value)>)
    requires |p| == |q| && forall i :: 0 <= i < |p| ==> p[i].0 == q[i].0
    ensures Names(p) == Names(q)
  {
    NamesAndPayloadsAt(p);
    NamesAndPayloadsAt(q);
  }

  /** The text of an UPDATE depends on the table, the set field names and the
      condition shapes only, never on a value. */
  lemma UpdateTextIgnoresValues(table: string, p: seq<(string, Value)>, q: seq<(string, Value)>,
                                c: seq<FieldCondition>, d: seq<FieldCondition>)
    requires |p| == |q| && forall i :: 0 <= i < |p| ==> p[i].0 == q[i].0
    requires Shapes(c) == Shapes(d)
    ensures UpdateText(table, Names(p), c) == UpdateText(table, Names(q), d)
  {
    SameNames(p, q);
    ConditionTextsIgnoreValues(c, d);
  }

  /** With no condition the UPDATE text ends in the bare `WHERE ` keyword:
      the source does not guard this case. */
  lemma UpdateWithoutConditions(table: string, names: seq<string>)
    ensures UpdateText(table, names, []) == "UPDATE " + table + " SET " + Join(",", SetFragments(names)) + " WHERE "
  {
  }

  /** An INSERT of two columns: names and placeholders are comma-joined. */
  lemma InsertExample(id: Value, count: Value)
    ensures InsertText("t_test_01", Names([("ID", id), ("F_COUNT", count)]))
         == "INSERT INTO " + "t_test_01" + " (" + "ID,F_COUNT" + ") VALUES (" + "?,?" + ")"
    ensures Payloads([("ID", id), ("F_COUNT", count)]) == [id, count]
  {
    var pairs := [("ID", id), ("F_COUNT", count)];
    assert pairs[..1] == [("ID", id)] && pairs[..1][..0] == [];
    assert Names(pairs) == ["ID", "F_COUNT"];
    assert ["ID", "F_COUNT"][..1] == ["ID"];
    assert "ID" + "," + "F_COUNT" == "ID,F_COUNT";
    assert Marks(2)[..1] == Marks(1) == ["?"];
    assert "?" + "," + "?" == "?,?";
  }

  /** Setting one field of the rows whose `F_COUNT` equals 2000: the set value
      is bound first, the condition value second. */
  lemma UpdateExample(price: Value)
    ensures UpdateText("t_test_01", Names([("F_UNIT_PRICE", price)]), [Equal("F_COUNT", Integer(2000))])
         == "UPDATE " + "t_test_01" + " SET " + "F_UNIT_PRICE=?" + " WHERE " + "F_COUNT = ?"
    ensures UpdateValues([("F_UNIT_PRICE", price)], [Equal("F_COUNT", Integer(2000))])
         == [price, Integer(2000)]
  {
    var sets := [("F_UNIT_PRICE", price)];
    var conds := [Equal("F_COUNT", Integer(2000))];
    assert sets[..0] == [] && conds[..0] == [];
    assert Names(sets) == ["F_UNIT_PRICE"];
    assert ["F_UNIT_PRICE"][..0] == [];
    assert "F_UNIT_PRICE" + "=?" == "F_UNIT_PRICE=?";
    assert "F_COUNT" + " = ?" == "F_COUNT = ?";
  }
}
