/** The mapping between the layer's `Value` and the storage engine's own
    value type, in both directions, and the primitive conversions into
    `Value`. */
module SqliteValue {
  import opened Def

  /** The engine's value type, with the same five variants and payloads. */
  datatype SqlValue =
    | SqlBinary(bytes: seq<Byte>)
    | SqlFloat(bits: Float64Bits)
    | SqlInteger(number: Int64)
    | SqlString(text: string)
    | SqlNull

  /** The position of the active engine variant, in declaration order. */
  function SqlVariant(e: SqlValue): nat {
    match e
    case SqlBinary(_) => 0
    case SqlFloat(_) => 1
    case SqlInteger(_) => 2
    case SqlString(_) => 3
    case SqlNull => 4
  }

  /** Reading a value the engine returned. */
  function FromSqlite(e: SqlValue): (v: Value)
    ensures Variant(v) == SqlVariant(e)
  {
    match e
    case SqlBinary(b) => Binary(b)
    case SqlFloat(f) => Float(f)
    case SqlInteger(n) => Integer(n)
    case SqlString(s) => String(s)
    case SqlNull => Null
  }

  /** The engine value a `Value` is bound as. */
  function ToSqlite(v: Value): (e: SqlValue)
    ensures FromSqlite(e) == v
  {
    match v
    case Binary(b) => SqlBinary(b)
    case Float(f) => SqlFloat(f)
    case Integer(n) => SqlInteger(n)
    case String(s) => SqlString(s)
    case Null => SqlNull
  }

  /** Binding and reading back gives the same variant and payload. */
  lemma BindThenRead(v: Value)
    ensures FromSqlite(ToSqlite(v)) == v
    ensures SqlVariant(ToSqlite(v)) == Variant(v)
  {
  }

  /** Reading and binding back gives the same engine value, so the mapping
      is a bijection. */
  lemma ReadThenBind(e: SqlValue)
    ensures ToSqlite(FromSqlite(e)) == e
  {
  }

  /** Binding never merges two different values. */
  lemma BindInjective(v: Value, w: Value)
    ensures ToSqlite(v) == ToSqlite(w) <==> v == w
  {
    BindThenRead(v);
    BindThenRead(w);
  }

  /** The default value is bound as the engine's null. */
  lemma DefaultBindsNull()
    ensures ToSqlite(Default()) == SqlNull
  {
  }

  /** A list of values as the engine receives them when bound by position. */
  function BindAll(vs: seq<Value>): (es: seq<SqlValue>)
    ensures |es| == |vs|
    ensures forall i :: 0 <= i < |vs| ==> es[i] == ToSqlite(vs[i])
    decreases |vs|
  {
    if |vs| == 0 then [] else BindAll(vs[..|vs| - 1]) + [ToSqlite(vs[|vs| - 1])]
  }

  /** Every bound value can be read back unchanged, in the same position. */
  lemma BindAllRecoverable(vs: seq<Value>)
    ensures forall i :: 0 <= i < |vs| ==> FromSqlite(BindAll(vs)[i]) == vs[i]
  {
  }

  function FromBytes(b: seq<Byte>): (v: Value)
    ensures ToSqlite(v) == SqlBinary(b)
  {
    Binary(b)
  }

  function FromFloat(f: Float64Bits): (v: Value)
    ensures ToSqlite(v) == SqlFloat(f)
  {
    Float(f)
  }

  function FromInteger(n: Int64): (v: Value)
    ensures ToSqlite(v) == SqlInteger(n)
  {
    Integer(n)
  }

  /** Both the owned and the borrowed string conversions. */
  function FromString(s: string): (v: Value)
    ensures ToSqlite(v) == SqlString(s)
  {
    String(s)
  }
}
