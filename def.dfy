/** The storage-agnostic data model of the data-source layer: the closed
    `Value` union every datum crosses the boundary in, the `FieldCondition`
    predicate algebra used to build WHERE clauses, the error kinds, and the
    result shapes of the data-source operations. */
module Def {

  /** An unsigned byte, the element type of a binary payload. */
  newtype Byte = x: int | 0 <= x < 0x100

  /** A signed 64-bit integer, the payload of `Integer`. */
  newtype Int64 = x: int | -0x8000_0000_0000_0000 <= x < 0x8000_0000_0000_0000

  /** The payload of `Float`, kept as an opaque 64-bit pattern: no
      floating-point operation is performed anywhere in this layer. */
  newtype Float64Bits = x: int | 0 <= x < 0x1_0000_0000_0000_0000

  /** Every datum that moves between the callers and the storage engine. */
  datatype Value =
    | Binary(bytes: seq<Byte>)
    | Float(bits: Float64Bits)
    | Integer(number: Int64)
    | String(text: string)
    | Null

  /** The default value of `Value`. */
  function Default(): (v: Value)
    ensures v.Null? && Variant(v) == 4
  {
    Null
  }

  /** The position of the active variant, in declaration order. */
  function Variant(v: Value): (k: nat)
    ensures k < 5
  {
    match v
    case Binary(_) => 0
    case Float(_) => 1
    case Integer(_) => 2
    case String(_) => 3
    case Null => 4
  }

  /** There are exactly five variants: every position below five is the
      position of some value. */
  lemma {:induction false} FiveVariants(k: nat)
    requires k < 5
    ensures exists v :: Variant(v) == k
  {
    var witnesses := [Binary([]), Float(0), Integer(0), String(""), Null];
    assert Variant(witnesses[k]) == k;
  }

  /** The comparison a derived `PartialEq` performs: the same variant, and
      equal payloads. */
  predicate DerivedEq(v: Value, w: Value) {
    match (v, w)
    case (Binary(a), Binary(b)) => a == b
    case (Float(a), Float(b)) => a == b
    case (Integer(a), Integer(b)) => a == b
    case (String(a), String(b)) => a == b
    case (Null, Null) => true
    case _ => false
  }

  /** The derived comparison is exactly equality of values. */
  lemma DerivedEqIsEquality(v: Value, w: Value)
    ensures DerivedEq(v, w) <==> v == w
    ensures DerivedEq(v, w) ==> Variant(v) == Variant(w)
  {
  }

  /** The shape of a condition: which comparison it makes. */
  datatype ConditionKind =
    | EqualKind | NotEqualKind | GraterThanKind | LessThanKind
    | NotNullKind | IsNullKind | BetweenKind

  /** How many values a condition of the given kind carries. */
  function Arity(k: ConditionKind): nat {
    match k
    case EqualKind | NotEqualKind | GraterThanKind | LessThanKind => 1
    case NotNullKind | IsNullKind => 0
    case BetweenKind => 2
  }

  /** A row filter over one named field. The source spells the
      greater-than variant `GraterThan`; the name is kept. */
  datatype FieldCondition =
    | Equal(field: string, value: Value)
    | NotEqual(field: string, value: Value)
    | GraterThan(field: string, value: Value)
    | LessThan(field: string, value: Value)
    | NotNull(field: string)
    | IsNull(field: string)
    | Between(field: string, left: Value, right: Value)
  {
    function Kind(): ConditionKind {
      match this
      case Equal(_, _) => EqualKind
      case NotEqual(_, _) => NotEqualKind
      case GraterThan(_, _) => GraterThanKind
      case LessThan(_, _) => LessThanKind
      case NotNull(_) => NotNullKind
      case IsNull(_) => IsNullKind
      case Between(_, _, _) => BetweenKind
    }

    /** The values the condition carries, in declaration order. */
    function Operands(): seq<Value> {
      match this
      case Equal(_, v) => [v]
      case NotEqual(_, v) => [v]
      case GraterThan(_, v) => [v]
      case LessThan(_, v) => [v]
      case NotNull(_) => []
      case IsNull(_) => []
      case Between(_, lo, hi) => [lo, hi]
    }
  }

  /** Every condition carries exactly as many values as its kind says, and a
      `Between` carries its lower bound first. */
  lemma OperandCount(c: FieldCondition)
    ensures |c.Operands()| == Arity(c.Kind())
    ensures c.Between? ==> c.Operands() == [c.left, c.right]
  {
  }

  /** The error kinds of the layer, each carrying its cause text. */
  datatype Error =
    | Config(cause: string)
    | DB(cause: string)
    | Convert(cause: string)

  datatype Result<T> = Ok(value: T) | Err(error: Error)

  /** One result record: column name to value. */
  type Row = map<string, Value>
}
