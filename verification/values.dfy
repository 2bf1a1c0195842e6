/** The values a record's fields hold, and the records themselves.

    A Python field value is modelled by its exact runtime type: each case of
    `Value` is one such type. Records and values are defined together because
    a relation field holds another record. */
module Values {
  import Base64
  import Results

  /** 10^n. */
  function Pow10(n: nat): (p: nat)
    ensures p >= 1
  {
    if n == 0 then 1 else 10 * Pow10(n - 1)
  }

  /** An exact decimal number, `coefficient * 10^exponent`, the way Python's
      `Decimal` holds a finite value (the sign is folded into the
      coefficient). `Decimal("10.99")` is `Decimal(1099, -2)`. */
  datatype Decimal = Decimal(coefficient: int, exponent: int)

  /** The number a decimal denotes. */
  ghost function RealOf(d: Decimal): real {
    if d.exponent >= 0 then (d.coefficient * Pow10(d.exponent)) as real
    else d.coefficient as real / Pow10(-d.exponent) as real
  }

  /** Whether `d` is strictly greater than the integer `bound`, decided on
      integers alone. Python compares a Decimal with a float bound exactly,
      so the comparison is the exact one. */
  function Exceeds(d: Decimal, bound: int): (b: bool)
    ensures b <==> RealOf(d) > bound as real
  {
    if d.exponent >= 0 then d.coefficient * Pow10(d.exponent) > bound
    else
      var p := Pow10(-d.exponent);
      DivisionOrder(d.coefficient, p, bound);
      d.coefficient > bound * p
  }

  /** For a positive divisor, c / p > b exactly when c > b * p. */
  lemma DivisionOrder(c: int, p: nat, b: int)
    requires p >= 1
    ensures c as real / p as real > b as real <==> c > b * p
  {
    var q := c as real / p as real;
    assert q * p as real == c as real;
    assert (b * p) as real == b as real * p as real;
    if q > b as real {
      assert q * p as real > b as real * p as real;
    }
    if c > b * p {
      assert q * p as real > b as real * p as real;
    }
  }

  /** A field value, by its exact Python type. */
  datatype Value =
    | Null                                 // None
    | Int(i: int)                          // int
    | Str(s: string)                       // str
    | Dec(d: Decimal)                      // decimal.Decimal
    | DateTime(micros: int)                // datetime.datetime, microseconds from an epoch
    | Date(days: int)                      // datetime.date, days from an epoch
    | Time(dayMicros: int)                 // datetime.time, microseconds since midnight
    | Uuid(bits: nat)                      // uuid.UUID, its 128-bit number
    | Bytes(bytes: seq<Base64.byte>)       // bytes
    | Member(member: string)               // a member of a str-valued Enum, by its value
    | Row(row: map<string, Value>)         // dict: a raw row as the backend returns it
    | Instance(record: Record)             // an instance of a model class

  /** An instance of a model class: the class (`model`), every field's current
      value, and the names of the fields the caller set explicitly, which
      pydantic keeps as `__pydantic_fields_set__`. */
  datatype Record = Record(model: string, values: map<string, Value>, fieldsSet: set<string>)

  /** The exact runtime type of a value, the key `type(value)` looks up. */
  datatype TypeTag =
    | NoneType | IntType | StrType | DecimalType | DateTimeType | DateType | TimeType
    | UuidType | BytesType | EnumType | DictType | ModelType

  function TypeOf(v: Value): TypeTag {
    match v
    case Null => NoneType
    case Int(_) => IntType
    case Str(_) => StrType
    case Dec(_) => DecimalType
    case DateTime(_) => DateTimeType
    case Date(_) => DateType
    case Time(_) => TimeType
    case Uuid(_) => UuidType
    case Bytes(_) => BytesType
    case Member(_) => EnumType
    case Row(_) => DictType
    case Instance(_) => ModelType
  }

  /** The text of a str-valued value: a str itself, or a str-Enum member,
      which is a str subclass holding its value. */
  function TextOf(v: Value): (r: Results.Option<string>)
    ensures r.Some? <==> v.Str? || v.Member?
  {
    match v
    case Str(s) => Results.Some(s)
    case Member(m) => Results.Some(m)
    case _ => Results.None
  }
}
