/** The per-type serializer table of the base model (`_SERIALIZERS`) and the
    field serializer that consults it (`serialize_fields`).

    The text forms of timestamps, decimals and UUIDs come from the Python
    standard library (`isoformat()`, `str()`); the model takes them as the
    `Formatters` parameter instead of defining them. Base64 is defined in
    module Base64. */
module Serialization {
  import opened Values
  import opened Results
  import Base64

  /** The standard-library text conversions the table entries call. */
  datatype Formatters = Formatters(
    isoDateTime: int -> string,     // datetime.isoformat()
    isoDate: int -> string,         // date.isoformat()
    isoTime: int -> string,         // time.isoformat()
    decimalText: Decimal -> string, // str(Decimal)
    uuidText: nat -> string         // str(UUID)
  )

  /** The exact types the table has an entry for. */
  const TableTypes: set<TypeTag> :=
    {DateTimeType, DateType, TimeType, DecimalType, UuidType, BytesType}

  /** A value whose type has no table entry: the serializer hands it on as
      it is. */
  predicate PassesThrough(v: Value) {
    TypeOf(v) !in TableTypes
  }

  /** The serializer for `v`: the table entry for its exact type, if any. */
  function SerializerFor(fmt: Formatters, v: Value): (r: Option<string>)
    ensures r.Some? <==> TypeOf(v) in TableTypes
    ensures v.DateTime? ==> r == Some(fmt.isoDateTime(v.micros))
    ensures v.Date? ==> r == Some(fmt.isoDate(v.days))
    ensures v.Time? ==> r == Some(fmt.isoTime(v.dayMicros))
    ensures v.Dec? ==> r == Some(fmt.decimalText(v.d))
    ensures v.Uuid? ==> r == Some(fmt.uuidText(v.bits))
    ensures v.Bytes? ==> r == Some(Base64.Encode(v.bytes))
  {
    match v
    case DateTime(t) => Some(fmt.isoDateTime(t))
    case Date(d) => Some(fmt.isoDate(d))
    case Time(t) => Some(fmt.isoTime(t))
    case Dec(d) => Some(fmt.decimalText(d))
    case Uuid(u) => Some(fmt.uuidText(u))
    case Bytes(b) => Some(Base64.Encode(b))
    case _ => None
  }

  /** `serialize_fields`: a value whose exact type is in the table becomes the
      text its entry produces; any other value (int, str, enum members, None,
      mappings, model instances) is returned unchanged. */
  function Serialize(fmt: Formatters, v: Value): (r: Value)
    ensures PassesThrough(r)
    ensures TypeOf(v) in TableTypes ==> r == Str(SerializerFor(fmt, v).value)
    ensures TypeOf(v) !in TableTypes ==> r == v
    ensures v.Bytes? ==> Base64.Decode(r.s) == Some(v.bytes)
  {
    match SerializerFor(fmt, v)
    case Some(text) =>
      assert v.Bytes? ==> Base64.Decode(text) == Some(v.bytes) by {
        if v.Bytes? { Base64.DecodeEncode(v.bytes); }
      }
      Str(text)
    case None => v
  }

  /** Serializing a serialized value changes nothing; in particular an
      already-serialized string is left as it is. */
  lemma SerializeIdempotent(fmt: Formatters, v: Value)
    ensures Serialize(fmt, Serialize(fmt, v)) == Serialize(fmt, v)
  {
  }

  /** `b"ab"` serializes to `"YWI="`. */
  lemma SerializeBytesExample(fmt: Formatters)
    ensures Serialize(fmt, Bytes([97, 98])) == Str("YWI=")
  {
    Base64.EncodeExample();
  }
}
