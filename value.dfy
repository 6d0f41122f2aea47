/** The closed value type of cells and statement parameters
    (Sources/SimpleSQLite/Value.swift). */
module Values {
  import opened Wrappers
  import opened Utf8

  /** Swift's `Int` on the 64-bit platforms the library targets. */
  type Int64 = x: int | -0x8000_0000_0000_0000 <= x < 0x8000_0000_0000_0000

  /** A `Double`, kept as its IEEE 754 bit pattern: the core never computes
      with it, it only stores, binds, reads and compares it. */
  datatype Float64 = Float64(bits: bv64)

  type Bytes = seq<Byte>

  datatype Value =
    | String(text: string)
    | Double(number: Float64)
    | Data(bytes: Bytes)
    | Int(integer: Int64)
    | Null

  /** Booleans have no variant of their own: true is stored as 1, false as 0. */
  function Bool(b: bool): (v: Value)
    ensures v.Int? && v.integer in {0, 1}
    ensures b <==> v.integer == 1
  {
    Int(if b then 1 else 0)
  }

  function AsString(v: Value): (r: Option<string>)
    ensures r.Some? <==> v.String?
    ensures r.Some? ==> v == String(r.value)
  {
    if v.String? then Some(v.text) else None
  }

  function AsDouble(v: Value): (r: Option<Float64>)
    ensures r.Some? <==> v.Double?
    ensures r.Some? ==> v == Double(r.value)
  {
    if v.Double? then Some(v.number) else None
  }

  /** Any integer is a boolean: exactly 1 reads as true, every other
      integer (0 and also 2, -1, ...) as false. */
  function AsBool(v: Value): (r: Option<bool>)
    ensures r.Some? <==> v.Int?
    ensures r.Some? ==> (r.value <==> v == Int(1))
  {
    if v.Int? then Some(v.integer == 1) else None
  }

  function AsData(v: Value): (r: Option<Bytes>)
    ensures r.Some? <==> v.Data?
    ensures r.Some? ==> v == Data(r.value)
  {
    if v.Data? then Some(v.bytes) else None
  }

  function AsInt(v: Value): (r: Option<Int64>)
    ensures r.Some? <==> v.Int?
    ensures r.Some? ==> v == Int(r.value)
  {
    if v.Int? then Some(v.integer) else None
  }

  predicate IsNull(v: Value): (r: bool)
    ensures r <==> AsString(v).None? && AsDouble(v).None? && AsData(v).None? && AsInt(v).None?
  {
    v == Null
  }

  /** `asBool` recovers the boolean that `bool(_:)` stored, and `asInt`
      sees the stored 0 or 1. */
  lemma BoolRoundTrip(b: bool)
    ensures AsBool(Bool(b)) == Some(b)
    ensures AsInt(Bool(b)) == Some(if b then 1 else 0)
  {
  }

  /** `asInt` and `asBool` succeed on the same values. */
  lemma IntAndBoolAgree(v: Value)
    ensures AsInt(v).Some? <==> AsBool(v).Some?
    ensures AsInt(v).Some? ==> AsBool(v) == Some(AsInt(v).value == 1)
  {
  }

  /** No coercion: a non-null value answers exactly one of the four payload
      extractors, and null answers none of them. */
  lemma ExtractorsPartition(v: Value)
    ensures IsNull(v) <==> v.Null?
    ensures IsNull(v) ==> AsString(v).None? && AsDouble(v).None? && AsData(v).None? && AsInt(v).None?
    ensures !IsNull(v) ==>
      (if AsString(v).Some? then 1 else 0) + (if AsDouble(v).Some? then 1 else 0)
      + (if AsData(v).Some? then 1 else 0) + (if AsInt(v).Some? then 1 else 0) == 1
  {
  }
}
