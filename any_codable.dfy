/**
 * `AnyCodable`: a schema-less JSON value.  Decoding probes the kinds of value
 * in a fixed order (Int, Double, String, Bool, array, object, null) and the
 * first probe that succeeds wins; encoding dispatches on the same kinds.
 *
 * JSON text itself and Foundation's numeric conversions are not modelled:
 * a JSON number is an uninterpreted token, the decoder's `Int` and `Double` probes
 * on it are the parameter `NumberProbes`, and the encoder's number writers
 * are the parameter `NumberWriters`.
 */
module AnyCodable {
  import opened Wrappers

  /** Swift's `Int` on a 64-bit platform. */
  newtype Int64 = i: int | -0x8000_0000_0000_0000 <= i < 0x8000_0000_0000_0000

  /** A Swift `Double`, left uninterpreted: the model does no arithmetic on it. */
  datatype Double = Double(bits: bv64)

  /** A JSON number token, as the JSON reader hands it to a decoding container. */
  datatype JsonNumber = JsonNumber(literal: string)

  /** The abstract JSON value a single-value decoding container reads from. */
  datatype Json =
    | Null
    | Boolean(b: bool)
    | Number(n: JsonNumber)
    | Str(s: string)
    | Array(items: seq<Json>)
    | Object(fields: map<string, Json>)

  /** `container.decode(Int.self)` and `container.decode(Double.self)` on a number token. */
  datatype NumberProbes = NumberProbes(asInt: JsonNumber -> Option<Int64>, asDouble: JsonNumber -> Option<Double>)

  /** `container.encode(_:)` for an `Int` and for a `Double`. */
  datatype NumberWriters = NumberWriters(writeInt: Int64 -> JsonNumber, writeDouble: Double -> JsonNumber)

  /**
   * The value an `AnyCodable` holds.  `Other` is any Swift value wrapped with
   * `init(_ value: Any)` that none of the encoder's cases recognises.
   */
  datatype AnyValue =
    | IntValue(i: Int64)
    | DoubleValue(d: Double)
    | StringValue(s: string)
    | BoolValue(b: bool)
    | ArrayValue(items: seq<AnyValue>)
    | ObjectValue(fields: map<string, AnyValue>)
    | NullValue
    | Other

  datatype DecodeError = CannotDecode

  /** The Int probe on any JSON value: only a number token can succeed. */
  function ProbeInt(j: Json, p: NumberProbes): Option<Int64> {
    if j.Number? then p.asInt(j.n) else None
  }

  function ProbeDouble(j: Json, p: NumberProbes): Option<Double> {
    if j.Number? then p.asDouble(j.n) else None
  }

  /**
   * A JSON value and an `AnyCodable` value of the same kind: a number and an
   * Int or Double, the same string or boolean, arrays of the same length,
   * objects with the same keys, or two nulls.
   */
  ghost predicate SameKind(j: Json, v: AnyValue) {
    match v
    case IntValue(_) => j.Number?
    case DoubleValue(_) => j.Number?
    case StringValue(s) => j == Str(s)
    case BoolValue(b) => j == Boolean(b)
    case ArrayValue(items) => j.Array? && |j.items| == |items|
    case ObjectValue(fields) => j.Object? && j.fields.Keys == fields.Keys
    case NullValue => j.Null?
    case Other => false
  }

  /** `AnyCodable.init(from:)`. */
  function Decode(j: Json, p: NumberProbes): (r: Result<AnyValue, DecodeError>)
    ensures r.Ok? ==> SameKind(j, r.value)
    ensures j.Str? || j.Boolean? || j.Null? ==> r.Ok?
    decreases j, 1
  {
    if ProbeInt(j, p).Some? then Ok(IntValue(ProbeInt(j, p).value))
    else if ProbeDouble(j, p).Some? then Ok(DoubleValue(ProbeDouble(j, p).value))
    else if j.Str? then Ok(StringValue(j.s))
    else if j.Boolean? then Ok(BoolValue(j.b))
    else if j.Array? && DecodeItems(j.items, p).Ok? then Ok(ArrayValue(DecodeItems(j.items, p).value))
    else if j.Object? && DecodeFields(j.fields, p).Ok? then Ok(ObjectValue(DecodeFields(j.fields, p).value))
    else if j.Null? then Ok(NullValue)
    else Err(CannotDecode)
  }

  /** `container.decode([AnyCodable].self)`: every element must decode. */
  function DecodeItems(items: seq<Json>, p: NumberProbes): (r: Result<seq<AnyValue>, DecodeError>)
    ensures r.Ok? ==> |r.value| == |items| && forall k | 0 <= k < |items| :: Decode(items[k], p) == Ok(r.value[k])
    decreases items, 0
  {
    if items == [] then Ok([])
    else
      match Decode(items[0], p)
      case Err(e) => Err(e)
      case Ok(v) =>
        match DecodeItems(items[1..], p)
        case Err(e) => Err(e)
        case Ok(vs) =>
          assert forall k | 0 < k < |items| :: items[k] == items[1..][k - 1];
          Ok([v] + vs)
  }

  /** `container.decode([String: AnyCodable].self)`: every value must decode. */
  function DecodeFields(fields: map<string, Json>, p: NumberProbes): (r: Result<map<string, AnyValue>, DecodeError>)
    ensures r.Ok? <==> forall k | k in fields :: Decode(fields[k], p).Ok?
    ensures r.Ok? ==> r.value.Keys == fields.Keys && forall k | k in fields :: Decode(fields[k], p) == Ok(r.value[k])
    decreases Object(fields), 0
  {
    if forall k | k in fields :: Decode(fields[k], p).Ok? then
      Ok(map k | k in fields :: Decode(fields[k], p).value)
    else
      Err(CannotDecode)
  }

  /** The JSON `AnyCodable.encode(to:)` writes for `v` when it does not throw. */
  function Write(v: AnyValue, w: NumberWriters): (r: Json)
    ensures v != Other ==> SameKind(r, v)
    ensures v == Other ==> r == Null
  {
    match v
    case IntValue(i) => Number(w.writeInt(i))
    case DoubleValue(d) => Number(w.writeDouble(d))
    case StringValue(s) => Str(s)
    case BoolValue(b) => Boolean(b)
    case ArrayValue(items) => Array(seq(|items|, k requires 0 <= k < |items| => Write(items[k], w)))
    case ObjectValue(fields) => Object(map k | k in fields :: Write(fields[k], w))
    case NullValue => Null
    case Other => Null
  }

  /** IEEE 754 binary64: a Double is finite unless all eleven exponent bits are set (an infinity or a NaN). */
  predicate IsFinite(d: Double) {
    (d.bits >> 52) & 0x7FF != 0x7FF
  }

  /** No infinity or NaN anywhere in `v`. */
  predicate Encodable(v: AnyValue) {
    match v
    case DoubleValue(d) => IsFinite(d)
    case ArrayValue(items) => forall k | 0 <= k < |items| :: Encodable(items[k])
    case ObjectValue(fields) => forall key | key in fields :: Encodable(fields[key])
    case _ => true
  }

  /** `EncodingError.invalidValue`. */
  datatype EncodeError = InvalidValue

  /**
   * `AnyCodable.encode(to:)` under `JSONEncoder`, whose default strategy for
   * non-conforming floats is `.throw`: a non-finite Double anywhere makes the
   * whole encoding throw; otherwise the JSON is `Write`'s.
   */
  function Encode(v: AnyValue, w: NumberWriters): (r: Result<Json, EncodeError>)
    ensures r.Ok? <==> Encodable(v)
    ensures r.Ok? && v != Other ==> SameKind(r.value, v)
    ensures r.Ok? && v == Other ==> r.value == Null
  {
    if Encodable(v) then Ok(Write(v, w)) else Err(InvalidValue)
  }

  // ---------------------------------------------------------------------------
  // Specification predicates

  /** Every number token in `j` passes the Int probe or the Double probe. */
  ghost predicate Representable(j: Json, p: NumberProbes) {
    match j
    case Number(n) => p.asInt(n).Some? || p.asDouble(n).Some?
    case Array(items) => forall k | 0 <= k < |items| :: Representable(items[k], p)
    case Object(fields) => forall key | key in fields :: Representable(fields[key], p)
    case _ => true
  }

  /** A value that decoding can produce: no `Other` anywhere. */
  ghost predicate Decodable(v: AnyValue) {
    match v
    case Other => false
    case ArrayValue(items) => forall k | 0 <= k < |items| :: Decodable(items[k])
    case ObjectValue(fields) => forall key | key in fields :: Decodable(fields[key])
    case _ => true
  }

  /**
   * Same JSON shape: the same kind at every position, equal strings, booleans,
   * array lengths and object keys; number tokens may differ.
   */
  ghost predicate SameShape(a: Json, b: Json) {
    match a
    case Null => b.Null?
    case Boolean(x) => b == Boolean(x)
    case Number(_) => b.Number?
    case Str(s) => b == Str(s)
    case Array(xs) =>
      b.Array? && |b.items| == |xs| && forall k | 0 <= k < |xs| :: SameShape(xs[k], b.items[k])
    case Object(fs) =>
      b.Object? && b.fields.Keys == fs.Keys && forall key | key in fs :: SameShape(fs[key], b.fields[key])
  }

  /** The probes read back exactly what the writers wrote, and an encoded finite Double never reads as an Int. */
  ghost predicate Consistent(p: NumberProbes, w: NumberWriters) {
    && (forall i :: p.asInt(w.writeInt(i)) == Some(i))
    && (forall d | IsFinite(d) :: p.asInt(w.writeDouble(d)) == None && p.asDouble(w.writeDouble(d)) == Some(d))
  }

  // ---------------------------------------------------------------------------
  // Properties

  /** Probe order on a number: the Int probe wins whenever it succeeds, so an integer never becomes a Double. */
  lemma NumberProbeOrder(n: JsonNumber, p: NumberProbes)
    ensures p.asInt(n).Some? ==> Decode(Number(n), p) == Ok(IntValue(p.asInt(n).value))
    ensures p.asInt(n).None? && p.asDouble(n).Some? ==> Decode(Number(n), p) == Ok(DoubleValue(p.asDouble(n).value))
    ensures p.asInt(n).None? && p.asDouble(n).None? ==> Decode(Number(n), p) == Err(CannotDecode)
  {
  }

  /** Every non-number kind decodes to its own variant. */
  lemma DecodeScalars(p: NumberProbes, s: string, b: bool)
    ensures Decode(Str(s), p) == Ok(StringValue(s))
    ensures Decode(Boolean(b), p) == Ok(BoolValue(b))
    ensures Decode(Null, p) == Ok(NullValue)
  {
  }

  lemma DecodeItemsOk(items: seq<Json>, p: NumberProbes)
    ensures DecodeItems(items, p).Ok? <==> forall k | 0 <= k < |items| :: Decode(items[k], p).Ok?
    ensures DecodeItems(items, p).Ok? ==>
      |DecodeItems(items, p).value| == |items| &&
      forall k | 0 <= k < |items| :: DecodeItems(items, p).value[k] == Decode(items[k], p).value
  {
    if items != [] {
      DecodeItemsOk(items[1..], p);
      if DecodeItems(items, p).Ok? {
        forall k | 0 <= k < |items| ensures DecodeItems(items, p).value[k] == Decode(items[k], p).value {
          if k > 0 {
            assert items[k] == items[1..][k - 1];
          }
        }
      } else {
        if Decode(items[0], p).Ok? {
          var k :| 0 <= k < |items[1..]| && !Decode(items[1..][k], p).Ok?;
          assert items[1..][k] == items[k + 1];
        }
      }
    }
  }

  /** Decoding succeeds exactly on the JSON values whose every number passes a numeric probe. */
  lemma {:induction false} DecodeTotal(j: Json, p: NumberProbes)
    ensures Decode(j, p).Ok? <==> Representable(j, p)
    decreases j
  {
    match j
    case Array(items) =>
      forall k | 0 <= k < |items| ensures Decode(items[k], p).Ok? <==> Representable(items[k], p) {
        DecodeTotal(items[k], p);
      }
      DecodeItemsOk(items, p);
    case Object(fields) =>
      forall key | key in fields ensures Decode(fields[key], p).Ok? <==> Representable(fields[key], p) {
        DecodeTotal(fields[key], p);
      }
    case _ =>
  }

  /** Decoding never produces the `Other` variant. */
  lemma {:induction false} DecodeIsDecodable(j: Json, p: NumberProbes)
    requires Decode(j, p).Ok?
    ensures Decodable(Decode(j, p).value)
    decreases j
  {
    match j
    case Array(items) =>
      DecodeItemsOk(items, p);
      forall k | 0 <= k < |items| ensures Decodable(Decode(items[k], p).value) {
        DecodeIsDecodable(items[k], p);
      }
    case Object(fields) =>
      forall key | key in fields ensures Decodable(Decode(fields[key], p).value) {
        DecodeIsDecodable(fields[key], p);
      }
    case _ =>
  }

  /** encode(decode(j)) has the same shape as j. */
  lemma {:induction false} ShapeRoundTrip(j: Json, p: NumberProbes, w: NumberWriters)
    requires Decode(j, p).Ok?
    ensures SameShape(j, Write(Decode(j, p).value, w))
    decreases j
  {
    match j
    case Array(items) =>
      DecodeItemsOk(items, p);
      forall k | 0 <= k < |items| ensures SameShape(items[k], Write(Decode(items[k], p).value, w)) {
        ShapeRoundTrip(items[k], p, w);
      }
    case Object(fields) =>
      forall key | key in fields ensures SameShape(fields[key], Write(Decode(fields[key], p).value, w)) {
        ShapeRoundTrip(fields[key], p, w);
      }
    case _ =>
  }

  /** An array decodes, element by element, once every element does. */
  lemma DecodeArray(js: seq<Json>, p: NumberProbes)
    requires forall k | 0 <= k < |js| :: Decode(js[k], p).Ok?
    ensures Decode(Array(js), p).Ok?
    ensures var a := Decode(Array(js), p).value;
      a.ArrayValue? && |a.items| == |js| && forall k | 0 <= k < |js| :: Decode(js[k], p) == Ok(a.items[k])
  {
    DecodeItemsOk(js, p);
  }

  /** An object decodes, field by field, once every field value does. */
  lemma DecodeObject(fs: map<string, Json>, p: NumberProbes)
    requires forall key | key in fs :: Decode(fs[key], p).Ok?
    ensures Decode(Object(fs), p).Ok?
    ensures var o := Decode(Object(fs), p).value;
      o.ObjectValue? && o.fields.Keys == fs.Keys && forall key | key in fs :: Decode(fs[key], p) == Ok(o.fields[key])
  {
  }

  /** With probes that read back what the writers wrote, decode(encode(v)) == v for every decodable value that encodes. */
  lemma {:induction false} ValueRoundTrip(v: AnyValue, p: NumberProbes, w: NumberWriters)
    requires Consistent(p, w) && Decodable(v) && Encodable(v)
    ensures Encode(v, w) == Ok(Write(v, w))
    ensures Decode(Write(v, w), p) == Ok(v)
    decreases v
  {
    match v
    case ArrayValue(items) =>
      var js := Write(v, w).items;
      forall k | 0 <= k < |items| ensures Decode(js[k], p) == Ok(items[k]) {
        ValueRoundTrip(items[k], p, w);
      }
      DecodeArray(js, p);
      assert Decode(Array(js), p).value.items == items;
    case ObjectValue(fields) =>
      var fs := Write(v, w).fields;
      forall key | key in fields ensures Decode(fs[key], p) == Ok(fields[key]) {
        ValueRoundTrip(fields[key], p, w);
      }
      DecodeObject(fs, p);
      assert Decode(Object(fs), p).value.fields == fields;
    case _ =>
  }

  /**
   * What Foundation's reader and writer do guarantee: an Int reads back as
   * itself, and a written finite Double reads back either as an Int (an
   * integral Double such as `2.0` is written `2`) or as the same Double.
   */
  ghost predicate ReadsBack(p: NumberProbes, w: NumberWriters) {
    && (forall i :: p.asInt(w.writeInt(i)) == Some(i))
    && (forall d | IsFinite(d) :: p.asInt(w.writeDouble(d)).Some? || p.asDouble(w.writeDouble(d)) == Some(d))
  }

  /** `u` is `v`, except that a Double anywhere inside `v` may have come back as an Int. */
  ghost predicate SameUpToIntegralDoubles(v: AnyValue, u: AnyValue) {
    match v
    case DoubleValue(_) => u == v || u.IntValue?
    case ArrayValue(items) =>
      && u.ArrayValue? && |u.items| == |items|
      && forall k | 0 <= k < |items| :: SameUpToIntegralDoubles(items[k], u.items[k])
    case ObjectValue(fields) =>
      && u.ObjectValue? && u.fields.Keys == fields.Keys
      && forall key | key in fields :: SameUpToIntegralDoubles(fields[key], u.fields[key])
    case _ => u == v
  }

  /** A finite Double whose written form passes the Int probe (`2.0`, written `2`) comes back as that Int. */
  lemma IntegralDoubleBecomesInt(d: Double, i: Int64, p: NumberProbes, w: NumberWriters)
    requires IsFinite(d) && p.asInt(w.writeDouble(d)) == Some(i)
    ensures Encode(DoubleValue(d), w) == Ok(Number(w.writeDouble(d)))
    ensures Decode(Encode(DoubleValue(d), w).value, p) == Ok(IntValue(i))
  {
  }

  lemma ConsistentReadsBack(p: NumberProbes, w: NumberWriters)
    requires Consistent(p, w)
    ensures ReadsBack(p, w)
  {
  }

  /**
   * The round trip the program has: when encode(v) does not throw,
   * decode(encode(v)) succeeds and gives `v` back, except that Doubles may
   * come back as Ints.
   */
  lemma {:induction false} ValueRoundTripUpToIntegralDoubles(v: AnyValue, p: NumberProbes, w: NumberWriters)
    requires ReadsBack(p, w) && Decodable(v) && Encodable(v)
    ensures Encode(v, w) == Ok(Write(v, w))
    ensures Decode(Write(v, w), p).Ok?
    ensures SameUpToIntegralDoubles(v, Decode(Write(v, w), p).value)
    decreases v
  {
    match v
    case ArrayValue(items) =>
      var js := Write(v, w).items;
      forall k | 0 <= k < |items|
        ensures Decode(js[k], p).Ok? && SameUpToIntegralDoubles(items[k], Decode(js[k], p).value)
      {
        ValueRoundTripUpToIntegralDoubles(items[k], p, w);
      }
      DecodeArray(js, p);
    case ObjectValue(fields) =>
      var fs := Write(v, w).fields;
      forall key | key in fields
        ensures Decode(fs[key], p).Ok? && SameUpToIntegralDoubles(fields[key], Decode(fs[key], p).value)
      {
        ValueRoundTripUpToIntegralDoubles(fields[key], p, w);
      }
      DecodeObject(fs, p);
    case DoubleValue(d) =>
      assert p.asInt(w.writeDouble(d)).Some? || p.asDouble(w.writeDouble(d)) == Some(d);
    case _ =>
  }

  /** A value no encoder case recognises encodes as null. */
  lemma UnrecognisedEncodesAsNull(w: NumberWriters)
    ensures Encode(Other, w) == Ok(Null) && Encode(NullValue, w) == Ok(Null)
  {
  }

  /** Encoding a Double throws exactly when it is infinite or NaN: `1.0` encodes, the quiet NaN and +infinity throw. */
  lemma NonFiniteDoubleThrows(d: Double, w: NumberWriters)
    ensures Encode(DoubleValue(d), w).Err? <==> !IsFinite(d)
    ensures Encode(DoubleValue(Double(0x3FF0_0000_0000_0000)), w).Ok?
    ensures Encode(DoubleValue(Double(0x7FF8_0000_0000_0000)), w) == Err(InvalidValue)
    ensures Encode(DoubleValue(Double(0x7FF0_0000_0000_0000)), w) == Err(InvalidValue)
  {
  }

  /** One element that throws makes the whole array throw. */
  lemma ThrowingItemThrows(items: seq<AnyValue>, k: nat, w: NumberWriters)
    requires k < |items| && Encode(items[k], w).Err?
    ensures Encode(ArrayValue(items), w) == Err(InvalidValue)
  {
  }

  /** One field that throws makes the whole object throw. */
  lemma ThrowingFieldThrows(fields: map<string, AnyValue>, key: string, w: NumberWriters)
    requires key in fields && Encode(fields[key], w).Err?
    ensures Encode(ObjectValue(fields), w) == Err(InvalidValue)
  {
  }
}
