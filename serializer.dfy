/**
 * `JsonUtil`: conversion between JSON values and the plain Java values (Boolean, Double,
 * String, null) that primitive map and replace ops hold.
 *
 * A Java value is an `Option<Json>`: `None` is Java null, `Some(JBool(b))`, `Some(JNum(n))`
 * and `Some(JStr(s))` are a Boolean, a Double and a String.
 */
module JsonUtil {
  import opened Wrappers
  import opened Json
  import opened Decimal

  predicate IsPrimitive(j: Json) { j.JBool? || j.JNum? || j.JStr? }

  /** A Java value a primitive op may hold: null, or a Boolean, Double or String. */
  predicate IsPrimitiveValue(v: Option<Json>) { v.None? || IsPrimitive(v.value) }

  /** `JsonUtil.fromJson`: primitives become Java values, JSON null becomes Java null. */
  function FromJson(j: Json): (r: Result<Option<Json>>)
    ensures r.Ok? <==> !j.JArr? && !j.JObj?
    ensures r.Ok? ==> IsPrimitiveValue(r.value)
    ensures r.Ok? && j.JNull? ==> r.value.None?
    ensures r.Ok? && !j.JNull? ==> r.value == Some(j)
  {
    match j
    case JNull => Ok(None)
    case JBool(_) => Ok(Some(j))
    case JNum(_) => Ok(Some(j))
    case JStr(_) => Ok(Some(j))
    case _ => Err(Unsupported)
  }

  /** The JSON value a Java value is written as: Java null is written as JSON null. */
  function ToJsonValue(v: Option<Json>): Json
  {
    if v.None? then JNull else v.value
  }

  /** `Double.toString` of an integral double whose magnitude has at most 17 digits. */
  function DoubleText(n: int): (s: string)
    ensures |s| > 0
  {
    var sign := if n < 0 then "-" else "";
    var m: nat := if n < 0 then -n else n;
    if m < 10_000_000 then sign + NatToString(m) + ".0"
    else
      var digits := NatToString(m);
      var fraction := StripTrailingZeros(digits[1..]);
      sign + [digits[0], '.'] + (if |fraction| == 0 then "0" else fraction) + "E"
        + NatToString(|digits| - 1)
  }

  function StripTrailingZeros(s: string): (r: string)
    ensures |r| <= |s| && r == s[..|r|]
    ensures |r| > 0 ==> r[|r| - 1] != '0'
  {
    if |s| == 0 || s[|s| - 1] != '0' then s else StripTrailingZeros(s[..|s| - 1])
  }

  /**
   * `JsonUtil.toJson`: a String is wrapped in double quotes without escaping; anything else
   * is its `toString` ("null" for Java null).
   */
  function ToJson(v: Option<Json>): (s: string)
    requires IsPrimitiveValue(v)
    ensures v.Some? && v.value.JStr? ==> s == "\"" + v.value.s + "\""
    ensures v.None? ==> s == "null"
  {
    match v
    case None => "null"
    case Some(JStr(str)) => "\"" + str + "\""
    case Some(JBool(b)) => if b then "true" else "false"
    case Some(JNum(n)) => DoubleText(n)
  }

  /** Reading back what was written: every primitive Java value survives the trip. */
  lemma FromJsonToJsonValue(v: Option<Json>)
    requires IsPrimitiveValue(v)
    ensures FromJson(ToJsonValue(v)) == Ok(v)
  {
  }

  /** Only the text of a String starts with a quote, so the four kinds never print alike. */
  lemma ToJsonQuotesOnlyStrings(v: Option<Json>)
    requires IsPrimitiveValue(v)
    ensures ToJson(v)[0] == '"' <==> v.Some? && v.value.JStr?
  {
    if v.Some? && v.value.JNum? {
      var n := v.value.n;
      var m: nat := if n < 0 then -n else n;
      var digits := NatToString(m);
      assert digits[0] in digits;
    }
  }
}

/**
 * `Serializer`: the equality, parse and print strategy an op uses for its values.
 * `PRIMITIVE` holds plain Java values; `JSON` holds JSON values as they are.
 */
module Serializers {
  import opened Wrappers
  import opened Json
  import JsonUtil

  datatype Serializer = Primitive | JsonValues

  /**
   * `areEqual`: null-safe equality. For `JSON` two values are equal when their JSON text is,
   * which for the values of this model is equality of the values.
   */
  predicate AreEqual(ser: Serializer, a: Option<Json>, b: Option<Json>)
  {
    match ser
    case Primitive => if a.None? then b.None? else b.Some? && a.value == b.value
    case JsonValues => (a.None? && b.None?) || (a.Some? && b.Some? && a.value == b.value)
  }

  /** `fromJson`: `PRIMITIVE` converts as `JsonUtil.fromJson`; `JSON` keeps the value. */
  function FromJson(ser: Serializer, j: Json): (r: Result<Option<Json>>)
    ensures ser == JsonValues ==> r == Ok(Some(j))
    ensures ser == Primitive ==> r == JsonUtil.FromJson(j)
  {
    match ser
    case Primitive => JsonUtil.FromJson(j)
    case JsonValues => Ok(Some(j))
  }

  /** Both strategies compare exactly as Dafny equality on optional values. */
  lemma AreEqualIsEquality(ser: Serializer, a: Option<Json>, b: Option<Json>)
    ensures AreEqual(ser, a, b) <==> a == b
  {
  }

  /**
   * Writing then reading a value: `PRIMITIVE` gives back every primitive value; `JSON` gives
   * back every non-null value, and turns a Java null into a JSON null.
   */
  lemma FromJsonOfWritten(ser: Serializer, v: Option<Json>)
    requires ser == Primitive ==> JsonUtil.IsPrimitiveValue(v)
    ensures ser == Primitive ==> FromJson(ser, JsonUtil.ToJsonValue(v)) == Ok(v)
    ensures ser == JsonValues ==>
      FromJson(ser, JsonUtil.ToJsonValue(v)) == Ok(if v.None? then Some(JNull) else v)
  {
    if ser == Primitive {
      JsonUtil.FromJsonToJsonValue(v);
    }
  }
}
