/**
 * JSON values as the elemental JSON library holds them. Numbers are Java doubles in the
 * library; this model keeps them as mathematical integers. Two values are "equal by JSON
 * text" exactly when they are equal as values here.
 */
module Json {
  import opened Wrappers

  datatype Json =
    | JNull
    | JBool(b: bool)
    | JNum(n: int)
    | JStr(s: string)
    | JArr(items: seq<Json>)
    | JObj(fields: map<string, Json>)

  /** `elemental.json.JsonType`. */
  datatype JsonType = NULL | BOOLEAN | NUMBER | STRING | ARRAY | OBJECT

  function TypeOf(j: Json): (t: JsonType)
    ensures t == NULL <==> j.JNull?
    ensures t == BOOLEAN <==> j.JBool?
    ensures t == NUMBER <==> j.JNum?
    ensures t == STRING <==> j.JStr?
    ensures t == ARRAY <==> j.JArr?
    ensures t == OBJECT <==> j.JObj?
  {
    match j
    case JNull => NULL
    case JBool(_) => BOOLEAN
    case JNum(_) => NUMBER
    case JStr(_) => STRING
    case JArr(_) => ARRAY
    case JObj(_) => OBJECT
  }

  /**
   * `value.asNumber()` where it is a number: a number is itself; an array of no element is 0
   * and an array of one element is that element's number. A longer array gives NaN, and the
   * other kinds are converted by classes outside this model: both are `None` here.
   */
  function AsNumber(value: Json): (r: Option<int>)
    ensures value.JNum? ==> r == Some(value.n)
    ensures r.Some? ==> value.JNum? || value.JArr?
    ensures value.JArr? && |value.items| > 1 ==> r.None?
  {
    match value
    case JNum(n) => Some(n)
    case JArr(items) =>
      if |items| == 0 then Some(0)
      else if |items| == 1 then AsNumber(items[0])
      else None
    case _ => None
  }

  /** The number of a nested one-element array is the number inside; the empty array counts 0. */
  lemma AsNumberOfArrays(n: int)
    ensures AsNumber(JArr([])) == Some(0)
    ensures AsNumber(JArr([JNum(n)])) == Some(n)
    ensures AsNumber(JArr([JArr([JNum(n)])])) == Some(n)
    ensures AsNumber(JArr([JNum(n), JNum(n)])) == None
  {
  }
}
