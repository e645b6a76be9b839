/**
 * The values `JSONSerialization` hands the Swift client, and the checked
 * casts (`as? String`, `as? Int`, `as? CLLocationDegrees`,
 * `as? [String : AnyObject]`) its decoders apply to them.
 */
module Json {
  import opened Wrappers
  import opened Rows

  /**
   * A JSON number as Foundation bridges it: it reads `as? Int` only when it
   * is integral (`asInt`), and always reads as a Double (`asDegrees`).
   * Nothing is computed with the Double.
   */
  datatype Number = Number(asInt: Option<int>, asDegrees: Degrees)

  datatype Json =
    | JNull
    | JBool(b: bool)
    | JNumber(n: Number)
    | JString(s: string)
    | JArray(items: seq<Json>)
    | JObject(fields: map<string, Json>)

  /** A JSON object, the `[String : AnyObject]` the decoders take. */
  type Dictionary = map<string, Json>

  /** The number an `Int` is bridged to. */
  function IntNumber(i: int): (n: Number)
    ensures n.asInt == Some(i)
  {
    Number(Some(i), i as real)
  }

  /** The number a Double is bridged to: integral values also read as `Int`. */
  function DegreesNumber(d: Degrees): (n: Number)
    ensures n.asDegrees == d
    ensures n.asInt.Some? <==> d == d.Floor as real
    ensures n.asInt.Some? ==> n.asInt.value as real == d
  {
    Number(if d == d.Floor as real then Some(d.Floor) else None, d)
  }

  /** `json[key] as? String`. */
  function StringAt(json: Dictionary, key: string): (r: Option<string>)
    ensures r.Some? <==> key in json && json[key].JString?
    ensures r.Some? ==> json[key] == JString(r.value)
  {
    if key in json && json[key].JString? then Some(json[key].s) else None
  }

  /** `json[key] as? Int`. */
  function IntAt(json: Dictionary, key: string): (r: Option<int>)
    ensures r.Some? <==> key in json && json[key].JNumber? && json[key].n.asInt.Some?
    ensures r.Some? ==> json[key].n.asInt == r
  {
    if key in json && json[key].JNumber? then json[key].n.asInt else None
  }

  /** `json[key] as? CLLocationDegrees`. */
  function DegreesAt(json: Dictionary, key: string): (r: Option<Degrees>)
    ensures r.Some? <==> key in json && json[key].JNumber?
    ensures r.Some? ==> json[key].n.asDegrees == r.value
  {
    if key in json && json[key].JNumber? then Some(json[key].n.asDegrees) else None
  }

  /** `json[key] as? [String : AnyObject]`. */
  function DictionaryAt(json: Dictionary, key: string): (r: Option<Dictionary>)
    ensures r.Some? <==> key in json && json[key].JObject?
    ensures r.Some? ==> json[key] == JObject(r.value)
  {
    if key in json && json[key].JObject? then Some(json[key].fields) else None
  }
}
