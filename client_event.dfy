/**
 * The client's `Event`: a map annotation built by hand (the public
 * initializer) or decoded from the server's JSON, and encoded back into the
 * JSON body the client posts.
 */
module ClientEvent {
  import opened Wrappers
  import opened Rows
  import opened Json
  import opened ClientUser

  /** A Foundation `Date`. */
  datatype Date = Date(instant: int)

  datatype Coordinate = Coordinate(latitude: Degrees, longitude: Degrees)

  datatype Event = Event(
    name: string,
    address: string,
    startDate: Date,
    endDate: Option<Date>,
    user: Option<User>,
    eventID: Option<int>,
    title: Option<string>,
    subtitle: Option<string>,
    coordinate: Coordinate)

  /** The pattern both the decoder and the encoder set on the shared formatter before using it. */
  const DateFormat: string := "yyyy'-'MM'-'dd'T'HH':'mm':'ss'.'SSS'Z'"

  /** `dateFormatter.date(from:)` under a pattern: a partial parse, left uninterpreted. */
  type Parse = (string, string) -> Option<Date>

  /** `dateFormatter.string(from:)` under a pattern, left uninterpreted. */
  type Format = (string, Date) -> string

  /** The annotation's title and subtitle mirror the name and the address. */
  predicate Mirrored(e: Event) {
    e.title == Some(e.name) && e.subtitle == Some(e.address)
  }

  /**
   * The public initializer: a nil start date becomes `now`, and an event
   * built this way has neither an owner nor an id.
   */
  function Make(name: string, address: string, coordinate: Coordinate, startDate: Option<Date>, endDate: Option<Date>, now: Date): (e: Event)
    ensures Mirrored(e)
    ensures e.startDate == (if startDate.Some? then startDate.value else now)
    ensures e.endDate == endDate && e.coordinate == coordinate && e.name == name && e.address == address
    ensures e.user.None? && e.eventID.None?
  {
    Event(name, address, startDate.GetOr(now), endDate, None, None, Some(name), Some(address), coordinate)
  }

  /** Every field the decoder's guard needs is present and of the right type. */
  predicate Decodable(json: Dictionary, parse: Parse) {
    && StringAt(json, "address").Some?
    && IntAt(json, "id").Some?
    && DegreesAt(json, "lat").Some?
    && DegreesAt(json, "lon").Some?
    && StringAt(json, "name").Some?
    && StringAt(json, "started_at").Some?
    && parse(DateFormat, StringAt(json, "started_at").value).Some?
    && DictionaryAt(json, "owner").Some?
    && ClientUser.Decode(DictionaryAt(json, "owner").value).Some?
  }

  /** `end_at` read as a date: nil when absent, not a string, or unparseable. */
  function EndDate(json: Dictionary, parse: Parse): Option<Date> {
    match StringAt(json, "end_at")
    case None => None
    case Some(text) => parse(DateFormat, text)
  }

  /**
   * `init?(JSON:)`: the guard chain over address, id, lat, lon, name, a
   * parseable started_at and an owner `User(JSON:)` accepts; then the
   * optional `end_at`.
   */
  function Decode(json: Dictionary, parse: Parse): (r: Option<Event>)
    ensures r.Some? <==> Decodable(json, parse)
    ensures r.Some? ==>
      && Mirrored(r.value)
      && r.value.name == StringAt(json, "name").value
      && r.value.address == StringAt(json, "address").value
      && r.value.eventID == IntAt(json, "id")
      && r.value.coordinate == Coordinate(DegreesAt(json, "lat").value, DegreesAt(json, "lon").value)
      && Some(r.value.startDate) == parse(DateFormat, StringAt(json, "started_at").value)
      && r.value.user == ClientUser.Decode(DictionaryAt(json, "owner").value)
      && r.value.endDate == EndDate(json, parse)
  {
    match (StringAt(json, "address"), IntAt(json, "id"), DegreesAt(json, "lat"), DegreesAt(json, "lon"), StringAt(json, "name"))
    case (Some(address), Some(id), Some(lat), Some(lon), Some(name)) =>
      (match StringAt(json, "started_at")
       case None => None
       case Some(startString) =>
         match parse(DateFormat, startString)
         case None => None
         case Some(startDate) =>
           match DictionaryAt(json, "owner")
           case None => None
           case Some(userJSON) =>
             match ClientUser.Decode(userJSON)
             case None => None
             case Some(user) =>
               Some(Event(name, address, startDate, EndDate(json, parse), Some(user), Some(id),
                          Some(name), Some(address), Coordinate(lat, lon))))
    case _ => None
  }

  /** The keys the decoder's guard reads. */
  const GuardKeys: set<string> := {"address", "id", "lat", "lon", "name", "started_at", "owner"}

  /** `a` and `b` hold the same value at `key`, or both lack it. */
  predicate SameAt(a: Dictionary, b: Dictionary, key: string) {
    (key in a <==> key in b) && (key in a ==> a[key] == b[key])
  }

  /** `end_at` never makes decoding fail: replacing or removing it keeps the outcome's success. */
  lemma EndDateNeverRejects(json: Dictionary, parse: Parse, endAt: Json)
    ensures Decode(json["end_at" := endAt], parse).Some? <==> Decode(json, parse).Some?
    ensures Decode(json - {"end_at"}, parse).Some? <==> Decode(json, parse).Some?
  {
    assert "end_at" !in GuardKeys by {
      assert "address" != "end_at" && "id" != "end_at" && "lat" != "end_at" && "lon" != "end_at";
      assert "name" != "end_at" && "started_at" != "end_at" && "owner" != "end_at";
    }
    GuardReadsOnlyItsKeys(json, json["end_at" := endAt], parse);
    GuardReadsOnlyItsKeys(json, json - {"end_at"}, parse);
  }

  /** Two objects that agree on the seven keys the guard names pass or fail it together, whatever else they hold. */
  lemma GuardReadsOnlyItsKeys(json: Dictionary, other: Dictionary, parse: Parse)
    requires forall k :: k in GuardKeys ==> SameAt(json, other, k)
    ensures Decodable(json, parse) <==> Decodable(other, parse)
  {
    assert SameAt(json, other, "address") && SameAt(json, other, "id") && SameAt(json, other, "lat");
    assert SameAt(json, other, "lon") && SameAt(json, other, "name") && SameAt(json, other, "started_at");
    assert SameAt(json, other, "owner");
  }

  /**
   * `JSONDictionary()`: name, address, lat, lon and started_at, plus `end_at`
   * when there is an end date; never the id or the owner.
   */
  function Encoding(e: Event, format: Format): (d: Dictionary)
    ensures d.Keys == {"name", "address", "lat", "lon", "started_at"} + (if e.endDate.Some? then {"end_at"} else {})
    ensures "id" !in d && "owner" !in d
    ensures d["name"] == JString(e.name) && d["address"] == JString(e.address)
    ensures d["lat"] == JNumber(DegreesNumber(e.coordinate.latitude))
    ensures d["lon"] == JNumber(DegreesNumber(e.coordinate.longitude))
    ensures d["started_at"] == JString(format(DateFormat, e.startDate))
    ensures e.endDate.Some? ==> d["end_at"] == JString(format(DateFormat, e.endDate.value))
  {
    var base := map[
      "name" := JString(e.name),
      "address" := JString(e.address),
      "lat" := JNumber(DegreesNumber(e.coordinate.latitude)),
      "lon" := JNumber(DegreesNumber(e.coordinate.longitude)),
      "started_at" := JString(format(DateFormat, e.startDate))];
    if e.endDate.Some? then base["end_at" := JString(format(DateFormat, e.endDate.value))] else base
  }

  /** `JSONDictionary()` as written: a dictionary literal, then `end_at` inserted in place. */
  method JSONDictionary(e: Event, format: Format) returns (dictionary: Dictionary)
    ensures dictionary == Encoding(e, format)
  {
    dictionary := map[
      "name" := JString(e.name),
      "address" := JString(e.address),
      "lat" := JNumber(DegreesNumber(e.coordinate.latitude)),
      "lon" := JNumber(DegreesNumber(e.coordinate.longitude)),
      "started_at" := JString(format(DateFormat, e.startDate))];
    if e.endDate.Some? {
      dictionary := dictionary["end_at" := JString(format(DateFormat, e.endDate.value))];
    }
  }

  /** The encoding alone never decodes: it carries neither `id` nor `owner`. */
  lemma EncodingAloneDoesNotDecode(e: Event, format: Format, parse: Parse)
    ensures Decode(Encoding(e, format), parse).None?
  {
  }

  /**
   * With the id and the owner the server adds, the encoding decodes back to
   * the same event, provided parsing undoes formatting under the pattern.
   */
  lemma EncodeDecodeRoundTrip(e: Event, format: Format, parse: Parse)
    requires Mirrored(e) && e.eventID.Some? && e.user.Some?
    requires forall d :: parse(DateFormat, format(DateFormat, d)) == Some(d)
    ensures var owner := map["id" := JNumber(IntNumber(e.user.value.userID))];
      var json := Encoding(e, format)["id" := JNumber(IntNumber(e.eventID.value))]["owner" := JObject(owner)];
      Decode(json, parse) == Some(e)
  {
    var owner := map["id" := JNumber(IntNumber(e.user.value.userID))];
    var json := Encoding(e, format)["id" := JNumber(IntNumber(e.eventID.value))]["owner" := JObject(owner)];
    assert ClientUser.Decode(owner) == e.user;
    assert parse(DateFormat, StringAt(json, "started_at").value) == Some(e.startDate);
    assert EndDate(json, parse) == e.endDate;
    assert Decodable(json, parse);
  }
}
