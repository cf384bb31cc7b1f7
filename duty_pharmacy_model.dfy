/**
 * `DutyPharmacyModel`: the record the service builds for each duty pharmacy, `fromJson` that renames
 * the API's fields into it, and the `getLocation` getter.
 */
module PharmacyModel {
  import opened Wrappers
  import opened JsString

  /**
   * A JSON value from the API. Only a `JText` is a string and has the string methods; a number, an
   * array or an object carries the text JavaScript's `String()` gives it.
   */
  datatype JsonValue = JText(s: string) | JNumber(text: string) | JBool(b: bool) | JNull | JStructured(text: string)

  /** A JSON object from the API; a key that is absent reads as `undefined`. */
  type JsonObject = map<string, JsonValue>

  /** The eleven fields, in constructor order; `None` is `undefined`. */
  datatype DutyPharmacyModel = DutyPharmacyModel(
    id: Option<JsonValue>,
    name: Option<JsonValue>,
    address: Option<JsonValue>,
    city: Option<JsonValue>,
    district: Option<JsonValue>,
    directions: Option<JsonValue>,
    phone: Option<JsonValue>,
    pharmacyDutyStart: Option<JsonValue>,
    pharmacyDutyEnd: Option<JsonValue>,
    latitude: Option<JsonValue>,
    longitude: Option<JsonValue>)

  /** `json.key`. */
  function Prop(json: JsonObject, key: string): Option<JsonValue> {
    if key in json then Some(json[key]) else None
  }

  /** The keys `fromJson` reads. */
  const JsonKeys: set<string> := {
    "pharmacyId", "pharmacyName", "address", "city", "district", "directions", "phone",
    "pharmacyDutyStart", "pharmacyDutyEnd", "latitude", "longitude"
  }

  /** `DutyPharmacyModel.fromJson`: `pharmacyId` becomes `id`, `pharmacyName` becomes `name`, the rest keep their names. */
  function FromJson(json: JsonObject): (m: DutyPharmacyModel)
    ensures m.id == Prop(json, "pharmacyId") && m.name == Prop(json, "pharmacyName")
    ensures m.address == Prop(json, "address") && m.city == Prop(json, "city")
    ensures m.district == Prop(json, "district") && m.directions == Prop(json, "directions")
    ensures m.phone == Prop(json, "phone")
    ensures m.pharmacyDutyStart == Prop(json, "pharmacyDutyStart")
    ensures m.pharmacyDutyEnd == Prop(json, "pharmacyDutyEnd")
    ensures m.latitude == Prop(json, "latitude") && m.longitude == Prop(json, "longitude")
  {
    DutyPharmacyModel(
      Prop(json, "pharmacyId"), Prop(json, "pharmacyName"), Prop(json, "address"), Prop(json, "city"),
      Prop(json, "district"), Prop(json, "directions"), Prop(json, "phone"),
      Prop(json, "pharmacyDutyStart"), Prop(json, "pharmacyDutyEnd"),
      Prop(json, "latitude"), Prop(json, "longitude"))
  }

  /** Keys other than the eleven it reads never change the record. */
  lemma FromJsonIgnoresOtherKeys(json: JsonObject, key: string, value: JsonValue)
    requires key !in JsonKeys
    ensures FromJson(json[key := value]) == FromJson(json)
  {
  }

  /** Two objects that agree on the eleven keys give the same record, whatever else they hold. */
  lemma FromJsonDeterminedByKeys(j1: JsonObject, j2: JsonObject)
    requires forall k :: k in JsonKeys ==> Prop(j1, k) == Prop(j2, k)
    ensures FromJson(j1) == FromJson(j2)
  {
    assert Prop(j1, "pharmacyId") == Prop(j2, "pharmacyId");
    assert Prop(j1, "pharmacyName") == Prop(j2, "pharmacyName");
    assert Prop(j1, "address") == Prop(j2, "address");
    assert Prop(j1, "city") == Prop(j2, "city");
    assert Prop(j1, "district") == Prop(j2, "district");
    assert Prop(j1, "directions") == Prop(j2, "directions");
    assert Prop(j1, "phone") == Prop(j2, "phone");
    assert Prop(j1, "pharmacyDutyStart") == Prop(j2, "pharmacyDutyStart");
    assert Prop(j1, "pharmacyDutyEnd") == Prop(j2, "pharmacyDutyEnd");
    assert Prop(j1, "latitude") == Prop(j2, "latitude");
    assert Prop(j1, "longitude") == Prop(j2, "longitude");
  }

  /**
   * The string a field holds, `None` when it holds anything else (`undefined`, `null`, a number, ...),
   * on which a string method throws a `TypeError`.
   */
  function Text(v: Option<JsonValue>): (r: Option<string>)
    ensures r.Some? <==> v.Some? && v.value.JText?
    ensures r.Some? ==> v == Some(JText(r.value))
  {
    if v.Some? && v.value.JText? then Some(v.value.s) else None
  }

  /** A template literal's `${v}`: the text `String()` gives a value, "undefined" when it is absent. */
  function Show(v: Option<JsonValue>): string {
    match v
    case None => "undefined"
    case Some(JText(s)) => s
    case Some(JNumber(text)) => text
    case Some(JBool(b)) => if b then "true" else "false"
    case Some(JNull) => "null"
    case Some(JStructured(text)) => text
  }

  /** The `getLocation` getter: latitude, comma, space, longitude. */
  function GetLocation(m: DutyPharmacyModel): (r: string)
    ensures |r| == |Show(m.latitude)| + 2 + |Show(m.longitude)|
    ensures r[..|Show(m.latitude)|] == Show(m.latitude)
    ensures r[|Show(m.latitude)|..] == ", " + Show(m.longitude)
  {
    Show(m.latitude) + ", " + Show(m.longitude)
  }

  /** When neither coordinate holds a comma, splitting the location at the comma gives both back. */
  lemma LocationSplitsBack(m: DutyPharmacyModel)
    requires ',' !in Show(m.latitude) && ',' !in Show(m.longitude)
    ensures Split(GetLocation(m), ',') == [Show(m.latitude), " " + Show(m.longitude)]
  {
    var lat, lng := Show(m.latitude), Show(m.longitude);
    assert GetLocation(m) == lat + [','] + (" " + lng);
    SplitAtFirst(lat, ',', " " + lng);
    SplitWithoutSeparator(" " + lng, ',');
  }
}
