/**
 * The JSON values a request body can parse to, with the two JavaScript operations the handler
 * applies to them: reading a property (which throws on `null`) and converting an array
 * element to a string as `Array.prototype.join` does.
 */
module JsonValue {
  import opened Wrappers
  import opened JsText

  /**
   * A parsed JSON value. A number carries the text JavaScript prints for it (`String(n)`),
   * so `0` and `-0` both carry `"0"`.
   */
  datatype Json =
    | JNull
    | JBool(b: bool)
    | JNumber(text: string)
    | JString(s: string)
    | JArray(items: seq<Json>)
    | JObject(fields: map<string, Json>)

  /** The value of `v[key]` on a value that is not `null`: `undefined` unless `v` is an object holding `key`. */
  function Field(v: Json, key: string): (r: Option<Json>)
    ensures r.Some? <==> v.JObject? && key in v.fields
    ensures r.Some? ==> r.value == v.fields[key]
  {
    match v
    case JObject(fields) => if key in fields then Some(fields[key]) else None
    case _ => None
  }

  /** The message of the TypeError that reading a property of `null` throws. */
  function NullReadMessage(key: string): string
  {
    "Cannot read properties of null (reading '" + key + "')"
  }

  /** `v.key`: throws on `null`, otherwise yields the field or `undefined`. */
  function ReadProperty(v: Json, key: string): (r: Result<Option<Json>, string>)
    ensures r.Failure? <==> v.JNull?
    ensures r.Success? ==> r.value == Field(v, key)
  {
    if v.JNull? then Failure(NullReadMessage(key)) else Success(Field(v, key))
  }

  /**
   * JavaScript truthiness of a property read (`None` is `undefined`): `undefined`, `null`,
   * `false`, zero and the empty string are falsy; arrays and objects, even empty ones, are truthy.
   */
  predicate Truthy(v: Option<Json>)
  {
    match v
    case None => false
    case Some(JNull) => false
    case Some(JBool(b)) => b
    case Some(JNumber(t)) => t != "0"
    case Some(JString(s)) => s != ""
    case Some(JArray(_)) => true
    case Some(JObject(_)) => true
  }

  /**
   * The message of the TypeError that converting an object to a string throws when the
   * object's own `toString` key hides `Object.prototype.toString` with a value that cannot
   * be called, so that only `valueOf`, which returns the object itself, is left.
   */
  const ConvertMessage := "Cannot convert object to primitive value"

  /**
   * Whether JavaScript can convert a parsed value to a string: every object reached through
   * arrays must not hold a `toString` key of its own (no parsed value is a function, so such a
   * key is never callable). An object's other fields are not looked at.
   */
  predicate Convertible(v: Json)
  {
    match v
    case JObject(fields) => "toString" !in fields
    case JArray(items) => forall i :: 0 <= i < |items| ==> Convertible(items[i])
    case _ => true
  }

  /** Every element of an array can be converted, so `join` on it does not throw. */
  predicate Joinable(items: seq<Json>)
  {
    forall i :: 0 <= i < |items| ==> Convertible(items[i])
  }

  /**
   * Conversions done one after the other: all the strings, or the exception of the first
   * conversion that threw.
   */
  function Collect(rs: seq<Result<string, string>>): (r: Result<seq<string>, string>)
    ensures r.Success? <==> forall i :: 0 <= i < |rs| ==> rs[i].Success?
    ensures r.Success? ==> |r.value| == |rs| && forall i :: 0 <= i < |rs| ==> rs[i] == Success(r.value[i])
    ensures r.Failure? ==> exists i :: 0 <= i < |rs| && rs[i] == Failure(r.error)
  {
    if rs == [] then Success([])
    else if rs[0].Failure? then Failure(rs[0].error)
    else
      match Collect(rs[1..])
      case Failure(e) =>
        assert exists i :: 0 <= i < |rs[1..]| && rs[1..][i] == Failure(e);
        var i :| 0 <= i < |rs[1..]| && rs[1..][i] == Failure(e);
        assert rs[i + 1] == Failure(e);
        Failure(e)
      case Success(tail) => Success([rs[0].value] + tail)
  }

  /**
   * How `Array.prototype.join` writes one element: `null` as nothing, a nested array joined
   * with `","`, an object as `"[object Object]"`, unless the conversion throws.
   */
  function ElementString(v: Json): (r: Result<string, string>)
    ensures r.Success? <==> Convertible(v)
    ensures r.Failure? ==> r.error == ConvertMessage
  {
    match v
    case JNull => Success("")
    case JBool(b) => Success(if b then "true" else "false")
    case JNumber(t) => Success(t)
    case JString(s) => Success(s)
    case JArray(items) =>
      var rs := seq(|items|, i requires 0 <= i < |items| => ElementString(items[i]));
      assert forall i :: 0 <= i < |items| ==> rs[i] == ElementString(items[i]);
      var parts := Collect(rs);
      if parts.Failure? then Failure(parts.error) else Success(Join(parts.value, ","))
    case JObject(fields) =>
      if "toString" in fields then Failure(ConvertMessage) else Success("[object Object]")
  }

  /** The elements of an array, written as `join` writes them, or the exception it throws. */
  function ElementStrings(items: seq<Json>): (r: Result<seq<string>, string>)
    ensures r.Success? <==> Joinable(items)
    ensures r.Failure? ==> r.error == ConvertMessage
    ensures r.Success? ==>
      |r.value| == |items| && forall i :: 0 <= i < |items| ==> ElementString(items[i]) == Success(r.value[i])
  {
    var rs := seq(|items|, i requires 0 <= i < |items| => ElementString(items[i]));
    assert forall i :: 0 <= i < |items| ==> rs[i] == ElementString(items[i]);
    Collect(rs)
  }

  /** An array of strings, as `JSON.stringify` writes a `string[]` and `JSON.parse` reads it back. */
  function Strings(xs: seq<string>): (r: seq<Json>)
    ensures |r| == |xs|
  {
    seq(|xs|, i requires 0 <= i < |xs| => JString(xs[i]))
  }

  /** `join` writes strings as they are. */
  lemma ElementStringsOfStrings(xs: seq<string>)
    ensures ElementStrings(Strings(xs)) == Success(xs)
  {
    var r := ElementStrings(Strings(xs));
    assert Joinable(Strings(xs));
    assert |r.value| == |xs|;
    forall i | 0 <= i < |xs| ensures r.value[i] == xs[i] {
      assert ElementString(Strings(xs)[i]) == Success(r.value[i]);
    }
    assert r.value == xs;
  }

  /**
   * An object holding a `toString` key of its own, even inside a nested array, makes
   * `join` throw, while one without it is written as `"[object Object]"`.
   */
  lemma ToStringKeyThrows(fields: map<string, Json>)
    ensures ElementStrings([JObject(fields["toString" := JNumber("1")])]) == Failure(ConvertMessage)
    ensures ElementStrings([JArray([JObject(fields["toString" := JNumber("1")])])]) == Failure(ConvertMessage)
    ensures ElementStrings([JObject(fields - {"toString"})]) == Success(["[object Object]"])
  {
    var bad := JObject(fields["toString" := JNumber("1")]);
    assert !Convertible(bad);
    assert [bad][0] == bad;
    assert !Convertible(JArray([bad]));
    var good := JObject(fields - {"toString"});
    var r := ElementStrings([good]);
    assert ElementString([good][0]) == Success(r.value[0]) == Success("[object Object]");
    assert r.value == ["[object Object]"];
  }
}
