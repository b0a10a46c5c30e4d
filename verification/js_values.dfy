/**
 * The untyped message bodies (`raw: any`) the table gateway receives, as
 * JSON-like values, with JavaScript's `typeof`, truthiness and property
 * read. Numbers are integers here.
 */
module JsValues {

  import opened Wrappers

  datatype JsValue =
    | Undefined
    | Null
    | Bool(b: bool)
    | Number(n: int)
    | Str(s: string)
    | Array(items: seq<JsValue>)
    | Object(fields: map<string, JsValue>)

  /** `!!v`: false for `undefined`, `null`, `false`, `0` and `""`. */
  predicate Truthy(v: JsValue) {
    match v
    case Undefined => false
    case Null => false
    case Bool(b) => b
    case Number(n) => n != 0
    case Str(s) => s != ""
    case Array(_) => true
    case Object(_) => true
  }

  /** `typeof v`; note that `typeof null` is `"object"`. */
  function TypeOf(v: JsValue): string {
    match v
    case Undefined => "undefined"
    case Null => "object"
    case Bool(_) => "boolean"
    case Number(_) => "number"
    case Str(_) => "string"
    case Array(_) => "object"
    case Object(_) => "object"
  }

  /**
   * `v[key]` on a value the caller has already found truthy: an own field
   * of an object, `undefined` for anything else.
   */
  function Get(v: JsValue, key: string): JsValue {
    if v.Object? && key in v.fields then v.fields[key] else Undefined
  }

  /** `typeof v[key] === "string"`, giving the string when it is. */
  function StringField(v: JsValue, key: string): (r: Option<string>)
    ensures r.Some? <==> TypeOf(Get(v, key)) == "string"
    ensures r.Some? ==> Get(v, key) == Str(r.value)
  {
    match Get(v, key)
    case Str(s) => Some(s)
    case _ => None
  }

  /** `typeof v[key] === "number"`, giving the number when it is. */
  function NumberField(v: JsValue, key: string): (r: Option<int>)
    ensures r.Some? <==> TypeOf(Get(v, key)) == "number"
    ensures r.Some? ==> Get(v, key) == Number(r.value)
  {
    match Get(v, key)
    case Number(n) => Some(n)
    case _ => None
  }
}
