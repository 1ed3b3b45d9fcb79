/**
  The value `JSON.parse` hands back, seen only through what the oracle code
  does with it: JavaScript truthiness (`x && ...`), property reads
  (`x.regions`) and `typeof`/`Array.isArray` tests on what they yield.
 */
module Json {
  import opened Wrappers

  datatype Value =
    | Null
    | Bool(b: bool)
    | Number(x: real)
    | Str(s: string)
    | Array(items: seq<Value>)
    | Object(fields: map<string, Value>)

  /** JavaScript `ToBoolean` on a parsed value. */
  predicate Truthy(v: Value) {
    match v
    case Null => false
    case Bool(b) => b
    case Number(x) => x != 0.0
    case Str(s) => s != ""
    case Array(_) => true
    case Object(_) => true
  }

  /** Reading property `key` of a truthy value: an object yields its member
      or `undefined` (None); every other value has none of the keys the
      oracle reads. */
  function Get(v: Value, key: string): (r: Option<Value>)
    ensures r.Some? ==> v.Object? && key in v.fields && r.value == v.fields[key]
    ensures v.Object? && key in v.fields ==> r.Some?
  {
    match v
    case Object(fields) => if key in fields then Some(fields[key]) else None
    case _ => None
  }

  /** `typeof v.key === 'string'`, giving the string. */
  predicate IsStringField(v: Value, key: string) {
    Get(v, key).Some? && Get(v, key).value.Str?
  }

  /** `typeof v.key === 'boolean'`, giving the boolean. */
  predicate IsBoolField(v: Value, key: string) {
    Get(v, key).Some? && Get(v, key).value.Bool?
  }

  /** `Array.isArray(v.key)`. */
  predicate IsArrayField(v: Value, key: string) {
    Get(v, key).Some? && Get(v, key).value.Array?
  }
}
