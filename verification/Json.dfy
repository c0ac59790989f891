/**
 JSON documents as the service handles them. Objects that the source edits in
 place are `JsonObject` instances; everything below the top level is a value.
 */
module Json {
  import opened Text

  datatype Value =
    | Null
    | Bool(b: bool)
    | Int(n: int)
    | Str(s: string)
    | Arr(items: seq<Value>)
    | Obj(fields: map<string, Value>)

  type Object = map<string, Value>

  /** `getElement<int>` / `getValue<int>`: a 32-bit conversion that may throw. */
  function AsInt(v: Value): Option<int> {
    match v
    case Int(n) => if -0x8000_0000 <= n < 0x8000_0000 then Some(n) else None
    case Bool(b) => Some(if b then 1 else 0)
    case _ => None
  }

  /** `getElement<std::string>`: scalars have a text, null throws. */
  function AsText(v: Value): Option<string> {
    match v
    case Str(s) => Some(s)
    case Int(n) => Some(SignedDecimal(n))
    case Bool(b) => Some(if b then "true" else "false")
    case _ => None
  }

  predicate HasObj(o: Object, key: string) { key in o && o[key].Obj? }
  predicate HasArr(o: Object, key: string) { key in o && o[key].Arr? }
  predicate HasStr(o: Object, key: string) { key in o && o[key].Str? }

  /** The key is present with exactly this string. */
  predicate IsStr(o: Object, key: string, value: string) {
    key in o && o[key] == Str(value)
  }

  class JsonObject {
    var fields: Object

    constructor (fields: Object)
      ensures this.fields == fields
    {
      this.fields := fields;
    }
  }
}
