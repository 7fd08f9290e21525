/**
  The values a markdown frontmatter block can hold, as JavaScript sees them
  after YAML parsing, together with JavaScript truthiness and property access.
 */
module Values {

  /** A frontmatter value. `Undefined` stands for a property that is absent or
      explicitly `undefined`. Numbers are restricted to integers. */
  datatype Value =
    | Undefined
    | Null
    | Bool(b: bool)
    | Num(n: int)
    | Str(s: string)
    | Arr(items: seq<Value>)
    | Obj(fields: map<string, Value>)

  /** JavaScript truthiness: `undefined`, `null`, `false`, `0` and `""` are falsy. */
  predicate Truthy(v: Value)
  {
    match v
    case Undefined => false
    case Null => false
    case Bool(b) => b
    case Num(n) => n != 0
    case Str(s) => s != ""
    case Arr(_) => true
    case Obj(_) => true
  }

  /** `obj[key]` on a plain object: `undefined` when the key is missing. */
  function Get(fields: map<string, Value>, key: string): Value
  {
    if key in fields then fields[key] else Undefined
  }

  /** `v?.[key]`: optional chaining short-circuits on `undefined` and `null`;
      a string, number, boolean or array has no own property of that name. */
  function OptionalProperty(v: Value, key: string): Value
  {
    match v
    case Obj(fields) => Get(fields, key)
    case _ => Undefined
  }
}
