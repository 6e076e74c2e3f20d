/**
 * The Python values the tools receive as `Any`: scalars, lists and dicts with
 * string keys in insertion order.
 */
module Json {
  import opened Dicts

  datatype Value =
    | Null
    | Bool(b: bool)
    | Int(i: int)
    | Str(s: string)
    | List(items: seq<Value>)
    | Dict(entries: Entries<Value>)

  /** `isinstance(v, (list, dict))` */
  predicate IsContainer(v: Value)
  {
    v.List? || v.Dict?
  }

  /** Python truth value: `None`, `False`, `0`, `""`, `[]` and `{}` are false. */
  predicate Truthy(v: Value)
  {
    match v
    case Null => false
    case Bool(b) => b
    case Int(i) => i != 0
    case Str(s) => s != ""
    case List(items) => items != []
    case Dict(entries) => entries != []
  }
}
