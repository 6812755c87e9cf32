/**
 * The JSON-like values the executor decodes backend answers into: Go's
 * `interface{}` holding a `map[string]interface{}`, a `[]interface{}`, a
 * string, a number, a bool or nil.
 */
module Json {

  datatype Value =
    | Null
    | Bool(b: bool)
    | Num(n: int)
    | Str(s: string)
    | List(items: seq<Value>)
    | Obj(fields: map<string, Value>)

  /** The fields of an object, the type of a merge target. */
  type Fields = map<string, Value>

  /** The reserved field carrying the correlation key of a re-entry object. */
  const FederationField: string := "__federation"

  /** The field through which an object reports its concrete type. */
  const TypenameField: string := "__typename"

  /** `v` occurs somewhere inside `node` (or is `node` itself). */
  ghost predicate Within(v: Value, node: Value)
  {
    || v == node
    || (node.List? && exists i :: 0 <= i < |node.items| && Within(v, node.items[i]))
    || (node.Obj? && exists k :: k in node.fields && Within(v, node.fields[k]))
  }
}
