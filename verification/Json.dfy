/**
 JSON documents as the controllers hold them after decoding (RFC 8259, sections 3 to 5):
 Go's map[string]interface{}, []interface{} and scalars inside interface{} values.
 */
module Json {

  datatype Json =
    | Null
    | Bool(b: bool)
    | Num(n: real)
    | Str(s: string)
    | Arr(items: seq<Json>)
    | Obj(fields: map<string, Json>)
  {
    predicate Scalar() {
      !Arr? && !Obj?
    }
  }

  /** Reading a Go map: an absent key and a key holding null both read as nil. */
  function Lookup(fields: map<string, Json>, key: string): Json {
    if key in fields then fields[key] else Null
  }

  /** One step down a document: an object key or a list index. */
  datatype Step = Key(key: string) | Index(i: nat)

  /** The value at a path, Null when there is nothing there. */
  function At(j: Json, path: seq<Step>): Json
    decreases |path|
  {
    if path == [] then j
    else
      match (path[0], j)
      case (Key(k), Obj(f)) => At(Lookup(f, k), path[1..])
      case (Index(i), Arr(items)) => if i < |items| then At(items[i], path[1..]) else Null
      case _ => Null
  }
}
