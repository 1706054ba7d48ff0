/** JSON values; objects compare as maps, whatever the order of their keys. */
module Json {
  import opened Options

  datatype Value =
    | Null
    | Bool(b: bool)
    | Number(n: int)
    | Text(s: string)
    | Array(items: seq<Value>)
    | Object(fields: map<string, Value>)

  function Get(fields: map<string, Value>, key: string): Option<Value> {
    if key in fields then Some(fields[key]) else None
  }
}
