/** A parsed configuration value; an object's fields come in the order its map yields them. */
module Json {
  datatype Value =
    | Null
    | Bool(b: bool)
    | Number(n: real)
    | Str(s: string)
    | Arr(items: seq<Value>)
    | Obj(fields: seq<Entry>)

  datatype Entry = Entry(key: string, value: Value)
}
