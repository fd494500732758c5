/**
 * JSON values as `json.load` produces them: the configuration file and the
 * cache files are JSON objects whose members may themselves be objects.
 */
module Json {
  import opened Wrappers

  datatype Value =
    | Dict(entries: map<string, Value>)
    | List(items: seq<Value>)
    | Str(s: string)
    | Int(i: int)
    | Real(r: real)
    | Bool(b: bool)
    | Null

  /** The value reached from `v` by indexing with each key in turn, or `None` where indexing fails. */
  function Lookup(v: Value, keys: seq<string>): (r: Option<Value>)
    ensures keys == [] ==> r == Some(v)
    ensures r.Some? && keys != [] ==> v.Dict? && keys[0] in v.entries
    decreases |keys|
  {
    if keys == [] then Some(v)
    else if v.Dict? && keys[0] in v.entries then Lookup(v.entries[keys[0]], keys[1..])
    else None
  }
}
