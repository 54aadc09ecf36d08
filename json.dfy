/** The JSON values the scripts read from configuration files and API responses, with
    Python's truthiness on them. Numbers are integers only. */
module JsonValues {
  import opened Wrappers
  import opened Dicts

  datatype Json =
    | Null
    | Bool(b: bool)
    | Int(i: int)
    | Str(s: string)
    | Arr(items: seq<Json>)
    | Obj(fields: seq<(string, Json)>)

  /** `bool(v)` in Python: `None`, `False`, `0`, `""`, `[]` and `{}` are false. */
  predicate Truthy(v: Json) {
    match v
    case Null => false
    case Bool(b) => b
    case Int(i) => i != 0
    case Str(s) => s != ""
    case Arr(items) => items != []
    case Obj(fields) => fields != []
  }

  /** Truthiness of `d.get(k)`, where an absent key reads as `None`. */
  predicate TruthyGet(d: Dict<string, Json>, k: string) {
    match Get(d, k)
    case None => false
    case Some(v) => Truthy(v)
  }
}
