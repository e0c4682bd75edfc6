/**
 * JSON values as `JSON.parse` returns them, and the configuration object
 * of a bot. Numbers are restricted to integers.
 */
module Json {
  import opened Wrappers

  datatype Json = Null | Bool(b: bool) | Num(n: int) | Str(s: string) | Arr(items: seq<Json>) | Obj(fields: map<string, Json>)

  /** A configuration object: its own properties. */
  type Config = map<string, Json>

  /** A property read; `None` is `undefined`. */
  function Get(cfg: Config, key: string): (r: Option<Json>)
    ensures r.Some? <==> key in cfg
    ensures r.Some? ==> r.value == cfg[key]
  {
    if key in cfg then Some(cfg[key]) else None
  }

  /** JavaScript truthiness; `undefined` is falsy. */
  predicate Truthy(v: Option<Json>) {
    match v
    case None => false
    case Some(Null) => false
    case Some(Bool(b)) => b
    case Some(Num(n)) => n != 0
    case Some(Str(s)) => s != ""
    case Some(_) => true
  }

  /** `a || b`: `a` when it is truthy, otherwise `b`. */
  function Or(a: Option<Json>, b: Option<Json>): (r: Option<Json>)
    ensures Truthy(r) <==> Truthy(a) || Truthy(b)
    ensures r == a || r == b
  {
    if Truthy(a) then a else b
  }
}
