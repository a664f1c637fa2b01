/**
 * JSON-like values and records, as the browser front end (JavaScript) and the
 * Flask back end (Python) see them.
 *
 * A record is a finite map from field names to values; a JavaScript object
 * spread `{...a, ...b}` and a MongoDB `$set` are both a shallow merge of two
 * such maps.
 */
module Values {

  datatype Value =
    | Undefined                        // JavaScript `undefined`, also a missing property
    | Null                             // JSON null, Python None
    | Bool(b: bool)
    | Num(n: int)                      // integral numbers only
    | NaN                              // the number NaN, as `parseInt` produces it
    | Str(s: string)
    | List(items: seq<Value>)
    | Obj(fields: map<string, Value>)

  type Record = map<string, Value>

  datatype Option<+T> = None | Some(value: T)

  /** JavaScript property read `r.k`: a missing field reads as `undefined`. */
  function Get(r: Record, k: string): (v: Value)
    ensures k !in r ==> v == Undefined
    ensures k in r ==> v == r[k]
  {
    if k in r then r[k] else Undefined
  }

  /** Python `r.get(k)`, and the value a MongoDB filter compares: a missing field is None. */
  function PyGet(r: Record, k: string): (v: Value)
    ensures k !in r ==> v == Null
    ensures k in r ==> v == r[k]
  {
    if k in r then r[k] else Null
  }

  /** JavaScript truthiness: undefined, null, false, 0, NaN and "" are falsy; every object is truthy. */
  predicate JsTruthy(v: Value)
  {
    match v
    case Undefined => false
    case Null => false
    case Bool(b) => b
    case Num(n) => n != 0
    case NaN => false
    case Str(s) => s != ""
    case List(_) => true
    case Obj(_) => true
  }

  /** Python truthiness: None, False, 0, "" and empty lists and dicts are falsy (NaN is truthy). */
  predicate PyTruthy(v: Value)
  {
    match v
    case Undefined => false
    case Null => false
    case Bool(b) => b
    case Num(n) => n != 0
    case NaN => true
    case Str(s) => s != ""
    case List(items) => items != []
    case Obj(fields) => fields != map[]
  }

  /** A Python dict key must be hashable: using a list or a dict as a key raises `TypeError`. */
  predicate Hashable(v: Value)
  {
    !v.List? && !v.Obj?
  }

  /** Shallow merge `{...base, ...over}`: every field of `over` wins, the rest of `base` stays. */
  function Merge(base: Record, over: Record): (r: Record)
    ensures r.Keys == base.Keys + over.Keys
    ensures forall k :: k in over ==> r[k] == over[k]
    ensures forall k :: k in base && k !in over ==> r[k] == base[k]
  {
    base + over
  }
}
