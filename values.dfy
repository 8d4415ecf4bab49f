/**
 * JSON-like values as the pipeline's records hold them, Python truthiness,
 * `dict.get`, and the Python exceptions that the modelled code lets escape.
 */
module Values {

  datatype Option<+T> = None | Some(value: T)

  datatype Result<+T, +E> = Ok(value: T) | Err(error: E)

  /** A value loaded from (or written to) the JSON files between stages. */
  datatype Value =
    | Null
    | Bool(b: bool)
    | Int(i: int)
    | Real(r: real)
    | Str(s: string)
    | List(items: seq<Value>)
    | Obj(fields: map<string, Value>)

  /** Python's `bool(v)`. */
  predicate Truthy(v: Value)
  {
    match v
    case Null => false
    case Bool(b) => b
    case Int(i) => i != 0
    case Real(r) => r != 0.0
    case Str(s) => s != ""
    case List(items) => items != []
    case Obj(fields) => fields != map[]
  }

  /** Python's `type(v).__name__`, used in exception messages. */
  function TypeName(v: Value): string
  {
    match v
    case Null => "NoneType"
    case Bool(_) => "bool"
    case Int(_) => "int"
    case Real(_) => "float"
    case Str(_) => "str"
    case List(_) => "list"
    case Obj(_) => "dict"
  }

  /** A lead, a dataset item or a run input: a Python dict with string keys. */
  type Record = map<string, Value>

  /** `record.get(key, default)`. */
  function Get(r: Record, key: string, default: Value): (v: Value)
    ensures key in r ==> v == r[key]
    ensures key !in r ==> v == default
  {
    if key in r then r[key] else default
  }

  /** The value of Python's `a or b`: `a` if it is truthy, else `b`. */
  function Or(a: Value, b: Value): (v: Value)
    ensures Truthy(a) ==> v == a
    ensures !Truthy(a) ==> v == b
  {
    if Truthy(a) then a else b
  }

  /** An exception escaping a modelled function, with the text `str(e)` gives. */
  datatype Fault =
    | NoAttribute(typeName: string, attr: string)  // AttributeError
    | NotSubscriptable(typeName: string)           // TypeError
    | IndexOutOfRange                              // IndexError on a list
    | MissingKey(key: string)                      // KeyError
    | InvalidIpv6Url                               // ValueError from urlsplit
    | NetlocNfkc(netloc: string)                   // ValueError from urlsplit's _checknetloc
  {
    function Message(): string
    {
      match this
      case NoAttribute(t, a) => "'" + t + "' object has no attribute '" + a + "'"
      case NotSubscriptable(t) => "'" + t + "' object is not subscriptable"
      case IndexOutOfRange => "list index out of range"
      case MissingKey(k) => k
      case InvalidIpv6Url => "Invalid IPv6 URL"
      case NetlocNfkc(n) => "netloc '" + n + "' contains invalid characters under NFKC normalization"
    }
  }

  /** Leads, as a list of `Str` values (Python `list(...)` of strings). */
  function StrList(xs: seq<string>): (r: seq<Value>)
    ensures |r| == |xs|
    ensures forall k :: 0 <= k < |xs| ==> r[k] == Str(xs[k])
  {
    if xs == [] then [] else [Str(xs[0])] + StrList(xs[1..])
  }
}
