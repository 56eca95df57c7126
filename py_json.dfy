/**
 * A JSON value as the Python backend sees it after json.loads (dict, list, str, int,
 * bool, None), with the few Python operations the theme code applies to such values:
 * truthiness, `dict.get`, subscripting, `in` and `len`, each raising the exception
 * Python raises on a value of the wrong type.
 */
module PyJson {
  import opened Wrappers
  import opened Text

  /** Numbers are integers only; JSON fractions are not modelled. */
  datatype Json =
    | Null
    | Bool(b: bool)
    | Num(n: int)
    | Str(s: string)
    | Arr(items: seq<Json>)
    | Obj(fields: map<string, Json>)

  /** The Python exceptions that a lookup on a JSON value can raise. */
  datatype PyError = KeyError | IndexError | TypeError | AttributeError

  /** A subscript: `x["key"]` or `x[0]`. */
  datatype Key = KStr(s: string) | KIdx(i: nat)

  /** Python truthiness: None, False, 0, "", [] and {} are false. */
  predicate Truthy(j: Json) {
    match j
    case Null => false
    case Bool(b) => b
    case Num(n) => n != 0
    case Str(s) => s != []
    case Arr(a) => a != []
    case Obj(m) => m != map[]
  }

  /** `j.get(k)`, which answers None for a missing key. Only dicts have `get`. */
  function Get(j: Json, k: string): Result<Option<Json>, PyError> {
    match j
    case Obj(m) => Ok(if k in m then Some(m[k]) else None)
    case _ => Err(AttributeError)
  }

  /** `j.get(k, default)`. */
  function GetOr(j: Json, k: string, default: Json): Result<Json, PyError> {
    match j
    case Obj(m) => Ok(if k in m then m[k] else default)
    case _ => Err(AttributeError)
  }

  /** `j[key]`. Indexing a str yields a one-character str. */
  function Subscript(j: Json, key: Key): Result<Json, PyError> {
    match (j, key)
    case (Obj(m), KStr(k)) => if k in m then Ok(m[k]) else Err(KeyError)
    case (Obj(_), KIdx(_)) => Err(KeyError)
    case (Arr(a), KIdx(i)) => if i < |a| then Ok(a[i]) else Err(IndexError)
    case (Str(s), KIdx(i)) => if i < |s| then Ok(Str([s[i]])) else Err(IndexError)
    case _ => Err(TypeError)
  }

  /** `k in j`: a key of a dict, an element of a list, a substring of a str. */
  function In(k: string, j: Json): Result<bool, PyError> {
    match j
    case Obj(m) => Ok(k in m)
    case Arr(a) => Ok(Str(k) in a)
    case Str(s) => Ok(Contains(s, k))
    case _ => Err(TypeError)
  }

  /** `len(j)`. */
  function Len(j: Json): Result<nat, PyError> {
    match j
    case Obj(m) => Ok(|m.Keys|)
    case Arr(a) => Ok(|a|)
    case Str(s) => Ok(|s|)
    case _ => Err(TypeError)
  }

  /** The text of a str value; any other value is refused by the callers that need text. */
  function AsText(j: Json): Option<string> {
    if j.Str? then Some(j.s) else None
  }

  /** An empty dict, Python's `{}`. */
  const EmptyObj: Json := Obj(map[])
}
