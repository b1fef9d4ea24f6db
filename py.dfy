/** Python values as the modelled code sees them, and the option/result wrappers
    used for `None` and for raised exceptions. */
module Py {

  /** `None` or a present value. */
  datatype Option<+T> = None | Some(value: T)

  /** A returned value, or the exception the Python code raises instead. */
  datatype Result<+T, +E> = Ok(value: T) | Err(error: E)

  /** A dynamically typed Python value. A dict remembers its insertion order:
      `keys` lists the keys of `fields`, each once, oldest first. */
  datatype Value =
    | Null
    | Bool(b: bool)
    | Int(i: int)
    | Str(s: string)
    | List(items: seq<Value>)
    | Dict(keys: seq<string>, fields: map<string, Value>)

  /** Python truthiness: `None`, `False`, `0`, `""`, `[]` and `{}` are falsy. */
  predicate Truthy(v: Value) {
    match v
    case Null => false
    case Bool(b) => b
    case Int(i) => i != 0
    case Str(s) => s != ""
    case List(items) => items != []
    case Dict(_, fields) => fields != map[]
  }

  /** `s.startswith(p)`. */
  predicate StartsWith(s: string, p: string) {
    |p| <= |s| && s[..|p|] == p
  }

  /** `s[:n]`: Python's slice never fails, it stops at the end of `s`. */
  function Take(s: string, n: nat): (r: string)
    ensures |r| == (if |s| < n then |s| else n)
    ensures r == s[..|r|]
  {
    if |s| <= n then s else s[..n]
  }

  /** No key is listed twice. */
  predicate Distinct(keys: seq<string>) {
    forall i, j :: 0 <= i < j < |keys| ==> keys[i] != keys[j]
  }

  /** The representation invariant of a dict: `keys` lists the keys of
      `fields`, each once. */
  ghost predicate DictWellFormed(keys: seq<string>, fields: map<string, Value>) {
    Distinct(keys) && forall x :: x in fields <==> x in keys
  }
}
