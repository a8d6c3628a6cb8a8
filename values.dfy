/** Optional values and results, used for JavaScript's `null` returns and for rethrown errors. */
module Wrappers {

  datatype Option<+T> = None | Some(value: T)

  datatype Result<+T, +E> = Ok(value: T) | Err(error: E)
}

/**
  JavaScript values as they occur in the roster's documents, form data and
  responses.  A plain JavaScript object is a `Doc`, a finite map from field
  name to value; object spread `{...a, ...b}` is the map union `a + b`, in
  which the right operand wins on a shared key, exactly as a later spread
  overrides an earlier one.
*/
module Values {
  import opened Wrappers

  datatype Value =
    | Undefined          // what reading a missing field yields
    | Null
    | Bool(b: bool)
    | Num(n: real)
    | NaN
    | Str(s: string)
    | ServerTime         // the placeholder `serverTimestamp()`; the store picks its value

  type Doc = map<string, Value>

  /** JavaScript truthiness. */
  predicate Truthy(v: Value) {
    match v
    case Undefined => false
    case Null => false
    case Bool(b) => b
    case Num(n) => n != 0.0
    case NaN => false
    case Str(s) => s != ""
    case ServerTime => true
  }

  /** Property access `d.key`. */
  function Get(d: Doc, key: string): Value {
    if key in d then d[key] else Undefined
  }

  /** `{id, ...d}`: the id comes first, so a field `id` inside `d` wins. */
  function WithId(id: Value, d: Doc): Doc {
    map["id" := id] + d
  }

  /** A nullable string of the identity provider, as a value. */
  function Nullable(o: Option<string>): Value {
    match o
    case Some(s) => Str(s)
    case None => Null
  }

  /** `o || ''` for a nullable string. */
  function OrEmpty(o: Option<string>): string {
    match o
    case Some(s) => s
    case None => ""
  }

  /** The text of a string field, or "" when the field is missing or not a string. */
  function Text(d: Doc, key: string): string {
    match Get(d, key)
    case Str(s) => s
    case _ => ""
  }

  /** The signed-in user as the identity provider reports it. */
  datatype User = User(uid: string, email: Option<string>, displayName: Option<string>, photoURL: Option<string>)
}
