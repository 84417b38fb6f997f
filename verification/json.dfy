/** JSON replies as the Python side sees them, and the few generic helpers the other modules share. */
module Json {

  datatype Option<+T> = None | Some(value: T)

  datatype Result<+T, +E> = Ok(value: T) | Err(error: E)

  /** A decoded JSON value. A number is an `int`, a finite `float`, or one of the infinities and NaN
      that Python's decoder also lets through. */
  datatype Value =
    | Null
    | Bool(flag: bool)
    | Int(number: int)
    | Float(quantity: real)
    | NonFinite
    | Str(text: string)
    | Arr(items: seq<Value>)
    | Obj(fields: map<string, Value>)

  /** How Python's numeric parsers read a text: the integer it spells, if any. It stays a parameter,
      so every statement about counts holds for every such reading. */
  type NumberText = string -> Option<int>

  /** Python truth of a decoded value. */
  predicate Truthy(v: Value) {
    match v
    case Null => false
    case Bool(b) => b
    case Int(n) => n != 0
    case Float(q) => q != 0.0
    case NonFinite => true
    case Str(s) => s != ""
    case Arr(xs) => xs != []
    case Obj(fs) => fs != map[]
  }

  /** `_as_dict`: a value that is not an object has no fields. */
  function AsFields(v: Value): map<string, Value> {
    if v.Obj? then v.fields else map[]
  }

  /** `dict.get(key)`: absent and an explicit null read the same. */
  function Get(v: Value, key: string): Value {
    if key in AsFields(v) then AsFields(v)[key] else Null
  }

  /** `bool(value.get(key, default))`. */
  predicate FlagOr(v: Value, key: string, default: bool) {
    if key in AsFields(v) then Truthy(AsFields(v)[key]) else default
  }

  lemma Regroup<T>(a: seq<T>, b: seq<T>, c: seq<T>)
    ensures a + b + c == a + (b + c)
  {
  }

  lemma RegroupFour<T>(a: seq<T>, b: seq<T>, c: seq<T>, d: seq<T>)
    ensures a + (b + c + d) == a + b + c + d
  {
  }
}
