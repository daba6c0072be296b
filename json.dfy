/** JSON values as they reach the handlers after body parsing, and an Option type. */
module Json {

  datatype Option<+T> = None | Some(value: T)
  {
    function GetOr(default: T): T
    {
      match this
      case Some(v) => v
      case None => default
    }
  }

  /** A parsed JSON value. Numbers are kept as exact reals. */
  datatype Value =
    | Null
    | Bool(b: bool)
    | Num(n: real)
    | Str(s: string)
    | Arr(items: seq<Value>)
    | Obj(members: map<string, Value>)

  /** A JSON object, such as a request body or a serialised record. */
  type Object = map<string, Value>
}
