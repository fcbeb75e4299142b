/**
 * Decoded JSON, as `requests`' `response.json()` hands it to the program,
 * together with the Python exceptions that subscripting it can raise.
 * JSON `null` and Python `None` are the same object, so `Null` stands for both.
 */
module Json {
  import opened Wrappers

  datatype Value =
    | Null
    | Bool(b: bool)
    | Int(i: int)
    | Str(s: string)
    | Array(items: seq<Value>)
    | Object(fields: map<string, Value>)

  /** The exceptions the modelled code can raise, by Python class. */
  datatype Error =
    | KeyError(key: string)          // `d[k]` on a dict without `k`
    | TypeError(operation: string)   // subscripting a non-dict, `strptime` of a non-str
    | ValueError(text: string)       // `strptime` of a string that does not fit the format
    | AttributeError(name: string)   // a missing attribute, `None.created_at` included
    | DataError(column: string)      // the database refusing a column value

  /** `v[key]`: the member of a dict, `KeyError` when absent, `TypeError` on a non-dict. */
  function Get(v: Value, key: string): Result<Value, Error> {
    match v
    case Object(fields) => if key in fields then Ok(fields[key]) else Err(KeyError(key))
    case _ => Err(TypeError("subscript"))
  }

  /** `key in v` for a dict `v`. */
  predicate HasKey(v: Value, key: string) {
    v.Object? && key in v.fields
  }

  /** `v.get(key)`: `None` when absent; only dicts have a `get` attribute. */
  function GetOptional(v: Value, key: string): Result<Value, Error> {
    match v
    case Object(fields) => if key in fields then Ok(fields[key]) else Ok(Null)
    case _ => Err(AttributeError("get"))
  }
}
