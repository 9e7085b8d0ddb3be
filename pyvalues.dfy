/** Python values as they appear in the robot dictionary: custom-property
    payloads, nested dictionaries, and the exceptions that escape the
    exporter's functions. */
module PyValues {

  import PyStr

  datatype Option<+T> = None | Some(value: T)

  /** The Python exception kinds the exporter can raise. */
  datatype PyError =
    | TypeError
    | KeyError
    | IndexError
    | ValueError
    | AttributeError
    | UnboundLocalError

  /** A value or the exception that escaped while computing it. */
  datatype Result<+T> = Ok(value: T) | Err(error: PyError) {
    predicate IsFailure() { Err? }
    function PropagateFailure<U>(): Result<U> requires Err? { Err(error) }
    function Extract(): T requires Ok? { value }
  }

  /** A dictionary value. Floats are kept as opaque `real` payloads: the
      exporter copies them but never computes with them. `IdArray` is a
      host id-array (it has `to_list`), `List` a plain Python list. */
  datatype Value =
    | Str(s: string)
    | Int(i: int)
    | Float(x: real)
    | IdArray(elems: seq<Value>)
    | List(items: seq<Value>)
    | Dict(entries: map<string, Value>)

  /** A phobos dictionary: key to value. */
  type Props = map<string, Value>

  /** `list(value)` applied to host id-arrays (`hasattr(value, 'to_list')`);
      every other value is left as it is. */
  function ToList(v: Value): Value
  {
    match v
    case IdArray(es) => List(es)
    case _ => v
  }

  /** Python's `x in container` for the containers the exporter tests:
      a substring test on strings, membership on lists, a key test on
      dictionaries. */
  function PyIn(x: Value, container: Value): Result<bool>
  {
    match container
    case Str(t) => if x.Str? then Ok(PyStr.Contains(t, x.s)) else Err(TypeError)
    case List(items) => Ok(x in items)
    case IdArray(items) => Ok(x in items)
    case Dict(m) =>
      if x.Str? then Ok(x.s in m)
      else if x.Int? || x.Float? then Ok(false)
      else Err(TypeError)
    case _ => Err(TypeError)
  }

  /** The elements that `for x in container` visits: the characters of a
      string (each as a one-character string), the items of a list. */
  function PyIter(container: Value): Result<seq<Value>>
  {
    match container
    case Str(t) => Ok(seq(|t|, k requires 0 <= k < |t| => Str([t[k]])))
    case List(items) => Ok(items)
    case IdArray(items) => Ok(items)
    case _ => Err(TypeError)
  }

  /** Python's `container[k]` with an integer index `k >= 0`. */
  function PyIndex(container: Value, k: nat): Result<Value>
  {
    match container
    case List(items) => if k < |items| then Ok(items[k]) else Err(IndexError)
    case IdArray(items) => if k < |items| then Ok(items[k]) else Err(IndexError)
    case Str(t) => if k < |t| then Ok(Str([t[k]])) else Err(IndexError)
    case Dict(_) => Err(KeyError)
    case _ => Err(TypeError)
  }
}
