/** Values shared by every component: an optional value, the outcome of a
    Python call that may raise, and the dynamically typed values that the
    input-handling helpers inspect with `isinstance` and truthiness tests. */
module Base {

  datatype Option<+T> = None | Some(value: T)

  /** A call that either returns a value or raises an exception the caller
      does not catch. */
  datatype Outcome<+T> = Returned(value: T) | Raised

  /** The Python values the input helpers can be handed. */
  datatype PyValue =
    | PyNone
    | PyBool(b: bool)
    | PyInt(i: int)
    | PyStr(s: string)
    | PyList(items: seq<PyValue>)
    | PyTuple(items: seq<PyValue>)

  /** Python truthiness: `None`, `False`, `0` and empty containers are falsy. */
  predicate Truthy(v: PyValue)
  {
    match v
    case PyNone => false
    case PyBool(b) => b
    case PyInt(i) => i != 0
    case PyStr(s) => |s| > 0
    case PyList(items) => |items| > 0
    case PyTuple(items) => |items| > 0
  }

  /** Iterating a value with `for x in v`: lists and tuples yield their items,
      a string yields its characters as one-character strings, anything else
      raises `TypeError`. */
  function Iterate(v: PyValue): (r: Outcome<seq<PyValue>>)
    ensures v.PyStr? ==> r.Returned? && |r.value| == |v.s|
    ensures (v.PyList? || v.PyTuple?) ==> r == Returned(v.items)
    ensures r.Raised? <==> !(v.PyStr? || v.PyList? || v.PyTuple?)
  {
    match v
    case PyStr(s) => Returned(seq(|s|, i requires 0 <= i < |s| => PyStr([s[i]])))
    case PyList(items) => Returned(items)
    case PyTuple(items) => Returned(items)
    case _ => Raised
  }
}
