/** Option and Result values, and the exceptions of the modelled Python code. */
module Wrappers {

  datatype Option<T> = None | Some(value: T)

  datatype Result<T, E> = Ok(value: T) | Err(error: E)

  /** The Python exceptions the modelled code can raise. */
  datatype Error =
    | RuntimeError          // unsupported cell type
    | NotImplementedError   // mutation of a "reduce" cell
    | ZeroDivisionError     // reward remap with a zero-width segment
    | IndexError            // list or tensor index out of range
    | ValueError            // list.index of a missing element, igraph vertex id out of range

  /** Python list indexing `xs[k]`: negative indices count from the end. */
  function PyIndex<T>(xs: seq<T>, k: int): (r: Option<T>)
    ensures r.Some? <==> -|xs| <= k < |xs|
    ensures 0 <= k < |xs| ==> r == Some(xs[k])
    ensures -|xs| <= k < 0 ==> r == Some(xs[|xs| + k])
  {
    if 0 <= k < |xs| then Some(xs[k])
    else if -|xs| <= k < 0 then Some(xs[|xs| + k])
    else None
  }

  /** Python `xs.index(x)`: the first position holding x. */
  function PyListIndex<T(==)>(xs: seq<T>, x: T): (r: Option<nat>)
    ensures r.None? <==> x !in xs
    ensures r.Some? ==> r.value < |xs| && xs[r.value] == x
                        && forall k :: 0 <= k < r.value ==> xs[k] != x
  {
    if |xs| == 0 then None
    else if xs[0] == x then Some(0)
    else match PyListIndex(xs[1..], x)
      case None => None
      case Some(k) => Some(k + 1)
  }
}
