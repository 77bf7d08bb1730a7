// Shared by all modules: optional values, and sequences of chunks.
module Wrappers {

  datatype Option<+T> = None | Some(value: T)

  /** The chunks one behind the other. */
  function Concat<T>(chunks: seq<seq<T>>): seq<T> {
    if chunks == [] then [] else Concat(chunks[..|chunks| - 1]) + chunks[|chunks| - 1]
  }

  lemma ConcatLast<T>(chunks: seq<seq<T>>, last: seq<T>)
    ensures Concat(chunks + [last]) == Concat(chunks) + last
  {
  }
}
