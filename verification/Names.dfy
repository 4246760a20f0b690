/** Names used by several parts: nodes and keys, and lists read as sets. */
module Names {
  type NodeID = nat
  type Key = string

  function Elems<T(==)>(xs: seq<T>): set<T> { set x | x in xs }

  predicate NoRepeats<T(==)>(xs: seq<T>) { forall i, j | 0 <= i < j < |xs| :: xs[i] != xs[j] }
}
