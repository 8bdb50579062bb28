/** Singly linked lists in a pool: a node is named by its index, and a null pointer is -1. */
module Links {
  const NULL := -1

  function First(q: seq<nat>): int {
    if q == [] then NULL else q[0]
  }

  function Last(q: seq<nat>): int {
    if q == [] then NULL else q[|q| - 1]
  }

  /** Where the link of the i-th node leads. */
  function LinkAfter(q: seq<nat>, i: nat): int {
    if i + 1 < |q| then q[i + 1] else NULL
  }
}
