/** The bounded queue that a ring is meant to be. */
module BoundedFifo {

  /** The queue after offering `x`, and whether `x` was taken. */
  function Push<T>(items: seq<T>, capacity: nat, x: T): (seq<T>, bool) {
    if |items| < capacity then (items + [x], true) else (items, false)
  }

  /** The queue after asking for its oldest element, and that element if there was one. */
  function Pop<T>(items: seq<T>): (seq<T>, seq<T>) {
    if items == [] then (items, []) else (items[1..], items[..1])
  }
}
