/** Octets, shared by every component that handles raw buffers. */
module Bytes {
  type byte = x: int | 0 <= x < 256

  /** Concatenation is associative. */
  lemma Regroup<T>(a: seq<T>, b: seq<T>, c: seq<T>)
    ensures a + (b + c) == a + b + c
  {
  }
}
