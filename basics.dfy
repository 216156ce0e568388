/** Small datatypes and sequence predicates shared by the scripts and the capsules. */
module Basics {

  /** A value that may be absent (Python's `None`). */
  datatype Option<+T> = None | Some(value: T)

  /** A pixel-space point `[x, y]`, as stored in a detection's `coords` list. */
  datatype Point = Point(x: int, y: int)

  /** `idx` embeds `a` into `b`: `idx` is strictly increasing and picks, in order,
      the positions of `b` holding the elements of `a`. */
  ghost predicate EmbeddedBy<T>(a: seq<T>, b: seq<T>, idx: seq<nat>)
  {
    && |idx| == |a|
    && (forall k :: 0 <= k < |idx| ==> idx[k] < |b| && a[k] == b[idx[k]])
    && (forall k, l :: 0 <= k < l < |idx| ==> idx[k] < idx[l])
  }

  /** `a` is an order-preserving subsequence of `b`. */
  ghost predicate IsSubsequence<T>(a: seq<T>, b: seq<T>)
  {
    exists idx :: EmbeddedBy(a, b, idx)
  }


  /** An embedding into `b` is still one into any extension of `b`. */
  lemma EmbeddingIntoLonger<T>(a: seq<T>, b: seq<T>, idx: seq<nat>, c: seq<T>)
    requires EmbeddedBy(a, b, idx)
    ensures EmbeddedBy(a, b + c, idx)
  {
  }

  /** Appending the same element to both sides extends an embedding by the new last
      position. */
  lemma EmbeddingAppend<T>(a: seq<T>, b: seq<T>, idx: seq<nat>, x: T)
    requires EmbeddedBy(a, b, idx)
    ensures EmbeddedBy(a + [x], b + [x], idx + [|b|])
  {
  }
}
