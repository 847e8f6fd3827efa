/** Order between a sequence and the elements it keeps from another one. */
module Sequences {

  /** `ys` keeps some of the entries of `xs`, in their original order. */
  predicate KeepsOrder<T(==)>(ys: seq<T>, xs: seq<T>)
    decreases |xs|
  {
    if ys == [] then true
    else if xs == [] then false
    else if ys[0] == xs[0] then KeepsOrder(ys[1..], xs[1..])
    else KeepsOrder(ys, xs[1..])
  }

  /** Dropping the head of `xs` that `ys` does not use keeps the relation. */
  lemma KeepsOrderSkip<T>(ys: seq<T>, xs: seq<T>)
    requires xs != [] && KeepsOrder(ys, xs[1..])
    ensures KeepsOrder(ys, xs)
    decreases |xs|, 0
  {
    if ys != [] && ys[0] == xs[0] {
      KeepsOrderDrop(ys, xs[1..]);
    }
  }

  lemma KeepsOrderDrop<T>(ys: seq<T>, zs: seq<T>)
    requires ys != [] && KeepsOrder(ys, zs)
    ensures KeepsOrder(ys[1..], zs)
    decreases |zs|, 1
  {
    if zs != [] {
      if ys[0] != zs[0] {
        KeepsOrderDrop(ys, zs[1..]);
      }
      KeepsOrderSkip(ys[1..], zs);
    }
  }

  /** Keeping the head of `xs` keeps the relation. */
  lemma KeepsOrderCons<T>(x: T, ys: seq<T>, xs: seq<T>)
    requires KeepsOrder(ys, xs)
    ensures KeepsOrder([x] + ys, [x] + xs)
  {
    assert ([x] + ys)[1..] == ys && ([x] + xs)[1..] == xs;
  }
}
