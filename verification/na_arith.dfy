/** NA-aware summation over doubles: a declarative specification (NA if any
    element is NA, otherwise the sum of the values) and the accumulating loop
    with early exit, written as a recursive function and proved equal to it. */
module NaArith {
  import opened Wrappers

  /** Some element is missing. */
  predicate HasNA<T>(xs: seq<Option<T>>) {
    exists i :: 0 <= i < |xs| && xs[i].None?
  }

  /** Sum of the non-missing values. */
  function ValueSum(xs: seq<Option<real>>): real {
    if |xs| == 0 then 0.0
    else
      match xs[0]
      case None => ValueSum(xs[1..])
      case Some(x) => x + ValueSum(xs[1..])
  }

  /** The reduction's meaning: one NA taints the whole sum. */
  function NaSum(xs: seq<Option<real>>): Option<real> {
    if HasNA(xs) then None else Some(ValueSum(xs))
  }

  lemma HasNATail<T>(xs: seq<Option<T>>)
    requires |xs| > 0 && xs[0].Some?
    ensures HasNA(xs) <==> HasNA(xs[1..])
  {
  }

  /** The loop `for i: val = xs[i]; if NA then { sum = NA; break } sum += val`
      started with `sum = acc`. Whatever the start value, it gives NA exactly
      when some element is NA, and otherwise adds every value to `acc`. */
  function Fold(xs: seq<Option<real>>, acc: real): (r: Option<real>)
    ensures r == (if HasNA(xs) then None else Some(acc + ValueSum(xs)))
  {
    if |xs| == 0 then Some(acc)
    else
      match xs[0]
      case None => None
      case Some(x) =>
        HasNATail(xs);
        Fold(xs[1..], acc + x)
  }

  /** Starting from 0.0, the loop computes the specification. */
  lemma FoldFromZero(xs: seq<Option<real>>)
    ensures Fold(xs, 0.0) == NaSum(xs)
  {
  }

  /** The position of an NA does not matter: inserting one anywhere taints. */
  lemma {:induction false} NaAnywhereTaints(pre: seq<Option<real>>, post: seq<Option<real>>, acc: real)
    ensures Fold(pre + [None] + post, acc) == None
  {
    var xs := pre + [None] + post;
    assert xs[|pre|].None?;
  }
}
