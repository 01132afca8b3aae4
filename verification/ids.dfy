/** Id allocation for both collections: one more than the largest id in use. */
module Ids {

  /** The largest element of a non-empty sequence (`Math.max` over spread ids). */
  function Max(xs: seq<int>): (m: int)
    requires |xs| > 0
    ensures m in xs
    ensures forall x :: x in xs ==> x <= m
  {
    if |xs| == 1 then xs[0]
    else
      var rest := Max(xs[1..]);
      assert forall x :: x in xs ==> x == xs[0] || x in xs[1..];
      if xs[0] >= rest then xs[0] else rest
  }

  /** The id the next record of a collection receives, given the ids already
      present in it: 1 for an empty collection, otherwise the largest id plus 1. */
  function Generate(ids: seq<int>): (r: int)
    ensures ids == [] ==> r == 1
    ensures forall x :: x in ids ==> x < r
    ensures ids != [] ==> r - 1 in ids
  {
    if |ids| == 0 then 1 else Max(ids) + 1
  }

  /** No smaller value than the generated one is above every id in use. */
  lemma GenerateIsLeastFresh(ids: seq<int>, y: int)
    requires ids != []
    requires forall x :: x in ids ==> x < y
    ensures Generate(ids) <= y
  {
  }
}
