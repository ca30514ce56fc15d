/** Two-dimensional images as row-major sequences of rows, shared by the
    sampler and the smoother. */
module Grids {

  /** Number of columns: the length of the first row (0 for no rows). */
  function Width<T>(img: seq<seq<T>>): nat {
    if |img| == 0 then 0 else |img[0]|
  }

  /** Every row has the same length, as in a two-dimensional array. */
  predicate IsGrid<T>(img: seq<seq<T>>) {
    forall i :: 0 <= i < |img| ==> |img[i]| == Width(img)
  }

  /** `np.clip(v, lo, hi)` on an integer: `min(max(v, lo), hi)`, so the
      upper bound wins when the bounds cross. */
  function Clip(v: int, lo: int, hi: int): (r: int)
    ensures lo <= hi ==> lo <= r <= hi
    ensures lo <= v <= hi ==> r == v
    ensures lo > hi ==> r == hi
    ensures v < lo <= hi ==> r == lo
    ensures lo <= hi < v ==> r == hi
  {
    var m := if v < lo then lo else v;
    if m > hi then hi else m
  }
}
