/** `<[T]>::get` with an index, the bounds-checked read both `head`
    functions are built on. */
module Slices {
  import opened Wrappers

  /** `slice.get(i)`: the element at `i`, or `None` when `i` is out of
      bounds. */
  function Get<T>(slice: seq<T>, i: nat): (r: Option<T>)
    ensures r.None? <==> i >= |slice|
    ensures r.Some? ==> r.value == slice[i]
  {
    if i < |slice| then Some(slice[i]) else None
  }
}
