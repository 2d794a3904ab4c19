/** head/src/main.rs: `head` over a slice made total by returning an
    `Option`, applied to a zero-length byte array. */
module HeadProgram {
  import opened Wrappers
  import opened Slices

  /** Rust's `u8`. */
  newtype U8 = x: int | 0 <= x < 256

  /** `head`: defined on every slice, the empty one included; `None` exactly
      for the empty slice, otherwise the element at index 0. */
  function Head<T>(slice: seq<T>): (r: Option<T>)
    ensures r.None? <==> |slice| == 0
    ensures r.Some? ==> r.value == slice[0]
  {
    Get(slice, 0)
  }

  /** `head` reads nothing but index 0: two slices that are both empty, or
      agree at index 0, have the same head whatever else they hold. */
  lemma HeadDependsOnlyOnFirst<T>(a: seq<T>, b: seq<T>)
    requires |a| == 0 <==> |b| == 0
    requires |a| > 0 ==> a[0] == b[0]
    ensures Head(a) == Head(b)
  {
  }

  /** What `main` computes before printing it: the head of `[u8; 0]`. */
  function HeadOfEmptyArray(): (h: Option<U8>)
    ensures h == None
  {
    var zeroLength: seq<U8> := [];
    Head(zeroLength)
  }
}
