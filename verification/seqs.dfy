/** Positional view of an order-preserving filter. */
module Seqs {

  /** The positions of `s` whose element satisfies `p`, in ascending order.
      It is the reference that filtering loops over a slice are compared with:
      such a loop keeps exactly these elements, each once, in this order. */
  function FilterIndices<T>(s: seq<T>, p: T -> bool): (idx: seq<nat>)
    ensures forall k :: 0 <= k < |idx| ==> idx[k] < |s| && p(s[idx[k]])
    ensures forall k, l :: 0 <= k < l < |idx| ==> idx[k] < idx[l]
    ensures forall j :: 0 <= j < |s| && p(s[j]) ==> j in idx
    ensures |idx| <= |s|
    decreases |s|
  {
    if |s| == 0 then []
    else
      var prefix := FilterIndices(s[..|s| - 1], p);
      prefix + (if p(s[|s| - 1]) then [|s| - 1] else [])
  }
}
