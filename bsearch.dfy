/** `bsearch` from the C library, modelled as the usual halving search over
    a table. Which of several equal elements it returns is not specified by
    the C standard (section 7.22.5.1 of ISO C11); this model returns one of
    them, and its contract says only that the element found compares equal. */
module BinarySearch {
  import opened Wrappers

  /** The comparator's results against the table (key first, as `bsearch`
      calls it) are positive, then zero, then negative: the table is in
      order as far as this key is concerned. */
  predicate Partitioned<T>(t: seq<T>, c: T -> int)
  {
    forall i, j :: 0 <= i < j < |t| ==>
      (c(t[i]) <= 0 ==> c(t[j]) <= 0) && (c(t[i]) < 0 ==> c(t[j]) < 0)
  }

  /** Searches `t[lo..hi]` for an element the comparator reports equal. */
  function Search<T>(t: seq<T>, c: T -> int, lo: nat, hi: nat): (r: Option<nat>)
    requires lo <= hi <= |t|
    requires Partitioned(t, c)
    ensures r.Some? ==> lo <= r.value < hi && c(t[r.value]) == 0
    ensures r.None? ==> forall i :: lo <= i < hi ==> c(t[i]) != 0
    decreases hi - lo
  {
    if lo == hi then None
    else
      var mid := lo + (hi - lo) / 2;
      var d := c(t[mid]);
      if d < 0 then Search(t, c, lo, mid)
      else if d > 0 then Search(t, c, mid + 1, hi)
      else Some(mid)
  }

  /** `bsearch(key, t, ...)` with `c(e) = compar(key, e)`: the index of an
      element equal to the key, or none when no element is. */
  function BSearch<T>(t: seq<T>, c: T -> int): (r: Option<nat>)
    requires Partitioned(t, c)
    ensures r.Some? <==> exists i :: 0 <= i < |t| && c(t[i]) == 0
    ensures r.Some? ==> r.value < |t| && c(t[r.value]) == 0
  {
    Search(t, c, 0, |t|)
  }
}
