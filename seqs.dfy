/** Ordered filtering, the in-memory counterpart of a Django `QuerySet.filter`. */
module Seqs {

  /** The elements of `xs` that `keep` accepts, in their original order. */
  function Filter<T>(xs: seq<T>, keep: T -> bool): (r: seq<T>)
    ensures |r| <= |xs|
    ensures forall x :: x in r ==> x in xs && keep(x)
    ensures forall x :: x in xs && keep(x) ==> x in r
    decreases |xs|
  {
    if |xs| == 0 then []
    else
      var last := xs[|xs| - 1];
      assert xs == xs[..|xs| - 1] + [last];
      Filter(xs[..|xs| - 1], keep) + (if keep(last) then [last] else [])
  }

  /** A filter result is non-empty exactly when some element is kept (Python's truthiness of a query). */
  lemma FilterNonEmpty<T>(xs: seq<T>, keep: T -> bool)
    ensures |Filter(xs, keep)| > 0 <==> exists x :: x in xs && keep(x)
  {
    var r := Filter(xs, keep);
    if |r| > 0 {
      assert r[0] in r;
    }
  }

  /** The set of the elements of a sequence. */
  function Elements<T>(s: seq<T>): set<T> {
    set x | x in s
  }
}
