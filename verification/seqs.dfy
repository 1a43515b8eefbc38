/** Searching sequences from the end, as a map that is filled in order lets
    the last write win. */
module Seqs {
  import opened Wrappers

  /** The position of the last occurrence of `x` in `s`, if any. */
  function LastIndexOf<T(==)>(s: seq<T>, x: T): (r: Option<nat>)
    ensures r.None? <==> x !in s
    ensures r.Some? ==> r.value < |s| && s[r.value] == x
    ensures r.Some? ==> x !in s[r.value + 1..]
  {
    if |s| == 0 then None
    else if s[|s| - 1] == x then Some(|s| - 1)
    else
      var r := LastIndexOf(s[..|s| - 1], x);
      assert s == s[..|s| - 1] + [s[|s| - 1]];
      assert r.Some? ==> s[r.value + 1..] == s[..|s| - 1][r.value + 1..] + [s[|s| - 1]];
      r
  }

  /** Distinct elements: the last occurrence of `s[i]` is `i` itself. */
  lemma LastIndexOfDistinct<T>(s: seq<T>, i: nat)
    requires i < |s|
    requires forall a, b :: 0 <= a < b < |s| ==> s[a] != s[b]
    ensures LastIndexOf(s, s[i]) == Some(i)
  {
  }
}
