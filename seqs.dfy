/** Order-preserving selection over sequences, shared by the placement and scene modules. */
module Seqs {

  /** `a` is `b` with some elements deleted, the rest kept in order. */
  ghost predicate IsSubseq<T>(a: seq<T>, b: seq<T>)
    decreases |b|
  {
    a == []
    || (b != []
        && (IsSubseq(a, b[..|b| - 1])
            || (a[|a| - 1] == b[|b| - 1] && IsSubseq(a[..|a| - 1], b[..|b| - 1]))))
  }

  /** The elements of `s` that pass `keep`, in their original order (JavaScript's `filter`). */
  function Filter<T>(s: seq<T>, keep: T -> bool): (selected: seq<T>)
  {
    if s == [] then []
    else
      var init := Filter(s[..|s| - 1], keep);
      var x := s[|s| - 1];
      if keep(x) then init + [x] else init
  }

  /** An element is selected exactly when it is in `s` and passes `keep`. */
  lemma {:induction false} FilterMembers<T>(s: seq<T>, keep: T -> bool, x: T)
    ensures x in Filter(s, keep) <==> x in s && keep(x)
  {
    if s != [] {
      var init := s[..|s| - 1];
      FilterMembers(init, keep, x);
      assert s == init + [s[|s| - 1]];
    }
  }

  /** The selection keeps the original relative order. */
  lemma {:induction false} FilterSubseq<T>(s: seq<T>, keep: T -> bool)
    ensures IsSubseq(Filter(s, keep), s)
  {
    if s != [] {
      var init := Filter(s[..|s| - 1], keep);
      FilterSubseq(s[..|s| - 1], keep);
      var r := Filter(s, keep);
      if r != init {
        assert r[..|r| - 1] == init;
      }
    }
  }
}
