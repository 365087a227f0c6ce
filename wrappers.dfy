/** Optional values shared by every module of the model. */
module Wrappers {
  datatype Option<T> = None | Some(value: T)
  {
    predicate IsSome() { Some? }
  }

  /** Moving one element from the front of the rest of a loop's input onto what it has collected. */
  lemma Onto<T>(xs: seq<T>, c: T, ys: seq<T>)
    ensures xs + [c] + ys == xs + ([c] + ys)
  {
  }

  /** A slice of a slice is a slice of the whole. */
  lemma SliceOfSlice<T>(s: seq<T>, i: nat, j: nat, k: nat, l: nat)
    requires i <= j <= |s| && k <= l <= j - i
    ensures s[i..j][k..l] == s[i + k..i + l]
  {
    var a, b := s[i..j][k..l], s[i + k..i + l];
    assert |a| == |b| == l - k;
    forall m | 0 <= m < l - k
      ensures a[m] == b[m]
    {
      assert a[m] == s[i..j][k + m] == s[i + k + m];
    }
  }
}
