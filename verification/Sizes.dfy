/** Facts about sizes of sets and signs of products. */
module Sizes {

  lemma SubsetSize<T>(s: set<T>, t: set<T>)
    requires s <= t
    ensures |s| <= |t|
  {
    assert t == s + (t - s);
  }

  lemma SomeMember<T>(s: set<T>) returns (x: T)
    requires |s| > 0
    ensures x in s
  {
    x :| x in s;
  }

  lemma ProductSign(a: int, n: int)
    requires n >= 0
    ensures a >= 0 ==> a * n >= 0
  {
  }
}
