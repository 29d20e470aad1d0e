/** Small facts about finite sets. */
module Sets {

  lemma {:induction false} SubsetSize<T>(a: set<T>, b: set<T>)
    requires a <= b
    ensures |a| <= |b|
  {
    if x :| x in a {
      SubsetSize(a - {x}, b - {x});
    }
  }

  lemma AnElement<T>(s: set<T>) returns (x: T)
    requires s != {}
    ensures x in s
  {
    x :| x in s;
  }

  lemma UnionSize<T>(a: set<T>, b: set<T>)
    ensures |a + b| <= |a| + |b|
  {
    assert a + b == a + (b - a);
    SubsetSize(b - a, b);
  }

  /** One element moved from the second set to the first, at most. */
  lemma Traded<A, B>(a: set<A>, a': set<A>, b: set<B>, b': set<B>, x: A, y: B)
    requires a' == a + {x} && b' <= b && y in b && y !in b'
    ensures |a'| + |b'| <= |a| + |b|
  {
    SubsetSize(b', b - {y});
  }
}
