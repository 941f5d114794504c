/** Choosing from sets, their sizes, and equality of maps element by element. */
module Sets {

  method Pick<T>(xs: set<T>) returns (x: T)
    requires xs != {}
    ensures x in xs
  {
    x :| x in xs;
  }

  ghost function Any<T>(xs: set<T>): (x: T)
    requires xs != {}
    ensures x in xs
  {
    var x :| x in xs; x
  }

  lemma SameMap<V>(a: map<int, V>, b: map<int, V>)
    requires forall k :: k in a <==> k in b
    requires forall k <- a :: a[k] == b[k]
    ensures a == b
  {
    var x, y := a.Keys, b.Keys;
    assert forall k :: k in x <==> k in y;
    assert x == y;
    assert forall k | k in x :: a[k] == b[k];
  }

  lemma SubsetSize<T>(a: set<T>, b: set<T>)
    requires a <= b
    ensures |a| <= |b| && (|a| == |b| ==> a == b)
  {
    assert b == a + (b - a);
  }
}
