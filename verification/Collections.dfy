/** Facts about sequences, sets and maps that several modules share. */
module Collections {

  function Last<T>(s: seq<T>): T
    requires 0 < |s|
  {
    s[|s| - 1]
  }

  /** A map that keeps only entries of another one and has as many of them is that other map. */
  lemma SubmapOfEqualSize<K, V>(small: map<K, V>, large: map<K, V>)
    requires forall k :: k in small ==> k in large && small[k] == large[k]
    requires |large| <= |small|
    ensures small == large
  {
    assert small.Keys <= large.Keys;
    SubsetOfEqualSize(small.Keys, large.Keys);
  }

  lemma SubsetOfEqualSize<T>(small: set<T>, large: set<T>)
    requires small <= large && |large| <= |small|
    ensures small == large
  {
    if small != large {
      var x :| x in large && x !in small;
      assert small <= large - {x};
      SubsetSize(small, large - {x});
    }
  }

  lemma {:induction false} SubsetSize<T>(small: set<T>, large: set<T>)
    requires small <= large
    ensures |small| <= |large|
  {
    if small != {} {
      var x :| x in small;
      SubsetSize(small - {x}, large - {x});
    }
  }
}
