/** Finding an element of a set, and counting what remains of a map. */
module Sets {

  lemma EmptyIff(s: set<int>)
    ensures |s| == 0 <==> forall x :: x !in s
  {
    if forall x :: x !in s {
      assert s == {};
    }
  }

  lemma WithoutSize<K, V>(m: map<K, V>, s: set<K>)
    requires s <= m.Keys
    ensures |m - s| == |m| - |s|
  {
    assert (m - s).Keys == m.Keys - s;
  }
}
