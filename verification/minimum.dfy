/** The least member of a set of sequence numbers. */
module Minimum {
  lemma LeastExists(keys: set<int>)
    requires exists k :: k in keys
    ensures exists m :: m in keys && forall k :: k in keys ==> m <= k
  {
    var first: int :| first in keys;
    if exists k :: k in keys && k < first {
      var k :| k in keys && k < first;
      var rest := keys - {first};
      assert k in rest;
      LeastExists(rest);
      var l :| l in rest && forall k :: k in rest ==> l <= k;
      assert l <= k;
      assert forall k :: k in keys ==> k in rest || k == first;
    }
  }

  ghost function Least(keys: set<int>): (m: int)
    requires exists k :: k in keys
    ensures m in keys && forall k :: k in keys ==> m <= k
  {
    LeastExists(keys);
    var m :| m in keys && forall k :: k in keys ==> m <= k;
    m
  }
}
