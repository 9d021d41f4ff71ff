/**
 * Ranging over a Go map visits every key exactly once, in an order the
 * language leaves unspecified. The control plane's listings take that
 * order as a parameter: a sequence naming each key once.
 */
module Iteration {

  /** `order` lists the members of `keys`, each exactly once. */
  predicate ListsKeys<K(!new)>(order: seq<K>, keys: set<K>)
  {
    && (forall k :: k in order ==> k in keys)
    && (forall k :: k in keys ==> k in order)
    && (forall i, j :: 0 <= i < j < |order| ==> order[i] != order[j])
  }

  /** A listing has one position per key. */
  lemma {:induction false} ListingSize<K(!new)>(order: seq<K>, keys: set<K>)
    requires ListsKeys(order, keys)
    ensures |order| == |keys|
  {
    if |order| == 0 {
      assert keys == {};
    } else {
      var rest := keys - {order[0]};
      assert ListsKeys(order[1..], rest) by {
        forall k ensures k in order[1..] <==> k in rest {
          if k in order[1..] {
            var j :| 0 <= j < |order[1..]| && order[1..][j] == k;
            assert order[j + 1] == k;
          }
          if k in rest {
            assert k in order;
            var j :| 0 <= j < |order| && order[j] == k;
            assert j != 0;
            assert order[1..][j - 1] == k;
          }
        }
        forall i, j | 0 <= i < j < |order[1..]| ensures order[1..][i] != order[1..][j] {
          assert order[1..][i] == order[i + 1] && order[1..][j] == order[j + 1];
        }
      }
      ListingSize(order[1..], rest);
    }
  }
}
