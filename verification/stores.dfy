/**
 * The repositories behind the services, seen as finite maps from a
 * record's id to the record. A `find({ where })` query is `Select`: it
 * visits every stored record once and keeps the ones the filter accepts,
 * in no particular order.
 */
module Stores {

  /** Every record is filed under its own key, as `key` reads it from the record. */
  predicate KeyedBy<K, V>(s: map<K, V>, key: V -> K) {
    forall k :: k in s ==> key(s[k]) == k
  }

  /** The ids of the records `keep` accepts, each exactly once. */
  method Select<K, V>(s: map<K, V>, keep: V -> bool) returns (ids: seq<K>)
    ensures forall i :: 0 <= i < |ids| ==> ids[i] in s && keep(s[ids[i]])
    ensures forall i, j :: 0 <= i < j < |ids| ==> ids[i] != ids[j]
    ensures forall k :: k in s && keep(s[k]) ==> k in ids
  {
    ids := [];
    var todo := s.Keys;
    while todo != {}
      invariant todo <= s.Keys
      invariant forall i :: 0 <= i < |ids| ==> ids[i] in s && ids[i] !in todo && keep(s[ids[i]])
      invariant forall i, j :: 0 <= i < j < |ids| ==> ids[i] != ids[j]
      invariant forall k :: k in s && k !in todo && keep(s[k]) ==> k in ids
      decreases todo
    {
      var k :| k in todo;
      if keep(s[k]) {
        ids := ids + [k];
      }
      todo := todo - {k};
    }
  }
}
