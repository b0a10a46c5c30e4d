/**
 * The presence registry both gateways keep in memory: a JavaScript
 * `Map<K, Set<U>>` from a room or map id to the ids of the users currently
 * joined to it. Entries are mutated in place by the source; here every
 * operation returns the new map.
 */
module Registry {

  type Registry<K, U> = map<K, set<U>>

  /** No key is left holding an empty set. */
  predicate Pruned<K(!new), U>(r: Registry<K, U>) {
    forall k :: k in r ==> r[k] != {}
  }

  /** `r.get(k)?.has(u)` is truthy. */
  predicate Has<K, U>(r: Registry<K, U>, k: K, u: U) {
    k in r && u in r[k]
  }

  /**
   * Join: create the set on first use, then add the user. Sets make a
   * repeated join a no-op.
   */
  function Add<K(!new), U(!new)>(r: Registry<K, U>, k: K, u: U): (r': Registry<K, U>)
    ensures Has(r', k, u)
    ensures forall k', v :: Has(r', k', v) <==> Has(r, k', v) || (k' == k && v == u)
    ensures r'.Keys == r.Keys + {k}
    ensures Pruned(r) ==> Pruned(r')
  {
    if k in r then r[k := r[k] + {u}] else r[k := {u}]
  }

  /**
   * Leave: when the key is present, delete the user from its set and drop
   * the key if the set is now empty; an absent key is left alone.
   */
  function Remove<K(!new), U(!new)>(r: Registry<K, U>, k: K, u: U): (r': Registry<K, U>)
    ensures !Has(r', k, u)
    ensures forall k', v :: Has(r', k', v) <==> Has(r, k', v) && (k' != k || v != u)
    ensures r'.Keys <= r.Keys
    ensures forall k' :: k' in r && k' != k ==> k' in r' && r'[k'] == r[k']
    ensures Pruned(r) ==> Pruned(r')
  {
    if k in r then
      var s := r[k] - {u};
      if s == {} then
        assert forall v :: v in r[k] ==> v == u by {
          forall v | v in r[k] ensures v == u { assert v !in s; }
        }
        r - {k}
      else r[k := s]
    else r
  }

  /**
   * Whether a key survives the disconnect loop of the table gateway: the
   * entry is deleted only when `delete(u)` actually removed `u` and left
   * the set empty.
   */
  predicate SurvivesRemoval<U>(s: set<U>, u: U) {
    !(u in s && s - {u} == {})
  }

  /**
   * The table gateway's disconnect: remove `u` from every set, dropping
   * the entries it emptied.
   */
  function Purge<K(!new), U(!new)>(r: Registry<K, U>, u: U): (r': Registry<K, U>)
    ensures forall k :: !Has(r', k, u)
    ensures forall k, v :: v != u ==> (Has(r', k, v) <==> Has(r, k, v))
    ensures r'.Keys <= r.Keys
    ensures Pruned(r) ==> Pruned(r')
  {
    var r' := map k | k in r && SurvivesRemoval(r[k], u) :: r[k] - {u};
    assert forall k, v :: v != u && Has(r, k, v) ==> Has(r', k, v) by {
      forall k, v | v != u && Has(r, k, v) ensures Has(r', k, v) {
        assert v in r[k] - {u};
      }
    }
    r'
  }

  /**
   * The chat gateway's disconnect: remove `u` from every set, then drop
   * every entry that is empty, whether or not `u` was in it.
   */
  function PurgeAll<K(!new), U(!new)>(r: Registry<K, U>, u: U): (r': Registry<K, U>)
    ensures forall k :: !Has(r', k, u)
    ensures forall k, v :: v != u ==> (Has(r', k, v) <==> Has(r, k, v))
    ensures r'.Keys <= r.Keys
    ensures Pruned(r')
  {
    var r' := map k | k in r && r[k] - {u} != {} :: r[k] - {u};
    assert forall k, v :: v != u && Has(r, k, v) ==> Has(r', k, v) by {
      forall k, v | v != u && Has(r, k, v) ensures Has(r', k, v) {
        assert v in r[k] - {u};
      }
    }
    r'
  }

  /** Joining twice leaves the same registry as joining once. */
  lemma AddIdempotent<K(!new), U(!new)>(r: Registry<K, U>, k: K, u: U)
    ensures Add(Add(r, k, u), k, u) == Add(r, k, u)
  {
    var once := Add(r, k, u);
    assert once[k] + {u} == once[k];
  }

  /** On a pruned registry, leaving something never joined changes nothing. */
  lemma RemoveAbsentIsIdentity<K(!new), U(!new)>(r: Registry<K, U>, k: K, u: U)
    requires Pruned(r)
    requires !Has(r, k, u)
    ensures Remove(r, k, u) == r
  {
    if k in r {
      assert r[k] - {u} == r[k];
    }
  }

  /** Join then leave restores a pruned registry the user was not in. */
  lemma AddThenRemove<K(!new), U(!new)>(r: Registry<K, U>, k: K, u: U)
    requires Pruned(r)
    requires !Has(r, k, u)
    ensures Remove(Add(r, k, u), k, u) == r
  {
    var r' := Remove(Add(r, k, u), k, u);
    if k in r {
      assert (r[k] + {u}) - {u} == r[k];
    }
    assert r'.Keys == r.Keys;
  }

  /**
   * On a pruned registry the two disconnect loops agree: every set holding
   * `u` has it removed, and no other set was empty to begin with.
   */
  lemma PurgeAgreesWithPurgeAll<K(!new), U(!new)>(r: Registry<K, U>, u: U)
    requires Pruned(r)
    ensures Purge(r, u) == PurgeAll(r, u)
  {
    forall k | k in r
      ensures SurvivesRemoval(r[k], u) <==> r[k] - {u} != {}
    {
      if u !in r[k] {
        assert r[k] - {u} == r[k];
      }
    }
  }

  /** Disconnecting twice is the same as disconnecting once. */
  lemma PurgeIdempotent<K(!new), U(!new)>(r: Registry<K, U>, u: U)
    ensures Purge(Purge(r, u), u) == Purge(r, u)
  {
    var p := Purge(r, u);
    forall k | k in p
      ensures SurvivesRemoval(p[k], u) && p[k] - {u} == p[k]
    {
      assert u !in p[k];
    }
  }

  /**
   * The table gateway's disconnect as the source writes it: a loop over
   * the entries, deleting `u` from each set in turn and dropping the entry
   * when that deletion emptied it. The result is `Purge`.
   */
  method RemoveEverywhere<K(!new), U(!new)>(r: Registry<K, U>, u: U) returns (r': Registry<K, U>)
    ensures r' == Purge(r, u)
  {
    r' := r;
    var todo := r.Keys;
    while todo != {}
      invariant todo <= r.Keys
      invariant r'.Keys <= r.Keys
      invariant forall k :: k in todo ==> k in r' && r'[k] == r[k]
      invariant forall k :: k in r && k !in todo ==>
        (k in r' <==> SurvivesRemoval(r[k], u))
      invariant forall k :: k in r' && k !in todo ==> r'[k] == r[k] - {u}
      decreases todo
    {
      var k :| k in todo;
      var userSet := r'[k];
      if u in userSet && userSet - {u} == {} {
        r' := r' - {k};
      } else {
        r' := r'[k := userSet - {u}];
      }
      todo := todo - {k};
    }
  }
}
