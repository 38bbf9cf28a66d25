/** The moves between nodes are what a node's own store does when it drops or prunes. */
module Handlers {
  import opened Bytes
  import opened Entries
  import opened Stores
  import opened Migration
  import AntiEntropy

  /** Of entries with different keys, those dropped are the ones stored as captured. */
  lemma {:induction false} DroppedAre(m: Flat, es: seq<Entry>, e: Entry)
    requires DistinctKeys(es)
    ensures e in Dropped(m, es) <==> e in es && Lookup(m, e.k) == Some(e.v)
  {
    hide ApplyAll, Removals;
    if es != [] {
      var n := |es| - 1;
      assert es == es[..n] + [es[n]];
      DroppedAre(m, es[..n], e);
      var front := Dropped(m, es[..n]);
      forall i | 0 <= i < |front| ensures front[i].k != es[n].k {
        DroppedAre(m, es[..n], front[i]);
        var j :| 0 <= j < n && es[j] == front[i];
      }
      RemovalsEffect(front, es[n].k);
      ApplyAllByKey(m, Removals(front), es[n].k);
    }
  }

  /**
   * What dropMigrated leaves of a store, and what its log records leave on replay, is the store
   * without the entries that are still as captured.
   */
  lemma HandOffDropsUnchanged(f: PartitionFn, m: Flat, p: nat, es: seq<Entry>)
    requires DistinctKeys(es) && forall i | 0 <= i < |es| :: Routed(f, es[i].k) == p
    ensures ApplyAll(m, Removals(Dropped(ShardOf(f, m, p), es))) == DropFrom(m, es)
  {
    hide ApplyAll, Removals, Dropped;
    var shard := ShardOf(f, m, p);
    var gone := Dropped(shard, es);
    forall k ensures Lookup(ApplyAll(m, Removals(gone)), k) == Lookup(DropFrom(m, es), k) {
      ApplyAllByKey(m, Removals(gone), k);
      RemovalsEffect(gone, k);
      if k in m && Entry(k, m[k]) in es {
        var i :| 0 <= i < |es| && es[i] == Entry(k, m[k]);
        assert Lookup(shard, k) == Some(m[k]);
        DroppedAre(shard, es, Entry(k, m[k]));
        var j :| 0 <= j < |gone| && gone[j] == Entry(k, m[k]);
        assert gone[j].k == k;
      } else {
        forall j | 0 <= j < |gone| && gone[j].k == k ensures k !in m {
          DroppedAre(shard, es, gone[j]);
        }
      }
    }
    SameLookups(ApplyAll(m, Removals(gone)), DropFrom(m, es));
  }

  /** The reconcile handler groups the listed keys by map. */
  method GroupKeys(keys: seq<Key>) returns (keep: Keyset)
    ensures forall k :: Kept(keep, k) <==> k in keys
  {
    keep := map[];
    for i := 0 to |keys|
      invariant forall k :: Kept(keep, k) <==> k in keys[..i]
    {
      assert keys[..i + 1] == keys[..i] + [keys[i]];
      var name := keys[i].name;
      var inner := if name in keep then keep[name] else {};
      ghost var before := keep;
      keep := keep[name := inner + {keys[i].key}];
      forall k ensures Kept(keep, k) <==> Kept(before, k) || k == keys[i] {
        assert k == Key(k.name, k.key) && keys[i] == Key(name, keys[i].key);
      }
    }
    assert keys[..|keys|] == keys;
  }

  /** Pruning a store to the grouped keys is the prune that anti-entropy asks for. */
  lemma PruneIsReconcile(f: PartitionFn, m: Flat, p: nat, keep: Keyset, keys: set<Key>)
    requires forall k :: Kept(keep, k) <==> k in keys
    ensures Pruned(f, m, p, keep) == AntiEntropy.PruneTo(f, m, p, keys)
  {
    hide Kept, Routed;
  }
}
