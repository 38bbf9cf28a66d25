/**
 * The sharded in-memory store: an array of partitions, each a map of maps, changed in place.
 * View() is the flat map of entries it stands for; every method is specified on that view.
 */
module Stores {
  import opened Bytes
  import opened Entries
  import opened Packing
  import opened QueueStore
  import opened QueueLegacy
  import opened Recovery
  import opened Digest

  type Shard = map<bytes, map<bytes, Value>>

  function Find(sh: Shard, k: Key): Option<Value> {
    if k.name in sh && k.key in sh[k.name] then Some(sh[k.name][k.key]) else None
  }

  /** Every entry sits in the shard its key routes to. */
  ghost predicate Placed(f: PartitionFn, ss: seq<Shard>) {
    && |ss| == PARTITIONS
    && forall p, k | 0 <= p < |ss| && Find(ss[p], k).Some? :: Routed(f, k) == p
  }

  ghost function AllKeys(ss: seq<Shard>): set<Key> {
    set p, n, k | 0 <= p < |ss| && n in ss[p] && k in ss[p][n] :: Key(n, k)
  }

  ghost function ViewOf(f: PartitionFn, ss: seq<Shard>): Flat
    requires |ss| == PARTITIONS
  {
    map k | k in AllKeys(ss) && Find(ss[Routed(f, k)], k).Some? :: Find(ss[Routed(f, k)], k).value
  }

  lemma ViewLookup(f: PartitionFn, ss: seq<Shard>, k: Key)
    requires |ss| == PARTITIONS
    ensures Lookup(ViewOf(f, ss), k) == Find(ss[Routed(f, k)], k)
  {
    var sh := ss[Routed(f, k)];
    if Find(sh, k).Some? {
      assert Key(k.name, k.key) in AllKeys(ss);
    }
  }

  /** The store stands for m when every shard answers for its own keys as m does, and for no other. */
  lemma ViewIs(f: PartitionFn, ss: seq<Shard>, m: Flat)
    requires |ss| == PARTITIONS
    requires forall p, k | 0 <= p < |ss| :: Find(ss[p], k) == if Routed(f, k) == p then Lookup(m, k) else None
    ensures Placed(f, ss) && ViewOf(f, ss) == m
  {
    forall k ensures Lookup(ViewOf(f, ss), k) == Lookup(m, k) {
      ViewLookup(f, ss, k);
    }
    SameLookups(ViewOf(f, ss), m);
  }

  /** Replacing one shard changes the view on that partition's keys only. */
  lemma ViewAfter(f: PartitionFn, ss: seq<Shard>, p: nat, sh: Shard, m: Flat)
    requires Placed(f, ss) && p < PARTITIONS
    requires forall k :: Find(sh, k) == if Routed(f, k) == p then Lookup(m, k) else None
    requires forall k | Routed(f, k) != p :: Lookup(m, k) == Lookup(ViewOf(f, ss), k)
    ensures Placed(f, ss[p := sh]) && ViewOf(f, ss[p := sh]) == m
  {
    var ss' := ss[p := sh];
    forall q, k | 0 <= q < |ss'|
      ensures Find(ss'[q], k) == if Routed(f, k) == q then Lookup(m, k) else None
    {
      ViewLookup(f, ss, k);
      if q != p && Routed(f, k) != q {
        assert Find(ss[q], k).None?;
      }
    }
    ViewIs(f, ss', m);
  }

  lemma ShardAnswers(f: PartitionFn, ss: seq<Shard>, p: nat, k: Key)
    requires Placed(f, ss) && p < PARTITIONS
    ensures Find(ss[p], k) == if Routed(f, k) == p then Lookup(ViewOf(f, ss), k) else None
    ensures Find(ss[p], k) == Lookup(ShardOf(f, ViewOf(f, ss), p), k)
  {
    ViewLookup(f, ss, k);
  }

  function PutIn(sh: Shard, k: Key, v: Value): Shard {
    var inner := if k.name in sh then sh[k.name] else map[];
    sh[k.name := inner[k.key := v]]
  }

  function RemoveFrom(sh: Shard, k: Key): Shard {
    if k.name in sh then sh[k.name := sh[k.name] - {k.key}] else sh
  }

  lemma FindAfter(sh: Shard, k: Key, v: Value, j: Key)
    ensures Find(PutIn(sh, k, v), j) == if j == k then Some(v) else Find(sh, j)
    ensures Find(RemoveFrom(sh, k), j) == if j == k then None else Find(sh, j)
  {
  }

  lemma ViewAfterPut(f: PartitionFn, ss: seq<Shard>, k: Key, v: Value)
    requires |ss| == PARTITIONS && Placed(f, ss)
    ensures var p := Routed(f, k);
            var ss' := ss[p := PutIn(ss[p], k, v)];
            Placed(f, ss') && ViewOf(f, ss') == Apply(ViewOf(f, ss), Put(k, v))
  {
    hide PutIn, RemoveFrom, Find, Placed, ViewOf, Routed;
    var p := Routed(f, k);
    var m := Apply(ViewOf(f, ss), Put(k, v));
    forall j ensures Find(PutIn(ss[p], k, v), j) == if Routed(f, j) == p then Lookup(m, j) else None {
      FindAfter(ss[p], k, v, j);
      ShardAnswers(f, ss, p, j);
    }
    ViewAfter(f, ss, p, PutIn(ss[p], k, v), m);
  }

  lemma ViewAfterRemove(f: PartitionFn, ss: seq<Shard>, k: Key)
    requires |ss| == PARTITIONS && Placed(f, ss)
    ensures var p := Routed(f, k);
            var ss' := ss[p := RemoveFrom(ss[p], k)];
            Placed(f, ss') && ViewOf(f, ss') == Apply(ViewOf(f, ss), Remove(k))
  {
    hide PutIn, RemoveFrom, Find, Placed, ViewOf, Routed;
    var p := Routed(f, k);
    var m := Apply(ViewOf(f, ss), Remove(k));
    forall j ensures Find(RemoveFrom(ss[p], k), j) == if Routed(f, j) == p then Lookup(m, j) else None {
      FindAfter(ss[p], k, Value([], 0), j);
      ShardAnswers(f, ss, p, j);
    }
    ViewAfter(f, ss, p, RemoveFrom(ss[p], k), m);
  }

  /** The shard without its empty inner maps. */
  function Trim(sh: Shard): Shard {
    map n | n in sh && sh[n] != map[] :: sh[n]
  }

  // ---- iteration over a shard -------------------------------------------------------------

  ghost predicate ListsKeys(ks: seq<Key>, sh: Shard) {
    && (forall i, j | 0 <= i < j < |ks| :: ks[i] != ks[j])
    && (forall k :: k in ks <==> Find(sh, k).Some?)
  }

  /** Ranges over the nested maps; the order is whatever the picks make it. */
  method KeysOf(sh: Shard) returns (ks: seq<Key>)
    ensures ListsKeys(ks, sh)
  {
    ks := [];
    var names := sh.Keys;
    while names != {}
      invariant names <= sh.Keys
      invariant forall i, j | 0 <= i < j < |ks| :: ks[i] != ks[j]
      invariant forall k: Key :: k in ks <==> Find(sh, k).Some? && k.name !in names
      decreases |names|
    {
      var n :| n in names;
      var inner := sh[n].Keys;
      ghost var ks0 := ks;
      while inner != {}
        invariant inner <= sh[n].Keys
        invariant forall i, j | 0 <= i < j < |ks| :: ks[i] != ks[j]
        invariant forall k: Key :: k in ks <==> k in ks0 || (k.name == n && k.key in sh[n] && k.key !in inner)
        decreases |inner|
      {
        var x :| x in inner;
        assert Key(n, x) !in ks;
        ks := ks + [Key(n, x)];
        inner := inner - {x};
      }
      names := names - {n};
    }
  }

  // ---- values the methods are specified by ------------------------------------------------

  datatype Action = Keep | Set(val: bytes) | Delete

  /** The record a single-key processor's action amounts to; a live entry keeps its expiry. */
  function UpdateRecords(m: Flat, k: Key, now: int, action: Action): seq<Record> {
    match action
    case Keep => []
    case Delete => [Remove(k)]
    case Set(val) => [Put(k, Value(val, if k in m && !Expired(m[k], now) then m[k].expireAt else 0))]
  }

  /** The entries a hand-off drops, in order: those still stored exactly as captured. */
  function Dropped(m: Flat, es: seq<Entry>): seq<Entry> {
    if es == [] then []
    else
      var front := Dropped(m, es[..|es| - 1]);
      var e := es[|es| - 1];
      if Lookup(ApplyAll(m, Removals(front)), e.k) == Some(e.v) then front + [e] else front
  }

  function Removals(es: seq<Entry>): seq<Record> {
    if es == [] then [] else Removals(es[..|es| - 1]) + [Remove(es[|es| - 1].k)]
  }

  function LoadedRecords(es: seq<Entry>): seq<Record> {
    if es == [] then [] else LoadedRecords(es[..|es| - 1]) + LoadRecords(es[|es| - 1])
  }

  type Keyset = map<bytes, set<bytes>>

  predicate Kept(keep: Keyset, k: Key) {
    k.name in keep && k.key in keep[k.name]
  }

  /** Partition p without the keys outside keep, everything else as it was. */
  function Pruned(f: PartitionFn, m: Flat, p: nat, keep: Keyset): Flat {
    map k | k in m && (Routed(f, k) != p || Kept(keep, k)) :: m[k]
  }

  class Store {
    const partitionFor: PartitionFn
    const shards: array<Shard>

    ghost predicate Valid()
      reads shards
    {
      shards.Length == PARTITIONS && Placed(partitionFor, shards[..])
    }

    ghost function View(): Flat
      requires Valid()
      reads shards
    {
      ViewOf(partitionFor, shards[..])
    }

    constructor (f: PartitionFn)
      ensures Valid() && View() == map[] && partitionFor == f && fresh(shards)
    {
      partitionFor := f;
      shards := new Shard[PARTITIONS](i => map[]);
      new;
      ViewIs(f, shards[..], map[]);
    }

    method Get(p: nat, k: Key, now: int) returns (r: Option<bytes>)
      requires Valid() && p == Routed(partitionFor, k)
      ensures r == Read(View(), k, now)
    {
      ViewLookup(partitionFor, shards[..], k);
      var sh := shards[p];
      if k.name !in sh || k.key !in sh[k.name] || Expired(sh[k.name][k.key], now) {
        return None;
      }
      return Some(sh[k.name][k.key].data);
    }

    /** lookup: the current value with its expiry. */
    method GetEntry(p: nat, k: Key, now: int) returns (r: Option<Value>)
      requires Valid() && p == Routed(partitionFor, k)
      ensures r == Visible(Lookup(View(), k), now)
    {
      ViewLookup(partitionFor, shards[..], k);
      var sh := shards[p];
      if k.name !in sh || k.key !in sh[k.name] || Expired(sh[k.name][k.key], now) {
        return None;
      }
      return Some(sh[k.name][k.key]);
    }

    method PutEntry(p: nat, k: Key, v: Value, now: int) returns (created: bool)
      requires Valid() && p == Routed(partitionFor, k)
      modifies shards
      ensures Valid() && View() == Apply(old(View()), Put(k, v))
      ensures created <==> Read(old(View()), k, now).None?
    {
      hide Placed, ViewOf, Routed;
      ghost var ss := shards[..];
      ViewLookup(partitionFor, ss, k);
      var sh := shards[p];
      var inner := if k.name in sh then sh[k.name] else map[];
      created := k.key !in inner || Expired(inner[k.key], now);
      shards[p] := sh[k.name := inner[k.key := v]];
      assert shards[..] == ss[p := PutIn(ss[p], k, v)];
      ViewAfterPut(partitionFor, ss, k, v);
    }

    method RemoveEntry(p: nat, k: Key, now: int) returns (existed: bool)
      requires Valid() && p == Routed(partitionFor, k)
      modifies shards
      ensures Valid() && View() == Apply(old(View()), Remove(k))
      ensures existed <==> Read(old(View()), k, now).Some?
    {
      hide Placed, ViewOf, Routed;
      ghost var ss := shards[..];
      ViewLookup(partitionFor, ss, k);
      var sh := shards[p];
      if k.name !in sh || k.key !in sh[k.name] {
        assert Apply(View(), Remove(k)) == View();
        return false;
      }
      var v := sh[k.name][k.key];
      shards[p] := sh[k.name := sh[k.name] - {k.key}];
      assert shards[..] == ss[p := RemoveFrom(ss[p], k)];
      ViewAfterRemove(partitionFor, ss, k);
      return !Expired(v, now);
    }

    /** Runs a processor on the live value under the shard lock. */
    method Update(p: nat, k: Key, now: int, fn: Option<bytes> -> Action) returns (recs: seq<Record>)
      requires Valid() && p == Routed(partitionFor, k)
      modifies shards
      ensures recs == UpdateRecords(old(View()), k, now, fn(Read(old(View()), k, now)))
      ensures Valid() && View() == ApplyAll(old(View()), recs)
    {
      var cur := GetEntry(p, k, now);
      var action := fn(if cur.Some? then Some(cur.value.data) else None);
      match action {
        case Keep =>
          recs := [];
        case Delete =>
          var _ := RemoveEntry(p, k, now);
          recs := [Remove(k)];
          assert recs[..0] == [];
        case Set(val) =>
          var v := Value(val, if cur.Some? then cur.value.expireAt else 0);
          var _ := PutEntry(p, k, v, now);
          recs := [Put(k, v)];
          assert recs[..0] == [];
      }
    }

    /** snapshotPartition: a copy of every live entry of partition p, in iteration order. */
    method SnapshotPartition(p: nat, now: int) returns (es: seq<Entry>)
      requires Valid() && p < PARTITIONS
      ensures Enumerates(es, Live(ShardOf(partitionFor, View(), p), now))
    {
      hide Placed, ViewOf, Routed;
      var sh := shards[p];
      ghost var m := ShardOf(partitionFor, View(), p);
      forall k ensures Find(sh, k) == Lookup(m, k) { ShardAnswers(partitionFor, shards[..], p, k); }
      var ks := KeysOf(sh);
      es := [];
      ghost var seen: Flat := map[];
      for i := 0 to |ks|
        invariant Enumerates(es, seen)
        invariant forall k :: Lookup(seen, k) == if k in ks[..i] then Visible(Lookup(m, k), now) else None
      {
        var k := ks[i];
        assert k in ks && Find(sh, k) == Lookup(m, k);
        assert ks[..i + 1] == ks[..i] + [k];
        var v := sh[k.name][k.key];
        if !Expired(v, now) {
          EnumeratesMore(es, seen, Entry(k, v));
          es := es + [Entry(k, v)];
          seen := seen[k := v];
        }
      }
      assert ks[..|ks|] == ks;
      forall k ensures Lookup(seen, k) == Lookup(Live(m, now), k) { assert Find(sh, k) == Lookup(m, k); }
      SameLookups(seen, Live(m, now));
    }

    /** partitionDigest: the XOR of the entry hashes, accumulated over one iteration. */
    method PartitionDigest(p: nat, now: int) returns (digest: bv64)
      requires Valid() && p < PARTITIONS
      ensures digest == DigestOf(Data(ShardOf(partitionFor, View(), p), now))
    {
      hide EntryHash, Xor, Placed, ViewOf, Routed, Enumerates;
      var es := SnapshotPartition(p, now);
      digest := 0;
      for i := 0 to |es|
        invariant digest == DigestOfList(es[..i])
      {
        assert es[..i + 1][..i] == es[..i];
        digest := Xor(digest, EntryHash(es[i].k, es[i].v.data));
      }
      assert es[..|es|] == es;
      ghost var m := ShardOf(partitionFor, View(), p);
      DigestOfListing(es, Live(m, now));
      assert DataOf(Live(m, now)) == Data(m, now);
    }

    /** snapshotAll: the live entries of every partition. */
    method SnapshotAll(now: int) returns (es: seq<Entry>)
      requires Valid()
      ensures Enumerates(es, Live(View(), now))
    {
      hide Placed, ViewOf, Enumerates;
      es := [];
      ghost var m := View();
      ghost var seen: Flat := map[];
      NothingListed();
      for p := 0 to PARTITIONS
        invariant Enumerates(es, seen)
        invariant forall k :: Lookup(seen, k) ==
                    if Routed(partitionFor, k) < p then Visible(Lookup(m, k), now) else None
      {
        var part := SnapshotPartition(p, now);
        ghost var live := Live(ShardOf(partitionFor, m, p), now);
        assert seen.Keys !! live.Keys by {
          assert forall k | k in seen :: Lookup(seen, k).Some?;
        }
        EnumeratesUnion(es, seen, part, live);
        es := es + part;
        forall k
          ensures Lookup(seen + live, k) ==
                  if Routed(partitionFor, k) < p + 1 then Visible(Lookup(m, k), now) else None
        {
          assert Lookup(seen, k) == if Routed(partitionFor, k) < p then Visible(Lookup(m, k), now) else None;
        }
        seen := seen + live;
      }
      SameLookups(seen, Live(m, now));
    }

    /** clearMap: drops the named map from every shard and returns what it held. */
    method ClearMap(name: bytes) returns (removed: seq<Entry>)
      requires Valid()
      modifies shards
      ensures Valid() && View() == Apply(old(View()), Clear(name))
      ensures Enumerates(removed, Named(old(View()), name))
    {
      hide Placed, ViewOf, Routed, Apply, Enumerates, Named, ClearedTo, NamedSoFar, InnerFlat;
      ghost var ss := shards[..];
      removed := [];
      ghost var seen: Flat := map[];
      NothingListed();
      NothingCleared(partitionFor, ss, name);
      for p := 0 to PARTITIONS
        invariant ClearedTo(ss, shards[..], p, name)
        invariant Enumerates(removed, seen) && NamedSoFar(partitionFor, ss, p, name, seen)
      {
        ghost var cur := shards[..];
        var sh := shards[p];
        ClearedMore(ss, cur, p, name);
        var inner := if name in sh then sh[name] else map[];
        if inner != map[] {
          var part := ListInner(name, inner);
          removed := removed + part;
          NamedMore(partitionFor, ss, p, name, seen, removed[..|removed| - |part|], part);
          seen := seen + InnerFlat(name, inner);
          assert removed[..|removed| - |part|] + part == removed;
          shards[p] := sh - {name};
        } else {
          NamedNoMore(partitionFor, ss, p, name, seen);
        }
        assert shards[..] == cur[p := if inner != map[] then sh - {name} else sh];
      }
      ClearedView(partitionFor, ss, shards[..], name);
      NamedAll(partitionFor, ss, name, seen);
    }

    /** sweepExpired: reclaims the expired entries, which no reader could see, and counts them. */
    method SweepExpired(now: int) returns (swept: nat)
      requires Valid()
      modifies shards
      ensures Valid() && View() == Live(old(View()), now)
      ensures swept == |Lapsed(old(View()), now)|
    {
      hide Placed, ViewOf, Routed, LapsedBelow, Find;
      ghost var ss := shards[..];
      ghost var m := View();
      ghost var gone: set<Key> := {};
      swept := 0;
      NoneLapsedBelow(partitionFor, ss, now);
      for p := 0 to PARTITIONS
        invariant |shards[..]| == PARTITIONS
        invariant forall q | p <= q < PARTITIONS :: shards[q] == ss[q]
        invariant forall q, k | 0 <= q < p :: Find(shards[q], k) == Visible(Find(ss[q], k), now)
        invariant swept == |gone| && LapsedBelow(partitionFor, ss, p, now, gone)
      {
        var kept, n, part := SweepShard(shards[p], now);
        LapsedMore(partitionFor, ss, p, now, gone, part);
        gone, swept := gone + part, swept + n;
        shards[p] := kept;
      }
      SweptView(partitionFor, ss, shards[..], now);
      LapsedAll(partitionFor, ss, now, gone);
    }

    /** dropMigrated: compare-and-delete of the handed-off entries; returns those dropped. */
    method DropMigrated(p: nat, es: seq<Entry>) returns (dropped: seq<Entry>)
      requires Valid() && p < PARTITIONS
      modifies shards
      ensures dropped == Dropped(ShardOf(partitionFor, old(View()), p), es)
      ensures Valid() && View() == ApplyAll(old(View()), Removals(dropped))
    {
      hide Placed, ViewOf, Routed, ApplyAll, Removals, RemoveFrom;
      ghost var ss := shards[..];
      ghost var view := View();
      ghost var m := ShardOf(partitionFor, view, p);
      forall k ensures Find(ss[p], k) == Lookup(m, k) { ShardAnswers(partitionFor, ss, p, k); }
      var sh := shards[p];
      dropped := [];
      NoRemovals(m);
      for i := 0 to |es|
        invariant shards[..] == ss
        invariant dropped == Dropped(m, es[..i])
        invariant forall k :: Find(sh, k) == Lookup(ApplyAll(m, Removals(dropped)), k)
        invariant forall j | 0 <= j < |dropped| :: Routed(partitionFor, dropped[j].k) == p
      {
        var e := es[i];
        assert es[..i + 1][..i] == es[..i];
        if e.k.name in sh && e.k.key in sh[e.k.name] && sh[e.k.name][e.k.key] == e.v {
          DropStep(sh, m, dropped, e);
          sh := RemoveFrom(sh, e.k);
          dropped := dropped + [e];
        }
      }
      assert es[..|es|] == es;
      shards[p] := Trim(sh);
      RemovalsInShard(partitionFor, view, p, dropped);
      assert shards[..] == ss[p := Trim(sh)];
      ViewAfter(partitionFor, ss, p, Trim(sh), ApplyAll(view, Removals(dropped)));
    }

    /** pruneToKeyset: drops every key of partition p outside keep; returns what was dropped. */
    method PruneToKeyset(p: nat, keep: Keyset) returns (dropped: seq<Entry>)
      requires Valid() && p < PARTITIONS
      modifies shards
      ensures Enumerates(dropped, PrunedAway(partitionFor, old(View()), p, keep))
      ensures Valid() && View() == Pruned(partitionFor, old(View()), p, keep)
    {
      hide Placed, ViewOf, Routed, RemoveFrom, Enumerates, Kept;
      ghost var ss := shards[..];
      ghost var view := View();
      var sh := shards[p];
      var ks := KeysOf(sh);
      var kept := sh;
      dropped := [];
      ghost var seen: Flat := map[];
      NothingListed();
      for i := 0 to |ks|
        invariant shards[..] == ss && Enumerates(dropped, seen)
        invariant forall k :: Find(kept, k) == if k in ks[..i] && !Kept(keep, k) then None else Find(sh, k)
        invariant forall k :: Lookup(seen, k) == if k in ks[..i] && !Kept(keep, k) then Find(sh, k) else None
      {
        var k := ks[i];
        assert k in ks && ks[..i + 1] == ks[..i] + [k];
        if !Kept(keep, k) {
          var e := Entry(k, sh[k.name][k.key]);
          assert Lookup(seen, k) == None;
          EnumeratesMore(dropped, seen, e);
          dropped := dropped + [e];
          seen := seen[k := e.v];
          forall j ensures Find(RemoveFrom(kept, k), j) == if j == k then None else Find(kept, j) {
            FindAfter(kept, k, e.v, j);
          }
          kept := RemoveFrom(kept, k);
        }
      }
      assert ks[..|ks|] == ks;
      shards[p] := Trim(kept);
      assert shards[..] == ss[p := Trim(kept)];
      PrunedShard(partitionFor, ss, p, keep, ks, seen, Trim(kept));
    }

    /** loadAll: routes each entry to its partition; an old-form queue value is converted first. */
    method LoadAll(es: seq<Entry>)
      requires Valid()
      requires forall i | 0 <= i < |es| && IsLegacy(es[i]) :: Convertible(es[i].v.data)
      modifies shards
      ensures Valid() && View() == ApplyAll(old(View()), LoadedRecords(es))
    {
      hide Placed, ViewOf, Routed, LegacyWrites, RecordsOf, ApplyAll, LoadedRecords, Convertible;
      NothingLoaded(View());
      for i := 0 to |es|
        invariant Valid() && View() == ApplyAll(old(View()), LoadedRecords(es[..i]))
      {
        ghost var before := View();
        var e := es[i];
        if IsLegacy(e) {
          var conv := ConvertLegacyQueue(e.k.key, e.v.data);
          PutAll(conv);
        } else {
          PutAll([e]);
          assert AsPuts([e]) == [Put(e.k, e.v)] by { assert [e][..0] == []; }
        }
        assert es[..i + 1] == es[..i] + [e];
        LoadedMore(es[..i], e);
        ApplyAllConcat(old(View()), LoadedRecords(es[..i]), LoadRecords(e));
      }
      assert es[..|es|] == es;
    }

    method PutAll(es: seq<Entry>)
      requires Valid()
      modifies shards
      ensures Valid() && View() == ApplyAll(old(View()), AsPuts(es))
    {
      hide Placed, ViewOf, Routed;
      for i := 0 to |es|
        invariant Valid() && View() == ApplyAll(old(View()), AsPuts(es[..i]))
      {
        var e := es[i];
        assert es[..i + 1][..i] == es[..i];
        var ps := AsPuts(es[..i + 1]);
        assert ps[..|ps| - 1] == AsPuts(es[..i]);
        var _ := PutEntry(Routed(partitionFor, e.k), e.k, e.v, 0);
      }
      assert es[..|es|] == es;
    }
  }

  lemma LoadedMore(es: seq<Entry>, e: Entry)
    ensures LoadedRecords(es + [e]) == LoadedRecords(es) + LoadRecords(e)
  {
    hide LoadRecords;
    assert (es + [e])[..|es|] == es;
  }

  lemma NothingLoaded(m: Flat)
    ensures ApplyAll(m, LoadedRecords([])) == m
  {
  }

  lemma EnumeratesUnion(a: seq<Entry>, m: Flat, b: seq<Entry>, m': Flat)
    requires Enumerates(a, m) && Enumerates(b, m') && m.Keys !! m'.Keys
    ensures Enumerates(a + b, m + m')
  {
    forall k | k in m + m' ensures Entry(k, (m + m')[k]) in a + b {
      if k in m' { assert Entry(k, m'[k]) in b; } else { assert Entry(k, m[k]) in a; }
    }
  }

  function Lapsed(m: Flat, now: int): Flat {
    map k | k in m && Expired(m[k], now) :: m[k]
  }

  /** One shard without its expired entries, which are counted. */
  method SweepShard(sh: Shard, now: int) returns (kept: Shard, swept: nat, ghost gone: set<Key>)
    ensures forall k :: Find(kept, k) == Visible(Find(sh, k), now)
    ensures forall k :: k in gone <==> LapsedIn(sh, k, now)
    ensures swept == |gone|
  {
    hide Find, RemoveFrom, Trim;
    var ks := KeysOf(sh);
    kept, swept, gone := sh, 0, {};
    for i := 0 to |ks|
      invariant forall k :: Find(kept, k) == if k in ks[..i] then Visible(Find(sh, k), now) else Find(sh, k)
      invariant forall k :: k in gone <==> k in ks[..i] && LapsedIn(sh, k, now)
      invariant swept == |gone|
    {
      var k := ks[i];
      assert k in ks && ks[..i + 1] == ks[..i] + [k];
      FindIs(sh, k);
      if Expired(sh[k.name][k.key], now) {
        forall j ensures Find(RemoveFrom(kept, k), j) == if j == k then None else Find(kept, j) {
          FindAfter(kept, k, Value([], 0), j);
        }
        kept := RemoveFrom(kept, k);
        assert k !in ks[..i];
        gone, swept := gone + {k}, swept + 1;
      }
    }
    assert ks[..|ks|] == ks;
    TrimKeeps(kept);
    kept := Trim(kept);
  }

  predicate LapsedIn(sh: Shard, k: Key, now: int) {
    Find(sh, k).Some? && Expired(Find(sh, k).value, now)
  }

  lemma FindIs(sh: Shard, k: Key)
    requires Find(sh, k).Some?
    ensures k.name in sh && k.key in sh[k.name] && Find(sh, k) == Some(sh[k.name][k.key])
  {
  }

  lemma TrimKeeps(sh: Shard)
    ensures forall k :: Find(Trim(sh), k) == Find(sh, k)
  {
  }

  /** gone holds the expired keys of the shards before p. */
  ghost predicate LapsedBelow(f: PartitionFn, ss: seq<Shard>, p: nat, now: int, gone: set<Key>)
    requires |ss| == PARTITIONS
  {
    forall k :: k in gone <==> Routed(f, k) < p && LapsedIn(ss[Routed(f, k)], k, now)
  }

  lemma NoneLapsedBelow(f: PartitionFn, ss: seq<Shard>, now: int)
    requires |ss| == PARTITIONS
    ensures LapsedBelow(f, ss, 0, now, {})
  {
  }

  lemma LapsedMore(f: PartitionFn, ss: seq<Shard>, p: nat, now: int, gone: set<Key>, part: set<Key>)
    requires |ss| == PARTITIONS && Placed(f, ss) && p < PARTITIONS && LapsedBelow(f, ss, p, now, gone)
    requires forall k :: k in part <==> LapsedIn(ss[p], k, now)
    ensures gone !! part && LapsedBelow(f, ss, p + 1, now, gone + part)
  {
    hide Find, ViewOf;
    forall k | k in part ensures Routed(f, k) == p { ShardAnswers(f, ss, p, k); }
  }

  lemma LapsedAll(f: PartitionFn, ss: seq<Shard>, now: int, gone: set<Key>)
    requires |ss| == PARTITIONS && LapsedBelow(f, ss, PARTITIONS, now, gone)
    ensures gone == Lapsed(ViewOf(f, ss), now).Keys
  {
    hide ViewOf, Find;
    forall k ensures k in gone <==> k in Lapsed(ViewOf(f, ss), now) { ViewLookup(f, ss, k); }
  }

  lemma SweptView(f: PartitionFn, ss: seq<Shard>, ss': seq<Shard>, now: int)
    requires |ss| == |ss'| == PARTITIONS && Placed(f, ss)
    requires forall q, k | 0 <= q < PARTITIONS :: Find(ss'[q], k) == Visible(Find(ss[q], k), now)
    ensures Placed(f, ss') && ViewOf(f, ss') == Live(ViewOf(f, ss), now)
  {
    hide Placed, ViewOf, Find;
    var m := ViewOf(f, ss);
    forall q, k: Key | 0 <= q < PARTITIONS
      ensures Find(ss'[q], k) == if Routed(f, k) == q then Lookup(Live(m, now), k) else None
    {
      ShardAnswers(f, ss, q, k);
    }
    ViewIs(f, ss', Live(m, now));
  }

  function Named(m: Flat, name: bytes): Flat {
    map k | k in m && k.name == name :: m[k]
  }

  function InnerFlat(name: bytes, inner: map<bytes, Value>): Flat {
    map k | k in inner :: Key(name, k) := inner[k]
  }

  method ListInner(name: bytes, inner: map<bytes, Value>) returns (es: seq<Entry>)
    ensures Enumerates(es, InnerFlat(name, inner))
  {
    hide Enumerates;
    es := [];
    var keys := inner.Keys;
    ghost var seen: Flat := map[];
    NothingListed();
    while keys != {}
      invariant keys <= inner.Keys && Enumerates(es, seen)
      invariant seen == map k | k in inner && k !in keys :: Key(name, k) := inner[k]
      decreases |keys|
    {
      var k :| k in keys;
      EnumeratesMore(es, seen, Entry(Key(name, k), inner[k]));
      es := es + [Entry(Key(name, k), inner[k])];
      seen := seen[Key(name, k) := inner[k]];
      keys := keys - {k};
    }
    assert seen == InnerFlat(name, inner);
  }

  /** seen holds the named entries of the shards before p. */
  ghost predicate NamedSoFar(f: PartitionFn, ss: seq<Shard>, p: nat, name: bytes, seen: Flat)
    requires |ss| == PARTITIONS
  {
    forall k :: Lookup(seen, k) == if k.name == name && Routed(f, k) < p then Find(ss[Routed(f, k)], k) else None
  }

  lemma NamedMore(f: PartitionFn, ss: seq<Shard>, p: nat, name: bytes, seen: Flat, es: seq<Entry>, part: seq<Entry>)
    requires |ss| == PARTITIONS && Placed(f, ss) && p < PARTITIONS && name in ss[p]
    requires NamedSoFar(f, ss, p, name, seen)
    requires Enumerates(es, seen) && Enumerates(part, InnerFlat(name, ss[p][name]))
    ensures NamedSoFar(f, ss, p + 1, name, seen + InnerFlat(name, ss[p][name]))
    ensures Enumerates(es + part, seen + InnerFlat(name, ss[p][name]))
  {
    hide Enumerates;
    var more := InnerFlat(name, ss[p][name]);
    forall k ensures k in more <==> k.name == name && Routed(f, k) == p && Find(ss[p], k).Some? {
      assert k in more <==> k.name == name && Find(ss[p], k).Some?;
    }
    forall k | k in seen ensures k !in more { assert Lookup(seen, k).Some?; }
    EnumeratesUnion(es, seen, part, more);
    forall k ensures Lookup(seen + more, k) ==
        if k.name == name && Routed(f, k) < p + 1 then Find(ss[Routed(f, k)], k) else None {
      assert k in more <==> k.name == name && Routed(f, k) == p && Find(ss[p], k).Some?;
      assert Lookup(seen, k) == if k.name == name && Routed(f, k) < p then Find(ss[Routed(f, k)], k) else None;
    }
  }

  lemma NamedNoMore(f: PartitionFn, ss: seq<Shard>, p: nat, name: bytes, seen: Flat)
    requires |ss| == PARTITIONS && p < PARTITIONS && (name in ss[p] ==> ss[p][name] == map[])
    requires NamedSoFar(f, ss, p, name, seen)
    ensures NamedSoFar(f, ss, p + 1, name, seen)
  {
  }

  lemma NamedAll(f: PartitionFn, ss: seq<Shard>, name: bytes, seen: Flat)
    requires |ss| == PARTITIONS && NamedSoFar(f, ss, PARTITIONS, name, seen)
    ensures seen == Named(ViewOf(f, ss), name)
  {
    forall k ensures Lookup(seen, k) == Lookup(Named(ViewOf(f, ss), name), k) {
      ViewLookup(f, ss, k);
    }
    SameLookups(seen, Named(ViewOf(f, ss), name));
  }

  /** The shards before p are without the named map, the others as they were. */
  ghost predicate ClearedTo(ss: seq<Shard>, cur: seq<Shard>, p: nat, name: bytes) {
    && |ss| == |cur| == PARTITIONS && p <= PARTITIONS
    && (forall q | p <= q < PARTITIONS :: cur[q] == ss[q])
    && forall q, k: Key | 0 <= q < p :: Find(cur[q], k) == if k.name == name then None else Find(ss[q], k)
  }

  lemma NothingCleared(f: PartitionFn, ss: seq<Shard>, name: bytes)
    requires |ss| == PARTITIONS
    ensures ClearedTo(ss, ss, 0, name) && NamedSoFar(f, ss, 0, name, map[])
  {
  }

  lemma ClearedMore(ss: seq<Shard>, cur: seq<Shard>, p: nat, name: bytes)
    requires ClearedTo(ss, cur, p, name) && p < PARTITIONS
    ensures cur[p] == ss[p]
    ensures var inner := if name in ss[p] then ss[p][name] else map[];
            ClearedTo(ss, cur[p := if inner != map[] then ss[p] - {name} else ss[p]], p + 1, name)
  {
    var inner := if name in ss[p] then ss[p][name] else map[];
    var sh := if inner != map[] then ss[p] - {name} else ss[p];
    forall k: Key ensures Find(sh, k) == if k.name == name then None else Find(ss[p], k) {}
  }

  lemma ClearedView(f: PartitionFn, ss: seq<Shard>, ss': seq<Shard>, name: bytes)
    requires ClearedTo(ss, ss', PARTITIONS, name) && Placed(f, ss)
    ensures Placed(f, ss') && ViewOf(f, ss') == Apply(ViewOf(f, ss), Clear(name))
  {
    var m' := Apply(ViewOf(f, ss), Clear(name));
    forall q, k: Key | 0 <= q < PARTITIONS
      ensures Find(ss'[q], k) == if Routed(f, k) == q then Lookup(m', k) else None
    {
      ShardAnswers(f, ss, q, k);
    }
    ViewIs(f, ss', m');
  }

  lemma DropStep(sh: Shard, m: Flat, dropped: seq<Entry>, e: Entry)
    requires forall k :: Find(sh, k) == Lookup(ApplyAll(m, Removals(dropped)), k)
    requires Find(sh, e.k) == Some(e.v)
    ensures e.k in m
    ensures forall k :: Find(RemoveFrom(sh, e.k), k) == Lookup(ApplyAll(m, Removals(dropped + [e])), k)
  {
    hide ApplyAll, Removals;
    RemovalsAreRemoves(dropped);
    assert e.k in ApplyAll(m, Removals(dropped));
    RemovedWas(m, Removals(dropped), e.k);
    RemovalsMore(dropped, e);
    RemovalStep(m, Removals(dropped), e.k);
    forall k ensures Find(RemoveFrom(sh, e.k), k) == Lookup(ApplyAll(m, Removals(dropped + [e])), k) {
      FindAfter(sh, e.k, e.v, k);
    }
  }

  lemma NoRemovals(m: Flat)
    ensures Removals([]) == [] && ApplyAll(m, []) == m
  {
  }

  lemma {:induction false} RemovalsAreRemoves(es: seq<Entry>)
    ensures forall i | 0 <= i < |Removals(es)| :: Removals(es)[i].Remove?
  {
    if es != [] { RemovalsAreRemoves(es[..|es| - 1]); }
  }

  lemma RemovedWas(m: Flat, rs: seq<Record>, k: Key)
    requires k in ApplyAll(m, rs) && forall i | 0 <= i < |rs| :: rs[i].Remove?
    ensures k in m
  {
    ApplyAllByKey(m, rs, k);
    RemovesOnly(rs, k);
  }

  lemma {:induction false} RemovesOnly(rs: seq<Record>, k: Key)
    requires forall i | 0 <= i < |rs| :: rs[i].Remove?
    ensures Effect(rs, k) == None || Effect(rs, k) == Some(None)
  {
    if rs != [] { RemovesOnly(rs[..|rs| - 1], k); }
  }

  lemma RemovalsMore(es: seq<Entry>, e: Entry)
    ensures Removals(es + [e]) == Removals(es) + [Remove(e.k)]
  {
    assert (es + [e])[..|es + [e]| - 1] == es;
  }

  lemma RemovalStep(m: Flat, rs: seq<Record>, k: Key)
    ensures ApplyAll(m, rs + [Remove(k)]) == ApplyAll(m, rs) - {k}
  {
    assert (rs + [Remove(k)])[..|rs + [Remove(k)]| - 1] == rs;
  }

  lemma {:induction false} RemovalsEffect(es: seq<Entry>, k: Key)
    ensures Effect(Removals(es), k) == if exists i :: 0 <= i < |es| && es[i].k == k then Some(None) else None
  {
    if es != [] {
      var n := |es| - 1;
      RemovalsEffect(es[..n], k);
      assert es == es[..n] + [es[n]];
      RemovalsMore(es[..n], es[n]);
      var rs := Removals(es);
      assert rs[..|rs| - 1] == Removals(es[..n]);
      assert forall i | 0 <= i < n :: es[..n][i] == es[i];
    }
  }

  /** Removing keys of one partition is the same seen from the shard and from the whole store. */
  lemma RemovalsInShard(f: PartitionFn, view: Flat, p: nat, es: seq<Entry>)
    requires forall j | 0 <= j < |es| :: Routed(f, es[j].k) == p
    ensures forall k :: Lookup(ApplyAll(ShardOf(f, view, p), Removals(es)), k) ==
                        if Routed(f, k) == p then Lookup(ApplyAll(view, Removals(es)), k) else None
    ensures forall k | Routed(f, k) != p :: Lookup(ApplyAll(view, Removals(es)), k) == Lookup(view, k)
  {
    forall k
      ensures Lookup(ApplyAll(ShardOf(f, view, p), Removals(es)), k) ==
              if Routed(f, k) == p then Lookup(ApplyAll(view, Removals(es)), k) else None
      ensures Routed(f, k) != p ==> Lookup(ApplyAll(view, Removals(es)), k) == Lookup(view, k)
    {
      ApplyAllByKey(ShardOf(f, view, p), Removals(es), k);
      ApplyAllByKey(view, Removals(es), k);
      RemovalsEffect(es, k);
    }
  }

  function PrunedAway(f: PartitionFn, m: Flat, p: nat, keep: Keyset): Flat {
    map k | k in m && Routed(f, k) == p && !Kept(keep, k) :: m[k]
  }

  lemma PrunedShard(f: PartitionFn, ss: seq<Shard>, p: nat, keep: Keyset, ks: seq<Key>, seen: Flat, sh: Shard)
    requires |ss| == PARTITIONS && Placed(f, ss) && p < PARTITIONS && ListsKeys(ks, ss[p])
    requires forall k :: Find(sh, k) == if k in ks && !Kept(keep, k) then None else Find(ss[p], k)
    requires forall k :: Lookup(seen, k) == if k in ks && !Kept(keep, k) then Find(ss[p], k) else None
    ensures Placed(f, ss[p := sh]) && ViewOf(f, ss[p := sh]) == Pruned(f, ViewOf(f, ss), p, keep)
    ensures seen == PrunedAway(f, ViewOf(f, ss), p, keep)
  {
    hide Find, ViewOf, Kept, Routed;
    var m := ViewOf(f, ss);
    forall k
      ensures Find(sh, k) == if Routed(f, k) == p then Lookup(Pruned(f, m, p, keep), k) else None
      ensures Lookup(seen, k) == Lookup(PrunedAway(f, m, p, keep), k)
    {
      ShardAnswers(f, ss, p, k);
    }
    SameLookups(seen, PrunedAway(f, m, p, keep));
    ViewAfter(f, ss, p, sh, Pruned(f, m, p, keep));
  }

  /** A prune is the removal of each dropped key, in any order. */
  lemma PruneIsRemovals(f: PartitionFn, m: Flat, p: nat, keep: Keyset, dropped: seq<Entry>)
    requires Enumerates(dropped, PrunedAway(f, m, p, keep))
    ensures ApplyAll(m, Removals(dropped)) == Pruned(f, m, p, keep)
  {
    hide Kept, Routed;
    var away := PrunedAway(f, m, p, keep);
    forall k ensures Lookup(ApplyAll(m, Removals(dropped)), k) == Lookup(Pruned(f, m, p, keep), k) {
      ApplyAllByKey(m, Removals(dropped), k);
      RemovalsEffect(dropped, k);
      if k in away {
        var i :| 0 <= i < |dropped| && dropped[i] == Entry(k, away[k]);
        assert dropped[i].k == k;
      }
    }
    SameLookups(ApplyAll(m, Removals(dropped)), Pruned(f, m, p, keep));
  }
}
