/**
 * A node's logged operations. Each one changes the store and appends to the log file the frames of
 * exactly the records that, applied to the old entries, give the new ones.
 */
module Service {
  import opened Bytes
  import opened Entries
  import opened Packing
  import opened Queue
  import opened QueueStore
  import opened QueueLegacy
  import opened Wal
  import opened Recovery
  import opened Stores
  import opened Transactions

  /** The log file, written at its end under the log's lock. */
  class LogFile {
    var file: bytes

    constructor (contents: bytes)
      ensures file == contents
    {
      file := contents;
    }

    /** appendLocked: header, then payload. */
    method AppendRecord(c: Codec, r: Record)
      modifies this
      ensures file == old(file) + Frame(c, r)
    {
      var payload := c.marshal(EntryOf(r));
      file := file + (PutU32(|payload|) + [OpOf(r)]);
      file := file + payload;
    }

    method AppendAll(c: Codec, rs: seq<Record>)
      modifies this
      ensures file == old(file) + Frames(c, rs)
    {
      hide Frame, Frames;
      NoFrames(c);
      for i := 0 to |rs|
        invariant file == old(file) + Frames(c, rs[..i])
      {
        AppendRecord(c, rs[i]);
        assert rs[..i + 1] == rs[..i] + [rs[i]];
        FramesConcat(c, rs[..i], [rs[i]]);
        OneFrame(c, rs[i]);
      }
      assert rs[..|rs|] == rs;
    }

    /** truncateLocked. */
    method Empty()
      modifies this
      ensures file == []
    {
      file := [];
    }

    /**
     * truncateTail, at the length replay found: the file still replays to the same records, with
     * nothing behind them.
     */
    method ChopTail(c: Codec, valid: nat)
      requires valid == Replay(c, file).1
      modifies this
      ensures file == old(file)[..valid] && Replay(c, file) == (Replay(c, old(file)).0, |file|)
    {
      hide Replay;
      ReplayChopped(c, file);
      file := file[..valid];
    }
  }

  lemma NoFrames(c: Codec)
    ensures Frames(c, []) == []
  {
  }

  lemma OneFrame(c: Codec, r: Record)
    ensures Frames(c, [r]) == Frame(c, r)
  {
    assert [r][1..] == [];
  }

  /** An old-form queue value that converts without the program stopping. */
  predicate Loadable(k: Key, v: Value) {
    IsLegacy(Entry(k, v)) ==> Convertible(v.data)
  }

  class Node {
    const codec: Codec
    const store: Store
    const wal: LogFile

    constructor (c: Codec, s: Store, w: LogFile)
      ensures codec == c && store == s && wal == w
    {
      codec, store, wal := c, s, w;
    }

    method ApplyPut(k: Key, v: Value, now: int) returns (created: bool)
      requires store.Valid()
      modifies store.shards, wal
      ensures store.Valid() && store.View() == ApplyAll(old(store.View()), [Put(k, v)])
      ensures wal.file == old(wal.file) + Frames(codec, [Put(k, v)])
      ensures created <==> Read(old(store.View()), k, now).None?
    {
      created := store.PutEntry(Routed(store.partitionFor, k), k, v, now);
      OneRecord(old(store.View()), Put(k, v));
      wal.AppendAll(codec, [Put(k, v)]);
    }

    /** applyRemove and applyEvict; the record is written even when nothing was there. */
    method ApplyRemove(k: Key, now: int) returns (existed: bool)
      requires store.Valid()
      modifies store.shards, wal
      ensures store.Valid() && store.View() == ApplyAll(old(store.View()), [Remove(k)])
      ensures wal.file == old(wal.file) + Frames(codec, [Remove(k)])
      ensures existed <==> Read(old(store.View()), k, now).Some?
    {
      existed := store.RemoveEntry(Routed(store.partitionFor, k), k, now);
      OneRecord(old(store.View()), Remove(k));
      wal.AppendAll(codec, [Remove(k)]);
    }

    /** localClearMap: one record for the whole map, none when there was nothing to clear. */
    method LocalClearMap(name: bytes) returns (removed: seq<Entry>, ghost recs: seq<Record>)
      requires store.Valid()
      modifies store.shards, wal
      ensures Enumerates(removed, Named(old(store.View()), name))
      ensures recs == if Named(old(store.View()), name) == map[] then [] else [Clear(name)]
      ensures store.Valid() && store.View() == ApplyAll(old(store.View()), recs)
      ensures store.View() == Apply(old(store.View()), Clear(name))
      ensures wal.file == old(wal.file) + Frames(codec, recs)
    {
      ghost var m := store.View();
      removed := store.ClearMap(name);
      OneRecord(m, Clear(name));
      recs := [];
      NoFrames(codec);
      NoneNamed(m, name, removed);
      if |removed| != 0 {
        recs := [Clear(name)];
        wal.AppendAll(codec, [Clear(name)]);
      }
    }

    method ApplyExecute(k: Key, now: int, fn: Option<bytes> -> Action) returns (recs: seq<Record>)
      requires store.Valid()
      modifies store.shards, wal
      ensures recs == UpdateRecords(old(store.View()), k, now, fn(Read(old(store.View()), k, now)))
      ensures store.Valid() && store.View() == ApplyAll(old(store.View()), recs)
      ensures wal.file == old(wal.file) + Frames(codec, recs)
    {
      recs := store.Update(Routed(store.partitionFor, k), k, now, fn);
      wal.AppendAll(codec, recs);
    }

    /** applyQueueExecute: one queue operation, its entries and its records, as one unit. */
    method ApplyQueueExecute(name: bytes, op: Op, now: int) returns (reply: Reply, recs: seq<Record>)
      requires store.Valid()
      modifies store.shards, wal
      ensures recs == OpRecords(old(store.View()), now, name, op)
      ensures reply == QueuePlan(CellsOf(old(store.View()), now, name), op).reply
      ensures store.Valid() && store.View() == ApplyAll(old(store.View()), recs)
      ensures wal.file == old(wal.file) + Frames(codec, recs)
    {
      hide CellsOf, QueuePlan, ApplyAll, RecordsOf;
      var t := new Transaction(store, store.partitionFor(name));
      reply := QueueOp(t, name, op, now);
      recs := t.muts;
      wal.AppendAll(codec, recs);
    }

    method DropMigratedLogged(p: nat, es: seq<Entry>) returns (dropped: seq<Entry>)
      requires store.Valid() && p < PARTITIONS
      modifies store.shards, wal
      ensures dropped == Dropped(ShardOf(store.partitionFor, old(store.View()), p), es)
      ensures store.Valid() && store.View() == ApplyAll(old(store.View()), Removals(dropped))
      ensures wal.file == old(wal.file) + Frames(codec, Removals(dropped))
    {
      dropped := store.DropMigrated(p, es);
      AppendRemovals(dropped);
    }

    method PruneToKeysetLogged(p: nat, keep: Keyset) returns (dropped: seq<Entry>)
      requires store.Valid() && p < PARTITIONS
      modifies store.shards, wal
      ensures Enumerates(dropped, PrunedAway(store.partitionFor, old(store.View()), p, keep))
      ensures store.Valid() && store.View() == ApplyAll(old(store.View()), Removals(dropped))
      ensures store.View() == Pruned(store.partitionFor, old(store.View()), p, keep)
      ensures wal.file == old(wal.file) + Frames(codec, Removals(dropped))
    {
      ghost var m := store.View();
      dropped := store.PruneToKeyset(p, keep);
      PruneIsRemovals(store.partitionFor, m, p, keep, dropped);
      AppendRemovals(dropped);
    }

    method AppendRemovals(dropped: seq<Entry>)
      modifies wal
      ensures wal.file == old(wal.file) + Frames(codec, Removals(dropped))
    {
      hide Frame, Frames;
      NoFrames(codec);
      for i := 0 to |dropped|
        invariant wal.file == old(wal.file) + Frames(codec, Removals(dropped[..i]))
      {
        wal.AppendRecord(codec, Remove(dropped[i].k));
        assert dropped[..i + 1] == dropped[..i] + [dropped[i]];
        RemovalsMore(dropped[..i], dropped[i]);
        FramesConcat(codec, Removals(dropped[..i]), [Remove(dropped[i].k)]);
        OneFrame(codec, Remove(dropped[i].k));
      }
      assert dropped[..|dropped|] == dropped;
    }

    /** Checkpoint: the snapshot to persist, and then the emptied log. */
    method Checkpoint(now: int) returns (listing: seq<Entry>)
      requires store.Valid()
      modifies wal
      ensures Enumerates(listing, Live(store.View(), now)) && wal.file == []
    {
      listing := store.SnapshotAll(now);
      wal.Empty();
    }

    /** Restore: loads a snapshot, skipping what has lapsed. */
    method Restore(snapshot: seq<Entry>, now: int)
      requires store.Valid()
      requires forall i | 0 <= i < |snapshot| :: Loadable(snapshot[i].k, snapshot[i].v)
      modifies store.shards
      ensures store.Valid()
      ensures store.View() == ApplyAll(old(store.View()), Replayed(AsPuts(snapshot), now))
    {
      hide LoadRecords, IsLegacy, Replayed, AsPuts, LoadedRecords, Loadable, ApplyAll;
      var es: seq<Entry> := [];
      NothingReplayed(now);
      for i := 0 to |snapshot|
        invariant LoadedRecords(es) == Replayed(AsPuts(snapshot[..i]), now)
        invariant forall j | 0 <= j < |es| :: Loadable(es[j].k, es[j].v)
        invariant store.Valid() && store.View() == old(store.View())
      {
        var e := snapshot[i];
        assert snapshot[..i + 1] == snapshot[..i] + [e];
        ReplayedMore(snapshot[..i], e, now);
        if !(e.v.expireAt != 0 && e.v.expireAt <= now) {
          LoadedMore(es, e);
          es := es + [e];
        }
      }
      assert snapshot[..|snapshot|] == snapshot;
      AllLoadable(es);
      store.LoadAll(es);
    }

    /** OpenWAL: replays the log into the store and chops what follows the last intact record. */
    method OpenWAL(now: int)
      requires store.Valid()
      requires forall r | r in Replay(codec, wal.file).0 && r.Put? :: Loadable(r.k, r.v)
      modifies store.shards, wal
      ensures store.Valid()
      ensures store.View() == ApplyAll(old(store.View()), Replayed(Replay(codec, old(wal.file)).0, now))
      ensures wal.file == old(wal.file)[..Replay(codec, old(wal.file)).1]
    {
      hide Replay, ApplyAll, LoadRecords, IsLegacy, Next, Replayed;
      var valid := 0;
      ghost var applied: seq<Record> := [];
      var file := wal.file;
      assert file[0..] == file && [] + Replay(codec, file).0 == Replay(codec, file).0;
      ReplayedNone(store.View(), now);
      while Next(codec, file[valid..]).Some?
        invariant valid <= |file| && store.Valid() && wal.file == old(wal.file) == file
        invariant Replay(codec, file) ==
                    (applied + Replay(codec, file[valid..]).0, valid + Replay(codec, file[valid..]).1)
        invariant store.View() == ApplyAll(old(store.View()), Replayed(applied, now))
        decreases |file| - valid
      {
        var (r, n) := Next(codec, file[valid..]).value;
        ReplayUnfold(codec, file[valid..], r, n);
        assert file[valid..][n..] == file[valid + n..];
        if r.Some? {
          assert r.value in Replay(codec, file).0;
          ReplayedSnoc(old(store.View()), applied, r.value, now);
          ReplayOne(r.value, now);
          applied := applied + [r.value];
        }
        assert applied + Replay(codec, file[valid + n..]).0 == Replay(codec, file).0;
        valid := valid + n;
      }
      ReplayEnd(codec, file[valid..]);
      assert applied + [] == applied;
      wal.ChopTail(codec, valid);
    }

    /** The put, remove and clear callbacks of replay. */
    method ReplayOne(r: Record, now: int)
      requires store.Valid() && (r.Put? ==> Loadable(r.k, r.v))
      modifies store.shards
      ensures store.Valid() && store.View() == ApplyAll(old(store.View()), ReplayRecords(r, now))
    {
      hide LoadRecords;
      match r {
        case Put(k, v) =>
          if v.expireAt != 0 && v.expireAt <= now {
            return;
          }
          store.LoadAll([Entry(k, v)]);
          LoadedOne(Entry(k, v));
        case Remove(k) =>
          var _ := store.RemoveEntry(Routed(store.partitionFor, k), k, now);
          OneRecord(old(store.View()), r);
        case Clear(name) =>
          var _ := store.ClearMap(name);
          OneRecord(old(store.View()), r);
      }
    }

    /** A restart: restore the snapshot into the empty store, then open the log. */
    method Restart(snapshot: seq<Entry>, now: int)
      requires store.Valid() && store.View() == map[]
      requires forall i | 0 <= i < |snapshot| :: Loadable(snapshot[i].k, snapshot[i].v)
      requires forall r | r in Replay(codec, wal.file).0 && r.Put? :: Loadable(r.k, r.v)
      modifies store.shards, wal
      ensures store.Valid()
      ensures store.View() == Recovered(snapshot, Replay(codec, old(wal.file)).0, now)
      ensures wal.file == old(wal.file)[..Replay(codec, old(wal.file)).1]
    {
      hide Replay, ApplyAll, Replayed;
      Restore(snapshot, now);
      OpenWAL(now);
    }
  }

  lemma NoneNamed(m: Flat, name: bytes, removed: seq<Entry>)
    requires Enumerates(removed, Named(m, name))
    ensures |removed| == 0 <==> Named(m, name) == map[]
    ensures |removed| == 0 ==> Apply(m, Clear(name)) == m
  {
    if |removed| == 0 {
      assert forall k | k in Named(m, name) :: false;
      assert forall k | k in m :: k.name != name ==> k in Apply(m, Clear(name));
      assert forall k | k in m && k.name == name :: k in Named(m, name);
    } else {
      assert removed[0].k in Named(m, name);
    }
  }

  lemma LoadedOne(e: Entry)
    ensures LoadedRecords([e]) == LoadRecords(e)
  {
    hide LoadRecords;
    assert [e][..0] == [];
    assert [] + LoadRecords(e) == LoadRecords(e);
  }

  lemma NothingReplayed(now: int)
    ensures LoadedRecords([]) == Replayed(AsPuts([]), now)
  {
  }

  lemma AllLoadable(es: seq<Entry>)
    requires forall j | 0 <= j < |es| :: Loadable(es[j].k, es[j].v)
    ensures forall i | 0 <= i < |es| && IsLegacy(es[i]) :: Convertible(es[i].v.data)
  {
    hide Convertible;
    forall i | 0 <= i < |es| && IsLegacy(es[i]) ensures Convertible(es[i].v.data) {
      assert Loadable(es[i].k, es[i].v) && es[i] == Entry(es[i].k, es[i].v);
    }
  }

  lemma ReplayedMore(es: seq<Entry>, e: Entry, now: int)
    ensures Replayed(AsPuts(es + [e]), now) ==
            Replayed(AsPuts(es), now) + if Stale(e.v, now) then [] else LoadRecords(e)
  {
    hide LoadRecords;
    assert (es + [e])[..|es + [e]| - 1] == es;
    var ps := AsPuts(es + [e]);
    assert ps[..|ps| - 1] == AsPuts(es);
    assert ps[|ps| - 1] == Put(e.k, e.v) && Entry(e.k, e.v) == e;
  }

  lemma ReplayedNone(m: Flat, now: int)
    ensures ApplyAll(m, Replayed([], now)) == m
  {
  }

  lemma ReplayedSnoc(m: Flat, rs: seq<Record>, r: Record, now: int)
    ensures ApplyAll(m, Replayed(rs + [r], now)) == ApplyAll(ApplyAll(m, Replayed(rs, now)), ReplayRecords(r, now))
  {
    hide ReplayRecords;
    assert (rs + [r])[..|rs + [r]| - 1] == rs;
    ApplyAllConcat(m, Replayed(rs, now), ReplayRecords(r, now));
  }
}
