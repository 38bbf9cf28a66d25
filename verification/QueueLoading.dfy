/** Loading a queue's entries: those of the current form as they are, an old-form value converted. */
module QueueLoading {
  import opened Bytes
  import opened Entries
  import opened Packing
  import opened Queue
  import opened QueueStore
  import opened QueueLegacy
  import opened Recovery
  import opened Stores

  /** What an operation logs is of the current form and never lapses. */
  lemma {:induction false} OperationsAreModern(name: bytes, ws: seq<Write>, now: int)
    ensures AllModern(RecordsOf(name, ws))
    ensures forall i | 0 <= i < |RecordsOf(name, ws)| :: !StalePut(RecordsOf(name, ws)[i], now)
  {
    hide SegKey, EncodeMeta;
    if ws != [] {
      OperationsAreModern(name, ws[..|ws| - 1], now);
      OperationIsModern(name, ws[|ws| - 1], now);
    }
  }

  lemma OperationIsModern(name: bytes, w: Write, now: int)
    ensures Modern(RecordOf(name, w)) && !StalePut(RecordOf(name, w), now)
  {
    if w.SetSeg? { MetaIsNoSegment(name, w.id, name); }
  }

  lemma {:induction false} NothingStale(rs: seq<Record>, now: int)
    requires forall i | 0 <= i < |rs| :: !StalePut(rs[i], now)
    ensures Fresh(rs, now) == rs
  {
    if rs != [] {
      NothingStale(rs[..|rs| - 1], now);
      assert !StalePut(rs[|rs| - 1], now);
    }
  }

  /** So loading it, at any instant, writes exactly what the operation wrote. */
  lemma OperationLoadsAsWritten(name: bytes, ws: seq<Write>, now: int)
    ensures Replayed(RecordsOf(name, ws), now) == RecordsOf(name, ws)
  {
    hide RecordsOf, Fresh, Replayed;
    OperationsAreModern(name, ws, now);
    ReplayedIsFresh(RecordsOf(name, ws), now);
    NothingStale(RecordsOf(name, ws), now);
  }

  /**
   * Loading the records of any queue operation one by one does to the queue what the operation did,
   * and leaves every other queue and every ordinary key alone.
   */
  lemma LoadedOperation(m: Flat, at: int, now: int, name: bytes, op: Op)
    ensures var m' := ApplyAll(m, Replayed(OpRecords(m, at, name, op), now));
            && CellsOf(m', at, name) == After(CellsOf(m, at, name), op)
            && (forall other | other != name :: CellsOf(m', at, other) == CellsOf(m, at, other))
            && forall k: Key | !IsReserved(k.name) :: Lookup(m', k) == Lookup(m, k)
  {
    hide CellsOf, QueuePlan, RecordsOf, Replayed, ApplyAll, ApplyWrites;
    var ws := QueuePlan(CellsOf(m, at, name), op).writes;
    OperationLoadsAsWritten(name, ws, now);
    PlanInRange(m, at, name, op);
    CellsAfterWrites(m, at, name, ws);
  }

  /** A metadata value of 24 bytes, or none, is loaded as it is; any other is an old-form queue. */
  lemma LoadedMetadata(m: Flat, now: int, name: bytes, v: Value)
    requires CellsOf(m, now, name) == Cells(None, map[]) && |v.data| <= MAX_SLICE
    ensures var m' := ApplyAll(m, LoadRecords(Entry(MetaKey(name), v)));
            if |v.data| == 24 || |v.data| == 0 then m' == m[MetaKey(name) := v]
            else QueueAt(m', now, name, Unpack(v.data))
  {
    hide CellsOf, Unpack, RecordsOf, LegacyWrites, ApplyAll;
    if |v.data| == 24 || |v.data| == 0 {
      OneRecord(m, Put(MetaKey(name), v));
    } else {
      LegacyUpgradePreservesItems(m, now, name, v.data);
    }
  }

  /** loadAll of one old-form queue value, where nothing is stored for that queue. */
  method UpgradeQueue(store: Store, name: bytes, v: Value, now: int)
    requires store.Valid() && CellsOf(store.View(), now, name) == Cells(None, map[])
    requires |v.data| != 24 && |v.data| > 0 && Convertible(v.data)
    modifies store.shards
    ensures store.Valid() && QueueAt(store.View(), now, name, Unpack(v.data))
  {
    hide CellsOf, Unpack, RecordsOf, LegacyWrites, ApplyAll, LoadRecords, Represents;
    var e := Entry(MetaKey(name), v);
    LoadedMetadata(store.View(), now, name, v);
    assert LoadedRecords([e]) == LoadRecords(e) by {
      assert [e][..0] == [];
      assert [] + LoadRecords(e) == LoadRecords(e);
    }
    store.LoadAll([e]);
  }
}
