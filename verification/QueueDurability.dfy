/** What the crash-recovery protocol does to a queue. */
module QueueDurability {
  import opened Bytes
  import opened Entries
  import opened Queue
  import opened QueueStore
  import opened QueueCrash
  import opened Wal
  import opened Recovery
  import opened Durability

  /** What exempts no key that lasts exempts none of a queue. */
  lemma QueueKeysAlike(a: Flat, b: Flat, now: int, exempt: iset<Key>, name: bytes)
    requires Alike(a, b, now, exempt) && Lapsed(b, now, exempt) && Persistent(b)
    ensures CellsOf(a, now, name) == CellsOf(b, now, name)
  {
    hide CellsOf;
    forall k: Key | IsReserved(k.name) ensures Read(a, k, now) == Read(b, k, now) {
      assert k !in exempt;
      assert Visible(Lookup(a, k), now) == Visible(Lookup(b, k), now);
    }
    SameReads(a, now, b, now, name);
  }

  ghost predicate HoldsQueue(m: Flat, now: int, name: bytes) {
    exists items :: QueueAt(m, now, name, items)
  }

  lemma HoldsQueueCells(m: Flat, now: int, name: bytes, q: Cells)
    requires CellsOf(m, now, name) == q
    ensures HoldsQueue(m, now, name) <==> exists items :: Represents(q, items)
  {
    assert forall items :: QueueAt(m, now, name, items) <==> Represents(q, items);
  }

  lemma {:induction false} RecordsPrefix(name: bytes, ws: seq<Write>, i: nat)
    requires i <= |RecordsOf(name, ws)|
    ensures |RecordsOf(name, ws)| == |ws| && RecordsOf(name, ws)[..i] == RecordsOf(name, ws[..i])
  {
    hide RecordOf;
    if ws != [] {
      var n := |ws| - 1;
      RecordsPrefix(name, ws[..n], 0);
      if i <= n {
        RecordsPrefix(name, ws[..n], i);
        assert ws[..n][..i] == ws[..i];
      } else {
        assert ws[..i] == ws;
      }
    }
  }

  /** Replaying all records of a queue operation, or some prefix, on entries that look the same. */
  lemma TornInStore(m: Flat, now: int, name: bytes, op: Op, i: nat)
    requires i <= |QueuePlan(CellsOf(m, now, name), op).writes|
    ensures |OpRecords(m, now, name, op)| == |QueuePlan(CellsOf(m, now, name), op).writes|
    ensures CellsOf(ApplyAll(m, OpRecords(m, now, name, op)[..i]), now, name) ==
            Torn(CellsOf(m, now, name), op, i)
  {
    hide CellsOf, QueuePlan;
    var ws := QueuePlan(CellsOf(m, now, name), op).writes;
    RecordsPrefix(name, ws, 0);
    RecordsPrefix(name, ws, i);
    PlanInRange(m, now, name, op);
    CellsAfterWrites(m, now, name, ws[..i]);
  }

  /** After recovery the queue's cells are those of a torn operation, read at any later instant. */
  lemma RecoveredCells(c: Codec, s: State, now: int, at: int, later: int, name: bytes, op: Op)
    requires c.Inverse() && Inv(c, s) && s.clock <= now < later
    requires var history := ApplyAll(map[], s.acked);
             Persistent(history) && Pending(s.doing) == OpRecords(history, at, name, op)
    ensures var q := CellsOf(ApplyAll(map[], s.acked), at, name);
            var kept := |Survivors(c, s)|;
            && kept <= |Pending(s.doing)| == |QueuePlan(q, op).writes|
            && CellsOf(Recovered(s.disk.snapshot, Replay(c, s.disk.log).0, now), later, name) == Torn(q, op, kept)
  {
    hide CellsOf, QueuePlan, Recovered, Replay, Torn, Survivors, ApplyAll, RecordsOf, Persistent;
    hide Alike, Lapsed, RisenAfter, Frames;
    var history := ApplyAll(map[], s.acked);
    var i := RecoveryExactIff(c, s, now);
    var recs := Pending(s.doing);
    var recovered := Recovered(s.disk.snapshot, Replay(c, s.disk.log).0, now);
    var torn := ApplyAll(history, recs[..i]);
    ApplyAllConcat(map[], s.acked, recs[..i]);
    var risen := RisenAfter(c, s, now);
    RecoveredAlike(c, s, now);
    RisenAfterLapsed(c, s, now);
    AlikeLater(recovered, torn, now + 1, later, risen);
    LapsedLater(torn, now + 1, later, risen);
    QueueRecordsKeepPersistent(name, QueuePlan(CellsOf(history, at, name), op).writes);
    RecordsPersist(history, recs[..i]);
    QueueKeysAlike(recovered, torn, later, risen, name);
    CellsAnyTime(torn, name, later, at);
    TornInStore(history, at, name, op, 0);
    TornInStore(history, at, name, op, i);
  }

  /**
   * A queue with one operation in flight when the node went down. After recovery, at every later
   * instant, it is a queue exactly when that operation reached the log whole or not at all, or
   * offered into an empty queue: it then holds what the whole operation left, and in the other two
   * cases what was there before.
   */
  lemma QueueAfterCrashIff(c: Codec, run: seq<State>, steps: seq<Step>, now: int, at: int, later: int, name: bytes,
                           items: seq<bytes>, op: Op)
    requires c.Inverse() && IsRun(c, run, steps) && run[|steps|].clock <= now < later
    requires var s := run[|steps|];
             var history := ApplyAll(map[], s.acked);
             && Persistent(history) && QueueAt(history, at, name, items) && Acceptable(op)
             && Room(CellsOf(history, at, name), 1)
             && Pending(s.doing) == OpRecords(history, at, name, op)
    ensures var s := run[|steps|];
            var kept := |Survivors(c, s)|;
            var recovered := Recovered(s.disk.snapshot, Replay(c, s.disk.log).0, now);
            && (HoldsQueue(recovered, later, name) <==>
                (kept == 0 || kept == |Pending(s.doing)| || (op.Offer? && items == [])))
            && (kept == |Pending(s.doing)| ==> QueueAt(recovered, later, name, Fifo(items, op).0))
            && (kept == 0 || (op.Offer? && items == [] && kept < |Pending(s.doing)|) ==>
                  QueueAt(recovered, later, name, items))
  {
    hide CellsOf, QueuePlan, Recovered, Replay, Torn, Survivors, ApplyAll, RecordsOf, Persistent, Inv;
    var s := run[|steps|];
    RunKeepsInv(c, run, steps);
    RecoveredCells(c, s, now, at, later, name, op);
    var q := CellsOf(ApplyAll(map[], s.acked), at, name);
    var kept := |Survivors(c, s)|;
    HoldsQueueCells(Recovered(s.disk.snapshot, Replay(c, s.disk.log).0, now), later, name, Torn(q, op, kept));
    TornOperationIsAQueueIff(q, items, op, kept);
  }
}
