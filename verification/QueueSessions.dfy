/** Queues on a node that serves requests and restarts, again and again. */
module QueueSessions {
  import opened Bytes
  import opened Entries
  import opened Queue
  import opened QueueStore
  import opened Wal
  import opened Recovery
  import opened Stores
  import opened Service
  import opened NodeRuns
  import D = Durability
  import Runs = QueueRuns
  import QueueDurability
  import QueueLoading

  /** The map interface refuses the two reserved maps; hand-offs, which move queues away, are left out. */
  predicate Friendly(q: Timed) {
    match q.r
    case Write(k, _) => !IsReserved(k.name)
    case Delete(k) => !IsReserved(k.name)
    case ClearAll(name) => !IsReserved(name)
    case Process(k, _) => !IsReserved(k.name)
    case Operate(_, op) => Acceptable(op)
    case HandOff(_, _) => false
    case Prune(_, _) => false
    case _ => true
  }

  /** The operations on the named queue among the requests. */
  function OpsOf(name: bytes, qs: seq<Timed>): (ops: seq<Op>)
    ensures |ops| <= |qs|
  {
    if qs == [] then []
    else
      var r := qs[|qs| - 1].r;
      OpsOf(name, qs[..|qs| - 1]) + if r.Operate? && r.name == name then [r.op] else []
  }

  ghost function FifosOf(q: Runs.Fifos, qs: seq<Timed>): Runs.Fifos {
    name => FifoRun(q(name), OpsOf(name, qs)).0
  }

  // ---- one request ------------------------------------------------------------------------

  /** Records that put nothing that expires into a queue, and nothing of the old form. */
  ghost predicate Lasting(rs: seq<Record>) {
    forall i | 0 <= i < |rs| :: KeepsPersistent(rs[i]) && Modern(rs[i])
  }

  /** The event that the request is for the queues, if any. */
  ghost predicate IsEvent(q: Timed, m: Flat, e: Runs.Event, m': Flat) {
    && Runs.Allowed(e) && m' == Runs.After(m, e)
    && (e.Operate? <==> q.r.Operate?) && (e.Operate? ==> e.name == q.r.name && e.op == q.r.op)
  }

  lemma RequestIsEvent(f: PartitionFn, c: Codec, q: Timed, h: Held, recs: seq<Record>, h': Held)
    returns (e: Option<Runs.Event>)
    requires Friendly(q) && ServedOne(f, c, q, h, recs, h')
    ensures Lasting(recs)
    ensures if e.Some? then IsEvent(q, h.view, e.value, h'.view) else h'.view == h.view && !q.r.Operate?
  {
    hide ApplyAll, Frames, RecordsOf, CellsOf, QueuePlan, Enumerates, KeepsPersistent, Modern;
    e := None;
    if q.r.Operate? {
      var ws := QueuePlan(CellsOf(h.view, q.now, q.r.name), q.r.op).writes;
      QueueRecordsKeepPersistent(q.r.name, ws);
      QueueLoading.OperationsAreModern(q.r.name, ws, 0);
      e := Some(Runs.Operate(q.r.name, q.r.op, q.now));
    } else if q.r.Sweep? {
      e := Some(Runs.Sweep(q.now));
    } else if !q.r.Checkpoint? {
      OneRecord(h.view, Clear([]));
      if recs != [] {
        assert recs == [recs[0]] && !IsReserved(Runs.NameOf(recs[0]));
        OrdinaryRecord(recs[0], h.view);
        e := Some(Runs.Write(recs[0]));
      }
    }
  }

  lemma OrdinaryRecord(r: Record, m: Flat)
    requires !IsReserved(Runs.NameOf(r))
    ensures KeepsPersistent(r) && Modern(r) && ApplyAll(m, [r]) == Apply(m, r)
  {
    OneRecord(m, r);
  }

  /** Every queue has room for n more operations. */
  ghost predicate RoomForAll(m: Flat, n: nat) {
    forall name :: Runs.Roomy(m, name, n)
  }

  lemma LessRoomForAll(m: Flat, n: nat, less: nat)
    requires RoomForAll(m, n) && less <= n
    ensures RoomForAll(m, less)
  {
    hide Runs.Roomy;
    forall name ensures Runs.Roomy(m, name, less) { Runs.LessRoom(m, name, n, less); }
  }

  lemma EventKeepsQueues(m: Flat, e: Runs.Event, q: Runs.Fifos, n: nat)
    requires Runs.Allowed(e) && Runs.Holds(m, q) && RoomForAll(m, n) && n > 0
    ensures Runs.Holds(Runs.After(m, e), Runs.FifosAfter(q, e)) && RoomForAll(Runs.After(m, e), n - 1)
  {
    hide Runs.Holds, Runs.Roomy, Runs.After, Runs.FifosAfter, Runs.Pays;
    LessRoomForAll(m, n, 1);
    Runs.HoldsStep(m, q, e);
    var less := n - 1;
    forall name ensures Runs.Roomy(Runs.After(m, e), name, less) {
      Runs.PaysOne(m, Runs.After(m, e), e, name, n);
      Runs.LessRoom(Runs.After(m, e), name, n - Runs.Cost(name, e), less);
    }
  }

  lemma RequestKeepsQueues(f: PartitionFn, c: Codec, t: Timed, h: Held, recs: seq<Record>, h': Held, q: Runs.Fifos,
                           n: nat)
    requires Friendly(t) && ServedOne(f, c, t, h, recs, h') && Runs.Holds(h.view, q) && RoomForAll(h.view, n) && n > 0
    ensures Lasting(recs) && Runs.Holds(h'.view, FifosOf(q, [t])) && RoomForAll(h'.view, n - 1)
  {
    hide Runs.Holds, RoomForAll, Runs.After, Lasting, Runs.FifosAfter, FifosOf, Friendly, ServedOne, Runs.Allowed;
    var e := RequestIsEvent(f, c, t, h, recs, h');
    if e.Some? {
      EventKeepsQueues(h.view, e.value, q, n);
      EventFifos(q, t, e.value);
      SameFifos(h'.view, Runs.FifosAfter(q, e.value), FifosOf(q, [t]));
    } else {
      LessRoomForAll(h.view, n, n - 1);
      NoOpFifos(q, t);
      SameFifos(h'.view, q, FifosOf(q, [t]));
    }
  }

  lemma SameFifos(m: Flat, a: Runs.Fifos, b: Runs.Fifos)
    requires Runs.Holds(m, a) && forall name :: a(name) == b(name)
    ensures Runs.Holds(m, b)
  {
    hide QueueAt;
    forall name, now ensures QueueAt(m, now, name, b(name)) { assert QueueAt(m, now, name, a(name)); }
  }

  lemma OneRequest(name: bytes, t: Timed)
    ensures OpsOf(name, [t]) == if t.r.Operate? && t.r.name == name then [t.r.op] else []
  {
    assert [t][..0] == [];
  }

  lemma NoOpFifos(q: Runs.Fifos, t: Timed)
    requires !t.r.Operate?
    ensures forall name :: FifosOf(q, [t])(name) == q(name)
  {
    hide OpsOf;
    forall name ensures OpsOf(name, [t]) == [] { OneRequest(name, t); }
  }

  lemma EventFifos(q: Runs.Fifos, t: Timed, e: Runs.Event)
    requires (e.Operate? <==> t.r.Operate?) && (e.Operate? ==> e.name == t.r.name && e.op == t.r.op)
    ensures forall name :: FifosOf(q, [t])(name) == Runs.FifosAfter(q, e)(name)
  {
    hide OpsOf, Fifo, FifoRun;
    forall name ensures FifosOf(q, [t])(name) == Runs.FifosAfter(q, e)(name) {
      OneRequest(name, t);
      Runs.NoOperations(q(name), name);
      if e.Operate? { OneOperation(q(name), e.op); }
    }
  }

  lemma OneOperation(items: seq<bytes>, op: Op)
    ensures FifoRun(items, [op]).0 == Fifo(items, op).0
  {
    assert [op][..0] == [];
  }

  // ---- any requests -----------------------------------------------------------------------

  /** No entry of a snapshot that is a queue's expires. */
  ghost predicate LastingListing(es: seq<Entry>) {
    forall i | 0 <= i < |es| :: KeepsPersistent(Put(es[i].k, es[i].v))
  }

  lemma SnapshotStaysLasting(c: Codec, t: Timed, h: Held, recs: seq<Record>, h': Held)
    requires Does(c, t, h, recs, h') && Persistent(h.view) && LastingListing(h.snapshot)
    ensures LastingListing(h'.snapshot)
  {
    hide ApplyAll, Frames;
  }

  /** Requests served one after the other: each queue ends as the FIFO of its own operations. */
  lemma {:induction false} ServedKeepsQueues(f: PartitionFn, c: Codec, qs: seq<Timed>, h: Held, recs: seq<Record>,
                                             h': Held, q: Runs.Fifos, n: nat)
    requires Served(f, c, qs, h, recs, h') && forall i | 0 <= i < |qs| :: Friendly(qs[i])
    requires Runs.Holds(h.view, q) && LastingListing(h.snapshot) && RoomForAll(h.view, n) && |qs| <= n
    ensures Lasting(recs) && Runs.Holds(h'.view, FifosOf(q, qs)) && LastingListing(h'.snapshot)
    ensures RoomForAll(h'.view, n - |qs|)
  {
    hide Runs.Holds, RoomForAll, Friendly, ServedOne, LastingListing, FifosOf, KeepsPersistent, Modern;
    if qs == [] {
      NoRequests(q);
      SameFifos(h.view, q, FifosOf(q, []));
    } else {
      var m := |qs| - 1;
      var front, t := qs[..m], qs[m];
      var h1, recs1, more :| Served(f, c, front, h, recs1, h1) && ServedOne(f, c, t, h1, more, h') &&
                             recs == recs1 + more;
      ServedKeepsQueues(f, c, front, h, recs1, h1, q, n);
      RequestKeepsQueues(f, c, t, h1, more, h', FifosOf(q, front), n - m);
      HoldsPersists(h1.view, FifosOf(q, front));
      assert Does(c, t, h1, more, h') by { DoesOfServed(f, c, t, h1, more, h'); }
      SnapshotStaysLasting(c, t, h1, more, h');
      FifosMore(q, front, t);
      assert front + [t] == qs;
      SameFifos(h'.view, FifosOf(FifosOf(q, front), [t]), FifosOf(q, qs));
    }
  }

  lemma DoesOfServed(f: PartitionFn, c: Codec, t: Timed, h: Held, recs: seq<Record>, h': Held)
    requires ServedOne(f, c, t, h, recs, h')
    ensures Does(c, t, h, recs, h')
  {
    hide Does, Asks;
  }

  lemma HoldsPersists(m: Flat, q: Runs.Fifos)
    requires Runs.Holds(m, q)
    ensures Persistent(m)
  {
  }

  lemma NoRequests(q: Runs.Fifos)
    ensures forall name :: q(name) == FifosOf(q, [])(name)
  {
  }

  lemma FifosMore(q: Runs.Fifos, qs: seq<Timed>, t: Timed)
    ensures forall name :: FifosOf(FifosOf(q, qs), [t])(name) == FifosOf(q, qs + [t])(name)
  {
    hide OpsOf, Fifo, FifoRun;
    forall name ensures FifosOf(FifosOf(q, qs), [t])(name) == FifosOf(q, qs + [t])(name) {
      OneRequest(name, t);
      OpsMore(name, qs, t);
      var items := FifosOf(q, qs)(name);
      if t.r.Operate? && t.r.name == name {
        OneOperation(items, t.r.op);
        Runs.FifoRunMore(q(name), OpsOf(name, qs), t.r.op);
      } else {
        Runs.NoOperations(items, name);
        assert OpsOf(name, qs) + [] == OpsOf(name, qs);
      }
    }
  }

  lemma OpsMore(name: bytes, qs: seq<Timed>, t: Timed)
    ensures OpsOf(name, qs + [t]) == OpsOf(name, qs) + if t.r.Operate? && t.r.name == name then [t.r.op] else []
  {
    assert (qs + [t])[..|qs + [t]| - 1] == qs;
  }

  // ---- restarts ---------------------------------------------------------------------------

  /** The node is where a run is, its queues hold these items, and nothing it keeps of them expires. */
  ghost predicate Serving(c: Codec, run: seq<D.State>, steps: seq<D.Step>, h: Held, now: int, q: Runs.Fifos,
                          room: nat) {
    && D.IsRun(c, run, steps) && At(run[|steps|], h, now)
    && Runs.Holds(h.view, q) && RoomForAll(h.view, room)
    && Lasting(run[|steps|].acked) && LastingListing(h.snapshot)
  }

  lemma LastingConcat(a: seq<Record>, b: seq<Record>)
    requires Lasting(a) && Lasting(b)
    ensures Lasting(a + b)
  {
    hide KeepsPersistent, Modern;
  }

  lemma {:induction false} LastingBuilds(m: Flat, rs: seq<Record>)
    requires Persistent(m) && Lasting(rs)
    ensures Persistent(ApplyAll(m, rs))
  {
    hide Persistent, ApplyAll, Modern;
    RecordsPersist(m, rs);
  }

  lemma {:induction false} FreshIsLasting(rs: seq<Record>, now: int)
    requires Lasting(rs)
    ensures Lasting(Fresh(rs, now))
  {
    hide KeepsPersistent, Modern;
    if rs != [] {
      FreshIsLasting(rs[..|rs| - 1], now);
    }
  }

  lemma {:induction false} LastingPuts(es: seq<Entry>)
    requires LastingListing(es) && AllModern(AsPuts(es))
    ensures Lasting(AsPuts(es))
  {
    hide KeepsPersistent, Modern;
    forall i | 0 <= i < |AsPuts(es)| ensures KeepsPersistent(AsPuts(es)[i]) {
      PutsLength(es);
      PutAt(es, i);
    }
  }

  lemma {:induction false} PutsLength(es: seq<Entry>)
    ensures |AsPuts(es)| == |es|
  {
    if es != [] { PutsLength(es[..|es| - 1]); }
  }

  /** What is recovered from entries and records that last does. */
  lemma RecoveredLasts(snapshot: seq<Entry>, rs: seq<Record>, now: int)
    requires LastingListing(snapshot) && AllModern(AsPuts(snapshot)) && Lasting(rs)
    ensures Persistent(Recovered(snapshot, rs, now))
  {
    hide ApplyAll, Fresh, Replayed, Lasting, LastingListing, Persistent;
    LastingPuts(snapshot);
    LastingIsModern(rs);
    ReplayedIsFresh(AsPuts(snapshot), now);
    ReplayedIsFresh(rs, now);
    FreshIsLasting(AsPuts(snapshot), now);
    FreshIsLasting(rs, now);
    NothingPersists();
    LastingBuilds(map[], Fresh(AsPuts(snapshot), now));
    LastingBuilds(ApplyAll(map[], Fresh(AsPuts(snapshot), now)), Fresh(rs, now));
  }

  lemma NothingPersists()
    ensures Persistent(map[])
  {
  }

  lemma LastingIsModern(rs: seq<Record>)
    requires Lasting(rs)
    ensures AllModern(rs)
  {
    hide KeepsPersistent, Modern;
  }

  /** In a run in which nothing of the queues expires, the store has the cells of everything that counts. */
  lemma CellsOfRun(c: Codec, run: seq<D.State>, steps: seq<D.Step>, view: Flat, now: int, name: bytes)
    requires c.Inverse() && D.IsRun(c, run, steps) && run[|steps|].up && run[|steps|].doing.Idle?
    requires run[|steps|].store == view && Persistent(view) && Lasting(run[|steps|].acked)
    ensures CellsOf(view, now, name) == CellsOf(ApplyAll(map[], run[|steps|].acked), now, name)
  {
    hide CellsOf, Lasting, Persistent, ApplyAll, Touched, Alike, Replay;
    hide D.Lapsed, D.IsRun, D.RisenInStore, D.RisenAfter;
    RunEnds(c, run, steps);
    var s := run[|steps|];
    var hist := ApplyAll(map[], s.acked);
    var i := D.CrashRecovery(c, run, steps, s.clock, s.clock + 1);
    assert s.acked + [] == s.acked;
    NothingPersists();
    LastingBuilds(map[], s.acked);
    QueueDurability.QueueKeysAlike(view, hist, s.clock, D.RisenInStore(s), name);
    CellsAnyTime(view, name, now, s.clock);
    CellsAnyTime(hist, name, now, s.clock);
  }

  /** A new node serves with every queue empty. */
  lemma StartsServing(c: Codec, now: int)
    ensures var s := D.State(D.Disk([], []), true, map[], D.Idle, now, [], [], iset{});
            Serving(c, [s], [], Held(map[], [], []), now, _ => [], U64_SIZE - 1)
  {
    hide Runs.Holds, Runs.Roomy;
    Runs.NoQueues(map[]);
    var n := U64_SIZE - 1;
    forall name ensures Runs.Roomy(map[], name, n) { assert n < U64_SIZE; }
  }

  /** Serving any requests, each queue takes exactly the operations on it. */
  method Session(node: Node, qs: seq<Timed>, start: int, snapshot0: seq<Entry>, ghost run0: seq<D.State>,
                 ghost steps0: seq<D.Step>, ghost q: Runs.Fifos, ghost room: nat)
    returns (ghost recs: seq<Record>, snapshot: seq<Entry>, ghost run: seq<D.State>, ghost steps: seq<D.Step>)
    requires node.store.Valid() && InOrder(qs, start) && (forall i | 0 <= i < |qs| :: Friendly(qs[i])) && |qs| <= room
    requires Serving(node.codec, run0, steps0, HeldBy(node, snapshot0), start, q, room)
    modifies node.store.shards, node.wal
    ensures node.store.Valid()
    ensures Served(node.store.partitionFor, node.codec, qs, old(HeldBy(node, snapshot0)), recs, HeldBy(node, snapshot))
    ensures AllReplayable(node.codec, recs) ==>
              Serving(node.codec, run, steps, HeldBy(node, snapshot), if qs == [] then start else qs[|qs| - 1].now,
                      FifosOf(q, qs), room - |qs|)
  {
    hide Served, Store.Valid, Store.View, Lasting, LastingListing, Runs.Holds, RoomForAll, FifosOf;
    hide At, D.IsRun, Friendly, Touched, Replayable, Modern;
    ghost var h := HeldBy(node, snapshot0);
    RunEnds(node.codec, run0, steps0);
    recs, snapshot, run, steps := Serve(node, qs, start, snapshot0, run0, steps0);
    ServedKeepsQueues(node.store.partitionFor, node.codec, qs, h, recs, HeldBy(node, snapshot), q, room);
    LastingIsModern(recs);
    LastingConcat(run0[|steps0|].acked, recs);
  }

  /** A crash between requests. */
  lemma CrashIdle(c: Codec, run: seq<D.State>, steps: seq<D.Step>, h: Held, now: int)
    returns (run': seq<D.State>, steps': seq<D.Step>)
    requires D.IsRun(c, run, steps) && At(run[|steps|], h, now)
    ensures D.IsRun(c, run', steps')
    ensures run'[|steps'|] == run[|steps|].(up := false, store := map[])
  {
    hide D.IsRun;
    RunEnds(c, run, steps);
    var s := run[|steps|];
    assert s.disk.log[..|s.disk.log|] == s.disk.log;
    run', steps' := OneStep(c, run, steps, D.Crash(|s.disk.log|), s.(up := false, store := map[]));
    RunEnds(c, run', steps');
  }

  /** What the disk of such a run recovers lasts, and is all that was acknowledged. */
  lemma RebootLasts(c: Codec, run: seq<D.State>, steps: seq<D.Step>, now: int)
    requires c.Inverse() && D.IsRun(c, run, steps) && run[|steps|].doing.Idle?
    requires Lasting(run[|steps|].acked) && LastingListing(run[|steps|].disk.snapshot)
    ensures var s := run[|steps|];
            D.Survivors(c, s) == [] && Persistent(Recovered(s.disk.snapshot, Replay(c, s.disk.log).0, now))
  {
    hide D.IsRun, Recovered, Replay, Frames, Persistent, LastingListing, D.Survivors, D.DiskComplete, D.StoreCurrent;
    RunEnds(c, run, steps);
    D.RunKeepsInv(c, run, steps);
    var s := run[|steps|];
    var i := D.LogReplays(c, s);
    assert s.logged + [] == s.logged;
    LastingSuffix(s.logged, s.acked);
    RecoveredLasts(s.disk.snapshot, s.logged, now);
  }

  lemma LastingSuffix(l: seq<Record>, all: seq<Record>)
    requires D.IsSuffix(l, all) && Lasting(all)
    ensures Lasting(l)
  {
    hide KeepsPersistent, Modern;
    var d := |all| - |l|;
    assert forall i | 0 <= i < |l| :: l[i] == all[d + i];
  }

  /** Two runs in which the same records count show the same queues. */
  lemma SameQueues(c: Codec, run0: seq<D.State>, steps0: seq<D.Step>, h: Held, was: int, run: seq<D.State>,
                   steps: seq<D.Step>, h': Held, now: int, q: Runs.Fifos, room: nat)
    requires c.Inverse() && Serving(c, run0, steps0, h, was, q, room)
    requires D.IsRun(c, run, steps) && At(run[|steps|], h', now)
    requires run[|steps|].acked == run0[|steps0|].acked && Persistent(h'.view) && h'.snapshot == h.snapshot
    ensures Serving(c, run, steps, h', now, q, room)
  {
    hide D.IsRun, CellsOf, Persistent, Lasting, LastingListing, Represents, ApplyAll;
    RunEnds(c, run0, steps0);
    RunEnds(c, run, steps);
    forall name, t ensures CellsOf(h'.view, t, name) == CellsOf(h.view, t, name) {
      CellsOfRun(c, run0, steps0, h.view, t, name);
      CellsOfRun(c, run, steps, h'.view, t, name);
    }
    forall name, t ensures QueueAt(h'.view, t, name, q(name)) { assert QueueAt(h.view, t, name, q(name)); }
    forall name ensures Runs.Roomy(h'.view, name, room) { assert Runs.Roomy(h.view, name, room); }
  }

  /**
   * A node that goes down between requests, and a new one started on its last snapshot and its log
   * file: every queue holds what it held, and the node goes on serving. Nothing is asked of the other
   * keys, which a recovery may bring back.
   */
  method Reboot(node: Node, snapshot: seq<Entry>, was: int, now: int, ghost run0: seq<D.State>,
                ghost steps0: seq<D.Step>, ghost q: Runs.Fifos, ghost room: nat)
    returns (node': Node, ghost run: seq<D.State>, ghost steps: seq<D.Step>)
    requires node.store.Valid() && node.codec.Inverse() && was <= now
    requires Serving(node.codec, run0, steps0, HeldBy(node, snapshot), was, q, room)
    ensures fresh(node') && node'.codec == node.codec && node'.store.Valid()
    ensures Serving(node.codec, run, steps, HeldBy(node', snapshot), now + 1, q, room)
    ensures forall name, t :: QueueAt(node'.store.View(), t, name, q(name))
  {
    hide Store.Valid, Store.View, Lasting, LastingListing, RoomForAll, D.IsRun, QueueAt, D.Survivors, D.RisenAfter;
    ghost var c := node.codec;
    ghost var h := HeldBy(node, snapshot);
    ghost var run1, steps1 := CrashIdle(c, run0, steps0, h, was);
    RunEnds(c, run0, steps0);
    RunEnds(c, run1, steps1);
    var store := new Store(node.store.partitionFor);
    var wal := new LogFile(node.wal.file);
    node' := new Node(node.codec, store, wal);
    run, steps := Resume(node', snapshot, now, run1, steps1);
    RunEnds(c, run, steps);
    RebootLasts(c, run1, steps1, now);
    assert run[|steps|].acked == run0[|steps0|].acked;
    SameQueues(c, run0, steps0, h, was, run, steps, HeldBy(node', snapshot), now + 1, q, room);
    assert Runs.Holds(node'.store.View(), q);
  }
}
