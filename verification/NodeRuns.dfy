/** A node serving requests, checkpointing and restarting goes through the durability protocol. */
module NodeRuns {
  import opened Bytes
  import opened Entries
  import opened Queue
  import opened QueueStore
  import opened QueueLegacy
  import opened Wal
  import opened Recovery
  import opened Stores
  import opened Service
  import D = Durability

  datatype Request =
    | Write(k: Key, v: Value)
    | Delete(k: Key)
    | ClearAll(name: bytes)
    | Process(k: Key, fn: Option<bytes> -> Action)
    | Operate(name: bytes, op: Op)
    | HandOff(p: nat, es: seq<Entry>)
    | Prune(p: nat, keep: Keyset)
    | Checkpoint
    | Sweep

  datatype Timed = Timed(r: Request, now: int)

  predicate Allowed(q: Timed) {
    match q.r
    case HandOff(p, _) => p < PARTITIONS
    case Prune(p, _) => p < PARTITIONS
    case _ => true
  }

  /** The removal of each key of p outside keep, in some order. */
  ghost predicate IsPrune(f: PartitionFn, view: Flat, p: nat, keep: Keyset, recs: seq<Record>) {
    exists dropped :: Enumerates(dropped, PrunedAway(f, view, p, keep)) && recs == Removals(dropped)
  }

  /** What the request is to log, given the entries it finds. */
  ghost predicate Asks(f: PartitionFn, q: Timed, view: Flat, recs: seq<Record>) {
    match q.r
    case Write(k, v) => recs == [Put(k, v)]
    case Delete(k) => recs == [Remove(k)]
    case ClearAll(name) => recs == if Named(view, name) == map[] then [] else [Clear(name)]
    case Process(k, fn) => recs == UpdateRecords(view, k, q.now, fn(Read(view, k, q.now)))
    case Operate(name, op) => recs == OpRecords(view, q.now, name, op)
    case HandOff(p, es) => recs == Removals(Dropped(ShardOf(f, view, p), es))
    case Prune(p, keep) => IsPrune(f, view, p, keep, recs)
    case Checkpoint => recs == []
    case Sweep => recs == []
  }

  /** What a node holds: its entries, its log file and its last snapshot. */
  datatype Held = Held(view: Flat, file: bytes, snapshot: seq<Entry>)

  ghost function HeldBy(node: Node, snapshot: seq<Entry>): Held
    requires node.store.Valid()
    reads node.store.shards, node.wal
  {
    Held(node.store.View(), node.wal.file, snapshot)
  }

  /** What it does to all three. */
  ghost predicate Does(c: Codec, q: Timed, h: Held, recs: seq<Record>, h': Held) {
    match q.r
    case Checkpoint => h'.view == h.view && h'.file == [] && Enumerates(h'.snapshot, Live(h.view, q.now))
    case Sweep => h' == h.(view := Live(h.view, q.now))
    case _ => h' == h.(view := ApplyAll(h.view, recs), file := h.file + Frames(c, recs))
  }

  method Perform(node: Node, q: Timed, snapshot: seq<Entry>)
    returns (ghost recs: seq<Record>, snapshot': seq<Entry>)
    requires node.store.Valid() && Allowed(q)
    modifies node.store.shards, node.wal
    ensures node.store.Valid()
    ensures Asks(node.store.partitionFor, q, old(node.store.View()), recs)
    ensures Does(node.codec, q, old(HeldBy(node, snapshot)), recs, HeldBy(node, snapshot'))
  {
    hide ApplyAll, Frames, Enumerates, UpdateRecords, OpRecords, Dropped, Removals, Pruned, PrunedAway;
    hide Store.Valid, Store.View;
    recs, snapshot' := [], snapshot;
    match q.r {
      case Write(k, v) =>
        var _ := node.ApplyPut(k, v, q.now);
        recs := [Put(k, v)];
      case Delete(k) =>
        var _ := node.ApplyRemove(k, q.now);
        recs := [Remove(k)];
      case ClearAll(name) =>
        var removed;
        removed, recs := node.LocalClearMap(name);
      case Process(k, fn) =>
        var rs := node.ApplyExecute(k, q.now, fn);
        recs := rs;
      case Operate(name, op) =>
        var reply, rs := node.ApplyQueueExecute(name, op, q.now);
        recs := rs;
      case HandOff(p, es) =>
        var dropped := node.DropMigratedLogged(p, es);
        recs := Removals(dropped);
      case Prune(p, keep) =>
        var dropped := node.PruneToKeysetLogged(p, keep);
        recs := Removals(dropped);
      case Checkpoint =>
        var es := node.Checkpoint(q.now);
        snapshot' := es;
      case Sweep =>
        var _ := node.store.SweepExpired(q.now);
    }
  }

  // ---- the protocol's side ----------------------------------------------------------------

  predicate Storable(c: Codec, rs: seq<Record>) { AllReplayable(c, rs) && AllModern(rs) }

  lemma Extend(c: Codec, run: seq<D.State>, steps: seq<D.Step>, step: D.Step, s': D.State)
    requires D.IsRun(c, run, steps) && D.Next(c, run[|steps|], step, s')
    ensures D.IsRun(c, run + [s'], steps + [step])
  {
    hide D.Next;
  }

  /** A state of the protocol between operations, holding just this. */
  predicate At(s: D.State, h: Held, now: int) {
    s.up && s.doing.Idle? && s.store == h.view && s.disk == D.Disk(h.snapshot, h.file) && s.clock == now
  }

  /** From s on, these records were acknowledged and nothing was brought back. */
  ghost predicate Acked(s: D.State, recs: seq<Record>, s': D.State) {
    s'.acked == s.acked + recs && s'.risen == s.risen - Touched(recs)
  }

  lemma AckedMore(s: D.State, recs: seq<Record>, s1: D.State, more: seq<Record>, s2: D.State)
    requires Acked(s, recs, s1) && Acked(s1, more, s2)
    ensures Acked(s, recs + more, s2)
  {
    hide Effect;
    forall k ensures k in Touched(recs + more) <==> k in Touched(recs) || k in Touched(more) {
      EffectConcat(recs, more, k);
    }
  }

  lemma AckedNothing(s: D.State)
    ensures Acked(s, [], s)
  {
  }

  /** An operation that logs recs: into the store, into the file, acknowledged. */
  lemma LogSteps(c: Codec, run: seq<D.State>, steps: seq<D.Step>, h: Held, now: int, recs: seq<Record>)
    returns (run': seq<D.State>, steps': seq<D.Step>)
    requires D.IsRun(c, run, steps) && At(run[|steps|], h, now) && Storable(c, recs)
    ensures D.IsRun(c, run', steps') && Acked(run[|steps|], recs, run'[|steps'|])
    ensures At(run'[|steps'|], h.(view := ApplyAll(h.view, recs), file := h.file + Frames(c, recs)), now)
  {
    hide ApplyAll, Frames, D.IsRun, Touched;
    RunEnds(c, run, steps);
    var s0 := run[|steps|];
    var n := |Frames(c, recs)|;
    var s1 := s0.(store := ApplyAll(h.view, recs), doing := D.Appending(recs, 0));
    var s2 := s1.(disk := s0.disk.(log := h.file + Frames(c, recs)), doing := D.Appending(recs, n));
    var s3 := s2.(doing := D.Idle, acked := s0.acked + recs, logged := s0.logged + recs,
                  risen := s0.risen - Touched(recs));
    assert Frames(c, recs)[0..n] == Frames(c, recs);
    Extend(c, run, steps, D.Begin(recs), s1);
    Extend(c, run + [s1], steps + [D.Begin(recs)], D.WriteLog(n), s2);
    Extend(c, run + [s1] + [s2], steps + [D.Begin(recs)] + [D.WriteLog(n)], D.Acknowledge, s3);
    run' := run + [s1] + [s2] + [s3];
    steps' := steps + [D.Begin(recs)] + [D.WriteLog(n)] + [D.Acknowledge];
    RunEnds(c, run', steps');
  }

  lemma RunEnds(c: Codec, run: seq<D.State>, steps: seq<D.Step>)
    requires D.IsRun(c, run, steps)
    ensures |run| == |steps| + 1
  {
  }

  lemma CheckpointSteps(c: Codec, run: seq<D.State>, steps: seq<D.Step>, h: Held, now: int, listing: seq<Entry>)
    returns (run': seq<D.State>, steps': seq<D.Step>)
    requires D.IsRun(c, run, steps) && At(run[|steps|], h, now) && Enumerates(listing, Live(h.view, now))
    ensures D.IsRun(c, run', steps') && At(run'[|steps'|], Held(h.view, [], listing), now)
    ensures Acked(run[|steps|], [], run'[|steps'|])
  {
    hide D.IsRun, Enumerates;
    RunEnds(c, run, steps);
    var s0 := run[|steps|];
    var s1 := s0.(disk := s0.disk.(snapshot := listing), doing := D.Checkpointing);
    var s2 := s1.(disk := s1.disk.(log := []), doing := D.Idle, logged := []);
    Extend(c, run, steps, D.Persist(listing), s1);
    Extend(c, run + [s1], steps + [D.Persist(listing)], D.Truncate, s2);
    run', steps' := run + [s1] + [s2], steps + [D.Persist(listing)] + [D.Truncate];
    RunEnds(c, run', steps');
  }

  lemma OneStep(c: Codec, run: seq<D.State>, steps: seq<D.Step>, step: D.Step, s': D.State)
    returns (run': seq<D.State>, steps': seq<D.Step>)
    requires D.IsRun(c, run, steps) && D.Next(c, run[|steps|], step, s')
    ensures D.IsRun(c, run', steps') && run'[|steps'|] == s'
  {
    hide D.Next;
    Extend(c, run, steps, step, s');
    run', steps' := run + [s'], steps + [step];
  }

  /** The steps behind one request. */
  lemma RequestSteps(c: Codec, run: seq<D.State>, steps: seq<D.Step>, q: Timed, h: Held, was: int, recs: seq<Record>,
                     h': Held)
    returns (run': seq<D.State>, steps': seq<D.Step>)
    requires D.IsRun(c, run, steps) && At(run[|steps|], h, was) && was <= q.now && Storable(c, recs)
    requires Does(c, q, h, recs, h') && (q.r.Checkpoint? || q.r.Sweep? ==> recs == [])
    ensures D.IsRun(c, run', steps') && At(run'[|steps'|], h', q.now)
    ensures Acked(run[|steps|], recs, run'[|steps'|])
  {
    hide D.IsRun, ApplyAll, Frames, Enumerates, Touched;
    RunEnds(c, run, steps);
    D.NothingTouched();
    var ticked := run[|steps|].(clock := q.now);
    run', steps' := OneStep(c, run, steps, D.Tick(q.now), ticked);
    RunEnds(c, run', steps');
    if q.r.Checkpoint? {
      run', steps' := CheckpointSteps(c, run', steps', h, q.now, h'.snapshot);
    } else if q.r.Sweep? {
      run', steps' := OneStep(c, run', steps', D.Sweep, ticked.(store := h'.view));
    } else {
      run', steps' := LogSteps(c, run', steps', h, q.now, recs);
    }
    RunEnds(c, run', steps');
  }

  // ---- the node's side --------------------------------------------------------------------

  /** The node, with this last snapshot, is where the run of the protocol is. */
  ghost predicate Follows(node: Node, snapshot: seq<Entry>, run: seq<D.State>, steps: seq<D.Step>, now: int)
    requires node.store.Valid()
    reads node.store.shards, node.wal
  {
    D.IsRun(node.codec, run, steps) && At(run[|steps|], HeldBy(node, snapshot), now)
  }

  predicate InOrder(qs: seq<Timed>, start: int) {
    && (forall i | 0 <= i < |qs| :: start <= qs[i].now && Allowed(qs[i]))
    && (forall i, j | 0 <= i < j < |qs| :: qs[i].now <= qs[j].now)
  }

  /** One request, by what it is to log and what it does. */
  ghost predicate ServedOne(f: PartitionFn, c: Codec, q: Timed, h: Held, recs: seq<Record>, h': Held) {
    Asks(f, q, h.view, recs) && Does(c, q, h, recs, h')
  }

  /** The requests one after the other: each meets what the one before left, and recs is what they log. */
  ghost predicate Served(f: PartitionFn, c: Codec, qs: seq<Timed>, h: Held, recs: seq<Record>, h': Held) {
    if qs == [] then recs == [] && h' == h
    else
      var front, q := qs[..|qs| - 1], qs[|qs| - 1];
      exists h1, recs1, more ::
        && Served(f, c, front, h, recs1, h1)
        && ServedOne(f, c, q, h1, more, h')
        && recs == recs1 + more
  }

  lemma ServedMore(f: PartitionFn, c: Codec, qs: seq<Timed>, h: Held, recs: seq<Record>, h1: Held, q: Timed,
                   more: seq<Record>, h': Held)
    requires Served(f, c, qs, h, recs, h1) && ServedOne(f, c, q, h1, more, h')
    ensures Served(f, c, qs + [q], h, recs + more, h')
  {
    hide ServedOne;
    var all := qs + [q];
    assert all[..|all| - 1] == qs && all[|all| - 1] == q;
  }

  /**
   * Whatever a node is asked, in whatever order: each request logs what it is to log, given what the
   * ones before it left. As long as no record is beyond the replay cap or of the old queue form, the
   * node's entries, its log file and its last snapshot go through a run of the durability protocol,
   * in which exactly those records are acknowledged.
   */
  method Serve(node: Node, qs: seq<Timed>, start: int, snapshot0: seq<Entry>, ghost run0: seq<D.State>,
               ghost steps0: seq<D.Step>)
    returns (ghost recs: seq<Record>, snapshot: seq<Entry>, ghost run: seq<D.State>, ghost steps: seq<D.Step>)
    requires node.store.Valid() && InOrder(qs, start) && Follows(node, snapshot0, run0, steps0, start)
    modifies node.store.shards, node.wal
    ensures node.store.Valid()
    ensures Served(node.store.partitionFor, node.codec, qs, old(HeldBy(node, snapshot0)), recs, HeldBy(node, snapshot))
    ensures Storable(node.codec, recs) ==>
              && Follows(node, snapshot, run, steps, if qs == [] then start else qs[|qs| - 1].now)
              && Acked(run0[|steps0|], recs, run[|steps|])
  {
    hide D.IsRun, At, Does, Asks, Store.Valid, Store.View, Replayable, Modern, Served, Acked;
    recs, snapshot, run, steps := [], snapshot0, run0, steps0;
    RunEnds(node.codec, run0, steps0);
    AckedNothing(run0[|steps0|]);
    ServedNothing(node.store.partitionFor, node.codec, HeldBy(node, snapshot0));
    for i := 0 to |qs|
      invariant node.store.Valid()
      invariant Served(node.store.partitionFor, node.codec, qs[..i], old(HeldBy(node, snapshot0)), recs,
                       HeldBy(node, snapshot))
      invariant Storable(node.codec, recs) ==>
                  && |run| == |steps| + 1
                  && Follows(node, snapshot, run, steps, if i == 0 then start else qs[i - 1].now)
                  && Acked(run0[|steps0|], recs, run[|steps|])
    {
      ghost var h := HeldBy(node, snapshot);
      ghost var more;
      var snapshot';
      more, snapshot' := Perform(node, qs[i], snapshot);
      ghost var h' := HeldBy(node, snapshot');
      assert qs[..i + 1] == qs[..i] + [qs[i]];
      ServedMore(node.store.partitionFor, node.codec, qs[..i], old(HeldBy(node, snapshot0)), recs, h, qs[i], more, h');
      Quiet(node.store.partitionFor, qs[i], h.view, more);
      StorableSplit(node.codec, recs, more);
      if Storable(node.codec, recs) && Storable(node.codec, more) {
        ghost var s := run[|steps|];
        run, steps := RequestSteps(node.codec, run, steps, qs[i], h, if i == 0 then start else qs[i - 1].now, more, h');
        RunEnds(node.codec, run, steps);
        AckedMore(run0[|steps0|], recs, s, more, run[|steps|]);
      }
      recs, snapshot := recs + more, snapshot';
    }
    assert qs[..|qs|] == qs;
  }

  lemma ServedNothing(f: PartitionFn, c: Codec, h: Held)
    ensures Served(f, c, [], h, [], h)
  {
  }

  /**
   * A node where such a run is, going down between requests, and recovered from its last snapshot and
   * its log file: every key that was not showing something brought back shows from then on what it
   * showed, if and only if this recovery does not bring it back.
   */
  lemma NothingServedIsLost(c: Codec, run: seq<D.State>, steps: seq<D.Step>, h: Held, start: int, now: int, later: int)
    requires c.Inverse() && D.IsRun(c, run, steps) && At(run[|steps|], h, start) && start <= now < later
    ensures var recovered := Recovered(h.snapshot, Replay(c, h.file).0, now);
            var risen, rising := run[|steps|].risen, D.Rising(c, D.Disk(h.snapshot, h.file), now);
            && Alike(recovered, h.view, later, risen + rising)
            && (forall k | k in rising && k !in risen ::
                  Visible(Lookup(recovered, k), now + 1) != Visible(Lookup(h.view, k), now + 1))
            && (risen + rising == iset{} ==> Live(recovered, later) == Live(h.view, later))
  {
    hide Replay, Recovered, D.IsRun, ApplyAll, Touched, D.Rising;
    RunEnds(c, run, steps);
    D.NothingTouched();
    var s := run[|steps|];
    var i := D.CrashRecovery(c, run, steps, now, later);
    var j := D.CrashRecovery(c, run, steps, now + 1, later + 1);
    var l := D.CrashRecovery(c, run, steps, later, later + 1);
    assert D.Pending(s.doing) == [] && s.acked + [] == s.acked;
    assert D.RisenInStore(s) == s.risen && D.RisenAfter(c, s, now) == s.risen + D.Rising(c, s.disk, now);
    AlikeIsLive(Recovered(h.snapshot, Replay(c, h.file).0, now), h.view, later);
  }

  lemma Quiet(f: PartitionFn, q: Timed, view: Flat, recs: seq<Record>)
    requires Asks(f, q, view, recs)
    ensures q.r.Checkpoint? || q.r.Sweep? ==> recs == []
  {
  }

  lemma StorableSplit(c: Codec, a: seq<Record>, b: seq<Record>)
    ensures Storable(c, a + b) ==> Storable(c, a) && Storable(c, b)
  {
    hide Replayable, Modern;
    if Storable(c, a + b) {
      forall i | 0 <= i < |a| ensures Replayable(c, a[i]) && Modern(a[i]) { assert (a + b)[i] == a[i]; }
      forall i | 0 <= i < |b| ensures Replayable(c, b[i]) && Modern(b[i]) { assert (a + b)[|a| + i] == b[i]; }
    }
  }

  /** What the disk holds in a run can be loaded. */
  lemma DiskIsLoadable(c: Codec, run: seq<D.State>, steps: seq<D.Step>)
    requires c.Inverse() && D.IsRun(c, run, steps)
    ensures var d := run[|steps|].disk;
            && (forall i | 0 <= i < |d.snapshot| :: Loadable(d.snapshot[i].k, d.snapshot[i].v))
            && (forall r | r in Replay(c, d.log).0 && r.Put? :: Loadable(r.k, r.v))
  {
    hide Replay, Frames, IsLegacy, D.IsRun;
    D.RunKeepsInv(c, run, steps);
    RunEnds(c, run, steps);
    var s := run[|steps|];
    var i := D.LogReplays(c, s);
    D.LoggedReplayable(c, s);
    var all := s.logged + D.Pending(s.doing);
    forall r | r in Replay(c, s.disk.log).0 && r.Put? ensures Loadable(r.k, r.v) {
      assert r in all;
      var j :| 0 <= j < |all| && all[j] == r;
      assert Modern(all[j]);
    }
    forall j | 0 <= j < |s.disk.snapshot| ensures Loadable(s.disk.snapshot[j].k, s.disk.snapshot[j].v) {
      PutAt(s.disk.snapshot, j);
      assert Modern(AsPuts(s.disk.snapshot)[j]);
    }
  }

  lemma {:induction false} PutAt(es: seq<Entry>, j: nat)
    requires j < |es|
    ensures |AsPuts(es)| == |es| && AsPuts(es)[j] == Put(es[j].k, es[j].v)
  {
    var n := |es| - 1;
    if n > 0 { PutAt(es[..n], if j < n then j else 0); }
  }

  /** A node that restarts on the disk of a crashed run goes on with that run, by its recovery step. */
  method Resume(node: Node, snapshot: seq<Entry>, now: int, ghost run0: seq<D.State>, ghost steps0: seq<D.Step>)
    returns (ghost run: seq<D.State>, ghost steps: seq<D.Step>)
    requires node.store.Valid() && node.store.View() == map[] && node.codec.Inverse()
    requires D.IsRun(node.codec, run0, steps0) && !run0[|steps0|].up && run0[|steps0|].clock <= now
    requires run0[|steps0|].disk == D.Disk(snapshot, node.wal.file)
    modifies node.store.shards, node.wal
    ensures node.store.Valid() && Follows(node, snapshot, run, steps, now + 1)
    ensures node.store.View() == Recovered(snapshot, Replay(node.codec, old(node.wal.file)).0, now)
    ensures run[|steps|].acked == run0[|steps0|].acked + D.Survivors(node.codec, run0[|steps0|])
    ensures run[|steps|].risen == D.RisenAfter(node.codec, run0[|steps0|], now)
  {
    hide Replay, Recovered, D.IsRun, D.Survivors, D.RisenAfter, Loadable, Store.Valid, Store.View;
    RunEnds(node.codec, run0, steps0);
    ghost var s, c := run0[|steps0|], node.codec;
    DiskIsLoadable(c, run0, steps0);
    node.Restart(snapshot, now);
    ghost var (rs, valid) := Replay(c, s.disk.log);
    ghost var s' := D.State(s.disk.(log := s.disk.log[..valid]), true, Recovered(snapshot, rs, now), D.Idle,
                            now + 1, s.acked + D.Survivors(c, s), s.logged + D.Survivors(c, s),
                            D.RisenAfter(c, s, now));
    run, steps := OneStep(c, run0, steps0, D.Recover(now), s');
  }
}
