/**
 * One node's durability protocol as a step machine. The disk holds the last snapshot and the log;
 * memory holds the store. A crash may come between any two steps, any number of times.
 */
module Durability {
  import opened Bytes
  import opened Entries
  import opened QueueLegacy
  import opened Wal
  import opened Recovery

  datatype Disk = Disk(snapshot: seq<Entry>, log: bytes)

  datatype Activity =
    | Idle
    | Appending(recs: seq<Record>, written: nat)  // an operation is in memory, its frames partly written
    | Checkpointing                               // the new snapshot is in place, the log not yet emptied

  /**
   * acked lists every record that counts: those of acknowledged operations and those of an
   * unacknowledged one that a recovery found in the log. logged lists those of them the log still
   * holds. risen holds the keys that a recovery brought back from the dead and that no record
   * counted since is about. These three are bookkeeping for the claims and guide no step.
   */
  datatype State = State(disk: Disk, up: bool, store: Flat, doing: Activity, clock: int,
                         acked: seq<Record>, logged: seq<Record>, risen: iset<Key>)

  datatype Step =
    | Begin(recs: seq<Record>)       // apply an operation to the store
    | WriteLog(n: nat)               // n more bytes of its frames reach the file
    | Acknowledge                    // all written and synced
    | Sweep                          // reclaim expired entries; not logged
    | Persist(listing: seq<Entry>)   // replace the snapshot atomically
    | Truncate                       // empty the log
    | Tick(now: int)
    | Crash(kept: nat)               // memory is lost; un-acknowledged log bytes may be
    | ChopTail                       // a recovery attempt got as far as chopping the torn tail
    | Recover(now: int)              // restore, replay, chop the torn tail

  function Pending(a: Activity): seq<Record> {
    if a.Appending? then a.recs else []
  }

  function Written(a: Activity): nat {
    if a.Appending? then a.written else 0
  }

  /** The records replay finds past the acknowledged ones. */
  function Survivors(c: Codec, s: State): seq<Record> {
    var rs := Replay(c, s.disk.log).0;
    if |s.logged| <= |rs| then rs[|s.logged|..] else []
  }

  function SnapshotMap(d: Disk): Flat {
    ApplyAll(map[], AsPuts(d.snapshot))
  }

  /** No key of the disk state comes back from the dead at this recovery. */
  ghost predicate CleanRecovery(c: Codec, d: Disk, now: int) {
    forall k :: !Resurrects(SnapshotMap(d), Replay(c, d.log).0, now, k)
  }

  /** The keys that this recovery brings back. */
  ghost function Rising(c: Codec, d: Disk, now: int): iset<Key> {
    iset k: Key | Resurrects(SnapshotMap(d), Replay(c, d.log).0, now, k)
  }

  /** The keys risen once this recovery is done. */
  ghost function RisenAfter(c: Codec, s: State, now: int): iset<Key> {
    (s.risen - Touched(Survivors(c, s))) + Rising(c, s.disk, now)
  }

  /** The keys whose risen value the store shows: an operation in flight has already overwritten its own. */
  ghost function RisenInStore(s: State): iset<Key> {
    s.risen - Touched(Pending(s.doing))
  }

  ghost predicate Next(c: Codec, s: State, step: Step, s': State) {
    match step
    case Begin(recs) =>
      && s.up && s.doing.Idle? && AllReplayable(c, recs) && AllModern(recs)
      && s' == s.(store := ApplyAll(s.store, recs), doing := Appending(recs, 0))
    case WriteLog(n) =>
      && s.up && s.doing.Appending? && s.doing.written + n <= |Frames(c, s.doing.recs)|
      && s' == s.(disk := s.disk.(log := s.disk.log +
                                         Frames(c, s.doing.recs)[s.doing.written..s.doing.written + n]),
                  doing := s.doing.(written := s.doing.written + n))
    case Acknowledge =>
      && s.up && s.doing.Appending? && s.doing.written == |Frames(c, s.doing.recs)|
      && s' == s.(doing := Idle, acked := s.acked + s.doing.recs, logged := s.logged + s.doing.recs,
                  risen := s.risen - Touched(s.doing.recs))
    case Sweep =>
      s.up && s' == s.(store := Live(s.store, s.clock))
    case Persist(listing) =>
      && s.up && s.doing.Idle? && Enumerates(listing, Live(s.store, s.clock))
      && s' == s.(disk := s.disk.(snapshot := listing), doing := Checkpointing)
    case Truncate =>
      && s.up && s.doing.Checkpointing?
      && s' == s.(disk := s.disk.(log := []), doing := Idle, logged := [])
    case Tick(now) =>
      s.clock <= now && s' == s.(clock := now)
    case Crash(kept) =>
      && s.up && kept <= |s.disk.log| && |s.disk.log| <= kept + Written(s.doing)
      && s' == s.(disk := s.disk.(log := s.disk.log[..kept]), up := false, store := map[],
                  doing := if s.doing.Appending? then s.doing.(written := s.doing.written - (|s.disk.log| - kept))
                           else s.doing)
    case ChopTail =>
      && !s.up
      && s' == s.(disk := s.disk.(log := s.disk.log[..Replay(c, s.disk.log).1]),
                  doing := if s.doing.Appending? then s.doing.(written := |Frames(c, Survivors(c, s))|) else s.doing)
    case Recover(now) =>
      && !s.up && s.clock <= now
      && var (rs, valid) := Replay(c, s.disk.log);
         s' == State(s.disk.(log := s.disk.log[..valid]), true, Recovered(s.disk.snapshot, rs, now), Idle,
                     now + 1, s.acked + Survivors(c, s), s.logged + Survivors(c, s),
                     RisenAfter(c, s, now))
  }

  ghost predicate Initial(s: State) {
    s == State(Disk([], []), true, map[], Idle, s.clock, [], [], iset{})
  }

  // ---- the invariant ----------------------------------------------------------------------

  predicate IsSuffix(l: seq<Record>, all: seq<Record>) {
    |l| <= |all| && all[|all| - |l|..] == l
  }

  /** What the log file holds, byte for byte. */
  ghost predicate LogBytes(c: Codec, s: State) {
    && Written(s.doing) <= |Frames(c, Pending(s.doing))|
    && s.disk.log == Frames(c, s.logged) + Frames(c, Pending(s.doing))[..Written(s.doing)]
  }

  ghost predicate Wellformed(c: Codec, s: State) {
    && IsSuffix(s.logged, s.acked)
    && AllReplayable(c, s.acked) && AllModern(s.acked)
    && AllReplayable(c, Pending(s.doing)) && AllModern(Pending(s.doing))
    && DistinctKeys(s.disk.snapshot) && AllModern(AsPuts(s.disk.snapshot))
  }

  /** Snapshot and logged records together make up everything that counts, but for risen keys. */
  ghost predicate DiskComplete(s: State) {
    && Alike(ApplyAll(SnapshotMap(s.disk), s.logged), ApplyAll(map[], s.acked), s.clock, s.risen)
    && (s.doing.Checkpointing? ==> Alike(SnapshotMap(s.disk), ApplyAll(map[], s.acked), s.clock, s.risen))
  }

  /** No entry is an old-form queue. */
  ghost predicate ModernMap(m: Flat) {
    forall k | k in m :: !IsLegacy(Entry(k, m[k]))
  }

  ghost predicate StoreCurrent(s: State) {
    && (s.up ==> Alike(s.store, ApplyAll(map[], s.acked + Pending(s.doing)), s.clock, RisenInStore(s)))
    && ModernMap(s.store)
  }

  /** Each of these keys has a value in m, and it has lapsed. */
  ghost predicate Lapsed(m: Flat, now: int, ks: iset<Key>) {
    forall k | k in ks :: k in m && Expired(m[k], now)
  }

  ghost predicate Inv(c: Codec, s: State) {
    && Wellformed(c, s) && LogBytes(c, s) && DiskComplete(s) && StoreCurrent(s)
    && Lapsed(ApplyAll(map[], s.acked), s.clock, s.risen)
  }

  // ---- what the log file replays to -------------------------------------------------------

  /** Replay finds the acknowledged records and then a prefix of the operation in flight. */
  lemma LogReplays(c: Codec, s: State) returns (i: nat)
    requires c.Inverse() && Wellformed(c, s) && LogBytes(c, s)
    ensures i <= |Pending(s.doing)| && Survivors(c, s) == Pending(s.doing)[..i]
    ensures var rs := s.logged + Pending(s.doing)[..i];
            && Replay(c, s.disk.log) == (rs, |Frames(c, rs)|)
            && s.disk.log[..|Frames(c, rs)|] == Frames(c, rs)
    ensures |Frames(c, Pending(s.doing)[..i])| <= Written(s.doing)
    ensures Frames(c, Pending(s.doing))[..|Frames(c, Pending(s.doing)[..i])|] == Frames(c, Pending(s.doing)[..i])
  {
    hide Frames, Replay;
    var p := Pending(s.doing);
    var all := s.logged + p;
    var w := |Frames(c, s.logged)| + Written(s.doing);
    FramesConcat(c, s.logged, p);
    assert s.disk.log == Frames(c, all)[..w];
    LoggedReplayable(c, s);
    var j := ReplayPrefix(c, all, w);
    assert all[..|s.logged|] == s.logged;
    assert |s.logged| <= j;
    i := j - |s.logged|;
    assert all[..j] == s.logged + p[..i];
    assert (s.logged + p[..i])[|s.logged|..] == p[..i];
    FramesConcat(c, s.logged, p[..i]);
    assert p == p[..i] + p[i..];
    FramesConcat(c, p[..i], p[i..]);
  }

  lemma LoggedReplayable(c: Codec, s: State)
    requires Wellformed(c, s)
    ensures AllReplayable(c, s.logged + Pending(s.doing)) && AllModern(s.logged + Pending(s.doing))
  {
    var d := |s.acked| - |s.logged|;
    assert forall i | 0 <= i < |s.logged| :: s.logged[i] == s.acked[d + i];
  }

  // ---- per-step facts ---------------------------------------------------------------------

  /** A base and more records make up a history and the same more records. */
  lemma ExtendComplete(base: Flat, logged: seq<Record>, acked: seq<Record>, more: seq<Record>, now: int,
                       risen: iset<Key>)
    requires Alike(ApplyAll(base, logged), ApplyAll(map[], acked), now, risen)
    ensures Alike(ApplyAll(base, logged + more), ApplyAll(map[], acked + more), now, risen - Touched(more))
  {
    hide ApplyAll, Alike;
    ApplyAllConcat(base, logged, more);
    ApplyAllConcat(map[], acked, more);
    ApplyAllAlike(ApplyAll(base, logged), ApplyAll(map[], acked), more, now, risen);
  }

  /** More records leave lapsed what they are not about. */
  lemma ExtendLapsed(acked: seq<Record>, more: seq<Record>, now: int, later: int, risen: iset<Key>)
    requires Lapsed(ApplyAll(map[], acked), now, risen) && now <= later
    ensures Lapsed(ApplyAll(map[], acked + more), later, risen - Touched(more))
  {
    hide ApplyAll, Effect;
    forall k | k in risen - Touched(more)
      ensures k in ApplyAll(map[], acked + more) && Expired(ApplyAll(map[], acked + more)[k], later)
    {
      ApplyAllConcat(map[], acked, more);
      ApplyAllByKey(ApplyAll(map[], acked), more, k);
      assert k in ApplyAll(map[], acked);
    }
  }

  /** Replaying the tail of a history over a state that already reflects it changes nothing. */
  lemma ReplayIsIdempotent(base: Flat, logged: seq<Record>, acked: seq<Record>, now: int, risen: iset<Key>)
    requires IsSuffix(logged, acked) && Alike(base, ApplyAll(map[], acked), now, risen)
    ensures Alike(ApplyAll(base, logged), ApplyAll(map[], acked), now, risen)
  {
    var before := acked[..|acked| - |logged|];
    assert acked == before + logged;
    forall k | k !in risen
      ensures Visible(Lookup(ApplyAll(base, logged), k), now) == Visible(Lookup(ApplyAll(map[], acked), k), now)
    {
      assert Visible(Lookup(base, k), now) == Visible(Lookup(ApplyAll(map[], acked), k), now);
      ApplyAllByKey(base, logged, k);
      ApplyAllByKey(map[], acked, k);
      EffectConcat(before, logged, k);
    }
  }

  lemma {:induction false} ModernRun(m: Flat, rs: seq<Record>)
    requires ModernMap(m) && AllModern(rs)
    ensures ModernMap(ApplyAll(m, rs))
  {
    if rs != [] {
      ModernRun(m, rs[..|rs| - 1]);
      assert Modern(rs[|rs| - 1]);
    }
  }

  lemma {:induction false} ModernFresh(rs: seq<Record>, now: int)
    requires AllModern(rs)
    ensures AllModern(Fresh(rs, now))
  {
    if rs != [] {
      ModernFresh(rs[..|rs| - 1], now);
      assert Modern(rs[|rs| - 1]);
    }
  }

  /** What is recovered from records of the current form is of the current form. */
  lemma ModernRecovery(snapshot: seq<Entry>, rs: seq<Record>, now: int)
    requires AllModern(AsPuts(snapshot)) && AllModern(rs)
    ensures ModernMap(Recovered(snapshot, rs, now))
  {
    hide ApplyAll, Fresh, Replayed, AllModern;
    ReplayedIsFresh(AsPuts(snapshot), now);
    ReplayedIsFresh(rs, now);
    ModernFresh(AsPuts(snapshot), now);
    ModernFresh(rs, now);
    ModernRun(map[], Fresh(AsPuts(snapshot), now));
    ModernRun(ApplyAll(map[], Fresh(AsPuts(snapshot), now)), Fresh(rs, now));
  }

  lemma {:induction false} ModernPuts(es: seq<Entry>)
    requires forall i | 0 <= i < |es| :: !IsLegacy(es[i])
    ensures AllModern(AsPuts(es))
  {
    if es != [] {
      ModernPuts(es[..|es| - 1]);
    }
  }

  lemma PersistedIsModern(m: Flat, now: int, listing: seq<Entry>)
    requires ModernMap(m) && Enumerates(listing, Live(m, now))
    ensures AllModern(AsPuts(listing))
  {
    forall i | 0 <= i < |listing| ensures !IsLegacy(listing[i]) {
      assert listing[i].k in Live(m, now);
      assert listing[i] == Entry(listing[i].k, m[listing[i].k]);
    }
    ModernPuts(listing);
  }

  lemma ListingOfPuts(es: seq<Entry>)
    requires DistinctKeys(es)
    ensures Enumerates(es, ApplyAll(map[], AsPuts(es)))
  {
    var m := ApplyAll(map[], AsPuts(es));
    forall k ensures k in m ==> Entry(k, m[k]) in es {
      ApplyAllByKey(map[], AsPuts(es), k);
      EffectOfPuts(es, k);
    }
    forall i | 0 <= i < |es| ensures es[i].k in m && m[es[i].k] == es[i].v {
      ApplyAllByKey(map[], AsPuts(es), es[i].k);
      EffectOfPuts(es, es[i].k);
    }
  }

  /**
   * Recovery from a disk state of the protocol, key by key: it shows what everything that counts and
   * a prefix of the operation in flight make of the key, exactly when it does not bring it back.
   */
  lemma RecoveryExactIff(c: Codec, s: State, now: int) returns (i: nat)
    requires c.Inverse() && Wellformed(c, s) && LogBytes(c, s) && DiskComplete(s) && s.clock <= now
    ensures i <= |Pending(s.doing)| && Survivors(c, s) == Pending(s.doing)[..i]
    ensures var recovered := Recovered(s.disk.snapshot, Replay(c, s.disk.log).0, now);
            var counted := ApplyAll(map[], s.acked + Pending(s.doing)[..i]);
            forall k | k !in s.risen - Touched(Pending(s.doing)[..i]) ::
              Visible(Lookup(recovered, k), now + 1) == Visible(Lookup(counted, k), now + 1) <==>
              !Resurrects(SnapshotMap(s.disk), Replay(c, s.disk.log).0, now, k)
  {
    hide Frames, Replay, ApplyAll, Effect, Fresh, Replayed, Touched;
    i := LogReplays(c, s);
    var more := Pending(s.doing)[..i];
    var rs := s.logged + more;
    var base := SnapshotMap(s.disk);
    LoggedReplayable(c, s);
    assert AllModern(rs);
    ListingOfPuts(s.disk.snapshot);
    RestoreBuilds(s.disk.snapshot, base, now);
    ReplayedIsFresh(rs, now);
    ExtendComplete(base, s.logged, s.acked, more, s.clock, s.risen);
    AlikeLater(ApplyAll(base, rs), ApplyAll(map[], s.acked + more), s.clock, now + 1, s.risen - Touched(more));
    forall k | k !in s.risen - Touched(more)
      ensures (Visible(Lookup(Recovered(s.disk.snapshot, rs, now), k), now + 1) ==
               Visible(Lookup(ApplyAll(map[], s.acked + more), k), now + 1)) <==> !Resurrects(base, rs, now, k)
    {
      ReplayedKey(base, rs, now, k);
      assert Visible(Lookup(ApplyAll(base, rs), k), now + 1) ==
             Visible(Lookup(ApplyAll(map[], s.acked + more), k), now + 1);
    }
  }

  // ---- every step keeps the invariant -----------------------------------------------------

  lemma InitialInv(c: Codec, s: State)
    requires Initial(s)
    ensures Inv(c, s)
  {
    assert s.acked + [] == s.acked;
  }

  lemma StoreSteps(c: Codec, s: State, step: Step, s': State)
    requires Inv(c, s) && Next(c, s, step, s')
    requires step.Begin? || step.Sweep? || step.Tick?
    ensures Inv(c, s')
  {
    hide ApplyAll, Frames, Alike, Touched;
    NothingTouched();
    match step {
      case Begin(recs) =>
        assert s.acked + [] == s.acked && s.risen - iset{} == s.risen;
        ApplyAllAlike(s.store, ApplyAll(map[], s.acked), recs, s.clock, s.risen);
        ApplyAllConcat(map[], s.acked, recs);
        ModernRun(s.store, recs);
      case Sweep =>
        SweepAlike(s.store, ApplyAll(map[], s.acked + Pending(s.doing)), s.clock, RisenInStore(s));
      case Tick(now) =>
        var h := ApplyAll(map[], s.acked);
        AlikeLater(ApplyAll(SnapshotMap(s.disk), s.logged), h, s.clock, now, s.risen);
        if s.doing.Checkpointing? { AlikeLater(SnapshotMap(s.disk), h, s.clock, now, s.risen); }
        if s.up {
          AlikeLater(s.store, ApplyAll(map[], s.acked + Pending(s.doing)), s.clock, now, RisenInStore(s));
        }
      case _ =>
    }
  }

  lemma NothingTouched()
    ensures Touched([]) == iset{}
  {
  }

  lemma SweepAlike(m: Flat, h: Flat, now: int, exempt: iset<Key>)
    requires Alike(m, h, now, exempt) && ModernMap(m)
    ensures Alike(Live(m, now), h, now, exempt) && ModernMap(Live(m, now))
  {
    forall k | k !in exempt ensures Visible(Lookup(Live(m, now), k), now) == Visible(Lookup(h, k), now) {
      assert Visible(Lookup(m, k), now) == Visible(Lookup(h, k), now);
    }
  }

  lemma WriteLogStep(c: Codec, s: State, n: nat, s': State)
    requires Inv(c, s) && Next(c, s, WriteLog(n), s')
    ensures Inv(c, s')
  {
    hide Frames, ApplyAll, AllReplayable, AllModern, Alike, Touched;
    TakeMore(Frames(c, s.doing.recs), s.doing.written, n);
  }

  lemma TakeMore(f: bytes, w: nat, n: nat)
    requires w + n <= |f|
    ensures f[..w + n] == f[..w] + f[w..w + n]
  {
  }

  lemma AcknowledgeStep(c: Codec, s: State, s': State)
    requires Inv(c, s) && Next(c, s, Acknowledge, s')
    ensures Inv(c, s')
  {
    hide Frames, ApplyAll, AllReplayable, AllModern, SnapshotMap, Alike, Touched;
    NothingTouched();
    var recs := s.doing.recs;
    assert s'.risen - iset{} == s'.risen;
    StorableConcat(c, s.acked, recs);
    FramesConcat(c, s.logged, recs);
    assert Frames(c, recs)[..|Frames(c, recs)|] == Frames(c, recs);
    assert Frames(c, s'.logged) + Frames(c, Pending(s'.doing))[..0] == Frames(c, s'.logged);
    ExtendComplete(SnapshotMap(s.disk), s.logged, s.acked, recs, s.clock, s.risen);
    ExtendLapsed(s.acked, recs, s.clock, s.clock, s.risen);
    assert s'.acked + [] == s'.acked;
  }

  lemma StorableConcat(c: Codec, a: seq<Record>, b: seq<Record>)
    requires AllReplayable(c, a) && AllReplayable(c, b) && AllModern(a) && AllModern(b)
    ensures AllReplayable(c, a + b) && AllModern(a + b) && AllReplayable(c, []) && AllModern([])
  {
    hide Replayable, Modern;
  }

  lemma CrashSteps(c: Codec, s: State, step: Step, s': State)
    requires c.Inverse() && Inv(c, s) && Next(c, s, step, s') && (step.Crash? || step.ChopTail?)
    ensures Inv(c, s')
  {
    hide Frames, Replay, ApplyAll, Alike, Touched;
    match step {
      case Crash(kept) =>
        assert s'.disk.log == Frames(c, s.logged) + Frames(c, Pending(s.doing))[..Written(s'.doing)];
      case ChopTail =>
        var i := LogReplays(c, s);
        FramesConcat(c, s.logged, Pending(s.doing)[..i]);
      case _ =>
    }
  }

  lemma CheckpointSteps(c: Codec, s: State, step: Step, s': State)
    requires Inv(c, s) && Next(c, s, step, s') && (step.Persist? || step.Truncate?)
    ensures Inv(c, s')
  {
    hide Frames, ApplyAll, Alike, Touched;
    NothingTouched();
    assert s.acked + [] == s.acked && s.risen - iset{} == s.risen;
    match step {
      case Persist(listing) =>
        PutsBuild(listing, Live(s.store, s.clock));
        PersistedIsModern(s.store, s.clock, listing);
        SweepAlike(s.store, ApplyAll(map[], s.acked), s.clock, s.risen);
        ReplayIsIdempotent(SnapshotMap(s'.disk), s.logged, s.acked, s.clock, s.risen);
      case Truncate =>
        EmptyLog(c, SnapshotMap(s.disk));
      case _ =>
    }
  }

  lemma EmptyLog(c: Codec, base: Flat)
    ensures Frames(c, []) == [] && ApplyAll(base, []) == base
  {
  }

  lemma FewerAlike(a: Flat, b: Flat, now: int, exempt: iset<Key>, more: iset<Key>)
    requires Alike(a, b, now, exempt) && exempt <= more
    ensures Alike(a, b, now, more)
  {
  }

  /** What recovery shows, but for the keys it brings back and those brought back before. */
  lemma RecoveredAlike(c: Codec, s: State, now: int)
    requires c.Inverse() && Inv(c, s) && s.clock <= now
    ensures Alike(Recovered(s.disk.snapshot, Replay(c, s.disk.log).0, now),
                  ApplyAll(map[], s.acked + Survivors(c, s)), now + 1, RisenAfter(c, s, now))
  {
    hide Frames, Replay, ApplyAll, Recovered, Touched, Resurrects, Survivors;
    var i := RecoveryExactIff(c, s, now);
  }

  /** A key is brought back only when what counts for it has lapsed. */
  lemma RisenAfterLapsed(c: Codec, s: State, now: int)
    requires c.Inverse() && Inv(c, s) && s.clock <= now
    ensures Lapsed(ApplyAll(map[], s.acked + Survivors(c, s)), now + 1, RisenAfter(c, s, now))
  {
    hide Frames, Replay, ApplyAll, Touched, Alike, Survivors, Effect, Fresh;
    var i := LogReplays(c, s);
    var more := Survivors(c, s);
    var rs, all := s.logged + more, s.acked + more;
    ExtendLapsed(s.acked, more, s.clock, now + 1, s.risen);
    forall k | k in Rising(c, s.disk, now)
      ensures k in ApplyAll(map[], all) && Expired(ApplyAll(map[], all)[k], now + 1)
    {
      assert all == s.acked[..|s.acked| - |s.logged|] + rs;
      EffectConcat(s.acked[..|s.acked| - |s.logged|], rs, k);
      ApplyAllByKey(map[], all, k);
    }
  }

  lemma RecoverStep(c: Codec, s: State, step: Step, s': State)
    requires c.Inverse() && Inv(c, s) && Next(c, s, step, s') && step.Recover?
    ensures Inv(c, s')
  {
    hide Frames, Replay, ApplyAll, Recovered, Alike, Touched, Resurrects;
    var i := LogReplays(c, s);
    var more := Survivors(c, s);
    var now := step.now;
    RecoveredAlike(c, s, now);
    ExtendComplete(SnapshotMap(s.disk), s.logged, s.acked, more, s.clock, s.risen);
    var disk, counted := ApplyAll(SnapshotMap(s.disk), s'.logged), ApplyAll(map[], s'.acked);
    AlikeLater(disk, counted, s.clock, now + 1, s.risen - Touched(more));
    FewerAlike(disk, counted, now + 1, s.risen - Touched(more), s'.risen);
    RisenAfterLapsed(c, s, now);
    EmptyLog(c, map[]);
    NothingTouched();
    LoggedReplayable(c, s);
    assert AllModern(s.logged + more);
    ModernRecovery(s.disk.snapshot, s.logged + more, now);
    assert s'.acked + [] == s'.acked && s'.risen - iset{} == s'.risen;
    assert s'.acked[|s'.acked| - |s'.logged|..] == s'.logged;
  }

  lemma StepKeepsInv(c: Codec, s: State, step: Step, s': State)
    requires c.Inverse() && Inv(c, s) && Next(c, s, step, s')
    ensures Inv(c, s')
  {
    hide Inv, Next;
    match step {
      case Begin(_) => StoreSteps(c, s, step, s');
      case Sweep => StoreSteps(c, s, step, s');
      case Tick(_) => StoreSteps(c, s, step, s');
      case Persist(_) => CheckpointSteps(c, s, step, s');
      case Truncate => CheckpointSteps(c, s, step, s');
      case Recover(_) => RecoverStep(c, s, step, s');
      case WriteLog(n) => WriteLogStep(c, s, n, s');
      case Acknowledge => AcknowledgeStep(c, s, s');
      case _ => CrashSteps(c, s, step, s');
    }
  }

  // ---- every run --------------------------------------------------------------------------

  ghost predicate IsRun(c: Codec, run: seq<State>, steps: seq<Step>) {
    && |run| == |steps| + 1 && Initial(run[0])
    && forall i | 0 <= i < |steps| :: Next(c, run[i], steps[i], run[i + 1])
  }

  lemma {:induction false} RunKeepsInv(c: Codec, run: seq<State>, steps: seq<Step>)
    requires c.Inverse() && IsRun(c, run, steps)
    ensures Inv(c, run[|steps|])
    decreases |steps|
  {
    hide Inv, Next, Initial;
    if steps == [] {
      InitialInv(c, run[0]);
    } else {
      var n := |steps| - 1;
      RunKeepsInv(c, run[..n + 1], steps[..n]);
      StepKeepsInv(c, run[n], steps[n], run[n + 1]);
    }
  }

  ghost predicate BringsBack(c: Codec, s: State, step: Step, k: Key) {
    step.Recover? && Resurrects(SnapshotMap(s.disk), Replay(c, s.disk.log).0, step.now, k)
  }

  /** A key is risen only because some recovery of the run brought it back. */
  lemma {:induction false} RisenWereBroughtBack(c: Codec, run: seq<State>, steps: seq<Step>, k: Key)
    requires IsRun(c, run, steps) && k in run[|steps|].risen
    ensures exists i :: 0 <= i < |steps| && BringsBack(c, run[i], steps[i], k)
    decreases |steps|
  {
    hide Resurrects, Replay, Touched;
    var n := |steps| - 1;
    if steps != [] && k in run[n].risen {
      RisenWereBroughtBack(c, run[..n + 1], steps[..n], k);
      var i :| 0 <= i < n && BringsBack(c, run[..n + 1][i], steps[..n][i], k);
      assert BringsBack(c, run[i], steps[i], k);
    } else {
      assert steps != [] && Next(c, run[n], steps[n], run[n + 1]);
      assert BringsBack(c, run[n], steps[n], k);
    }
  }

  /**
   * Crash recovery, over any run of operations, checkpoints, sweeps, crashes and recoveries, whatever
   * those recoveries brought back. A node that is up shows what everything that counts and the
   * operation in flight make of each key. A node that is down, recovered at a later instant, shows
   * from then on what everything that counts and some prefix of the operation in flight make of each
   * key. The exceptions are the keys brought back by this recovery, each of which does show something
   * else, and those brought back before and not written since. What counts for each of them has lapsed.
   */
  lemma CrashRecovery(c: Codec, run: seq<State>, steps: seq<Step>, now: int, later: int) returns (i: nat)
    requires c.Inverse() && IsRun(c, run, steps) && run[|steps|].clock <= now < later
    ensures var s := run[|steps|];
            var shown := ApplyAll(map[], s.acked + Pending(s.doing));
            && (s.up ==> Alike(s.store, shown, now, RisenInStore(s)))
            && Lapsed(shown, now, RisenInStore(s))
    ensures var s := run[|steps|];
            i <= |Pending(s.doing)| && Survivors(c, s) == Pending(s.doing)[..i]
    ensures var s := run[|steps|];
            var recovered := Recovered(s.disk.snapshot, Replay(c, s.disk.log).0, now);
            var counted := ApplyAll(map[], s.acked + Pending(s.doing)[..i]);
            && Alike(recovered, counted, later, RisenAfter(c, s, now))
            && Lapsed(counted, later, RisenAfter(c, s, now))
            && forall k | k in Rising(c, s.disk, now) && k !in s.risen - Touched(Pending(s.doing)[..i]) ::
                 Visible(Lookup(recovered, k), now + 1) != Visible(Lookup(counted, k), now + 1)
  {
    hide Frames, Replay, ApplyAll, Recovered, Next, Alike, Lapsed, Touched, Resurrects;
    var s := run[|steps|];
    RunKeepsInv(c, run, steps);
    if s.up {
      AlikeLater(s.store, ApplyAll(map[], s.acked + Pending(s.doing)), s.clock, now, RisenInStore(s));
    }
    ExtendLapsed(s.acked, Pending(s.doing), s.clock, now, s.risen);
    i := RecoveryExactIff(c, s, now);
    RecoveredAlike(c, s, now);
    RisenAfterLapsed(c, s, now);
    var counted := ApplyAll(map[], s.acked + Pending(s.doing)[..i]);
    AlikeLater(Recovered(s.disk.snapshot, Replay(c, s.disk.log).0, now), counted, now + 1, later,
               RisenAfter(c, s, now));
    LapsedLater(counted, now + 1, later, RisenAfter(c, s, now));
  }

  lemma LapsedLater(m: Flat, now: int, later: int, ks: iset<Key>)
    requires Lapsed(m, now, ks) && now <= later
    ensures Lapsed(m, later, ks)
  {
  }

  /** No recovery of the run brought any key back. */
  ghost predicate CleanSoFar(c: Codec, run: seq<State>, steps: seq<Step>)
    requires |run| == |steps| + 1
  {
    forall i | 0 <= i < |steps| && steps[i].Recover? :: CleanRecovery(c, run[i].disk, steps[i].now)
  }

  /** The live contents as a whole, in a run whose recoveries brought nothing back. */
  lemma CleanCrashRecovery(c: Codec, run: seq<State>, steps: seq<Step>, now: int, later: int) returns (i: nat)
    requires c.Inverse() && IsRun(c, run, steps) && run[|steps|].clock <= now < later && CleanSoFar(c, run, steps)
    ensures var s := run[|steps|];
            s.up ==> Live(s.store, now) == Live(ApplyAll(map[], s.acked + Pending(s.doing)), now)
    ensures i <= |Pending(run[|steps|].doing)|
    ensures var s := run[|steps|];
            var recovered := Recovered(s.disk.snapshot, Replay(c, s.disk.log).0, now);
            var counted := ApplyAll(map[], s.acked + Pending(s.doing)[..i]);
            && (Live(recovered, now + 1) == Live(counted, now + 1) <==> CleanRecovery(c, s.disk, now))
            && (CleanRecovery(c, s.disk, now) ==> Live(recovered, later) == Live(counted, later))
  {
    hide Frames, Replay, ApplyAll, Recovered, Next, Touched, Resurrects;
    var s := run[|steps|];
    NothingRisen(c, run, steps);
    i := CrashRecovery(c, run, steps, now, later);
    var j := CrashRecovery(c, run, steps, now, now + 1);
    var recovered := Recovered(s.disk.snapshot, Replay(c, s.disk.log).0, now);
    var counted := ApplyAll(map[], s.acked + Pending(s.doing)[..i]);
    AlikeIsLive(s.store, ApplyAll(map[], s.acked + Pending(s.doing)), now);
    AlikeIsLive(recovered, counted, now + 1);
    AlikeIsLive(recovered, counted, later);
    assert RisenInStore(s) == iset{} && RisenAfter(c, s, now) == Rising(c, s.disk, now);
    if CleanRecovery(c, s.disk, now) {
      assert Rising(c, s.disk, now) == iset{};
    } else {
      var k :| Resurrects(SnapshotMap(s.disk), Replay(c, s.disk.log).0, now, k);
      assert k in Rising(c, s.disk, now) && k !in iset{};
    }
  }

  lemma NothingRisen(c: Codec, run: seq<State>, steps: seq<Step>)
    requires IsRun(c, run, steps) && CleanSoFar(c, run, steps)
    ensures run[|steps|].risen == iset{}
  {
    hide Resurrects, Replay, Next;
    forall k ensures k !in run[|steps|].risen {
      if k in run[|steps|].risen {
        RisenWereBroughtBack(c, run, steps, k);
        assert false;
      }
    }
  }
}
