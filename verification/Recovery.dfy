/** Restoring a snapshot and replaying a log on top of it, at a given instant. */
module Recovery {
  import opened Bytes
  import opened Entries
  import opened Packing
  import opened QueueStore
  import opened QueueLegacy

  /** What restore and replay skip: already lapsed at that instant, or lapsing at it. */
  predicate Stale(v: Value, now: int) {
    v.expireAt != 0 && v.expireAt <= now
  }

  /** The records that loading one entry amounts to; an old-form queue value is converted. */
  function LoadRecords(e: Entry): seq<Record> {
    if IsLegacy(e) then RecordsOf(e.k.key, LegacyWrites(Unpack(e.v.data))) else [Put(e.k, e.v)]
  }

  /** The records that replaying one log record amounts to. */
  function ReplayRecords(r: Record, now: int): seq<Record> {
    if r.Put? then if Stale(r.v, now) then [] else LoadRecords(Entry(r.k, r.v)) else [r]
  }

  function Replayed(rs: seq<Record>, now: int): seq<Record> {
    if rs == [] then [] else Replayed(rs[..|rs| - 1], now) + ReplayRecords(rs[|rs| - 1], now)
  }

  /** Restoring a snapshot is replaying it as puts into an empty store. */
  function Recovered(snapshot: seq<Entry>, log: seq<Record>, now: int): Flat {
    ApplyAll(ApplyAll(map[], Replayed(AsPuts(snapshot), now)), Replayed(log, now))
  }

  /** A record of the current format: no metadata value is an old-form queue. */
  predicate Modern(r: Record) {
    r.Put? ==> !IsLegacy(Entry(r.k, r.v))
  }

  predicate AllModern(rs: seq<Record>) {
    forall i | 0 <= i < |rs| :: Modern(rs[i])
  }

  predicate StalePut(r: Record, now: int) {
    r.Put? && Stale(r.v, now)
  }

  function Fresh(rs: seq<Record>, now: int): seq<Record> {
    if rs == [] then []
    else
      var r := rs[|rs| - 1];
      Fresh(rs[..|rs| - 1], now) + if StalePut(r, now) then [] else [r]
  }

  lemma {:induction false} ReplayedIsFresh(rs: seq<Record>, now: int)
    requires AllModern(rs)
    ensures Replayed(rs, now) == Fresh(rs, now)
  {
    if rs != [] {
      ReplayedIsFresh(rs[..|rs| - 1], now);
      assert Modern(rs[|rs| - 1]);
    }
  }

  // ---- what skipping lapsed puts does to one key ------------------------------------------

  predicate StaleEffect(e: Option<Option<Value>>, now: int) {
    e.Some? && e.value.Some? && Stale(e.value.value, now)
  }

  lemma {:induction false} EffectOfFresh(rs: seq<Record>, now: int, k: Key)
    ensures !StaleEffect(Effect(rs, k), now) ==> Effect(Fresh(rs, now), k) == Effect(rs, k)
    ensures !StaleEffect(Effect(Fresh(rs, now), k), now)
  {
    if rs != [] {
      var n := |rs| - 1;
      EffectOfFresh(rs[..n], now, k);
      var last := if StalePut(rs[n], now) then [] else [rs[n]];
      EffectConcat(Fresh(rs[..n], now), last, k);
      assert last != [] ==> last[..0] == [];
    }
  }

  /**
   * Key k comes back from the dead: the last record about it is a put that has lapsed, and the
   * newest older word on it, in the log or failing that in the snapshot, is a value still good.
   */
  predicate Resurrects(base: Flat, log: seq<Record>, now: int, k: Key) {
    && StaleEffect(Effect(log, k), now)
    && var older := Effect(Fresh(log, now), k);
       if older.Some? then older.value.Some? else k in base && !Stale(base[k], now)
  }

  function DropStale(m: Flat, now: int): Flat {
    map k | k in m && !Stale(m[k], now) :: m[k]
  }

  lemma ReplayedKey(base: Flat, log: seq<Record>, now: int, k: Key)
    ensures (Visible(Lookup(ApplyAll(DropStale(base, now), Fresh(log, now)), k), now + 1) ==
             Visible(Lookup(ApplyAll(base, log), k), now + 1)) <==> !Resurrects(base, log, now, k)
  {
    ApplyAllByKey(DropStale(base, now), Fresh(log, now), k);
    ApplyAllByKey(base, log, k);
    EffectOfFresh(log, now, k);
  }

  /**
   * Skipping lapsed records recovers the live contents that applying every record gives exactly
   * when no key is resurrected.
   */
  lemma ReplayIsExactIff(base: Flat, log: seq<Record>, now: int)
    ensures (Live(ApplyAll(DropStale(base, now), Fresh(log, now)), now + 1) ==
             Live(ApplyAll(base, log), now + 1)) <==>
            forall k :: !Resurrects(base, log, now, k)
  {
    var a, b := ApplyAll(DropStale(base, now), Fresh(log, now)), ApplyAll(base, log);
    LiveByKey(a, b, now + 1);
    forall k
      ensures Visible(Lookup(a, k), now + 1) == Visible(Lookup(b, k), now + 1) <==>
              !Resurrects(base, log, now, k)
    {
      ReplayedKey(base, log, now, k);
    }
  }

  /** In particular when no logged put has lapsed. */
  lemma {:induction false} NoStalePutNoResurrection(base: Flat, log: seq<Record>, now: int, k: Key)
    requires forall i | 0 <= i < |log| :: !StalePut(log[i], now)
    ensures !Resurrects(base, log, now, k)
  {
    if log != [] {
      assert !StalePut(log[|log| - 1], now);
      NoStalePutNoResurrection(base, log[..|log| - 1], now, k);
    }
  }

  /** An overwrite with a short lifetime that lapses while the node is down brings the old value back. */
  lemma LapsedOverwriteResurrects(k: Key, older: bytes, newer: bytes, now: int)
    requires now > 0 && k.name != QUEUE_MAP
    ensures var log := [Put(k, Value(older, 0)), Put(k, Value(newer, now))];
            && k !in Live(ApplyAll(map[], log), now + 1)
            && Lookup(Live(Recovered([], log, now), now + 1), k) == Some(Value(older, 0))
  {
    var a, b := Put(k, Value(older, 0)), Put(k, Value(newer, now));
    var log := [a, b];
    assert log[..1] == [a] && [a][..0] == [];
    assert Replayed(log, now) == [a] by {
      assert Replayed([a], now) == [] + [a];
    }
    assert ApplyAll(map[], [a]) == map[k := Value(older, 0)];
    assert ApplyAll(map[], log) == Apply(ApplyAll(map[], [a]), b);
  }

  // ---- snapshots --------------------------------------------------------------------------

  lemma {:induction false} EffectOfPuts(es: seq<Entry>, k: Key)
    requires forall i, j | 0 <= i < j < |es| :: es[i].k != es[j].k
    ensures forall i | 0 <= i < |es| && es[i].k == k :: Effect(AsPuts(es), k) == Some(Some(es[i].v))
    ensures (forall i | 0 <= i < |es| :: es[i].k != k) ==> Effect(AsPuts(es), k) == None
  {
    if es != [] {
      var n := |es| - 1;
      EffectOfPuts(es[..n], k);
      var ps := AsPuts(es);
      assert ps[..|ps| - 1] == AsPuts(es[..n]);
      assert forall i | 0 <= i < n :: es[..n][i] == es[i];
    }
  }

  /** Loading a full listing of a map into an empty store gives that map. */
  lemma PutsBuild(es: seq<Entry>, m: Flat)
    requires Enumerates(es, m)
    ensures ApplyAll(map[], AsPuts(es)) == m
  {
    forall k ensures Lookup(ApplyAll(map[], AsPuts(es)), k) == Lookup(m, k) {
      ApplyAllByKey(map[], AsPuts(es), k);
      EffectOfPuts(es, k);
      if k in m {
        var i :| 0 <= i < |es| && es[i] == Entry(k, m[k]);
      }
    }
    SameLookups(ApplyAll(map[], AsPuts(es)), m);
  }

  /** Restoring it at an instant gives that map without the entries lapsed by then. */
  lemma RestoreBuilds(es: seq<Entry>, m: Flat, now: int)
    requires Enumerates(es, m) && AllModern(AsPuts(es))
    ensures ApplyAll(map[], Replayed(AsPuts(es), now)) == DropStale(m, now)
  {
    ReplayedIsFresh(AsPuts(es), now);
    var a := ApplyAll(map[], Fresh(AsPuts(es), now));
    forall k ensures Lookup(a, k) == Lookup(DropStale(m, now), k) {
      ApplyAllByKey(map[], Fresh(AsPuts(es), now), k);
      EffectOfFresh(AsPuts(es), now, k);
      EffectOfPuts(es, k);
      if k in m {
        var i :| 0 <= i < |es| && es[i] == Entry(k, m[k]);
        if Stale(m[k], now) {
          StaleOnlyGone(es, now, k, i);
        }
      }
    }
    SameLookups(a, DropStale(m, now));
  }

  lemma {:induction false} StaleOnlyGone(es: seq<Entry>, now: int, k: Key, i: nat)
    requires forall i, j | 0 <= i < j < |es| :: es[i].k != es[j].k
    requires i < |es| && es[i].k == k && Stale(es[i].v, now)
    ensures Effect(Fresh(AsPuts(es), now), k) == None
  {
    var n := |es| - 1;
    var ps := AsPuts(es);
    assert ps[..|ps| - 1] == AsPuts(es[..n]);
    var last := if StalePut(ps[|ps| - 1], now) then [] else [ps[|ps| - 1]];
    EffectConcat(Fresh(AsPuts(es[..n]), now), last, k);
    EffectOfPuts(es[..n], k);
    EffectOfFresh(AsPuts(es[..n]), now, k);
    if i < n {
      assert es[..n][i] == es[i];
      StaleOnlyGone(es[..n], now, k, i);
      assert last != [] ==> last[..0] == [];
    }
  }
}
