/** Where any series of anti-entropy calls ends up, for data that stays as it is meanwhile. */
module Convergence {
  import opened Entries
  import opened Digest
  import opened Sorting
  import opened PartitionTable
  import opened Migration
  import opened AntiEntropy

  /** The stretch of time the calls take. */
  datatype Window = Window(t0: int, t1: int)

  /** The call starts and ends inside the window, and its clock does not fall behind its start. */
  ghost predicate Inside(w: Window, env: Env) {
    forall i: nat :: w.t0 <= env.now(0) <= env.now(i) <= w.t1
  }

  /** Nothing in m expires during the window. */
  ghost predicate Steady(w: Window, m: Flat) {
    forall k | k in m :: Expired(m[k], w.t0) || !Expired(m[k], w.t1)
  }

  /** What is live in m outlasts the window by at least a millisecond. */
  ghost predicate Outlasts(w: Window, m: Flat) {
    forall k | k in m :: Expired(m[k], w.t0) || !LapsesInFlight(m[k], w.t1)
  }

  lemma SteadyData(w: Window, m: Flat, t: int)
    requires Steady(w, m) && w.t0 <= t <= w.t1
    ensures Data(m, t) == Data(m, w.t1)
  {
  }

  lemma OutlastsIsSteady(w: Window, m: Flat)
    requires Outlasts(w, m)
    ensures Steady(w, m)
  {
    forall k | k in m ensures Expired(m[k], w.t0) || !Expired(m[k], w.t1) { LapsesInFlightIff(m[k], w.t1); }
  }

  /** A copy of a value that outlasts the window outlasts it too. */
  lemma CopyOutlasts(w: Window, env: Env, v: Value, v': Value)
    requires Inside(w, env) && IsCopy(env, v, v') && !LapsesInFlight(v, w.t1)
    ensures v'.data == v.data && !Expired(v', w.t1) && !LapsesInFlight(v, env.now(0))
  {
    var i: nat :| v' == Arrived(v, env.now(0), env.now(i));
    LapsesInFlightIff(v, w.t1);
    LapsesInFlightIff(v, env.now(0));
    if v.expireAt != 0 {
      var d := v.expireAt - env.now(0);
      assert d >= MILLI;
      assert d - MILLI < (d / MILLI) * MILLI;
    }
  }

  /** The authoritative keys of an owner whose live entries outlast the window are its live keys. */
  lemma KeptAreLive(w: Window, env: Env, f: PartitionFn, src: Flat, p: nat, keep: set<Key>, k: Key)
    requires Inside(w, env) && Outlasts(w, ShardOf(f, src, p))
    requires Authoritative(f, env, src, p, keep) && Routed(f, k) == p
    ensures k in keep <==> k in Content(f, src, p, w.t1)
    ensures k in keep ==> k in src && !LapsesInFlight(src[k], w.t1)
  {
    if k in src {
      var v := ShardOf(f, src, p)[k];
      LapsesInFlightIff(v, w.t1);
      LapsesInFlightIff(v, env.now(0));
      if k in keep {
        var i: nat :| !Expired(v, env.now(i));
      } else if SeenExpired(env, v) {
        var i: nat :| Expired(v, env.now(i));
      }
    }
  }

  lemma RebuiltConverges(w: Window, env: Env, f: PartitionFn, src: Flat, p: nat, m: Flat)
    requires Inside(w, env) && Outlasts(w, ShardOf(f, src, p)) && SomeRebuilt(f, env, src, p, m)
    ensures Content(f, m, p, w.t1) == Content(f, src, p, w.t1) && Steady(w, ShardOf(f, m, p))
  {
    hide IsCopy, LapsesInFlight, Outlasts, Inside, Authoritative;
    var keep :| Rebuilt(f, env, src, p, keep, m);
    forall k | Routed(f, k) == p
      ensures k in keep <==> k in Content(f, src, p, w.t1)
      ensures k in keep ==> k in src && k in m && m[k].data == src[k].data && !Expired(m[k], w.t1)
    {
      KeptAreLive(w, env, f, src, p, keep, k);
      if k in keep {
        assert CopyAt(env, src, k, m);
        CopyOutlasts(w, env, src[k], m[k]);
      }
    }
  }

  lemma ShardsApart(f: PartitionFn, p: nat, q: nat, m: Flat, m': Flat)
    requires p != q && SameElsewhere(f, q, m, m')
    ensures ShardOf(f, m', p) == ShardOf(f, m, p)
  {
    assert forall k | Routed(f, k) == p :: Lookup(m', k) == Lookup(m, k);
    assert forall k | Routed(f, k) == p :: k in m' <==> Lookup(m', k).Some?;
    assert forall k | Routed(f, k) == p :: k in m <==> Lookup(m, k).Some?;
    assert forall k | Routed(f, k) == p && k in m :: m'[k] == Lookup(m', k).value == m[k];
  }

  // ---- one backup of one partition --------------------------------------------------------

  /** The partition under watch, its owner and one of its backups. */
  datatype Watch = Watch(c: Config, w: Window, p: nat, o: Id, b: Id) {
    ghost predicate Proper() {
      && c.Sound() && p < PARTITIONS && o == c.layout.OwnerOf(p)
      && b in c.Holders(p) && b != o
    }

    function Shard(nodes: Nodes, n: Id): Flat {
      if n in nodes then ShardOf(c.f, nodes[n], p) else map[]
    }

    /** The backup shows the same keys with the same bytes as the owner: none missing, stale or extra. */
    ghost predicate Converged(nodes: Nodes) {
      Data(Shard(nodes, b), w.t1) == Data(Shard(nodes, o), w.t1)
    }

    /** Different contents with the same digest. */
    ghost predicate Collides(nodes: Nodes) {
      && DigestOf(Data(Shard(nodes, b), w.t1)) == DigestOf(Data(Shard(nodes, o), w.t1))
      && Data(Shard(nodes, b), w.t1) != Data(Shard(nodes, o), w.t1)
    }

    ghost predicate Quiet(nodes: Nodes) {
      && o in nodes && b in nodes
      && Outlasts(w, Shard(nodes, o)) && Steady(w, Shard(nodes, b))
    }

    /** Between calls: the owner as it began, the backup as it began or converged. */
    ghost predicate Standing(nodes0: Nodes, nodes: Nodes) {
      && Quiet(nodes) && Shard(nodes, o) == Shard(nodes0, o)
      && (Shard(nodes, b) == Shard(nodes0, b) || (Converged(nodes) && !Collides(nodes0)))
    }
  }

  lemma BackupIsOther(x: Watch)
    requires x.Proper()
    ensures x.b in Others(x.c, x.o, x.p) && x.o !in Others(x.c, x.o, x.p)
  {
    hide Sort, BackupTargets, SelfBacksUp;
    var l := x.c.layout;
    var h := l.Holders(x.p);
    BackupTargetsAre(l, x.o, x.p, l.NumBackups(x.p));
    assert h == [h[0]] + h[1..] && h[1..][..|h| - 1] == h[1..];
    assert x.b in h[1..];
  }

  /** During the window the digests agree at one moment exactly when they agree at all. */
  lemma MatchIsStable(x: Watch, env: Env, a: Flat, b: Flat)
    requires Inside(x.w, env) && Steady(x.w, ShardOf(x.c.f, a, x.p)) && Steady(x.w, ShardOf(x.c.f, b, x.p))
    ensures SomeMatch(x.c, env, a, b, x.p) <==>
              DigestOf(Data(ShardOf(x.c.f, a, x.p), x.w.t1)) == DigestOf(Data(ShardOf(x.c.f, b, x.p), x.w.t1))
    ensures SomeMatch(x.c, env, a, b, x.p) ==> AlwaysMatch(x.c, env, a, b, x.p)
  {
    hide DigestOf, Data, ShardOf, Steady;
    var sa, sb := ShardOf(x.c.f, a, x.p), ShardOf(x.c.f, b, x.p);
    forall i: nat ensures Data(sa, env.now(i)) == Data(sa, x.w.t1) && Data(sb, env.now(i)) == Data(sb, x.w.t1) {
      SteadyData(x.w, sa, env.now(i));
      SteadyData(x.w, sb, env.now(i));
    }
    assert Matches(x.c, env, a, b, x.p, 0, 0) <==> DigestOf(Data(sa, x.w.t1)) == DigestOf(Data(sb, x.w.t1));
  }

  /** The owner's own visit. */
  lemma OwnVisit(x: Watch, env: Env, nodes0: Nodes, a: Nodes, b: Nodes)
    requires x.Proper() && Inside(x.w, env) && Reachable(env, x.b)
    requires x.Standing(nodes0, a) && Visited(x.c, env, x.o, x.p, a, b)
    ensures x.Standing(nodes0, b) && (x.Converged(b) || x.Collides(nodes0))
  {
    hide Sort, BackupTargets, SomeMatch, AlwaysMatch, SomeRebuilt, Reachable, SameElsewhere;
    hide DigestOf, Outlasts, Steady, ShardOf, Data;
    BackupIsOther(x);
    var src, m, m' := a[x.o], a[x.b], b[x.b];
    assert b[x.o] == src;
    assert Healed(x.c, env, src, x.p, m, m');
    OutlastsIsSteady(x.w, x.Shard(a, x.o));
    MatchIsStable(x, env, src, m);
    if m' != m {
      RebuiltConverges(x.w, env, x.c.f, src, x.p, m');
      assert Content(x.c.f, m', x.p, x.w.t1) == Data(x.Shard(b, x.b), x.w.t1);
    } else if SomeRebuilt(x.c.f, env, src, x.p, m') {
      RebuiltConverges(x.w, env, x.c.f, src, x.p, m');
    }
  }

  /** Any visit by any node. */
  lemma AnyVisit(x: Watch, env: Env, self: Id, q: nat, nodes0: Nodes, a: Nodes, b: Nodes)
    requires x.Proper() && Inside(x.w, env) && Reachable(env, x.b)
    requires x.Standing(nodes0, a) && Visited(x.c, env, self, q, a, b)
    ensures x.Standing(nodes0, b)
    ensures x.Converged(a) || (self == x.o && q == x.p) ==> x.Converged(b) || x.Collides(nodes0)
  {
    hide Sort, Others, Healed, Reachable, SameElsewhere, DigestOf, Outlasts, Steady, ShardOf, Data;
    if q != x.p {
      ShardsApart(x.c.f, x.p, q, a[x.o], b[x.o]);
      ShardsApart(x.c.f, x.p, q, a[x.b], b[x.b]);
    } else if self == x.o {
      OwnVisit(x, env, nodes0, a, b);
    }
  }

  // ---- calls ------------------------------------------------------------------------------

  /** How far a cursor is from p. */
  function Ahead(p: int, cursor: int): int { (p - cursor) % COUNT }

  lemma AheadReaches(p: nat, cursor: int, n: nat)
    requires p < COUNT
    ensures n < COUNT && Ahead(p, cursor) == n ==> (cursor + n) % COUNT == p
    ensures n <= Ahead(p, cursor) ==> Ahead(p, (cursor + n) % COUNT) == Ahead(p, cursor) - n
  {
    var d := (p - cursor) / COUNT;
    assert p - cursor == COUNT * d + Ahead(p, cursor);
    if n <= Ahead(p, cursor) {
      var e := (cursor + n) / COUNT;
      assert cursor + n == COUNT * e + (cursor + n) % COUNT;
      Unique(p - (cursor + n) % COUNT, d + e, Ahead(p, cursor) - n);
    }
    if n < COUNT && Ahead(p, cursor) == n {
      Unique(cursor + n, -d, p);
    }
  }

  lemma Unique(a: int, q: int, r: int)
    requires a == COUNT * q + r && 0 <= r < COUNT
    ensures a % COUNT == r
  {
  }

  lemma {:induction false} PassKeeps(x: Watch, env: Env, self: Id, cursor: int, n: nat,
                                     nodes0: Nodes, a: Nodes, b: Nodes, pushed: nat)
    requires x.Proper() && Inside(x.w, env) && Reachable(env, x.b)
    requires x.Standing(nodes0, a) && Pass(x.c, env, self, cursor, n, a, b, pushed)
    ensures x.Standing(nodes0, b)
    ensures x.Converged(a) || (self == x.o && Ahead(x.p, cursor) < n) ==> x.Converged(b) || x.Collides(nodes0)
    decreases n
  {
    hide Visited, Counted, Ahead, Reachable, Inside;
    hide Watch.Standing, Watch.Converged, Watch.Collides, Watch.Proper;
    AheadSmall(x.p, cursor);
    if n > 0 {
      var m, q := n - 1, (cursor + n - 1) % COUNT;
      var mid, before: nat, here: nat :|
        && Pass(x.c, env, self, cursor, m, a, mid, before)
        && Visited(x.c, env, self, q, mid, b) && Counted(x.c, env, self, q, mid, here)
        && pushed == before + here;
      PassKeeps(x, env, self, cursor, m, nodes0, a, mid, before);
      AnyVisit(x, env, self, q, nodes0, mid, b);
      CollisionStays(x, nodes0, mid);
      assert x.p < PARTITIONS by { ProperRange(x); }
      if self == x.o && Ahead(x.p, cursor) == m {
        AheadReaches(x.p, cursor, m);
      }
    }
  }

  lemma ProperRange(x: Watch)
    requires x.Proper()
    ensures x.p < PARTITIONS
  {
  }

  lemma AheadSmall(p: int, cursor: int)
    ensures 0 <= Ahead(p, cursor) < COUNT
  {
  }

  /** A collision leaves no converged state to reach. */
  lemma CollisionStays(x: Watch, nodes0: Nodes, nodes: Nodes)
    requires x.Standing(nodes0, nodes)
    ensures x.Collides(nodes0) ==> !x.Converged(nodes)
  {
    hide DigestOf, Data, ShardOf;
  }

  /** A call of SyncBackups: who calls, for how many partitions, what it meets, and what it reports. */
  datatype Call = Call(self: Id, batch: nat, env: Env, pushed: nat)

  type Cursors = map<Id, int>

  /** Each call resumes where its node's previous one stopped. */
  ghost predicate IsSeries(c: Config, calls: seq<Call>, run: seq<Nodes>, cursors: seq<Cursors>) {
    && |run| == |calls| + 1 && |cursors| == |calls| + 1
    && forall i | 0 <= i < |calls| :: IsCall(c, calls[i], run[i], cursors[i], run[i + 1], cursors[i + 1])
  }

  ghost predicate IsCall(c: Config, call: Call, a: Nodes, from: Cursors, b: Nodes, to: Cursors) {
    && call.self in from && Pass(c, call.env, call.self, from[call.self], call.batch, a, b, call.pushed)
    && to == from[call.self := (from[call.self] + call.batch) % COUNT]
  }

  /** The partitions that n's calls cover. */
  function Covered(calls: seq<Call>, n: Id): nat {
    if calls == [] then 0
    else (if calls[0].self == n then calls[0].batch else 0) + Covered(calls[1..], n)
  }

  ghost predicate Undisturbed(x: Watch, calls: seq<Call>) {
    forall i | 0 <= i < |calls| :: Inside(x.w, calls[i].env) && Reachable(calls[i].env, x.b)
  }

  lemma {:induction false} SeriesKeeps(x: Watch, nodes0: Nodes, calls: seq<Call>, run: seq<Nodes>,
                                        cursors: seq<Cursors>)
    requires x.Proper() && IsSeries(x.c, calls, run, cursors) && Undisturbed(x, calls)
    requires x.Standing(nodes0, run[0]) && x.o in cursors[0]
    ensures x.Standing(nodes0, run[|calls|])
    ensures x.Converged(run[0]) || Ahead(x.p, cursors[0][x.o]) < Covered(calls, x.o) ==>
              x.Converged(run[|calls|]) || x.Collides(nodes0)
    decreases |calls|
  {
    hide Pass, Reachable, Inside;
    hide Watch.Standing, Watch.Converged, Watch.Collides, Watch.Proper;
    if calls == [] {
      AheadSmall(x.p, cursors[0][x.o]);
    } else {
      var call := calls[0];
      assert IsCall(x.c, call, run[0], cursors[0], run[1], cursors[1]);
      var from := cursors[0][call.self];
      PassKeeps(x, call.env, call.self, from, call.batch, nodes0, run[0], run[1], call.pushed);
      ProperRange(x);
      if call.self == x.o && call.batch <= Ahead(x.p, from) {
        AheadReaches(x.p, from, call.batch);
      }
      CollisionStays(x, nodes0, run[1]);
      SeriesKeeps(x, nodes0, calls[1..], run[1..], cursors[1..]);
    }
  }

  /**
   * From any contents, any series of calls, by any nodes in any order, in which the partition's
   * owner covers all partitions once: the backup ends up showing exactly what the owner shows,
   * if and only if their contents did not start out different with the same digest. The owner's
   * own entries are untouched.
   */
  lemma BackupsConvergeIff(x: Watch, calls: seq<Call>, run: seq<Nodes>, cursors: seq<Cursors>)
    requires x.Proper() && IsSeries(x.c, calls, run, cursors) && Undisturbed(x, calls)
    requires x.Quiet(run[0]) && x.o in cursors[0] && Covered(calls, x.o) >= COUNT
    ensures x.Converged(run[|calls|]) <==> !x.Collides(run[0])
    ensures x.Shard(run[|calls|], x.o) == x.Shard(run[0], x.o)
  {
    hide Pass, Reachable, Inside, DigestOf, Data, ShardOf;
    AheadSmall(x.p, cursors[0][x.o]);
    SeriesKeeps(x, run[0], calls, run, cursors);
    CollisionStays(x, run[0], run[|calls|]);
  }

  /** One byte of one entry's data is all that the backup shows differently. */
  ghost predicate OneByteOff(x: Watch, nodes: Nodes, k: Key, i: nat) {
    var mine, theirs := Data(x.Shard(nodes, x.o), x.w.t1), Data(x.Shard(nodes, x.b), x.w.t1);
    k in mine && k in theirs && OneByteApart(mine[k], theirs[k], i) && theirs == mine[k := theirs[k]]
  }

  /** Such a difference is always found, and so repaired. */
  lemma OneByteIsRepaired(x: Watch, calls: seq<Call>, run: seq<Nodes>, cursors: seq<Cursors>, k: Key, i: nat)
    requires x.Proper() && IsSeries(x.c, calls, run, cursors) && Undisturbed(x, calls)
    requires x.Quiet(run[0]) && x.o in cursors[0] && Covered(calls, x.o) >= COUNT
    requires OneByteOff(x, run[0], k, i)
    ensures !x.Collides(run[0]) && x.Converged(run[|calls|])
  {
    hide Pass, Reachable, Inside, DigestOf, Data, ShardOf, OneByteApart;
    DigestTellsOneByte(Data(x.Shard(run[0], x.o), x.w.t1), k, Data(x.Shard(run[0], x.b), x.w.t1)[k], i);
    BackupsConvergeIff(x, calls, run, cursors);
  }
}
