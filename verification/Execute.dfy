/**
 * A processor run on the owner and its result sent to the backups with the lifetime the entry has
 * left, in whole milliseconds.
 */
module Execute {
  import opened Bytes
  import opened Entries
  import opened Sorting
  import opened PartitionTable
  import opened Migration
  import opened AntiEntropy
  import opened Failover
  import opened Stores

  // ---- the operation ----------------------------------------------------------------------

  /** Nodes change only by losing k, and only holders of the partition do. */
  ghost predicate OnlyRemoved(k: Key, holders: seq<Id>, a: Nodes, b: Nodes) {
    && b.Keys == a.Keys
    && forall n | n in a :: b[n] == a[n] || (n in holders && b[n] == a[n] - {k})
  }

  ghost predicate BackupsLack(c: Config, env: Env, owner: Id, k: Key, n: nat, b: Nodes)
    requires n <= c.layout.NumBackups(Routed(c.f, k))
  {
    forall i: nat | i < n ::
      var x := c.layout.BackupAt(Routed(c.f, k), i).value;
      x != owner && x in b && Reachable(env, x) ==> k !in b[x]
  }

  /** replicate, of a removal. */
  method ReplicateRemove(c: Config, env: Env, nodes0: Nodes, owner: Id, k: Key, tick0: nat)
    returns (nodes: Nodes, tick: nat)
    ensures OnlyRemoved(k, c.Holders(Routed(c.f, k)), nodes0, nodes)
    ensures forall n | n in nodes :: n == owner ==> nodes[n] == nodes0[n]
    ensures BackupsLack(c, env, owner, k, c.layout.NumBackups(Routed(c.f, k)), nodes)
  {
    hide Sort, Routed;
    var p := Routed(c.f, k);
    ghost var holders := c.Holders(p);
    nodes, tick := nodes0, tick0;
    for i := 0 to c.layout.NumBackups(p)
      invariant OnlyRemoved(k, holders, nodes0, nodes)
      invariant forall n | n in nodes :: n == owner ==> nodes[n] == nodes0[n]
      invariant BackupsLack(c, env, owner, k, i, nodes)
    {
      var b := c.layout.BackupAt(p, i).value;
      if b == owner || !env.known(b) {
        continue;
      }
      assert holders[i + 1] == b;
      if Handled(Fate(env, nodes, b, tick)) && b in nodes {
        assert nodes0[b] - {k} - {k} == nodes0[b] - {k};
        nodes := nodes[b := nodes[b] - {k}];
      }
      tick := tick + 1;
    }
  }

  /** The owner's entries after the action. */
  function Acted(m: Flat, k: Key, now: int, action: Action): Flat {
    ApplyAll(m, UpdateRecords(m, k, now, action))
  }

  lemma ActedIs(m: Flat, k: Key, now: int, action: Action)
    ensures action.Keep? ==> Acted(m, k, now, action) == m
    ensures action.Delete? ==> Acted(m, k, now, action) == m - {k}
    ensures action.Set? ==>
              var e := if k in m && !Expired(m[k], now) then m[k].expireAt else 0;
              Acted(m, k, now, action) == m[k := Value(action.val, e)]
  {
    hide ApplyAll;
    match action {
      case Keep => OneRecord(m, Remove(k));
      case Delete => OneRecord(m, Remove(k));
      case Set(val) =>
        OneRecord(m, Put(k, Value(val, if k in m && !Expired(m[k], now) then m[k].expireAt else 0)));
    }
  }

  /**
   * applyExecute: the owner's entry by the processor's action, then the backups. A set is sent on
   * with what is left of the entry's lifetime at that moment, rounded down to milliseconds.
   */
  /**
   * A processor that sets a value does not change how long the entry lives: a live entry shows the new
   * value for as long as it would have shown the old one, and any other from now on for good.
   */
  lemma SetKeepsLifetime(m: Flat, k: Key, now: int, val: bytes, t: int)
    requires now <= t
    ensures var m' := Acted(m, k, now, Set(val));
            Read(m', k, t) == if Read(m, k, now).Some? && Read(m, k, t).None? then None else Some(val)
  {
    hide Acted;
    ActedIs(m, k, now, Set(val));
  }

  method ExecuteAtOwner(c: Config, env: Env, nodes0: Nodes, owner: Id, k: Key, fn: Option<bytes> -> Action)
    returns (action: Action, nodes: Nodes)
    requires owner in nodes0 && owner in c.Holders(Routed(c.f, k))
    ensures action == fn(Read(nodes0[owner], k, env.now(0))) && nodes.Keys == nodes0.Keys
    ensures nodes[owner] == Acted(nodes0[owner], k, env.now(0), action)
    ensures forall n | n in nodes0 && n !in c.Holders(Routed(c.f, k)) :: nodes[n] == nodes0[n]
    ensures action.Keep? ==> nodes == nodes0
    ensures action.Delete? ==>
              && OnlyRemoved(k, c.Holders(Routed(c.f, k)), nodes0, nodes)
              && BackupsLack(c, env, owner, k, c.layout.NumBackups(Routed(c.f, k)), nodes)
    ensures action.Set? ==>
              && k in nodes[owner] && nodes[owner][k].data == action.val
              && OnlyWritten(env, k, action.val, RemainingTTLms(nodes[owner][k].expireAt, env.now(1)),
                             c.Holders(Routed(c.f, k)), nodes0[owner := nodes[owner]], nodes)
              && BackupsHave(c, env, owner, k, action.val, RemainingTTLms(nodes[owner][k].expireAt, env.now(1)),
                             c.layout.NumBackups(Routed(c.f, k)), nodes0, nodes)
  {
    hide Sort, Written, Routed, ExpireFromTTL, RemainingTTLms, Acted, Reachable;
    var m := nodes0[owner];
    action := fn(Read(m, k, env.now(0)));
    ActedIs(m, k, env.now(0), action);
    var acted := nodes0[owner := Acted(m, k, env.now(0), action)];
    var tick;
    match action {
      case Keep =>
        nodes := nodes0;
      case Delete =>
        nodes, tick := ReplicateRemove(c, env, acted, owner, k, 1);
      case Set(val) =>
        var ttlMs := RemainingTTLms(acted[owner][k].expireAt, env.now(1));
        nodes, tick := ReplicatePut(c, env, acted, owner, k, val, ttlMs, 2);
    }
  }

  // ---- when the copies expire -------------------------------------------------------------

  /** The first holder has the value with its expiry, the others what was sent them at r. */
  ghost predicate SetEverywhere(env: Env, r: int, k: Key, v: Value, h: seq<Id>, a: Nodes, b: Nodes) {
    && (forall i | 0 <= i < |h| :: h[i] in a && h[i] in b)
    && (|h| > 0 ==> Lookup(b[h[0]], k) == Some(v))
    && forall i | 0 < i < |h| :: Written(env, k, v.data, RemainingTTLms(v.expireAt, r), a[h[i]], b[h[i]])
  }

  /** With all backups answering, that is what ExecuteAtOwner leaves of a set. */
  lemma ExecutedIsEverywhere(c: Config, env: Env, k: Key, a: Nodes, b: Nodes)
    requires c.Sound() && a.Keys == b.Keys && c.Holders(Routed(c.f, k)) != []
    requires AllReachable(env, c.Holders(Routed(c.f, k)), c.layout.OwnerOf(Routed(c.f, k)), a)
    requires var owner := c.layout.OwnerOf(Routed(c.f, k));
             owner in b && k in b[owner] &&
             BackupsHave(c, env, owner, k, b[owner][k].data, RemainingTTLms(b[owner][k].expireAt, env.now(1)),
                         c.layout.NumBackups(Routed(c.f, k)), a, b)
    ensures SetEverywhere(env, env.now(1), k, b[c.layout.OwnerOf(Routed(c.f, k))][k], c.Holders(Routed(c.f, k)), a, b)
  {
    hide Sort, Written, Routed, RemainingTTLms, Reachable;
    var p := Routed(c.f, k);
    var h := c.Holders(p);
    HoldersDistinct(c.layout, p);
    forall i | 0 < i < |h|
      ensures Written(env, k, b[h[0]][k].data, RemainingTTLms(b[h[0]][k].expireAt, env.now(1)), a[h[i]], b[h[i]])
    {
      assert c.layout.BackupAt(p, i - 1).value == h[i];
    }
  }

  /** The call sends at r, its clock reads after the epoch, and all it sends has arrived by latest. */
  ghost predicate Within(env: Env, r: int, latest: int) {
    0 < r <= latest && forall i: nat :: 0 < env.now(i) <= latest
  }

  lemma BackupCopy(env: Env, r: int, latest: int, k: Key, v: Value, m: Flat, m': Flat)
    requires Written(env, k, v.data, RemainingTTLms(v.expireAt, r), m, m') && v.expireAt != 0
    requires Within(env, r, latest)
    ensures k in m' && m'[k].data == v.data
    ensures v.expireAt - r < MILLI ==> m'[k].expireAt == 0
    ensures v.expireAt - r >= MILLI ==> 0 < m'[k].expireAt <= v.expireAt + (latest - r)
  {
    var i: nat :| m' == m[k := Value(v.data, ExpireFromTTL(RemainingTTLms(v.expireAt, r), env.now(i)))];
    var d := v.expireAt - r;
    ReplicaNeverExpiresIff(v, r, env.now(i));
    if d >= MILLI {
      assert (d / MILLI) * MILLI <= d;
    }
  }

  /**
   * An entry with less than a millisecond left when it was sent on: after the owner's has lapsed,
   * at whatever later instant, any node that reaches a backup still reads it.
   */
  lemma LapsedStillRead(env: Env, r: int, latest: int, k: Key, v: Value, h: seq<Id>, a: Nodes, b: Nodes,
                        net: Net, self: Id, j: nat)
    requires SetEverywhere(env, r, k, v, h, a, b) && v.expireAt != 0 && v.expireAt - r < MILLI
    requires Within(env, r, latest)
    requires 0 < j < |h| && (h[j] == self || Up(net, b, h[j])) && net.at(h[0]) > v.expireAt
    ensures forall reply | Answers(net, b, self, k, h, reply) :: reply == Found(v.data)
  {
    hide Written, Up, FirstAnswer, NoAnswer, Answers, RemainingTTLms;
    forall i | 0 < i < |h| ensures Read(b[h[i]], k, net.at(h[i])) == Some(v.data) {
      BackupCopy(env, r, latest, k, v, a[h[i]], b[h[i]]);
    }
    assert Read(b[h[0]], k, net.at(h[0])) == None;
    LeadersDecide(net, b, self, k, h, h, v.data, j);
  }

  /** No node reads k once all clocks are past t. */
  ghost predicate SilentAfter(k: Key, h: seq<Id>, nodes: Nodes, t: int) {
    forall net: Net, self: Id | Past(net, t) :: NoAnswer(net, nodes, self, k, h)
  }

  ghost predicate Past(net: Net, t: int) { forall n :: net.at(n) > t }

  /**
   * An expiring entry that a processor has set, on a partition with a backup: reads of it stop at
   * some instant if and only if it had at least a millisecond left when it was sent on. They then
   * stop no later after the owner's entry lapses than the sends took to arrive.
   */
  lemma ReadsStopIff(env: Env, r: int, latest: int, k: Key, v: Value, h: seq<Id>, a: Nodes, b: Nodes)
    requires SetEverywhere(env, r, k, v, h, a, b) && v.expireAt != 0 && |h| > 1
    requires Within(env, r, latest)
    ensures (exists t :: SilentAfter(k, h, b, t)) <==> v.expireAt - r >= MILLI
    ensures v.expireAt - r >= MILLI ==> SilentAfter(k, h, b, v.expireAt + (latest - r))
  {
    if v.expireAt - r >= MILLI {
      StopsInTime(env, r, latest, k, v, h, a, b);
    } else {
      forall t ensures !SilentAfter(k, h, b, t) {
        NeverStops(env, r, latest, k, v, h, a, b, t);
      }
    }
  }

  lemma StopsInTime(env: Env, r: int, latest: int, k: Key, v: Value, h: seq<Id>, a: Nodes, b: Nodes)
    requires SetEverywhere(env, r, k, v, h, a, b) && v.expireAt != 0 && v.expireAt - r >= MILLI
    requires Within(env, r, latest)
    ensures SilentAfter(k, h, b, v.expireAt + (latest - r))
  {
    hide Written, RemainingTTLms;
    var t := v.expireAt + (latest - r);
    forall net: Net, self: Id, i | Past(net, t) && 0 <= i < |h| ensures Asked(net, b, self, h[i], k) == None {
      if i > 0 { BackupCopy(env, r, latest, k, v, a[h[i]], b[h[i]]); }
      assert net.at(h[i]) > t;
    }
  }

  lemma NeverStops(env: Env, r: int, latest: int, k: Key, v: Value, h: seq<Id>, a: Nodes, b: Nodes, t: int)
    requires SetEverywhere(env, r, k, v, h, a, b) && v.expireAt != 0 && v.expireAt - r < MILLI && |h| > 1
    requires Within(env, r, latest)
    ensures !SilentAfter(k, h, b, t)
  {
    hide Written, RemainingTTLms;
    BackupCopy(env, r, latest, k, v, a[h[1]], b[h[1]]);
    var net := Net(_ => t + 1, _ => true, _ => true);
    assert Past(net, t);
    assert Asked(net, b, h[1], h[1], k) == Some(v.data);
    assert !NoAnswer(net, b, h[1], k, h);
  }

  /**
   * The whole of it: a processor sets an expiring entry on the owner at env.now(0), the result is
   * sent on at env.now(1), and all backups answer. Reads of it, by any node, stop at some instant if
   * and only if a millisecond of its lifetime was left at env.now(1).
   */
  method ExecuteThenReads(c: Config, env: Env, nodes0: Nodes, k: Key, fn: Option<bytes> -> Action, ghost latest: int)
    returns (action: Action, nodes: Nodes)
    requires c.Sound() && |c.Holders(Routed(c.f, k))| > 1 && Within(env, env.now(1), latest)
    requires AllReachable(env, c.Holders(Routed(c.f, k)), c.layout.OwnerOf(Routed(c.f, k)), nodes0)
    ensures c.layout.OwnerOf(Routed(c.f, k)) in nodes
    ensures var h := c.Holders(Routed(c.f, k));
            action.Set? ==>
              && k in nodes[h[0]]
              && var e := nodes[h[0]][k].expireAt;
                 e != 0 ==>
                   && ((exists t :: SilentAfter(k, h, nodes, t)) <==> e - env.now(1) >= MILLI)
                   && (e - env.now(1) >= MILLI ==> SilentAfter(k, h, nodes, e + (latest - env.now(1))))
  {
    hide Sort, Written, Routed, RemainingTTLms, Reachable, SilentAfter, Acted, BackupsHave, Within, SetEverywhere;
    var p := Routed(c.f, k);
    ghost var h := c.Holders(p);
    assert h[0] == c.layout.OwnerOf(p) && h[0] in h;
    action, nodes := ExecuteAtOwner(c, env, nodes0, c.layout.OwnerOf(p), k, fn);
    if action.Set? {
      ExecutedIsEverywhere(c, env, k, nodes0, nodes);
      ghost var v := nodes[h[0]][k];
      if v.expireAt != 0 {
        ReadsStopIff(env, env.now(1), latest, k, v, h, nodes0, nodes);
      }
    }
  }
}
