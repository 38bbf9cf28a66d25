/**
 * Anti-entropy: an owner compares digests with its backups, pushes its live entries to those that
 * differ and has them drop every other key. Nodes call it in any order, each threading its own
 * cursor; any message may be lost, or be handled and its reply lost.
 */
module AntiEntropy {
  import opened Bytes
  import opened Entries
  import opened Digest
  import opened Sorting
  import opened PartitionTable
  import opened Transfer
  import opened Migration
  import MigrationPass

  /** What one call meets: clock readings, known addresses, and the fate of each message. */
  datatype Env = Env(now: nat -> int, known: Id -> bool, outcome: (Id, nat) -> Outcome)

  predicate Handled(o: Outcome) { o.Delivered? || o.LostReply? }

  /** Every message to b is handled and answered. */
  ghost predicate Reachable(env: Env, b: Id) {
    env.known(b) && forall i: nat :: env.outcome(b, i).Delivered?
  }

  function Fate(env: Env, nodes: Nodes, b: Id, i: nat): Outcome {
    if b in nodes then env.outcome(b, i) else LostRequest
  }

  /** The live bytes of a node's partition p. */
  function Content(f: PartitionFn, m: Flat, p: nat, now: int): map<Key, bytes> {
    Data(ShardOf(f, m, p), now)
  }

  method PartitionDigest(f: PartitionFn, m: Flat, p: nat, now: int) returns (d: bv64)
    ensures d == DigestOf(Content(f, m, p, now))
  {
    hide Enumerates, DigestOf, DigestOfList;
    var live := Live(ShardOf(f, m, p), now);
    var es := MigrationPass.ListFlat(live);
    DigestOfListing(es, live);
    assert DataOf(live) == Content(f, m, p, now);
    d := DigestOfList(es);
  }

  // ---- the probe --------------------------------------------------------------------------

  function Others(c: Config, self: Id, p: nat): seq<Id> {
    BackupTargets(c.layout, self, p, c.layout.NumBackups(p))
  }

  ghost predicate Matches(c: Config, env: Env, a: Flat, b: Flat, p: nat, i: nat, j: nat) {
    DigestOf(Content(c.f, a, p, env.now(i))) == DigestOf(Content(c.f, b, p, env.now(j)))
  }

  ghost predicate SomeMatch(c: Config, env: Env, a: Flat, b: Flat, p: nat) {
    exists i, j :: Matches(c, env, a, b, p, i, j)
  }

  ghost predicate AlwaysMatch(c: Config, env: Env, a: Flat, b: Flat, p: nat) {
    forall i, j :: Matches(c, env, a, b, p, i, j)
  }

  /** The backups that answered the owner's digest with a mismatch, or not at all. */
  method Probe(c: Config, env: Env, nodes: Nodes, self: Id, p: nat, tick0: nat) returns (stale: seq<Id>, tick: nat)
    requires self in nodes
    ensures forall b | b in stale :: b in Others(c, self, p)
    ensures forall b | b in stale && b in nodes && Reachable(env, b) :: !AlwaysMatch(c, env, nodes[self], nodes[b], p)
    ensures forall b | b in Others(c, self, p) && b in nodes && Reachable(env, b) && b !in stale ::
              SomeMatch(c, env, nodes[self], nodes[b], p)
  {
    hide Sort, DigestOf, Content;
    var l := c.layout;
    var mine := PartitionDigest(c.f, nodes[self], p, env.now(tick0));
    stale, tick := [], tick0 + 1;
    for i := 0 to l.NumBackups(p)
      invariant forall b | b in stale :: b in BackupTargets(l, self, p, i)
      invariant forall b | b in stale && b in nodes && Reachable(env, b) ::
                  !AlwaysMatch(c, env, nodes[self], nodes[b], p)
      invariant forall b | b in BackupTargets(l, self, p, i) && b in nodes && Reachable(env, b) && b !in stale ::
                  SomeMatch(c, env, nodes[self], nodes[b], p)
    {
      var b := l.BackupAt(p, i).value;
      if b == self || !env.known(b) {
        continue;
      }
      var matched := false;
      if Fate(env, nodes, b, tick).Delivered? {
        var theirs := PartitionDigest(c.f, nodes[b], p, env.now(tick));
        matched := theirs == mine;
        assert matched <==> Matches(c, env, nodes[self], nodes[b], p, tick0, tick);
      }
      if !matched {
        stale := stale + [b];
      }
      tick := tick + 1;
    }
  }

  // ---- the push ---------------------------------------------------------------------------

  ghost predicate SeenLive(env: Env, v: Value) { exists i: nat :: !Expired(v, env.now(i)) }

  ghost predicate SeenExpired(env: Env, v: Value) { exists i: nat :: Expired(v, env.now(i)) }

  /** keep is the authoritative key set: what the owner holds and found live when it looked. */
  ghost predicate Authoritative(f: PartitionFn, env: Env, src: Flat, p: nat, keep: set<Key>) {
    && (forall k | k in keep ::
          k in src && Routed(f, k) == p && SeenLive(env, src[k]) && !LapsesInFlight(src[k], env.now(0)))
    && (forall k | k in src && Routed(f, k) == p && k !in keep ::
          SeenExpired(env, src[k]) || LapsesInFlight(src[k], env.now(0)))
  }

  ghost predicate IsCopy(env: Env, v: Value, v': Value) {
    exists i: nat :: v' == Arrived(v, env.now(0), env.now(i))
  }

  /** m holds a copy, made during this call, of what the owner has under k. */
  ghost predicate CopyAt(env: Env, src: Flat, k: Key, m: Flat) {
    k in src && k in m && IsCopy(env, src[k], m[k])
  }

  ghost predicate Overlay(env: Env, src: Flat, keep: set<Key>, m: Flat, m': Flat) {
    forall k :: Lookup(m', k) == Lookup(m, k) || (k in keep && CopyAt(env, src, k, m'))
  }

  ghost predicate AllCopied(env: Env, src: Flat, keep: set<Key>, m: Flat) {
    forall k | k in keep :: CopyAt(env, src, k, m)
  }

  /** The entry under k to every stale backup. */
  method PushEntry(env: Env, nodes0: Nodes, stale: seq<Id>, ghost src: Flat, k: Key, v: Value, tick0: nat)
    returns (nodes: Nodes, tick: nat, sent: bool)
    requires k in src && src[k] == v
    ensures nodes.Keys == nodes0.Keys
    ensures forall n | n in nodes :: n !in stale ==> nodes[n] == nodes0[n]
    ensures forall n | n in nodes :: Overlay(env, src, {k}, nodes0[n], nodes[n])
    ensures forall n | n in nodes && n in stale && Reachable(env, n) :: CopyAt(env, src, k, nodes[n]) && sent
    ensures stale == [] ==> !sent
  {
    hide Arrived;
    nodes, tick, sent := nodes0, tick0, false;
    for i := 0 to |stale|
      invariant nodes.Keys == nodes0.Keys
      invariant forall n | n in nodes :: n !in stale[..i] ==> nodes[n] == nodes0[n]
      invariant forall n | n in nodes :: Overlay(env, src, {k}, nodes0[n], nodes[n])
      invariant forall n | n in nodes && n in stale[..i] && Reachable(env, n) :: CopyAt(env, src, k, nodes[n]) && sent
      invariant i == 0 ==> !sent
    {
      var b := stale[i];
      assert stale[..i + 1] == stale[..i] + [b];
      var o := Fate(env, nodes, b, tick);
      if Handled(o) && b in nodes {
        var v' := Arrived(v, env.now(0), env.now(tick));
        assert IsCopy(env, v, v');
        nodes := nodes[b := nodes[b][k := v']];
      }
      if o.Delivered? {
        sent := true;
      }
      tick := tick + 1;
    }
    assert stale[..|stale|] == stale;
  }

  lemma OverlayMore(env: Env, src: Flat, keep: set<Key>, k: Key, a: Flat, b: Flat, c: Flat)
    requires Overlay(env, src, keep, a, b) && Overlay(env, src, {k}, b, c)
    ensures Overlay(env, src, keep + {k}, a, c)
    ensures AllCopied(env, src, keep, b) ==> AllCopied(env, src, keep, c)
  {
    hide IsCopy;
    assert forall x: Key :: Lookup(c, x) == Lookup(b, x) || (x == k && CopyAt(env, src, x, c));
    forall x | x in keep && AllCopied(env, src, keep, b) ensures CopyAt(env, src, x, c) {
      assert Lookup(c, x) == Lookup(b, x) || CopyAt(env, src, x, c);
    }
    forall x ensures Lookup(c, x) == Lookup(a, x) || (x in keep + {k} && CopyAt(env, src, x, c)) {
      assert Lookup(b, x) == Lookup(a, x) || (x in keep && CopyAt(env, src, x, b));
    }
  }

  /** Part of the listing walked: the keys kept so far are right, for the keys walked so far. */
  ghost predicate Walked(env: Env, src: Flat, es: seq<Entry>, n: nat, keep: set<Key>)
    requires n <= |es|
  {
    && (forall k | k in keep ::
          && (exists i | 0 <= i < n :: es[i].k == k)
          && k in src && SeenLive(env, src[k]) && !LapsesInFlight(src[k], env.now(0)))
    && (forall i | 0 <= i < n && es[i].k in src && es[i].k !in keep ::
          SeenExpired(env, src[es[i].k]) || LapsesInFlight(src[es[i].k], env.now(0)))
  }

  lemma WalkedAll(f: PartitionFn, env: Env, src: Flat, p: nat, es: seq<Entry>, t: nat, keep: set<Key>)
    requires Enumerates(es, Live(ShardOf(f, src, p), env.now(t))) && Walked(env, src, es, |es|, keep)
    ensures Authoritative(f, env, src, p, keep)
  {
    hide LapsesInFlight;
    var live := Live(ShardOf(f, src, p), env.now(t));
    forall k | k in keep ensures Routed(f, k) == p {
      var i :| 0 <= i < |es| && es[i].k == k;
      assert es[i].k in live;
    }
    forall k | k in src && Routed(f, k) == p && k !in keep
      ensures SeenExpired(env, src[k]) || LapsesInFlight(src[k], env.now(0))
    {
      if k in live {
        var i :| 0 <= i < |es| && es[i] == Entry(k, live[k]);
        assert es[i].k == k;
      } else {
        assert Expired(src[k], env.now(t));
      }
    }
  }

  /** Where a push stands: who has changed, how, and what has been counted. */
  ghost predicate PushedSoFar(env: Env, src: Flat, stale: seq<Id>, keep: set<Key>, pushed: nat, a: Nodes, b: Nodes) {
    && b.Keys == a.Keys && pushed <= |keep|
    && (forall n | n in b :: n !in stale ==> b[n] == a[n])
    && (forall n | n in b :: Overlay(env, src, keep, a[n], b[n]))
    && (forall n | n in b && n in stale && Reachable(env, n) :: AllCopied(env, src, keep, b[n]) && pushed == |keep|)
  }

  lemma NothingPushedYet(env: Env, src: Flat, stale: seq<Id>, a: Nodes)
    ensures PushedSoFar(env, src, stale, {}, 0, a, a)
  {
    hide Overlay, AllCopied, Reachable;
    forall n | n in a ensures Overlay(env, src, {}, a[n], a[n]) && AllCopied(env, src, {}, a[n]) {
      NothingPushed(env, src, a[n]);
    }
  }

  lemma OneMorePushed(env: Env, src: Flat, stale: seq<Id>, keep: set<Key>, pushed: nat, a: Nodes, b: Nodes,
                      k: Key, b': Nodes, sent: bool)
    requires PushedSoFar(env, src, stale, keep, pushed, a, b) && k !in keep
    requires b'.Keys == b.Keys && forall n | n in b :: n !in stale ==> b'[n] == b[n]
    requires forall n | n in b :: Overlay(env, src, {k}, b[n], b'[n])
    requires forall n | n in b && n in stale && Reachable(env, n) :: CopyAt(env, src, k, b'[n]) && sent
    ensures PushedSoFar(env, src, stale, keep + {k}, if sent then pushed + 1 else pushed, a, b')
  {
    hide Overlay, AllCopied, Reachable, CopyAt;
    forall n | n in b
      ensures Overlay(env, src, keep + {k}, a[n], b'[n])
      ensures AllCopied(env, src, keep, b[n]) && CopyAt(env, src, k, b'[n]) ==> AllCopied(env, src, keep + {k}, b'[n])
    {
      OverlayMore(env, src, keep, k, a[n], b[n], b'[n]);
      CopiedMore(env, src, keep, k, b'[n]);
    }
  }

  lemma WalkedMore(env: Env, src: Flat, es: seq<Entry>, n: nat, keep: set<Key>, v: Option<Value>, t: nat, add: bool)
    requires n < |es| && Walked(env, src, es, n, keep) && v == Visible(Lookup(src, es[n].k), env.now(t))
    requires add == (v.Some? && !LapsesInFlight(v.value, env.now(0)))
    ensures Walked(env, src, es, n + 1, if add then keep + {es[n].k} else keep)
  {
    hide LapsesInFlight;
    if add {
      assert !Expired(src[es[n].k], env.now(t));
      assert SeenLive(env, src[es[n].k]);
    } else if es[n].k in src && v.None? {
      assert Expired(src[es[n].k], env.now(t));
    }
  }

  method PushLive(c: Config, env: Env, nodes0: Nodes, self: Id, p: nat, stale: seq<Id>, tick0: nat)
    returns (nodes: Nodes, keep: set<Key>, pushed: nat, tick: nat)
    requires self in nodes0 && self !in stale
    ensures Authoritative(c.f, env, nodes0[self], p, keep)
    ensures PushedSoFar(env, nodes0[self], stale, keep, pushed, nodes0, nodes)
  {
    hide LapsesInFlight, Enumerates, MetaLast, CopyAt, Overlay, AllCopied, Reachable;
    hide Walked, Authoritative, SeenLive, SeenExpired;
    ghost var src := nodes0[self];
    var live := Live(ShardOf(c.f, nodes0[self], p), env.now(tick0));
    var listing := MigrationPass.ListFlat(live);
    var es := OrderQueueMetaLast(listing);
    MetaLastListsSame(listing, live);
    nodes, keep, pushed, tick := nodes0, {}, 0, tick0 + 1;
    NothingPushedYet(env, src, stale, nodes0);
    NothingWalked(env, src, es);
    for i := 0 to |es|
      invariant Walked(env, src, es, i, keep) && PushedSoFar(env, src, stale, keep, pushed, nodes0, nodes)
    {
      var k := es[i].k;
      var found := Visible(Lookup(nodes[self], k), env.now(tick));
      var add := found.Some? && !LapsesInFlight(found.value, env.now(0));
      WalkedMore(env, src, es, i, keep, found, tick, add);
      tick := tick + 1;
      if !add {
        continue;
      }
      FreshKey(env, src, es, live, i, keep);
      var nodes', tick', sent := PushEntry(env, nodes, stale, src, k, found.value, tick);
      OneMorePushed(env, src, stale, keep, pushed, nodes0, nodes, k, nodes', sent);
      keep := keep + {k};
      nodes, tick := nodes', tick';
      if sent {
        pushed := pushed + 1;
      }
    }
    WalkedAll(c.f, env, src, p, es, tick0, keep);
  }

  lemma NothingWalked(env: Env, src: Flat, es: seq<Entry>)
    ensures Walked(env, src, es, 0, {})
  {
  }

  lemma NothingPushed(env: Env, src: Flat, m: Flat)
    ensures Overlay(env, src, {}, m, m) && AllCopied(env, src, {}, m)
  {
  }

  lemma CopiedMore(env: Env, src: Flat, keep: set<Key>, k: Key, m: Flat)
    ensures AllCopied(env, src, keep, m) && CopyAt(env, src, k, m) ==> AllCopied(env, src, keep + {k}, m)
  {
    hide CopyAt;
  }

  lemma FreshKey(env: Env, src: Flat, es: seq<Entry>, m: Flat, i: nat, keep: set<Key>)
    requires Enumerates(es, m) && i < |es| && Walked(env, src, es, i, keep)
    ensures es[i].k !in keep
  {
    hide SeenLive, SeenExpired, LapsesInFlight;
  }

  // ---- the prune --------------------------------------------------------------------------

  /** pruneToKeyset on one node: partition p keeps only the listed keys. */
  function PruneTo(f: PartitionFn, m: Flat, p: nat, keep: set<Key>): Flat {
    map k | k in m && (Routed(f, k) != p || k in keep) :: m[k]
  }

  /** A receiver that owns the partition itself ignores the request. */
  method Reconcile(c: Config, env: Env, nodes0: Nodes, p: nat, stale: seq<Id>, keep: set<Key>, tick0: nat)
    returns (nodes: Nodes, tick: nat)
    ensures nodes.Keys == nodes0.Keys
    ensures forall n | n in nodes ::
              nodes[n] == nodes0[n] || (n in stale && nodes[n] == PruneTo(c.f, nodes0[n], p, keep))
    ensures forall n | n in nodes && n in stale && Reachable(env, n) && c.layout.OwnerOf(p) != n ::
              nodes[n] == PruneTo(c.f, nodes0[n], p, keep)
    ensures forall n | n in nodes :: n == c.layout.OwnerOf(p) ==> nodes[n] == nodes0[n]
  {
    hide Sort;
    nodes, tick := nodes0, tick0;
    for i := 0 to |stale|
      invariant nodes.Keys == nodes0.Keys
      invariant forall n | n in nodes ::
                  nodes[n] == nodes0[n] || (n in stale && nodes[n] == PruneTo(c.f, nodes0[n], p, keep))
      invariant forall n | n in nodes && n in stale[..i] && Reachable(env, n) && c.layout.OwnerOf(p) != n ::
                  nodes[n] == PruneTo(c.f, nodes0[n], p, keep)
      invariant forall n | n in nodes :: n == c.layout.OwnerOf(p) ==> nodes[n] == nodes0[n]
    {
      var b := stale[i];
      assert stale[..i + 1] == stale[..i] + [b];
      if Handled(Fate(env, nodes, b, tick)) && b in nodes && c.layout.OwnerOf(p) != b {
        assert PruneTo(c.f, PruneTo(c.f, nodes0[b], p, keep), p, keep) == PruneTo(c.f, nodes0[b], p, keep);
        nodes := nodes[b := PruneTo(c.f, nodes[b], p, keep)];
      }
      tick := tick + 1;
    }
    assert stale[..|stale|] == stale;
  }

  // ---- one partition ----------------------------------------------------------------------

  /** Partition p of m consists of copies of exactly the owner's authoritative keys. */
  ghost predicate Rebuilt(f: PartitionFn, env: Env, src: Flat, p: nat, keep: set<Key>, m: Flat) {
    && Authoritative(f, env, src, p, keep)
    && forall k | Routed(f, k) == p :: (k in m <==> k in keep) && (k in keep ==> CopyAt(env, src, k, m))
  }

  ghost predicate SomeRebuilt(f: PartitionFn, env: Env, src: Flat, p: nat, m: Flat) {
    exists keep :: Rebuilt(f, env, src, p, keep, m)
  }

  ghost predicate SameElsewhere(f: PartitionFn, p: nat, m: Flat, m': Flat) {
    forall k | Routed(f, k) != p :: Lookup(m', k) == Lookup(m, k)
  }

  /** What a reachable backup is left with. */
  ghost predicate Healed(c: Config, env: Env, src: Flat, p: nat, m: Flat, m': Flat) {
    && ((SomeMatch(c, env, src, m, p) && m' == m) || SomeRebuilt(c.f, env, src, p, m'))
    && (AlwaysMatch(c, env, src, m, p) ==> m' == m)
  }

  /** The owner has k and shows it at every reading of the call, a millisecond from expiry at the first. */
  ghost predicate Shown(env: Env, src: Flat, k: Key) {
    k in src && !LapsesInFlight(src[k], env.now(0)) && forall i: nat :: !Expired(src[k], env.now(i))
  }

  /**
   * What any node is left with, whatever messages were lost: each key as it was, or copied from the
   * owner, or gone, but gone only if the owner did not show it throughout.
   */
  ghost predicate Mended(env: Env, src: Flat, m: Flat, m': Flat) {
    forall k :: Lookup(m', k) == Lookup(m, k) || CopyAt(env, src, k, m') || (k !in m' && !Shown(env, src, k))
  }

  /** What a call does to the cluster when its cursor is at p. */
  ghost predicate Visited(c: Config, env: Env, self: Id, p: nat, a: Nodes, b: Nodes) {
    && b.Keys == a.Keys && self in a
    && (c.layout.OwnerOf(p) != self ==> b == a)
    && (forall n | n in a && n !in Others(c, self, p) :: b[n] == a[n])
    && (forall n | n in a :: SameElsewhere(c.f, p, a[n], b[n]) && Mended(env, a[self], a[n], b[n]))
    && (forall n | n in a && n in Others(c, self, p) && Reachable(env, n) && c.layout.OwnerOf(p) == self ::
          Healed(c, env, a[self], p, a[n], b[n]))
  }

  /** Every backup of p answers, with the owner's digest whenever it is asked. */
  ghost predicate InStep(c: Config, env: Env, nodes: Nodes, self: Id, p: nat) {
    forall b | b in Others(c, self, p) ::
      b in nodes && self in nodes && Reachable(env, b) && AlwaysMatch(c, env, nodes[self], nodes[b], p)
  }

  /** Some backup answers, and never with the owner's digest. */
  ghost predicate Diverged(c: Config, env: Env, nodes: Nodes, self: Id, p: nat) {
    exists b :: b in Others(c, self, p) && b in nodes && self in nodes && Reachable(env, b) &&
                !SomeMatch(c, env, nodes[self], nodes[b], p)
  }

  /**
   * How many entries a visit counts as pushed: none unless this node owns the partition and some
   * backup is out of step, at most the owner's live keys, and all of them if a backup that answers
   * has diverged.
   */
  ghost predicate Counted(c: Config, env: Env, self: Id, p: nat, nodes: Nodes, pushed: nat) {
    && (c.layout.OwnerOf(p) != self || InStep(c, env, nodes, self, p) ==> pushed == 0)
    && (self in nodes && pushed > 0 ==>
          exists keep :: Authoritative(c.f, env, nodes[self], p, keep) && pushed <= |keep|)
    && (c.layout.OwnerOf(p) == self && Diverged(c, env, nodes, self, p) ==>
          exists keep :: Authoritative(c.f, env, nodes[self], p, keep) && pushed == |keep|)
  }

  lemma SelfNotAmongOthers(c: Config, self: Id, p: nat, n: nat)
    ensures self !in BackupTargets(c.layout, self, p, n)
  {
    hide Sort;
  }

  lemma ShownIsKept(f: PartitionFn, env: Env, src: Flat, p: nat, keep: set<Key>, k: Key)
    requires Authoritative(f, env, src, p, keep) && Routed(f, k) == p && k !in keep
    ensures !Shown(env, src, k)
  {
    hide LapsesInFlight;
  }

  lemma RebuiltAfterPrune(f: PartitionFn, env: Env, src: Flat, p: nat, keep: set<Key>, m0: Flat, m1: Flat, m2: Flat)
    requires Authoritative(f, env, src, p, keep) && Overlay(env, src, keep, m0, m1)
    requires m2 == m1 || m2 == PruneTo(f, m1, p, keep)
    ensures SameElsewhere(f, p, m0, m2) && Mended(env, src, m0, m2)
    ensures AllCopied(env, src, keep, m1) && m2 == PruneTo(f, m1, p, keep) ==> SomeRebuilt(f, env, src, p, m2)
  {
    hide SeenLive, SeenExpired, LapsesInFlight, IsCopy, Shown;
    forall k ensures Lookup(m2, k) == Lookup(m0, k) || CopyAt(env, src, k, m2) || (k !in m2 && !Shown(env, src, k)) {
      assert Lookup(m1, k) == Lookup(m0, k) || (k in keep && CopyAt(env, src, k, m1));
      if k in m1 && k !in m2 { ShownIsKept(f, env, src, p, keep, k); }
    }
    forall k | Routed(f, k) != p ensures Lookup(m2, k) == Lookup(m0, k) {
      assert k !in keep;
      assert Lookup(m1, k) == Lookup(m0, k);
    }
    if AllCopied(env, src, keep, m1) && m2 == PruneTo(f, m1, p, keep) {
      assert Rebuilt(f, env, src, p, keep, m2) by {
        forall k | Routed(f, k) == p && k in keep ensures CopyAt(env, src, k, m2) {
          assert CopyAt(env, src, k, m1);
        }
      }
    }
  }

  method Visit(c: Config, env: Env, nodes0: Nodes, self: Id, p: nat, tick0: nat)
    returns (nodes: Nodes, pushed: nat, tick: nat)
    requires self in nodes0
    ensures Visited(c, env, self, p, nodes0, nodes)
    ensures Counted(c, env, self, p, nodes0, pushed)
    ensures InStep(c, env, nodes0, self, p) ==> pushed == 0 && nodes == nodes0
  {
    hide Sort, Rebuilt, SomeRebuilt, Authoritative, Overlay, AllCopied, AlwaysMatch, SomeMatch, PruneTo;
    hide Reachable, BackupTargets, SameElsewhere, Mended;
    nodes, pushed, tick := nodes0, 0, tick0;
    forall n | n in nodes0
      ensures SameElsewhere(c.f, p, nodes0[n], nodes0[n]) && Mended(env, nodes0[self], nodes0[n], nodes0[n])
    {
      Untouched(c.f, p, env, nodes0[self], nodes0[n]);
    }
    if c.layout.OwnerOf(p) == self {
      SelfNotAmongOthers(c, self, p, c.layout.NumBackups(p));
      var stale;
      stale, tick := Probe(c, env, nodes0, self, p, tick);
      if |stale| > 0 {
        assert stale[0] in stale;
        var pushedTo, keep;
        pushedTo, keep, pushed, tick := PushLive(c, env, nodes0, self, p, stale, tick);
        nodes, tick := Reconcile(c, env, pushedTo, p, stale, keep, tick);
        forall n | n in nodes0
          ensures SameElsewhere(c.f, p, nodes0[n], nodes[n]) && Mended(env, nodes0[self], nodes0[n], nodes[n])
          ensures n in stale && Reachable(env, n) ==> SomeRebuilt(c.f, env, nodes0[self], p, nodes[n])
        {
          RebuiltAfterPrune(c.f, env, nodes0[self], p, keep, nodes0[n], pushedTo[n], nodes[n]);
        }
      }
    }
  }

  lemma Untouched(f: PartitionFn, p: nat, env: Env, src: Flat, m: Flat)
    ensures SameElsewhere(f, p, m, m) && Mended(env, src, m, m)
  {
  }

  // ---- the call ---------------------------------------------------------------------------

  /** Go's remainder, which has the sign of the dividend. */
  function TruncMod(a: int, b: int): int
    requires b > 0
  {
    a - b * TruncDiv(a, b)
  }

  const COUNT: int := 271

  lemma CursorInRange(start: int)
    ensures TruncMod(TruncMod(start, COUNT) + COUNT, COUNT) == start % COUNT
  {
    if start >= 0 {
      assert TruncMod(start, COUNT) == start % COUNT;
    } else {
      var q := (-start) / COUNT;
      assert TruncMod(start, COUNT) == start + COUNT * q;
    }
  }

  /** n visits from cursor p on, which count so many entries in all. */
  ghost predicate Pass(c: Config, env: Env, self: Id, p: int, n: nat, a: Nodes, b: Nodes, pushed: nat) {
    if n == 0 then a == b && pushed == 0
    else
      var m, q := n - 1, (p + n - 1) % COUNT;
      exists mid, before: nat, here: nat ::
        && Pass(c, env, self, p, m, a, mid, before)
        && Visited(c, env, self, q, mid, b) && Counted(c, env, self, q, mid, here)
        && pushed == before + here
  }

  lemma PassMore(c: Config, env: Env, self: Id, p: int, n: nat, a: Nodes, mid: Nodes, b: Nodes, before: nat, here: nat)
    requires Pass(c, env, self, p, n, a, mid, before)
    requires Visited(c, env, self, (p + n) % COUNT, mid, b) && Counted(c, env, self, (p + n) % COUNT, mid, here)
    ensures Pass(c, env, self, p, n + 1, a, b, before + here)
  {
    hide Visited, Counted;
    assert n + 1 - 1 == n;
  }

  lemma NextCursor(start: int, k: nat)
    ensures ((start + k) % COUNT + 1) % COUNT == (start + (k + 1)) % COUNT
  {
  }

  method SyncBackups(c: Config, env: Env, nodes0: Nodes, self: Id, start: int, batch: int)
    returns (pushed: nat, next: int, nodes: Nodes)
    requires self in nodes0
    ensures var n := if batch > 0 then batch else 0;
            next == (start + n) % COUNT && Pass(c, env, self, start, n, nodes0, nodes, pushed)
    ensures (forall p :: InStep(c, env, nodes0, self, p)) ==> pushed == 0 && nodes == nodes0
  {
    hide Visited, InStep, Counted;
    var p := TruncMod(TruncMod(start, COUNT) + COUNT, COUNT);
    CursorInRange(start);
    pushed, nodes := 0, nodes0;
    var tick := 0;
    var k := 0;
    while k < batch
      invariant 0 <= k && (k <= batch || k == 0)
      invariant p == (start + k) % COUNT && nodes.Keys == nodes0.Keys
      invariant Pass(c, env, self, start, k, nodes0, nodes, pushed)
      invariant (forall q :: InStep(c, env, nodes0, self, q)) ==> pushed == 0 && nodes == nodes0
    {
      var nodes', more;
      nodes', more, tick := Visit(c, env, nodes, self, p, tick);
      VisitedKeys(c, env, self, p, nodes, nodes');
      PassMore(c, env, self, start, k, nodes0, nodes, nodes', pushed, more);
      NextCursor(start, k);
      nodes, pushed, p, k := nodes', pushed + more, (p + 1) % COUNT, k + 1;
    }
    next := p;
  }

  lemma VisitedKeys(c: Config, env: Env, self: Id, p: nat, a: Nodes, b: Nodes)
    requires Visited(c, env, self, p, a, b)
    ensures b.Keys == a.Keys
  {
  }
}
