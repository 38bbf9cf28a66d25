/** Writing through the owner and reading past failed nodes. */
module Failover {
  import opened Bytes
  import opened Entries
  import opened Sorting
  import opened PartitionTable
  import opened Migration
  import opened AntiEntropy

  // ---- writing ----------------------------------------------------------------------------

  /** m' is m with data under k, its lifetime counted from some moment of the call. */
  ghost predicate Written(env: Env, k: Key, data: bytes, ttlMs: int, m: Flat, m': Flat) {
    exists i: nat :: m' == m[k := Value(data, ExpireFromTTL(ttlMs, env.now(i)))]
  }

  /** Nodes change only by receiving this write, and only holders of the partition do. */
  ghost predicate OnlyWritten(env: Env, k: Key, data: bytes, ttlMs: int, holders: seq<Id>, a: Nodes, b: Nodes) {
    && b.Keys == a.Keys
    && forall n | n in a :: b[n] == a[n] || (n in holders && Written(env, k, data, ttlMs, a[n], b[n]))
  }

  lemma WriteAgain(env: Env, k: Key, data: bytes, ttlMs: int, m: Flat, m': Flat, i: nat)
    requires m' == m || Written(env, k, data, ttlMs, m, m')
    ensures Written(env, k, data, ttlMs, m, m'[k := Value(data, ExpireFromTTL(ttlMs, env.now(i)))])
  {
    var v := Value(data, ExpireFromTTL(ttlMs, env.now(i)));
    if m' != m {
      var j: nat :| m' == m[k := Value(data, ExpireFromTTL(ttlMs, env.now(j)))];
    }
    assert m'[k := v] == m[k := v];
  }

  /** One node stores the value it was sent. */
  method StoreAt(env: Env, ghost nodes0: Nodes, nodes: Nodes, ghost holders: seq<Id>, n: Id,
                 k: Key, data: bytes, ttlMs: int, tick: nat)
    returns (nodes': Nodes)
    requires n in nodes && n in holders && OnlyWritten(env, k, data, ttlMs, holders, nodes0, nodes)
    ensures OnlyWritten(env, k, data, ttlMs, holders, nodes0, nodes')
    ensures Written(env, k, data, ttlMs, nodes0[n], nodes'[n])
    ensures forall x | x in nodes && x != n :: nodes'[x] == nodes[x]
  {
    hide Written;
    WriteAgain(env, k, data, ttlMs, nodes0[n], nodes[n], tick);
    nodes' := nodes[n := nodes[n][k := Value(data, ExpireFromTTL(ttlMs, env.now(tick)))]];
  }

  /** A backup of k's partition that answers has received the write. */
  ghost predicate BackupsHave(c: Config, env: Env, owner: Id, k: Key, data: bytes, ttlMs: int, n: nat,
                              a: Nodes, b: Nodes)
    requires a.Keys == b.Keys && n <= c.layout.NumBackups(Routed(c.f, k))
  {
    forall i: nat | i < n ::
      var x := c.layout.BackupAt(Routed(c.f, k), i).value;
      x != owner && x in b && Reachable(env, x) ==> Written(env, k, data, ttlMs, a[x], b[x])
  }

  /** replicate, of a put: every backup in turn, whatever becomes of the sends. */
  method ReplicatePut(c: Config, env: Env, nodes0: Nodes, owner: Id, k: Key, data: bytes, ttlMs: int, tick0: nat)
    returns (nodes: Nodes, tick: nat)
    ensures OnlyWritten(env, k, data, ttlMs, c.Holders(Routed(c.f, k)), nodes0, nodes)
    ensures forall n | n in nodes :: n == owner ==> nodes[n] == nodes0[n]
    ensures BackupsHave(c, env, owner, k, data, ttlMs, c.layout.NumBackups(Routed(c.f, k)), nodes0, nodes)
  {
    hide Sort, Written, Routed, ExpireFromTTL;
    var p := Routed(c.f, k);
    ghost var holders := c.Holders(p);
    nodes, tick := nodes0, tick0;
    for i := 0 to c.layout.NumBackups(p)
      invariant OnlyWritten(env, k, data, ttlMs, holders, nodes0, nodes)
      invariant forall n | n in nodes :: n == owner ==> nodes[n] == nodes0[n]
      invariant BackupsHave(c, env, owner, k, data, ttlMs, i, nodes0, nodes)
    {
      var b := c.layout.BackupAt(p, i).value;
      if b == owner || !env.known(b) {
        continue;
      }
      assert holders[i + 1] == b;
      if Handled(Fate(env, nodes, b, tick)) && b in nodes {
        nodes := StoreAt(env, nodes0, nodes, holders, b, k, data, ttlMs, tick);
      }
      tick := tick + 1;
    }
  }

  /** applyPut on the owner: its own store, then the backups. */
  method PutAtOwner(c: Config, env: Env, nodes0: Nodes, owner: Id, k: Key, data: bytes, ttlMs: int, tick0: nat)
    returns (nodes: Nodes, tick: nat)
    requires owner in nodes0 && owner in c.Holders(Routed(c.f, k))
    ensures OnlyWritten(env, k, data, ttlMs, c.Holders(Routed(c.f, k)), nodes0, nodes)
    ensures Written(env, k, data, ttlMs, nodes0[owner], nodes[owner])
    ensures BackupsHave(c, env, owner, k, data, ttlMs, c.layout.NumBackups(Routed(c.f, k)), nodes0, nodes)
  {
    hide Sort, Written, Routed, ExpireFromTTL;
    var stored := StoreAt(env, nodes0, nodes0, c.Holders(Routed(c.f, k)), owner, k, data, ttlMs, tick0);
    nodes, tick := ReplicatePut(c, env, stored, owner, k, data, ttlMs, tick0 + 1);
  }

  ghost predicate SomeHolderHas(env: Env, k: Key, data: bytes, ttlMs: int, holders: seq<Id>, a: Nodes, b: Nodes) {
    exists h :: h in holders && h in a && h in b && Written(env, k, data, ttlMs, a[h], b[h])
  }

  /** A message to b may be answered; a node needs none to itself. */
  ghost predicate Takes(env: Env, nodes: Nodes, self: Id, b: Id) {
    b == self || (env.known(b) && exists i: nat :: Fate(env, nodes, b, i).Delivered?)
  }

  /** A message to b may fail. */
  ghost predicate Fails(env: Env, nodes: Nodes, self: Id, b: Id) {
    b != self && (!env.known(b) || exists i: nat :: !Fate(env, nodes, b, i).Delivered?)
  }

  /** This node, or one that answers every message. */
  ghost predicate Answering(env: Env, nodes: Nodes, self: Id, b: Id) {
    b == self || (b in nodes && Reachable(env, b))
  }

  lemma AnsweringNeverFails(env: Env, nodes: Nodes, self: Id, b: Id)
    requires Answering(env, nodes, self, b)
    ensures !Fails(env, nodes, self, b)
  {
  }

  /** The first n backups of p in replica order. */
  ghost predicate AmongBackups(c: Config, p: nat, n: nat, b: Id) {
    exists i: nat :: i < n && c.layout.BackupAt(p, i) == Some(b)
  }

  /** The first n backups were tried and none took the write. */
  ghost predicate TriedInVain(c: Config, env: Env, self: Id, p: nat, n: nat, nodes: Nodes) {
    forall i: nat | i < n && c.layout.BackupAt(p, i).Some? :: Fails(env, nodes, self, c.layout.BackupAt(p, i).value)
  }

  /** Only the first n backups may have changed. */
  ghost predicate OnlyBackups(c: Config, p: nat, n: nat, a: Nodes, b: Nodes) {
    a.Keys == b.Keys && forall x | x in a && b[x] != a[x] :: AmongBackups(c, p, n, x)
  }

  /** The write is on backup i, and those before it, and no others, were tried. */
  ghost predicate LandsAt(c: Config, env: Env, self: Id, k: Key, data: bytes, ttlMs: int, i: nat, nodes0: Nodes,
                          nodes1: Nodes, nodes: Nodes) {
    var p := Routed(c.f, k);
    && i < c.layout.NumBackups(p) && TriedInVain(c, env, self, p, i, nodes1)
    && OnlyBackups(c, p, i + 1, nodes1, nodes)
    && var b := c.layout.BackupAt(p, i).value;
       && Takes(env, nodes1, self, b)
       && b in nodes0 && b in nodes && Written(env, k, data, ttlMs, nodes0[b], nodes[b])
  }

  /**
   * When the owner cannot be reached: the first backup, in replica order, that takes the write. It
   * fails only if every backup failed, so never when one of them answers or is this node.
   */
  method PutAtBackup(c: Config, env: Env, ghost nodes0: Nodes, nodes1: Nodes, self: Id,
                     k: Key, data: bytes, ttlMs: int, tick0: nat)
    returns (landed: bool, nodes: Nodes, ghost at: nat)
    requires self in nodes1 && OnlyWritten(env, k, data, ttlMs, c.Holders(Routed(c.f, k)), nodes0, nodes1)
    ensures OnlyWritten(env, k, data, ttlMs, c.Holders(Routed(c.f, k)), nodes0, nodes)
    ensures landed ==> LandsAt(c, env, self, k, data, ttlMs, at, nodes0, nodes1, nodes)
    ensures !landed ==> TriedInVain(c, env, self, Routed(c.f, k), c.layout.NumBackups(Routed(c.f, k)), nodes1)
    ensures (exists b :: AmongBackups(c, Routed(c.f, k), c.layout.NumBackups(Routed(c.f, k)), b) &&
                         Answering(env, nodes1, self, b)) ==> landed
  {
    hide Sort, Written, Routed, ExpireFromTTL, Answering, Fails, Takes, AmongBackups, Fate;
    var p := Routed(c.f, k);
    ghost var holders := c.Holders(p);
    nodes, at := nodes1, 0;
    var tick := tick0;
    for i := 0 to c.layout.NumBackups(p)
      invariant OnlyWritten(env, k, data, ttlMs, holders, nodes0, nodes)
      invariant TriedInVain(c, env, self, p, i, nodes1) && OnlyBackups(c, p, i, nodes1, nodes)
    {
      var b := c.layout.BackupAt(p, i).value;
      assert holders[i + 1] == b;
      at := i;
      OneMoreBackup(c, p, i);
      ghost var was := nodes;
      if b == self {
        nodes := StoreAt(env, nodes0, nodes, holders, b, k, data, ttlMs, tick);
        assert Takes(env, nodes1, self, b) by { SelfTakes(env, nodes1, self); }
        return true, nodes, at;
      }
      MayFailOrTake(env, nodes1, nodes, self, b, tick);
      if !env.known(b) {
        continue;
      }
      var o := Fate(env, nodes, b, tick);
      if Handled(o) && b in nodes {
        nodes := StoreAt(env, nodes0, nodes, holders, b, k, data, ttlMs, tick);
      }
      if o.Delivered? {
        return true, nodes, at;
      }
      tick := tick + 1;
    }
    landed := false;
    NoneAnswers(c, env, self, p, nodes1);
  }

  lemma OneMoreBackup(c: Config, p: nat, i: nat)
    requires i < c.layout.NumBackups(p)
    ensures AmongBackups(c, p, i + 1, c.layout.BackupAt(p, i).value)
    ensures forall b | AmongBackups(c, p, i, b) :: AmongBackups(c, p, i + 1, b)
  {
    hide Sort;
    assert c.layout.BackupAt(p, i) == Some(c.layout.BackupAt(p, i).value);
  }

  lemma SelfTakes(env: Env, nodes: Nodes, self: Id)
    ensures Takes(env, nodes, self, self)
  {
  }

  /** What one message to b, or the lack of an address, tells. */
  lemma MayFailOrTake(env: Env, nodes1: Nodes, nodes: Nodes, self: Id, b: Id, tick: nat)
    requires b != self && nodes1.Keys == nodes.Keys
    ensures !env.known(b) || !Fate(env, nodes, b, tick).Delivered? ==> Fails(env, nodes1, self, b)
    ensures env.known(b) && Fate(env, nodes, b, tick).Delivered? ==> Takes(env, nodes1, self, b) && b in nodes
  {
    assert Fate(env, nodes, b, tick) == Fate(env, nodes1, b, tick);
  }

  lemma NoneAnswers(c: Config, env: Env, self: Id, p: nat, nodes: Nodes)
    requires TriedInVain(c, env, self, p, c.layout.NumBackups(p), nodes)
    ensures forall b | AmongBackups(c, p, c.layout.NumBackups(p), b) :: !Answering(env, nodes, self, b)
  {
    hide Sort, Answering, Fails;
    forall b | AmongBackups(c, p, c.layout.NumBackups(p), b) ensures !Answering(env, nodes, self, b) {
      if Answering(env, nodes, self, b) { AnsweringNeverFails(env, nodes, self, b); }
    }
  }

  /** Every holder is a node and answers every message, except that the owner need not send to itself. */
  ghost predicate AllReachable(env: Env, holders: seq<Id>, self: Id, nodes: Nodes) {
    forall i | 0 <= i < |holders| ::
      holders[i] in nodes && (Reachable(env, holders[i]) || (i == 0 && holders[0] == self))
  }

  ghost predicate EveryHolderHas(env: Env, k: Key, data: bytes, ttlMs: int, holders: seq<Id>, a: Nodes, b: Nodes) {
    forall h | h in holders :: h in a && h in b && Written(env, k, data, ttlMs, a[h], b[h])
  }

  /**
   * Put. An acknowledged write is on some holder; when no send fails it is on every holder; one holder
   * that answers, this node included, is enough for it to be acknowledged. With an owner that takes it
   * every backup that answers has it too; with an owner out of reach it is on the first backup that
   * takes it. No other key and no other node changes, and a reserved map is refused.
   */
  method Put(c: Config, env: Env, nodes0: Nodes, self: Id, k: Key, data: bytes, ttlMs: int)
    returns (ok: bool, nodes: Nodes)
    requires self in nodes0
    ensures IsReserved(k.name) ==> !ok && nodes == nodes0
    ensures OnlyWritten(env, k, data, ttlMs, c.Holders(c.f(k.key)), nodes0, nodes)
    ensures ok ==> SomeHolderHas(env, k, data, ttlMs, c.Holders(c.f(k.key)), nodes0, nodes)
    ensures var h := c.Holders(c.f(k.key));
            !IsReserved(k.name) && (exists b :: b in h && Answering(env, nodes0, self, b)) ==> ok
    ensures var h := c.Holders(c.f(k.key));
            !IsReserved(k.name) && h != [] && Answering(env, nodes0, self, h[0]) ==>
              && h[0] in nodes0 && Written(env, k, data, ttlMs, nodes0[h[0]], nodes[h[0]])
              && BackupsHave(c, env, h[0], k, data, ttlMs, c.layout.NumBackups(Routed(c.f, k)), nodes0, nodes)
    ensures var h := c.Holders(c.f(k.key));
            ok && h != [] && OutOfReach(env, nodes0, self, h[0]) ==>
              exists i :: LandsAt(c, env, self, k, data, ttlMs, i, nodes0, nodes0, nodes)
    ensures var h := c.Holders(c.f(k.key));
            !IsReserved(k.name) && h != [] && AllReachable(env, h, self, nodes0) ==>
              ok && EveryHolderHas(env, k, data, ttlMs, h, nodes0, nodes)
  {
    hide Sort, Written, ExpireFromTTL, Reachable, LandsAt, AmongBackups, BackupsHave, TriedInVain, OnlyBackups;
    nodes := nodes0;
    if IsReserved(k.name) {
      return false, nodes;
    }
    var p := c.f(k.key);
    ghost var holders := c.Holders(p);
    assert Routed(c.f, k) == p;
    var owner := c.layout.OwnerOf(p);
    if c.layout.Holders(p) != [] && owner == self {
      var tick;
      nodes, tick := PutAtOwner(c, env, nodes0, self, k, data, ttlMs, 0);
      EveryHolder(c, env, p, self, self, k, data, ttlMs, nodes0, nodes);
      return true, nodes;
    }
    var o := if env.known(owner) && c.layout.Holders(p) != [] then Fate(env, nodes, owner, 0) else LostRequest;
    if Handled(o) && owner in nodes {
      var tick;
      nodes, tick := PutAtOwner(c, env, nodes0, owner, k, data, ttlMs, 1);
      EveryHolder(c, env, p, owner, self, k, data, ttlMs, nodes0, nodes);
    }
    assert holders != [] ==> holders[0] == owner;
    AnswersAlways(env, owner, nodes0);
    if o.Delivered? {
      return true, nodes;
    }
    ghost var nodes1 := nodes;
    ghost var at;
    ok, nodes, at := PutAtBackup(c, env, nodes0, nodes, self, k, data, ttlMs, 1);
    HoldersAreOwnerAndBackups(c, p);
    SameReach(env, nodes0, nodes1, self);
    if ok { LandedOnHolder(c, env, self, k, data, ttlMs, at, nodes0, nodes1, nodes); }
  }

  /** No message to the owner is handled. */
  ghost predicate OutOfReach(env: Env, nodes: Nodes, self: Id, n: Id) {
    n != self && (!env.known(n) || forall i: nat :: !Handled(Fate(env, nodes, n, i)))
  }

  lemma HoldersAreOwnerAndBackups(c: Config, p: nat)
    ensures forall b | b in c.Holders(p) :: b == c.layout.OwnerOf(p) || AmongBackups(c, p, c.layout.NumBackups(p), b)
  {
    hide Sort;
    var h := c.Holders(p);
    forall b | b in h && b != h[0] ensures AmongBackups(c, p, c.layout.NumBackups(p), b) {
      var i :| 0 <= i < |h| && h[i] == b;
      assert c.layout.BackupAt(p, i - 1) == Some(b);
    }
  }

  lemma SameReach(env: Env, a: Nodes, b: Nodes, self: Id)
    requires a.Keys == b.Keys
    ensures forall n | Answering(env, a, self, n) :: Answering(env, b, self, n)
  {
  }

  lemma LandedOnHolder(c: Config, env: Env, self: Id, k: Key, data: bytes, ttlMs: int, i: nat, nodes0: Nodes,
                       nodes1: Nodes, nodes: Nodes)
    requires LandsAt(c, env, self, k, data, ttlMs, i, nodes0, nodes1, nodes)
    ensures SomeHolderHas(env, k, data, ttlMs, c.Holders(Routed(c.f, k)), nodes0, nodes)
  {
    hide Sort, Written, Routed, TriedInVain, OnlyBackups;
    var h := c.Holders(Routed(c.f, k));
    assert h[i + 1] == c.layout.BackupAt(Routed(c.f, k), i).value;
  }

  lemma AnswersAlways(env: Env, n: Id, nodes: Nodes)
    ensures Reachable(env, n) && n in nodes ==> env.known(n) && Fate(env, nodes, n, 0).Delivered?
  {
  }

  lemma EveryHolder(c: Config, env: Env, p: nat, owner: Id, self: Id, k: Key, data: bytes, ttlMs: int,
                    a: Nodes, b: Nodes)
    requires a.Keys == b.Keys && c.Holders(p) != [] && owner == c.layout.OwnerOf(p) && owner in a
    requires Written(env, k, data, ttlMs, a[owner], b[owner])
    requires p == Routed(c.f, k) && BackupsHave(c, env, owner, k, data, ttlMs, c.layout.NumBackups(p), a, b)
    ensures AllReachable(env, c.Holders(p), self, a) ==> EveryHolderHas(env, k, data, ttlMs, c.Holders(p), a, b)
  {
    hide Sort, Written, Reachable;
    var h := c.Holders(p);
    if AllReachable(env, h, self, a) {
      forall x | x in h ensures x in a && Written(env, k, data, ttlMs, a[x], b[x]) {
        var i :| 0 <= i < |h| && h[i] == x;
        if i > 0 && x != owner {
          assert c.layout.BackupAt(p, i - 1).value == x;
        }
      }
    }
  }

  // ---- reading ----------------------------------------------------------------------------

  /** What a reader meets: the clock of each node it asks, known addresses, and who answers. */
  datatype Net = Net(at: Id -> int, known: Id -> bool, answers: Id -> bool)

  datatype Reply = Found(v: bytes) | NotFound | Failed

  predicate Up(net: Net, nodes: Nodes, n: Id) {
    net.known(n) && net.answers(n) && n in nodes
  }

  /** The value a reachable holder returns; this node reads its own store. */
  function Asked(net: Net, nodes: Nodes, self: Id, n: Id, k: Key): Option<bytes> {
    if (n == self || Up(net, nodes, n)) && n in nodes then Read(nodes[n], k, net.at(n)) else None
  }

  /** Of the first n holders, the last backup that was consulted did not answer. */
  ghost predicate LastFails(net: Net, nodes: Nodes, self: Id, h: seq<Id>, n: nat)
    requires n <= |h|
  {
    exists i :: 0 < i < n && Silent(net, nodes, self, h[i]) && forall j | i < j < n :: Skipped(net, self, h[j])
  }

  predicate Silent(net: Net, nodes: Nodes, self: Id, n: Id) {
    n != self && net.known(n) && !Up(net, nodes, n)
  }

  predicate Skipped(net: Net, self: Id, n: Id) { n != self && !net.known(n) }

  /** tryBackups as Get uses it. */
  method AskBackups(l: Layout, f: PartitionFn, net: Net, nodes: Nodes, self: Id, k: Key) returns (r: Reply)
    requires self in nodes
    ensures var p := f(k.key); var h := l.Holders(p);
            Routed(f, k) == p ==>
              && (r.Found? ==> exists i :: 0 < i < |h| && Asked(net, nodes, self, h[i], k) == Some(r.v) &&
                                           forall j | 0 < j < i :: Asked(net, nodes, self, h[j], k) == None)
              && (!r.Found? ==> forall j | 0 < j < |h| :: Asked(net, nodes, self, h[j], k) == None)
    ensures var h := l.Holders(f(k.key)); !r.Found? ==> (r.Failed? <==> LastFails(net, nodes, self, h, |h|))
  {
    hide Sort, Routed;
    var p := f(k.key);
    ghost var h := l.Holders(p);
    r := NotFound;
    for i := 0 to l.NumBackups(p)
      invariant !r.Found? && (h == [] ==> r == NotFound)
      invariant h != [] ==> (r.Failed? <==> LastFails(net, nodes, self, h, i + 1))
      invariant Routed(f, k) == p ==> forall j | 0 < j <= i && j < |h| :: Asked(net, nodes, self, h[j], k) == None
    {
      var b := l.BackupAt(p, i).value;
      assert h[i + 1] == b;
      if b == self {
        // The local store is read in the partition of the bare key.
        var v := if Routed(f, k) == p then Read(nodes[self], k, net.at(self)) else None;
        if v.Some? {
          return Found(v.value);
        }
        r := NotFound;
        continue;
      }
      if !net.known(b) {
        continue;
      }
      if !Up(net, nodes, b) {
        r := Failed;
        continue;
      }
      var v := Read(nodes[b], k, net.at(b));
      if v.Some? {
        return Found(v.value);
      }
      r := NotFound;
    }
  }

  /** Get: the owner first, then the backups in replica order. */
  method Get(l: Layout, f: PartitionFn, net: Net, nodes: Nodes, self: Id, k: Key) returns (r: Reply)
    requires self in nodes && [] !in l.ids
    ensures Routed(f, k) == f(k.key) ==> Answers(net, nodes, self, k, l.Holders(f(k.key)), r)
    ensures var h := l.Holders(f(k.key)); !r.Found? ==> (r.Failed? <==> LastFails(net, nodes, self, h, |h|))
  {
    hide Sort, Routed;
    var p := f(k.key);
    ghost var h := l.Holders(p);
    var owner := l.OwnerOf(p);
    if owner == self || (owner != [] && Up(net, nodes, owner)) {
      var v := Read(nodes[owner], k, net.at(owner));
      if v.Some? && l.Holders(p) != [] {
        return Found(v.value);
      }
    }
    assert h != [] ==> h[0] == owner;
    OwnerIsNamed(l, p);
    r := AskBackups(l, f, net, nodes, self, k);
    if r.Found? && Routed(f, k) == p {
      ghost var i :| 0 < i < |h| && Asked(net, nodes, self, h[i], k) == Some(r.v) &&
                     forall j | 0 < j < i :: Asked(net, nodes, self, h[j], k) == None;
      assert forall j | 0 <= j < i :: Asked(net, nodes, self, h[j], k) == None;
    }
  }

  lemma OwnerIsNamed(l: Layout, p: nat)
    requires [] !in l.ids
    ensures l.Holders(p) != [] ==> l.Holders(p)[0] != []
  {
    hide Sort;
    RankingElements(l, p);
    if l.Holders(p) != [] {
      assert l.Holders(p)[0] in l.Ranking(p);
    }
  }

  /** v is what the first holder that has the key answers. */
  ghost predicate FirstAnswer(net: Net, nodes: Nodes, self: Id, k: Key, h: seq<Id>, v: bytes) {
    exists i :: 0 <= i < |h| && Asked(net, nodes, self, h[i], k) == Some(v) &&
                forall j | 0 <= j < i :: Asked(net, nodes, self, h[j], k) == None
  }

  /** The reply is the first answer there is, and none only if there is no answer. */
  ghost predicate Answers(net: Net, nodes: Nodes, self: Id, k: Key, h: seq<Id>, r: Reply) {
    if r.Found? then FirstAnswer(net, nodes, self, k, h, r.v) else NoAnswer(net, nodes, self, k, h)
  }

  ghost predicate NoAnswer(net: Net, nodes: Nodes, self: Id, k: Key, h: seq<Id>) {
    forall j | 0 <= j < |h| :: Asked(net, nodes, self, h[j], k) == None
  }

  // ---- reading what was written -----------------------------------------------------------

  /** The value is still alive on a node whose clock shows now. */
  predicate StillAlive(start: int, ttlMs: int, now: int) {
    ttlMs <= 0 || now <= start + ttlMs * MILLI
  }

  lemma WrittenIsRead(env: Env, start: int, k: Key, data: bytes, ttlMs: int, m: Flat, m': Flat, later: Flat, now: int)
    requires Written(env, k, data, ttlMs, m, m') && (forall i: nat :: start <= env.now(i))
    requires Lookup(later, k) == Lookup(m', k) && StillAlive(start, ttlMs, now)
    ensures Read(later, k, now) == Some(data)
  {
    var i: nat :| m' == m[k := Value(data, ExpireFromTTL(ttlMs, env.now(i)))];
    assert Lookup(later, k) == Some(Value(data, ExpireFromTTL(ttlMs, env.now(i))));
  }

  /** The holders that stay come first, in their old order, among the holders after others have left. */
  lemma StayingHoldersLead(l: Layout, keep: Id -> bool, p: nat)
    ensures Filter(keep, l.Holders(p)) <= l.Keeping(keep).Holders(p)
  {
    hide Sort, Filter;
    RankingAfterLeave(l, keep, p);
    var r, h := l.Ranking(p), l.Holders(p);
    var rest := r[|h|..];
    assert r == h + rest;
    FilterConcat(keep, h, rest);
    FilterMembers(keep, h);
    var after := l.Keeping(keep).Ranking(p);
    assert after == Filter(keep, h) + Filter(keep, rest);
    assert |Filter(keep, h)| <= l.backups + 1;
  }

  /** If the leading holders that answer all say v, and one answers, then v is what a reader gets. */
  lemma LeadersDecide(net: Net, nodes: Nodes, self: Id, k: Key, lead: seq<Id>, h: seq<Id>, v: bytes, i: nat)
    requires lead <= h && i < |lead| && Asked(net, nodes, self, lead[i], k) == Some(v)
    requires forall j | 0 <= j < |lead| :: Asked(net, nodes, self, lead[j], k) in {None, Some(v)}
    ensures forall r | Answers(net, nodes, self, k, h, r) :: r == Found(v)
  {
    hide Asked;
    assert h[i] == lead[i];
    forall w | FirstAnswer(net, nodes, self, k, h, w) ensures w == v {
      var a :| 0 <= a < |h| && Asked(net, nodes, self, h[a], k) == Some(w) &&
               forall j | 0 <= j < a :: Asked(net, nodes, self, h[j], k) == None;
      assert a <= i;
      assert h[a] == lead[a];
    }
  }

  /**
   * Failure tolerance. Whichever members have been removed from the table, and whichever nodes do not
   * answer: as long as each original holder that is still a member has the value, and one of them
   * answers, every node reads it. Any reply Get may give is that value.
   */
  lemma ReadSurvivesFailures(l: Layout, keep: Id -> bool, f: PartitionFn, nodes: Nodes, k: Key, data: bytes,
                             net: Net, self: Id, survivor: Id)
    requires forall n | n in l.Holders(f(k.key)) && keep(n) ::
               n in nodes && Read(nodes[n], k, net.at(n)) == Some(data)
    requires survivor in l.Holders(f(k.key)) && keep(survivor) && (survivor == self || Up(net, nodes, survivor))
    ensures forall r | Answers(net, nodes, self, k, l.Keeping(keep).Holders(f(k.key)), r) :: r == Found(data)
  {
    hide Sort, Filter, Read, Up, FirstAnswer, NoAnswer, Answers;
    var p := f(k.key);
    var lead := Filter(keep, l.Holders(p));
    FilterMembers(keep, l.Holders(p));
    StayingHoldersLead(l, keep, p);
    assert survivor in lead;
    var i :| 0 <= i < |lead| && lead[i] == survivor;
    forall j | 0 <= j < |lead| ensures Asked(net, nodes, self, lead[j], k) in {None, Some(data)} {
      assert lead[j] in lead;
    }
    LeadersDecide(net, nodes, self, k, lead, l.Keeping(keep).Holders(p), data, i);
  }

  /**
   * So does a write that reached every holder, as long as it has not expired and those of them that
   * are still members have not received another since.
   */
  lemma WriteSurvivesFailures(l: Layout, keep: Id -> bool, f: PartitionFn, env: Env, start: int,
                              a: Nodes, b: Nodes, nodes: Nodes, k: Key, data: bytes, ttlMs: int,
                              net: Net, self: Id, survivor: Id)
    requires EveryHolderHas(env, k, data, ttlMs, l.Holders(f(k.key)), a, b) && forall i: nat :: start <= env.now(i)
    requires forall n | n in l.Holders(f(k.key)) && keep(n) ::
               n in nodes && Lookup(nodes[n], k) == Lookup(b[n], k) && StillAlive(start, ttlMs, net.at(n))
    requires survivor in l.Holders(f(k.key)) && keep(survivor) && (survivor == self || Up(net, nodes, survivor))
    ensures forall r | Answers(net, nodes, self, k, l.Keeping(keep).Holders(f(k.key)), r) :: r == Found(data)
  {
    hide Sort, Filter, Written, StillAlive, Read, Up, Answers;
    forall n | n in l.Holders(f(k.key)) && keep(n) ensures Read(nodes[n], k, net.at(n)) == Some(data) {
      WrittenIsRead(env, start, k, data, ttlMs, a[n], b[n], nodes[n], net.at(n));
    }
    ReadSurvivesFailures(l, keep, f, nodes, k, data, net, self, survivor);
  }

  /**
   * End to end: a Put with every holder reachable, then a Get by any node, under a table from which
   * any members have been removed, with any nodes silent but one of the value's holders.
   */
  method PutThenGet(c: Config, env: Env, nodes0: Nodes, writer: Id, k: Key, data: bytes, ttlMs: int,
                    keep: Id -> bool, net: Net, reader: Id, ghost start: int, ghost survivor: Id)
    returns (r: Reply)
    requires writer in nodes0 && reader in nodes0 && !IsReserved(k.name) && [] !in c.layout.ids
    requires AllReachable(env, c.Holders(c.f(k.key)), writer, nodes0) && forall i: nat :: start <= env.now(i)
    requires forall n | n in c.Holders(c.f(k.key)) && keep(n) :: StillAlive(start, ttlMs, net.at(n))
    requires survivor in c.Holders(c.f(k.key)) && keep(survivor) && (survivor == reader || Up(net, nodes0, survivor))
    ensures r == Found(data)
  {
    hide Sort, Filter, Written, StillAlive, Reachable, Answers, EveryHolderHas;
    var ok, nodes := Put(c, env, nodes0, writer, k, data, ttlMs);
    FilterMembers(keep, c.layout.ids);
    r := Get(c.layout.Keeping(keep), c.f, net, nodes, reader, k);
    WriteSurvivesFailures(c.layout, keep, c.f, env, start, nodes0, nodes, nodes, k, data, ttlMs, net, reader, survivor);
  }
}
