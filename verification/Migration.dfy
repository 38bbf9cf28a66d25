/**
 * Handing data to the holders of a new partition table. Nodes run their passes independently:
 * a step is one snapshot, one push or one drop of one node, in any interleaving, and any push
 * may be lost, or arrive with its reply lost.
 */
module Migration {
  import opened Bytes
  import opened Entries
  import opened Sorting
  import opened PartitionTable
  import opened Transfer

  const MILLI: int := 1_000_000

  /** Go's integer division, which truncates toward zero. */
  function TruncDiv(a: int, b: int): int
    requires b > 0
  {
    if a >= 0 then a / b else -((-a) / b)
  }

  function RemainingTTLms(expireAt: int, now: int): int {
    if expireAt == 0 then 0 else TruncDiv(expireAt - now, MILLI)
  }

  function ExpireFromTTL(ttlMs: int, now: int): int {
    if ttlMs <= 0 then 0 else now + ttlMs * MILLI
  }

  /** The entry lapses before it could be delivered, so it is not sent. */
  predicate LapsesInFlight(v: Value, now: int) {
    v.expireAt != 0 && RemainingTTLms(v.expireAt, now) <= 0
  }

  /** What the receiver stores: its own expiry, from the lifetime left at the sender. */
  function Arrived(v: Value, sentAt: int, now: int): Value {
    Value(v.data, ExpireFromTTL(RemainingTTLms(v.expireAt, sentAt), now))
  }

  type Nodes = map<Id, Flat>

  /** One table that every node uses. */
  datatype Config = Config(f: PartitionFn, layout: Layout) {
    function Holders(p: nat): seq<Id> { layout.Holders(p) }

    ghost predicate Sound() {
      Distinct(layout.ids) && [] !in layout.ids
    }
  }

  // ---- whom a node pushes to --------------------------------------------------------------

  /** The owner and then the backups, leaving out the node itself. */
  function Targets(l: Layout, self: Id, p: nat): seq<Id> {
    (if l.OwnerOf(p) != [] && l.OwnerOf(p) != self then [l.OwnerOf(p)] else []) +
    BackupTargets(l, self, p, l.NumBackups(p))
  }

  function BackupTargets(l: Layout, self: Id, p: nat, n: nat): seq<Id> {
    if n == 0 then []
    else
      var b := l.BackupAt(p, n - 1);
      BackupTargets(l, self, p, n - 1) + if b.Some? && b.value != self then [b.value] else []
  }

  predicate SelfHolds(l: Layout, self: Id, p: nat) {
    l.OwnerOf(p) == self || SelfBacksUp(l, self, p, l.NumBackups(p))
  }

  predicate SelfBacksUp(l: Layout, self: Id, p: nat, n: nat) {
    n > 0 && (l.BackupAt(p, n - 1) == Some(self) || SelfBacksUp(l, self, p, n - 1))
  }

  lemma {:induction false} BackupTargetsAre(l: Layout, self: Id, p: nat, n: nat)
    requires l.Holders(p) != [] && n <= l.NumBackups(p)
    ensures forall x :: x in BackupTargets(l, self, p, n) <==> x != self && x in l.Holders(p)[1..][..n]
    ensures SelfBacksUp(l, self, p, n) <==> self in l.Holders(p)[1..][..n]
  {
    hide Sort;
    if n > 0 {
      BackupTargetsAre(l, self, p, n - 1);
      var t := l.Holders(p)[1..];
      assert t[..n] == t[..n - 1] + [t[n - 1]];
    }
  }

  /** A node pushes to exactly the other holders, and knows whether it is one. */
  lemma TargetsAreHolders(c: Config, self: Id, p: nat)
    requires c.Sound() && self != []
    ensures forall x :: x in Targets(c.layout, self, p) <==> x != self && x in c.Holders(p)
    ensures SelfHolds(c.layout, self, p) <==> self in c.Holders(p)
  {
    hide Sort, BackupTargets, SelfBacksUp;
    var l := c.layout;
    var h := l.Holders(p);
    HoldersDistinct(l, p);
    if h != [] {
      BackupTargetsAre(l, self, p, l.NumBackups(p));
      assert h[1..][..|h| - 1] == h[1..];
      assert h == [h[0]] + h[1..];
      assert h[0] in h;
    } else {
      NoBackupTargets(l, self, p);
    }
  }

  lemma NoBackupTargets(l: Layout, self: Id, p: nat)
    ensures BackupTargets(l, self, p, 0) == [] && !SelfBacksUp(l, self, p, 0)
  {
  }

  // ---- the step machine -------------------------------------------------------------------

  datatype Push = Push(target: Id, e: Entry)

  /** Every entry to the first target, then every entry to the next. */
  function Pushes(targets: seq<Id>, es: seq<Entry>): seq<Push> {
    if targets == [] then [] else Pushes(targets[..|targets| - 1], es) + PushesTo(targets[|targets| - 1], es)
  }

  function PushesTo(t: Id, es: seq<Entry>): seq<Push> {
    seq(|es|, i requires 0 <= i < |es| => Push(t, es[i]))
  }

  datatype Work =
    | Idle
    | Pushing(p: nat, es: seq<Entry>, sent: seq<Push>, todo: seq<Push>, ok: bool)

  /** done lists the (node, partition) pairs that some pass completed without a failure. */
  datatype State = State(nodes: Nodes, work: map<Id, Work>, done: set<(Id, nat)>)

  datatype Outcome = Delivered | LostRequest | LostReply | NoAddress

  datatype Step =
    | Snapshot(n: Id, p: nat, listing: seq<Entry>, now: int)
    | Send(n: Id, sentAt: int, now: int, outcome: Outcome)
    | Finish(n: Id)

  /** The effect of one push on the receiver. */
  function PushEffect(nodes: Nodes, push: Push, sentAt: int, now: int, o: Outcome): Nodes {
    if LapsesInFlight(push.e.v, sentAt) || !(o.Delivered? || o.LostReply?) || push.target !in nodes then nodes
    else nodes[push.target := nodes[push.target][push.e.k := Arrived(push.e.v, sentAt, now)]]
  }

  /** Whether the pass still counts every push as successful. */
  function StillOk(ok: bool, push: Push, sentAt: int, o: Outcome): bool {
    ok && !o.NoAddress? && (LapsesInFlight(push.e.v, sentAt) || o.Delivered?)
  }

  /** dropMigrated on one node: the captured entries that are stored unchanged. */
  function DropFrom(m: Flat, es: seq<Entry>): Flat {
    map k | k in m && Entry(k, m[k]) !in es :: m[k]
  }

  ghost predicate Next(c: Config, s: State, step: Step, s': State) {
    match step
    case Snapshot(n, p, listing, now) =>
      && n in s.nodes && n in s.work && s.work[n].Idle? && p < PARTITIONS
      && Enumerates(listing, Live(ShardOf(c.f, s.nodes[n], p), now))
      && (if listing == [] then s' == s.(done := s.done + {(n, p)})
          else s' == s.(work := s.work[n := Pushing(p, MetaLast(listing), [],
                                                    Pushes(Targets(c.layout, n, p), MetaLast(listing)), true)]))
    case Send(n, sentAt, now, o) =>
      && n in s.nodes && n in s.work && s.work[n].Pushing? && s.work[n].todo != []
      && var w := s.work[n];
         var push := w.todo[0];
         s' == s.(nodes := PushEffect(s.nodes, push, sentAt, now, o),
                  work := s.work[n := Pushing(w.p, w.es, w.sent + [push], w.todo[1..], StillOk(w.ok, push, sentAt, o))])
    case Finish(n) =>
      && n in s.nodes && n in s.work && s.work[n].Pushing? && s.work[n].todo == []
      && var w := s.work[n];
         s' == State(if !SelfHolds(c.layout, n, w.p) && w.ok then s.nodes[n := DropFrom(s.nodes[n], w.es)] else s.nodes,
                     s.work[n := Idle],
                     if w.ok then s.done + {(n, w.p)} else s.done)
  }

  ghost predicate IsRun(c: Config, run: seq<State>, steps: seq<Step>) {
    && |run| == |steps| + 1
    && forall i | 0 <= i < |steps| :: Next(c, run[i], steps[i], run[i + 1])
  }

  /** All members are nodes, and no pass is under way. */
  ghost predicate Quiet(c: Config, s: State) {
    && (forall id | id in c.layout.ids :: id in s.nodes)
    && s.work.Keys == s.nodes.Keys && [] !in s.nodes && s.done == {}
    && forall n | n in s.work :: s.work[n].Idle?
  }

  // ---- what every step keeps --------------------------------------------------------------

  predicate Has(s: State, n: Id, k: Key) {
    n in s.nodes && k in s.nodes[n]
  }

  /** A pass in flight is about one partition, and what it has sent and will send are its pushes. */
  ghost predicate WorkOk(c: Config, n: Id, w: Work) {
    w.Pushing? ==>
      && w.p < PARTITIONS
      && (forall i | 0 <= i < |w.es| :: Routed(c.f, w.es[i].k) == w.p)
      && w.sent + w.todo == Pushes(Targets(c.layout, n, w.p), w.es)
  }

  ghost predicate Shape(c: Config, s: State) {
    && c.Sound() && (forall id | id in c.layout.ids :: id in s.nodes)
    && [] !in s.nodes && s.work.Keys == s.nodes.Keys
    && forall n | n in s.work :: WorkOk(c, n, s.work[n])
  }

  /** Every copy of k, stored or captured by a pass, satisfies ok. */
  ghost predicate EveryCopy(s: State, k: Key, ok: Value -> bool) {
    && (forall n | Has(s, n, k) :: ok(s.nodes[n][k]))
    && (forall n, i | n in s.work && s.work[n].Pushing? && 0 <= i < |s.work[n].es| && s.work[n].es[i].k == k ::
          ok(s.work[n].es[i].v))
  }

  /** While a pass counts as successful, what it sent has arrived and is still there. */
  ghost predicate Landed(s: State, k: Key) {
    forall n, i | n in s.work && s.work[n].Pushing? && s.work[n].ok && 0 <= i < |s.work[n].sent| &&
                  s.work[n].sent[i].e.k == k ::
      Has(s, s.work[n].sent[i].target, k)
  }

  lemma {:induction false} PushMembers(ts: seq<Id>, es: seq<Entry>, push: Push)
    ensures push in Pushes(ts, es) <==> push.target in ts && push.e in es
  {
    if ts != [] {
      var n := |ts| - 1;
      PushMembers(ts[..n], es, push);
      assert ts == ts[..n] + [ts[n]];
      if push.target == ts[n] && push.e in es {
        var i :| 0 <= i < |es| && es[i] == push.e;
        assert PushesTo(ts[n], es)[i] == push;
      }
    }
  }

  /** A pass sends entries of its partition, to holders of that partition other than its node. */
  lemma SentToHolders(c: Config, n: Id, w: Work, push: Push)
    requires c.Sound() && n != [] && w.Pushing? && WorkOk(c, n, w)
    requires push in w.sent || push in w.todo
    ensures push.e in w.es && Routed(c.f, push.e.k) == w.p
    ensures push.target != n && push.target in c.Holders(w.p) && push.target in c.layout.ids
  {
    hide Sort, Pushes, Targets;
    assert push in w.sent + w.todo;
    PushMembers(Targets(c.layout, n, w.p), w.es, push);
    TargetsAreHolders(c, n, w.p);
    HoldersDistinct(c.layout, w.p);
  }

  /** A holder of k's partition never loses k. */
  lemma HolderKeeps(c: Config, s: State, step: Step, s': State, t: Id, k: Key)
    requires Shape(c, s) && Next(c, s, step, s')
    requires t in c.Holders(Routed(c.f, k)) && Has(s, t, k)
    ensures Has(s', t, k)
  {
    hide Sort, Pushes, Targets;
    if step.Finish? && step.n == t {
      var w := s.work[t];
      TargetsAreHolders(c, t, w.p);
      assert WorkOk(c, t, w);
    }
  }

  /** Only a drop takes keys away, and only a push to a holder brings one. */
  lemma KeyMoves(c: Config, s: State, step: Step, s': State, n: Id, k: Key)
    requires Shape(c, s) && Next(c, s, step, s') && Has(s', n, k) && !Has(s, n, k)
    ensures step.Send? && n in c.Holders(Routed(c.f, k))
    ensures exists m :: Has(s, m, k) || InFlight(s, m, k)
  {
    hide Sort, Pushes, Targets;
    if step.Send? {
      var w := s.work[step.n];
      assert WorkOk(c, step.n, w);
      SentToHolders(c, step.n, w, w.todo[0]);
      var i :| 0 <= i < |w.es| && w.es[i] == w.todo[0].e;
      assert InFlight(s, step.n, k);
    }
  }

  ghost predicate InFlight(s: State, n: Id, k: Key) {
    n in s.work && s.work[n].Pushing? && exists i :: 0 <= i < |s.work[n].es| && s.work[n].es[i].k == k
  }

  lemma ShapeStep(c: Config, s: State, step: Step, s': State)
    requires Shape(c, s) && Next(c, s, step, s')
    ensures Shape(c, s')
  {
    hide Sort, Pushes, Targets, MetaLast, Arrived, LapsesInFlight, StillOk, DropFrom, SelfHolds;
    if step.Snapshot? && step.listing != [] {
      var es := MetaLast(step.listing);
      var m := Live(ShardOf(c.f, s.nodes[step.n], step.p), step.now);
      MetaLastListsSame(step.listing, m);
      forall i | 0 <= i < |es| ensures Routed(c.f, es[i].k) == step.p { assert es[i].k in m; }
      var all := Pushes(Targets(c.layout, step.n, step.p), es);
      assert [] + all == all;
    } else if step.Send? {
      var w := s.work[step.n];
      assert w.sent + w.todo == (w.sent + [w.todo[0]]) + w.todo[1..];
    }
  }

  /** The step is a push of k, wherever to. */
  predicate SendsKey(s: State, step: Step, k: Key) {
    && step.Send? && step.n in s.work && s.work[step.n].Pushing? && s.work[step.n].todo != []
    && s.work[step.n].todo[0].e.k == k
  }

  /** Copies of k with property ok have property ok' after the step, the one it may make included. */
  ghost predicate CarriesOver(s: State, step: Step, k: Key, ok: Value -> bool, ok': Value -> bool) {
    && (forall v | ok(v) :: ok'(v))
    && (SendsKey(s, step, k) ==>
          forall v | ok(v) && !LapsesInFlight(v, step.sentAt) :: ok'(Arrived(v, step.sentAt, step.now)))
  }

  lemma EveryCopyStep(c: Config, s: State, step: Step, s': State, k: Key, ok: Value -> bool, ok': Value -> bool)
    requires Shape(c, s) && Next(c, s, step, s') && EveryCopy(s, k, ok) && CarriesOver(s, step, k, ok, ok')
    ensures EveryCopy(s', k, ok')
  {
    hide Sort, Pushes, Targets, MetaLast, Arrived, LapsesInFlight;
    match step {
      case Snapshot(n, p, listing, now) =>
        if listing != [] {
          var m := Live(ShardOf(c.f, s.nodes[n], p), now);
          MetaLastListsSame(listing, m);
          var es := MetaLast(listing);
          forall i | 0 <= i < |es| && es[i].k == k ensures ok(es[i].v) {
            assert m[k] == es[i].v && Has(s, n, k);
          }
        }
      case Send(n, sentAt, now, o) =>
        var w := s.work[n];
        SentToHolders(c, n, w, w.todo[0]);
        if w.todo[0].e.k == k {
          var i :| 0 <= i < |w.es| && w.es[i] == w.todo[0].e;
          assert ok(w.es[i].v);
        }
      case Finish(n) =>
    }
  }

  /** The step passes over k because it would lapse before it could arrive. */
  predicate Skips(s: State, step: Step, k: Key) {
    SendsKey(s, step, k) && LapsesInFlight(s.work[step.n].todo[0].e.v, step.sentAt)
  }

  lemma LandedStep(c: Config, s: State, step: Step, s': State, k: Key)
    requires Shape(c, s) && Next(c, s, step, s') && !Skips(s, step, k) && Landed(s, k)
    ensures Landed(s', k)
  {
    hide Sort, Pushes, Targets, Next, Shape, Skips;
    forall n, i | n in s'.work && s'.work[n].Pushing? && s'.work[n].ok && 0 <= i < |s'.work[n].sent| &&
                  s'.work[n].sent[i].e.k == k
      ensures Has(s', s'.work[n].sent[i].target, k)
    {
      if step.Send? && step.n == n && i == |s'.work[n].sent| - 1 {
        SendLands(c, s, step, s', k);
      } else {
        SentBefore(c, s, step, s', n, i);
        LandedOne(s, n, i, k);
        HolderKeeps(c, s, step, s', s'.work[n].sent[i].target, k);
      }
    }
  }

  /** The push just made, when the pass still counts as successful, is at its target. */
  lemma SendLands(c: Config, s: State, step: Step, s': State, k: Key)
    requires Shape(c, s) && Next(c, s, step, s') && step.Send? && !Skips(s, step, k)
    requires s'.work[step.n].Pushing? && s'.work[step.n].ok && s'.work[step.n].sent != []
    requires s'.work[step.n].sent[|s'.work[step.n].sent| - 1].e.k == k
    ensures Has(s', s'.work[step.n].sent[|s'.work[step.n].sent| - 1].target, k)
  {
    hide Sort, Pushes, Targets, Arrived, LapsesInFlight;
    var w := s.work[step.n];
    SentToHolders(c, step.n, w, w.todo[0]);
  }

  /** Any other sent push was there before, and went to a holder. */
  lemma SentBefore(c: Config, s: State, step: Step, s': State, n: Id, i: nat)
    requires Shape(c, s) && Next(c, s, step, s') && n in s'.work && s'.work[n].Pushing? && s'.work[n].ok
    requires i < |s'.work[n].sent| && !(step.Send? && step.n == n && i == |s'.work[n].sent| - 1)
    ensures n in s.work && s.work[n].Pushing? && s.work[n].ok && i < |s.work[n].sent|
    ensures s.work[n].sent[i] == s'.work[n].sent[i]
    ensures s'.work[n].sent[i].target in c.Holders(Routed(c.f, s'.work[n].sent[i].e.k))
  {
    hide Sort, Pushes, Targets, Arrived, MetaLast;
    SentToHolders(c, n, s.work[n], s.work[n].sent[i]);
  }

  /** When a pass that sent k to everyone drops it, every holder has it. */
  lemma DroppedIsHeld(c: Config, s: State, n: Id, k: Key)
    requires Shape(c, s) && Landed(s, k)
    requires n in s.work && s.work[n].Pushing? && s.work[n].todo == [] && s.work[n].ok && InFlight(s, n, k)
    ensures s.work[n].p == Routed(c.f, k)
    ensures forall t | t in c.Holders(Routed(c.f, k)) && t != n :: Has(s, t, k)
  {
    hide Sort, Pushes, Targets, Landed;
    var w := s.work[n];
    assert WorkOk(c, n, w);
    var j :| 0 <= j < |w.es| && w.es[j].k == k;
    TargetsAreHolders(c, n, w.p);
    forall t | t in c.Holders(w.p) && t != n ensures Has(s, t, k) {
      var push := Push(t, w.es[j]);
      PushMembers(Targets(c.layout, n, w.p), w.es, push);
      assert w.sent + w.todo == w.sent;
      assert push in w.sent;
      var i :| 0 <= i < |w.sent| && w.sent[i] == push;
      LandedOne(s, n, i, k);
    }
  }

  lemma LandedOne(s: State, n: Id, i: nat, k: Key)
    requires Landed(s, k) && n in s.work && s.work[n].Pushing? && s.work[n].ok && i < |s.work[n].sent|
    requires s.work[n].sent[i].e.k == k
    ensures Has(s, s.work[n].sent[i].target, k)
  {
  }

  // ---- safety -----------------------------------------------------------------------------

  ghost predicate Safe(c: Config, s: State, k: Key) {
    Shape(c, s) && Landed(s, k)
  }

  ghost predicate Somewhere(s: State, k: Key) {
    exists n :: Has(s, n, k)
  }

  lemma SafeStep(c: Config, s: State, step: Step, s': State, k: Key)
    requires c.Sound() && c.layout.ids != [] && Safe(c, s, k) && Next(c, s, step, s') && !Skips(s, step, k)
    ensures Safe(c, s', k) && (Somewhere(s, k) ==> Somewhere(s', k))
  {
    hide Sort, Pushes, Targets, MetaLast, Arrived, Landed, Shape, Next, Skips;
    ShapeStep(c, s, step, s');
    LandedStep(c, s, step, s', k);
    if n :| Has(s, n, k) {
      if !Has(s', n, k) {
        LostOnlyByDrop(c, s, step, s', n, k);
        DroppedIsHeld(c, s, n, k);
        var t := SomeHolder(c, n, Routed(c.f, k));
        LostOnlyHere(c, s, step, s', n, t, k);
      }
    }
  }

  lemma LostOnlyByDrop(c: Config, s: State, step: Step, s': State, n: Id, k: Key)
    requires Shape(c, s) && Next(c, s, step, s') && Has(s, n, k) && !Has(s', n, k)
    ensures step == Finish(n) && n in s.work && s.work[n].Pushing? && s.work[n].todo == [] && s.work[n].ok
    ensures InFlight(s, n, k) && n !in c.Holders(Routed(c.f, k))
  {
    hide Sort, Pushes, Targets, MetaLast, Arrived;
    var w := s.work[n];
    assert Entry(k, s.nodes[n][k]) in w.es;
    var i :| 0 <= i < |w.es| && w.es[i] == Entry(k, s.nodes[n][k]);
    assert WorkOk(c, n, w) && w.es[i].k == k;
    TargetsAreHolders(c, n, w.p);
  }

  lemma LostOnlyHere(c: Config, s: State, step: Step, s': State, n: Id, t: Id, k: Key)
    requires Next(c, s, step, s') && step == Finish(n) && t != n && Has(s, t, k)
    ensures Has(s', t, k)
  {
  }

  /** A non-empty table has a holder, and a node that is not one is not it. */
  lemma SomeHolder(c: Config, n: Id, p: nat) returns (t: Id)
    requires c.Sound() && c.layout.ids != [] && n !in c.Holders(p)
    ensures t in c.Holders(p) && t != n
  {
    hide Sort;
    HoldersDistinct(c.layout, p);
    t := c.Holders(p)[0];
  }

  /**
   * No key's last copy is ever dropped: over every interleaving of passes with any failures, a key
   * that is somewhere at the start and that no push passes over is somewhere at the end.
   */
  lemma {:induction false} NoLastCopyDropped(c: Config, run: seq<State>, steps: seq<Step>, k: Key)
    requires c.Sound() && c.layout.ids != [] && IsRun(c, run, steps) && Quiet(c, run[0]) && Somewhere(run[0], k)
    requires forall i | 0 <= i < |steps| :: !Skips(run[i], steps[i], k)
    ensures Safe(c, run[|steps|], k) && Somewhere(run[|steps|], k)
    decreases |steps|
  {
    hide Sort, Pushes, Targets, Next, Shape, Landed, Skips;
    if steps == [] {
      QuietIsSafe(c, run[0], k);
    } else {
      var n := |steps| - 1;
      NoLastCopyDropped(c, run[..n + 1], steps[..n], k);
      SafeStep(c, run[n], steps[n], run[n + 1], k);
    }
  }

  lemma QuietIsSafe(c: Config, s: State, k: Key)
    requires c.Sound() && Quiet(c, s)
    ensures Safe(c, s, k)
  {
  }

  // ---- where the promise ends -------------------------------------------------------------

  /** The states a pass of node n goes through when it has no targets. */
  function Captured(s: State, n: Id, p: nat, es: seq<Entry>): State {
    s.(work := s.work[n := Pushing(p, es, [], [], true)])
  }

  function DroppedAll(s: State, n: Id, p: nat, es: seq<Entry>): State
    requires n in s.nodes
  {
    State(s.nodes[n := DropFrom(s.nodes[n], es)], s.work[n := Idle], s.done + {(n, p)})
  }

  /** Over a table with no members a pass has no targets, and drops what it holds all the same. */
  lemma EmptyTableDropsLastCopy(c: Config, s: State, n: Id, k: Key, listing: seq<Entry>, now: int)
    requires c.layout.ids == [] && Quiet(c, s) && n in s.nodes && k in s.nodes[n] && s.nodes[n][k].expireAt == 0
    requires forall m | Has(s, m, k) :: m == n
    requires Enumerates(listing, Live(ShardOf(c.f, s.nodes[n], Routed(c.f, k)), now))
    ensures var p := Routed(c.f, k);
            var s1 := Captured(s, n, p, MetaLast(listing));
            var s2 := DroppedAll(s, n, p, MetaLast(listing));
            && Next(c, s, Snapshot(n, p, listing, now), s1) && Next(c, s1, Finish(n), s2)
            && Somewhere(s, k) && !Somewhere(s2, k)
  {
    hide MetaLast, Pushes, Targets, SelfHolds, Routed, Enumerates, Next, DropFrom;
    var p := Routed(c.f, k);
    EmptyPassDrops(c, s, n, k, listing, now);
    EmptyPass(c, s, n, p, listing, now);
    var s2 := DroppedAll(s, n, p, MetaLast(listing));
    assert Has(s, n, k);
    assert forall m | m != n :: Has(s2, m, k) ==> Has(s, m, k);
  }

  lemma EmptyPass(c: Config, s: State, n: Id, p: nat, listing: seq<Entry>, now: int)
    requires c.layout.ids == [] && Quiet(c, s) && n in s.nodes && p < PARTITIONS && listing != []
    requires Enumerates(listing, Live(ShardOf(c.f, s.nodes[n], p), now))
    ensures var s1 := Captured(s, n, p, MetaLast(listing));
            && Next(c, s, Snapshot(n, p, listing, now), s1)
            && Next(c, s1, Finish(n), DroppedAll(s, n, p, MetaLast(listing)))
  {
    hide MetaLast, Pushes, Targets, SelfHolds, Enumerates, DropFrom;
    NoTargets(c.layout, n, p);
    var s1 := Captured(s, n, p, MetaLast(listing));
    assert s1.work[n := Idle] == s.work[n := Idle];
  }

  lemma EmptyPassDrops(c: Config, s: State, n: Id, k: Key, listing: seq<Entry>, now: int)
    requires n in s.nodes && k in s.nodes[n] && s.nodes[n][k].expireAt == 0
    requires Enumerates(listing, Live(ShardOf(c.f, s.nodes[n], Routed(c.f, k)), now))
    ensures listing != [] && k !in DropFrom(s.nodes[n], MetaLast(listing))
  {
    hide MetaLast;
    var m := Live(ShardOf(c.f, s.nodes[n], Routed(c.f, k)), now);
    MetaLastListsSame(listing, m);
    assert Entry(k, m[k]) in listing && Entry(k, m[k]) in MetaLast(listing);
  }

  lemma NoTargets(l: Layout, n: Id, p: nat)
    requires l.ids == [] && n != []
    ensures Targets(l, n, p) == [] && Pushes([], []) == [] && !SelfHolds(l, n, p)
    ensures forall es :: Pushes(Targets(l, n, p), es) == []
  {
  }

  /** An entry is left out of a push, yet dropped with the rest, in the last millisecond of its life. */
  lemma LapsesInFlightIff(v: Value, now: int)
    ensures LapsesInFlight(v, now) <==> v.expireAt != 0 && v.expireAt - now < MILLI
  {
  }

  /** A replica made from a lifetime below one millisecond never expires; otherwise it keeps within it. */
  lemma ReplicaNeverExpiresIff(v: Value, sentAt: int, now: int)
    requires now > 0
    ensures Arrived(v, sentAt, now).expireAt == 0 <==> v.expireAt == 0 || v.expireAt - sentAt < MILLI
    ensures v.expireAt - sentAt >= MILLI && v.expireAt != 0 ==>
              v.expireAt - sentAt - MILLI < Arrived(v, sentAt, now).expireAt - now <= v.expireAt - sentAt
  {
    if v.expireAt - sentAt >= MILLI {
      var d := v.expireAt - sentAt;
      assert d / MILLI >= 1 && d - MILLI < (d / MILLI) * MILLI <= d;
    }
  }
}
