/** What a rebalance arrives at: every holder of a partition has its keys, and nobody else does. */
module Rebalance {
  import opened Bytes
  import opened Entries
  import opened Sorting
  import opened PartitionTable
  import opened Transfer
  import opened Migration
  import opened Lifetimes

  /** Values that ok describes are alive when the step lists k's partition or pushes k. */
  ghost predicate Alive(c: Config, s: State, step: Step, k: Key, ok: Value -> bool) {
    && (step.Snapshot? && step.p == Routed(c.f, k) ==> forall v | ok(v) :: !Expired(v, step.now))
    && (SendsKey(s, step, k) ==> forall v | ok(v) :: !LapsesInFlight(v, step.sentAt))
  }

  lemma AliveNotSkipped(c: Config, s: State, step: Step, k: Key, ok: Value -> bool)
    requires Shape(c, s) && EveryCopy(s, k, ok) && Alive(c, s, step, k, ok)
    ensures !Skips(s, step, k)
  {
    hide Sort, Pushes, Targets, LapsesInFlight;
    if SendsKey(s, step, k) {
      var w := s.work[step.n];
      SentToHolders(c, step.n, w, w.todo[0]);
      var i :| 0 <= i < |w.es| && w.es[i] == w.todo[0].e;
      assert ok(w.es[i].v);
    }
  }

  // ---- a node that is no holder drops exactly what it captured ------------------------------

  ghost predicate Faithful(c: Config, s: State, k: Key) {
    forall n, i | n in s.work && s.work[n].Pushing? && 0 <= i < |s.work[n].es| && s.work[n].es[i].k == k &&
                  Has(s, n, k) && n !in c.Holders(Routed(c.f, k)) ::
      s.work[n].es[i].v == s.nodes[n][k]
  }

  lemma FaithfulStep(c: Config, s: State, step: Step, s': State, k: Key)
    requires Shape(c, s) && Next(c, s, step, s') && Faithful(c, s, k)
    ensures Faithful(c, s', k)
  {
    hide Sort, Pushes, Targets, MetaLast, Arrived, LapsesInFlight, Shape;
    forall n, i | n in s'.work && s'.work[n].Pushing? && 0 <= i < |s'.work[n].es| && s'.work[n].es[i].k == k &&
                  Has(s', n, k) && n !in c.Holders(Routed(c.f, k))
      ensures s'.work[n].es[i].v == s'.nodes[n][k]
    {
      OutsiderKeeps(c, s, step, s', n, k);
      if step.Snapshot? && step.n == n {
        var m := Live(ShardOf(c.f, s.nodes[n], step.p), step.now);
        MetaLastListsSame(step.listing, m);
        assert MetaLast(step.listing)[i].k in m;
      } else {
        assert s.work[n].Pushing? && s.work[n].es == s'.work[n].es;
      }
    }
  }

  /** What a node that is no holder has of k was there before, unchanged. */
  lemma OutsiderKeeps(c: Config, s: State, step: Step, s': State, n: Id, k: Key)
    requires Shape(c, s) && Next(c, s, step, s') && Has(s', n, k) && n !in c.Holders(Routed(c.f, k))
    ensures Has(s, n, k) && s.nodes[n][k] == s'.nodes[n][k]
  {
    hide Sort, Pushes, Targets, MetaLast, Arrived, LapsesInFlight;
    if step.Send? {
      var w := s.work[step.n];
      SentToHolders(c, step.n, w, w.todo[0]);
    }
  }

  ghost predicate AllHold(c: Config, s: State, k: Key) {
    forall t | t in c.Holders(Routed(c.f, k)) :: Has(s, t, k)
  }

  /** Where k has got to; had are the nodes that had it at the start. */
  ghost predicate Progress(c: Config, s: State, k: Key, had: set<Id>) {
    var p := Routed(c.f, k);
    && (forall n | n in had :: Has(s, n, k) || AllHold(c, s, k))
    && (forall n | Has(s, n, k) :: n in had || n in c.Holders(p))
    && (forall n | Has(s, n, k) || InFlight(s, n, k) :: had != {})
    && (forall n | (n, p) in s.done :: Settled(c, s, k, had, n))
    && (forall n | n in s.work && s.work[n].Pushing? && s.work[n].p == p && !InFlight(s, n, k) ::
          Settled(c, s, k, had, n))
  }

  /** Node n has nothing of k left to hand over. */
  ghost predicate Settled(c: Config, s: State, k: Key, had: set<Id>, n: Id) {
    var p := Routed(c.f, k);
    && (n in had ==> forall t | t in c.Holders(p) && t != n :: Has(s, t, k))
    && (n !in c.Holders(p) ==> !Has(s, n, k))
  }

  lemma SettledStays(c: Config, s: State, step: Step, s': State, k: Key, had: set<Id>, n: Id)
    requires Shape(c, s) && Next(c, s, step, s') && Settled(c, s, k, had, n)
    ensures Settled(c, s', k, had, n)
  {
    hide Sort, Pushes, Targets, MetaLast, Arrived, Shape, Next;
    var p := Routed(c.f, k);
    if n in had {
      forall t | t in c.Holders(p) && t != n ensures Has(s', t, k) { HolderKeeps(c, s, step, s', t, k); }
    }
    if Has(s', n, k) && !Has(s, n, k) {
      KeyMoves(c, s, step, s', n, k);
    }
  }

  /** Nothing to hand over at a snapshot that does not list k. */
  lemma SnapshotSettles(c: Config, s: State, k: Key, ok: Value -> bool, had: set<Id>, n: Id, listing: seq<Entry>,
                        now: int)
    requires EveryCopy(s, k, ok) && (forall v | ok(v) :: !Expired(v, now)) && Progress(c, s, k, had) && n in s.nodes
    requires Enumerates(listing, Live(ShardOf(c.f, s.nodes[n], Routed(c.f, k)), now))
    requires forall i | 0 <= i < |listing| :: listing[i].k != k
    ensures Settled(c, s, k, had, n)
  {
    if Has(s, n, k) {
      ListedIfHeld(c, s, k, ok, n, listing, now);
    }
  }

  lemma ListedIfHeld(c: Config, s: State, k: Key, ok: Value -> bool, n: Id, listing: seq<Entry>, now: int)
    requires EveryCopy(s, k, ok) && (forall v | ok(v) :: !Expired(v, now)) && Has(s, n, k)
    requires Enumerates(listing, Live(ShardOf(c.f, s.nodes[n], Routed(c.f, k)), now))
    ensures exists i :: 0 <= i < |listing| && listing[i].k == k
  {
    assert ok(s.nodes[n][k]);
    var m := Live(ShardOf(c.f, s.nodes[n], Routed(c.f, k)), now);
    assert Entry(k, m[k]) in listing;
  }

  /** A successful pass leaves nothing to hand over. */
  lemma FinishSettles(c: Config, s: State, s': State, k: Key, had: set<Id>, n: Id)
    requires Shape(c, s) && Landed(s, k) && Faithful(c, s, k) && Progress(c, s, k, had)
    requires Next(c, s, Finish(n), s') && s.work[n].ok && s.work[n].p == Routed(c.f, k)
    ensures Settled(c, s', k, had, n)
  {
    hide Sort, Pushes, Targets, MetaLast, Arrived, Shape, Landed;
    if InFlight(s, n, k) {
      DroppedIsHeld(c, s, n, k);
      forall t | t in c.Holders(Routed(c.f, k)) && t != n ensures Has(s', t, k) {
        LostOnlyHere(c, s, Finish(n), s', n, t, k);
      }
      var i :| 0 <= i < |s.work[n].es| && s.work[n].es[i].k == k;
      FinishDrops(c, s, s', k, n, i);
    } else {
      SettledStays(c, s, Finish(n), s', k, had, n);
    }
  }

  lemma FinishDrops(c: Config, s: State, s': State, k: Key, n: Id, i: nat)
    requires Shape(c, s) && Faithful(c, s, k) && Next(c, s, Finish(n), s') && s.work[n].ok
    requires i < |s.work[n].es| && s.work[n].es[i].k == k && s.work[n].p == Routed(c.f, k)
    ensures n !in c.Holders(Routed(c.f, k)) ==> !Has(s', n, k)
  {
    hide Sort, Pushes, Targets;
    var w := s.work[n];
    TargetsAreHolders(c, n, w.p);
    if Has(s, n, k) && n !in c.Holders(Routed(c.f, k)) {
      assert w.es[i] == Entry(k, s.nodes[n][k]);
    }
  }

  lemma ProgressStep(c: Config, s: State, step: Step, s': State, k: Key, ok: Value -> bool, had: set<Id>)
    requires c.Sound() && c.layout.ids != [] && Shape(c, s) && Landed(s, k) && Faithful(c, s, k)
    requires EveryCopy(s, k, ok) && Alive(c, s, step, k, ok) && Progress(c, s, k, had) && Next(c, s, step, s')
    ensures Progress(c, s', k, had)
  {
    hide Sort, Pushes, Targets, MetaLast, Arrived, Shape, Landed, EveryCopy, Settled, Faithful, Expired;
    var p := Routed(c.f, k);
    HadStays(c, s, step, s', k, had);
    forall n | Has(s', n, k) ensures n in had || n in c.Holders(p) {
      if !Has(s, n, k) { KeyMoves(c, s, step, s', n, k); }
    }
    forall n | Has(s', n, k) || InFlight(s', n, k) ensures had != {} {
      CopyHadOrigin(c, s, step, s', k, n);
    }
    forall n | (n, p) in s'.done ensures Settled(c, s', k, had, n) {
      if (n, p) in s.done {
        SettledStays(c, s, step, s', k, had, n);
      } else if step.Snapshot? {
        SnapshotSettles(c, s, k, ok, had, n, step.listing, step.now);
        SettledStays(c, s, step, s', k, had, n);
      } else {
        FinishSettles(c, s, s', k, had, n);
      }
    }
    forall n | n in s'.work && s'.work[n].Pushing? && s'.work[n].p == p && !InFlight(s', n, k)
      ensures Settled(c, s', k, had, n)
    {
      PushingWithout(c, s, step, s', k, n);
      if step.Snapshot? && step.n == n {
        SnapshotSettles(c, s, k, ok, had, n, step.listing, step.now);
      }
      SettledStays(c, s, step, s', k, had, n);
    }
  }

  lemma HadStays(c: Config, s: State, step: Step, s': State, k: Key, had: set<Id>)
    requires c.Sound() && Shape(c, s) && Landed(s, k) && Next(c, s, step, s') && Progress(c, s, k, had)
    ensures forall n | n in had :: Has(s', n, k) || AllHold(c, s', k)
  {
    hide Sort, Pushes, Targets, MetaLast, Arrived, Shape, Landed, Next, Settled;
    forall n | n in had ensures Has(s', n, k) || AllHold(c, s', k) {
      if Has(s, n, k) && !Has(s', n, k) {
        LostOnlyByDrop(c, s, step, s', n, k);
        DroppedIsHeld(c, s, n, k);
      }
      if !Has(s', n, k) {
        forall t | t in c.Holders(Routed(c.f, k)) ensures Has(s', t, k) { HolderKeeps(c, s, step, s', t, k); }
      }
    }
  }

  lemma CopyHadOrigin(c: Config, s: State, step: Step, s': State, k: Key, n: Id)
    requires Shape(c, s) && Next(c, s, step, s') && (Has(s', n, k) || InFlight(s', n, k))
    ensures exists m :: Has(s, m, k) || InFlight(s, m, k)
  {
    hide Sort, Pushes, Targets, MetaLast, Arrived, Shape;
    if InFlight(s', n, k) && !InFlight(s, n, k) {
      var m := Live(ShardOf(c.f, s.nodes[n], step.p), step.now);
      MetaLastListsSame(step.listing, m);
      var i :| 0 <= i < |s'.work[n].es| && s'.work[n].es[i].k == k;
      assert k in m;
      assert Has(s, n, k);
    } else if Has(s', n, k) && !Has(s, n, k) {
      KeyMoves(c, s, step, s', n, k);
    }
  }

  lemma PushingWithout(c: Config, s: State, step: Step, s': State, k: Key, n: Id)
    requires Shape(c, s) && Next(c, s, step, s')
    requires n in s'.work && s'.work[n].Pushing? && !InFlight(s', n, k)
    ensures step.Snapshot? && step.n == n ==>
              step.p == s'.work[n].p && n in s.nodes && forall i | 0 <= i < |step.listing| :: step.listing[i].k != k
    ensures !(step.Snapshot? && step.n == n) ==>
              n in s.work && s.work[n].Pushing? && s.work[n].p == s'.work[n].p && !InFlight(s, n, k)
  {
    hide Sort, Pushes, Targets, MetaLast, Arrived, Shape;
    if step.Snapshot? && step.n == n {
      var m := Live(ShardOf(c.f, s.nodes[n], step.p), step.now);
      MetaLastListsSame(step.listing, m);
      forall i | 0 <= i < |step.listing| ensures step.listing[i].k != k {
        var e := step.listing[i];
        assert Entry(e.k, m[e.k]) in MetaLast(step.listing);
        var j :| 0 <= j < |MetaLast(step.listing)| && MetaLast(step.listing)[j] == e;
      }
    }
  }

  lemma QuietProgress(c: Config, s: State, k: Key, had: set<Id>)
    requires Quiet(c, s) && forall n :: n in had <==> Has(s, n, k)
    ensures Progress(c, s, k, had) && Faithful(c, s, k)
  {
  }

  // ---- over a run -------------------------------------------------------------------------

  /** The invariant that a run of passes keeps about a key whose copies ok describes. */
  ghost predicate OnTheWay(c: Config, s: State, k: Key, ok: Value -> bool, had: set<Id>) {
    Safe(c, s, k) && EveryCopy(s, k, ok) && Faithful(c, s, k) && Progress(c, s, k, had)
  }

  lemma OnTheWayStep(c: Config, s: State, step: Step, s': State, k: Key, ok: Value -> bool, ok': Value -> bool,
                     had: set<Id>)
    requires c.Sound() && c.layout.ids != [] && OnTheWay(c, s, k, ok, had) && Next(c, s, step, s')
    requires Alive(c, s, step, k, ok) && CarriesOver(s, step, k, ok, ok')
    ensures OnTheWay(c, s', k, ok', had) && s'.nodes.Keys == s.nodes.Keys
  {
    hide Sort, Pushes, Targets, MetaLast, Shape, Landed, EveryCopy, Progress, Faithful, Alive, CarriesOver;
    AliveNotSkipped(c, s, step, k, ok);
    SafeStep(c, s, step, s', k);
    EveryCopyStep(c, s, step, s', k, ok, ok');
    FaithfulStep(c, s, step, s', k);
    ProgressStep(c, s, step, s', k, ok, had);
  }

  /** What is known of the copies of k before each step of a run. */
  type Course = nat -> (Value -> bool)

  ghost predicate Covers(c: Config, run: seq<State>, steps: seq<Step>, k: Key, course: Course)
    requires |steps| <= |run|
  {
    forall i: nat | i < |steps| ::
      Alive(c, run[i], steps[i], k, course(i)) && CarriesOver(run[i], steps[i], k, course(i), course(i + 1))
  }

  lemma {:induction false} OnTheWayRun(c: Config, run: seq<State>, steps: seq<Step>, k: Key, course: Course,
                                        had: set<Id>)
    requires c.Sound() && c.layout.ids != [] && IsRun(c, run, steps) && Covers(c, run, steps, k, course)
    requires OnTheWay(c, run[0], k, course(0), had)
    ensures OnTheWay(c, run[|steps|], k, course(|steps|), had) && run[|steps|].nodes.Keys == run[0].nodes.Keys
    decreases |steps|
  {
    hide Next, OnTheWay, Alive, CarriesOver;
    if steps != [] {
      var n := |steps| - 1;
      OnTheWayRun(c, run[..n + 1], steps[..n], k, course, had);
      OnTheWayStep(c, run[n], steps[n], run[n + 1], k, course(n), course(n + 1), had);
    }
  }

  /** Every node has completed a failure-free pass over partition p. */
  ghost predicate AllDone(s: State, p: nat) {
    forall n | n in s.nodes :: (n, p) in s.done
  }

  lemma DoneMeansPlaced(c: Config, s: State, k: Key, ok: Value -> bool, had: set<Id>, n: Id)
    requires OnTheWay(c, s, k, ok, had) && AllDone(s, Routed(c.f, k)) && had <= s.nodes.Keys && n in s.nodes
    ensures Has(s, n, k) <==> had != {} && n in c.Holders(Routed(c.f, k))
    ensures Has(s, n, k) ==> ok(s.nodes[n][k])
  {
    hide Sort, Shape, Landed, Faithful;
    var p := Routed(c.f, k);
    assert Settled(c, s, k, had, n);
    if had != {} && n in c.Holders(p) {
      var m :| m in had;
      assert m in s.nodes && (m, p) in s.done;
      assert Settled(c, s, k, had, m);
      assert Has(s, m, k) || AllHold(c, s, k);
      assert Has(s, n, k);
    }
  }

  /** Some node has k. */
  ghost predicate Present(nodes: Nodes, k: Key) {
    exists n :: n in nodes && k in nodes[n]
  }

  lemma StartsOnTheWay(c: Config, s: State, k: Key, ok: Value -> bool)
    requires c.Sound() && Quiet(c, s) && EveryCopy(s, k, ok)
    ensures var had := set n | n in s.nodes && k in s.nodes[n];
            had <= s.nodes.Keys && (had != {} <==> Present(s.nodes, k)) && OnTheWay(c, s, k, ok, had)
  {
    hide EveryCopy, Shape, Landed, Faithful, Progress;
    var had := set n | n in s.nodes && k in s.nodes[n];
    if n :| n in s.nodes && k in s.nodes[n] {
      assert n in had;
    }
    QuietIsSafe(c, s, k);
    QuietProgress(c, s, k, had);
  }

  /**
   * Completion, for any account of the copies of k that holds along the run: when every node has
   * finished a failure-free pass over k's partition, each holder has a copy that the account
   * describes, if any node had k, and no other node has k.
   */
  lemma Completes(c: Config, run: seq<State>, steps: seq<Step>, k: Key, n: Id, course: Course)
    requires c.Sound() && c.layout.ids != [] && IsRun(c, run, steps) && Quiet(c, run[0]) && n in run[0].nodes
    requires EveryCopy(run[0], k, course(0)) && Covers(c, run, steps, k, course)
    requires AllDone(run[|steps|], Routed(c.f, k))
    ensures var s := run[|steps|];
            && n in s.nodes
            && (Has(s, n, k) <==> Present(run[0].nodes, k) && n in c.Holders(Routed(c.f, k)))
            && (Has(s, n, k) ==> course(|steps|)(s.nodes[n][k]))
  {
    hide OnTheWay, Next, Sort, Covers;
    var had := set m | m in run[0].nodes && k in run[0].nodes[m];
    StartsOnTheWay(c, run[0], k, course(0));
    OnTheWayRun(c, run, steps, k, course, had);
    DoneMeansPlaced(c, run[|steps|], k, course(|steps|), had, n);
  }

  // ---- keys that never expire -------------------------------------------------------------

  /** The copies of k, wherever they are, are equal and do not expire. */
  ghost predicate Agreeing(nodes: Nodes, k: Key) {
    && (forall n | n in nodes && k in nodes[n] :: nodes[n][k].expireAt == 0)
    && (forall n, m | n in nodes && m in nodes && k in nodes[n] && k in nodes[m] :: nodes[n][k] == nodes[m][k])
  }

  /** The value of k at some node, if any has it. */
  ghost function AnyValue(nodes: Nodes, k: Key): Option<Value> {
    if exists n :: n in nodes && k in nodes[n] then
      var n :| n in nodes && k in nodes[n];
      Some(nodes[n][k])
    else None
  }

  function Exactly(v: Value): Value -> bool {
    u => u == v
  }

  lemma ExactlyCovers(c: Config, run: seq<State>, steps: seq<Step>, k: Key, v: Value)
    requires v.expireAt == 0 && |steps| <= |run|
    ensures Covers(c, run, steps, k, _ => Exactly(v))
  {
    assert forall a, b :: Arrived(v, a, b) == v;
  }

  lemma AgreeingIsExactly(c: Config, s: State, k: Key)
    requires Quiet(c, s) && Agreeing(s.nodes, k)
    ensures var v := AnyValue(s.nodes, k);
            && (v.Some? <==> Present(s.nodes, k)) && (v.Some? ==> v.value.expireAt == 0)
            && EveryCopy(s, k, Exactly(if v.Some? then v.value else Value([], 0)))
  {
  }

  /**
   * When every node has finished a failure-free pass over p, a key of p whose copies agree is on
   * each holder of p, as it was wherever it was, and on no other node.
   */
  lemma RebalanceCompletes(c: Config, run: seq<State>, steps: seq<Step>, p: nat, n: Id, k: Key)
    requires c.Sound() && c.layout.ids != [] && IsRun(c, run, steps)
    requires Quiet(c, run[0]) && Agreeing(run[0].nodes, k)
    requires AllDone(run[|steps|], p) && n in run[0].nodes && Routed(c.f, k) == p
    ensures n in run[|steps|].nodes
    ensures Lookup(run[|steps|].nodes[n], k) == if n in c.Holders(p) then AnyValue(run[0].nodes, k) else None
  {
    hide Next, Sort, Quiet, Agreeing, AnyValue, EveryCopy, Covers;
    AgreeingIsExactly(c, run[0], k);
    var v := AnyValue(run[0].nodes, k);
    var w := if v.Some? then v.value else Value([], 0);
    ExactlyCovers(c, run, steps, k, w);
    Completes(c, run, steps, k, n, _ => Exactly(w));
    assert Has(run[|steps|], n, k) <==> v.Some? && n in c.Holders(p);
  }

  // ---- keys that expire -------------------------------------------------------------------

  /** Holds data, and lives at least until t. */
  function Living(data: bytes, t: int): Value -> bool {
    (v: Value) => v.data == data && (v.expireAt == 0 || v.expireAt >= t)
  }

  /** Snapshots of k's partition are taken by the instant end. */
  ghost predicate ReadBy(c: Config, steps: seq<Step>, k: Key, end: int) {
    forall i | 0 <= i < |steps| && steps[i].Snapshot? && steps[i].p == Routed(c.f, k) :: steps[i].now <= end
  }

  /** What is left of t after the first i steps. */
  function Left(run: seq<State>, steps: seq<Step>, k: Key, t: int, i: nat): int
    requires |steps| <= |run|
  {
    t - Sends(run, steps, k, if i <= |steps| then i else |steps|) * MILLI
  }

  lemma {:induction false} SendsGrow(run: seq<State>, steps: seq<Step>, k: Key, i: nat, n: nat)
    requires i <= n <= |steps| <= |run|
    ensures Sends(run, steps, k, i) <= Sends(run, steps, k, n)
    decreases n
  {
    hide SendsKey;
    if i < n { SendsGrow(run, steps, k, i, n - 1); }
  }

  lemma LivingCoversStep(c: Config, run: seq<State>, steps: seq<Step>, k: Key, data: bytes, t: int, end: int, i: nat)
    requires |steps| <= |run| && InTime(run, steps, k, end) && ReadBy(c, steps, k, end) && i < |steps|
    requires end + Sends(run, steps, k, |steps|) * MILLI <= t
    ensures Alive(c, run[i], steps[i], k, Living(data, Left(run, steps, k, t, i)))
    ensures CarriesOver(run[i], steps[i], k, Living(data, Left(run, steps, k, t, i)),
                        Living(data, Left(run, steps, k, t, i + 1)))
  {
    hide Left, Sends;
    var l, step := Left(run, steps, k, t, i), steps[i];
    EnoughLeft(run, steps, k, t, end, i);
    HopCosts(run[i], step, k, l);
    forall v: Value | Living(data, l)(v) && SendsKey(run[i], step, k) ensures !LapsesInFlight(v, step.sentAt) {
      LapsesInFlightIff(v, step.sentAt);
    }
    forall v: Value | Living(data, l)(v) && SendsKey(run[i], step, k)
      ensures Living(data, l - MILLI)(Arrived(v, step.sentAt, step.now))
    {
      assert Until(l)(v);
      LapsesInFlightIff(v, step.sentAt);
    }
  }

  lemma EnoughLeft(run: seq<State>, steps: seq<Step>, k: Key, t: int, end: int, i: nat)
    requires |steps| <= |run| && end + Sends(run, steps, k, |steps|) * MILLI <= t && i < |steps|
    ensures var l := Left(run, steps, k, t, i);
            && end <= l && (SendsKey(run[i], steps[i], k) ==> end + MILLI <= l)
            && Left(run, steps, k, t, i + 1) == if SendsKey(run[i], steps[i], k) then l - MILLI else l
  {
    hide SendsKey;
    SendsGrow(run, steps, k, i, |steps|);
    SendsGrow(run, steps, k, i + 1, |steps|);
  }

  /**
   * The same for a key that expires: when its copies agree on their bytes and outlive the run by a
   * millisecond for each push of that key in it, each holder ends up with those bytes, alive, and
   * no other node has the key.
   */
  lemma LivingRebalanceCompletes(c: Config, run: seq<State>, steps: seq<Step>, n: Id, k: Key, data: bytes,
                                 t: int, end: int)
    requires c.Sound() && c.layout.ids != [] && IsRun(c, run, steps) && Quiet(c, run[0]) && n in run[0].nodes
    requires AllDone(run[|steps|], Routed(c.f, k)) && EveryCopy(run[0], k, Living(data, t))
    requires InTime(run, steps, k, end) && ReadBy(c, steps, k, end)
    requires end + Sends(run, steps, k, |steps|) * MILLI <= t
    ensures n in run[|steps|].nodes
    ensures if Present(run[0].nodes, k) && n in c.Holders(Routed(c.f, k))
            then Read(run[|steps|].nodes[n], k, end) == Some(data)
            else k !in run[|steps|].nodes[n]
  {
    hide Next, Sort, Quiet, EveryCopy, Alive, CarriesOver, Sends, InTime, ReadBy;
    var course: Course := i => Living(data, Left(run, steps, k, t, i));
    forall i: nat | i < |steps|
      ensures Alive(c, run[i], steps[i], k, course(i)) && CarriesOver(run[i], steps[i], k, course(i), course(i + 1))
    {
      LivingCoversStep(c, run, steps, k, data, t, end, i);
    }
    assert Covers(c, run, steps, k, course);
    NothingSpent(run, steps, k, t, end);
    assert course(0) == Living(data, t);
    Completes(c, run, steps, k, n, course);
    assert Has(run[|steps|], n, k) <==> k in run[|steps|].nodes[n];
  }

  lemma NothingSpent(run: seq<State>, steps: seq<Step>, k: Key, t: int, end: int)
    requires |steps| <= |run| && end + Sends(run, steps, k, |steps|) * MILLI <= t
    ensures Left(run, steps, k, t, 0) == t && Left(run, steps, k, t, |steps|) >= end
  {
  }
}
