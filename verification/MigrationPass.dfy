/** One node's whole pass over the partitions, as the loop it is, tied to the step machine. */
module MigrationPass {
  import opened Entries
  import opened Sorting
  import opened PartitionTable
  import opened Transfer
  import opened Migration
  import opened Lifetimes

  /** The clock, the context, the known addresses and the network, as the pass meets them. */
  datatype Env = Env(cancelled: nat -> bool, now: nat -> int, known: Id -> bool, outcome: (Id, nat) -> Outcome)

  /** What becomes of a message to t. */
  function Fate(env: Env, t: Id, tick: nat): Outcome {
    if env.known(t) then env.outcome(t, tick) else NoAddress
  }

  /** A step of this node as its environment has it: at clock readings, with the fate of a message to its target. */
  ghost predicate Own(env: Env, self: Id, s: State, step: Step) {
    match step
    case Snapshot(n, _, _, now) => n == self && exists i: nat :: now == env.now(i)
    case Send(n, sentAt, now, o) =>
      && n == self && self in s.work && s.work[self].Pushing? && s.work[self].todo != []
      && SentTo(env, s.work[self].todo[0].target, step)
    case Finish(n) => n == self
  }

  ghost predicate SentTo(env: Env, t: Id, step: Step)
    requires step.Send?
  {
    && (exists i: nat :: step.sentAt == env.now(i))
    && exists i: nat :: step.now == env.now(i) && step.outcome == Fate(env, t, i)
  }

  /** steps of this node lead from s to s'. */
  ghost predicate Reaches(c: Config, env: Env, self: Id, s: State, steps: seq<Step>, s': State) {
    if steps == [] then s' == s
    else
      var front, last := steps[..|steps| - 1], steps[|steps| - 1];
      exists mid :: Reaches(c, env, self, s, front, mid) && Next(c, mid, last, s') && Own(env, self, mid, last)
  }

  lemma ReachMore(c: Config, env: Env, self: Id, s: State, steps: seq<Step>, mid: State, step: Step, s': State)
    requires Reaches(c, env, self, s, steps, mid) && Next(c, mid, step, s') && Own(env, self, mid, step)
    ensures Reaches(c, env, self, s, steps + [step], s')
  {
    hide Next, Own;
    var more := steps + [step];
    assert more[..|more| - 1] == steps && more[|more| - 1] == step;
  }

  lemma {:induction false} ReachConcat(c: Config, env: Env, self: Id, s: State, a: seq<Step>, mid: State,
                                       b: seq<Step>, s': State)
    requires Reaches(c, env, self, s, a, mid) && Reaches(c, env, self, mid, b, s')
    ensures Reaches(c, env, self, s, a + b, s')
    decreases |b|
  {
    hide Next, Own;
    if b == [] {
      assert a + b == a;
    } else {
      var n := |b| - 1;
      var m :| Reaches(c, env, self, mid, b[..n], m) && Next(c, m, b[n], s') && Own(env, self, m, b[n]);
      ReachConcat(c, env, self, s, a, mid, b[..|b| - 1], m);
      ReachMore(c, env, self, s, a + b[..|b| - 1], m, b[|b| - 1], s');
      assert a + b == (a + b[..|b| - 1]) + [b[|b| - 1]];
    }
  }

  /** A pass is one of the runs the safety and completion results are about. */
  lemma {:induction false} ReachesIsRun(c: Config, env: Env, self: Id, s: State, steps: seq<Step>, s': State)
    returns (run: seq<State>)
    requires Reaches(c, env, self, s, steps, s')
    ensures IsRun(c, run, steps) && run[0] == s && run[|steps|] == s'
    ensures forall i | 0 <= i < |steps| :: Own(env, self, run[i], steps[i])
    decreases |steps|
  {
    hide Next, Own;
    if steps == [] {
      run := [s];
    } else {
      var n := |steps| - 1;
      var mid :| Reaches(c, env, self, s, steps[..n], mid) && Next(c, mid, steps[n], s') &&
                 Own(env, self, mid, steps[n]);
      var front := ReachesIsRun(c, env, self, s, steps[..n], mid);
      run := front + [s'];
      forall i | 0 <= i < |steps| ensures Next(c, run[i], steps[i], run[i + 1]) && Own(env, self, run[i], steps[i]) {
        if i < n { assert steps[..n][i] == steps[i]; }
      }
    }
  }

  method ListFlat(m: Flat) returns (es: seq<Entry>)
    ensures Enumerates(es, m)
  {
    hide Enumerates;
    es := [];
    var keys := m.Keys;
    ghost var seen: Flat := map[];
    NothingListed();
    while keys != {}
      invariant keys <= m.Keys && Enumerates(es, seen) && seen == map k | k in m && k !in keys :: m[k]
      decreases |keys|
    {
      var k :| k in keys;
      EnumeratesMore(es, seen, Entry(k, m[k]));
      es := es + [Entry(k, m[k])];
      seen := seen[k := m[k]];
      keys := keys - {k};
    }
    assert seen == m;
  }

  /** The holders to push to, and whether this node is one of them. */
  method FindTargets(l: Layout, self: Id, p: nat) returns (targets: seq<Id>, selfHolds: bool)
    ensures targets == Targets(l, self, p) && selfHolds == SelfHolds(l, self, p)
  {
    hide Sort;
    var owner := l.OwnerOf(p);
    selfHolds := owner == self;
    targets := [];
    if owner != [] && owner != self {
      targets := targets + [owner];
    }
    ghost var first := targets;
    var n := l.NumBackups(p);
    for i := 0 to n
      invariant targets == first + BackupTargets(l, self, p, i)
      invariant selfHolds == (owner == self || SelfBacksUp(l, self, p, i))
    {
      var b := l.BackupAt(p, i);
      assert b.Some?;
      if b.value == self {
        selfHolds := true;
        assert BackupTargets(l, self, p, i + 1) == BackupTargets(l, self, p, i) + [];
      } else {
        targets := targets + [b.value];
        assert BackupTargets(l, self, p, i + 1) == BackupTargets(l, self, p, i) + [b.value];
      }
    }
  }

  /** Every address is known and every send succeeds. */
  ghost predicate AllDelivered(env: Env) {
    (forall id :: env.known(id)) && forall id, i: nat :: env.outcome(id, i) == Delivered
  }

  /** The clock does not run backwards. */
  ghost predicate Onward(env: Env) {
    forall i: nat, j: nat | i <= j :: env.now(i) <= env.now(j)
  }

  /** Sends of one node, delivered if everything is. */
  ghost predicate AreSends(env: Env, self: Id, steps: seq<Step>) {
    forall i | 0 <= i < |steps| ::
      steps[i].Send? && steps[i].n == self && (AllDelivered(env) ==> steps[i].outcome == Delivered)
  }

  /** Their readings do not fall and do not exceed bound, and the first count of them is t. */
  ghost predicate Readings(steps: seq<Step>, count: nat, t: int, bound: int)
    requires forall i | 0 <= i < |steps| :: steps[i].Send?
  {
    && (forall i, j | 0 <= i < j < |steps| :: steps[i].sentAt <= steps[j].sentAt)
    && (forall i | 0 <= i < |steps| :: steps[i].sentAt <= bound)
    && (forall i | 0 <= i < count && i < |steps| :: steps[i].sentAt == t)
  }

  lemma {:induction false} PushesFirst(ts: seq<Id>, es: seq<Entry>)
    requires ts != []
    ensures Pushes(ts, es) == PushesTo(ts[0], es) + Pushes(ts[1..], es)
    decreases |ts|
  {
    hide PushesTo;
    var n := |ts| - 1;
    if n > 0 {
      PushesFirst(ts[..n], es);
      assert ts[..n][1..] == ts[1..][..n - 1];
    }
  }

  /** One send of the pass under way. */
  method SendOne(c: Config, ghost env: Env, ghost s0: State, ghost steps0: seq<Step>, s: State, self: Id,
                 sentAt: int, arrives: int, o: Outcome)
    returns (s': State, ghost steps: seq<Step>)
    requires self in s.nodes && self in s.work && s.work[self].Pushing? && s.work[self].todo != []
    requires Reaches(c, env, self, s0, steps0, s)
    requires SentTo(env, s.work[self].todo[0].target, Send(self, sentAt, arrives, o))
    ensures Reaches(c, env, self, s0, steps, s') && self in s'.nodes && self in s'.work && s'.done == s.done
    ensures steps == steps0 + [Send(self, sentAt, arrives, o)]
    ensures var w, w' := s.work[self], s'.work[self];
            && w'.Pushing? && w'.p == w.p && w'.es == w.es && w'.todo == w.todo[1..]
            && (o.Delivered? && w.ok ==> w'.ok) && (o.NoAddress? || !w.ok ==> !w'.ok)
  {
    hide Arrived, LapsesInFlight;
    var w := s.work[self];
    var push := w.todo[0];
    s' := s.(nodes := PushEffect(s.nodes, push, sentAt, arrives, o),
             work := s.work[self := Pushing(w.p, w.es, w.sent + [push], w.todo[1..], StillOk(w.ok, push, sentAt, o))]);
    ReachMore(c, env, self, s0, steps0, s, Send(self, sentAt, arrives, o), s');
    steps := steps0 + [Send(self, sentAt, arrives, o)];
  }

  /** All entries to one target; lifetimes are counted from one clock reading. */
  method PushToTarget(c: Config, ghost s0: State, ghost steps0: seq<Step>, s1: State, self: Id, t: Id,
                      ghost rest: seq<Push>, env: Env, tick0: nat)
    returns (s: State, tick: nat, ghost steps: seq<Step>)
    requires self in s1.nodes && self in s1.work && s1.work[self].Pushing? && Reaches(c, env, self, s0, steps0, s1)
    requires s1.work[self].todo == PushesTo(t, s1.work[self].es) + rest
    ensures Reaches(c, env, self, s0, steps, s) && self in s.nodes && self in s.work && s.done == s1.done
    ensures var w, w' := s1.work[self], s.work[self];
            && w'.Pushing? && w'.p == w.p && w'.es == w.es && w'.todo == rest
            && (AllDelivered(env) && w.ok ==> w'.ok) && (!env.known(t) && w.es != [] ==> !w'.ok)
    ensures |steps| == |steps0| + |s1.work[self].es| && steps[..|steps0|] == steps0
    ensures forall i | |steps0| <= i < |steps| ::
              steps[i].Send? && steps[i].n == self && steps[i].sentAt == env.now(tick0) &&
              (AllDelivered(env) ==> steps[i].outcome == Delivered)
    ensures tick > tick0
  {
    hide Next, Reaches;
    s, tick, steps := s1, tick0 + 1, steps0;
    var es := s1.work[self].es;
    var known, now := env.known(t), env.now(tick0);
    for i := 0 to |es|
      invariant self in s.nodes && self in s.work && Reaches(c, env, self, s0, steps, s) && s.done == s1.done
      invariant s.work[self].Pushing? && s.work[self].p == s1.work[self].p && s.work[self].es == es
      invariant s.work[self].todo == PushesTo(t, es)[i..] + rest
      invariant AllDelivered(env) && s1.work[self].ok ==> s.work[self].ok
      invariant !known && i > 0 ==> !s.work[self].ok
      invariant |steps| == |steps0| + i && steps[..|steps0|] == steps0
      invariant forall j | |steps0| <= j < |steps| ::
                  steps[j].Send? && steps[j].n == self && steps[j].sentAt == now &&
                  (AllDelivered(env) ==> steps[j].outcome == Delivered)
      invariant tick > tick0
    {
      var o := if known then env.outcome(t, tick) else NoAddress;
      assert (PushesTo(t, es)[i..] + rest)[1..] == PushesTo(t, es)[i + 1..] + rest;
      assert s.work[self].todo[0].target == t && o == Fate(env, t, tick);
      s, steps := SendOne(c, env, s0, steps, s, self, now, env.now(tick), o);
      tick := tick + 1;
    }
  }

  method PushAll(c: Config, s0: State, self: Id, targets: seq<Id>, env: Env, tick0: nat)
    returns (s: State, tick: nat, ghost steps: seq<Step>)
    requires self in s0.nodes && self in s0.work && s0.work[self].Pushing? && s0.work[self].ok
    requires s0.work[self].todo == Pushes(targets, s0.work[self].es)
    ensures Reaches(c, env, self, s0, steps, s) && self in s.nodes && self in s.work && s.done == s0.done
    ensures var w, w' := s0.work[self], s.work[self];
            && w'.Pushing? && w'.p == w.p && w'.es == w.es && w'.todo == []
            && (AllDelivered(env) ==> w'.ok)
    ensures AreSends(env, self, steps)
    ensures Onward(env) ==> Readings(steps, |s0.work[self].es|, env.now(tick0), env.now(tick))
  {
    hide Next, AllDelivered, PushesTo, Pushes, Onward, Readings, Reaches;
    NoReadings(env, tick0, |s0.work[self].es|);
    ReachSame(c, env, self, s0);
    s, tick, steps := s0, tick0, [];
    var es := s0.work[self].es;
    for i := 0 to |targets|
      invariant self in s.nodes && self in s.work && Reaches(c, env, self, s0, steps, s) && s.done == s0.done
      invariant s.work[self].Pushing? && s.work[self].p == s0.work[self].p && s.work[self].es == es
      invariant s.work[self].todo == Pushes(targets[i..], es)
      invariant AllDelivered(env) ==> s.work[self].ok
      invariant AreSends(env, self, steps) && tick >= tick0 && (i == 0 ==> tick == tick0 && steps == [])
      invariant i > 0 ==> |steps| >= |es|
      invariant Onward(env) ==> Readings(steps, |es|, env.now(tick0), env.now(tick))
    {
      PushesFirst(targets[i..], es);
      assert targets[i..][1..] == targets[i + 1..];
      ghost var before, was := steps, tick;
      s, tick, steps := PushToTarget(c, s0, steps, s, self, targets[i], Pushes(targets[i + 1..], es), env, tick);
      MoreSends(env, self, before, steps, was);
      if Onward(env) { MoreReadings(env, self, before, steps, |es|, tick0, was, tick); }
    }
    assert targets[|targets|..] == [];
    NoPushes(es);
  }

  lemma ReachSame(c: Config, env: Env, self: Id, s: State)
    ensures Reaches(c, env, self, s, [], s)
  {
  }

  lemma NoReadings(env: Env, tick: nat, count: nat)
    ensures Readings([], count, env.now(tick), env.now(tick))
  {
  }

  lemma MoreSends(env: Env, self: Id, before: seq<Step>, steps: seq<Step>, tick: nat)
    requires AreSends(env, self, before) && |before| <= |steps| && steps[..|before|] == before
    requires forall i | |before| <= i < |steps| ::
               steps[i].Send? && steps[i].n == self && steps[i].sentAt == env.now(tick) &&
               (AllDelivered(env) ==> steps[i].outcome == Delivered)
    ensures AreSends(env, self, steps)
  {
    hide AllDelivered;
    assert forall i | 0 <= i < |before| :: steps[i] == before[i];
  }

  lemma MoreReadings(env: Env, self: Id, before: seq<Step>, steps: seq<Step>, count: nat, first: nat, tick: nat,
                     later: nat)
    requires Onward(env) && AreSends(env, self, before) && AreSends(env, self, steps)
    requires |before| <= |steps| && steps[..|before|] == before && first <= tick <= later
    requires Readings(before, count, env.now(first), env.now(tick)) && (before == [] && count > 0 ==> tick == first)
    requires before != [] ==> |before| >= count
    requires forall i | |before| <= i < |steps| :: steps[i].sentAt == env.now(tick)
    ensures Readings(steps, count, env.now(first), env.now(later))
  {
    hide AllDelivered;
    assert forall i | 0 <= i < |before| :: steps[i] == before[i];
    assert env.now(tick) <= env.now(later);
  }

  lemma NoPushes(es: seq<Entry>)
    ensures Pushes([], es) == []
  {
  }

  /** The steps of one partition's hand-off: the snapshot, the sends, the end. */
  ghost predicate HandOff(env: Env, self: Id, p: nat, tick: nat, steps: seq<Step>) {
    && |steps| > 0 && steps[0].Snapshot? && steps[0].n == self && steps[0].p == p && steps[0].now == env.now(tick)
    && (steps[0].listing == [] ==> |steps| == 1)
    && (steps[0].listing != [] ==>
          && |steps| >= 2 && steps[|steps| - 1] == Finish(self) && AreSends(env, self, steps[1..|steps| - 1])
          && (Onward(env) ==> ReadsOnward(steps, |MetaLast(steps[0].listing)|, env.now(tick + 1))))
  }

  lemma HandOffSteps(env: Env, self: Id, p: nat, tick: nat, later: nat, snap: Step, more: seq<Step>)
    requires snap.Snapshot? && snap.n == self && snap.p == p && snap.now == env.now(tick) && snap.listing != []
    requires AreSends(env, self, more)
    requires Onward(env) ==> Readings(more, |MetaLast(snap.listing)|, env.now(tick + 1), env.now(later))
    ensures HandOff(env, self, p, tick, [] + [snap] + more + [Finish(self)])
  {
    hide AllDelivered, MetaLast, Onward;
    var steps := [] + [snap] + more + [Finish(self)];
    assert steps[1..|steps| - 1] == more;
    assert forall i | 0 < i < |steps| - 1 :: steps[i] == more[i - 1];
    if Onward(env) {
      assert ReadsOnward(steps, |MetaLast(snap.listing)|, env.now(tick + 1)) by {
        forall i, j | 0 < i < j < |steps| - 1 && steps[i].Send? && steps[j].Send?
          ensures steps[i].sentAt <= steps[j].sentAt
        {
          assert more[i - 1].sentAt <= more[j - 1].sentAt;
        }
      }
    }
  }

  method MigratePartition(c: Config, s0: State, self: Id, p: nat, env: Env, tick0: nat)
    returns (s: State, tick: nat, ghost steps: seq<Step>)
    requires self in s0.nodes && self in s0.work && s0.work[self].Idle? && p < PARTITIONS
    ensures Reaches(c, env, self, s0, steps, s) && self in s.nodes && self in s.work && s.work[self].Idle?
    ensures s0.done <= s.done && (AllDelivered(env) ==> (self, p) in s.done)
    ensures HandOff(env, self, p, tick0, steps)
  {
    hide Sort, MetaLast, Pushes, Targets, SelfHolds, Enumerates, DropFrom, AllDelivered, Onward, Readings, AreSends;
    hide ReadsOnward;
    var now := env.now(tick0);
    var listing := ListFlat(Live(ShardOf(c.f, s0.nodes[self], p), now));
    var es := OrderQueueMetaLast(listing);
    var snap := Snapshot(self, p, listing, now);
    tick := tick0 + 1;
    if listing == [] {
      s := s0.(done := s0.done + {(self, p)});
      ReachMore(c, env, self, s0, [], s0, snap, s);
      steps := [] + [snap];
      return;
    }
    var targets, selfHolds := FindTargets(c.layout, self, p);
    var s1 := s0.(work := s0.work[self := Pushing(p, es, [], Pushes(targets, es), true)]);
    ReachMore(c, env, self, s0, [], s0, snap, s1);
    ghost var more;
    s, tick, more := PushAll(c, s1, self, targets, env, tick);
    ReachConcat(c, env, self, s0, [] + [snap], s1, more, s);
    var w := s.work[self];
    var s2 := State(if !selfHolds && w.ok then s.nodes[self := DropFrom(s.nodes[self], w.es)] else s.nodes,
                    s.work[self := Idle], if w.ok then s.done + {(self, p)} else s.done);
    ReachMore(c, env, self, s0, [] + [snap] + more, s, Finish(self), s2);
    steps := [] + [snap] + more + [Finish(self)];
    HandOffSteps(env, self, p, tick0, tick, snap, more);
    s := s2;
  }

  /**
   * The hand-off as it is made, with the clock read for the snapshot and again for each target, and
   * no send failing. A node that is no holder and has the only copy of a key loses it for the
   * cluster if and only if it is within a millisecond of its expiry at the first target's reading.
   */
  method HandOffAlone(c: Config, s0: State, self: Id, k: Key, env: Env) returns (s: State)
    requires c.Sound() && c.layout.ids != [] && Quiet(c, s0) && AllDelivered(env) && Onward(env)
    requires Has(s0, self, k) && self !in c.Holders(Routed(c.f, k)) && forall m | Has(s0, m, k) :: m == self
    requires !Expired(s0.nodes[self][k], env.now(0))
    ensures var e := s0.nodes[self][k].expireAt;
            Somewhere(s, k) <==> e == 0 || e - env.now(1) >= MILLI
  {
    hide Sort, MetaLast, Onward, AllDelivered, Expired, Reaches, ReadsOnward, Next;
    var tick;
    ghost var steps;
    s, tick, steps := MigratePartition(c, s0, self, Routed(c.f, k), env, 0);
    ghost var run := ReachesIsRun(c, env, self, s0, steps, s);
    KeyIsListed(c, run, steps, self, k);
    SendsAreDelivered(env, self, steps);
    assert LonePass(c, run, steps, self, Routed(c.f, k)) && OnlyCopy(c, run, steps, self, k);
    FirstReadingDecides(c, run, steps, self, k, env.now(1));
  }

  lemma KeyIsListed(c: Config, run: seq<State>, steps: seq<Step>, n: Id, k: Key)
    requires IsRun(c, run, steps) && steps != []
    requires steps[0].Snapshot? && steps[0].n == n && steps[0].p == Routed(c.f, k)
    requires Has(run[0], n, k) && !Expired(run[0].nodes[n][k], steps[0].now)
    ensures steps[0].listing != []
  {
    hide Sort, MetaLast, Pushes, Targets;
    assert Next(c, run[0], steps[0], run[1]);
    LiveOfShard(c.f, run[0].nodes[n], steps[0].p, steps[0].now, k);
    assert Entry(k, run[0].nodes[n][k]) in steps[0].listing;
  }

  lemma SendsAreDelivered(env: Env, self: Id, steps: seq<Step>)
    requires |steps| >= 2 && AreSends(env, self, steps[1..|steps| - 1]) && AllDelivered(env)
    ensures forall i | 0 < i < |steps| - 1 :: steps[i].Send? && steps[i].n == self && steps[i].outcome == Delivered
  {
    hide AllDelivered;
    assert forall i | 0 < i < |steps| - 1 :: steps[i] == steps[1..|steps| - 1][i - 1];
  }

  // ---- when a hand-off counts as done -----------------------------------------------------

  /** The push was answered, or passed over with the target's address known. */
  predicate Succeeds(s: State, step: Step)
    requires step.Send? && step.n in s.work && s.work[step.n].Pushing? && s.work[step.n].todo != []
  {
    || step.outcome == Delivered
    || (step.outcome != NoAddress && LapsesInFlight(s.work[step.n].todo[0].e.v, step.sentAt))
  }

  /** Pushing, with the pass counting as successful exactly if the first i sends did. */
  ghost predicate InStride(run: seq<State>, steps: seq<Step>, self: Id, p: nat, i: nat)
    requires 0 < i < |run| && i <= |steps|
  {
    && self in run[i].work && run[i].work[self].Pushing? && run[i].work[self].p == p && run[i].done == run[0].done
    && (run[i].work[self].ok <==> SendsSucceed(run, steps, self, i))
  }

  ghost predicate SendsSucceed(run: seq<State>, steps: seq<Step>, self: Id, i: nat)
    requires i < |run| && i <= |steps|
  {
    forall j | 0 < j < i ::
      && steps[j].Send? && steps[j].n in run[j].work && run[j].work[steps[j].n].Pushing?
      && run[j].work[steps[j].n].todo != [] && Succeeds(run[j], steps[j])
  }

  lemma {:induction false} StaysInStride(c: Config, run: seq<State>, steps: seq<Step>, self: Id, p: nat, i: nat)
    requires IsRun(c, run, steps) && 0 < i < |steps|
    requires steps[0].Snapshot? && steps[0].n == self && steps[0].p == p && steps[0].listing != []
    requires forall j | 0 < j < |steps| - 1 :: steps[j].Send? && steps[j].n == self
    ensures InStride(run, steps, self, p, i)
  {
    hide Sort, Pushes, Targets, MetaLast, Arrived, LapsesInFlight, Enumerates, PushEffect;
    assert Next(c, run[i - 1], steps[i - 1], run[i]);
    if i > 1 {
      StaysInStride(c, run, steps, self, p, i - 1);
      assert SendsSucceed(run, steps, self, i) <==>
             SendsSucceed(run, steps, self, i - 1) && Succeeds(run[i - 1], steps[i - 1]);
    }
  }

  /** A hand-off counts as done if and only if every push of it was answered or passed over. */
  lemma HandOffDoneIff(c: Config, run: seq<State>, steps: seq<Step>, self: Id, p: nat)
    requires IsRun(c, run, steps) && |steps| >= 2 && (self, p) !in run[0].done
    requires steps[0].Snapshot? && steps[0].n == self && steps[0].p == p && steps[0].listing != []
    requires steps[|steps| - 1] == Finish(self)
    requires forall j | 0 < j < |steps| - 1 :: steps[j].Send? && steps[j].n == self
    ensures (self, p) in run[|steps|].done <==> SendsSucceed(run, steps, self, |steps| - 1)
  {
    hide Sort, SendsSucceed, SelfHolds, DropFrom;
    var n := |steps| - 1;
    StaysInStride(c, run, steps, self, p, n);
    assert Next(c, run[n], steps[n], run[n + 1]);
  }

  // ---- what each holder that answers receives ---------------------------------------------

  /** t is another node whose address is known and that answers every message. */
  ghost predicate Answering(env: Env, self: Id, t: Id) {
    t != self && env.known(t) && forall i: nat :: env.outcome(t, i) == Delivered
  }

  /** Never within a millisecond of its expiry during the pass. */
  ghost predicate Lasting(env: Env, v: Value) {
    v.expireAt == 0 || forall i: nat :: v.expireAt - env.now(i) >= MILLI
  }

  /** A copy of v as some push delivers it. */
  ghost predicate CopyOf(env: Env, v: Value, v': Value) {
    exists i: nat, j: nat :: v' == Arrived(v, env.now(i), env.now(j))
  }

  /** t has a copy of what this node had under k. */
  ghost predicate GotCopy(env: Env, s: State, t: Id, k: Key, v: Value) {
    Has(s, t, k) && CopyOf(env, v, s.nodes[t][k])
  }

  /** The pass under way is over es, and what it has sent of k to t has arrived. */
  ghost predicate Arriving(env: Env, self: Id, s: State, p: nat, es: seq<Entry>, t: Id, k: Key, v: Value) {
    && self in s.work && s.work[self].Pushing? && s.work[self].p == p && s.work[self].es == es && t in s.nodes
    && forall i | 0 <= i < |s.work[self].sent| && s.work[self].sent[i] == Push(t, Entry(k, v)) ::
         GotCopy(env, s, t, k, v)
  }

  lemma SendArrives(c: Config, env: Env, self: Id, s: State, step: Step, s': State, p: nat, es: seq<Entry>, t: Id,
                    k: Key, v: Value)
    requires Shape(c, s) && Next(c, s, step, s') && step.Send? && Own(env, self, s, step)
    requires Arriving(env, self, s, p, es, t, k, v) && Answering(env, self, t) && Lasting(env, v)
    requires forall i | 0 <= i < |es| && es[i].k == k :: es[i].v == v
    ensures Arriving(env, self, s', p, es, t, k, v)
  {
    hide Sort, Pushes, Targets, Arrived, LapsesInFlight;
    var w := s.work[self];
    var push := w.todo[0];
    SentToHolders(c, self, w, push);
    var j :| 0 <= j < |es| && es[j] == push.e;
    if push.target == t && push.e.k == k {
      assert push == Push(t, Entry(k, v));
      LapsesInFlightIff(v, step.sentAt);
      assert GotCopy(env, s', t, k, v);
    } else if push.target in s.nodes {
      assert k in s.nodes[t] ==> k in s'.nodes[t] && s'.nodes[t][k] == s.nodes[t][k];
    }
  }

  /** Along one partition's sends. */
  lemma {:induction false} StaysArriving(c: Config, env: Env, self: Id, run: seq<State>, steps: seq<Step>,
                                         p: nat, es: seq<Entry>, t: Id, k: Key, v: Value, i: nat)
    requires IsRun(c, run, steps) && 1 <= i < |steps| && Shape(c, run[0])
    requires forall j | 0 <= j < |steps| :: Own(env, self, run[j], steps[j])
    requires forall j | 0 < j < i :: steps[j].Send?
    requires Arriving(env, self, run[1], p, es, t, k, v) && Answering(env, self, t) && Lasting(env, v)
    requires forall j | 0 <= j < |es| && es[j].k == k :: es[j].v == v
    ensures Shape(c, run[i]) && Arriving(env, self, run[i], p, es, t, k, v)
  {
    hide Next, Shape, Own, Arriving, Answering, Lasting;
    assert Next(c, run[i - 1], steps[i - 1], run[i]);
    if i == 1 {
      ShapeStep(c, run[0], steps[0], run[1]);
    } else {
      StaysArriving(c, env, self, run, steps, p, es, t, k, v, i - 1);
      ShapeStep(c, run[i - 1], steps[i - 1], run[i]);
      assert Own(env, self, run[i - 1], steps[i - 1]);
      SendArrives(c, env, self, run[i - 1], steps[i - 1], run[i], p, es, t, k, v);
    }
  }

  /** The snapshot lists a lasting key once, with its value. */
  lemma ListedWithValue(c: Config, env: Env, s: State, self: Id, k: Key, listing: seq<Entry>, now: int)
    requires Has(s, self, k) && Lasting(env, s.nodes[self][k]) && exists i: nat :: now == env.now(i)
    requires Enumerates(listing, Live(ShardOf(c.f, s.nodes[self], Routed(c.f, k)), now))
    ensures var v, es := s.nodes[self][k], MetaLast(listing);
            && listing != [] && Entry(k, v) in es && forall i | 0 <= i < |es| && es[i].k == k :: es[i].v == v
  {
    hide MetaLast;
    var m := Live(ShardOf(c.f, s.nodes[self], Routed(c.f, k)), now);
    assert k in m && m[k] == s.nodes[self][k];
    assert Entry(k, m[k]) in listing;
    MetaLastListsSame(listing, m);
  }

  lemma MiddleIsSends(env: Env, self: Id, steps: seq<Step>)
    requires |steps| >= 2 && AreSends(env, self, steps[1..|steps| - 1])
    ensures forall j | 0 < j < |steps| - 1 :: steps[j].Send?
  {
    hide AllDelivered;
    assert forall j | 0 < j < |steps| - 1 :: steps[j] == steps[1..|steps| - 1][j - 1];
  }

  lemma HolderIsNode(c: Config, s: State, self: Id, t: Id, p: nat)
    requires Shape(c, s) && t in c.Holders(p) && t != self
    ensures t in s.nodes && c.Sound() && [] !in s.nodes
  {
    hide Sort;
    HoldersDistinct(c.layout, p);
  }

  /** Once nothing is left to send, each entry has been sent to each other holder. */
  lemma AllSent(c: Config, s: State, self: Id, t: Id, k: Key, v: Value)
    requires Shape(c, s) && self in s.work && s.work[self].Pushing? && s.work[self].todo == []
    requires t != self && t in c.Holders(s.work[self].p) && Entry(k, v) in s.work[self].es
    ensures Push(t, Entry(k, v)) in s.work[self].sent
  {
    hide Sort, Pushes, Targets;
    var w := s.work[self];
    assert WorkOk(c, self, w) && w.sent + w.todo == w.sent;
    TargetsAreHolders(c, self, w.p);
    PushMembers(Targets(c.layout, self, w.p), w.es, Push(t, Entry(k, v)));
  }

  lemma SnapshotArrives(c: Config, env: Env, self: Id, s: State, step: Step, s': State, t: Id, k: Key)
    requires Next(c, s, step, s') && step.Snapshot? && Own(env, self, s, step) && step.p == Routed(c.f, k)
    requires Has(s, self, k) && Lasting(env, s.nodes[self][k]) && t in s.nodes
    ensures var v, es := s.nodes[self][k], MetaLast(step.listing);
            && step.listing != [] && Entry(k, v) in es && (forall i | 0 <= i < |es| && es[i].k == k :: es[i].v == v)
            && Arriving(env, self, s', step.p, es, t, k, v)
  {
    hide Sort, MetaLast, Pushes, Targets, GotCopy, Lasting, Enumerates;
    ListedWithValue(c, env, s, self, k, step.listing, step.now);
  }

  lemma FinishDelivers(c: Config, env: Env, self: Id, s: State, s': State, p: nat, es: seq<Entry>, t: Id, k: Key,
                       v: Value)
    requires Shape(c, s) && Next(c, s, Finish(self), s') && Arriving(env, self, s, p, es, t, k, v)
    requires t != self && t in c.Holders(p) && Entry(k, v) in es
    ensures GotCopy(env, s', t, k, v)
  {
    hide Sort, Pushes, Targets, SelfHolds, DropFrom, CopyOf;
    AllSent(c, s, self, t, k, v);
    var i :| 0 <= i < |s.work[self].sent| && s.work[self].sent[i] == Push(t, Entry(k, v));
    assert GotCopy(env, s, t, k, v);
  }

  /**
   * One partition's hand-off: every other holder that answers ends up with a copy of each lasting key
   * this node has in it, whatever becomes of the sends to the others.
   */
  lemma HandOffDelivers(c: Config, env: Env, self: Id, tick: nat, s: State, steps: seq<Step>, s': State, t: Id, k: Key)
    requires Shape(c, s) && Reaches(c, env, self, s, steps, s') && HandOff(env, self, Routed(c.f, k), tick, steps)
    requires Has(s, self, k) && Lasting(env, s.nodes[self][k])
    requires t in c.Holders(Routed(c.f, k)) && Answering(env, self, t)
    ensures GotCopy(env, s', t, k, s.nodes[self][k])
  {
    hide Sort, MetaLast, Reaches, GotCopy, Lasting, Own, AreSends, ReadsOnward, Shape, Onward, Next, Arriving, Routed;
    var run := ReachesIsRun(c, env, self, s, steps, s');
    var p, v, es, n := Routed(c.f, k), s.nodes[self][k], MetaLast(steps[0].listing), |steps| - 1;
    HolderIsNode(c, s, self, t, p);
    assert Next(c, run[0], steps[0], run[1]) && Own(env, self, run[0], steps[0]);
    SnapshotArrives(c, env, self, run[0], steps[0], run[1], t, k);
    MiddleIsSends(env, self, steps);
    StaysArriving(c, env, self, run, steps, p, es, t, k, v, n);
    assert Next(c, run[n], steps[n], run[n + 1]);
    FinishDelivers(c, env, self, run[n], run[n + 1], p, es, t, k, v);
  }

  // ---- and what the hand-off of another partition leaves alone ----------------------------

  /** The pass under way, if any, is over partition p. */
  predicate Over(s: State, self: Id, p: nat) {
    self in s.work && s.work[self].Pushing? ==> s.work[self].p == p
  }

  lemma OtherPartitionKept(c: Config, env: Env, self: Id, s: State, step: Step, s': State, p: nat, n: Id, k: Key)
    requires Shape(c, s) && Next(c, s, step, s') && Own(env, self, s, step) && Over(s, self, p)
    requires (step.Snapshot? ==> step.p == p) && Routed(c.f, k) != p && n in s.nodes
    ensures n in s'.nodes && Lookup(s'.nodes[n], k) == Lookup(s.nodes[n], k) && Over(s', self, p)
  {
    hide Sort, Pushes, Targets, Arrived, LapsesInFlight, SelfHolds, MetaLast, Routed;
    if self in s.work && s.work[self].Pushing? {
      var w := s.work[self];
      assert WorkOk(c, self, w);
      if step.Send? { SentToHolders(c, self, w, w.todo[0]); }
      if step.Finish? { DropOthers(c, s.nodes[self], w, k); }
    }
  }

  lemma DropOthers(c: Config, m: Flat, w: Work, k: Key)
    requires w.Pushing? && (forall i | 0 <= i < |w.es| :: Routed(c.f, w.es[i].k) == w.p) && Routed(c.f, k) != w.p
    ensures Lookup(DropFrom(m, w.es), k) == Lookup(m, k)
  {
    hide Routed;
    assert k in m ==> Entry(k, m[k]) !in w.es;
  }

  lemma {:induction false} HandOffKeepsOthers(c: Config, env: Env, self: Id, s: State, steps: seq<Step>, s': State,
                                              p: nat, n: Id, k: Key)
    requires Shape(c, s) && Reaches(c, env, self, s, steps, s') && Over(s, self, p) && n in s.nodes
    requires (forall i | 0 <= i < |steps| && steps[i].Snapshot? :: steps[i].p == p) && Routed(c.f, k) != p
    ensures Shape(c, s') && Over(s', self, p)
    ensures n in s'.nodes && Lookup(s'.nodes[n], k) == Lookup(s.nodes[n], k)
    decreases |steps|
  {
    hide Next, Shape, Own, Over, Routed;
    if steps != [] {
      var m := |steps| - 1;
      var mid :| Reaches(c, env, self, s, steps[..m], mid) && Next(c, mid, steps[m], s') &&
                 Own(env, self, mid, steps[m]);
      HandOffKeepsOthers(c, env, self, s, steps[..m], mid, p, n, k);
      ShapeStep(c, mid, steps[m], s');
      OtherPartitionKept(c, env, self, mid, steps[m], s', p, n, k);
    }
  }

  // ---- the whole pass ---------------------------------------------------------------------

  /** The hand-offs of the first n partitions, in order. */
  ghost predicate PassSteps(env: Env, self: Id, n: nat, steps: seq<Step>) {
    if n == 0 then steps == []
    else
      var p := n - 1;
      exists at: nat, tick: nat ::
        at <= |steps| && PassSteps(env, self, p, steps[..at]) && HandOff(env, self, p, tick, steps[at..])
  }

  /** This node's entries of the partitions from n on are as they were. */
  ghost predicate NotYet(c: Config, self: Id, n: nat, s0: State, s: State) {
    && self in s0.nodes && self in s.nodes && s0.nodes.Keys == s.nodes.Keys
    && forall k | Routed(c.f, k) >= n :: Lookup(s.nodes[self], k) == Lookup(s0.nodes[self], k)
  }

  /** This node owes t a copy of k: a lasting key of a partition that t holds. */
  ghost predicate Owed(c: Config, env: Env, self: Id, s0: State, t: Id, k: Key) {
    && Has(s0, self, k) && Lasting(env, s0.nodes[self][k])
    && t in c.Holders(Routed(c.f, k)) && Answering(env, self, t)
  }

  /** Every copy owed of a key of the first n partitions is there. */
  ghost predicate Paid(c: Config, env: Env, self: Id, n: nat, s0: State, s: State) {
    forall t, k | Owed(c, env, self, s0, t, k) && Routed(c.f, k) < n :: GotCopy(env, s, t, k, s0.nodes[self][k])
  }

  lemma PartPaid(c: Config, env: Env, self: Id, p: nat, tick: nat, s0: State, s: State, more: seq<Step>, s': State)
    requires Shape(c, s) && Reaches(c, env, self, s, more, s') && HandOff(env, self, p, tick, more)
    requires self in s.work && s.work[self].Idle? && NotYet(c, self, p, s0, s) && Paid(c, env, self, p, s0, s)
    ensures Shape(c, s') && NotYet(c, self, p + 1, s0, s') && Paid(c, env, self, p + 1, s0, s')
  {
    hide Sort, Reaches, GotCopy, Lasting, Shape, Routed, Answering, HandOff;
    ReachKeepsNodes(c, env, self, s, more, s');
    HandOffIsOver(env, self, p, tick, more);
    forall n, k | n in s.nodes && Routed(c.f, k) != p ensures Lookup(s'.nodes[n], k) == Lookup(s.nodes[n], k) {
      HandOffKeepsOthers(c, env, self, s, more, s', p, n, k);
    }
    forall t, k | Owed(c, env, self, s0, t, k) && Routed(c.f, k) < p + 1
      ensures GotCopy(env, s', t, k, s0.nodes[self][k])
    {
      if Routed(c.f, k) == p {
        assert Lookup(s.nodes[self], k) == Lookup(s0.nodes[self], k);
        HandOffDelivers(c, env, self, tick, s, more, s', t, k);
      } else {
        assert GotCopy(env, s, t, k, s0.nodes[self][k]);
        CopyKept(env, s, s', t, k, s0.nodes[self][k]);
      }
    }
  }

  lemma CopyKept(env: Env, s: State, s': State, t: Id, k: Key, v: Value)
    requires GotCopy(env, s, t, k, v) && s'.nodes.Keys == s.nodes.Keys
    requires t in s.nodes ==> Lookup(s'.nodes[t], k) == Lookup(s.nodes[t], k)
    ensures GotCopy(env, s', t, k, v)
  {
    hide CopyOf;
  }

  lemma HandOffIsOver(env: Env, self: Id, p: nat, tick: nat, steps: seq<Step>)
    requires HandOff(env, self, p, tick, steps)
    ensures forall i | 0 <= i < |steps| && steps[i].Snapshot? :: steps[i].p == p
  {
    hide AllDelivered, ReadsOnward, Onward, MetaLast;
    if |steps| >= 2 {
      MiddleIsSends(env, self, steps);
    }
  }

  lemma {:induction false} ReachKeepsNodes(c: Config, env: Env, self: Id, s: State, steps: seq<Step>, s': State)
    requires Shape(c, s) && Reaches(c, env, self, s, steps, s')
    ensures Shape(c, s') && s'.nodes.Keys == s.nodes.Keys
    decreases |steps|
  {
    hide Shape, Own, Next;
    if steps != [] {
      var m := |steps| - 1;
      var mid :| Reaches(c, env, self, s, steps[..m], mid) && Next(c, mid, steps[m], s') &&
                 Own(env, self, mid, steps[m]);
      ReachKeepsNodes(c, env, self, s, steps[..m], mid);
      ShapeStep(c, mid, steps[m], s');
      NextKeepsNodes(c, mid, steps[m], s');
    }
  }

  lemma NextKeepsNodes(c: Config, s: State, step: Step, s': State)
    requires Next(c, s, step, s')
    ensures s'.nodes.Keys == s.nodes.Keys
  {
    hide Sort, Pushes, Targets, MetaLast, Arrived, LapsesInFlight, SelfHolds, DropFrom;
  }

  lemma MorePassSteps(env: Env, self: Id, n: nat, steps: seq<Step>, tick: nat, more: seq<Step>)
    requires PassSteps(env, self, n, steps) && HandOff(env, self, n, tick, more)
    ensures PassSteps(env, self, n + 1, steps + more)
  {
    hide HandOff;
    var all, at := steps + more, |steps|;
    assert all[..at] == steps && all[at..] == more;
  }

  /**
   * Migrate: one pass over all partitions, stopping between two of them when cancelled. The pass is
   * a run of the step machine made of this node's hand-offs, one for each partition up to there, in
   * order. Each other holder that answers gets a copy of every lasting key, whatever becomes of the
   * sends to the others; uncancelled and without failures the pass settles every partition.
   */
  method Migrate(c: Config, s0: State, self: Id, env: Env)
    returns (full: bool, s: State, ghost steps: seq<Step>, ghost stop: nat)
    requires self in s0.nodes && self in s0.work && s0.work[self].Idle?
    ensures Reaches(c, env, self, s0, steps, s) && PassSteps(env, self, stop, steps)
    ensures stop <= PARTITIONS && (stop < PARTITIONS ==> env.cancelled(stop))
    ensures forall p: nat | p < stop :: !env.cancelled(p)
    ensures full <==> stop == PARTITIONS
    ensures Shape(c, s0) ==> Paid(c, env, self, stop, s0, s)
    ensures full && AllDelivered(env) ==> forall p: nat | p < PARTITIONS :: (self, p) in s.done
  {
    hide Next, AllDelivered, Shape, PassSteps, HandOff, Paid, NotYet, Own;
    s, steps, stop := s0, [], 0;
    var tick := 0;
    NothingPassed(c, env, self, s0);
    for p := 0 to PARTITIONS
      invariant self in s.nodes && self in s.work && s.work[self].Idle? && Reaches(c, env, self, s0, steps, s)
      invariant stop == p && PassSteps(env, self, p, steps)
      invariant Shape(c, s0) ==> Shape(c, s) && NotYet(c, self, p, s0, s) && Paid(c, env, self, p, s0, s)
      invariant AllDelivered(env) ==> forall q: nat | q < p :: (self, q) in s.done
      invariant forall q: nat | q < p :: !env.cancelled(q)
    {
      if env.cancelled(p) {
        return false, s, steps, stop;
      }
      ghost var more;
      var s', tick';
      s', tick', more := MigratePartition(c, s, self, p, env, tick);
      ReachConcat(c, env, self, s0, steps, s, more, s');
      MorePassSteps(env, self, p, steps, tick, more);
      if Shape(c, s0) { PartPaid(c, env, self, p, tick, s0, s, more, s'); }
      s, tick, steps, stop := s', tick', steps + more, p + 1;
    }
    full := true;
  }

  lemma NothingPassed(c: Config, env: Env, self: Id, s: State)
    requires self in s.nodes
    ensures PassSteps(env, self, 0, []) && NotYet(c, self, 0, s, s) && Paid(c, env, self, 0, s, s)
  {
  }
}
