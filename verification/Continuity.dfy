/** Reading while members leave and the data is being handed to the holders of the new table. */
module Continuity {
  import opened Bytes
  import opened Entries
  import opened Sorting
  import opened PartitionTable
  import opened Migration
  import opened Lifetimes
  import opened Rebalance
  import opened AntiEntropy
  import opened Failover

  /** Along the run, course goes on describing every copy of k. */
  ghost predicate Carried(run: seq<State>, steps: seq<Step>, k: Key, course: Course)
    requires |steps| <= |run|
  {
    forall i: nat | i < |steps| :: CarriesOver(run[i], steps[i], k, course(i), course(i + 1))
  }

  /** A holder that has k goes on having it, in a copy that course describes, whatever pushes fail. */
  lemma {:induction false} HolderKeepsThroughout(c: Config, run: seq<State>, steps: seq<Step>, k: Key, course: Course,
                                                 t: Id)
    requires IsRun(c, run, steps) && Shape(c, run[0])
    requires EveryCopy(run[0], k, course(0)) && Carried(run, steps, k, course)
    requires t in c.Holders(Routed(c.f, k)) && Has(run[0], t, k)
    ensures Shape(c, run[|steps|]) && EveryCopy(run[|steps|], k, course(|steps|)) && Has(run[|steps|], t, k)
    decreases |steps|
  {
    hide Next, Shape, EveryCopy, CarriesOver, Sort, Has;
    if steps != [] {
      var n := |steps| - 1;
      HolderKeepsThroughout(c, run[..n + 1], steps[..n], k, course, t);
      ShapeStep(c, run[n], steps[n], run[n + 1]);
      EveryCopyStep(c, run[n], steps[n], run[n + 1], k, course(n), course(n + 1));
      HolderKeeps(c, run[n], steps[n], run[n + 1], t, k);
    }
  }

  /** A copy that ok describes reads as data at this instant. */
  ghost predicate ReadsAs(ok: Value -> bool, data: bytes, now: int) {
    forall v | ok(v) :: v.data == data && !Expired(v, now)
  }

  /** An original holder of k that stayed, and that the reader reaches. */
  ghost predicate Survives(l: Layout, keep: Id -> bool, f: PartitionFn, k: Key, net: Net, nodes: Nodes, self: Id,
                           n: Id) {
    n in l.Holders(f(k.key)) && keep(n) && (n == self || Up(net, nodes, n))
  }

  /**
   * Members have left, and the others hand their data over under the new table, in any interleaving
   * and with any pushes lost. At every point of it a Get that reaches one original holder that stayed
   * returns the value, when each of those had it at the start and the account of its copies says that
   * they still read as that value.
   */
  lemma ReadsThroughHandOver(l: Layout, keep: Id -> bool, f: PartitionFn, run: seq<State>, steps: seq<Step>, k: Key,
                             data: bytes, course: Course, net: Net, self: Id, survivor: Id)
    requires var c := Config(f, l.Keeping(keep));
             IsRun(c, run, steps) && Shape(c, run[0]) && Routed(f, k) == f(k.key)
    requires EveryCopy(run[0], k, course(0)) && Carried(run, steps, k, course)
    requires forall n | n in l.Holders(f(k.key)) && keep(n) ::
               Has(run[0], n, k) && ReadsAs(course(|steps|), data, net.at(n))
    requires Survives(l, keep, f, k, net, run[|steps|].nodes, self, survivor)
    ensures forall r | Answers(net, run[|steps|].nodes, self, k, l.Keeping(keep).Holders(f(k.key)), r) ::
              r == Found(data)
  {
    hide Sort, Filter, Next, Shape, Carried, Answers, Routed, Up;
    var c, p := Config(f, l.Keeping(keep)), f(k.key);
    var s := run[|steps|];
    StayingHoldersLead(l, keep, p);
    FilterMembers(keep, l.Holders(p));
    forall n | n in l.Holders(p) && keep(n) ensures n in s.nodes && Read(s.nodes[n], k, net.at(n)) == Some(data) {
      assert n in Filter(keep, l.Holders(p));
      assert n in c.Holders(p);
      HolderKeepsThroughout(c, run, steps, k, course, n);
      assert course(|steps|)(s.nodes[n][k]);
    }
    ReadSurvivesFailures(l, keep, f, s.nodes, k, data, net, self, survivor);
  }

  // ---- values that never expire, and values that do ----------------------------------------

  /** The hand-over under the table that leaves these members, up to where it has got. */
  ghost predicate HandingOver(l: Layout, keep: Id -> bool, f: PartitionFn, run: seq<State>, steps: seq<Step>) {
    var c := Config(f, l.Keeping(keep));
    IsRun(c, run, steps) && c.Sound() && Quiet(c, run[0])
  }

  lemma LastingReadsThrough(l: Layout, keep: Id -> bool, f: PartitionFn, run: seq<State>, steps: seq<Step>, k: Key,
                            data: bytes, net: Net, self: Id, survivor: Id)
    requires HandingOver(l, keep, f, run, steps) && Routed(f, k) == f(k.key)
    requires EveryCopy(run[0], k, Exactly(Value(data, 0)))
    requires forall n | n in l.Holders(f(k.key)) && keep(n) :: Has(run[0], n, k)
    requires Survives(l, keep, f, k, net, run[|steps|].nodes, self, survivor)
    ensures forall r | Answers(net, run[|steps|].nodes, self, k, l.Keeping(keep).Holders(f(k.key)), r) ::
              r == Found(data)
  {
    hide Sort, Filter, Next, Answers, Routed, Up, EveryCopy, Carried, Covers, Has;
    var c := Config(f, l.Keeping(keep));
    QuietIsSafe(c, run[0], k);
    ExactlyCovers(c, run, steps, k, Value(data, 0));
    CoversCarries(c, run, steps, k, _ => Exactly(Value(data, 0)));
    ReadsThroughHandOver(l, keep, f, run, steps, k, data, _ => Exactly(Value(data, 0)), net, self, survivor);
  }

  lemma CoversCarries(c: Config, run: seq<State>, steps: seq<Step>, k: Key, course: Course)
    requires |steps| <= |run| && Covers(c, run, steps, k, course)
    ensures Carried(run, steps, k, course)
  {
    hide CarriesOver, Alive;
  }

  /** Pushes of k are received no earlier than sent. */
  predicate Onward(run: seq<State>, steps: seq<Step>, k: Key)
    requires |steps| <= |run|
  {
    forall i | 0 <= i < |steps| && SendsKey(run[i], steps[i], k) :: steps[i].sentAt <= steps[i].now
  }

  /** A push of k costs a copy that lives less than a millisecond. */
  lemma LivingCarried(run: seq<State>, steps: seq<Step>, k: Key, data: bytes, t: int)
    requires |steps| <= |run| && Onward(run, steps, k)
    ensures Carried(run, steps, k, i => Living(data, Left(run, steps, k, t, i)))
  {
    hide CarriesOver, Left;
    var course: Course := i => Living(data, Left(run, steps, k, t, i));
    forall i: nat | i < |steps| ensures CarriesOver(run[i], steps[i], k, course(i), course(i + 1)) {
      LivingCarriesOver(run[i], steps[i], k, data, Left(run, steps, k, t, i));
      LeftAfter(run, steps, k, t, i);
    }
  }

  lemma LeftAfter(run: seq<State>, steps: seq<Step>, k: Key, t: int, i: nat)
    requires |steps| <= |run| && i < |steps|
    ensures Left(run, steps, k, t, i + 1) ==
            Left(run, steps, k, t, i) - if SendsKey(run[i], steps[i], k) then MILLI else 0
  {
    hide SendsKey;
  }

  lemma LivingCarriesOver(s: State, step: Step, k: Key, data: bytes, t: int)
    requires SendsKey(s, step, k) ==> step.sentAt <= step.now
    ensures CarriesOver(s, step, k, Living(data, t), Living(data, t - if SendsKey(s, step, k) then MILLI else 0))
  {
    HopCosts(s, step, k, t);
    if SendsKey(s, step, k) {
      forall v: Value | Living(data, t)(v) && !LapsesInFlight(v, step.sentAt)
        ensures Living(data, t - MILLI)(Arrived(v, step.sentAt, step.now))
      {
        assert Until(t)(v);
        assert Until(t - MILLI)(Arrived(v, step.sentAt, step.now));
      }
    }
  }

  /** A value that expires, as long as it outlives the reader's clock by a millisecond for each push of the key. */
  lemma LivingReadsThrough(l: Layout, keep: Id -> bool, f: PartitionFn, run: seq<State>, steps: seq<Step>, k: Key,
                           data: bytes, t: int, net: Net, self: Id, survivor: Id)
    requires HandingOver(l, keep, f, run, steps) && Routed(f, k) == f(k.key)
    requires EveryCopy(run[0], k, Living(data, t)) && Onward(run, steps, k)
    requires forall n | n in l.Holders(f(k.key)) && keep(n) ::
               Has(run[0], n, k) && net.at(n) + Sends(run, steps, k, |steps|) * MILLI <= t
    requires Survives(l, keep, f, k, net, run[|steps|].nodes, self, survivor)
    ensures forall r | Answers(net, run[|steps|].nodes, self, k, l.Keeping(keep).Holders(f(k.key)), r) ::
              r == Found(data)
  {
    hide Sort, Filter, Next, Answers, Routed, Up, EveryCopy, Carried, Sends, Has, Onward;
    var c := Config(f, l.Keeping(keep));
    QuietIsSafe(c, run[0], k);
    LivingCarried(run, steps, k, data, t);
    NothingSent(run, steps, k);
    ReadsThroughHandOver(l, keep, f, run, steps, k, data, i => Living(data, Left(run, steps, k, t, i)),
                         net, self, survivor);
  }

  lemma NothingSent(run: seq<State>, steps: seq<Step>, k: Key)
    requires |steps| <= |run|
    ensures Sends(run, steps, k, 0) == 0
  {
  }

  // ---- a write, then a hand-over, then a read ---------------------------------------------

  /** No node but its holders has k. */
  ghost predicate OnlyOn(holders: seq<Id>, nodes: Nodes, k: Key) {
    forall n | n in nodes && k in nodes[n] :: n in holders
  }

  /** How the copies of a write that reached every holder start out. */
  lemma WrittenCopies(c: Config, s: State, env: Env, start: int, holders: seq<Id>, a: Nodes, k: Key, data: bytes,
                      ttlMs: int)
    requires EveryHolderHas(env, k, data, ttlMs, holders, a, s.nodes) && forall i: nat :: start <= env.now(i)
    requires Quiet(c, s) && OnlyOn(holders, s.nodes, k)
    ensures forall n | n in holders :: Has(s, n, k)
    ensures EveryCopy(s, k, if ttlMs <= 0 then Exactly(Value(data, 0)) else Living(data, start + ttlMs * MILLI))
  {
    forall n | n in holders
      ensures Has(s, n, k) && s.nodes[n][k].data == data
      ensures if ttlMs <= 0 then s.nodes[n][k].expireAt == 0 else s.nodes[n][k].expireAt >= start + ttlMs * MILLI
    {
      assert Written(env, k, data, ttlMs, a[n], s.nodes[n]);
    }
  }

  /** Alive on a clock that shows now, after this many pushes. */
  predicate OutlivesPushes(start: int, ttlMs: int, pushes: nat, now: int) {
    ttlMs <= 0 || now + pushes * MILLI <= start + ttlMs * MILLI
  }

  /**
   * End to end: a write that reached every holder, then members leaving, then a hand-over under the
   * new table with any failures, at any point of which any node reads, with any nodes silent but one
   * original holder that stayed. It reads the value, as long as that would still be alive with a
   * millisecond taken off for each push of the key.
   */
  lemma WriteReadThroughHandOver(l: Layout, keep: Id -> bool, f: PartitionFn, env: Env, start: int, a: Nodes,
                                 run: seq<State>, steps: seq<Step>, k: Key, data: bytes, ttlMs: int,
                                 net: Net, self: Id, survivor: Id)
    requires HandingOver(l, keep, f, run, steps) && Onward(run, steps, k) && Routed(f, k) == f(k.key)
    requires EveryHolderHas(env, k, data, ttlMs, l.Holders(f(k.key)), a, run[0].nodes)
    requires OnlyOn(l.Holders(f(k.key)), run[0].nodes, k) && forall i: nat :: start <= env.now(i)
    requires forall n | n in l.Holders(f(k.key)) && keep(n) ::
               OutlivesPushes(start, ttlMs, Sends(run, steps, k, |steps|), net.at(n))
    requires Survives(l, keep, f, k, net, run[|steps|].nodes, self, survivor)
    ensures forall r | Answers(net, run[|steps|].nodes, self, k, l.Keeping(keep).Holders(f(k.key)), r) ::
              r == Found(data)
  {
    hide Sort, Filter, Next, Answers, Routed, Survives, EveryCopy, Onward, Sends, Written, EveryHolderHas, OnlyOn, Has;
    var c := Config(f, l.Keeping(keep));
    WrittenCopies(c, run[0], env, start, l.Holders(f(k.key)), a, k, data, ttlMs);
    if ttlMs <= 0 {
      LastingReadsThrough(l, keep, f, run, steps, k, data, net, self, survivor);
    } else {
      LivingReadsThrough(l, keep, f, run, steps, k, data, start + ttlMs * MILLI, net, self, survivor);
    }
  }
}
