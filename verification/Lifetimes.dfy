/** Handing over keys that expire: how much lifetime it takes, and what happens below that. */
module Lifetimes {
  import opened Bytes
  import opened Entries
  import opened Sorting
  import opened PartitionTable
  import opened Transfer
  import opened Migration

  // ---- keys with a lifetime ---------------------------------------------------------------

  /** Lives at least until t. */
  function Until(t: int): Value -> bool {
    (v: Value) => v.expireAt == 0 || v.expireAt >= t
  }

  /** How many of the first n steps push k. */
  function Sends(run: seq<State>, steps: seq<Step>, k: Key, n: nat): nat
    requires n <= |steps| && n <= |run|
  {
    if n == 0 then 0 else Sends(run, steps, k, n - 1) + if SendsKey(run[n - 1], steps[n - 1], k) then 1 else 0
  }

  lemma {:induction false} SendsOfFront(run: seq<State>, steps: seq<Step>, k: Key, n: nat, m: nat)
    requires m <= n <= |steps| && n < |run|
    ensures Sends(run[..n + 1], steps[..n], k, m) == Sends(run, steps, k, m)
  {
    hide SendsKey;
    if m > 0 { SendsOfFront(run, steps, k, n, m - 1); }
  }

  /** Pushes of k are made by the instant end, and received no earlier than sent. */
  predicate InTime(run: seq<State>, steps: seq<Step>, k: Key, end: int)
    requires |steps| <= |run|
  {
    forall i | 0 <= i < |steps| && SendsKey(run[i], steps[i], k) ::
      steps[i].sentAt <= end && steps[i].sentAt <= steps[i].now
  }

  /** A hop costs a copy less than a millisecond of its lifetime; a push of another key costs nothing. */
  lemma HopCosts(s: State, step: Step, k: Key, t: int)
    requires SendsKey(s, step, k) ==> step.sentAt <= step.now
    ensures CarriesOver(s, step, k, Until(t), Until(if SendsKey(s, step, k) then t - MILLI else t))
  {
    if SendsKey(s, step, k) {
      forall v: Value | Until(t)(v) && !LapsesInFlight(v, step.sentAt)
        ensures Until(t - MILLI)(Arrived(v, step.sentAt, step.now))
      {
        LapsesInFlightIff(v, step.sentAt);
        if v.expireAt != 0 {
          var d := v.expireAt - step.sentAt;
          assert d - MILLI < (d / MILLI) * MILLI;
        }
      }
    }
  }

  lemma NotSkipped(c: Config, s: State, step: Step, k: Key, t: int)
    requires Shape(c, s) && EveryCopy(s, k, Until(t)) && (SendsKey(s, step, k) ==> step.sentAt + MILLI <= t)
    ensures !Skips(s, step, k)
  {
    hide Sort, Pushes, Targets, LapsesInFlight;
    if SendsKey(s, step, k) {
      var w := s.work[step.n];
      SentToHolders(c, step.n, w, w.todo[0]);
      var i :| 0 <= i < |w.es| && w.es[i] == w.todo[0].e;
      assert Until(t)(w.es[i].v);
      LapsesInFlightIff(w.es[i].v, step.sentAt);
    }
  }

  lemma {:induction false} LivesOn(c: Config, run: seq<State>, steps: seq<Step>, k: Key, t: int, end: int)
    requires c.Sound() && c.layout.ids != [] && IsRun(c, run, steps) && Quiet(c, run[0]) && Somewhere(run[0], k)
    requires InTime(run, steps, k, end) && EveryCopy(run[0], k, Until(t))
    requires end + Sends(run, steps, k, |steps|) * MILLI <= t
    ensures Safe(c, run[|steps|], k) && Somewhere(run[|steps|], k)
    ensures EveryCopy(run[|steps|], k, Until(t - Sends(run, steps, k, |steps|) * MILLI))
    decreases |steps|
  {
    hide Sort, Pushes, Targets, Next, Shape, Landed, Skips, EveryCopy, Until, CarriesOver, SendsKey;
    if steps == [] {
      QuietIsSafe(c, run[0], k);
    } else {
      var n := |steps| - 1;
      SendsOfFront(run, steps, k, n, n);
      LivesOn(c, run[..n + 1], steps[..n], k, t, end);
      var t' := t - Sends(run, steps, k, n) * MILLI;
      NotSkipped(c, run[n], steps[n], k, t');
      SafeStep(c, run[n], steps[n], run[n + 1], k);
      HopCosts(run[n], steps[n], k, t');
      EveryCopyStep(c, run[n], steps[n], run[n + 1], k, Until(t'), Until(t - Sends(run, steps, k, |steps|) * MILLI));
    }
  }

  lemma CopyLives(s: State, n: Id, k: Key, t: int, end: int)
    requires Has(s, n, k) && EveryCopy(s, k, Until(t)) && end <= t
    ensures !Expired(s.nodes[n][k], end)
  {
    assert Until(t)(s.nodes[n][k]);
  }

  /**
   * A key with a lifetime: when every copy at the start outlives the run by a millisecond for each
   * push of that key in it, a copy is there at the end, and is alive.
   */
  lemma LivingKeyKept(c: Config, run: seq<State>, steps: seq<Step>, k: Key, t: int, end: int)
    requires c.Sound() && c.layout.ids != [] && IsRun(c, run, steps) && Quiet(c, run[0]) && Somewhere(run[0], k)
    requires InTime(run, steps, k, end) && EveryCopy(run[0], k, Until(t))
    requires end + Sends(run, steps, k, |steps|) * MILLI <= t
    ensures exists n :: Has(run[|steps|], n, k) && !Expired(run[|steps|].nodes[n][k], end)
  {
    hide Sort, Next, Sends, InTime, Quiet, Safe;
    LivesOn(c, run, steps, k, t, end);
    var n :| Has(run[|steps|], n, k);
    CopyLives(run[|steps|], n, k, t - Sends(run, steps, k, |steps|) * MILLI, end);
  }

  // ---- the last millisecond ---------------------------------------------------------------

  /** Node n alone makes one pass over p, and every send is delivered; the clock runs as it likes. */
  ghost predicate LonePass(c: Config, run: seq<State>, steps: seq<Step>, n: Id, p: nat) {
    && IsRun(c, run, steps) && Quiet(c, run[0]) && |steps| >= 2
    && steps[0].Snapshot? && steps[0].n == n && steps[0].p == p && steps[0].listing != []
    && steps[|steps| - 1] == Finish(n)
    && forall i | 0 < i < |steps| - 1 :: steps[i].Send? && steps[i].n == n && steps[i].outcome == Delivered
  }

  /** The only copy of k is on n, which is no holder, and its snapshot lists it. */
  ghost predicate OnlyCopy(c: Config, run: seq<State>, steps: seq<Step>, n: Id, k: Key)
    requires |run| > 0 && |steps| > 0 && steps[0].Snapshot?
  {
    && Has(run[0], n, k) && n !in c.Holders(Routed(c.f, k)) && (forall m | Has(run[0], m, k) :: m == n)
    && !Expired(run[0].nodes[n][k], steps[0].now)
  }

  /** Inside such a pass n still has what it had, and the pass what it captured. */
  ghost predicate Midway(c: Config, run: seq<State>, steps: seq<Step>, n: Id, p: nat, i: nat)
    requires 0 < i < |run| && |steps| > 0 && steps[0].Snapshot?
  {
    && Shape(c, run[i]) && n in run[0].nodes && n in run[i].nodes && run[i].nodes[n] == run[0].nodes[n]
    && n in run[i].work && run[i].work[n].Pushing? && run[i].work[n].ok
    && run[i].work[n].p == p && run[i].work[n].es == MetaLast(steps[0].listing)
    && |run[i].work[n].sent| == i - 1
  }

  lemma {:induction false} StaysMidway(c: Config, run: seq<State>, steps: seq<Step>, n: Id, p: nat, i: nat)
    requires c.Sound() && LonePass(c, run, steps, n, p) && 0 < i < |steps|
    ensures Midway(c, run, steps, n, p, i)
  {
    hide Sort, Pushes, Targets, MetaLast, Arrived, LapsesInFlight, Enumerates;
    assert Next(c, run[i - 1], steps[i - 1], run[i]);
    if i == 1 {
      assert Shape(c, run[0]);
    } else {
      StaysMidway(c, run, steps, n, p, i - 1);
      var w := run[i - 1].work[n];
      SentToHolders(c, n, w, w.todo[0]);
    }
    ShapeStep(c, run[i - 1], steps[i - 1], run[i]);
  }

  /** What the pass captured of k is what n has of it. */
  lemma CapturedIsStored(c: Config, run: seq<State>, steps: seq<Step>, n: Id, k: Key)
    requires LonePass(c, run, steps, n, Routed(c.f, k)) && OnlyCopy(c, run, steps, n, k)
    ensures forall e | e in MetaLast(steps[0].listing) :: e.k == k ==> e.v == run[0].nodes[n][k]
    ensures Entry(k, run[0].nodes[n][k]) in MetaLast(steps[0].listing)
  {
    hide MetaLast, Sort, Enumerates, Pushes, Targets, Live, ShardOf;
    var p, t := Routed(c.f, k), steps[0].now;
    var m := Live(ShardOf(c.f, run[0].nodes[n], p), t);
    assert Next(c, run[0], steps[0], run[1]);
    MetaLastListsSame(steps[0].listing, m);
    LiveOfShard(c.f, run[0].nodes[n], p, t, k);
    ListedOnce(MetaLast(steps[0].listing), m, k);
  }

  lemma LiveOfShard(f: PartitionFn, m: Flat, p: nat, t: int, k: Key)
    requires k in m && Routed(f, k) == p && !Expired(m[k], t)
    ensures Lookup(Live(ShardOf(f, m, p), t), k) == Some(m[k])
  {
  }

  lemma ListedOnce(es: seq<Entry>, m: Flat, k: Key)
    requires Enumerates(es, m) && k in m
    ensures Entry(k, m[k]) in es && forall e | e in es :: e.k == k ==> e.v == m[k]
  {
  }

  /** Step i pushes k while it has a millisecond to live. */
  ghost predicate SendsLive(run: seq<State>, steps: seq<Step>, k: Key, v: Value, i: int)
    requires |steps| <= |run|
  {
    0 <= i < |steps| && SendsKey(run[i], steps[i], k) && !LapsesInFlight(v, steps[i].sentAt)
  }

  /** One step of the pass: a live push of k puts it on a holder, any other step brings k nowhere. */
  lemma LoneStep(c: Config, run: seq<State>, steps: seq<Step>, n: Id, k: Key, i: nat)
    requires c.Sound() && LonePass(c, run, steps, n, Routed(c.f, k)) && OnlyCopy(c, run, steps, n, k)
    requires 0 < i < |steps| - 1
    ensures if SendsLive(run, steps, k, run[0].nodes[n][k], i)
            then exists t :: t in c.Holders(Routed(c.f, k)) && Has(run[i + 1], t, k)
            else forall m | m != n && Has(run[i + 1], m, k) :: Has(run[i], m, k)
  {
    hide Sort, Pushes, Targets, MetaLast, Arrived, LapsesInFlight, Enumerates, Expired;
    StaysMidway(c, run, steps, n, Routed(c.f, k), i);
    CapturedIsStored(c, run, steps, n, k);
    assert Next(c, run[i], steps[i], run[i + 1]);
    var w := run[i].work[n];
    SentToHolders(c, n, w, w.todo[0]);
    assert w.todo[0].e in MetaLast(steps[0].listing);
    if SendsLive(run, steps, k, run[0].nodes[n][k], i) {
      assert Has(run[i + 1], w.todo[0].target, k);
    }
  }

  lemma {:induction false} NobodyElse(c: Config, run: seq<State>, steps: seq<Step>, n: Id, k: Key, i: nat)
    requires c.Sound() && LonePass(c, run, steps, n, Routed(c.f, k)) && OnlyCopy(c, run, steps, n, k)
    requires (forall j :: !SendsLive(run, steps, k, run[0].nodes[n][k], j)) && 0 < i < |steps|
    ensures forall m | Has(run[i], m, k) :: m == n
  {
    hide Sort, MetaLast, SendsLive, Expired, Enumerates, Pushes, Targets;
    if i == 1 {
      assert Next(c, run[0], steps[0], run[1]);
      forall m | Has(run[i], m, k) ensures m == n { assert Has(run[0], m, k); }
    } else {
      NobodyElse(c, run, steps, n, k, i - 1);
      LoneStep(c, run, steps, n, k, i - 1);
      assert forall m :: Has(run[i], m, k) ==> m == n || Has(run[i - 1], m, k);
    }
  }

  /** The end of a pass by a node that is no holder: it drops what it captured and still has. */
  lemma LoneFinish(c: Config, run: seq<State>, steps: seq<Step>, n: Id, k: Key)
    requires c.Sound() && LonePass(c, run, steps, n, Routed(c.f, k)) && OnlyCopy(c, run, steps, n, k)
    ensures !Has(run[|steps|], n, k)
    ensures forall m | m != n && Has(run[|steps|], m, k) :: Has(run[|steps| - 1], m, k)
  {
    hide Sort, MetaLast, Expired, Enumerates, Pushes, Targets;
    var last := |steps| - 1;
    StaysMidway(c, run, steps, n, Routed(c.f, k), last);
    CapturedIsStored(c, run, steps, n, k);
    TargetsAreHolders(c, n, Routed(c.f, k));
    assert Next(c, run[last], steps[last], run[last + 1]);
  }

  lemma {:induction false} HolderKeepsOn(c: Config, run: seq<State>, steps: seq<Step>, n: Id, k: Key, t: Id,
                                          i: nat, j: nat)
    requires c.Sound() && LonePass(c, run, steps, n, Routed(c.f, k)) && 0 < i <= j <= |steps|
    requires t in c.Holders(Routed(c.f, k)) && Has(run[i], t, k)
    ensures Has(run[j], t, k)
    decreases j
  {
    hide Sort, Next, Shape, Pushes, Targets;
    if i < j {
      HolderKeepsOn(c, run, steps, n, k, t, i, j - 1);
      StaysMidway(c, run, steps, n, Routed(c.f, k), j - 1);
      HolderKeeps(c, run[j - 1], steps[j - 1], run[j], t, k);
    }
  }

  /**
   * A node that is no holder has the only copy and hands its partition over without any failure,
   * whatever its clock shows meanwhile. The key survives if and only if one of its pushes was made
   * with a millisecond left to live. Otherwise all are passed over, the pass counts as successful,
   * and the copy is dropped.
   */
  lemma LoneHandOffIff(c: Config, run: seq<State>, steps: seq<Step>, n: Id, k: Key)
    requires c.Sound() && LonePass(c, run, steps, n, Routed(c.f, k)) && OnlyCopy(c, run, steps, n, k)
    ensures Somewhere(run[|steps|], k) <==> exists i :: SendsLive(run, steps, k, run[0].nodes[n][k], i)
  {
    hide Sort, MetaLast, Expired, Enumerates, Pushes, Targets, Next;
    var v := run[0].nodes[n][k];
    if i :| SendsLive(run, steps, k, v, i) {
      LoneStep(c, run, steps, n, k, i);
      var t :| t in c.Holders(Routed(c.f, k)) && Has(run[i + 1], t, k);
      HolderKeepsOn(c, run, steps, n, k, t, i + 1, |steps|);
    } else {
      NobodyElse(c, run, steps, n, k, |steps| - 1);
      LoneFinish(c, run, steps, n, k);
    }
  }

  // ---- which reading decides --------------------------------------------------------------

  /** Later sends read the clock no earlier, and the sends to the first target share one reading. */
  ghost predicate ReadsOnward(steps: seq<Step>, es: nat, t: int) {
    && (forall i, j | 0 < i < j < |steps| - 1 && steps[i].Send? && steps[j].Send? :: steps[i].sentAt <= steps[j].sentAt)
    && (forall i | 0 < i <= es && i < |steps| - 1 && steps[i].Send? :: steps[i].sentAt == t)
  }

  /** The i-th send of a pass is the i-th of its pushes. */
  lemma PushInTurn(c: Config, run: seq<State>, steps: seq<Step>, n: Id, p: nat, i: nat)
    requires c.Sound() && LonePass(c, run, steps, n, p) && 0 < i < |steps|
    ensures n in run[i].work && run[i].work[n].Pushing?
    ensures var all := Pushes(Targets(c.layout, n, p), MetaLast(steps[0].listing));
            i - 1 <= |all| && run[i].work[n].todo == all[i - 1..]
  {
    hide Sort, Pushes, Targets, MetaLast;
    StaysMidway(c, run, steps, n, p, i);
    var w := run[i].work[n];
    assert WorkOk(c, n, w);
    assert w.todo == (w.sent + w.todo)[i - 1..];
  }

  /** Every push is made before the pass finishes. */
  lemma PassLength(c: Config, run: seq<State>, steps: seq<Step>, n: Id, p: nat)
    requires c.Sound() && LonePass(c, run, steps, n, p)
    ensures |steps| - 2 == |Pushes(Targets(c.layout, n, p), MetaLast(steps[0].listing))|
  {
    hide Sort, Pushes, Targets, MetaLast;
    var last := |steps| - 1;
    PushInTurn(c, run, steps, n, p, last);
    assert Next(c, run[last], steps[last], run[last + 1]);
  }

  lemma {:induction false} FirstPushes(ts: seq<Id>, es: seq<Entry>, j: nat)
    requires ts != [] && j < |es|
    ensures |Pushes(ts, es)| >= |es| && Pushes(ts, es)[j] == Push(ts[0], es[j])
    decreases |ts|
  {
    var n := |ts| - 1;
    if n > 0 { FirstPushes(ts[..n], es, j); }
  }

  /** The first target's pushes include one of k. */
  lemma FirstTargetGetsKey(c: Config, run: seq<State>, steps: seq<Step>, n: Id, k: Key) returns (i: nat)
    requires c.Sound() && c.layout.ids != []
    requires LonePass(c, run, steps, n, Routed(c.f, k)) && OnlyCopy(c, run, steps, n, k)
    ensures 0 < i <= |MetaLast(steps[0].listing)| && i < |steps| - 1 && SendsKey(run[i], steps[i], k)
  {
    hide Sort, Pushes, Targets, MetaLast, Expired, Next;
    var p, es := Routed(c.f, k), MetaLast(steps[0].listing);
    var ts := Targets(c.layout, n, p);
    CapturedIsStored(c, run, steps, n, k);
    var j :| 0 <= j < |es| && es[j] == Entry(k, run[0].nodes[n][k]);
    var h := SomeHolder(c, n, p);
    StaysMidway(c, run, steps, n, p, 1);
    assert n != [] by { NodeIsNamed(c, run[0], n); }
    TargetsAreHolders(c, n, p);
    assert h in ts;
    FirstPushes(ts, es, j);
    PassLength(c, run, steps, n, p);
    i := j + 1;
    PushInTurn(c, run, steps, n, p, i);
    assert Pushes(ts, es)[j..][0] == Pushes(ts, es)[j];
  }

  lemma NodeIsNamed(c: Config, s: State, n: Id)
    requires Quiet(c, s) && n in s.nodes
    ensures n != []
  {
  }

  /**
   * With a clock that does not run backwards, read once for each target: the key survives if and
   * only if it never expires or has a millisecond to live when the first target's turn comes.
   */
  lemma FirstReadingDecides(c: Config, run: seq<State>, steps: seq<Step>, n: Id, k: Key, t: int)
    requires c.Sound() && c.layout.ids != []
    requires LonePass(c, run, steps, n, Routed(c.f, k)) && OnlyCopy(c, run, steps, n, k)
    requires ReadsOnward(steps, |MetaLast(steps[0].listing)|, t)
    ensures var e := run[0].nodes[n][k].expireAt;
            Somewhere(run[|steps|], k) <==> e == 0 || e - t >= MILLI
  {
    hide Sort, Pushes, Targets, MetaLast, Expired, Next, LapsesInFlight;
    var v := run[0].nodes[n][k];
    var i := FirstTargetGetsKey(c, run, steps, n, k);
    LoneHandOffIff(c, run, steps, n, k);
    LapsesInFlightIff(v, t);
    assert steps[i].Send? && steps[i].sentAt == t;
    if LapsesInFlight(v, t) {
      forall j ensures !SendsLive(run, steps, k, v, j) {
        if 0 <= j < |steps| && SendsKey(run[j], steps[j], k) {
          LapsesInFlightIff(v, steps[j].sentAt);
          NotBefore(steps, |MetaLast(steps[0].listing)|, t, i, j);
        }
      }
    } else {
      assert SendsLive(run, steps, k, v, i);
    }
  }

  lemma NotBefore(steps: seq<Step>, es: nat, t: int, i: nat, j: nat)
    requires ReadsOnward(steps, es, t)
    requires 0 < i <= es && i < |steps| - 1 && steps[i].Send? && j < |steps| && steps[j].Send?
    requires j > 0 && j < |steps| - 1
    ensures t <= steps[j].sentAt
  {
  }

  lemma OnlyHolder(l: Layout, h: Id, n: Id, p: nat)
    requires l.ids == [h] && n != h && h != []
    ensures l.Holders(p) == [h] && Targets(l, n, p) == [h] && !SelfHolds(l, n, p)
  {
    hide Sort;
    RankingElements(l, p);
    assert l.Ranking(p)[0] in l.ids;
    assert l.Holders(p) == [h];
    assert BackupTargets(l, n, p, 0) == [] && !SelfBacksUp(l, n, p, 0);
  }

  /**
   * The smallest such run: one holder h, and a node n with nothing in the partition but k, less than
   * a millisecond from its expiry. The only copy is dropped before it has expired.
   */
  lemma LastMillisecondDropped(c: Config, s: State, n: Id, h: Id, k: Key, v: Value, t: int)
    returns (run: seq<State>, steps: seq<Step>)
    requires c.layout.ids == [h] && Quiet(c, s) && n in s.nodes && n != h && h != []
    requires Live(ShardOf(c.f, s.nodes[n], Routed(c.f, k)), t) == map[k := v] && forall m | Has(s, m, k) :: m == n
    requires 0 <= v.expireAt - t < MILLI && v.expireAt != 0
    ensures LonePass(c, run, steps, n, Routed(c.f, k)) && run[0] == s && steps[0].now == t
    ensures !Expired(v, t) && Somewhere(s, k) && !Somewhere(run[|steps|], k)
  {
    hide Sort, Targets, SelfHolds, Routed, Next, Live, ShardOf, MetaLast, Pushes, Enumerates, DropFrom, LapsesInFlight;
    var p := Routed(c.f, k);
    var es := [Entry(k, v)];
    OnlyHolder(c.layout, h, n, p);
    LapsesInFlightIff(v, t);
    var s1 := s.(work := s.work[n := Pushing(p, es, [], [Push(h, es[0])], true)]);
    var s2 := s.(work := s.work[n := Pushing(p, es, [Push(h, es[0])], [], true)]);
    var s3 := State(s.nodes[n := DropFrom(s.nodes[n], es)], s.work[n := Idle], s.done + {(n, p)});
    steps := [Snapshot(n, p, es, t), Send(n, t, t, Delivered), Finish(n)];
    run := [s, s1, s2, s3];
    KeyOfLive(c.f, s.nodes[n], p, t, k, v);
    DropOne(s.nodes[n], k);
    FirstOfLone(c, s, n, h, p, k, v, t, s1);
    RestOfLone(c, s, n, h, p, k, v, t, s1, s2, s3);
    assert IsRun(c, run, steps);
    assert Has(s, n, k) && !Has(s3, n, k);
    assert forall m | m != n :: Has(s3, m, k) ==> Has(s, m, k);
  }

  lemma DropOne(m: Flat, k: Key)
    requires k in m
    ensures k !in DropFrom(m, [Entry(k, m[k])])
  {
  }

  lemma KeyOfLive(f: PartitionFn, m: Flat, p: nat, t: int, k: Key, v: Value)
    requires Live(ShardOf(f, m, p), t) == map[k := v]
    ensures k in m && m[k] == v && !Expired(v, t)
  {
    assert k in Live(ShardOf(f, m, p), t) && Live(ShardOf(f, m, p), t)[k] == v;
  }

  lemma SingleListing(k: Key, v: Value, h: Id)
    ensures Enumerates([Entry(k, v)], map[k := v]) && MetaLast([Entry(k, v)]) == [Entry(k, v)]
    ensures Pushes([h], [Entry(k, v)]) == [Push(h, Entry(k, v))]
  {
    var es := [Entry(k, v)];
    assert es[1..] == [] && [h][..0] == [];
    assert PushesTo(h, es) == [Push(h, es[0])];
    FilterOne(NotMeta(), es[0]);
    FilterOne(IsMeta(), es[0]);
  }

  lemma FilterOne(keep: Entry -> bool, e: Entry)
    ensures Filter(keep, [e]) == if keep(e) then [e] else []
  {
    assert [e][1..] == [];
  }

  lemma FirstOfLone(c: Config, s: State, n: Id, h: Id, p: nat, k: Key, v: Value, t: int, s1: State)
    requires c.layout.ids == [h] && Quiet(c, s) && n in s.nodes && p < PARTITIONS
    requires Live(ShardOf(c.f, s.nodes[n], p), t) == map[k := v] && Targets(c.layout, n, p) == [h]
    requires s1 == s.(work := s.work[n := Pushing(p, [Entry(k, v)], [], [Push(h, Entry(k, v))], true)])
    ensures Next(c, s, Snapshot(n, p, [Entry(k, v)], t), s1)
  {
    hide Sort, Targets, MetaLast, Pushes, Enumerates;
    SingleListing(k, v, h);
  }

  lemma RestOfLone(c: Config, s: State, n: Id, h: Id, p: nat, k: Key, v: Value, t: int, s1: State, s2: State, s3: State)
    requires n in s.nodes && n in s.work && LapsesInFlight(v, t) && !SelfHolds(c.layout, n, p)
    requires var e := Entry(k, v);
             && s1 == s.(work := s.work[n := Pushing(p, [e], [], [Push(h, e)], true)])
             && s2 == s.(work := s.work[n := Pushing(p, [e], [Push(h, e)], [], true)])
             && s3 == State(s.nodes[n := DropFrom(s.nodes[n], [e])], s.work[n := Idle], s.done + {(n, p)})
    ensures Next(c, s1, Send(n, t, t, Delivered), s2) && Next(c, s2, Finish(n), s3)
  {
    hide Sort, Targets, SelfHolds, LapsesInFlight, DropFrom;
    var push := Push(h, Entry(k, v));
    assert [push][1..] == [] && [] + [push] == [push];
    assert s1.work[n := Pushing(p, [push.e], [push], [], true)] == s2.work;
    assert s2.work[n := Idle] == s.work[n := Idle];
  }
}
