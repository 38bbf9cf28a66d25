/**
 * Any sequence of queue operations, each at its own instant, on one node's entries, among writes to
 * ordinary maps and sweeps of what has expired.
 */
module QueueRuns {
  import opened Bytes
  import opened Entries
  import opened Queue
  import opened QueueStore

  datatype Event =
    | Operate(name: bytes, op: Op, now: int)
    | Write(r: Record)
    | Sweep(now: int)

  function NameOf(r: Record): bytes {
    match r
    case Put(k, _) => k.name
    case Remove(k) => k.name
    case Clear(name) => name
  }

  /** Items fit their header, and the map interface refuses the two reserved maps. */
  predicate Allowed(e: Event) {
    match e
    case Operate(_, op, _) => Acceptable(op)
    case Write(r) => !IsReserved(NameOf(r))
    case Sweep(_) => true
  }

  ghost function After(m: Flat, e: Event): Flat {
    match e
    case Operate(name, op, now) => ApplyAll(m, OpRecords(m, now, name, op))
    case Write(r) => Apply(m, r)
    case Sweep(now) => Live(m, now)
  }

  /** What an operation on the named queue answered. */
  datatype Answer = Answer(name: bytes, reply: Reply)

  /** The entries after the events, and what the queue operations among them answered. */
  ghost function Run(m: Flat, es: seq<Event>): (Flat, seq<Answer>) {
    if es == [] then (m, [])
    else
      var n := |es| - 1;
      var (m1, replies) := Run(m, es[..n]);
      (After(m1, es[n]),
       if es[n].Operate?
       then replies + [Answer(es[n].name, QueuePlan(CellsOf(m1, es[n].now, es[n].name), es[n].op).reply)]
       else replies)
  }

  // ---- the reference: a FIFO for each name ------------------------------------------------

  type Fifos = bytes -> seq<bytes>

  function FifosAfter(q: Fifos, e: Event): Fifos {
    if e.Operate? then name => if name == e.name then Fifo(q(name), e.op).0 else q(name) else q
  }

  function FifosRun(q: Fifos, es: seq<Event>): (Fifos, seq<Answer>) {
    if es == [] then (q, [])
    else
      var n := |es| - 1;
      var (q1, replies) := FifosRun(q, es[..n]);
      (FifosAfter(q1, es[n]),
       if es[n].Operate? then replies + [Answer(es[n].name, Fifo(q1(es[n].name), es[n].op).1)] else replies)
  }

  function OpsOn(name: bytes, es: seq<Event>): seq<Op> {
    if es == [] then []
    else
      var e := es[|es| - 1];
      OpsOn(name, es[..|es| - 1]) + if e.Operate? && e.name == name then [e.op] else []
  }

  function RepliesOf(name: bytes, answers: seq<Answer>): seq<Reply> {
    if answers == [] then []
    else
      var a := answers[|answers| - 1];
      RepliesOf(name, answers[..|answers| - 1]) + if a.name == name then [a.reply] else []
  }

  lemma RepliesMore(name: bytes, answers: seq<Answer>, a: Answer)
    ensures RepliesOf(name, answers + [a]) == RepliesOf(name, answers) + if a.name == name then [a.reply] else []
  {
    assert (answers + [a])[..|answers + [a]| - 1] == answers;
  }

  /** Each queue is a FIFO of its own: only the operations on it decide its contents and replies. */
  lemma {:induction false} FifosAreIndependent(q: Fifos, es: seq<Event>, name: bytes)
    ensures FifosRun(q, es).0(name) == FifoRun(q(name), OpsOn(name, es)).0
    ensures RepliesOf(name, FifosRun(q, es).1) == FifoRun(q(name), OpsOn(name, es)).1
  {
    hide FifoRun, RepliesOf, Fifo;
    if es == [] {
      NoOperations(q(name), name);
    } else {
      var n := |es| - 1;
      var e := es[n];
      FifosAreIndependent(q, es[..n], name);
      var q1, answers := FifosRun(q, es[..n]).0, FifosRun(q, es[..n]).1;
      if e.Operate? { RepliesMore(name, answers, Answer(e.name, Fifo(q1(e.name), e.op).1)); }
      if e.Operate? && e.name == name {
        FifoRunMore(q(name), OpsOn(name, es[..n]), e.op);
      } else {
        assert OpsOn(name, es) == OpsOn(name, es[..n]);
        assert RepliesOf(name, answers) + [] == RepliesOf(name, answers);
      }
    }
  }

  lemma NoOperations(items: seq<bytes>, name: bytes)
    ensures FifoRun(items, []) == (items, []) && RepliesOf(name, []) == []
  {
  }

  lemma FifoRunMore(items: seq<bytes>, ops: seq<Op>, op: Op)
    ensures var (left, replies) := FifoRun(items, ops);
            FifoRun(items, ops + [op]) == (Fifo(left, op).0, replies + [Fifo(left, op).1])
  {
    assert (ops + [op])[..|ops + [op]| - 1] == ops;
  }

  // ---- every run --------------------------------------------------------------------------

  /** Every queue of m, at every instant, holds what its FIFO does. */
  ghost predicate Holds(m: Flat, q: Fifos) {
    Persistent(m) && forall name, now :: QueueAt(m, now, name, q(name))
  }

  ghost predicate Roomy(m: Flat, name: bytes, n: nat) {
    forall now :: Room(CellsOf(m, now, name), n)
  }

  /** How much of a queue's room the event takes. */
  function Cost(name: bytes, e: Event): nat {
    if e.Operate? && e.name == name then 1 else 0
  }

  /** Whatever room a queue had, what is left is less only by the operations on it. */
  ghost predicate KeepsRoom(m: Flat, m': Flat, es: seq<Event>) {
    forall name, n: nat | n >= |OpsOn(name, es)| && Roomy(m, name, n) :: Roomy(m', name, n - |OpsOn(name, es)|)
  }

  ghost predicate Pays(m: Flat, m': Flat, e: Event) {
    forall name, n: nat | n >= Cost(name, e) && Roomy(m, name, n) :: Roomy(m', name, n - Cost(name, e))
  }

  lemma KeepsRoomMore(m: Flat, m1: Flat, m2: Flat, es: seq<Event>, e: Event)
    requires KeepsRoom(m, m1, es) && Pays(m1, m2, e)
    ensures KeepsRoom(m, m2, es + [e])
  {
    hide Roomy, OpsOn, Cost, KeepsRoom, Pays;
    forall name, n: nat | n >= |OpsOn(name, es + [e])| && Roomy(m, name, n)
      ensures Roomy(m2, name, n - |OpsOn(name, es + [e])|)
    {
      OpsOnMore(name, es, e);
      RoomLeft(m, m1, name, es, n);
      PaysOne(m1, m2, e, name, n - |OpsOn(name, es)|);
    }
    KeepsRoomIs(m, m2, es + [e]);
  }

  lemma KeepsRoomIs(m: Flat, m': Flat, es: seq<Event>)
    requires forall name, n: nat | n >= |OpsOn(name, es)| && Roomy(m, name, n) :: Roomy(m', name, n - |OpsOn(name, es)|)
    ensures KeepsRoom(m, m', es)
  {
    hide Roomy, OpsOn;
  }

  lemma PaysOne(m: Flat, m': Flat, e: Event, name: bytes, n: nat)
    requires Pays(m, m', e) && n >= Cost(name, e) && Roomy(m, name, n)
    ensures Roomy(m', name, n - Cost(name, e))
  {
    hide Roomy, Cost;
  }

  lemma RoomLeft(m: Flat, m1: Flat, name: bytes, es: seq<Event>, n: nat)
    requires KeepsRoom(m, m1, es) && n >= |OpsOn(name, es)| && Roomy(m, name, n)
    ensures Roomy(m1, name, n - |OpsOn(name, es)|)
  {
    hide Roomy, OpsOn;
  }

  lemma OpsOnMore(name: bytes, es: seq<Event>, e: Event)
    ensures |OpsOn(name, es + [e])| == |OpsOn(name, es)| + Cost(name, e)
  {
    assert (es + [e])[..|es + [e]| - 1] == es;
  }

  lemma SameCells(m: Flat, m': Flat, name: bytes)
    requires forall k: Key | IsReserved(k.name) :: Lookup(m', k) == Lookup(m, k)
    ensures forall now :: CellsOf(m', now, name) == CellsOf(m, now, name)
    ensures Persistent(m) ==> Persistent(m')
  {
    hide CellsOf;
    forall k: Key, now | IsReserved(k.name) ensures Read(m', k, now) == Read(m, k, now) {
      assert Lookup(m', k) == Lookup(m, k);
    }
    forall now ensures CellsOf(m', now, name) == CellsOf(m, now, name) {
      SameReads(m', now, m, now, name);
    }
    forall k | k in m' && IsReserved(k.name) ensures Persistent(m) ==> m'[k].expireAt == 0 {
      assert Lookup(m', k) == Lookup(m, k);
    }
  }

  /** A write to an ordinary map, or a sweep, leaves the queues' entries alone. */
  lemma QueuesUntouched(m: Flat, e: Event)
    requires Persistent(m) && Allowed(e) && !e.Operate?
    ensures forall k: Key | IsReserved(k.name) :: Lookup(After(m, e), k) == Lookup(m, k)
  {
  }

  lemma QuietStep(m: Flat, q: Fifos, e: Event)
    requires Holds(m, q) && Allowed(e) && !e.Operate?
    ensures Holds(After(m, e), q)
    ensures forall name, n: nat | Roomy(m, name, n) :: Roomy(After(m, e), name, n)
  {
    hide CellsOf, Persistent, After;
    QueuesUntouched(m, e);
    SameCells(m, After(m, e), []);
    forall name, now ensures CellsOf(After(m, e), now, name) == CellsOf(m, now, name) {
      SameCells(m, After(m, e), name);
    }
    forall name, now ensures QueueAt(After(m, e), now, name, q(name)) {
      assert QueueAt(m, now, name, q(name));
    }
  }

  /** An operation at its instant: what it leaves, read at any other. */
  lemma OperateStep(m: Flat, q: Fifos, e: Event)
    requires Holds(m, q) && Allowed(e) && e.Operate? && Roomy(m, e.name, 1)
    ensures Persistent(After(m, e))
    ensures QueuePlan(CellsOf(m, e.now, e.name), e.op).reply == Fifo(q(e.name), e.op).1
    ensures forall name, now :: CellsOf(After(m, e), now, name) ==
              if name == e.name then Queue.After(CellsOf(m, e.now, name), e.op) else CellsOf(m, now, name)
    ensures Represents(Queue.After(CellsOf(m, e.now, e.name), e.op), Fifo(q(e.name), e.op).0)
    ensures var c := CellsOf(m, e.now, e.name).MetaOrZero();
            var c' := Queue.After(CellsOf(m, e.now, e.name), e.op).MetaOrZero();
            c'.tail <= c.tail + 1 && c'.count <= c.count + 1
  {
    hide CellsOf, QueuePlan, RecordsOf, Persistent, Represents, ApplyAll, ApplyWrites;
    var m' := After(m, e);
    var ws := QueuePlan(CellsOf(m, e.now, e.name), e.op).writes;
    assert QueueAt(m, e.now, e.name, q(e.name)) && Room(CellsOf(m, e.now, e.name), 1);
    StepRefinesFifo(CellsOf(m, e.now, e.name), q(e.name), e.op);
    PlanInRange(m, e.now, e.name, e.op);
    QueueRecordsKeepPersistent(e.name, ws);
    RecordsPersist(m, RecordsOf(e.name, ws));
    CellsAfterWrites(m, e.now, e.name, ws);
    forall name, now
      ensures CellsOf(m', now, name) ==
              if name == e.name then Queue.After(CellsOf(m, e.now, name), e.op) else CellsOf(m, now, name)
    {
      CellsAnyTime(m', name, now, e.now);
      CellsAnyTime(m, name, now, e.now);
    }
  }

  lemma HoldsStep(m: Flat, q: Fifos, e: Event)
    requires Holds(m, q) && Allowed(e) && (e.Operate? ==> Roomy(m, e.name, 1))
    ensures Holds(After(m, e), FifosAfter(q, e))
    ensures Pays(m, After(m, e), e)
  {
    hide CellsOf, QueuePlan, Persistent, After, Represents, Queue.After;
    if e.Operate? {
      OperateStep(m, q, e);
      forall name, now ensures QueueAt(After(m, e), now, name, FifosAfter(q, e)(name)) {
        assert QueueAt(m, now, name, q(name));
      }
      forall name, n: nat | n >= Cost(name, e) && Roomy(m, name, n)
        ensures Roomy(After(m, e), name, n - Cost(name, e))
      {
        assert Room(CellsOf(m, e.now, name), n);
      }
    } else {
      QuietStep(m, q, e);
    }
  }

  /** Each queue operated on has room for the operations on it. */
  ghost predicate RoomFor(m: Flat, es: seq<Event>) {
    forall i | 0 <= i < |es| && es[i].Operate? :: Roomy(m, es[i].name, |OpsOn(es[i].name, es)|)
  }

  lemma {:induction false} RunHolds(m: Flat, q: Fifos, es: seq<Event>)
    requires Holds(m, q) && (forall i | 0 <= i < |es| :: Allowed(es[i])) && RoomFor(m, es)
    ensures Holds(Run(m, es).0, FifosRun(q, es).0) && Run(m, es).1 == FifosRun(q, es).1
    ensures KeepsRoom(m, Run(m, es).0, es)
  {
    hide CellsOf, QueuePlan, Holds, After, FifosAfter, Roomy, KeepsRoom, Allowed, OpsOn;
    if es == [] {
      RoomKept(m);
    } else {
      var n := |es| - 1;
      var front, e := es[..n], es[n];
      assert es == front + [e];
      forall i | 0 <= i < n && front[i].Operate? ensures Roomy(m, front[i].name, |OpsOn(front[i].name, front)|) {
        OpsOnMore(es[i].name, front, e);
        LessRoom(m, es[i].name, |OpsOn(es[i].name, es)|, |OpsOn(es[i].name, front)|);
      }
      RunHolds(m, q, front);
      var m1, q1 := Run(m, front).0, FifosRun(q, front).0;
      if e.Operate? {
        OpsOnMore(e.name, front, e);
        RoomLeft(m, m1, e.name, front, |OpsOn(e.name, es)|);
        OperateStep(m1, q1, e);
      }
      HoldsStep(m1, q1, e);
      KeepsRoomMore(m, m1, After(m1, e), front, e);
    }
  }

  lemma RoomKept(m: Flat)
    ensures KeepsRoom(m, m, [])
  {
    hide Roomy;
  }

  lemma LessRoom(m: Flat, name: bytes, n: nat, less: nat)
    requires Roomy(m, name, n) && less <= n
    ensures Roomy(m, name, less)
  {
    hide CellsOf;
    forall now ensures Room(CellsOf(m, now, name), less) { assert Room(CellsOf(m, now, name), n); }
  }

  /** The same events without the queue operations. */
  ghost function PlainRun(m: Flat, es: seq<Event>): Flat {
    if es == [] then m
    else
      var m1 := PlainRun(m, es[..|es| - 1]);
      if es[|es| - 1].Operate? then m1 else After(m1, es[|es| - 1])
  }

  lemma {:induction false} OrdinaryMapsRun(m: Flat, es: seq<Event>, k: Key)
    requires !IsReserved(k.name)
    ensures Lookup(Run(m, es).0, k) == Lookup(PlainRun(m, es), k)
  {
    hide CellsOf, QueuePlan, RecordsOf, ApplyAll;
    if es != [] {
      var n := |es| - 1;
      OrdinaryMapsRun(m, es[..n], k);
      var m1, e := Run(m, es[..n]).0, es[n];
      if e.Operate? {
        PlanInRange(m1, e.now, e.name, e.op);
        CellsAfterWrites(m1, e.now, e.name, QueuePlan(CellsOf(m1, e.now, e.name), e.op).writes);
      }
    }
  }

  /**
   * Every run on a node's entries, at any instants in any order, with anything going on in ordinary
   * maps: each queue answers and ends as a FIFO that only its own operations touch, and each
   * ordinary key as if there were no queues.
   */
  lemma RunIsIndependentFifos(m: Flat, q: Fifos, es: seq<Event>)
    requires Holds(m, q) && (forall i | 0 <= i < |es| :: Allowed(es[i])) && RoomFor(m, es)
    ensures forall name, now :: QueueAt(Run(m, es).0, now, name, FifoRun(q(name), OpsOn(name, es)).0)
    ensures forall name :: RepliesOf(name, Run(m, es).1) == FifoRun(q(name), OpsOn(name, es)).1
    ensures forall k: Key | !IsReserved(k.name) :: Lookup(Run(m, es).0, k) == Lookup(PlainRun(m, es), k)
  {
    hide CellsOf, Run, FifosRun, Persistent, Represents, OpsOn, PlainRun, RepliesOf, FifoRun;
    RunHolds(m, q, es);
    forall name, now ensures QueueAt(Run(m, es).0, now, name, FifoRun(q(name), OpsOn(name, es)).0) {
      FifosAreIndependent(q, es, name);
    }
    forall name ensures RepliesOf(name, Run(m, es).1) == FifoRun(q(name), OpsOn(name, es)).1 {
      FifosAreIndependent(q, es, name);
    }
    forall k: Key | !IsReserved(k.name) ensures Lookup(Run(m, es).0, k) == Lookup(PlainRun(m, es), k) {
      OrdinaryMapsRun(m, es, k);
    }
  }

  /** A node without queue entries starts with every queue empty. */
  lemma NoQueues(m: Flat)
    requires forall k | k in m :: !IsReserved(k.name)
    ensures Holds(m, _ => []) && forall name, n: nat | n < U64_SIZE :: Roomy(m, name, n)
  {
    hide CellsOf, Represents;
    forall name, now ensures CellsOf(m, now, name) == Cells(None, map[]) {
      SameReads(m, now, map[], now, name);
      NoCells(now, name);
    }
    EmptyQueue();
  }

  lemma NoCells(now: int, name: bytes)
    ensures CellsOf(map[], now, name) == Cells(None, map[])
  {
    assert CellsOf(map[], now, name).segs == map[];
  }

  lemma EmptyQueue()
    ensures Represents(Cells(None, map[]), [])
  {
    assert Stores(Cells(None, map[]), Chain(0, []));
  }
}
