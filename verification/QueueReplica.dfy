/**
 * The queue on a backup: it is sent every write of every operation, and may miss deletes of drained
 * segments. What it keeps of them does not matter.
 */
module QueueReplica {
  import opened Bytes
  import opened Queue

  /** b has the owner's metadata and segments, and besides them nothing above the tail. */
  ghost predicate Trails(b: Cells, q: Cells) {
    && b.meta == q.meta
    && (forall id | id in q.segs :: id in b.segs && b.segs[id] == q.segs[id])
    && (forall id | id in b.segs && id !in q.segs :: id <= q.MetaOrZero().tail)
  }

  /** Such a backup stands for the same items. */
  lemma TrailingIsAQueue(b: Cells, q: Cells, items: seq<bytes>)
    requires Trails(b, q) && Represents(q, items)
    ensures Represents(b, items)
  {
    hide Flatten;
    var c :| Stores(q, c) && c.Items() == items;
    forall i | 0 <= i < |c.segs| ensures SegmentAt(b, c, i) { assert SegmentAt(q, c, i); }
    assert Stores(b, c);
  }

  function Sets(ws: seq<Write>): seq<Write> {
    if ws == [] then [] else Sets(ws[..|ws| - 1]) + if ws[|ws| - 1].DelSeg? then [] else [ws[|ws| - 1]]
  }

  /** What an operation on the owner's q leaves of the backup, with its deletes missed or not. */
  function ReplicaAfter(b: Cells, q: Cells, op: Op, missed: bool): Cells {
    var ws := QueuePlan(q, op).writes;
    ApplyWrites(b, if missed then Sets(ws) else ws)
  }

  lemma SetsOfTwo(a: Write, b: Write)
    ensures Sets([]) == [] && Sets([a, b]) == (if a.DelSeg? then [] else [a]) + (if b.DelSeg? then [] else [b])
  {
    assert [a, b][..1] == [a] && [a][..0] == [];
  }

  lemma OfferTrails(b: Cells, q: Cells, x: bytes, missed: bool)
    requires Trails(b, q) && q.MetaOrZero().tail + 1 < U64_SIZE
    ensures Trails(ReplicaAfter(b, q, Offer(x), missed), After(q, Offer(x)))
  {
    var ws := OfferPlan(q, x).writes;
    SetsOfTwo(ws[0], ws[1]);
    WritesUnfold(q, ws[0], ws[1]);
    WritesUnfold(b, ws[0], ws[1]);
    assert ws == [ws[0], ws[1]];
  }

  lemma PollTrails(b: Cells, q: Cells, c: Chain, missed: bool)
    requires Trails(b, q) && Stores(q, c)
    ensures Trails(ReplicaAfter(b, q, Poll, missed), After(q, Poll))
  {
    hide Sets, ApplyWrites;
    var ws := PollPlan(q).writes;
    NoWrites(q);
    NoWrites(b);
    if ws != [] {
      SetsOfTwo(ws[0], ws[1]);
      WritesUnfold(q, ws[0], ws[1]);
      WritesUnfold(b, ws[0], ws[1]);
      WritesUnfold(b, ws[1], ws[1]);
      assert ws == [ws[0], ws[1]] == [ws[0]] + [ws[1]] && [] + [ws[1]] == [ws[1]];
      assert ReplicaAfter(b, q, Poll, missed) ==
             if missed && ws[0].DelSeg? then ApplyWrite(b, ws[1]) else ApplyWrite(ApplyWrite(b, ws[0]), ws[1]);
      assert q.MetaOrZero().head <= q.MetaOrZero().tail;
    }
  }

  lemma NoWrites(q: Cells)
    ensures ApplyWrites(q, []) == q && Sets([]) == []
  {
  }

  /** One operation on the owner, whatever deletes the backup misses. */
  lemma ReplicaStep(b: Cells, q: Cells, items: seq<bytes>, op: Op, missed: bool)
    requires Trails(b, q) && Represents(q, items) && Acceptable(op) && Room(q, 1)
    ensures Trails(ReplicaAfter(b, q, op, missed), After(q, op))
    ensures Represents(After(q, op), Fifo(items, op).0) && Represents(ReplicaAfter(b, q, op, missed), Fifo(items, op).0)
  {
    hide Trails, ReplicaAfter, After, Represents;
    StepRefinesFifo(q, items, op);
    StepTrails(b, q, items, op, missed);
    TrailingIsAQueue(ReplicaAfter(b, q, op, missed), After(q, op), Fifo(items, op).0);
  }

  lemma StepTrails(b: Cells, q: Cells, items: seq<bytes>, op: Op, missed: bool)
    requires Trails(b, q) && Represents(q, items) && Room(q, 1)
    ensures Trails(ReplicaAfter(b, q, op, missed), After(q, op))
  {
    hide Sets, ApplyWrites, Trails, Stores;
    NoWrites(q);
    NoWrites(b);
    match op {
      case Offer(x) => OfferTrails(b, q, x, missed);
      case Poll =>
        var c :| Stores(q, c) && c.Items() == items;
        PollTrails(b, q, c, missed);
      case _ =>
    }
  }

  /** The backup after a run on the owner; missed says of which operations it missed the deletes. */
  function ReplicaRun(b: Cells, q: Cells, ops: seq<Op>, missed: seq<bool>): Cells
    requires |missed| == |ops|
  {
    if ops == [] then b
    else
      var n := |ops| - 1;
      ReplicaAfter(ReplicaRun(b, q, ops[..n], missed[..n]), Run(q, ops[..n]).0, ops[n], missed[n])
  }

  /**
   * Over every run, and whichever deletes it has missed, a backup is at every point a queue with the
   * owner's items; so should it become the owner, every further run answers as the FIFO does.
   */
  lemma {:induction false} ReplicaRunIsAQueue(b: Cells, q: Cells, items: seq<bytes>, ops: seq<Op>, missed: seq<bool>)
    requires Trails(b, q) && Represents(q, items) && Room(q, |ops|) && |missed| == |ops|
    requires forall i | 0 <= i < |ops| :: Acceptable(ops[i])
    ensures Trails(ReplicaRun(b, q, ops, missed), Run(q, ops).0)
    ensures Represents(ReplicaRun(b, q, ops, missed), FifoRun(items, ops).0)
  {
    hide Trails, Represents, ReplicaAfter, QueuePlan, After, Fifo;
    RunRefinesFifo(q, items, ops);
    if ops != [] {
      var n := |ops| - 1;
      var front := ops[..n];
      ReplicaRunIsAQueue(b, q, items, front, missed[..n]);
      RunRefinesFifo(q, items, front);
      ReplicaStep(ReplicaRun(b, q, front, missed[..n]), Run(q, front).0, FifoRun(items, front).0, ops[n], missed[n]);
    }
    TrailingIsAQueue(ReplicaRun(b, q, ops, missed), Run(q, ops).0, FifoRun(items, ops).0);
  }

  /** The promoted backup: the owner's run, and then a run of its own. */
  lemma PromotedReplicaIsFifo(b: Cells, q: Cells, items: seq<bytes>, ops: seq<Op>, missed: seq<bool>, further: seq<Op>)
    requires Trails(b, q) && Represents(q, items) && Room(q, |ops| + |further|) && |missed| == |ops|
    requires forall i | 0 <= i < |ops| :: Acceptable(ops[i])
    requires forall i | 0 <= i < |further| :: Acceptable(further[i])
    ensures var left := FifoRun(items, ops).0;
            var promoted := ReplicaRun(b, q, ops, missed);
            Run(promoted, further).1 == FifoRun(left, further).1 &&
            Represents(Run(promoted, further).0, FifoRun(left, further).0)
  {
    hide Represents, Run, FifoRun, ReplicaRun;
    RunRefinesFifo(q, items, ops);
    ReplicaRunIsAQueue(b, q, items, ops, missed);
    RunRefinesFifo(ReplicaRun(b, q, ops, missed), FifoRun(items, ops).0, further);
  }
}
