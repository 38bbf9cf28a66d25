/**
 * The transactional FIFO queue: one metadata record (head, tail, count) and a chain of packed
 * segments addressed by a 64-bit id. This module works on those cells; QueueStore places them
 * in the shard's entries.
 */
module Queue {
  import opened Bytes
  import opened Packing

  const MAX_SEG_BYTES: nat := 64 * 1024

  datatype Meta = Meta(head: nat, tail: nat, count: nat)

  /** The co-located state of one queue, as the get accessor shows it. */
  datatype Cells = Cells(meta: Option<Meta>, segs: map<nat, bytes>) {
    function MetaOrZero(): Meta { if meta.Some? then meta.value else Meta(0, 0, 0) }
    function Seg(id: nat): bytes { if id in segs then segs[id] else [] }
  }

  datatype Write = SetSeg(id: nat, val: bytes) | DelSeg(id: nat) | SetMeta(m: Meta)

  datatype Op = Offer(arg: bytes) | Poll | Peek | Size | Unknown

  datatype Reply = Sized(n: nat) | Found(item: bytes) | Empty | UnknownOperation | Panic

  datatype Plan = Plan(writes: seq<Write>, reply: Reply)

  // ---- one operation ----------------------------------------------------------------------

  /** The id an offer writes and the packed content it appends to; a full tail segment rolls. */
  function OfferSlot(q: Cells, arg: bytes): (nat, bytes) {
    var m := q.MetaOrZero();
    var seg := if m.count > 0 then q.Seg(m.tail) else [];
    if |seg| != 0 && |seg| + 4 + |arg| > MAX_SEG_BYTES then
      var next := (m.tail + 1) % U64_SIZE;
      (next, q.Seg(next))
    else (m.tail, seg)
  }

  function OfferPlan(q: Cells, arg: bytes): Plan {
    var m := q.MetaOrZero();
    var (tail, seg) := OfferSlot(q, arg);
    var count := (m.count + 1) % U64_SIZE;
    Plan([SetSeg(tail, AppendPacked(seg, arg)), SetMeta(Meta(m.head, tail, count))], Sized(count))
  }

  /** The head item, unless the metadata says empty or the head segment is absent or torn. */
  function PeekHead(q: Cells): HeadResult {
    var m := q.MetaOrZero();
    if m.count == 0 || m.head !in q.segs then NoItem else QueueHead(q.segs[m.head])
  }

  function PollPlan(q: Cells): Plan {
    var m := q.MetaOrZero();
    match PeekHead(q)
    case NoItem => Plan([], Empty)
    case Panics => Plan([], Panic)
    case Head(item, rest) =>
      var head := if rest == [] && m.head < m.tail then m.head + 1 else m.head;
      Plan([if rest == [] then DelSeg(m.head) else SetSeg(m.head, rest),
            SetMeta(Meta(head, m.tail, m.count - 1))],
           Found(item))
  }

  function PeekReply(q: Cells): Reply {
    match PeekHead(q)
    case NoItem => Empty
    case Panics => Panic
    case Head(item, _) => Found(item)
  }

  /** What one queue operation writes and answers, given the cells it reads. */
  function QueuePlan(q: Cells, op: Op): Plan {
    match op
    case Offer(arg) => OfferPlan(q, arg)
    case Poll => PollPlan(q)
    case Peek => Plan([], PeekReply(q))
    case Size => Plan([], Sized(q.MetaOrZero().count))
    case Unknown => Plan([], UnknownOperation)
  }

  function ApplyWrite(q: Cells, w: Write): Cells {
    match w
    case SetSeg(id, val) => q.(segs := q.segs[id := val])
    case DelSeg(id) => q.(segs := q.segs - {id})
    case SetMeta(m) => q.(meta := Some(m))
  }

  function ApplyWrites(q: Cells, ws: seq<Write>): Cells {
    if ws == [] then q else ApplyWrite(ApplyWrites(q, ws[..|ws| - 1]), ws[|ws| - 1])
  }

  function After(q: Cells, op: Op): Cells {
    ApplyWrites(q, QueuePlan(q, op).writes)
  }

  lemma WritesUnfold(q: Cells, a: Write, b: Write)
    ensures ApplyWrites(q, [a]) == ApplyWrite(q, a)
    ensures ApplyWrites(q, [a, b]) == ApplyWrite(ApplyWrite(q, a), b)
  {
    assert [a, b][..1] == [a] && [a][..0] == [];
  }

  // ---- the abstract queue -----------------------------------------------------------------

  /** A plain FIFO sequence. */
  function Fifo(items: seq<bytes>, op: Op): (seq<bytes>, Reply) {
    match op
    case Offer(x) => (items + [x], Sized(|items| + 1))
    case Poll => if items == [] then (items, Empty) else (items[1..], Found(items[0]))
    case Peek => (items, if items == [] then Empty else Found(items[0]))
    case Size => (items, Sized(|items|))
    case Unknown => (items, UnknownOperation)
  }

  function Flatten(segs: seq<seq<bytes>>): seq<bytes> {
    if segs == [] then [] else segs[0] + Flatten(segs[1..])
  }

  /** The items grouped by segment; segment i of the chain has id head + i. */
  datatype Chain = Chain(head: nat, segs: seq<seq<bytes>>) {
    function Tail(): nat { if segs == [] then head else head + |segs| - 1 }
    function Items(): seq<bytes> { Flatten(segs) }
    function AsMeta(): Meta { Meta(head, Tail(), |Items()|) }
  }

  predicate GoodSegment(items: seq<bytes>) {
    && items != []
    && AllPackable(items)
    && (|Pack(items)| <= MAX_SEG_BYTES || |items| == 1)
  }

  ghost predicate WellFormed(c: Chain) {
    && c.Tail() < U64_SIZE
    && |c.Items()| < U64_SIZE
    && forall i | 0 <= i < |c.segs| :: GoodSegment(c.segs[i])
  }

  predicate SegmentAt(q: Cells, c: Chain, i: nat)
    requires i < |c.segs|
  {
    c.head + i in q.segs && q.segs[c.head + i] == Pack(c.segs[i])
  }

  /**
   * q holds exactly the queue c. Nothing is said about segments below the head, nor about the
   * tail segment of a drained queue: whatever a missed delete left there is allowed.
   */
  ghost predicate Stores(q: Cells, c: Chain) {
    && WellFormed(c)
    && (if q.meta.Some? then q.meta.value == c.AsMeta() else c.head == 0 && c.segs == [])
    && (forall i | 0 <= i < |c.segs| :: SegmentAt(q, c, i))
    && (forall id | id in q.segs :: id <= c.Tail())
  }

  ghost predicate Represents(q: Cells, items: seq<bytes>) {
    exists c :: Stores(q, c) && c.Items() == items
  }

  lemma {:induction false} FlattenAppend(segs: seq<seq<bytes>>, s: seq<bytes>)
    ensures Flatten(segs + [s]) == Flatten(segs) + s
  {
    if segs == [] {
      assert [s][1..] == [];
    } else {
      assert (segs + [s])[1..] == segs[1..] + [s];
      FlattenAppend(segs[1..], s);
    }
  }

  lemma ItemsEmpty(c: Chain)
    requires WellFormed(c)
    ensures c.Items() == [] <==> c.segs == []
  {
    if c.segs != [] {
      assert GoodSegment(c.segs[0]);
    }
  }

  lemma PackOne(x: bytes)
    ensures Pack([x]) == AppendPacked([], x)
  {
    PackAppend([], x);
    assert [] + [x] == [x];
  }

  // ---- offer ------------------------------------------------------------------------------

  function OfferChain(c: Chain, x: bytes): Chain {
    if c.segs == [] then c.(segs := [[x]])
    else
      var n := |c.segs| - 1;
      if |Pack(c.segs[n])| + 4 + |x| > MAX_SEG_BYTES then c.(segs := c.segs + [[x]])
      else c.(segs := c.segs[..n] + [c.segs[n] + [x]])
  }

  lemma OfferChainItems(c: Chain, x: bytes)
    ensures OfferChain(c, x).Items() == c.Items() + [x]
  {
    if c.segs == [] {
      FlattenAppend([], [x]);
      assert [] + [[x]] == [[x]];
    } else {
      var n := |c.segs| - 1;
      assert c.segs == c.segs[..n] + [c.segs[n]];
      FlattenAppend(c.segs[..n], c.segs[n]);
      FlattenAppend(c.segs[..n], c.segs[n] + [x]);
      FlattenAppend(c.segs, [x]);
    }
  }

  lemma OfferChainWellFormed(c: Chain, x: bytes)
    requires WellFormed(c) && Packable(x)
    requires c.Tail() + 1 < U64_SIZE && |c.Items()| + 1 < U64_SIZE
    ensures WellFormed(OfferChain(c, x))
    ensures c.Tail() <= OfferChain(c, x).Tail() <= c.Tail() + 1
  {
    OfferChainItems(c, x);
    PackOne(x);
    if c.segs != [] {
      assert GoodSegment(c.segs[|c.segs| - 1]);
      PackAppend(c.segs[|c.segs| - 1], x);
    }
  }

  lemma OfferSlotIs(q: Cells, c: Chain, x: bytes)
    requires Stores(q, c) && c.Tail() + 1 < U64_SIZE
    ensures var c' := OfferChain(c, x);
            var (tail, seg) := OfferSlot(q, x);
            tail == c'.Tail() && AppendPacked(seg, x) == Pack(c'.segs[|c'.segs| - 1])
  {
    hide Pack, AppendPacked, Flatten;
    ItemsEmpty(c);
    PackOne(x);
    if c.segs != [] {
      var n := |c.segs| - 1;
      assert SegmentAt(q, c, n);
      assert GoodSegment(c.segs[n]);
      PackLength(c.segs[n]);
      PackAppend(c.segs[n], x);
    }
  }

  lemma OfferPlanIs(q: Cells, c: Chain, x: bytes)
    requires Stores(q, c)
    requires c.Tail() + 1 < U64_SIZE && |c.Items()| + 1 < U64_SIZE
    ensures var c' := OfferChain(c, x);
            OfferPlan(q, x) ==
            Plan([SetSeg(c'.Tail(), Pack(c'.segs[|c'.segs| - 1])), SetMeta(c'.AsMeta())],
                 Sized(|c.Items()| + 1))
  {
    hide Pack, AppendPacked, Flatten;
    ItemsEmpty(c);
    OfferSlotIs(q, c, x);
    OfferChainItems(c, x);
  }

  lemma OfferKeeps(q: Cells, c: Chain, x: bytes)
    requires Stores(q, c) && Packable(x)
    requires c.Tail() + 1 < U64_SIZE && |c.Items()| + 1 < U64_SIZE
    ensures Stores(After(q, Offer(x)), OfferChain(c, x))
  {
    hide Pack, AppendPacked, Flatten;
    var c' := OfferChain(c, x);
    OfferPlanIs(q, c, x);
    OfferChainWellFormed(c, x);
    var n := |c'.segs| - 1;
    var last := Pack(c'.segs[n]);
    WritesUnfold(q, SetSeg(c'.Tail(), last), SetMeta(c'.AsMeta()));
    var q' := After(q, Offer(x));
    assert q' == Cells(Some(c'.AsMeta()), q.segs[c'.Tail() := last]);
    forall i | 0 <= i < n
      ensures SegmentAt(q', c', i)
    {
      assert SegmentAt(q, c, i);
      assert c'.segs[i] == c.segs[i];
    }
    assert SegmentAt(q', c', n);
  }

  // ---- poll -------------------------------------------------------------------------------

  function PollChain(c: Chain): Chain
    requires c.segs != [] && c.segs[0] != []
  {
    if |c.segs[0]| > 1 then c.(segs := [c.segs[0][1..]] + c.segs[1..])
    else if |c.segs| == 1 then c.(segs := [])
    else Chain(c.head + 1, c.segs[1..])
  }

  lemma PollChainItems(c: Chain)
    requires c.segs != [] && c.segs[0] != []
    ensures c.Items() != [] && c.Items()[0] == c.segs[0][0]
    ensures PollChain(c).Items() == c.Items()[1..]
  {
    var s := c.segs[0];
    if |s| > 1 {
      assert PollChain(c).segs[1..] == c.segs[1..];
    } else if |c.segs| == 1 {
      assert c.segs[1..] == [];
    }
  }

  lemma PollChainWellFormed(c: Chain)
    requires WellFormed(c) && c.segs != []
    ensures c.segs[0] != [] && WellFormed(PollChain(c))
    ensures PollChain(c).Tail() == c.Tail()
  {
    assert GoodSegment(c.segs[0]);
    PollChainItems(c);
    if |c.segs[0]| > 1 {
      assert GoodSegment(c.segs[0][1..]);
    }
  }

  lemma HeadStored(q: Cells, c: Chain)
    requires Stores(q, c) && c.segs != []
    ensures c.segs[0] != []
    ensures PeekHead(q) == Head(c.segs[0][0], Pack(c.segs[0][1..]))
  {
    ItemsEmpty(c);
    assert SegmentAt(q, c, 0);
    assert GoodSegment(c.segs[0]);
    HeadOfPack(c.segs[0]);
  }

  lemma PollPlanIs(q: Cells, c: Chain)
    requires Stores(q, c) && c.segs != []
    ensures c.segs[0] != []
    ensures PollPlan(q) ==
            Plan([if |c.segs[0]| == 1 then DelSeg(c.head) else SetSeg(c.head, Pack(c.segs[0][1..])),
                  SetMeta(PollChain(c).AsMeta())],
                 Found(c.segs[0][0]))
  {
    hide Pack, AppendPacked, Flatten;
    HeadStored(q, c);
    PollChainItems(c);
    PollChainWellFormed(c);
    PackLength(c.segs[0][1..]);
  }

  lemma PollKeeps(q: Cells, c: Chain)
    requires Stores(q, c) && c.segs != []
    ensures c.segs[0] != [] && Stores(After(q, Poll), PollChain(c))
  {
    hide Pack, AppendPacked, Flatten;
    PollPlanIs(q, c);
    PollChainWellFormed(c);
    var c' := PollChain(c);
    var q' := After(q, Poll);
    WritesUnfold(q, PollPlan(q).writes[0], PollPlan(q).writes[1]);
    forall i | 0 <= i < |c'.segs|
      ensures SegmentAt(q', c', i)
    {
      var j := c'.head + i - c.head;
      assert SegmentAt(q, c, j);
      assert j == 0 || c'.segs[i] == c.segs[j];
    }
  }

  // ---- refinement -------------------------------------------------------------------------

  /** The 64-bit tail and count have room for n more operations. */
  predicate Room(q: Cells, n: nat) {
    q.MetaOrZero().tail + n < U64_SIZE && q.MetaOrZero().count + n < U64_SIZE
  }

  predicate Acceptable(op: Op) {
    op.Offer? ==> Packable(op.arg)
  }

  /**
   * One operation on the stored queue is one step of the plain FIFO; head and tail never go
   * back and the tail advances by at most one.
   */
  lemma StepRefinesFifo(q: Cells, items: seq<bytes>, op: Op)
    requires Represents(q, items) && Acceptable(op) && Room(q, 1)
    ensures Represents(After(q, op), Fifo(items, op).0)
    ensures QueuePlan(q, op).reply == Fifo(items, op).1
    ensures var m, m' := q.MetaOrZero(), After(q, op).MetaOrZero();
            && m.head <= m'.head && m.tail <= m'.tail <= m.tail + 1
            && m.count == |items| && m'.count == |Fifo(items, op).0|
  {
    hide Pack, AppendPacked, Flatten;
    var c: Chain :| Stores(q, c) && c.Items() == items;
    ItemsEmpty(c);
    match op {
      case Offer(x) =>
        OfferKeeps(q, c, x);
        OfferChainItems(c, x);
        OfferChainWellFormed(c, x);
        OfferPlanIs(q, c, x);
      case Poll =>
        if c.segs != [] {
          PollKeeps(q, c);
          PollChainItems(c);
          PollChainWellFormed(c);
          PollPlanIs(q, c);
        }
      case Peek =>
        if c.segs != [] {
          HeadStored(q, c);
          PollChainItems(c);
        }
      case Size =>
      case Unknown =>
    }
  }

  // ---- whole runs -------------------------------------------------------------------------

  function Run(q: Cells, ops: seq<Op>): (Cells, seq<Reply>) {
    if ops == [] then (q, [])
    else
      var (q1, rs) := Run(q, ops[..|ops| - 1]);
      var op := ops[|ops| - 1];
      (After(q1, op), rs + [QueuePlan(q1, op).reply])
  }

  function FifoRun(items: seq<bytes>, ops: seq<Op>): (seq<bytes>, seq<Reply>) {
    if ops == [] then (items, [])
    else
      var (items1, rs) := FifoRun(items, ops[..|ops| - 1]);
      var (items2, r) := Fifo(items1, ops[|ops| - 1]);
      (items2, rs + [r])
  }

  /** Every run of operations answers as the plain FIFO does and ends in its state. */
  lemma {:induction false} RunRefinesFifo(q: Cells, items: seq<bytes>, ops: seq<Op>)
    requires Represents(q, items) && Room(q, |ops|)
    requires forall i | 0 <= i < |ops| :: Acceptable(ops[i])
    ensures Represents(Run(q, ops).0, FifoRun(items, ops).0)
    ensures Run(q, ops).1 == FifoRun(items, ops).1
    ensures var m, m' := q.MetaOrZero(), Run(q, ops).0.MetaOrZero();
            && m.head <= m'.head && m.tail <= m'.tail <= m.tail + |ops|
            && m'.count == |FifoRun(items, ops).0| <= m.count + |ops|
  {
    hide Pack, AppendPacked, Flatten, Represents, QueuePlan, ApplyWrites;
    if ops == [] {
      RepresentedCount(q, items);
    } else {
      var front, op := ops[..|ops| - 1], ops[|ops| - 1];
      RunRefinesFifo(q, items, front);
      assert Acceptable(op);
      StepRefinesFifo(Run(q, front).0, FifoRun(items, front).0, op);
    }
  }

  lemma RepresentedCount(q: Cells, items: seq<bytes>)
    requires Represents(q, items)
    ensures q.MetaOrZero().count == |items|
  {
    var c: Chain :| Stores(q, c) && c.Items() == items;
  }

  function Offered(ops: seq<Op>): seq<bytes> {
    if ops == [] then []
    else
      var op := ops[|ops| - 1];
      Offered(ops[..|ops| - 1]) + (if op.Offer? then [op.arg] else [])
  }

  /** The items handed out by the polls of a run, in order. */
  function Delivered(ops: seq<Op>, rs: seq<Reply>): seq<bytes>
    requires |ops| == |rs|
  {
    if ops == [] then []
    else
      var n := |ops| - 1;
      Delivered(ops[..n], rs[..n]) + (if ops[n].Poll? && rs[n].Found? then [rs[n].item] else [])
  }

  lemma {:induction false} FifoConserves(items: seq<bytes>, ops: seq<Op>)
    ensures |FifoRun(items, ops).1| == |ops|
    ensures items + Offered(ops) == Delivered(ops, FifoRun(items, ops).1) + FifoRun(items, ops).0
  {
    if ops == [] {
      assert items + [] == [] + items;
    } else {
      var n := |ops| - 1;
      FifoConserves(items, ops[..n]);
      var (items1, rs) := FifoRun(items, ops[..n]);
      var all := FifoRun(items, ops).1;
      assert all[..n] == rs;
      var was := Delivered(ops[..n], rs);
      assert was + [] == was && Offered(ops[..n]) + [] == Offered(ops[..n]);
      match ops[n] {
        case Offer(x) =>
          assert (items + Offered(ops[..n])) + [x] == items + Offered(ops);
        case Poll =>
          if items1 != [] {
            assert was + items1 == (was + [items1[0]]) + items1[1..];
          }
        case _ =>
      }
    }
  }

  /**
   * Nothing is lost, duplicated or reordered: what the queue held, followed by what was offered,
   * is what the polls returned followed by what it still holds.
   */
  lemma RunConserves(q: Cells, items: seq<bytes>, ops: seq<Op>)
    requires Represents(q, items) && Room(q, |ops|)
    requires forall i | 0 <= i < |ops| :: Acceptable(ops[i])
    ensures |Run(q, ops).1| == |ops|
    ensures exists left :: Represents(Run(q, ops).0, left) &&
                           items + Offered(ops) == Delivered(ops, Run(q, ops).1) + left
  {
    RunRefinesFifo(q, items, ops);
    FifoConserves(items, ops);
  }

  // ---- incomplete views -------------------------------------------------------------------

  /** A view with the metadata and any subset of the segments, as a transfer in flight leaves it. */
  predicate PartialView(v: Cells, q: Cells) {
    v.meta == q.meta && forall id | id in v.segs :: id in q.segs && v.segs[id] == q.segs[id]
  }

  /**
   * Polling an incomplete view reports empty and changes nothing, or returns the true head and
   * leaves an incomplete view of the true next state.
   */
  lemma PartialPollIsSafe(v: Cells, q: Cells, items: seq<bytes>)
    requires Represents(q, items) && PartialView(v, q)
    ensures || (PollPlan(v).reply == Empty && After(v, Poll) == v)
            || (items != [] && PollPlan(v).reply == Found(items[0]) &&
                PartialView(After(v, Poll), After(q, Poll)))
  {
    hide Pack, AppendPacked, Flatten, QueueHead;
    var c: Chain :| Stores(q, c) && c.Items() == items;
    ItemsEmpty(c);
    if c.segs != [] && c.head in v.segs {
      HeadStored(q, c);
      PollChainItems(c);
      assert PeekHead(v) == PeekHead(q);
      var ws := PollPlan(q).writes;
      WritesUnfold(v, ws[0], ws[1]);
      WritesUnfold(q, ws[0], ws[1]);
    }
  }

  // ---- items too long for their header ----------------------------------------------------

  /** An unpackable item is not the head of the segment it was packed into. */
  lemma HeadOfUnpackable(x: bytes)
    requires !Packable(x)
    ensures var h := QueueHead(AppendPacked([], x)); h.Head? ==> h.item != x
  {
    var b := AppendPacked([], x);
    assert b == PutU32(|x|) + x;
    assert b[..4] == PutU32(|x|);
  }

  lemma HeadOfPackable(x: bytes)
    requires Packable(x)
    ensures QueueHead(AppendPacked([], x)) == Head(x, [])
  {
    assert AppendPacked([], x) + [] == AppendPacked([], x);
    HeadOfAppend(x, []);
  }

  /**
   * From a drained queue, an offer and a poll give the item back exactly when it is shorter than
   * 2^32 - 4 bytes: the header keeps the length modulo 2^32 and the slice bound wraps.
   */
  lemma OfferThenPollIff(q: Cells, x: bytes)
    requires Represents(q, []) && Room(q, 1)
    ensures QueuePlan(After(q, Offer(x)), Poll).reply == Found(x) <==> Packable(x)
  {
    hide Pack, AppendPacked, QueueHead, Flatten;
    var c :| Stores(q, c) && c.Items() == [];
    ItemsEmpty(c);
    OfferPlanIs(q, c, x);
    OfferChainItems(c, x);
    PackOne(x);
    var ws := OfferPlan(q, x).writes;
    WritesUnfold(q, ws[0], ws[1]);
    if Packable(x) { HeadOfPackable(x); } else { HeadOfUnpackable(x); }
  }
}
