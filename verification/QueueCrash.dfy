/**
 * A queue operation is logged as separately synced records. This module says exactly when a crash
 * between those records still leaves a queue behind, and what goes wrong when it does not.
 */
module QueueCrash {
  import opened Bytes
  import opened Packing
  import opened Queue

  /** The items found by reading n segments from id on. */
  function ReadOut(q: Cells, id: nat, n: nat): seq<bytes>
    decreases n
  {
    if n == 0 then [] else ReadOut(q, id, n - 1) + Unpack(q.Seg(id + n - 1))
  }

  lemma {:induction false} ReadOutFrame(q: Cells, q': Cells, id: nat, n: nat)
    requires forall j | id <= j < id + n :: q.Seg(j) == q'.Seg(j)
    ensures ReadOut(q, id, n) == ReadOut(q', id, n)
    decreases n
  {
    if n > 0 {
      ReadOutFrame(q, q', id, n - 1);
    }
  }

  lemma {:induction false} ReadOutPrefix(q: Cells, c: Chain, n: nat)
    requires Stores(q, c) && n <= |c.segs|
    ensures ReadOut(q, c.head, n) == Flatten(c.segs[..n])
    decreases n
  {
    hide Pack, AppendPacked, Unpack;
    if n > 0 {
      ReadOutPrefix(q, c, n - 1);
      assert SegmentAt(q, c, n - 1);
      assert GoodSegment(c.segs[n - 1]);
      UnpackPack(c.segs[n - 1]);
      assert c.segs[..n] == c.segs[..n - 1] + [c.segs[n - 1]];
      FlattenAppend(c.segs[..n - 1], c.segs[n - 1]);
    }
  }

  /** The stored bytes determine the items. */
  lemma ReadOutIsItems(q: Cells, c: Chain)
    requires Stores(q, c) && c.segs != []
    ensures q.meta.Some? && ReadOut(q, c.head, c.Tail() - c.head + 1) == c.Items()
  {
    ReadOutPrefix(q, c, |c.segs|);
    assert c.segs[..|c.segs|] == c.segs;
  }

  lemma RepresentsOneSequence(q: Cells, a: seq<bytes>, b: seq<bytes>)
    requires Represents(q, a) && Represents(q, b)
    ensures a == b
  {
    hide Pack, AppendPacked, Flatten;
    var c: Chain :| Stores(q, c) && c.Items() == a;
    var c': Chain :| Stores(q, c') && c'.Items() == b;
    ItemsEmpty(c);
    ItemsEmpty(c');
    if a != [] && b != [] {
      ReadOutIsItems(q, c);
      ReadOutIsItems(q, c');
    }
  }

  /** The operation reached the log only in part. */
  function Torn(q: Cells, op: Op, j: nat): Cells
    requires j <= |QueuePlan(q, op).writes|
  {
    ApplyWrites(q, QueuePlan(q, op).writes[..j])
  }

  lemma TornOfferIntoEmpty(q: Cells, c: Chain, x: bytes)
    requires Stores(q, c) && c.segs == [] && c.Tail() + 1 < U64_SIZE
    ensures Stores(Torn(q, Offer(x), 1), c)
  {
    hide Pack, AppendPacked;
    var ws := OfferPlan(q, x).writes;
    assert ws[..1] == [ws[0]];
    WritesUnfold(q, ws[0], ws[1]);
  }

  lemma TornOfferBreaks(q: Cells, c: Chain, x: bytes, c': Chain)
    requires Stores(q, c) && c.segs != [] && Packable(x)
    requires c.Tail() + 1 < U64_SIZE && |c.Items()| + 1 < U64_SIZE
    ensures !Stores(Torn(q, Offer(x), 1), c')
  {
    hide Pack, AppendPacked, Flatten, Unpack, OfferPlan, Torn;
    TornOfferIs(q, c, x);
    var t := Torn(q, Offer(x), 1);
    var o := OfferChain(c, x);
    ItemsEmpty(c);
    assert t.meta == q.meta == Some(c.AsMeta());
    if Stores(t, c') {
      ItemsEmpty(c');
      SameEnds(t, c, c');
      OfferKeeps(q, c, x);
      ReadOutIsItems(After(q, Offer(x)), o);
      ReadOutIsItems(t, c');
      ReadOutFrame(t, After(q, Offer(x)), c.head, c.Tail() - c.head + 1);
      OfferChainItems(c, x);
    }
  }

  /** A torn offer has written its segment and not the metadata. */
  lemma TornOfferIs(q: Cells, c: Chain, x: bytes)
    requires Stores(q, c) && c.Tail() + 1 < U64_SIZE && |c.Items()| + 1 < U64_SIZE
    ensures |OfferPlan(q, x).writes| == 2
    ensures var o := OfferChain(c, x);
            var t := q.(segs := q.segs[o.Tail() := Pack(o.segs[|o.segs| - 1])]);
            Torn(q, Offer(x), 1) == t && After(q, Offer(x)) == t.(meta := Some(o.AsMeta()))
  {
    hide Pack, AppendPacked, Flatten, Unpack;
    OfferPlanIs(q, c, x);
    var ws := OfferPlan(q, x).writes;
    assert ws[..1] == [ws[0]];
    WritesUnfold(q, ws[0], ws[1]);
  }

  /** The metadata fixes head, tail and count. */
  lemma SameEnds(t: Cells, c: Chain, c': Chain)
    requires Stores(t, c') && t.meta == Some(c.AsMeta())
    ensures c'.head == c.head && c'.Tail() == c.Tail() && |c'.Items()| == |c.Items()|
    ensures forall id | id in t.segs :: id <= c.Tail()
  {
    hide Flatten;
  }

  lemma TornPollBreaks(q: Cells, c: Chain, c': Chain)
    requires Stores(q, c) && c.segs != []
    ensures |PollPlan(q).writes| == 2 && !Stores(Torn(q, Poll, 1), c')
  {
    hide Pack, AppendPacked, Flatten, Unpack;
    PollPlanIs(q, c);
    ItemsEmpty(c);
    var t := Torn(q, Poll, 1);
    var ws := PollPlan(q).writes;
    assert ws[..1] == [ws[0]];
    WritesUnfold(q, ws[0], ws[1]);
    if Stores(t, c') {
      ItemsEmpty(c');
      assert SegmentAt(t, c', 0);
      if |c.segs[0]| > 1 {
        PollKeeps(q, c);
        PollChainItems(c);
        ReadOutIsItems(After(q, Poll), PollChain(c));
        ReadOutIsItems(t, c');
        ReadOutFrame(t, After(q, Poll), c.head, c.Tail() - c.head + 1);
      }
    }
  }

  /**
   * After a crash that kept the first j records of an operation, the entries are a queue exactly
   * when the crash fell on an operation boundary or the operation offered into an empty queue. Only
   * a complete operation has then taken place.
   */
  lemma TornOperationIsAQueueIff(q: Cells, items: seq<bytes>, op: Op, j: nat)
    requires Represents(q, items) && Acceptable(op) && Room(q, 1)
    requires j <= |QueuePlan(q, op).writes|
    ensures (exists left :: Represents(Torn(q, op, j), left)) <==>
            (j == 0 || j == |QueuePlan(q, op).writes| || (op.Offer? && items == []))
    ensures j == |QueuePlan(q, op).writes| ==> Represents(Torn(q, op, j), Fifo(items, op).0)
    ensures j == 0 || (op.Offer? && items == [] && j < |QueuePlan(q, op).writes|) ==> Represents(Torn(q, op, j), items)
  {
    hide Pack, AppendPacked, Flatten, Unpack;
    var c: Chain :| Stores(q, c) && c.Items() == items;
    ItemsEmpty(c);
    var ws := QueuePlan(q, op).writes;
    assert Torn(q, op, 0) == q && Represents(q, items);
    if j == |ws| {
      assert ws[..j] == ws;
      StepRefinesFifo(q, items, op);
      assert Represents(Torn(q, op, j), Fifo(items, op).0);
    } else if j > 0 {
      match op {
        case Offer(x) =>
          OfferPlanIs(q, c, x);
          if items == [] {
            TornOfferIntoEmpty(q, c, x);
            assert Represents(Torn(q, op, j), items);
          } else {
            forall c' ensures !Stores(Torn(q, op, j), c') { TornOfferBreaks(q, c, x, c'); }
          }
        case Poll =>
          if items != [] {
            forall c' ensures !Stores(Torn(q, op, j), c') { TornPollBreaks(q, c, c'); }
          }
        case _ =>
      }
    }
  }

  /** A poll of a packed head segment, whatever else the cells hold. */
  lemma PollOfPacked(q: Cells, items: seq<bytes>)
    requires q.meta.Some? && q.meta.value.count > 0 && q.meta.value.head in q.segs
    requires items != [] && Packable(items[0]) && q.segs[q.meta.value.head] == Pack(items)
    ensures PollPlan(q).reply == Found(items[0])
    ensures var m := q.meta.value;
            After(q, Poll) ==
            if |items| == 1
            then Cells(Some(Meta(if m.head < m.tail then m.head + 1 else m.head, m.tail, m.count - 1)),
                       q.segs - {m.head})
            else Cells(Some(Meta(m.head, m.tail, m.count - 1)), q.segs[m.head := Pack(items[1..])])
  {
    hide Pack, QueueHead;
    HeadOfPack(items);
    PackLength(items[1..]);
    var ws := PollPlan(q).writes;
    WritesUnfold(q, ws[0], ws[1]);
  }

  lemma PackOneLength(x: bytes)
    ensures |Pack([x])| == 4 + |x|
  {
    PackOne(x);
  }

  /** The cells after a torn, rolling offer of b, and after the next offer, of y. */
  lemma TornRoll(q: Cells, h: nat, a: bytes, b: bytes, y: bytes)
    requires Stores(q, Chain(h, [[a]])) && h + 1 < U64_SIZE
    requires 8 + |a| + |b| > MAX_SEG_BYTES && 8 + |a| + |y| > MAX_SEG_BYTES
    ensures q.meta == Some(Meta(h, h, 1)) && h in q.segs && q.segs[h] == Pack([a]) && Packable(a)
    ensures |OfferPlan(q, b).writes| == 2
    ensures OfferPlan(Torn(q, Offer(b), 1), y).reply == Sized(2)
    ensures After(Torn(q, Offer(b), 1), Offer(y)) ==
            Cells(Some(Meta(h, h + 1, 2)), q.segs[h + 1 := Pack([b, y])])
  {
    hide Pack, AppendPacked;
    var c := Chain(h, [[a]]);
    assert SegmentAt(q, c, 0) && GoodSegment(c.segs[0]) && Packable(c.segs[0][0]);
    PackOne(b);
    PackOneLength(a);
    PackAppend([b], y);
    assert [b] + [y] == [b, y];
    OfferChainItems(Chain(h, []), a);
    var ws := OfferPlan(q, b).writes;
    assert ws[..1] == [ws[0]];
    WritesUnfold(q, ws[0], ws[1]);
    var t := Torn(q, Offer(b), 1);
    assert t == Cells(q.meta, q.segs[h + 1 := Pack([b])]);
    var us := OfferPlan(t, y).writes;
    WritesUnfold(t, us[0], us[1]);
  }

  /**
   * What a torn offer can cost. The queue holds a; an offer of b that rolls to a new segment is
   * cut short by a crash after its segment record. A later offer of y is acknowledged, yet the
   * polls hand out a and the never-acknowledged b, then report empty: y is lost.
   */
  lemma TornRollLosesAcknowledgedItem(q: Cells, h: nat, a: bytes, b: bytes, y: bytes)
    requires Stores(q, Chain(h, [[a]])) && h + 1 < U64_SIZE
    requires Packable(b) && Packable(y)
    requires 8 + |a| + |b| > MAX_SEG_BYTES && 8 + |a| + |y| > MAX_SEG_BYTES
    ensures |OfferPlan(q, b).writes| == 2
    ensures var t := Torn(q, Offer(b), 1);
            var q1 := After(t, Offer(y));
            var q2 := After(q1, Poll);
            var q3 := After(q2, Poll);
            && QueuePlan(t, Offer(y)).reply == Sized(2)
            && QueuePlan(q1, Poll).reply == Found(a)
            && QueuePlan(q2, Poll).reply == Found(b)
            && QueuePlan(q3, Poll) == Plan([], Empty)
            && QueuePlan(q3, Size).reply == Sized(0)
  {
    hide Pack, AppendPacked, QueueHead, OfferPlan;
    TornRoll(q, h, a, b, y);
    var q1 := After(Torn(q, Offer(b), 1), Offer(y));
    PollOfPacked(q1, [a]);
    assert [b, y][1..] == [y];
    PollOfPacked(After(q1, Poll), [b, y]);
  }
}
