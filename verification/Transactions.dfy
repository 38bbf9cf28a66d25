/** The multi-key critical section of one partition, and the queue operations that run in it. */
module Transactions {
  import opened Bytes
  import opened Entries
  import opened Packing
  import opened Queue
  import opened QueueStore
  import opened Stores

  /**
   * updateMulti: what its three accessors give a critical section. Valid() says that whatever the
   * section has done so far, the recorded mutations applied in order to the entries it started
   * from give the entries there are now; since the accessors all keep it, it holds for any section.
   */
  class Transaction {
    const store: Store
    const p: nat
    ghost const before: Flat
    var muts: seq<Record>

    ghost predicate Valid()
      reads this, store.shards
    {
      store.Valid() && store.View() == ApplyAll(before, muts)
    }

    constructor (s: Store, partition: nat)
      requires s.Valid()
      ensures store == s && p == partition && muts == [] && Valid() && before == s.View()
    {
      store, p, muts, before := s, partition, [], s.View();
    }

    method Get(k: Key, now: int) returns (r: Option<bytes>)
      requires Valid() && Routed(store.partitionFor, k) == p
      ensures r == Read(store.View(), k, now)
    {
      r := store.Get(p, k, now);
    }

    method SetTo(k: Key, val: bytes)
      requires Valid() && Routed(store.partitionFor, k) == p
      modifies this, store.shards
      ensures Valid() && muts == old(muts) + [Put(k, Value(val, 0))]
      ensures store.View() == Apply(old(store.View()), Put(k, Value(val, 0)))
    {
      var _ := store.PutEntry(p, k, Value(val, 0), 0);
      ApplyAllConcat(before, muts, [Put(k, Value(val, 0))]);
      OneRecord(ApplyAll(before, muts), Put(k, Value(val, 0)));
      muts := muts + [Put(k, Value(val, 0))];
    }

    method Del(k: Key)
      requires Valid() && Routed(store.partitionFor, k) == p
      modifies this, store.shards
      ensures Valid() && muts == old(muts) + [Remove(k)]
      ensures store.View() == Apply(old(store.View()), Remove(k))
    {
      var _ := store.RemoveEntry(p, k, 0);
      ApplyAllConcat(before, muts, [Remove(k)]);
      OneRecord(ApplyAll(before, muts), Remove(k));
      muts := muts + [Remove(k)];
    }
  }

  /**
   * The mutation list of a critical section brings any store that looked the same before it to
   * look the same after it: a replayed log and a backup receiving every send keep in step.
   */
  lemma MutationsAreFaithful(before: Flat, muts: seq<Record>, other: Flat, now: int, later: int)
    requires Live(before, now) == Live(other, now) && now <= later
    ensures Live(ApplyAll(before, muts), later) == Live(ApplyAll(other, muts), later)
  {
    ApplyAllRespectsLive(before, other, muts, now);
    LiveLater(ApplyAll(before, muts), ApplyAll(other, muts), now, later);
  }

  // ---- the queue operations ---------------------------------------------------------------

  lemma TwoRecords(name: bytes, a: Write, b: Write)
    ensures RecordsOf(name, []) == []
    ensures RecordsOf(name, [a, b]) == [RecordOf(name, a), RecordOf(name, b)]
  {
    assert [a, b][..1] == [a] && [a][..0] == [];
    assert RecordsOf(name, [a]) == [] + [RecordOf(name, a)];
  }

  /** What the cells hold is what the get accessor returns for their keys. */
  lemma CellReads(m: Flat, now: int, name: bytes, id: nat)
    requires id < U64_SIZE
    ensures var q := CellsOf(m, now, name);
            var s := Read(m, SegKey(id, name), now);
            q.Seg(id) == (if s.Some? then s.value else []) && (id in q.segs <==> s.Some?)
  {
  }

  method ReadSeg(t: Transaction, name: bytes, id: nat, now: int) returns (found: bool, seg: bytes)
    requires t.Valid() && t.p == t.store.partitionFor(name) && id < U64_SIZE
    ensures var q := CellsOf(t.store.View(), now, name);
            (found <==> id in q.segs) && seg == q.Seg(id)
  {
    hide SegKey, CellsOf;
    QueueIsPartitionAffine(t.store.partitionFor, name, id);
    CellReads(t.store.View(), now, name, id);
    var s := t.Get(SegKey(id, name), now);
    found, seg := s.Some?, if s.Some? then s.value else [];
  }

  method ReadMeta(t: Transaction, name: bytes, now: int) returns (found: bool, m: Meta)
    requires t.Valid() && t.p == t.store.partitionFor(name)
    ensures var q := CellsOf(t.store.View(), now, name);
            (found <==> q.meta.Some?) && m == q.MetaOrZero() && MetaInRange(m)
  {
    QueueIsPartitionAffine(t.store.partitionFor, name, 0);
    var mv := t.Get(MetaKey(name), now);
    found, m := mv.Some?, if mv.Some? then DecodeMeta(mv.value) else Meta(0, 0, 0);
    DecodedInRange(if mv.Some? then mv.value else []);
  }

  /** The segment an offer appends to and the id it will be stored under. */
  method ReadSlot(t: Transaction, name: bytes, arg: bytes, m: Meta, now: int) returns (tail: nat, seg: bytes)
    requires t.Valid() && t.p == t.store.partitionFor(name)
    requires m == CellsOf(t.store.View(), now, name).MetaOrZero() && MetaInRange(m)
    ensures (tail, seg) == OfferSlot(CellsOf(t.store.View(), now, name), arg) && tail < U64_SIZE
  {
    hide CellsOf;
    tail, seg := m.tail, [];
    if m.count > 0 {
      var _, s := ReadSeg(t, name, tail, now);
      seg := s;
    }
    if |seg| != 0 && |seg| + 4 + |arg| > MAX_SEG_BYTES {
      tail := (tail + 1) % U64_SIZE;
      var _, s := ReadSeg(t, name, tail, now);
      seg := s;
    }
  }

  method OfferOp(t: Transaction, name: bytes, arg: bytes, now: int) returns (reply: Reply)
    requires t.Valid() && t.muts == [] && t.p == t.store.partitionFor(name)
    modifies t, t.store.shards
    ensures t.Valid() && t.muts == OpRecords(old(t.store.View()), now, name, Offer(arg))
    ensures reply == OfferPlan(CellsOf(old(t.store.View()), now, name), arg).reply
  {
    hide SegKey, MetaKey, CellsOf, EncodeMeta, AppendPacked, ApplyAll, OfferSlot, RecordsOf;
    var _, m := ReadMeta(t, name, now);
    var tail, seg := ReadSlot(t, name, arg, m, now);
    QueueIsPartitionAffine(t.store.partitionFor, name, tail);
    t.SetTo(SegKey(tail, name), AppendPacked(seg, arg));
    var count := (m.count + 1) % U64_SIZE;
    t.SetTo(MetaKey(name), EncodeMeta(Meta(m.head, tail, count)));
    reply := Sized(count);
    TwoRecords(name, SetSeg(tail, AppendPacked(seg, arg)), SetMeta(Meta(m.head, tail, count)));
  }

  /** The head item, when there is one to be had; nothing is changed. */
  method ReadHead(t: Transaction, name: bytes, now: int) returns (m: Meta, h: HeadResult)
    requires t.Valid() && t.p == t.store.partitionFor(name)
    ensures var q := CellsOf(t.store.View(), now, name);
            m == q.MetaOrZero() && MetaInRange(m) && h == PeekHead(q) && (!h.NoItem? ==> m.count > 0)
  {
    hide SegKey, MetaKey, CellsOf, QueueHead;
    var found, mm := ReadMeta(t, name, now);
    m := mm;
    if !found || m.count == 0 {
      return m, NoItem;
    }
    var ok, seg := ReadSeg(t, name, m.head, now);
    if !ok {
      return m, NoItem;
    }
    h := QueueHead(seg);
  }

  method PollOp(t: Transaction, name: bytes, now: int) returns (reply: Reply)
    requires t.Valid() && t.muts == [] && t.p == t.store.partitionFor(name)
    modifies t, t.store.shards
    ensures t.Valid() && t.muts == OpRecords(old(t.store.View()), now, name, Poll)
    ensures reply == PollPlan(CellsOf(old(t.store.View()), now, name)).reply
  {
    hide SegKey, MetaKey, CellsOf, EncodeMeta, ApplyAll, PeekHead, RecordsOf;
    var m, h := ReadHead(t, name, now);
    TwoRecords(name, DelSeg(0), DelSeg(0));
    if h.NoItem? { return Empty; }
    if h.Panics? { return Panic; }
    var head := m.head;
    QueueIsPartitionAffine(t.store.partitionFor, name, m.head);
    if h.rest == [] {
      t.Del(SegKey(m.head, name));
      if head < m.tail {
        head := head + 1;
      }
      TwoRecords(name, DelSeg(m.head), SetMeta(Meta(head, m.tail, m.count - 1)));
    } else {
      t.SetTo(SegKey(m.head, name), h.rest);
      TwoRecords(name, SetSeg(m.head, h.rest), SetMeta(Meta(head, m.tail, m.count - 1)));
    }
    t.SetTo(MetaKey(name), EncodeMeta(Meta(head, m.tail, m.count - 1)));
    reply := Found(h.item);
  }

  /** queueOp: one operation on the named queue inside a critical section of its partition. */
  method QueueOp(t: Transaction, name: bytes, op: Op, now: int) returns (reply: Reply)
    requires t.Valid() && t.muts == [] && t.p == t.store.partitionFor(name)
    modifies t, t.store.shards
    ensures t.Valid() && t.muts == OpRecords(old(t.store.View()), now, name, op)
    ensures reply == QueuePlan(CellsOf(old(t.store.View()), now, name), op).reply
  {
    hide SegKey, MetaKey, CellsOf, PeekHead, OfferPlan, PollPlan, ApplyAll;
    TwoRecords(name, DelSeg(0), DelSeg(0));
    match op {
      case Offer(arg) =>
        reply := OfferOp(t, name, arg, now);
      case Poll =>
        reply := PollOp(t, name, now);
      case Peek =>
        var _, h := ReadHead(t, name, now);
        match h {
          case NoItem => reply := Empty;
          case Panics => reply := Panic;
          case Head(item, _) => reply := Found(item);
        }
      case Size =>
        var _, m := ReadMeta(t, name, now);
        reply := Sized(m.count);
      case Unknown =>
        reply := UnknownOperation;
    }
  }
}
