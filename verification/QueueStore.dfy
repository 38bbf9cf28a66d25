/** Where a queue's cells live in a node's entries, and what a queue operation does to all of them. */
module QueueStore {
  import opened Bytes
  import opened Entries
  import opened Packing
  import opened Queue

  function MetaKey(name: bytes): Key {
    Key(QUEUE_MAP, name)
  }

  function SegKey(id: nat, name: bytes): Key {
    Key(QUEUE_SEG_MAP, PutU64(id) + name)
  }

  function EncodeMeta(m: Meta): (b: bytes)
    ensures |b| == 24
  {
    PutU64(m.head) + PutU64(m.tail) + PutU64(m.count)
  }

  function DecodeMeta(b: bytes): Meta {
    if |b| < 24 then Meta(0, 0, 0)
    else Meta(DecodeBE(b[..8]), DecodeBE(b[8..16]), DecodeBE(b[16..24]))
  }

  predicate MetaInRange(m: Meta) {
    m.head < U64_SIZE && m.tail < U64_SIZE && m.count < U64_SIZE
  }

  lemma MetaRoundTrip(m: Meta)
    requires MetaInRange(m)
    ensures DecodeMeta(EncodeMeta(m)) == m
  {
    hide PutU64, DecodeBE;
    var b := EncodeMeta(m);
    assert b[..8] == PutU64(m.head);
    assert b[8..16] == PutU64(m.tail);
    assert b[16..24] == PutU64(m.count);
  }

  lemma DecodedInRange(b: bytes)
    ensures MetaInRange(DecodeMeta(b))
  {
    if |b| >= 24 {
      DecodeBounds(b[..8]);
      DecodeBounds(b[8..16]);
      DecodeBounds(b[16..24]);
    }
  }

  lemma SegKeyInjective(i: nat, a: bytes, j: nat, b: bytes)
    requires i < U64_SIZE && j < U64_SIZE && SegKey(i, a) == SegKey(j, b)
    ensures i == j && a == b
  {
    hide PutU64, DecodeBE;
    var x, y := PutU64(i) + a, PutU64(j) + b;
    assert x[..8] == PutU64(i) && y[..8] == PutU64(j);
    assert x[8..] == a && y[8..] == b;
  }

  lemma SegKeysDiffer(i: nat, a: bytes, j: nat, b: bytes)
    requires i < U64_SIZE && j < U64_SIZE && (i != j || a != b)
    ensures SegKey(i, a) != SegKey(j, b)
  {
    if SegKey(i, a) == SegKey(j, b) {
      SegKeyInjective(i, a, j, b);
    }
  }

  lemma MetaIsNoSegment(a: bytes, id: nat, b: bytes)
    ensures MetaKey(a) != SegKey(id, b)
  {
    assert |QUEUE_MAP| != |QUEUE_SEG_MAP|;
  }

  /** A queue's metadata and all its segments live in the partition of the queue's name. */
  lemma QueueIsPartitionAffine(f: PartitionFn, name: bytes, id: nat)
    ensures Routed(f, SegKey(id, name)) == Routed(f, MetaKey(name)) == f(name)
  {
    assert (PutU64(id) + name)[8..] == name;
  }

  ghost function CellsOf(m: Flat, now: int, name: bytes): Cells {
    var mv := Read(m, MetaKey(name), now);
    Cells(if mv.Some? then Some(DecodeMeta(mv.value)) else None,
          map id: nat | id < U64_SIZE && Read(m, SegKey(id, name), now).Some? ::
            Read(m, SegKey(id, name), now).value)
  }

  ghost predicate QueueAt(m: Flat, now: int, name: bytes, items: seq<bytes>) {
    Represents(CellsOf(m, now, name), items)
  }

  /** The record a cell write is logged and replicated as; queue entries never expire. */
  function RecordOf(name: bytes, w: Write): Record {
    match w
    case SetSeg(id, val) => Put(SegKey(id, name), Value(val, 0))
    case DelSeg(id) => Remove(SegKey(id, name))
    case SetMeta(m) => Put(MetaKey(name), Value(EncodeMeta(m), 0))
  }

  function RecordsOf(name: bytes, ws: seq<Write>): seq<Record> {
    if ws == [] then [] else RecordsOf(name, ws[..|ws| - 1]) + [RecordOf(name, ws[|ws| - 1])]
  }

  predicate InRange(w: Write) {
    match w
    case SetSeg(id, _) => id < U64_SIZE
    case DelSeg(id) => id < U64_SIZE
    case SetMeta(m) => MetaInRange(m)
  }

  predicate AllInRange(ws: seq<Write>) {
    forall i | 0 <= i < |ws| :: InRange(ws[i])
  }

  /** Every id and counter an operation writes fits its 64-bit field. */
  lemma PlanInRange(m: Flat, now: int, name: bytes, op: Op)
    ensures AllInRange(QueuePlan(CellsOf(m, now, name), op).writes)
  {
    hide AppendPacked, QueueHead;
    var mv := Read(m, MetaKey(name), now);
    if mv.Some? {
      DecodedInRange(mv.value);
    }
  }

  lemma CellsAfterWrite(m: Flat, now: int, name: bytes, w: Write)
    requires InRange(w)
    ensures CellsOf(Apply(m, RecordOf(name, w)), now, name) == ApplyWrite(CellsOf(m, now, name), w)
  {
    hide SegKey, MetaKey, EncodeMeta, DecodeMeta;
    var m' := Apply(m, RecordOf(name, w));
    var q, q' := CellsOf(m, now, name), CellsOf(m', now, name);
    forall j: nat | j < U64_SIZE && !(w.SetMeta? || w.id == j)
      ensures Read(m', SegKey(j, name), now) == Read(m, SegKey(j, name), now)
    {
      SegKeysDiffer(j, name, w.id, name);
    }
    match w {
      case SetSeg(id, val) =>
        MetaIsNoSegment(name, id, name);
        assert q'.segs == q.segs[id := val];
      case DelSeg(id) =>
        MetaIsNoSegment(name, id, name);
        assert q'.segs == q.segs - {id};
      case SetMeta(mt) =>
        MetaRoundTrip(mt);
        forall j: nat ensures MetaKey(name) != SegKey(j, name) { MetaIsNoSegment(name, j, name); }
        assert q'.segs == q.segs;
    }
  }

  /** Writing one queue's cells changes no key of anything else, in particular of no other queue. */
  lemma OtherKeysUntouched(m: Flat, now: int, name: bytes, w: Write, other: bytes)
    requires InRange(w) && other != name
    ensures CellsOf(Apply(m, RecordOf(name, w)), now, other) == CellsOf(m, now, other)
  {
    hide SegKey, EncodeMeta, DecodeMeta;
    var m' := Apply(m, RecordOf(name, w));
    forall j: nat | j < U64_SIZE
      ensures Read(m', SegKey(j, other), now) == Read(m, SegKey(j, other), now)
    {
      if w.SetMeta? {
        MetaIsNoSegment(name, j, other);
      } else {
        SegKeysDiffer(j, other, w.id, name);
      }
    }
    if !w.SetMeta? {
      MetaIsNoSegment(other, w.id, name);
    }
    assert CellsOf(m', now, other).segs == CellsOf(m, now, other).segs;
  }

  lemma {:induction false} CellsAfterWrites(m: Flat, now: int, name: bytes, ws: seq<Write>)
    requires AllInRange(ws)
    ensures CellsOf(ApplyAll(m, RecordsOf(name, ws)), now, name) == ApplyWrites(CellsOf(m, now, name), ws)
    ensures forall other | other != name ::
              CellsOf(ApplyAll(m, RecordsOf(name, ws)), now, other) == CellsOf(m, now, other)
    ensures forall k: Key | k.name != QUEUE_MAP && k.name != QUEUE_SEG_MAP ::
              Lookup(ApplyAll(m, RecordsOf(name, ws)), k) == Lookup(m, k)
  {
    hide CellsOf, RecordOf;
    if ws != [] {
      var n := |ws| - 1;
      CellsAfterWrites(m, now, name, ws[..n]);
      var m1 := ApplyAll(m, RecordsOf(name, ws[..n]));
      var rs := RecordsOf(name, ws);
      assert rs[..|rs| - 1] == RecordsOf(name, ws[..n]) && rs[|rs| - 1] == RecordOf(name, ws[n]);
      assert ApplyAll(m, rs) == Apply(m1, RecordOf(name, ws[n]));
      CellsAfterWrite(m1, now, name, ws[n]);
      forall other | other != name
        ensures CellsOf(ApplyAll(m, rs), now, other) == CellsOf(m, now, other)
      {
        OtherKeysUntouched(m1, now, name, ws[n], other);
      }
      assert forall k: Key | k.name != QUEUE_MAP && k.name != QUEUE_SEG_MAP ::
          Lookup(Apply(m1, RecordOf(name, ws[n])), k) == Lookup(m1, k) by {
        OrdinaryKeyUntouched(m1, name, ws[n]);
      }
    }
  }

  lemma OrdinaryKeyUntouched(m: Flat, name: bytes, w: Write)
    ensures forall k: Key | k.name != QUEUE_MAP && k.name != QUEUE_SEG_MAP ::
              Lookup(Apply(m, RecordOf(name, w)), k) == Lookup(m, k)
  {
  }

  /** The records one operation on the named queue writes. */
  ghost function OpRecords(m: Flat, now: int, name: bytes, op: Op): seq<Record> {
    RecordsOf(name, QueuePlan(CellsOf(m, now, name), op).writes)
  }

  /**
   * One operation on a queue held in a node's entries is one FIFO step of that queue. Every other
   * queue in the node keeps its contents and every key outside the two reserved maps its value.
   */
  lemma StoredStepRefinesFifo(m: Flat, now: int, name: bytes, items: seq<bytes>, op: Op)
    requires QueueAt(m, now, name, items) && Acceptable(op) && Room(CellsOf(m, now, name), 1)
    ensures QueueAt(ApplyAll(m, OpRecords(m, now, name, op)), now, name, Fifo(items, op).0)
    ensures QueuePlan(CellsOf(m, now, name), op).reply == Fifo(items, op).1
    ensures forall other, held | other != name && QueueAt(m, now, other, held) ::
              QueueAt(ApplyAll(m, OpRecords(m, now, name, op)), now, other, held)
    ensures forall k: Key | k.name != QUEUE_MAP && k.name != QUEUE_SEG_MAP ::
              Lookup(ApplyAll(m, OpRecords(m, now, name, op)), k) == Lookup(m, k)
  {
    hide CellsOf, QueuePlan, RecordsOf;
    StepRefinesFifo(CellsOf(m, now, name), items, op);
    PlanInRange(m, now, name, op);
    CellsAfterWrites(m, now, name, QueuePlan(CellsOf(m, now, name), op).writes);
  }

  // ---- queue entries do not expire --------------------------------------------------------

  ghost predicate Persistent(m: Flat) {
    forall k | k in m && IsReserved(k.name) :: m[k].expireAt == 0
  }

  predicate KeepsPersistent(r: Record) {
    r.Put? && IsReserved(r.k.name) ==> r.v.expireAt == 0
  }

  /** So a queue reads the same at every instant. */
  lemma CellsAnyTime(m: Flat, name: bytes, now: int, later: int)
    requires Persistent(m)
    ensures CellsOf(m, now, name) == CellsOf(m, later, name)
  {
    hide Persistent, Read;
    forall k: Key | IsReserved(k.name) ensures Read(m, k, now) == Read(m, k, later) { ReadAnyTime(m, k, now, later); }
    SameReads(m, now, m, later, name);
  }

  lemma ReadAnyTime(m: Flat, k: Key, now: int, later: int)
    requires Persistent(m) && IsReserved(k.name)
    ensures Read(m, k, now) == Read(m, k, later)
  {
  }

  /** The cells are what is read under the reserved keys. */
  lemma SameReads(a: Flat, now: int, b: Flat, later: int, name: bytes)
    requires forall k: Key | IsReserved(k.name) :: Read(a, k, now) == Read(b, k, later)
    ensures CellsOf(a, now, name) == CellsOf(b, later, name)
  {
    hide DecodeMeta, SegKey, MetaKey, Read;
    assert IsReserved(MetaKey(name).name) by { MetaIsReserved(name); }
    forall id: nat ensures Read(a, SegKey(id, name), now) == Read(b, SegKey(id, name), later) {
      SegIsReserved(id, name);
    }
    assert CellsOf(a, now, name).segs == CellsOf(b, later, name).segs;
  }

  lemma MetaIsReserved(name: bytes)
    ensures IsReserved(MetaKey(name).name)
  {
  }

  lemma SegIsReserved(id: nat, name: bytes)
    ensures IsReserved(SegKey(id, name).name)
  {
  }

  lemma {:induction false} RecordsPersist(m: Flat, rs: seq<Record>)
    requires Persistent(m) && forall i | 0 <= i < |rs| :: KeepsPersistent(rs[i])
    ensures Persistent(ApplyAll(m, rs))
  {
    if rs != [] {
      RecordsPersist(m, rs[..|rs| - 1]);
    }
  }

  lemma {:induction false} QueueRecordsKeepPersistent(name: bytes, ws: seq<Write>)
    ensures forall i | 0 <= i < |RecordsOf(name, ws)| :: KeepsPersistent(RecordsOf(name, ws)[i])
  {
    hide SegKey, MetaKey, EncodeMeta;
    if ws != [] {
      QueueRecordsKeepPersistent(name, ws[..|ws| - 1]);
    }
  }
}
