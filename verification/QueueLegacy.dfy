/** Upgrading a queue stored as one packed value to the metadata-and-segments form. */
module QueueLegacy {
  import opened Bytes
  import opened Entries
  import opened Packing
  import opened Queue
  import opened QueueStore

  /** Current metadata is exactly 24 bytes; any other non-empty metadata value is the old form. */
  predicate IsLegacy(e: Entry) {
    e.k.name == QUEUE_MAP && |e.v.data| != 24 && |e.v.data| > 0
  }

  /** The chain that offering the items one by one to an empty queue builds. */
  function Rechain(items: seq<bytes>): Chain {
    if items == [] then Chain(0, []) else OfferChain(Rechain(items[..|items| - 1]), items[|items| - 1])
  }

  lemma {:induction false} RechainHolds(items: seq<bytes>)
    requires AllPackable(items) && |items| + 1 < U64_SIZE
    ensures var c := Rechain(items);
            c.head == 0 && c.Items() == items && WellFormed(c) && |c.segs| <= |items|
  {
    hide Pack, Flatten;
    if items == [] {
      FlattenOfNone();
    } else {
      var front := items[..|items| - 1];
      RechainHolds(front);
      OfferChainItems(Rechain(front), items[|items| - 1]);
      OfferChainWellFormed(Rechain(front), items[|items| - 1]);
      assert front + [items[|items| - 1]] == items;
    }
  }

  lemma FlattenOfNone()
    ensures Flatten([]) == []
  {
  }

  lemma {:induction false} UnpackedArePackable(b: bytes)
    ensures AllPackable(Unpack(b)) && 4 * |Unpack(b)| <= |b|
    decreases |b|
  {
    match QueueHead(b)
    case Head(item, rest) => UnpackedArePackable(rest);
    case _ =>
  }

  // ---- the converted entries, as cell writes ----------------------------------------------

  function SegWrites(segs: seq<seq<bytes>>): (ws: seq<Write>)
    ensures |ws| == |segs|
  {
    seq(|segs|, i requires 0 <= i < |segs| => SetSeg(i, Pack(segs[i])))
  }

  function LegacyWrites(items: seq<bytes>): seq<Write> {
    if items == [] then []
    else
      var c := Rechain(items);
      SegWrites(c.segs) + [SetMeta(Meta(0, c.Tail(), |items|))]
  }

  function WriteEntry(name: bytes, w: Write): Entry
    requires !w.DelSeg?
  {
    match w
    case SetSeg(id, val) => Entry(SegKey(id, name), Value(val, 0))
    case SetMeta(m) => Entry(MetaKey(name), Value(EncodeMeta(m), 0))
  }

  predicate NoDeletes(ws: seq<Write>) {
    forall i | 0 <= i < |ws| :: !ws[i].DelSeg?
  }

  function WriteEntries(name: bytes, ws: seq<Write>): seq<Entry>
    requires NoDeletes(ws)
  {
    seq(|ws|, i requires 0 <= i < |ws| => WriteEntry(name, ws[i]))
  }

  lemma {:induction false} EntriesAreRecords(name: bytes, ws: seq<Write>)
    requires NoDeletes(ws)
    ensures AsPuts(WriteEntries(name, ws)) == RecordsOf(name, ws)
  {
    hide SegKey, MetaKey, EncodeMeta;
    if ws != [] {
      var n := |ws| - 1;
      EntriesAreRecords(name, ws[..n]);
      assert WriteEntries(name, ws)[..n] == WriteEntries(name, ws[..n]);
    }
  }

  lemma {:induction false} SegWritesBuild(q: Cells, segs: seq<seq<bytes>>, n: nat)
    requires n <= |segs|
    ensures var q' := ApplyWrites(q, SegWrites(segs)[..n]);
            && q'.meta == q.meta
            && (forall id :: id in q'.segs <==> 0 <= id < n || id in q.segs)
            && (forall i | 0 <= i < n :: q'.segs[i] == Pack(segs[i]))
  {
    hide Pack;
    if n > 0 {
      SegWritesBuild(q, segs, n - 1);
      assert SegWrites(segs)[..n][..n - 1] == SegWrites(segs)[..n - 1];
    }
  }

  /** What the writes of a conversion leave of any cells. */
  lemma LegacyWritten(q: Cells, items: seq<bytes>)
    requires AllPackable(items) && |items| + 1 < U64_SIZE && items != []
    ensures var c, q' := Rechain(items), ApplyWrites(q, LegacyWrites(items));
            && q'.meta == Some(c.AsMeta()) && c.segs != []
            && (forall id: nat :: id in q'.segs <==> id <= c.Tail() || id in q.segs)
            && (forall i | 0 <= i < |c.segs| :: SegmentAt(q', c, i))
  {
    hide Pack, Flatten, Rechain;
    RechainHolds(items);
    var c := Rechain(items);
    ItemsEmpty(c);
    var ws := LegacyWrites(items);
    assert ws[..|ws| - 1] == SegWrites(c.segs) == SegWrites(c.segs)[..|c.segs|];
    SegWritesBuild(q, c.segs, |c.segs|);
  }

  /**
   * A conversion written over whatever cells there are leaves a queue exactly when no segment lies
   * above its tail, and that queue then holds its items.
   */
  lemma LegacyOverCellsIff(q: Cells, items: seq<bytes>)
    requires AllPackable(items) && |items| + 1 < U64_SIZE && items != []
    ensures var q' := ApplyWrites(q, LegacyWrites(items));
            var tidy := forall id | id in q.segs :: id <= Rechain(items).Tail();
            && ((exists left :: Represents(q', left)) <==> tidy)
            && (tidy ==> Represents(q', items))
  {
    hide Pack, Flatten, Rechain, LegacyWrites, ApplyWrites;
    RechainHolds(items);
    LegacyWritten(q, items);
    var c, q' := Rechain(items), ApplyWrites(q, LegacyWrites(items));
    if forall id | id in q.segs :: id <= c.Tail() {
      assert Stores(q', c) && c.Items() == items;
      assert Represents(q', items);
    } else {
      var id :| id in q.segs && id > c.Tail();
      forall c' ensures !Stores(q', c') { assert id in q'.segs; }
    }
  }

  /** The converted cells hold exactly the items. */
  lemma LegacyCells(q: Cells, items: seq<bytes>)
    requires q == Cells(None, map[]) && AllPackable(items) && |items| + 1 < U64_SIZE
    ensures Represents(ApplyWrites(q, LegacyWrites(items)), items)
  {
    hide Pack, Flatten;
    if items == [] {
      FlattenOfNone();
      assert Stores(q, Chain(0, []));
    } else {
      LegacyOverCellsIff(q, items);
    }
  }

  /**
   * Loading the conversion of any packed value into a store with nothing under that queue's keys
   * makes the queue hold exactly the items of the value's longest well-formed prefix, in order.
   */
  lemma LegacyUpgradePreservesItems(m: Flat, now: int, name: bytes, packed: bytes)
    requires CellsOf(m, now, name) == Cells(None, map[]) && |packed| <= MAX_SLICE
    ensures QueueAt(ApplyAll(m, RecordsOf(name, LegacyWrites(Unpack(packed)))), now, name, Unpack(packed))
  {
    hide CellsOf, Unpack, RecordsOf, ApplyWrites;
    var items := Unpack(packed);
    UnpackedArePackable(packed);
    LegacyCells(CellsOf(m, now, name), items);
    LegacyInRange(items);
    CellsAfterWrites(m, now, name, LegacyWrites(items));
  }

  /**
   * An old log holds one such value for each operation, converted one over the other on replay.
   * Loading a value with at least one item over any entries leaves a queue if and only if no
   * segment of the queue's name lies above the new tail; it then holds the value's items.
   */
  lemma LegacyReplayIff(m: Flat, now: int, name: bytes, packed: bytes)
    requires |packed| <= MAX_SLICE && Unpack(packed) != []
    ensures var m' := ApplyAll(m, RecordsOf(name, LegacyWrites(Unpack(packed))));
            var tidy := forall id | id in CellsOf(m, now, name).segs :: id <= Rechain(Unpack(packed)).Tail();
            && ((exists left :: QueueAt(m', now, name, left)) <==> tidy)
            && (tidy ==> QueueAt(m', now, name, Unpack(packed)))
  {
    hide CellsOf, Unpack, RecordsOf, ApplyWrites, Represents, Rechain;
    var items := Unpack(packed);
    UnpackedArePackable(packed);
    LegacyOverCellsIff(CellsOf(m, now, name), items);
    LegacyInRange(items);
    CellsAfterWrites(m, now, name, LegacyWrites(items));
    var m' := ApplyAll(m, RecordsOf(name, LegacyWrites(items)));
    assert forall left :: QueueAt(m', now, name, left) <==> Represents(CellsOf(m', now, name), left);
  }

  lemma LegacyInRange(items: seq<bytes>)
    requires AllPackable(items) && |items| + 1 < U64_SIZE
    ensures AllInRange(LegacyWrites(items))
  {
    hide Pack, Flatten;
    RechainHolds(items);
  }

  // ---- the conversion loop ----------------------------------------------------------------

  /** The loop has regrouped the items in done: full segments in out, the open one in seg. */
  ghost predicate Built(name: bytes, done: seq<bytes>, out: seq<Entry>, tail: nat, seg: bytes) {
    var c := Rechain(done);
    && c.head == 0 && c.Tail() == tail == |out|
    && (if done == [] then seg == [] && c.segs == []
        else |c.segs| == tail + 1 && seg == Pack(c.segs[tail]) && seg != [])
    && forall i | 0 <= i < tail :: out[i] == WriteEntry(name, SetSeg(i, Pack(c.segs[i])))
  }

  function Flushed(name: bytes, out: seq<Entry>, tail: nat, seg: bytes): seq<Entry> {
    out + [Entry(SegKey(tail, name), Value(seg, 0))]
  }

  lemma BuiltStep(name: bytes, done: seq<bytes>, out: seq<Entry>, tail: nat, seg: bytes, item: bytes)
    requires Built(name, done, out, tail, seg)
    ensures if |seg| != 0 && |seg| + 4 + |item| > MAX_SEG_BYTES
            then Built(name, done + [item], Flushed(name, out, tail, seg), tail + 1, AppendPacked([], item))
            else Built(name, done + [item], out, tail, AppendPacked(seg, item))
  {
    hide Pack, Flatten, SegKey, PutU32;
    var c := Rechain(done);
    assert (done + [item])[..|done + [item]| - 1] == done;
    assert Rechain(done + [item]) == OfferChain(c, item);
    PackOne(item);
    if done != [] {
      PackAppend(c.segs[tail], item);
    }
  }

  lemma BuiltAll(name: bytes, done: seq<bytes>, out: seq<Entry>, tail: nat, seg: bytes)
    requires Built(name, done, out, tail, seg)
    ensures seg == [] <==> done == []
    ensures var meta := Entry(MetaKey(name), Value(EncodeMeta(Meta(0, tail, |done|)), 0));
            AsPuts(if done == [] then [] else Flushed(name, out, tail, seg) + [meta]) ==
            RecordsOf(name, LegacyWrites(done))
  {
    hide Pack, Rechain, SegKey, MetaKey, EncodeMeta;
    if done != [] {
      var meta := Entry(MetaKey(name), Value(EncodeMeta(Meta(0, tail, |done|)), 0));
      assert Flushed(name, out, tail, seg) + [meta] == WriteEntries(name, LegacyWrites(done));
      EntriesAreRecords(name, LegacyWrites(done));
    }
  }

  /** convertLegacyQueue: repacks the old stream segment by segment, metadata last. */
  method ConvertLegacyQueue(name: bytes, packed: bytes) returns (out: seq<Entry>)
    requires Convertible(packed)
    ensures AsPuts(out) == RecordsOf(name, LegacyWrites(Unpack(packed)))
  {
    hide Pack, AppendPacked, EncodeMeta, SegKey, MetaKey, QueueHead, LegacyWrites, RecordsOf, AsPuts, Built;
    out := [];
    var tail, count, seg: bytes := 0, 0, [];
    var left := packed;
    ghost var done: seq<bytes> := [];
    UnpackedArePackable(packed);
    BuiltFromNone(name);
    while QueueHead(left).Head?
      invariant done + Unpack(left) == Unpack(packed) && Leftover(left) == Leftover(packed)
      invariant count == |done| && Built(name, done, out, tail, seg)
      decreases |left|
    {
      var Head(item, rest) := QueueHead(left);
      BuiltStep(name, done, out, tail, seg, item);
      if |seg| != 0 && |seg| + 4 + |item| > MAX_SEG_BYTES {
        out := out + [Entry(SegKey(tail, name), Value(seg, 0))];
        tail := tail + 1;
        seg := [];
      }
      seg := AppendPacked(seg, item);
      assert done + ([item] + Unpack(rest)) == (done + [item]) + Unpack(rest);
      count := (count + 1) % U64_SIZE;
      left := rest;
      done := done + [item];
    }
    assert QueueHead(left).NoItem? && done + [] == done;
    BuiltAll(name, done, out, tail, seg);
    if |seg| > 0 {
      out := out + [Entry(SegKey(tail, name), Value(seg, 0))];
    }
    if count == 0 {
      return [];
    }
    out := out + [Entry(MetaKey(name), Value(EncodeMeta(Meta(0, tail, count)), 0))];
  }

  lemma BuiltFromNone(name: bytes)
    ensures Built(name, [], [], 0, [])
  {
  }
}
