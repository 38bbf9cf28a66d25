/** The order in which a partition's entries are pushed to another node: queue metadata last. */
module Transfer {
  import opened Bytes
  import opened Entries
  import opened Sorting
  import opened QueueStore
  import opened Recovery

  function IsMeta(): Entry -> bool {
    (e: Entry) => e.k.name == QUEUE_MAP
  }

  function NotMeta(): Entry -> bool {
    (e: Entry) => e.k.name != QUEUE_MAP
  }

  function MetaLast(es: seq<Entry>): seq<Entry> {
    Filter(NotMeta(), es) + Filter(IsMeta(), es)
  }

  lemma FilterSnoc<T>(keep: T -> bool, s: seq<T>, x: T)
    ensures Filter(keep, s + [x]) == Filter(keep, s) + if keep(x) then [x] else []
  {
    FilterConcat(keep, s, [x]);
    assert [x][1..] == [];
  }

  /** orderQueueMetaLast: one pass, two lists. */
  method OrderQueueMetaLast(es: seq<Entry>) returns (out: seq<Entry>)
    ensures out == MetaLast(es)
  {
    hide Filter;
    var ordered: seq<Entry>, metas: seq<Entry> := [], [];
    FilterNothing();
    for i := 0 to |es|
      invariant ordered == Filter(NotMeta(), es[..i]) && metas == Filter(IsMeta(), es[..i])
    {
      var e := es[i];
      assert es[..i + 1] == es[..i] + [e];
      FilterSnoc(NotMeta(), es[..i], e);
      FilterSnoc(IsMeta(), es[..i], e);
      if e.k.name == QUEUE_MAP {
        metas := metas + [e];
        assert ordered + [] == ordered;
        continue;
      }
      ordered := ordered + [e];
      assert metas + [] == metas;
    }
    assert es[..|es|] == es;
    return ordered + metas;
  }

  lemma FilterNothing()
    ensures Filter(NotMeta(), []) == [] && Filter(IsMeta(), []) == []
  {
  }

  /** Reordering loses and repeats nothing. */
  lemma MetaLastListsSame(es: seq<Entry>, m: Flat)
    requires Enumerates(es, m)
    ensures Enumerates(MetaLast(es), m)
  {
    hide Filter;
    var a, b := Filter(NotMeta(), es), Filter(IsMeta(), es);
    FilterMembers(NotMeta(), es);
    FilterMembers(IsMeta(), es);
    FilterDistinct(NotMeta(), es);
    FilterDistinct(IsMeta(), es);
    var out := a + b;
    forall i | 0 <= i < |out| ensures out[i] in es { assert out[i] in a || out[i] in b; }
    forall i, j | 0 <= i < j < |out| ensures out[i].k != out[j].k {
      if i < |a| && j >= |a| {
        assert out[i] in a && out[j] in b;
      }
    }
    forall k | k in m ensures Entry(k, m[k]) in out {
      var e := Entry(k, m[k]);
      assert e in es;
      assert e in a || e in b;
    }
  }

  lemma {:induction false} FilterDistinct(keep: Entry -> bool, es: seq<Entry>)
    requires forall i, j | 0 <= i < j < |es| :: es[i].k != es[j].k
    ensures var r := Filter(keep, es); forall i, j | 0 <= i < j < |r| :: r[i].k != r[j].k
  {
    if es != [] {
      FilterDistinct(keep, es[1..]);
      FilterMembers(keep, es[1..]);
      var rest := Filter(keep, es[1..]);
      forall j | 0 <= j < |rest| ensures es[0].k != rest[j].k {
        assert rest[j] in es[1..];
      }
    }
  }

  /** What a receiver that had nothing holds after the first n pushes of a listing of m. */
  function Received(es: seq<Entry>, n: nat): Flat
    requires n <= |es|
  {
    ApplyAll(map[], AsPuts(es[..n]))
  }

  lemma ReceivedKey(es: seq<Entry>, n: nat, m: Flat, k: Key)
    requires Enumerates(es, m) && n <= |es|
    ensures Lookup(Received(es, n), k) == None || Lookup(Received(es, n), k) == Lookup(m, k)
    ensures k in Received(es, n) <==> exists i :: 0 <= i < n && es[i].k == k
  {
    var front := es[..n];
    assert forall i | 0 <= i < n :: front[i] == es[i];
    ApplyAllByKey(map[], AsPuts(front), k);
    EffectOfPuts(front, k);
    if i :| 0 <= i < n && es[i].k == k {
      assert front[i].k == k;
    }
  }

  /**
   * After any number of pushes in this order into a receiver that had nothing, each queue is
   * either without metadata there, hence empty to every reader, or complete.
   */
  lemma MetaLastPrefixIsComplete(es: seq<Entry>, m: Flat, n: nat, name: bytes, now: int)
    requires Enumerates(es, m) && n <= |es|
    ensures |MetaLast(es)| == |es|
    ensures var got := Received(MetaLast(es), n);
            MetaKey(name) !in got || CellsOf(got, now, name) == CellsOf(m, now, name)
  {
    hide Filter, SegKey, CellsOf;
    var out := MetaLast(es);
    var got: Flat;
    MetaLastListsSame(es, m);
    SameCount(es, out, m);
    got := Received(out, n);
    if MetaKey(name) in got {
      FilterMembers(NotMeta(), es);
      FilterMembers(IsMeta(), es);
      ReceivedKey(out, n, m, MetaKey(name));
      var i :| 0 <= i < n && out[i].k == MetaKey(name);
      var a := Filter(NotMeta(), es);
      assert forall j | 0 <= j < |a| :: out[j] == a[j] && a[j] in a && a[j].k.name != QUEUE_MAP;
      forall k: Key | k == MetaKey(name) || k.name != QUEUE_MAP ensures Lookup(got, k) == Lookup(m, k) {
        ReceivedKey(out, n, m, k);
        if k in m && k.name != QUEUE_MAP {
          assert Entry(k, m[k]) in a;
          var j :| 0 <= j < |a| && a[j] == Entry(k, m[k]);
          assert out[j].k == k;
        }
      }
      SameCells(got, m, now, name);
    }
  }

  lemma SameCells(a: Flat, b: Flat, now: int, name: bytes)
    requires forall k: Key | k == MetaKey(name) || k.name != QUEUE_MAP :: Lookup(a, k) == Lookup(b, k)
    ensures CellsOf(a, now, name) == CellsOf(b, now, name)
  {
    hide DecodeMeta;
    forall id: nat ensures Read(a, SegKey(id, name), now) == Read(b, SegKey(id, name), now) {
      assert |QUEUE_SEG_MAP| != |QUEUE_MAP|;
      assert Lookup(a, SegKey(id, name)) == Lookup(b, SegKey(id, name));
    }
    assert Lookup(a, MetaKey(name)) == Lookup(b, MetaKey(name));
    assert CellsOf(a, now, name).segs == CellsOf(b, now, name).segs;
  }

  /** Two listings of the same entries are equally long. */
  lemma {:induction false} SameCount(a: seq<Entry>, b: seq<Entry>, m: Flat)
    requires Enumerates(a, m) && Enumerates(b, m)
    ensures |a| == |b|
  {
    ListingSize(a, m);
    ListingSize(b, m);
  }

  lemma {:induction false} ListingSize(es: seq<Entry>, m: Flat)
    requires Enumerates(es, m)
    ensures |es| == |m|
  {
    if es == [] {
      assert forall k | k in m :: false;
      assert m == map[];
    } else {
      var k := es[|es| - 1].k;
      EnumeratesFront(es, m);
      ListingSize(es[..|es| - 1], m - {k});
      assert m == (m - {k})[k := m[k]];
    }
  }
}
