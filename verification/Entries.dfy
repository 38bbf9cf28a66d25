/**
 * The entries a node holds, seen as one flat map from (map name, key) to value, and the
 * mutation records that the write-ahead log and the replication messages carry.
 */
module Entries {
  import opened Bytes

  const PARTITIONS: nat := 271

  /** The two reserved namespaces, "__queue" and "__queueseg". */
  const QUEUE_MAP: bytes := [95, 95, 113, 117, 101, 117, 101]
  const QUEUE_SEG_MAP: bytes := [95, 95, 113, 117, 101, 117, 101, 115, 101, 103]

  predicate IsReserved(name: bytes) { name == QUEUE_MAP || name == QUEUE_SEG_MAP }

  datatype Key = Key(name: bytes, key: bytes)

  /** expireAt is an absolute instant in nanoseconds; 0 means the value never expires. */
  datatype Value = Value(data: bytes, expireAt: int)

  datatype Entry = Entry(k: Key, v: Value)

  type Flat = map<Key, Value>

  /** Any deterministic hash of a key into the partition range; the properties hold for all of them. */
  type PartitionFn = f: bytes -> nat | forall b :: f(b) < PARTITIONS witness (b => 0)

  /** Queue segments route by the queue name behind their 8-byte id, everything else by its own key. */
  function Routed(f: PartitionFn, k: Key): (p: nat)
    ensures p < PARTITIONS
  {
    if k.name == QUEUE_SEG_MAP && |k.key| >= 8 then f(k.key[8..]) else f(k.key)
  }

  predicate Expired(v: Value, now: int) {
    v.expireAt != 0 && now > v.expireAt
  }

  function Lookup(m: Flat, k: Key): Option<Value> {
    if k in m then Some(m[k]) else None
  }

  function Live(m: Flat, now: int): Flat {
    map k | k in m && !Expired(m[k], now) :: m[k]
  }

  /** What a reader of the live entries sees: the bytes, without the expiry. */
  function Data(m: Flat, now: int): map<Key, bytes> {
    map k | k in m && !Expired(m[k], now) :: m[k].data
  }

  /** The live bytes under k, as a reader gets them. */
  function Read(m: Flat, k: Key, now: int): Option<bytes> {
    if k in m && !Expired(m[k], now) then Some(m[k].data) else None
  }

  /** The entries of partition p. */
  function ShardOf(f: PartitionFn, m: Flat, p: nat): Flat {
    map k | k in m && Routed(f, k) == p :: m[k]
  }

  ghost predicate DistinctKeys(es: seq<Entry>) {
    forall i, j | 0 <= i < j < |es| :: es[i].k != es[j].k
  }

  /** es lists every entry of m exactly once, in some order. */
  ghost predicate Enumerates(es: seq<Entry>, m: Flat) {
    && (forall i, j | 0 <= i < j < |es| :: es[i].k != es[j].k)
    && (forall i | 0 <= i < |es| :: es[i].k in m && m[es[i].k] == es[i].v)
    && (forall k | k in m :: Entry(k, m[k]) in es)
  }

  lemma NothingListed()
    ensures Enumerates([], map[])
  {
  }

  lemma EnumeratesFront(es: seq<Entry>, m: Flat)
    requires Enumerates(es, m) && es != []
    ensures Enumerates(es[..|es| - 1], m - {es[|es| - 1].k})
  {
    var n := |es| - 1;
    var m' := m - {es[n].k};
    forall k | k in m' ensures Entry(k, m'[k]) in es[..n] {
      var i :| 0 <= i < |es| && es[i] == Entry(k, m[k]);
      assert es[..n][i] == es[i];
    }
  }

  lemma EnumeratesMore(es: seq<Entry>, m: Flat, e: Entry)
    requires Enumerates(es, m) && e.k !in m
    ensures Enumerates(es + [e], m[e.k := e.v])
  {
    var m' := m[e.k := e.v];
    forall k | k in m' ensures Entry(k, m'[k]) in es + [e] {
      if k != e.k { assert Entry(k, m[k]) in es; }
    }
  }

  function Visible(o: Option<Value>, now: int): Option<Value> {
    if o.Some? && !Expired(o.value, now) then o else None
  }

  lemma SameLookups(a: Flat, b: Flat)
    requires forall k :: Lookup(a, k) == Lookup(b, k)
    ensures a == b
  {
    assert forall k :: k in a <==> Lookup(a, k).Some?;
    assert forall k :: k in b <==> Lookup(b, k).Some?;
    assert forall k | k in a :: a[k] == Lookup(a, k).value == b[k];
  }

  /** Two stores look alike at an instant exactly when every key is equally visible. */
  lemma LiveByKey(a: Flat, b: Flat, now: int)
    ensures Live(a, now) == Live(b, now) <==>
            forall k :: Visible(Lookup(a, k), now) == Visible(Lookup(b, k), now)
  {
    assert forall k :: Visible(Lookup(a, k), now) == Lookup(Live(a, now), k);
    assert forall k :: Visible(Lookup(b, k), now) == Lookup(Live(b, now), k);
    if forall k :: Visible(Lookup(a, k), now) == Visible(Lookup(b, k), now) {
      SameLookups(Live(a, now), Live(b, now));
    }
  }

  /** a and b show the same under every key but the exempt ones. */
  ghost predicate Alike(a: Flat, b: Flat, now: int, exempt: iset<Key>) {
    forall k | k !in exempt :: Visible(Lookup(a, k), now) == Visible(Lookup(b, k), now)
  }

  lemma AlikeIsLive(a: Flat, b: Flat, now: int)
    ensures Alike(a, b, now, iset{}) <==> Live(a, now) == Live(b, now)
  {
    LiveByKey(a, b, now);
    if Alike(a, b, now, iset{}) {
      forall k ensures Visible(Lookup(a, k), now) == Visible(Lookup(b, k), now) { assert k !in iset{}; }
    }
  }

  lemma AlikeLater(a: Flat, b: Flat, now: int, later: int, exempt: iset<Key>)
    requires now <= later && Alike(a, b, now, exempt)
    ensures Alike(a, b, later, exempt)
  {
    forall k | k !in exempt ensures Visible(Lookup(a, k), later) == Visible(Lookup(b, k), later) {
      assert Visible(Lookup(a, k), now) == Visible(Lookup(b, k), now);
    }
  }

  /** Stores that look alike now look alike at every later instant. */
  lemma LiveLater(a: Flat, b: Flat, now: int, later: int)
    requires now <= later && Live(a, now) == Live(b, now)
    ensures Live(a, later) == Live(b, later)
  {
    assert Live(a, later) == Live(Live(a, now), later);
    assert Live(b, later) == Live(Live(b, now), later);
  }

  // ---- mutation records -------------------------------------------------------------------

  datatype Record = Put(k: Key, v: Value) | Remove(k: Key) | Clear(name: bytes)

  function Apply(m: Flat, r: Record): Flat {
    match r
    case Put(k, v) => m[k := v]
    case Remove(k) => m - {k}
    case Clear(name) => map k | k in m && k.name != name :: m[k]
  }

  function ApplyAll(m: Flat, rs: seq<Record>): Flat {
    if rs == [] then m else Apply(ApplyAll(m, rs[..|rs| - 1]), rs[|rs| - 1])
  }

  lemma OneRecord(m: Flat, r: Record)
    ensures ApplyAll(m, []) == m && ApplyAll(m, [r]) == Apply(m, r)
  {
    assert [r][..0] == [];
  }

  function AsPuts(es: seq<Entry>): seq<Record> {
    if es == [] then [] else AsPuts(es[..|es| - 1]) + [Put(es[|es| - 1].k, es[|es| - 1].v)]
  }

  /** What one record does to one key: nothing, removes it, or sets it. */
  function Touch(r: Record, k: Key): Option<Option<Value>> {
    match r
    case Put(k', v) => if k' == k then Some(Some(v)) else None
    case Remove(k') => if k' == k then Some(None) else None
    case Clear(name) => if k.name == name then Some(None) else None
  }

  /** The last record of rs that touches k decides what rs does to k. */
  function Effect(rs: seq<Record>, k: Key): Option<Option<Value>> {
    if rs == [] then None
    else
      var last := Touch(rs[|rs| - 1], k);
      if last.Some? then last else Effect(rs[..|rs| - 1], k)
  }

  lemma {:induction false} ApplyAllByKey(m: Flat, rs: seq<Record>, k: Key)
    ensures Lookup(ApplyAll(m, rs), k) ==
            if Effect(rs, k).Some? then Effect(rs, k).value else Lookup(m, k)
  {
    if rs != [] {
      ApplyAllByKey(m, rs[..|rs| - 1], k);
    }
  }

  lemma {:induction false} EffectConcat(a: seq<Record>, b: seq<Record>, k: Key)
    ensures Effect(a + b, k) == if Effect(b, k).Some? then Effect(b, k) else Effect(a, k)
  {
    if b == [] {
      assert a + b == a;
    } else {
      assert (a + b)[..|a + b| - 1] == a + b[..|b| - 1];
      EffectConcat(a, b[..|b| - 1], k);
    }
  }

  lemma {:induction false} ApplyAllConcat(m: Flat, a: seq<Record>, b: seq<Record>)
    ensures ApplyAll(m, a + b) == ApplyAll(ApplyAll(m, a), b)
  {
    if b == [] {
      assert a + b == a;
    } else {
      assert (a + b)[..|a + b| - 1] == a + b[..|b| - 1];
      ApplyAllConcat(m, a, b[..|b| - 1]);
    }
  }

  /** Records act alike on stores that look alike. */
  lemma ApplyAllRespectsLive(a: Flat, b: Flat, rs: seq<Record>, now: int)
    requires Live(a, now) == Live(b, now)
    ensures Live(ApplyAll(a, rs), now) == Live(ApplyAll(b, rs), now)
  {
    LiveByKey(a, b, now);
    forall k
      ensures Visible(Lookup(ApplyAll(a, rs), k), now) == Visible(Lookup(ApplyAll(b, rs), k), now)
    {
      ApplyAllByKey(a, rs, k);
      ApplyAllByKey(b, rs, k);
    }
    LiveByKey(ApplyAll(a, rs), ApplyAll(b, rs), now);
  }

  /** The keys that rs says something about. */
  ghost function Touched(rs: seq<Record>): iset<Key> {
    iset k: Key | Effect(rs, k).Some?
  }

  /** Applying records keeps stores alike, and makes them so under the keys they touch. */
  lemma ApplyAllAlike(a: Flat, b: Flat, rs: seq<Record>, now: int, exempt: iset<Key>)
    requires Alike(a, b, now, exempt)
    ensures Alike(ApplyAll(a, rs), ApplyAll(b, rs), now, exempt - Touched(rs))
  {
    hide ApplyAll, Effect;
    forall k | k !in exempt - Touched(rs)
      ensures Visible(Lookup(ApplyAll(a, rs), k), now) == Visible(Lookup(ApplyAll(b, rs), k), now)
    {
      ApplyAllByKey(a, rs, k);
      ApplyAllByKey(b, rs, k);
      if Effect(rs, k).None? {
        assert k !in exempt;
        assert Visible(Lookup(a, k), now) == Visible(Lookup(b, k), now);
      }
    }
  }
}
