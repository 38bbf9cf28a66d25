/** The order-independent content hash by which an owner and a backup compare a partition. */
module Digest {
  import opened Bytes
  import opened Entries

  const FNV_OFFSET: bv64 := 14695981039346656037

  function Xor(a: bv64, b: bv64): bv64 {
    a ^ b
  }

  /** The word with one more bit behind it. */
  function Shifted(x: bv64, odd: bool): bv64 {
    (x << 1) | if odd then 1 else 0
  }

  /** The byte as a 64-bit word, bit by bit. */
  function Widened(c: byte): bv64 {
    if c == 0 then 0 else Shifted(Widened(c / 2), c % 2 == 1)
  }

  /** The word times the 64-bit FNV prime. */
  function Scaled(h: bv64): bv64 {
    h * 1099511628211
  }

  function Mix(h: bv64, c: byte): bv64 {
    Scaled(Xor(h, Widened(c)))
  }

  function Fnv1a(h: bv64, b: bytes): bv64 {
    if b == [] then h else Mix(Fnv1a(h, b[..|b| - 1]), b[|b| - 1])
  }

  /** The hash of one entry, fed field by field with both names length-prefixed. */
  function EntryHash(k: Key, data: bytes): bv64 {
    var h1 := Fnv1a(FNV_OFFSET, PutU32(|k.name|));
    var h2 := Fnv1a(h1, k.name);
    var h3 := Fnv1a(h2, PutU32(|k.key|));
    var h4 := Fnv1a(h3, k.key);
    Fnv1a(h4, data)
  }

  function Stream(k: Key, data: bytes): bytes {
    PutU32(|k.name|) + (k.name + (PutU32(|k.key|) + (k.key + data)))
  }

  lemma {:induction false} FnvConcat(h: bv64, a: bytes, b: bytes)
    ensures Fnv1a(h, a + b) == Fnv1a(Fnv1a(h, a), b)
  {
    hide Mix;
    if b == [] {
      assert a + b == a;
    } else {
      assert (a + b)[..|a + b| - 1] == a + b[..|b| - 1];
      FnvConcat(h, a, b[..|b| - 1]);
    }
  }

  /** Hashing the fields one after the other is hashing one stream of bytes. */
  lemma EntryHashIsStreamHash(k: Key, data: bytes)
    ensures EntryHash(k, data) == Fnv1a(FNV_OFFSET, Stream(k, data))
  {
    hide Fnv1a, PutU32;
    var s4 := k.key + data;
    var s3 := PutU32(|k.key|) + s4;
    var s2 := k.name + s3;
    FnvConcat(FNV_OFFSET, PutU32(|k.name|), s2);
    FnvConcat(Fnv1a(FNV_OFFSET, PutU32(|k.name|)), k.name, s3);
    FnvConcat(Fnv1a(Fnv1a(FNV_OFFSET, PutU32(|k.name|)), k.name), PutU32(|k.key|), s4);
    FnvConcat(Fnv1a(Fnv1a(Fnv1a(FNV_OFFSET, PutU32(|k.name|)), k.name), PutU32(|k.key|)), k.key, data);
  }

  lemma PrefixedInjective(a: bytes, x: bytes, b: bytes, y: bytes)
    requires |a| < U32_SIZE && |b| < U32_SIZE && PutU32(|a|) + (a + x) == PutU32(|b|) + (b + y)
    ensures a == b && x == y
  {
    hide EncodeBE, DecodeBE;
    var s, t := PutU32(|a|) + (a + x), PutU32(|b|) + (b + y);
    assert s[..4] == PutU32(|a|) && t[..4] == PutU32(|b|);
    assert s[4..] == a + x && t[4..] == b + y;
    assert s[4..][..|a|] == a && t[4..][..|b|] == b;
    assert s[4..][|a|..] == x && t[4..][|b|..] == y;
  }

  /** Distinct entries hash distinct streams, whatever bytes they are made of. */
  lemma StreamInjective(k: Key, data: bytes, k': Key, data': bytes)
    requires |k.name| < U32_SIZE && |k.key| < U32_SIZE && |k'.name| < U32_SIZE && |k'.key| < U32_SIZE
    requires Stream(k, data) == Stream(k', data')
    ensures k == k' && data == data'
  {
    hide PutU32;
    PrefixedInjective(k.name, PutU32(|k.key|) + (k.key + data), k'.name, PutU32(|k'.key|) + (k'.key + data'));
    PrefixedInjective(k.key, data, k'.key, data');
  }

  // ---- the hash depends on every byte -----------------------------------------------------

  lemma ShiftedInjective(x: bv64, y: bv64, b: bool, c: bool)
    requires x < 256 && y < 256 && Shifted(x, b) == Shifted(y, c)
    ensures x == y && b == c
  {
  }

  lemma ShiftedZero()
    ensures Shifted(0, false) == 0
  {
  }

  /** No bit of a byte is shifted out. */
  lemma {:induction false} WidenedIsSmall(c: byte)
    ensures Widened(c) < 256 && (c < 128 ==> Widened(c) < 128)
    ensures (c < 64 ==> Widened(c) < 64) && (c < 32 ==> Widened(c) < 32) && (c < 16 ==> Widened(c) < 16)
    ensures (c < 8 ==> Widened(c) < 8) && (c < 4 ==> Widened(c) < 4) && (c < 2 ==> Widened(c) < 2)
  {
    if c != 0 { WidenedIsSmall(c / 2); }
  }

  lemma {:induction false} WidenedInjective(c: byte, d: byte)
    requires Widened(c) == Widened(d)
    ensures c == d
  {
    hide Shifted;
    if c != 0 || d != 0 {
      ShiftedZero();
      WidenedIsSmall(c / 2);
      WidenedIsSmall(d / 2);
      ShiftedInjective(Widened(c / 2), Widened(d / 2), c % 2 == 1, d % 2 == 1);
      WidenedInjective(c / 2, d / 2);
    }
  }

  lemma ScaledIs(x: bv64)
    ensures x * 1099511628211 == Scaled(x)
  {
  }

  lemma ScaledAlike(x: bv64, y: bv64)
    requires Scaled(x) == Scaled(y)
    ensures x * 1099511628211 == y * 1099511628211
  {
    calc {
      x * 1099511628211;
    == { ScaledIs(x); }
      Scaled(x);
    ==
      Scaled(y);
    == { ScaledIs(y); }
      y * 1099511628211;
    }
  }

  /** The prime is odd, so multiplying by it modulo 2^64 can be undone. */
  lemma TimesPrimeInjective(x: bv64, y: bv64)
    requires x * 1099511628211 == y * 1099511628211
    ensures x == y
  {
  }

  lemma ScaledInjective(x: bv64, y: bv64)
    requires Scaled(x) == Scaled(y)
    ensures x == y
  {
    hide Scaled;
    ScaledAlike(x, y);
    TimesPrimeInjective(x, y);
  }

  lemma XorBack(h: bv64, d: bv64)
    ensures Xor(h, Xor(h, d)) == d && Xor(Xor(h, d), d) == h
  {
  }

  lemma XorUndone(h: bv64, h': bv64, d: bv64, d': bv64)
    requires Xor(h, d) == Xor(h', d')
    ensures h == h' <==> d == d'
  {
    hide Xor;
    XorBack(h, d);
    XorBack(h', d');
  }

  /** One round loses nothing: with the byte it determines the state before, with the state the byte. */
  lemma MixInjective(h: bv64, c: byte, h': bv64, c': byte)
    requires Mix(h, c) == Mix(h', c')
    ensures h == h' <==> c == c'
  {
    hide Widened, Scaled, Xor;
    ScaledInjective(Xor(h, Widened(c)), Xor(h', Widened(c')));
    XorUndone(h, h', Widened(c), Widened(c'));
    if h == h' { WidenedInjective(c, c'); }
  }

  /** a and b have the same length and differ at i and nowhere else. */
  predicate OneByteApart(a: bytes, b: bytes, i: nat) {
    |a| == |b| && i < |a| && a[i] != b[i] && forall j | 0 <= j < |a| && j != i :: a[j] == b[j]
  }

  /** Changing any one byte of a stream changes its hash. */
  lemma {:induction false} FnvTellsOneByte(h: bv64, a: bytes, b: bytes, i: nat)
    requires OneByteApart(a, b, i)
    ensures Fnv1a(h, a) != Fnv1a(h, b)
  {
    hide Mix;
    var n := |a| - 1;
    if i == n {
      assert a[..n] == b[..n];
    } else {
      FnvTellsOneByte(h, a[..n], b[..n], i);
    }
    if Fnv1a(h, a) == Fnv1a(h, b) {
      MixInjective(Fnv1a(h, a[..n]), a[n], Fnv1a(h, b[..n]), b[n]);
    }
  }

  /** So does changing one byte of an entry, whether of its map, its key or its data. */
  lemma EntryHashTellsOneByte(k: Key, data: bytes, k': Key, data': bytes, i: nat)
    requires OneByteApart(Stream(k, data), Stream(k', data'), i)
    ensures EntryHash(k, data) != EntryHash(k', data')
  {
    hide Fnv1a, Stream;
    EntryHashIsStreamHash(k, data);
    EntryHashIsStreamHash(k', data');
    FnvTellsOneByte(FNV_OFFSET, Stream(k, data), Stream(k', data'), i);
  }

  lemma StreamOneByteApart(k: Key, data: bytes, data': bytes, i: nat) returns (j: nat)
    requires OneByteApart(data, data', i)
    ensures OneByteApart(Stream(k, data), Stream(k, data'), j)
  {
    hide PutU32;
    var front := PutU32(|k.name|) + (k.name + (PutU32(|k.key|) + k.key));
    assert Stream(k, data) == front + data && Stream(k, data') == front + data';
    j := |front| + i;
  }

  // ---- the digest of a set of entries -----------------------------------------------------

  ghost function DigestOf(d: map<Key, bytes>): bv64
    decreases |d|
  {
    if d == map[] then 0
    else
      var k :| k in d;
      Xor(EntryHash(k, d[k]), DigestOf(d - {k}))
  }

  lemma XorSwap(a: bv64, b: bv64, c: bv64)
    ensures Xor(a, Xor(b, c)) == Xor(b, Xor(a, c))
    ensures Xor(a, Xor(a, c)) == c
  {
  }

  /** Taking out any one entry takes exactly its hash out of the digest. */
  lemma {:induction false} DigestWithout(d: map<Key, bytes>, k: Key)
    requires k in d
    ensures DigestOf(d) == Xor(EntryHash(k, d[k]), DigestOf(d - {k}))
    decreases |d|
  {
    hide EntryHash, Xor;
    var j :| j in d && DigestOf(d) == Xor(EntryHash(j, d[j]), DigestOf(d - {j}));
    if j != k {
      DigestWithout(d - {j}, k);
      assert d - {j} - {k} == d - {k} - {j};
      DigestWithout(d - {k}, j);
      XorSwap(EntryHash(j, d[j]), EntryHash(k, d[k]), DigestOf(d - {j} - {k}));
    }
  }

  /** Adding one entry XORs its hash in; so does adding and removing undo each other. */
  lemma DigestWith(d: map<Key, bytes>, k: Key, data: bytes)
    requires k !in d
    ensures DigestOf(d[k := data]) == Xor(EntryHash(k, data), DigestOf(d))
    ensures DigestOf(d) == Xor(EntryHash(k, data), DigestOf(d[k := data]))
  {
    hide EntryHash, Xor;
    var d' := d[k := data];
    DigestWithout(d', k);
    assert d' - {k} == d;
    XorSwap(EntryHash(k, data), 0, DigestOf(d));
  }

  /** Contents that differ in one byte of one entry's data have different digests. */
  lemma DigestTellsOneByte(d: map<Key, bytes>, k: Key, data: bytes, i: nat)
    requires k in d && OneByteApart(d[k], data, i)
    ensures DigestOf(d) != DigestOf(d[k := data])
  {
    hide EntryHash, Xor, DigestOf, Stream;
    var j := StreamOneByteApart(k, d[k], data, i);
    EntryHashTellsOneByte(k, d[k], k, data, j);
    DigestWithout(d, k);
    DigestWithout(d[k := data], k);
    assert d[k := data] - {k} == d - {k};
    if DigestOf(d) == DigestOf(d[k := data]) {
      XorUndone(EntryHash(k, d[k]), EntryHash(k, data), DigestOf(d - {k}), DigestOf(d - {k}));
    }
  }

  /** The accumulating loop over the live entries, in whatever order they are listed. */
  function DigestOfList(es: seq<Entry>): bv64 {
    if es == [] then 0
    else Xor(DigestOfList(es[..|es| - 1]), EntryHash(es[|es| - 1].k, es[|es| - 1].v.data))
  }

  lemma XorCommutes(a: bv64, b: bv64)
    ensures Xor(a, b) == Xor(b, a)
  {
  }

  function DataOf(m: Flat): map<Key, bytes> {
    map k | k in m :: m[k].data
  }

  lemma LastListed(es: seq<Entry>, m: Flat)
    requires Enumerates(es, m) && es != []
    ensures es[|es| - 1].k in m && m[es[|es| - 1].k] == es[|es| - 1].v
  {
  }

  lemma EmptyListing(m: Flat)
    requires Enumerates([], m)
    ensures m == map[]
  {
    assert forall k | k in m :: false;
  }

  /** Every listing of the same entries gives the same digest: iteration order is irrelevant. */
  lemma {:induction false} DigestOfListing(es: seq<Entry>, m: Flat)
    requires Enumerates(es, m)
    ensures DigestOfList(es) == DigestOf(DataOf(m))
  {
    hide EntryHash, Xor, Enumerates;
    if es == [] {
      EmptyListing(m);
      assert DataOf(m) == map[];
    } else {
      var n := |es| - 1;
      var e := es[n];
      var m' := m - {e.k};
      EnumeratesFront(es, m);
      assert e.k in m && m[e.k] == e.v by { LastListed(es, m); }
      DigestOfListing(es[..n], m');
      assert DataOf(m') == DataOf(m) - {e.k};
      DigestWithout(DataOf(m), e.k);
      XorCommutes(DigestOfList(es[..n]), EntryHash(e.k, e.v.data));
    }
  }
}
