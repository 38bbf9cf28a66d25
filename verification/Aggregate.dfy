/** Count, sum, min and max over a map spread across the cluster, in 64-bit two's complement. */
module Aggregate {
  import opened Bytes
  import opened Entries
  import opened Sorting
  import opened PartitionTable
  import opened Migration
  import opened Transfer
  import Stores
  import MigrationPass

  const HALF: int := 0x8000_0000_0000_0000

  /** What 64-bit signed arithmetic makes of x. */
  function Wrap(x: int): (r: int)
    ensures -HALF <= r < HALF
  {
    (x + HALF) % U64_SIZE - HALF
  }

  lemma WrapSum(a: int, b: int)
    ensures Wrap(Wrap(a) + b) == Wrap(a + b) && Wrap(a + Wrap(b)) == Wrap(a + b)
  {
    var q, s := (a + HALF) / U64_SIZE, (b + HALF) / U64_SIZE;
    assert Wrap(a) == a - q * U64_SIZE && Wrap(b) == b - s * U64_SIZE;
    Shift(a + b, q);
    Shift(a + b, s);
  }

  lemma Shift(x: int, q: int)
    ensures Wrap(x - q * U64_SIZE) == Wrap(x)
  {
    var d := (x + HALF) / U64_SIZE;
    var r := (x + HALF) % U64_SIZE;
    assert x - q * U64_SIZE + HALF == (d - q) * U64_SIZE + r;
  }

  function PutI64(n: int): (b: bytes)
    requires -HALF <= n < HALF
    ensures |b| == 8
  {
    PutU64(n % U64_SIZE)
  }

  function ReadInt64(b: bytes): (n: int)
    ensures -HALF <= n < HALF
  {
    if |b| < 8 then 0
    else
      DecodeBounds(b[..8]);
      var u := DecodeBE(b[..8]);
      if u < HALF then u else u - U64_SIZE
  }

  lemma ReadPut(n: int)
    requires -HALF <= n < HALF
    ensures ReadInt64(PutI64(n)) == n
  {
    hide DecodeBE, PutU64;
    var b := PutI64(n);
    assert b[..8] == b;
  }

  // ---- folding ----------------------------------------------------------------------------

  /** The exact sum of the items, each read as a signed 64-bit number. */
  function Total(items: seq<bytes>): int {
    if items == [] then 0 else Total(items[..|items| - 1]) + ReadInt64(items[|items| - 1])
  }

  method SumI64(parts: seq<bytes>) returns (sum: int)
    ensures sum == Wrap(Total(parts))
  {
    hide Wrap, ReadInt64;
    WrapZero();
    sum := 0;
    for i := 0 to |parts|
      invariant sum == Wrap(Total(parts[..i]))
    {
      assert parts[..i + 1][..i] == parts[..i];
      WrapSum(Total(parts[..i]), ReadInt64(parts[i]));
      sum := Wrap(sum + ReadInt64(parts[i]));
    }
    assert parts[..|parts|] == parts;
  }

  lemma WrapZero()
    ensures Wrap(0) == 0
  {
  }

  /** The number an item contributes to an extremum: an empty item contributes none. */
  function Contribution(item: bytes): Option<int> {
    if |item| == 0 then None else Some(ReadInt64(item))
  }

  function Better(a: Option<int>, b: Option<int>, min: bool): Option<int> {
    if a.None? then b
    else if b.None? then a
    else if min then (if b.value < a.value then b else a)
    else if b.value > a.value then b
    else a
  }

  function Extreme(items: seq<bytes>, min: bool): Option<int> {
    if items == [] then None
    else Better(Extreme(items[..|items| - 1], min), Contribution(items[|items| - 1]), min)
  }

  function EncodeExtreme(o: Option<int>): bytes
    requires o.Some? ==> -HALF <= o.value < HALF
  {
    if o.None? then [] else PutI64(o.value)
  }

  lemma {:induction false} ExtremeInRange(items: seq<bytes>, min: bool)
    ensures Extreme(items, min).Some? ==> -HALF <= Extreme(items, min).value < HALF
  {
    if items != [] { ExtremeInRange(items[..|items| - 1], min); }
  }

  method Extremum(items: seq<bytes>, min: bool) returns (r: bytes)
    ensures Extreme(items, min).Some? ==> -HALF <= Extreme(items, min).value < HALF
    ensures r == EncodeExtreme(Extreme(items, min))
  {
    hide ReadInt64;
    var best, seen := 0, false;
    for i := 0 to |items|
      invariant Extreme(items[..i], min) == (if seen then Some(best) else None)
    {
      assert items[..i + 1][..i] == items[..i];
      var it := items[i];
      if |it| == 0 {
        continue;
      }
      var x := ReadInt64(it);
      if !seen || (min && x < best) || (!min && x > best) {
        best, seen := x, true;
      }
    }
    assert items[..|items|] == items;
    ExtremeInRange(items, min);
    r := if !seen then [] else PutI64(best);
  }

  /** The fold finds the least or greatest contribution, and finds one exactly when there is one. */
  lemma {:induction false} ExtremeIsExtreme(items: seq<bytes>, min: bool)
    ensures var e := Extreme(items, min);
            && (e.None? <==> forall i | 0 <= i < |items| :: items[i] == [])
            && (e.Some? ==> exists i :: 0 <= i < |items| && Contribution(items[i]) == e)
            && (e.Some? ==> forall i | 0 <= i < |items| && items[i] != [] ::
                  if min then e.value <= ReadInt64(items[i]) else e.value >= ReadInt64(items[i]))
  {
    hide ReadInt64;
    if items != [] {
      var n := |items| - 1;
      var front := items[..n];
      ExtremeIsExtreme(front, min);
      assert items == front + [items[n]];
      var e, e' := Extreme(front, min), Extreme(items, min);
      if e'.Some? && e' == e {
        var i :| 0 <= i < n && Contribution(front[i]) == e;
        assert Contribution(items[i]) == e';
      }
      assert forall i | 0 <= i < n :: front[i] == items[i];
    }
  }

  // ---- order and grouping do not matter ---------------------------------------------------

  lemma {:induction false} FoldConcat(a: seq<bytes>, b: seq<bytes>, min: bool)
    ensures Total(a + b) == Total(a) + Total(b)
    ensures Extreme(a + b, min) == Better(Extreme(a, min), Extreme(b, min), min)
  {
    hide ReadInt64, Contribution;
    if b == [] {
      assert a + b == a;
    } else {
      var n := |b| - 1;
      assert (a + b)[..|a + b| - 1] == a + b[..n];
      FoldConcat(a, b[..n], min);
    }
  }

  lemma BetterSwaps(a: Option<int>, x: Option<int>, b: Option<int>, min: bool)
    ensures Better(Better(a, x, min), b, min) == Better(Better(a, b, min), x, min)
  {
  }

  /** One item can be taken out of the middle and folded in last. */
  lemma PullOut(s: seq<bytes>, i: nat, min: bool)
    requires i < |s|
    ensures Total(s) == Total(Without(s, i)) + Total([s[i]])
    ensures Extreme(s, min) == Better(Extreme(Without(s, i), min), Extreme([s[i]], min), min)
  {
    hide Total, Extreme, Better;
    var a, x, b := s[..i], [s[i]], s[i + 1..];
    assert s == (a + x) + b;
    FoldConcat(a + x, b, min);
    FoldConcat(a, x, min);
    FoldConcat(a, b, min);
    BetterSwaps(Extreme(a, min), Extreme(x, min), Extreme(b, min), min);
  }

  lemma {:induction false} FoldAnyOrder(a: seq<bytes>, b: seq<bytes>, min: bool)
    requires multiset(a) == multiset(b)
    ensures |a| == |b| && Total(a) == Total(b) && Extreme(a, min) == Extreme(b, min)
    decreases |a|
  {
    hide Total, Extreme, Better, Without;
    assert |multiset(a)| == |a| && |multiset(b)| == |b|;
    if a == [] {
      assert b == [];
    } else {
      var n := |a| - 1;
      assert a[n] in multiset(b);
      var i :| 0 <= i < |b| && b[i] == a[n];
      TakeOut(a, n);
      TakeOut(b, i);
      FoldAnyOrder(Without(a, n), Without(b, i), min);
      PullOut(a, n, min);
      PullOut(b, i, min);
    }
  }

  datatype Kind = Count | SumOf | Min | Max

  function Reduce(kind: Kind, values: seq<bytes>): bytes {
    match kind
    case Count => PutI64(Wrap(|values|))
    case SumOf => PutI64(Wrap(Total(values)))
    case Min => ExtremeInRange(values, true); EncodeExtreme(Extreme(values, true))
    case Max => ExtremeInRange(values, false); EncodeExtreme(Extreme(values, false))
  }

  function Combine(kind: Kind, partials: seq<bytes>): bytes {
    match kind
    case Count => PutI64(Wrap(Total(partials)))
    case SumOf => PutI64(Wrap(Total(partials)))
    case Min => ExtremeInRange(partials, true); EncodeExtreme(Extreme(partials, true))
    case Max => ExtremeInRange(partials, false); EncodeExtreme(Extreme(partials, false))
  }

  method ReduceValues(kind: Kind, values: seq<bytes>) returns (r: bytes)
    ensures r == Reduce(kind, values)
  {
    match kind {
      case Count => r := PutI64(Wrap(|values|));
      case SumOf => var s := SumI64(values); r := PutI64(s);
      case Min => r := Extremum(values, true);
      case Max => r := Extremum(values, false);
    }
  }

  method CombinePartials(kind: Kind, partials: seq<bytes>) returns (r: bytes)
    ensures r == Combine(kind, partials)
  {
    match kind {
      case Count => var s := SumI64(partials); r := PutI64(s);
      case SumOf => var s := SumI64(partials); r := PutI64(s);
      case Min => r := Extremum(partials, true);
      case Max => r := Extremum(partials, false);
    }
  }

  function Joined(parts: seq<seq<bytes>>): seq<bytes> {
    if parts == [] then [] else Joined(parts[..|parts| - 1]) + parts[|parts| - 1]
  }

  function Partials(kind: Kind, parts: seq<seq<bytes>>): seq<bytes> {
    seq(|parts|, i requires 0 <= i < |parts| => Reduce(kind, parts[i]))
  }

  lemma ContributionOfPartial(values: seq<bytes>, min: bool)
    ensures var p := Reduce(if min then Min else Max, values); Contribution(p) == Extreme(values, min)
  {
    hide Extreme, ReadInt64, PutI64;
    ExtremeInRange(values, min);
    var e := Extreme(values, min);
    if e.Some? { ReadPut(e.value); }
  }

  lemma {:induction false} ExtremeOfPartials(parts: seq<seq<bytes>>, min: bool)
    ensures Extreme(Partials(if min then Min else Max, parts), min) == Extreme(Joined(parts), min)
  {
    hide Contribution, Reduce;
    var kind := if min then Min else Max;
    if parts != [] {
      var n := |parts| - 1;
      var ps := Partials(kind, parts);
      assert ps[..n] == Partials(kind, parts[..n]);
      ExtremeOfPartials(parts[..n], min);
      ContributionOfPartial(parts[n], min);
      FoldConcat(Joined(parts[..n]), parts[n], min);
    }
  }

  /** What the additive aggregators measure. */
  function Measure(kind: Kind, values: seq<bytes>): int {
    if kind == Count then |values| else Total(values)
  }

  lemma PartialMeasures(kind: Kind, values: seq<bytes>)
    requires kind in {Count, SumOf}
    ensures ReadInt64(Reduce(kind, values)) == Wrap(Measure(kind, values))
  {
    hide Total, ReadInt64, PutI64, Wrap;
    ReadPut(Wrap(Measure(kind, values)));
  }

  lemma {:induction false} TotalOfPartials(kind: Kind, parts: seq<seq<bytes>>)
    requires kind in {Count, SumOf}
    ensures Wrap(Total(Partials(kind, parts))) == Wrap(Measure(kind, Joined(parts)))
  {
    hide Wrap, Reduce, ReadInt64;
    if parts != [] {
      var n := |parts| - 1;
      var ps := Partials(kind, parts);
      assert ps[..n] == Partials(kind, parts[..n]);
      TotalOfPartials(kind, parts[..n]);
      PartialMeasures(kind, parts[n]);
      FoldConcat(Joined(parts[..n]), parts[n], true);
      var t, m, x := Total(ps[..n]), Measure(kind, Joined(parts[..n])), Measure(kind, parts[n]);
      WrapSum(t, x);
      WrapSum(t, Wrap(x));
      WrapSum(m, x);
    }
  }

  /**
   * Combining what the members reduced is reducing everything at once, for every way of splitting the
   * values among members, in every order, with members that own nothing.
   */
  lemma DistributedIsCentral(kind: Kind, parts: seq<seq<bytes>>, all: seq<bytes>)
    requires multiset(Joined(parts)) == multiset(all)
    ensures Combine(kind, Partials(kind, parts)) == Reduce(kind, all)
  {
    hide Wrap, Total, Extreme, PutI64;
    FoldAnyOrder(Joined(parts), all, kind == Min);
    match kind {
      case Count => TotalOfPartials(kind, parts);
      case SumOf => TotalOfPartials(kind, parts);
      case Min => ExtremeOfPartials(parts, true);
      case Max => ExtremeOfPartials(parts, false);
    }
  }

  // ---- across the cluster -----------------------------------------------------------------

  function AllKeys(nodes: Nodes): set<Key> {
    set n, k | n in nodes && k in nodes[n] :: k
  }

  /** The live entries of the map that the nodes in s own, each as its owner has it. */
  function OwnedBy(c: Config, nodes: Nodes, s: set<Id>, name: bytes, at: Id -> int): Flat {
    map k | k in AllKeys(nodes) && IsOwned(c, nodes, s, name, at, k) :: nodes[c.layout.OwnerOf(Routed(c.f, k))][k]
  }

  predicate IsOwned(c: Config, nodes: Nodes, s: set<Id>, name: bytes, at: Id -> int, k: Key) {
    var o := c.layout.OwnerOf(Routed(c.f, k));
    k.name == name && o in s && o in nodes && k in nodes[o] && !Expired(nodes[o][k], at(o))
  }

  function DataList(es: seq<Entry>): seq<bytes> {
    seq(|es|, i requires 0 <= i < |es| => es[i].v.data)
  }

  function OwnedBelow(c: Config, m: Flat, self: Id, name: bytes, now: int, p: nat): Flat {
    map k | k in m && k.name == name && !Expired(m[k], now) &&
            Routed(c.f, k) < p && c.layout.OwnerOf(Routed(c.f, k)) == self :: m[k]
  }

  lemma NoneBelow(c: Config, m: Flat, self: Id, name: bytes, now: int)
    ensures OwnedBelow(c, m, self, name, now, 0) == map[] && Enumerates([], map[])
  {
  }

  function OwnedAt(c: Config, m: Flat, name: bytes, now: int, p: nat): Flat {
    map k | k in m && k.name == name && Routed(c.f, k) == p && !Expired(m[k], now) :: m[k]
  }

  lemma NextPartition(c: Config, m: Flat, self: Id, name: bytes, now: int, p: nat)
    ensures var below, here := OwnedBelow(c, m, self, name, now, p), OwnedAt(c, m, name, now, p);
            below.Keys !! here.Keys &&
            OwnedBelow(c, m, self, name, now, p + 1) == if c.layout.OwnerOf(p) == self then below + here else below
  {
    hide Sort, Routed, Expired;
  }

  /** collectOwnedValues: partition by partition, skipping those this node does not own. */
  method CollectOwned(c: Config, m: Flat, self: Id, name: bytes, now: int) returns (es: seq<Entry>)
    ensures Enumerates(es, OwnedBelow(c, m, self, name, now, PARTITIONS))
  {
    hide Sort, Enumerates, OwnedBelow, OwnedAt;
    es := [];
    NoneBelow(c, m, self, name, now);
    for p := 0 to PARTITIONS
      invariant Enumerates(es, OwnedBelow(c, m, self, name, now, p))
    {
      NextPartition(c, m, self, name, now, p);
      if c.layout.OwnerOf(p) != self {
        continue;
      }
      var here := OwnedAt(c, m, name, now, p);
      var part := MigrationPass.ListFlat(here);
      Stores.EnumeratesUnion(es, OwnedBelow(c, m, self, name, now, p), part, here);
      es := es + part;
    }
  }

  lemma OwnShare(c: Config, nodes: Nodes, s: set<Id>, n: Id, name: bytes, at: Id -> int)
    requires n in nodes && n !in s
    ensures var mine := OwnedBelow(c, nodes[n], n, name, at(n), PARTITIONS);
            var theirs := OwnedBy(c, nodes, s, name, at);
            theirs.Keys !! mine.Keys && OwnedBy(c, nodes, s + {n}, name, at) == theirs + mine
  {
    hide Sort, Expired, OwnedBy, OwnedBelow;
    var mine := OwnedBelow(c, nodes[n], n, name, at(n), PARTITIONS);
    var theirs, both := OwnedBy(c, nodes, s, name, at), OwnedBy(c, nodes, s + {n}, name, at);
    forall k ensures Lookup(both, k) == Lookup(theirs + mine, k) && !(k in theirs && k in mine) {
      OwnedKey(c, nodes, s, name, at, k);
      OwnedKey(c, nodes, s + {n}, name, at, k);
      OwnedBelowKey(c, nodes[n], n, name, at(n), k);
    }
    SameLookups(both, theirs + mine);
  }

  lemma OwnedKey(c: Config, nodes: Nodes, s: set<Id>, name: bytes, at: Id -> int, k: Key)
    ensures var o := c.layout.OwnerOf(Routed(c.f, k));
            Lookup(OwnedBy(c, nodes, s, name, at), k) ==
            if IsOwned(c, nodes, s, name, at, k) then Some(nodes[o][k]) else None
  {
    hide Sort, Expired;
  }

  lemma OwnedBelowKey(c: Config, m: Flat, self: Id, name: bytes, now: int, k: Key)
    ensures Lookup(OwnedBelow(c, m, self, name, now, PARTITIONS), k) ==
            if k in m && k.name == name && !Expired(m[k], now) && c.layout.OwnerOf(Routed(c.f, k)) == self
            then Some(m[k]) else None
  {
    hide Sort, Expired;
  }

  lemma DataConcat(a: seq<Entry>, b: seq<Entry>)
    ensures DataList(a + b) == DataList(a) + DataList(b)
  {
  }

  lemma JoinedMore(kind: Kind, parts: seq<seq<bytes>>, part: seq<bytes>)
    ensures Joined(parts + [part]) == Joined(parts) + part
    ensures Partials(kind, parts + [part]) == Partials(kind, parts) + [Reduce(kind, part)]
  {
    hide Reduce;
    assert (parts + [part])[..|parts|] == parts;
  }

  /** The members that took part: this node, and the others that answer. */
  function Taking(members: seq<Id>, self: Id, answers: Id -> bool): set<Id> {
    set x | x in members && (x == self || answers(x))
  }

  /**
   * Aggregate: the combined result is the reduction of the live entries owned by the members that
   * answered, each entry folded exactly once, as its owner has it, in whatever order they are listed.
   * A missing member is reported.
   */
  method Gather(c: Config, nodes: Nodes, members: seq<Id>, self: Id, kind: Kind, name: bytes,
                at: Id -> int, answers: Id -> bool)
    returns (r: bytes, failed: bool)
    requires Distinct(members) && forall x | x in members :: x in nodes
    ensures forall es | Enumerates(es, OwnedBy(c, nodes, Taking(members, self, answers), name, at)) ::
              r == Reduce(kind, DataList(es))
    ensures failed <==> exists x :: x in members && x != self && !answers(x)
  {
    hide Sort, Enumerates, Reduce, Combine, OwnedBy, OwnedBelow, DataList, Joined, Partials;
    var partials: seq<bytes> := [];
    failed := false;
    ghost var parts: seq<seq<bytes>> := [];
    ghost var all: seq<Entry> := [];
    NothingOwned(c, nodes, name, at, kind);
    ghost var seen: set<Id> := {};
    for i := 0 to |members|
      invariant seen == Taking(members[..i], self, answers)
      invariant Enumerates(all, OwnedBy(c, nodes, seen, name, at))
      invariant Joined(parts) == DataList(all) && partials == Partials(kind, parts)
      invariant failed <==> exists x :: x in members[..i] && x != self && !answers(x)
    {
      var n := members[i];
      assert members[..i + 1] == members[..i] + [n];
      if n != self && !answers(n) {
        failed := true;
        assert seen == Taking(members[..i + 1], self, answers);
        continue;
      }
      assert n !in members[..i];
      var es := CollectOwned(c, nodes[n], n, name, at(n));
      var values := DataList(es);
      var partial := ReduceValues(kind, values);
      partials := partials + [partial];
      OwnShare(c, nodes, seen, n, name, at);
      Stores.EnumeratesUnion(all, OwnedBy(c, nodes, seen, name, at),
                             es, OwnedBelow(c, nodes[n], n, name, at(n), PARTITIONS));
      DataConcat(all, es);
      JoinedMore(kind, parts, values);
      seen, all, parts := seen + {n}, all + es, parts + [values];
    }
    assert members[..|members|] == members;
    r := CombinePartials(kind, partials);
    forall es | Enumerates(es, OwnedBy(c, nodes, seen, name, at)) ensures r == Reduce(kind, DataList(es)) {
      SameData(es, all, OwnedBy(c, nodes, seen, name, at));
      DistributedIsCentral(kind, parts, DataList(es));
    }
  }

  lemma NothingOwned(c: Config, nodes: Nodes, name: bytes, at: Id -> int, kind: Kind)
    ensures OwnedBy(c, nodes, {}, name, at) == map[] && Enumerates([], map[])
    ensures Joined([]) == DataList([]) && Partials(kind, []) == []
  {
    hide Sort;
  }

  /** Two listings of the same entries hold the same values, each as often. */
  lemma {:induction false} SameData(a: seq<Entry>, b: seq<Entry>, m: Flat)
    requires Enumerates(a, m) && Enumerates(b, m)
    ensures multiset(DataList(a)) == multiset(DataList(b))
    decreases |a|
  {
    hide Enumerates, DataList;
    if a == [] {
      ListsNothing(b, m);
    } else {
      var n := |a| - 1;
      var i := AlsoListed(a, b, m, n);
      EnumeratesFront(a, m);
      ListingWithout(b, m, i);
      SameData(a[..n], b[..i] + b[i + 1..], m - {a[n].k});
      DataSplit(a, n);
      DataSplit(b, i);
      assert a[..n] + a[n + 1..] == a[..n];
    }
  }

  lemma ListsNothing(b: seq<Entry>, m: Flat)
    requires Enumerates([], m) && Enumerates(b, m)
    ensures b == []
  {
    hide Enumerates;
    ListingSize([], m);
    ListingSize(b, m);
  }

  lemma AlsoListed(a: seq<Entry>, b: seq<Entry>, m: Flat, j: nat) returns (i: nat)
    requires Enumerates(a, m) && Enumerates(b, m) && j < |a|
    ensures i < |b| && b[i] == a[j]
  {
    assert a[j] == Entry(a[j].k, m[a[j].k]);
    i :| 0 <= i < |b| && b[i] == a[j];
  }

  lemma DataSplit(s: seq<Entry>, i: nat)
    requires i < |s|
    ensures multiset(DataList(s)) == multiset(DataList(s[..i] + s[i + 1..])) + multiset{s[i].v.data}
  {
    var d := DataList(s);
    assert d == d[..i] + [d[i]] + d[i + 1..];
    assert DataList(s[..i] + s[i + 1..]) == d[..i] + d[i + 1..];
  }

  function Skip(i: nat, a: nat): nat { if a < i then a else a + 1 }

  lemma DropAt(es: seq<Entry>, i: nat)
    requires i < |es|
    ensures var rest := es[..i] + es[i + 1..];
            |rest| == |es| - 1 && (forall a | 0 <= a < |rest| :: rest[a] == es[Skip(i, a)]) &&
            (forall j | 0 <= j < |es| && j != i :: es[j] in rest)
  {
    var rest := es[..i] + es[i + 1..];
    forall j | 0 <= j < |es| && j != i ensures es[j] in rest {
      var a := if j < i then j else j - 1;
      assert rest[a] == es[j];
    }
  }

  lemma ListingWithout(es: seq<Entry>, m: Flat, i: nat)
    requires Enumerates(es, m) && i < |es|
    ensures Enumerates(es[..i] + es[i + 1..], m - {es[i].k})
  {
    var rest := es[..i] + es[i + 1..];
    DropAt(es, i);
    KeepsListing(es, m, i, rest);
  }

  lemma KeepsListing(es: seq<Entry>, m: Flat, i: nat, rest: seq<Entry>)
    requires Enumerates(es, m) && i < |es| && |rest| == |es| - 1
    requires forall a | 0 <= a < |rest| :: rest[a] == es[Skip(i, a)]
    requires forall j | 0 <= j < |es| && j != i :: es[j] in rest
    ensures Enumerates(rest, m - {es[i].k})
  {
    var m' := m - {es[i].k};
    forall k | k in m' ensures Entry(k, m'[k]) in rest {
      var j :| 0 <= j < |es| && es[j] == Entry(k, m[k]);
    }
    forall a | 0 <= a < |rest| ensures rest[a].k in m' && m'[rest[a].k] == rest[a].v {
      var j := Skip(i, a);
      assert es[j].k != es[i].k;
    }
  }
}
