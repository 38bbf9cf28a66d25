/**
 * Rendezvous assignment of partitions to members: for each partition the members are ranked by
 * weight, the first owns it and the next ones back it up.
 */
module PartitionTable {
  import opened Bytes
  import opened Entries
  import opened Sorting

  type Id = bytes

  /** The weight of a member for a partition; the properties hold for every such function. */
  type WeightFn = (Id, nat) -> nat

  /** Bytewise lexicographic order, the order of sorted ids. */
  predicate LexLeq(a: Id, b: Id) {
    if a == [] then true
    else if b == [] then false
    else a[0] < b[0] || (a[0] == b[0] && LexLeq(a[1..], b[1..]))
  }

  lemma {:induction false} LexTotal(a: Id, b: Id)
    ensures LexLeq(a, b) || LexLeq(b, a)
    ensures LexLeq(a, b) && LexLeq(b, a) ==> a == b
  {
    if a != [] && b != [] {
      LexTotal(a[1..], b[1..]);
      assert a == [a[0]] + a[1..] && b == [b[0]] + b[1..];
    }
  }

  lemma {:induction false} LexTransitive(a: Id, b: Id, c: Id)
    requires LexLeq(a, b) && LexLeq(b, c)
    ensures LexLeq(a, c)
  {
    if a != [] && a[0] == b[0] && b[0] == c[0] {
      LexTransitive(a[1..], b[1..], c[1..]);
    }
  }

  /** Heavier first; equal weights by id. */
  predicate Ahead(w: WeightFn, p: nat, a: Id, b: Id) {
    w(a, p) > w(b, p) || (w(a, p) == w(b, p) && LexLeq(a, b))
  }

  function ByWeight(w: WeightFn, p: nat): (Id, Id) -> bool {
    (a, b) => Ahead(w, p, a, b)
  }

  function ById(): (Id, Id) -> bool {
    (a, b) => LexLeq(a, b)
  }

  lemma OrdersAreTotal(w: WeightFn, p: nat)
    ensures TotalOrder(ByWeight(w, p)) && TotalOrder(ById())
  {
    forall a, b
      ensures LexLeq(a, b) || LexLeq(b, a)
      ensures LexLeq(a, b) && LexLeq(b, a) ==> a == b
    {
      LexTotal(a, b);
    }
    forall a, b, c | LexLeq(a, b) && LexLeq(b, c) ensures LexLeq(a, c) {
      LexTransitive(a, b, c);
    }
  }

  predicate Distinct(s: seq<Id>) {
    forall i, j | 0 <= i < j < |s| :: s[i] != s[j]
  }

  /** What a table is built from, and the assignment it stands for. */
  datatype Layout = Layout(ids: seq<Id>, backups: nat, weight: WeightFn) {
    function Ranking(p: nat): seq<Id> { Sort(ByWeight(weight, p), ids) }

    /** The owner followed by the backups in failover order. */
    function Holders(p: nat): seq<Id> {
      var r := Ranking(p);
      if |r| <= backups + 1 then r else r[..backups + 1]
    }

    /** The empty id when there are no members. */
    function OwnerOf(p: nat): Id {
      var h := Holders(p);
      if h == [] then [] else h[0]
    }

    function NumBackups(p: nat): nat {
      var h := Holders(p);
      if h == [] then 0 else |h| - 1
    }

    function BackupAt(p: nat, i: nat): Option<Id> {
      if i < NumBackups(p) then Some(Holders(p)[i + 1]) else None
    }

    function Keeping(keep: Id -> bool): Layout { this.(ids := Filter(keep, ids)) }
  }

  lemma RankingElements(l: Layout, p: nat)
    ensures multiset(l.Ranking(p)) == multiset(l.ids) && |l.Ranking(p)| == |l.ids|
    ensures SortedBy(ByWeight(l.weight, p), l.Ranking(p))
    ensures forall x :: x in l.Ranking(p) <==> x in l.ids
  {
    hide Sort;
    OrdersAreTotal(l.weight, p);
    SortSorts(ByWeight(l.weight, p), l.ids);
    SameLength(l.Ranking(p), l.ids);
    assert forall x :: x in l.Ranking(p) <==> x in multiset(l.Ranking(p));
    assert forall x :: x in l.ids <==> x in multiset(l.ids);
  }

  /** Holders weigh at least as much as every other member, and the earlier holder as the later. */
  lemma HoldersAreHeaviest(l: Layout, p: nat, i: nat, x: Id)
    requires i < |l.Holders(p)| && x in l.ids && x !in l.Holders(p)[..i]
    ensures l.weight(l.Holders(p)[i], p) >= l.weight(x, p)
  {
    hide Sort;
    RankingElements(l, p);
    var r := l.Ranking(p);
    var j :| 0 <= j < |r| && r[j] == x;
    assert l.Holders(p)[i] == r[i];
    assert forall q | 0 <= q < i :: l.Holders(p)[..i][q] == r[q];
    if i < j { assert ByWeight(l.weight, p)(r[i], r[j]); }
  }

  lemma OwnerIsHeaviest(l: Layout, p: nat, x: Id)
    requires x in l.ids
    ensures l.weight(l.OwnerOf(p), p) >= l.weight(x, p)
  {
    hide Sort;
    RankingElements(l, p);
    HoldersAreHeaviest(l, p, 0, x);
  }

  /** Every node that sees the same members computes the same assignment, whatever order it lists them in. */
  lemma InputOrderIrrelevant(a: Layout, b: Layout, p: nat)
    requires multiset(a.ids) == multiset(b.ids) && a.backups == b.backups && a.weight == b.weight
    ensures a.Holders(p) == b.Holders(p)
  {
    hide Sort;
    OrdersAreTotal(a.weight, p);
    RankingElements(a, p);
    RankingElements(b, p);
    SortedUnique(ByWeight(a.weight, p), a.Ranking(p), b.Ranking(p));
  }

  /** The ranking after any members leave is the old ranking without them. */
  lemma RankingAfterLeave(l: Layout, keep: Id -> bool, p: nat)
    ensures l.Keeping(keep).Ranking(p) == Filter(keep, l.Ranking(p))
  {
    OrdersAreTotal(l.weight, p);
    SortFilter(ByWeight(l.weight, p), keep, l.ids);
  }

  /** The first element that passes is where the filtered sequence starts. */
  lemma {:induction false} FilterStartsAt<T(!new)>(keep: T -> bool, s: seq<T>, i: nat)
    requires i < |s| && keep(s[i]) && forall j | 0 <= j < i :: !keep(s[j])
    ensures Filter(keep, s) != [] && Filter(keep, s)[0] == s[i]
  {
    if i > 0 {
      FilterStartsAt(keep, s[1..], i - 1);
    }
  }

  /**
   * When members leave and some old holder of p stays, the new owner is the first old holder that
   * stayed: ownership passes to a node that already holds the partition's data.
   */
  lemma OwnerAfterLeave(l: Layout, keep: Id -> bool, p: nat, i: nat)
    requires i < |l.Holders(p)| && keep(l.Holders(p)[i])
    requires forall j | 0 <= j < i :: !keep(l.Holders(p)[j])
    ensures l.Keeping(keep).OwnerOf(p) == l.Holders(p)[i]
  {
    hide Sort;
    RankingAfterLeave(l, keep, p);
    var r := l.Ranking(p);
    assert forall j | 0 <= j < |l.Holders(p)| :: l.Holders(p)[j] == r[j];
    FilterStartsAt(keep, r, i);
  }

  lemma {:induction false} FilterAll<T(!new)>(keep: T -> bool, s: seq<T>)
    requires forall x | x in s :: keep(x)
    ensures Filter(keep, s) == s
  {
    if s != [] {
      FilterAll(keep, s[1..]);
    }
  }

  function NotId(x: Id): Id -> bool {
    y => y != x
  }

  /** Taking a newcomer out of the new ranking gives the old ranking back. */
  lemma RankingAfterJoin(l: Layout, x: Id, p: nat)
    requires x !in l.ids
    ensures Filter(NotId(x), l.(ids := l.ids + [x]).Ranking(p)) == l.Ranking(p)
  {
    hide Sort;
    var l' := l.(ids := l.ids + [x]);
    RankingAfterLeave(l', NotId(x), p);
    FilterConcat(NotId(x), l.ids, [x]);
    FilterAll(NotId(x), l.ids);
    assert Filter(NotId(x), [x]) == [];
    assert l.ids + [] == l.ids;
  }

  lemma FilterStart(x: Id, s: seq<Id>)
    requires s != [] && s[0] != x
    ensures Filter(NotId(x), s) != [] && Filter(NotId(x), s)[0] == s[0]
  {
  }

  /** A join moves a partition's ownership only to the newcomer. */
  lemma JoinMovesOnlyToNewcomer(l: Layout, x: Id, p: nat)
    requires x !in l.ids
    ensures var l' := l.(ids := l.ids + [x]);
            l'.OwnerOf(p) == x || l'.OwnerOf(p) == l.OwnerOf(p)
    ensures var l' := l.(ids := l.ids + [x]);
            forall h | h in l'.Holders(p) && h != x :: h in l.Holders(p)
  {
    hide Sort;
    var l' := l.(ids := l.ids + [x]);
    var r, r' := l.Ranking(p), l'.Ranking(p);
    RankingAfterJoin(l, x, p);
    RankingElements(l, p);
    RankingElements(l', p);
    if r'[0] != x {
      FilterStart(x, r');
    }
    forall h | h in l'.Holders(p) && h != x ensures h in l.Holders(p) {
      var i :| 0 <= i < |l'.Holders(p)| && l'.Holders(p)[i] == h;
      assert r'[i] == h;
      var j := FilterPosition(NotId(x), r', i);
      assert r[j] == h && j <= i;
      assert l.Holders(p)[j] == h;
    }
  }

  /** An element that passes the filter does not move back. */
  lemma {:induction false} FilterPosition<T(!new)>(keep: T -> bool, s: seq<T>, i: nat) returns (j: nat)
    requires i < |s| && keep(s[i])
    ensures j <= i && j < |Filter(keep, s)| && Filter(keep, s)[j] == s[i]
  {
    if i == 0 {
      j := 0;
    } else {
      var j' := FilterPosition(keep, s[1..], i - 1);
      j := if keep(s[0]) then j' + 1 else j';
    }
  }

  lemma {:induction false} DistinctCounts(s: seq<Id>, x: Id)
    requires Distinct(s)
    ensures multiset(s)[x] <= 1
  {
    if s != [] {
      DistinctCounts(s[1..], x);
      assert s == [s[0]] + s[1..];
      assert forall i | 0 <= i < |s[1..]| :: s[1..][i] == s[i + 1] != s[0];
    }
  }

  lemma TwoOccurrences(s: seq<Id>, i: nat, j: nat)
    requires i < j < |s| && s[i] == s[j]
    ensures multiset(s)[s[i]] >= 2
  {
    assert s == s[..j] + [s[j]] + s[j + 1..];
    assert s[..j][i] == s[i] && s[i] in multiset(s[..j]);
  }

  lemma CountsDistinct(s: seq<Id>)
    requires forall x :: multiset(s)[x] <= 1
    ensures Distinct(s)
  {
    forall i, j | 0 <= i < j < |s| ensures s[i] != s[j] {
      if s[i] == s[j] { TwoOccurrences(s, i, j); }
    }
  }

  /** The holders of a partition are distinct members, min(backups, n-1)+1 of them. */
  lemma HoldersDistinct(l: Layout, p: nat)
    requires Distinct(l.ids)
    ensures Distinct(l.Holders(p))
    ensures forall h | h in l.Holders(p) :: h in l.ids
    ensures |l.Holders(p)| == if |l.ids| <= l.backups then |l.ids| else l.backups + 1
  {
    hide Sort;
    RankingElements(l, p);
    forall x ensures multiset(l.Ranking(p))[x] <= 1 { DistinctCounts(l.ids, x); }
    CountsDistinct(l.Ranking(p));
    assert forall i | 0 <= i < |l.Holders(p)| :: l.Holders(p)[i] == l.Ranking(p)[i];
  }

  // ---- the table itself -------------------------------------------------------------------

  datatype Ranked = Ranked(weight: nat, idx: nat)

  /** The comparison the scratch slice is sorted with. */
  function ByRank(): (Ranked, Ranked) -> bool {
    (a: Ranked, b: Ranked) => a.weight > b.weight || (a.weight == b.weight && a.idx <= b.idx)
  }

  lemma ByRankIsTotal()
    ensures TotalOrder(ByRank())
  {
  }

  function Scratch(members: seq<Id>, w: WeightFn, p: nat): (r: seq<Ranked>)
    ensures |r| == |members|
  {
    seq(|members|, i requires 0 <= i < |members| => Ranked(w(members[i], p), i))
  }

  predicate InScratch(members: seq<Id>, w: WeightFn, p: nat, r: Ranked) {
    r.idx < |members| && r.weight == w(members[r.idx], p)
  }

  function IdAt(members: seq<Id>): Ranked -> Id {
    (r: Ranked) => if r.idx < |members| then members[r.idx] else []
  }

  /** Sorting (weight, index) pairs of the sorted ids ranks the members. */
  lemma ScratchRanks(members: seq<Id>, w: WeightFn, p: nat)
    requires SortedBy(ById(), members)
    ensures var r := Sort(ByRank(), Scratch(members, w, p));
            && |r| == |members|
            && (forall i | 0 <= i < |r| :: InScratch(members, w, p, r[i]))
            && Map(IdAt(members), r) == Sort(ByWeight(w, p), members)
  {
    hide Sort, Map;
    var s := Scratch(members, w, p);
    var r := Sort(ByRank(), s);
    ByRankIsTotal();
    SortSorts(ByRank(), s);
    SameLength(r, s);
    forall i | 0 <= i < |r| ensures InScratch(members, w, p, r[i]) {
      assert r[i] in multiset(r) && r[i] in multiset(s);
    }
    var ids := Map(IdAt(members), r);
    forall i, j | 0 <= i < j < |ids| ensures ByWeight(w, p)(ids[i], ids[j]) {
      assert InScratch(members, w, p, r[i]) && InScratch(members, w, p, r[j]);
      assert ByRank()(r[i], r[j]);
      if r[i].idx == r[j].idx { LexTotal(ids[i], ids[j]); }
    }
    MapElements(IdAt(members), r, s);
    assert Map(IdAt(members), s) == members;
    OrdersAreTotal(w, p);
    SortIs(ByWeight(w, p), members, ids);
  }

  /** Table: the owner of each partition and its backups, row by row, as indices of members. */
  class Table {
    const members: seq<Id>
    const backupCount: nat
    const owners: array<int>
    const backups: array<int>
    ghost const layout: Layout

    /** What slot j of partition p's row holds: the next-ranked member's index, or -1. */
    ghost predicate SlotOk(p: nat, j: nat, m: int) {
      if j + 1 < |members| then
        0 <= m < |members| && j + 1 < |layout.Ranking(p)| && members[m] == layout.Ranking(p)[j + 1]
      else m == -1
    }

    ghost predicate OwnerOk(p: nat, m: int) {
      if members == [] then m == -1
      else 0 <= m < |members| && layout.Ranking(p) != [] && members[m] == layout.Ranking(p)[0]
    }

    ghost predicate Valid()
      reads owners, backups
    {
      && owners.Length == PARTITIONS && backups.Length == Cell(PARTITIONS, backupCount, 0)
      && |members| == |layout.ids| && backupCount == layout.backups
      && (forall p | 0 <= p < PARTITIONS :: OwnerOk(p, owners[p]))
      && (forall p, j | 0 <= p < PARTITIONS && 0 <= j < backupCount ::
            Cell(p, backupCount, j) < backups.Length && SlotOk(p, j, backups[Cell(p, backupCount, j)]))
    }

    /** NewTable: copies and sorts the ids, then fills one row per partition. */
    constructor (ids: seq<Id>, backupArg: int, weight: WeightFn)
      ensures Valid() && layout == Layout(ids, if backupArg < 0 then 0 else backupArg, weight)
      ensures fresh(owners) && fresh(backups)
    {
      var count := if backupArg < 0 then 0 else backupArg;
      members := Sort(ById(), ids);
      backupCount := count;
      owners := new int[PARTITIONS];
      backups := new int[Cell(PARTITIONS, count, 0)];
      layout := Layout(ids, count, weight);
      new;
      FillRows(weight);
    }

    method FillRows(weight: WeightFn)
      requires owners != backups && owners.Length == PARTITIONS && backups.Length == Cell(PARTITIONS, backupCount, 0)
      requires members == Sort(ById(), layout.ids) && weight == layout.weight && backupCount == layout.backups
      modifies owners, backups
      ensures Valid()
    {
      hide Sort, Cell, SlotOk, OwnerOk, RanksFor;
      for p := 0 to PARTITIONS
        invariant forall q | 0 <= q < p :: OwnerOk(q, owners[q])
        invariant forall q, j | 0 <= q < p && 0 <= j < backupCount ::
                    Cell(q, backupCount, j) < backups.Length && SlotOk(q, j, backups[Cell(q, backupCount, j)])
      {
        var scratch := Sort(ByRank(), Scratch(members, weight, p));
        RanksForScratch(p);
        owners[p] := if |members| == 0 then -1 else scratch[0].idx;
        FillRow(p, scratch);
      }
      SortedMembers(layout.ids, members, weight);
    }

    lemma RanksForScratch(p: nat)
      requires members == Sort(ById(), layout.ids)
      ensures var scratch := Sort(ByRank(), Scratch(members, layout.weight, p));
              && RanksFor(p, scratch) && |scratch| == |members|
              && OwnerOk(p, if |members| == 0 then -1 else scratch[0].idx)
    {
      hide Sort;
      RankedIs(layout.ids, members, layout.weight, p);
    }

    /** scratch lists the members of partition p by rank. */
    ghost predicate RanksFor(p: nat, scratch: seq<Ranked>) {
      && |scratch| == |members| == |layout.Ranking(p)|
      && forall i | 0 <= i < |scratch| :: scratch[i].idx < |members| && members[scratch[i].idx] == layout.Ranking(p)[i]
    }

    /** The backups of one partition, from the second-ranked member on. */
    method FillRow(p: nat, scratch: seq<Ranked>)
      requires p < PARTITIONS && backups.Length == Cell(PARTITIONS, backupCount, 0)
      requires members == [] || RanksFor(p, scratch)
      modifies backups
      ensures forall q, j | 0 <= q < p && 0 <= j < backupCount && Cell(q, backupCount, j) < backups.Length ::
                backups[Cell(q, backupCount, j)] == old(backups[Cell(q, backupCount, j)])
      ensures forall j | 0 <= j < backupCount ::
                Cell(p, backupCount, j) < backups.Length && SlotOk(p, j, backups[Cell(p, backupCount, j)])
    {
      hide Sort, Cell, SlotOk;
      RowsApart(p, backupCount);
      for j := 0 to backupCount
        invariant forall q, i | 0 <= q < p && 0 <= i < backupCount && Cell(q, backupCount, i) < backups.Length ::
                    backups[Cell(q, backupCount, i)] == old(backups[Cell(q, backupCount, i)])
        invariant forall i | 0 <= i < j :: SlotOk(p, i, backups[Cell(p, backupCount, i)])
      {
        SlotFrom(p, j, scratch);
        backups[Cell(p, backupCount, j)] := if j + 1 < |members| then scratch[j + 1].idx else -1;
      }
    }

    lemma SlotFrom(p: nat, j: nat, scratch: seq<Ranked>)
      requires members == [] || RanksFor(p, scratch)
      ensures j + 1 < |members| ==> |scratch| == |members| && SlotOk(p, j, scratch[j + 1].idx)
      ensures j + 1 >= |members| ==> SlotOk(p, j, -1)
    {
    }

    method OwnerOf(p: nat) returns (id: Id)
      requires Valid() && p < PARTITIONS
      ensures id == layout.OwnerOf(p)
    {
      hide Sort;
      RankingElements(layout, p);
      var i := owners[p];
      assert OwnerOk(p, i);
      if i < 0 {
        return [];
      }
      return members[i];
    }

    method NumBackups(p: nat) returns (n: nat)
      requires Valid() && p < PARTITIONS
      ensures n == layout.NumBackups(p)
    {
      hide Sort, Cell;
      RankingElements(layout, p);
      n := 0;
      for j := 0 to backupCount
        invariant n == if |members| == 0 then 0 else if j < |members| - 1 then j else |members| - 1
      {
        assert SlotOk(p, j, backups[Cell(p, backupCount, j)]);
        if backups[Cell(p, backupCount, j)] >= 0 {
          n := n + 1;
        }
      }
    }

    method BackupAt(p: nat, i: int) returns (id: Option<Id>)
      requires Valid() && p < PARTITIONS
      ensures id == if i < 0 then None else layout.BackupAt(p, i)
    {
      hide Sort, Cell;
      RankingElements(layout, p);
      if i < 0 || i >= backupCount {
        return None;
      }
      assert SlotOk(p, i, backups[Cell(p, backupCount, i)]);
      var m := backups[Cell(p, backupCount, i)];
      if m < 0 {
        return None;
      }
      return Some(members[m]);
    }
  }

  function Cell(p: nat, count: nat, j: nat): nat {
    p * count + j
  }

  lemma Distribute(p: nat, d: nat, c: nat)
    ensures (p + 1 + d) * c == p * c + c + d * c && d * c >= 0
  {
  }

  lemma RowEnd(p: nat, q: nat, count: nat)
    requires p < q
    ensures Cell(p, count, 0) + count <= Cell(q, count, 0)
  {
    Distribute(p, q - p - 1, count);
  }

  /** Rows lie inside the array and do not overlap. */
  lemma RowsApart(p: nat, count: nat)
    requires p < PARTITIONS
    ensures forall j | 0 <= j < count :: Cell(p, count, j) < Cell(PARTITIONS, count, 0)
    ensures forall q, i, j | 0 <= q < p && 0 <= i < count && 0 <= j < count :: Cell(q, count, i) != Cell(p, count, j)
    ensures forall i, j | 0 <= i < count && 0 <= j < count && i != j :: Cell(p, count, i) != Cell(p, count, j)
  {
    RowEnd(p, PARTITIONS, count);
    forall i, j: nat ensures Cell(i, count, j) == Cell(i, count, 0) + j { }
    forall q, i, j | 0 <= q < p && 0 <= i < count && 0 <= j < count ensures Cell(q, count, i) != Cell(p, count, j) {
      RowEnd(q, p, count);
    }
  }

  lemma SortedMembers(ids: seq<Id>, ms: seq<Id>, w: WeightFn)
    requires ms == Sort(ById(), ids)
    ensures SortedBy(ById(), ms) && multiset(ms) == multiset(ids) && |ms| == |ids|
  {
    OrdersAreTotal(w, 0);
    SortSorts(ById(), ids);
    SameLength(ms, ids);
  }

  /** Position by position, the sorted scratch names the ranking of the given ids. */
  lemma RankedIs(ids: seq<Id>, ms: seq<Id>, w: WeightFn, p: nat)
    requires ms == Sort(ById(), ids)
    ensures var r := Sort(ByRank(), Scratch(ms, w, p));
            var ranking := Sort(ByWeight(w, p), ids);
            && |r| == |ranking| == |ms|
            && forall i | 0 <= i < |r| :: r[i].idx < |ms| && ms[r[i].idx] == ranking[i]
  {
    hide Sort, Map;
    SortedMembers(ids, ms, w);
    ScratchRanks(ms, w, p);
    OrdersAreTotal(w, p);
    SortSorts(ByWeight(w, p), ms);
    SortSorts(ByWeight(w, p), ids);
    SortedUnique(ByWeight(w, p), Sort(ByWeight(w, p), ms), Sort(ByWeight(w, p), ids));
    var r := Sort(ByRank(), Scratch(ms, w, p));
    forall i | 0 <= i < |r| ensures r[i].idx < |ms| && ms[r[i].idx] == Sort(ByWeight(w, p), ids)[i] {
      assert InScratch(ms, w, p, r[i]);
      assert Map(IdAt(ms), r)[i] == IdAt(ms)(r[i]);
    }
  }
}
