/**
 * The membership state machine: members, tombstones, miss counters, heartbeat histories, and the
 * versions of the view and of the partition table.
 */
module Membership {
  import opened Bytes
  import opened Sorting
  import opened PartitionTable
  import Phi

  datatype Member = Member(id: Id, addr: bytes)

  /** tableIds is the id set the current partition table was built from. */
  datatype State = State(self: Id, members: map<Id, Member>, version: nat, tableVer: nat, tableIds: set<Id>,
                         misses: map<Id, nat>, phi: map<Id, seq<int>>, removed: map<Id, int>)

  datatype Event =
    | Merge(list: seq<Member>)                                           // a gossiped view
    | Leave(id: Id, now: int)                                            // LEAVE, or an eviction
    | Join(mem: Member)                                                  // an explicit JOIN
    | Probe(id: Id, reached: bool, now: int, threshold: nat, suspect: bool)  // one heartbeat
    | Prune(now: int, ttl: int)                                          // tombstone expiry

  // ---- the operations, on values ----------------------------------------------------------

  function Rebuilt(s: State): State {
    s.(tableIds := s.members.Keys, tableVer := s.tableVer + 1)
  }

  datatype Merging = Merging(members: map<Id, Member>, changed: bool, setChanged: bool)

  function MergeOne(s: State, acc: Merging, mem: Member): Merging {
    if mem.id == [] || mem.id == s.self || mem.id in s.removed then acc
    else if mem.id !in acc.members then Merging(acc.members[mem.id := mem], true, true)
    else if mem.addr != [] && acc.members[mem.id].addr != mem.addr then
      Merging(acc.members[mem.id := mem], true, acc.setChanged)
    else acc
  }

  function MergeAll(s: State, list: seq<Member>): Merging {
    if list == [] then Merging(s.members, false, false)
    else MergeOne(s, MergeAll(s, list[..|list| - 1]), list[|list| - 1])
  }

  function Merged(s: State, list: seq<Member>): State {
    var acc := MergeAll(s, list);
    if !acc.changed then s
    else
      var s' := s.(members := acc.members, version := s.version + 1);
      if acc.setChanged then Rebuilt(s') else s'
  }

  function Removed(s: State, id: Id, now: int): State {
    if id == s.self || id !in s.members then s
    else Rebuilt(s.(members := s.members - {id}, misses := s.misses - {id}, phi := s.phi - {id},
                    removed := s.removed[id := now], version := s.version + 1))
  }

  function Rejoined(s: State, mem: Member): State {
    if mem.id == [] || mem.id == s.self then s
    else
      var s' := s.(removed := s.removed - {mem.id}, misses := s.misses - {mem.id}, phi := s.phi - {mem.id});
      if mem.id !in s.members || s.members[mem.id].addr != mem.addr then
        Rebuilt(s'.(members := s.members[mem.id := mem], version := s.version + 1))
      else s'
  }

  predicate Warm(beats: seq<int>) {
    |Phi.Intervals(beats)| >= Phi.MIN_SAMPLES
  }

  function Beats(s: State, id: Id): seq<int> {
    if id in s.phi then s.phi[id] else []
  }

  /** An answered heartbeat feeds the peer's history and clears its misses. */
  function Heard(s: State, id: Id, now: int): State {
    s.(phi := s.phi[id := Beats(s, id) + [now]], misses := s.misses - {id})
  }

  /** A missed one is counted, in 8 bits. */
  function Missed(s: State, id: Id): State {
    s.(phi := s.phi[id := Beats(s, id)],
       misses := s.misses[id := ((if id in s.misses then s.misses[id] else 0) + 1) % 256])
  }

  /** A peer with enough history is judged by the detector's suspicion, another by its misses. */
  predicate Judged(s: State, id: Id, threshold: nat, suspect: bool) {
    if Warm(Beats(s, id)) then suspect
    else id in s.misses && s.misses[id] >= (if threshold == 0 then 1 else threshold)
  }

  function Probed(s: State, id: Id, reached: bool, now: int, threshold: nat, suspect: bool): State {
    if id == s.self || id !in s.members then s
    else if reached then Heard(s, id, now)
    else if Judged(Missed(s, id), id, threshold, suspect) then Removed(Missed(s, id), id, now)
    else Missed(s, id)
  }

  predicate Lapsed(at: int, now: int, ttl: int) {
    ttl <= 0 || at < now - ttl
  }

  function Pruned(s: State, now: int, ttl: int): State {
    s.(removed := map id | id in s.removed && !Lapsed(s.removed[id], now, ttl) :: s.removed[id])
  }

  function Step(s: State, e: Event): State {
    match e
    case Merge(list) => Merged(s, list)
    case Leave(id, now) => Removed(s, id, now)
    case Join(mem) => Rejoined(s, mem)
    case Probe(id, reached, now, threshold, suspect) => Probed(s, id, reached, now, threshold, suspect)
    case Prune(now, ttl) => Pruned(s, now, ttl)
  }

  function Run(s: State, es: seq<Event>): State {
    if es == [] then s else Step(Run(s, es[..|es| - 1]), es[|es| - 1])
  }

  // ---- what every step keeps --------------------------------------------------------------

  ghost predicate Good(s: State) {
    && s.self in s.members
    && s.members.Keys !! s.removed.Keys
    && s.misses.Keys <= s.members.Keys - {s.self}
    && s.phi.Keys <= s.members.Keys - {s.self}
    && s.tableIds == s.members.Keys
  }

  lemma {:induction false} MergeGrows(s: State, list: seq<Member>)
    requires Good(s)
    ensures var acc := MergeAll(s, list);
            && s.members.Keys <= acc.members.Keys
            && acc.members.Keys !! s.removed.Keys
            && (!acc.setChanged ==> acc.members.Keys == s.members.Keys)
            && (!acc.changed ==> acc.members == s.members)
  {
    if list != [] {
      MergeGrows(s, list[..|list| - 1]);
    }
  }

  lemma StepKeepsGood(s: State, e: Event)
    requires Good(s)
    ensures Good(Step(s, e)) && Step(s, e).self == s.self
  {
    if e.Merge? {
      MergeGrows(s, e.list);
    }
  }

  /** The table's version tells its ids: it never falls, and while it stays the ids stay. */
  lemma StepVersions(s: State, e: Event)
    requires Good(s)
    ensures var s' := Step(s, e);
            && s.version <= s'.version && s.tableVer <= s'.tableVer
            && (s.tableVer == s'.tableVer ==> s.tableIds == s'.tableIds)
            && (s.version == s'.version ==> s.members == s'.members && s.tableVer == s'.tableVer)
  {
    if e.Merge? {
      MergeGrows(s, e.list);
    }
  }

  /** A step that may end id's tombstone: an explicit join of that id, or its expiry. */
  predicate Frees(s: State, e: Event, id: Id) {
    || (e.Join? && e.mem.id == id)
    || (e.Prune? && id in s.removed && Lapsed(s.removed[id], e.now, e.ttl))
  }

  lemma StepKeepsTombstone(s: State, e: Event, id: Id)
    requires Good(s) && id in s.removed && !Frees(s, e, id)
    ensures id in Step(s, e).removed && id !in Step(s, e).members
    ensures Step(s, e).removed[id] == s.removed[id]
  {
    StepKeepsGood(s, e);
  }

  /**
   * Over every run: self stays a member, no id is member and tombstoned at once, counters and
   * histories exist for other members only, and the table is the one of the current ids.
   */
  lemma {:induction false} RunKeepsGood(s: State, es: seq<Event>)
    requires Good(s)
    ensures Good(Run(s, es)) && Run(s, es).self == s.self
  {
    if es != [] {
      RunKeepsGood(s, es[..|es| - 1]);
      StepKeepsGood(Run(s, es[..|es| - 1]), es[|es| - 1]);
    }
  }

  /** Equal table versions at two points of a run mean equal ids, and versions never fall. */
  lemma {:induction false} RunVersions(s: State, es: seq<Event>)
    requires Good(s)
    ensures var s' := Run(s, es);
            && s.version <= s'.version && s.tableVer <= s'.tableVer
            && (s.tableVer == s'.tableVer ==> s.tableIds == s'.tableIds)
            && (s.version == s'.version ==> s.members == s'.members && s.tableVer == s'.tableVer)
  {
    if es != [] {
      var front := es[..|es| - 1];
      RunVersions(s, front);
      RunKeepsGood(s, front);
      StepVersions(Run(s, front), es[|es| - 1]);
    }
  }

  /** A tombstoned id is back only after an explicit join of it or the expiry of its tombstone. */
  lemma {:induction false} TombstoneHolds(s: State, es: seq<Event>, id: Id)
    requires Good(s) && id in s.removed
    requires forall i | 0 <= i < |es| :: !Frees(Run(s, es[..i]), es[i], id)
    ensures id in Run(s, es).removed && id !in Run(s, es).members
  {
    if es != [] {
      var n := |es| - 1;
      forall i | 0 <= i < n ensures !Frees(Run(s, es[..n][..i]), es[..n][i], id) {
        assert es[..n][..i] == es[..i];
      }
      TombstoneHolds(s, es[..n], id);
      RunKeepsGood(s, es[..n]);
      assert !Frees(Run(s, es[..n]), es[n], id);
      StepKeepsTombstone(Run(s, es[..n]), es[n], id);
    }
  }

  // ---- evictions --------------------------------------------------------------------------

  /** The event takes this other member out at now: it leaves, or a heartbeat to it decides so. */
  predicate Evicts(s: State, e: Event, id: Id, now: int) {
    && id in s.members && id != s.self
    && (e == Leave(id, now) || (e.Probe? && e.id == id && e.now == now && id !in Step(s, e).members))
  }

  lemma EvictedIsTombstoned(s: State, e: Event, id: Id, now: int)
    requires Evicts(s, e, id, now)
    ensures var s' := Step(s, e); id !in s'.members && id in s'.removed && s'.removed[id] == now
  {
  }

  /**
   * A member that left or was evicted at now is out, whatever is gossiped, until it joins again
   * itself or its tombstone is pruned with a lifetime that has passed since now.
   */
  lemma {:induction false} EvictedStaysOut(s: State, e: Event, es: seq<Event>, id: Id, now: int)
    requires Good(s) && Evicts(s, e, id, now)
    requires forall i | 0 <= i < |es| ::
               && !(es[i].Join? && es[i].mem.id == id)
               && !(es[i].Prune? && (es[i].ttl <= 0 || now < es[i].now - es[i].ttl))
    ensures var s' := Run(Step(s, e), es); id !in s'.members && id in s'.removed && s'.removed[id] == now
  {
    hide Step;
    EvictedIsTombstoned(s, e, id, now);
    StepKeepsGood(s, e);
    if es != [] {
      var n := |es| - 1;
      EvictedStaysOut(s, e, es[..n], id, now);
      RunKeepsGood(Step(s, e), es[..n]);
      StepKeepsTombstone(Run(Step(s, e), es[..n]), es[n], id);
    }
  }

  // ---- admissions -------------------------------------------------------------------------

  /** A gossiped id that is not this node's, not empty and not tombstoned is a member afterwards. */
  lemma {:induction false} GossipAdmits(s: State, list: seq<Member>, i: nat)
    requires i < |list| && list[i].id != [] && list[i].id != s.self && list[i].id !in s.removed
    ensures list[i].id in MergeAll(s, list).members && list[i].id in Step(s, Merge(list)).members
  {
    var n := |list| - 1;
    if i < n {
      GossipAdmits(s, list[..n], i);
    }
    MergeRecordsChange(s, list);
  }

  lemma {:induction false} MergeRecordsChange(s: State, list: seq<Member>)
    ensures !MergeAll(s, list).changed ==> MergeAll(s, list).members == s.members
  {
    if list != [] {
      MergeRecordsChange(s, list[..|list| - 1]);
    }
  }

  /** The address of a member is the last one gossiped for it. */
  lemma {:induction false} GossipUpdatesAddress(s: State, list: seq<Member>, i: nat)
    requires i < |list| && list[i].id != [] && list[i].id != s.self && list[i].id !in s.removed
    requires list[i].addr != [] && forall j | i < j < |list| :: list[j].id == list[i].id ==> list[j].addr == []
    ensures var m := MergeAll(s, list).members; list[i].id in m && m[list[i].id].addr == list[i].addr
    ensures var m := Step(s, Merge(list)).members; list[i].id in m && m[list[i].id].addr == list[i].addr
  {
    var n := |list| - 1;
    if i < n {
      GossipUpdatesAddress(s, list[..n], i);
    }
    MergeRecordsChange(s, list);
  }

  /** Gossip leaves alone this node, the tombstoned, and those it does not mention. */
  lemma {:induction false} GossipIgnores(s: State, list: seq<Member>, id: Id)
    requires id == s.self || id in s.removed || id == [] || forall i | 0 <= i < |list| :: list[i].id != id
    ensures id in MergeAll(s, list).members <==> id in s.members
    ensures id in s.members ==> MergeAll(s, list).members[id] == s.members[id]
  {
    if list != [] {
      GossipIgnores(s, list[..|list| - 1], id);
    }
  }

  /** An explicit join makes a member of whoever asks, at the address given, with nothing held against it. */
  lemma JoinAdmits(s: State, mem: Member)
    requires mem.id != [] && mem.id != s.self
    ensures var s' := Step(s, Join(mem));
            && mem.id in s'.members && s'.members[mem.id].addr == mem.addr
            && mem.id !in s'.removed && mem.id !in s'.misses && mem.id !in s'.phi
  {
  }

  /** A member whose tombstone has been pruned is taken back from gossip. */
  lemma PrunedIsReadmitted(s: State, id: Id, now: int, ttl: int, list: seq<Member>, i: nat)
    requires Good(s) && id in s.removed && id != [] && i < |list| && list[i].id == id
    ensures var s' := Step(Step(s, Prune(now, ttl)), Merge(list));
            id in s'.members <==> (ttl <= 0 || s.removed[id] < now - ttl)
  {
    var s1 := Step(s, Prune(now, ttl));
    StepKeepsGood(s, Prune(now, ttl));
    StepKeepsGood(s1, Merge(list));
    if ttl <= 0 || s.removed[id] < now - ttl {
      GossipAdmits(s1, list, i);
    } else {
      StepKeepsTombstone(s1, Merge(list), id);
    }
  }

  // ---- heartbeats -------------------------------------------------------------------------

  function MissesOf(s: State, id: Id): nat {
    if id in s.misses then s.misses[id] else 0
  }

  /** An answered heartbeat evicts nobody and clears the misses. */
  lemma AnsweredClears(s: State, id: Id, now: int, threshold: nat, suspect: bool)
    ensures var s' := Step(s, Probe(id, true, now, threshold, suspect));
            && s'.members == s.members && s'.removed == s.removed
            && (id in s.members && id != s.self ==> MissesOf(s', id) == 0 && Beats(s', id) == Beats(s, id) + [now])
  {
  }

  /** Nothing in es resets or takes out id, and every heartbeat to it is missed, under this threshold. */
  predicate OnlyMisses(es: seq<Event>, id: Id, threshold: nat) {
    forall i | 0 <= i < |es| ::
      && !(es[i].Join? && es[i].mem.id == id) && !(es[i].Leave? && es[i].id == id)
      && (es[i].Probe? && es[i].id == id ==> !es[i].reached && es[i].threshold == threshold)
  }

  function CountProbes(es: seq<Event>, id: Id): nat {
    if es == [] then 0
    else CountProbes(es[..|es| - 1], id) + if es[|es| - 1].Probe? && es[|es| - 1].id == id then 1 else 0
  }

  function Limit(threshold: nat): nat {
    if threshold == 0 then 1 else threshold
  }

  lemma OtherEventKeepsCount(s: State, e: Event, id: Id)
    requires Good(s) && id in s.members && id != s.self
    requires !(e.Join? && e.mem.id == id) && !(e.Leave? && e.id == id) && !(e.Probe? && e.id == id)
    ensures var s' := Step(s, e);
            id in s'.members && MissesOf(s', id) == MissesOf(s, id) && Beats(s', id) == Beats(s, id)
  {
    if e.Merge? { MergeGrows(s, e.list); }
  }

  /** Below the threshold a peer without enough history stays, its missed heartbeats counted. */
  lemma {:induction false} ColdPeerStays(s: State, es: seq<Event>, id: Id, threshold: nat)
    requires Good(s) && id in s.members && id != s.self && !Warm(Beats(s, id)) && threshold < 256
    requires OnlyMisses(es, id, threshold) && MissesOf(s, id) + CountProbes(es, id) < Limit(threshold)
    ensures var s' := Run(s, es);
            && id in s'.members && Beats(s', id) == Beats(s, id)
            && MissesOf(s', id) == MissesOf(s, id) + CountProbes(es, id)
  {
    hide Step, Warm;
    if es != [] {
      var n := |es| - 1;
      ColdPeerStays(s, es[..n], id, threshold);
      RunKeepsGood(s, es[..n]);
      var s1 := Run(s, es[..n]);
      if es[n].Probe? && es[n].id == id {
        MissedProbe(s1, es[n], id);
      } else {
        OtherEventKeepsCount(s1, es[n], id);
      }
    }
  }

  /** A missed heartbeat evicts a peer with enough history if it is suspect, another if it fills the count. */
  lemma MissedProbe(s: State, e: Event, id: Id)
    requires id in s.members && id != s.self && e.Probe? && e.id == id && !e.reached && MissesOf(s, id) < 255
    ensures var s' := Step(s, e);
            && (id in s'.members <==>
                !if Warm(Beats(s, id)) then e.suspect else MissesOf(s, id) + 1 >= Limit(e.threshold))
            && (id in s'.members ==> MissesOf(s', id) == MissesOf(s, id) + 1 && Beats(s', id) == Beats(s, id))
            && s'.members == if id in s'.members then s.members else s.members - {id}
  {
    hide Warm;
    assert Beats(Missed(s, id), id) == Beats(s, id);
    assert MissesOf(Missed(s, id), id) == MissesOf(s, id) + 1;
  }

  /**
   * A peer without enough history is evicted by exactly the missed heartbeat that makes threshold of
   * them since it was last heard or joined, whatever else goes on.
   */
  lemma ColdPeerEvicted(s: State, es: seq<Event>, e: Event, id: Id)
    requires Good(s) && id in s.members && id != s.self && !Warm(Beats(s, id))
    requires e.Probe? && e.id == id && !e.reached && e.threshold < 256 && OnlyMisses(es, id, e.threshold)
    requires MissesOf(s, id) + CountProbes(es, id) + 1 == Limit(e.threshold)
    ensures id in Run(s, es).members && Evicts(Run(s, es), e, id, e.now)
  {
    hide Step, Warm, Run;
    ColdPeerStays(s, es, id, e.threshold);
    RunKeepsGood(s, es);
    MissedProbe(Run(s, es), e, id);
  }

  // ---- the object -------------------------------------------------------------------------

  /** l lists exactly the ids of the set, once each. */
  ghost predicate Lists(ids: seq<Id>, all: set<Id>) {
    Distinct(ids) && forall x :: x in ids <==> x in all
  }

  lemma ListsSame(a: seq<Id>, b: seq<Id>, all: set<Id>)
    requires Lists(a, all) && Lists(b, all)
    ensures multiset(a) == multiset(b)
  {
    forall x ensures multiset(a)[x] == multiset(b)[x] {
      DistinctCounts(a, x);
      DistinctCounts(b, x);
      assert x in multiset(a) <==> x in a;
      assert x in multiset(b) <==> x in b;
    }
  }

  /** Tables built from the same id set assign every partition alike. */
  lemma SameIdsSameTable(a: Layout, b: Layout, all: set<Id>, p: nat)
    requires Lists(a.ids, all) && Lists(b.ids, all) && a.backups == b.backups && a.weight == b.weight
    ensures a.Holders(p) == b.Holders(p)
  {
    ListsSame(a.ids, b.ids, all);
    InputOrderIrrelevant(a, b, p);
  }

  /** Ranges over the ids; the order is whatever the picks make it. */
  method ListIds(all: set<Id>) returns (ids: seq<Id>)
    ensures Lists(ids, all)
  {
    ids := [];
    var left := all;
    while left != {}
      invariant left <= all && Lists(ids, all - left)
      decreases |left|
    {
      var id :| id in left;
      ids := ids + [id];
      left := left - {id};
    }
  }

  class Cluster {
    const self: Member
    const backups: nat
    const weight: WeightFn
    var members: map<Id, Member>
    var version: nat
    var tableVer: nat
    var table: Table
    var misses: map<Id, nat>
    var phi: map<Id, seq<int>>
    var removed: map<Id, int>

    ghost function View(): State
      reads this
    {
      State(self.id, members, version, tableVer, (set x | x in table.layout.ids), misses, phi, removed)
    }

    ghost predicate Valid()
      reads this, table.owners, table.backups
    {
      && Good(View())
      && table.Valid() && table.layout.backups == backups && table.layout.weight == weight
      && Lists(table.layout.ids, members.Keys)
    }

    constructor (m: Member, backupCount: nat, w: WeightFn)
      ensures Valid() && View() == State(m.id, map[m.id := m], 0, 1, {m.id}, map[], map[], map[])
      ensures backups == backupCount && weight == w
    {
      self, backups, weight := m, backupCount, w;
      members, misses, phi, removed := map[m.id := m], map[], map[], map[];
      version, tableVer := 0, 0;
      table := new Table([m.id], backupCount, w);
      new;
      tableVer := tableVer + 1;
    }

    /** rebuildLocked: collects the ids in iteration order and builds a new table from them. */
    method Rebuild()
      modifies this
      ensures View() == Rebuilt(old(View()))
      ensures table.Valid() && table.layout.backups == backups && table.layout.weight == weight
      ensures Lists(table.layout.ids, members.Keys) && fresh(table) && fresh(table.owners) && fresh(table.backups)
    {
      var ids := ListIds(members.Keys);
      table := new Table(ids, backups, weight);
      tableVer := tableVer + 1;
      assert (set x | x in table.layout.ids) == members.Keys;
    }

    method MergeView(list: seq<Member>) returns (changed: bool)
      requires Valid()
      modifies this
      ensures Valid() && View() == Step(old(View()), Merge(list))
      ensures changed <==> version != old(version)
    {
      hide Good, Lists, Table.Valid;
      ghost var s := View();
      MergeGrows(s, list);
      StepKeepsGood(s, Merge(list));
      changed := false;
      var setChanged := false;
      for i := 0 to |list|
        invariant View() == s.(members := members) && MergeAll(s, list[..i]) == Merging(members, changed, setChanged)
        invariant unchanged(this`table) && self.id == s.self
      {
        var mem := list[i];
        assert list[..i + 1][..i] == list[..i];
        if mem.id == [] || mem.id == self.id || mem.id in removed {
          continue;
        }
        if mem.id !in members {
          members := members[mem.id := mem];
          changed, setChanged := true, true;
        } else if mem.addr != [] && members[mem.id].addr != mem.addr {
          members := members[mem.id := mem];
          changed := true;
        }
      }
      assert list[..|list|] == list;
      if changed {
        version := version + 1;
        if setChanged {
          Rebuild();
        }
      }
    }

    method Remove(id: Id, now: int) returns (existed: bool)
      requires Valid()
      modifies this
      ensures Valid() && View() == Step(old(View()), Leave(id, now))
      ensures existed <==> id != self.id && id in old(members)
      ensures !existed ==> table == old(table)
    {
      hide Good, Lists, Table.Valid;
      StepKeepsGood(View(), Leave(id, now));
      if id == self.id || id !in members {
        return false;
      }
      members := members - {id};
      misses := misses - {id};
      phi := phi - {id};
      removed := removed[id := now];
      version := version + 1;
      Rebuild();
      return true;
    }

    method Rejoin(mem: Member)
      requires Valid()
      modifies this
      ensures Valid() && View() == Step(old(View()), Join(mem))
    {
      hide Good, Lists, Table.Valid;
      StepKeepsGood(View(), Join(mem));
      if mem.id == [] || mem.id == self.id {
        return;
      }
      removed := removed - {mem.id};
      misses := misses - {mem.id};
      phi := phi - {mem.id};
      if mem.id !in members || members[mem.id].addr != mem.addr {
        members := members[mem.id := mem];
        version := version + 1;
        Rebuild();
      }
    }

    method CountBeat(id: Id, now: int)
      requires Valid() && id != self.id && id in members
      modifies this`phi, this`misses
      ensures Valid() && View() == Heard(old(View()), id, now) && id in members
    {
      hide Good, Lists, Table.Valid;
      CountersGood(View(), id, now);
      phi := phi[id := (if id in phi then phi[id] else []) + [now]];
      misses := misses - {id};
    }

    method CountMiss(id: Id)
      requires Valid() && id != self.id && id in members
      modifies this`phi, this`misses
      ensures Valid() && View() == Missed(old(View()), id) && id in phi && id in misses && id in members
    {
      hide Good, Lists, Table.Valid;
      CountersGood(View(), id, 0);
      phi := phi[id := if id in phi then phi[id] else []];
      misses := misses[id := ((if id in misses then misses[id] else 0) + 1) % 256];
    }

    /** The critical section of one heartbeat. */
    method Heartbeat(id: Id, reached: bool, now: int, threshold: nat, suspect: bool) returns (evicted: bool)
      requires Valid() && id != self.id
      modifies this
      ensures Valid() && View() == Step(old(View()), Probe(id, reached, now, threshold, suspect))
      ensures evicted <==> id in old(members) && id !in members
    {
      hide Good, Lists, Removed, Warm, Heard, Missed, Table.Valid;
      evicted := false;
      if id in members {
        if reached {
          CountBeat(id, now);
        } else {
          CountMiss(id);
          var suspected := if Warm(phi[id]) then suspect
                           else misses[id] >= (if threshold == 0 then 1 else threshold);
          if suspected {
            ghost var s := View();
            evicted := Remove(id, now);
            RemovedIsGone(s, id, now);
          }
        }
      }
    }

    /**
     * DetectFailures: one heartbeat to every other member, in sorted order; answered, now and
     * suspect stand for the network, the clock and the detector's verdict.
     */
    method DetectFailures(threshold: nat, answered: Id -> bool, now: Id -> int, suspect: Id -> bool)
      returns (evicted: seq<Id>, ghost events: seq<Event>)
      requires Valid()
      modifies this
      ensures Valid() && View() == Run(old(View()), events)
      ensures ProbesOnce(events, old(members).Keys - {self.id}, threshold, answered, now, suspect)
      ensures forall id :: id in evicted <==> id in old(members) && id !in members
    {
      hide Good, Lists, Table.Valid, Probed, Sort, Run, ProbesOnce;
      var ids := ListIds(members.Keys);
      var peers := Sort(ById(), ids);
      SortedSame(ids, members.Keys);
      evicted, events := [], [];
      RunNothing(View());
      ProbesNone(threshold, answered, now, suspect);
      ghost var done: set<Id> := {};
      for i := 0 to |peers|
        invariant Valid() && View() == Run(old(View()), events)
        invariant done == (set x | x in peers[..i] && x != self.id)
        invariant ProbesOnce(events, done, threshold, answered, now, suspect)
        invariant members.Keys <= old(members).Keys
        invariant forall id :: id in evicted <==> id in old(members) && id !in members
      {
        var id := peers[i];
        assert id in peers && peers[..i + 1] == peers[..i] + [id];
        if id == self.id {
          continue;
        }
        ghost var e := ProbeOf(id, threshold, answered, now, suspect);
        ProbeTouchesOne(View(), id, answered(id), now(id), threshold, suspect(id));
        RunMore(old(View()), events, e);
        ProbesMore(events, done, id, threshold, answered, now, suspect);
        var gone := Heartbeat(id, answered(id), now(id), threshold, suspect(id));
        events := events + [e];
        done := done + {id};
        if gone {
          evicted := evicted + [id];
        }
      }
      assert peers[..|peers|] == peers && done == old(members).Keys - {self.id};
    }

    method PruneTombstones(now: int, ttl: int)
      requires Valid()
      modifies this`removed
      ensures Valid() && View() == Step(old(View()), Prune(now, ttl))
    {
      if ttl <= 0 {
        removed := map[];
        return;
      }
      removed := map id | id in removed && removed[id] >= now - ttl :: removed[id];
    }

    /** TableWithout: the table this view would have without one member. */
    method TableWithout(id: Id) returns (t: Table)
      requires Valid()
      ensures t.Valid() && t.layout.backups == backups && t.layout.weight == weight
      ensures Lists(t.layout.ids, members.Keys - {id})
      ensures forall p :: t.layout.Holders(p) == table.layout.Keeping(NotId(id)).Holders(p)
    {
      hide Table.Valid, Sort, Filter;
      var ids := ListIds(members.Keys - {id});
      t := new Table(ids, backups, weight);
      KeepingLists(table.layout.ids, members.Keys, id);
      forall p ensures t.layout.Holders(p) == table.layout.Keeping(NotId(id)).Holders(p) {
        SameIdsSameTable(t.layout, table.layout.Keeping(NotId(id)), members.Keys - {id}, p);
      }
    }
  }

  lemma CountersGood(s: State, id: Id, now: int)
    requires Good(s) && id in s.members && id != s.self
    ensures Good(Heard(s, id, now)) && Good(Missed(s, id))
  {
  }

  lemma RemovedIsGone(s: State, id: Id, now: int)
    requires id != s.self
    ensures id !in Removed(s, id, now).members
  {
  }

  function ProbeOf(id: Id, threshold: nat, answered: Id -> bool, now: Id -> int, suspect: Id -> bool): Event {
    Probe(id, answered(id), now(id), threshold, suspect(id))
  }

  /** events are one heartbeat to each of these peers, in some order. */
  ghost predicate ProbesOnce(events: seq<Event>, peers: set<Id>, threshold: nat, answered: Id -> bool,
                             now: Id -> int, suspect: Id -> bool) {
    && (forall i | 0 <= i < |events| ::
          events[i].Probe? && events[i].id in peers &&
          events[i] == ProbeOf(events[i].id, threshold, answered, now, suspect))
    && (forall i, j | 0 <= i < j < |events| && events[i].Probe? && events[j].Probe? :: events[i].id != events[j].id)
    && (forall id | id in peers :: ProbeOf(id, threshold, answered, now, suspect) in events)
  }

  lemma ProbesNone(threshold: nat, answered: Id -> bool, now: Id -> int, suspect: Id -> bool)
    ensures ProbesOnce([], {}, threshold, answered, now, suspect)
  {
  }

  lemma ProbesMore(events: seq<Event>, peers: set<Id>, id: Id, threshold: nat, answered: Id -> bool,
                   now: Id -> int, suspect: Id -> bool)
    requires ProbesOnce(events, peers, threshold, answered, now, suspect) && id !in peers
    ensures ProbesOnce(events + [ProbeOf(id, threshold, answered, now, suspect)], peers + {id},
                       threshold, answered, now, suspect)
  {
  }

  lemma SortedSame(ids: seq<Id>, all: set<Id>)
    requires Lists(ids, all)
    ensures Distinct(Sort(ById(), ids)) && forall x :: x in Sort(ById(), ids) <==> x in all
  {
    hide Sort;
    OrdersAreTotal((a, b) => 0, 0);
    SortSorts(ById(), ids);
    assert forall x :: x in Sort(ById(), ids) <==> x in multiset(Sort(ById(), ids));
    assert forall x :: x in ids <==> x in multiset(ids);
    forall x ensures multiset(Sort(ById(), ids))[x] <= 1 { DistinctCounts(ids, x); }
    CountsDistinct(Sort(ById(), ids));
  }

  lemma RunNothing(s: State)
    ensures Run(s, []) == s
  {
  }

  lemma RunMore(s: State, es: seq<Event>, e: Event)
    ensures Run(s, es + [e]) == Step(Run(s, es), e)
  {
    assert (es + [e])[..|es + [e]| - 1] == es;
  }

  /** A heartbeat can at most evict the peer it was sent to. */
  lemma ProbeTouchesOne(s: State, id: Id, reached: bool, now: int, threshold: nat, suspect: bool)
    ensures var s' := Probed(s, id, reached, now, threshold, suspect);
            s'.members == s.members || (id in s.members && s'.members == s.members - {id})
  {
  }

  lemma KeepingLists(ids: seq<Id>, all: set<Id>, id: Id)
    requires Lists(ids, all)
    ensures Lists(Filter(NotId(id), ids), all - {id})
  {
    FilterMembers(NotId(id), ids);
    var r := Filter(NotId(id), ids);
    forall x ensures multiset(r)[x] <= 1 {
      FilterCounts(NotId(id), ids, x);
      DistinctCounts(ids, x);
    }
    CountsDistinct(r);
  }
}
