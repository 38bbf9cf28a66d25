/** The fenced lock: one entry, an 8-byte fence followed by the holder's id. */
module FencedLock {
  import opened Bytes
  import opened Entries
  import opened Stores

  function EncodeLock(fence: nat, holder: bytes): bytes { PutU64(fence) + holder }

  /** Anything shorter than a fence counts as fence 0, free. */
  function DecodeLock(b: bytes): (nat, bytes) {
    if |b| < 8 then (0, []) else (DecodeBE(b[..8]), b[8..])
  }

  lemma LockRoundTrip(fence: nat, holder: bytes)
    ensures DecodeLock(EncodeLock(fence, holder)) == (fence % U64_SIZE, holder)
  {
    var b := EncodeLock(fence, holder);
    assert b[..8] == PutU64(fence) && b[8..] == holder;
  }

  /** The processor's action on the entry and its result; an empty result is a refusal. */
  function LockAcquire(cur: bytes, arg: bytes): (Action, bytes) {
    var d := DecodeLock(cur);
    if arg == [] then (Keep, [])
    else if d.1 != [] then (Keep, if d.1 != arg then [] else PutU64(d.0))
    else (Set(EncodeLock(d.0 + 1, arg)), PutU64(d.0 + 1))
  }

  function LockRelease(cur: bytes, arg: bytes): (Action, bytes) {
    var d := DecodeLock(cur);
    if d.1 == [] || d.1 != arg then (Keep, [0]) else (Set(EncodeLock(d.0, [])), [1])
  }

  // ---- runs on one owner ------------------------------------------------------------------

  /** Other stands for anything that leaves the lock's entry alone. */
  datatype Op = Acquire(h: bytes) | Release(h: bytes) | Other

  datatype Call = Call(op: Op, now: int, out: bytes)

  function Current(m: Flat, k: Key, now: int): bytes {
    var v := Read(m, k, now);
    if v.Some? then v.value else []
  }

  ghost predicate Step(m: Flat, k: Key, call: Call, m': Flat) {
    match call.op
    case Other => Lookup(m', k) == Lookup(m, k)
    case Acquire(h) =>
      var r := LockAcquire(Current(m, k, call.now), h);
      call.out == r.1 && m' == ApplyAll(m, UpdateRecords(m, k, call.now, r.0))
    case Release(h) =>
      var r := LockRelease(Current(m, k, call.now), h);
      call.out == r.1 && m' == ApplyAll(m, UpdateRecords(m, k, call.now, r.0))
  }

  ghost predicate IsRun(k: Key, run: seq<Flat>, calls: seq<Call>) {
    && |run| == |calls| + 1 && NeverExpires(run[0], k)
    && forall i | 0 <= i < |calls| :: Step(run[i], k, calls[i], run[i + 1])
  }

  predicate NeverExpires(m: Flat, k: Key) { k in m ==> m[k].expireAt == 0 }

  function Fence(m: Flat, k: Key): nat { DecodeLock(if k in m then m[k].data else []).0 }

  function Holder(m: Flat, k: Key): bytes { DecodeLock(if k in m then m[k].data else []).1 }

  predicate Granted(call: Call) { call.op.Acquire? && call.out != [] }

  predicate Released(call: Call) { call.op.Release? && call.out == [1] }

  function Token(call: Call): nat { DecodeBE(call.out) }

  /** The grant took a free lock, rather than confirming one already held. */
  predicate IsFresh(m: Flat, k: Key, call: Call) { Granted(call) && Holder(m, k) == [] }

  lemma FenceBound(m: Flat, k: Key)
    ensures Fence(m, k) < U64_SIZE
  {
    var b := if k in m then m[k].data else [];
    if |b| >= 8 { DecodeBounds(b[..8]); }
  }

  lemma SetFacts(m: Flat, k: Key, now: int, fence: nat, holder: bytes)
    requires NeverExpires(m, k)
    ensures var m' := ApplyAll(m, UpdateRecords(m, k, now, Set(EncodeLock(fence, holder))));
            NeverExpires(m', k) && Fence(m', k) == fence % U64_SIZE && Holder(m', k) == holder
  {
    hide ApplyAll, DecodeLock, EncodeLock;
    LockRoundTrip(fence, holder);
    OneRecord(m, Put(k, Value(EncodeLock(fence, holder), 0)));
  }

  lemma ReadsEntry(m: Flat, k: Key, now: int)
    requires NeverExpires(m, k)
    ensures DecodeLock(Current(m, k, now)) == (Fence(m, k), Holder(m, k))
  {
  }

  /** Taking a free lock. */
  lemma AcquireTakes(m: Flat, k: Key, call: Call, m': Flat)
    requires Step(m, k, call, m') && NeverExpires(m, k) && call.op.Acquire? && call.op.h != [] && Holder(m, k) == []
    ensures NeverExpires(m', k) && Holder(m', k) == call.op.h && call.out != [] && |call.out| == 8
    ensures Fence(m', k) == Token(call) == (Fence(m, k) + 1) % U64_SIZE
  {
    hide DecodeLock, EncodeLock, Fence, Holder, ApplyAll, NeverExpires, UpdateRecords, Current;
    ReadsEntry(m, k, call.now);
    SetFacts(m, k, call.now, Fence(m, k) + 1, call.op.h);
  }

  /** Asking for a lock that is held, or without an id, changes nothing. */
  lemma AcquireKeeps(m: Flat, k: Key, call: Call, m': Flat)
    requires Step(m, k, call, m') && NeverExpires(m, k) && call.op.Acquire?
    requires call.op.h == [] || Holder(m, k) != []
    ensures m' == m
    ensures call.out != [] <==> call.op.h != [] && Holder(m, k) == call.op.h
    ensures call.out != [] ==> |call.out| == 8 && Token(call) == Fence(m, k)
  {
    hide DecodeLock, EncodeLock, Fence, Holder, ApplyAll, NeverExpires, Current, DecodeBE, PutU64;
    ReadsEntry(m, k, call.now);
    FenceBound(m, k);
    OneRecord(m, Remove(k));
    FenceOfBytes(Fence(m, k));
  }

  /** Acquiring: refused exactly when another holds it, repeated for the holder, fresh otherwise. */
  lemma AcquireFacts(m: Flat, k: Key, call: Call, m': Flat)
    requires Step(m, k, call, m') && NeverExpires(m, k) && call.op.Acquire?
    ensures NeverExpires(m', k)
    ensures Granted(call) <==> call.op.h != [] && Holder(m, k) in {[], call.op.h}
    ensures !Granted(call) ==> m' == m
    ensures Granted(call) ==> Holder(m', k) == call.op.h && Fence(m', k) == Token(call) && |call.out| == 8
    ensures IsFresh(m, k, call) ==> Token(call) == (Fence(m, k) + 1) % U64_SIZE
    ensures Granted(call) && !IsFresh(m, k, call) ==> m' == m
  {
    hide Fence, Holder, NeverExpires, Step, Token;
    if call.op.h != [] && Holder(m, k) == [] {
      AcquireTakes(m, k, call, m');
    } else {
      AcquireKeeps(m, k, call, m');
    }
  }

  lemma FenceOfBytes(f: nat)
    requires f < U64_SIZE
    ensures DecodeBE(PutU64(f)) == f && PutU64(f) != []
  {
  }

  /** Releasing: succeeds exactly for the holder, and keeps the fence. */
  lemma ReleaseFacts(m: Flat, k: Key, call: Call, m': Flat)
    requires Step(m, k, call, m') && NeverExpires(m, k) && call.op.Release?
    ensures NeverExpires(m', k) && Fence(m', k) == Fence(m, k)
    ensures Released(call) <==> Holder(m, k) != [] && Holder(m, k) == call.op.h
    ensures if Released(call) then Holder(m', k) == [] else m' == m
  {
    hide DecodeLock, EncodeLock, Fence, Holder, ApplyAll, NeverExpires;
    ReadsEntry(m, k, call.now);
    FenceBound(m, k);
    OneRecord(m, Remove(k));
    SetFacts(m, k, call.now, Fence(m, k), []);
  }

  lemma SameEntry(m: Flat, m': Flat, k: Key)
    requires Lookup(m', k) == Lookup(m, k)
    ensures NeverExpires(m', k) == NeverExpires(m, k) && Fence(m', k) == Fence(m, k) && Holder(m', k) == Holder(m, k)
  {
    hide DecodeLock;
    assert k in m' <==> Lookup(m', k).Some?;
    assert k in m <==> Lookup(m, k).Some?;
    if k in m { assert m'[k] == Lookup(m', k).value == m[k]; }
  }

  /** What any call does to the fence and the holder. */
  ghost predicate Effected(m: Flat, k: Key, call: Call, m': Flat) {
    if Granted(call) then
      && call.op.h != [] && Holder(m, k) in {[], call.op.h}
      && Holder(m', k) == call.op.h && Fence(m', k) == Token(call)
      && (if Holder(m, k) == [] then Token(call) == (Fence(m, k) + 1) % U64_SIZE else m' == m)
    else
      && Fence(m', k) == Fence(m, k)
      && (if Released(call) then Holder(m, k) == call.op.h != [] && Holder(m', k) == []
          else Holder(m', k) == Holder(m, k))
  }

  lemma StepEffect(m: Flat, k: Key, call: Call, m': Flat)
    requires Step(m, k, call, m') && NeverExpires(m, k)
    ensures NeverExpires(m', k) && Effected(m, k, call, m')
  {
    hide NeverExpires, Fence, Holder, Token;
    match call.op {
      case Acquire(_) => AcquireFacts(m, k, call, m');
      case Release(_) => ReleaseFacts(m, k, call, m');
      case Other => SameEntry(m, m', k);
    }
  }

  lemma {:induction false} StaysForever(k: Key, run: seq<Flat>, calls: seq<Call>, i: nat)
    requires IsRun(k, run, calls) && i < |run|
    ensures NeverExpires(run[i], k)
    ensures i < |calls| ==> Effected(run[i], k, calls[i], run[i + 1])
  {
    hide NeverExpires, Step, Effected;
    if i > 0 {
      StaysForever(k, run, calls, i - 1);
      StepEffect(run[i - 1], k, calls[i - 1], run[i]);
    }
    if i < |calls| {
      StepEffect(run[i], k, calls[i], run[i + 1]);
    }
  }

  /** Nobody among calls i..j-1 released on behalf of h. */
  ghost predicate NoRelease(calls: seq<Call>, h: bytes, i: nat, j: nat)
    requires i <= j <= |calls|
  {
    forall r | i <= r < j :: !(Released(calls[r]) && calls[r].op.h == h)
  }

  /** From a grant until its holder releases, the entry names that holder and that token. */
  lemma {:induction false} HeldUntilRelease(k: Key, run: seq<Flat>, calls: seq<Call>, i: nat, j: nat)
    requires IsRun(k, run, calls) && i < j <= |calls| && Granted(calls[i])
    requires NoRelease(calls, calls[i].op.h, i + 1, j)
    ensures Holder(run[j], k) == calls[i].op.h != [] && Fence(run[j], k) == Token(calls[i])
    decreases j
  {
    hide Fence, Holder, NeverExpires, Token, Step;
    StaysForever(k, run, calls, j - 1);
    if j > i + 1 {
      HeldUntilRelease(k, run, calls, i, j - 1);
    }
  }

  /** Two different holders are granted the lock only with a release by the first in between. */
  lemma MutualExclusion(k: Key, run: seq<Flat>, calls: seq<Call>, i: nat, j: nat)
    requires IsRun(k, run, calls) && i < j < |calls|
    requires Granted(calls[i]) && Granted(calls[j]) && calls[i].op.h != calls[j].op.h
    ensures exists r :: i < r < j && Released(calls[r]) && calls[r].op.h == calls[i].op.h
  {
    hide Fence, Holder, NeverExpires;
    if NoRelease(calls, calls[i].op.h, i + 1, j) {
      HeldUntilRelease(k, run, calls, i, j);
      StaysForever(k, run, calls, j);
      AcquireFacts(run[j], k, calls[j], run[j + 1]);
      assert false;
    }
  }

  /** A holder that asks again, not having released, gets its token again and changes nothing. */
  lemma Reentrant(k: Key, run: seq<Flat>, calls: seq<Call>, i: nat, j: nat)
    requires IsRun(k, run, calls) && i < j < |calls|
    requires Granted(calls[i]) && calls[j].op == calls[i].op && NoRelease(calls, calls[i].op.h, i + 1, j)
    ensures Granted(calls[j]) && Token(calls[j]) == Token(calls[i]) && run[j + 1] == run[j]
  {
    hide Fence, Holder, NeverExpires, Token;
    HeldUntilRelease(k, run, calls, i, j);
    StaysForever(k, run, calls, j);
    AcquireFacts(run[j], k, calls[j], run[j + 1]);
  }

  // ---- tokens -----------------------------------------------------------------------------

  /** How many of the first n calls took the lock afresh. */
  ghost function FreshCount(k: Key, run: seq<Flat>, calls: seq<Call>, n: nat): nat
    requires |run| == |calls| + 1 && n <= |calls|
  {
    if n == 0 then 0
    else FreshCount(k, run, calls, n - 1) + if IsFresh(run[n - 1], k, calls[n - 1]) then 1 else 0
  }

  lemma Bump(a: int, f: int)
    requires f == a % U64_SIZE
    ensures (f + 1) % U64_SIZE == (a + 1) % U64_SIZE
  {
  }

  /** The fence counts the fresh grants since the start of the run, in 64 bits. */
  lemma {:induction false} FenceCounts(k: Key, run: seq<Flat>, calls: seq<Call>, n: nat)
    requires IsRun(k, run, calls) && n <= |calls|
    ensures Fence(run[n], k) == (Fence(run[0], k) + FreshCount(k, run, calls, n)) % U64_SIZE
  {
    hide Fence, Holder, NeverExpires, Token, Step;
    FenceBound(run[0], k);
    if n > 0 {
      FenceCounts(k, run, calls, n - 1);
      StaysForever(k, run, calls, n - 1);
      Bump(Fence(run[0], k) + FreshCount(k, run, calls, n - 1), Fence(run[n - 1], k));
    }
  }

  lemma FreshToken(k: Key, run: seq<Flat>, calls: seq<Call>, i: nat)
    requires IsRun(k, run, calls) && i < |calls| && IsFresh(run[i], k, calls[i])
    ensures Token(calls[i]) == (Fence(run[0], k) + FreshCount(k, run, calls, i) + 1) % U64_SIZE
  {
    hide Fence, Holder, NeverExpires, Token;
    FenceCounts(k, run, calls, i + 1);
    StaysForever(k, run, calls, i);
    assert Step(run[i], k, calls[i], run[i + 1]);
    AcquireFacts(run[i], k, calls[i], run[i + 1]);
  }

  lemma {:induction false} FreshCountGrows(k: Key, run: seq<Flat>, calls: seq<Call>, i: nat, j: nat)
    requires |run| == |calls| + 1 && i <= j <= |calls|
    ensures FreshCount(k, run, calls, i) <= FreshCount(k, run, calls, j)
    decreases j
  {
    if i < j { FreshCountGrows(k, run, calls, i, j - 1); }
  }

  /** The n-th fresh grant, counting from 0. */
  lemma {:induction false} NthFresh(k: Key, run: seq<Flat>, calls: seq<Call>, n: nat, top: nat) returns (i: nat)
    requires |run| == |calls| + 1 && top <= |calls| && n < FreshCount(k, run, calls, top)
    ensures i < top && IsFresh(run[i], k, calls[i]) && FreshCount(k, run, calls, i) == n
    decreases top
  {
    if FreshCount(k, run, calls, top - 1) <= n {
      i := top - 1;
    } else {
      i := NthFresh(k, run, calls, n, top - 1);
    }
  }

  ghost predicate TokensIncrease(k: Key, run: seq<Flat>, calls: seq<Call>)
    requires |run| == |calls| + 1
  {
    forall i, j | 0 <= i < j < |calls| && IsFresh(run[i], k, calls[i]) && IsFresh(run[j], k, calls[j]) ::
      Token(calls[i]) < Token(calls[j])
  }

  lemma ModSteps(f: nat, a: nat, b: nat)
    requires a < b && (f + 1) % U64_SIZE + b < U64_SIZE
    ensures (f + a + 1) % U64_SIZE < (f + b + 1) % U64_SIZE
  {
    ModShift(f + 1, a);
    ModShift(f + 1, b);
  }

  lemma ModShift(x: nat, a: nat)
    requires x % U64_SIZE + a < U64_SIZE
    ensures (x + a) % U64_SIZE == x % U64_SIZE + a
  {
    var q := x / U64_SIZE;
    assert x + a == q * U64_SIZE + (x % U64_SIZE + a);
  }

  lemma ModWraps(x: nat, a: nat)
    requires x % U64_SIZE + a == U64_SIZE - 1
    ensures (x + a) % U64_SIZE > (x + a + 1) % U64_SIZE
  {
    ModShift(x, a);
    var q := x / U64_SIZE;
    assert x + a + 1 == (q + 1) * U64_SIZE;
  }

  lemma FreshBetween(k: Key, run: seq<Flat>, calls: seq<Call>, i: nat, j: nat)
    requires |run| == |calls| + 1 && i < j < |calls|
    requires IsFresh(run[i], k, calls[i]) && IsFresh(run[j], k, calls[j])
    ensures FreshCount(k, run, calls, i) < FreshCount(k, run, calls, j) < FreshCount(k, run, calls, |calls|)
  {
    hide IsFresh;
    FreshCountGrows(k, run, calls, i + 1, j);
    FreshCountGrows(k, run, calls, j + 1, |calls|);
  }

  /** The first token leaves room below 2^64 for the fresh grants that follow it. */
  ghost predicate RoomForTokens(k: Key, run: seq<Flat>, calls: seq<Call>)
    requires |run| == |calls| + 1
  {
    var n := FreshCount(k, run, calls, |calls|);
    n == 0 || (Fence(run[0], k) + 1) % U64_SIZE + (n - 1) < U64_SIZE
  }

  lemma TokensIncreaseWithRoom(k: Key, run: seq<Flat>, calls: seq<Call>, i: nat, j: nat)
    requires IsRun(k, run, calls) && RoomForTokens(k, run, calls) && i < j < |calls|
    requires IsFresh(run[i], k, calls[i]) && IsFresh(run[j], k, calls[j])
    ensures Token(calls[i]) < Token(calls[j])
  {
    hide Fence, Token, IsFresh, IsRun, FreshCount;
    RunLength(k, run, calls);
    FreshToken(k, run, calls, i);
    FreshToken(k, run, calls, j);
    FreshBetween(k, run, calls, i, j);
    ModSteps(Fence(run[0], k), FreshCount(k, run, calls, i), FreshCount(k, run, calls, j));
  }

  lemma TokensWrapWithout(k: Key, run: seq<Flat>, calls: seq<Call>)
    requires IsRun(k, run, calls) && !RoomForTokens(k, run, calls)
    ensures exists i, j :: 0 <= i < j < |calls| && IsFresh(run[i], k, calls[i]) && IsFresh(run[j], k, calls[j]) &&
                           Token(calls[i]) >= Token(calls[j])
  {
    hide Fence, Token, IsFresh, IsRun, FreshCount;
    RunLength(k, run, calls);
    var f := Fence(run[0], k);
    var c := U64_SIZE - 1 - (f + 1) % U64_SIZE;
    var i := NthFresh(k, run, calls, c, |calls|);
    var j := NthFresh(k, run, calls, c + 1, |calls|);
    FreshOrder(k, run, calls, i, j);
    FreshToken(k, run, calls, i);
    FreshToken(k, run, calls, j);
    ModWraps(f + 1, c);
  }

  /**
   * Later fresh grants carry larger tokens over the whole run, exactly when the first token leaves
   * room below 2^64 for the number of fresh grants that follow it.
   */
  lemma TokensIncreaseIff(k: Key, run: seq<Flat>, calls: seq<Call>)
    requires IsRun(k, run, calls)
    ensures TokensIncrease(k, run, calls) <==> RoomForTokens(k, run, calls)
  {
    hide Token, IsFresh, IsRun, RoomForTokens;
    RunLength(k, run, calls);
    if RoomForTokens(k, run, calls) {
      forall i, j | 0 <= i < j < |calls| && IsFresh(run[i], k, calls[i]) && IsFresh(run[j], k, calls[j])
        ensures Token(calls[i]) < Token(calls[j])
      {
        TokensIncreaseWithRoom(k, run, calls, i, j);
      }
    } else {
      TokensWrapWithout(k, run, calls);
    }
  }

  lemma RunLength(k: Key, run: seq<Flat>, calls: seq<Call>)
    requires IsRun(k, run, calls)
    ensures |run| == |calls| + 1
  {
  }

  lemma FreshOrder(k: Key, run: seq<Flat>, calls: seq<Call>, i: nat, j: nat)
    requires |run| == |calls| + 1 && i < |calls| && j < |calls|
    requires FreshCount(k, run, calls, i) < FreshCount(k, run, calls, j)
    ensures i < j
  {
    if j <= i { FreshCountGrows(k, run, calls, j, i); }
  }
}
