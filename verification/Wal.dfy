/** The write-ahead log: framed records [u32 payload length][1 byte op][payload], and their replay. */
module Wal {
  import opened Bytes
  import opened Entries

  const MAX_WAL_RECORD: nat := 128 * 1024 * 1024

  const OP_PUT: byte := 1
  const OP_REMOVE: byte := 2
  const OP_CLEAR: byte := 3

  /** The payload encoding of a snapshot entry; any pair of inverse functions will do. */
  datatype Codec = Codec(marshal: Entry -> bytes, unmarshal: bytes -> Option<Entry>) {
    ghost predicate Inverse() { forall e :: unmarshal(marshal(e)) == Some(e) }
  }

  function OpOf(r: Record): byte {
    match r case Put(_, _) => OP_PUT case Remove(_) => OP_REMOVE case Clear(_) => OP_CLEAR
  }

  function EntryOf(r: Record): Entry {
    match r
    case Put(k, v) => Entry(k, v)
    case Remove(k) => Entry(k, Value([], 0))
    case Clear(name) => Entry(Key(name, []), Value([], 0))
  }

  /** A record with an unknown op byte is consumed and ignored. */
  function RecordFor(op: byte, e: Entry): Option<Record> {
    if op == OP_PUT then Some(Put(e.k, e.v))
    else if op == OP_REMOVE then Some(Remove(e.k))
    else if op == OP_CLEAR then Some(Clear(e.k.name))
    else None
  }

  function PayloadLength(c: Codec, r: Record): nat {
    |c.marshal(EntryOf(r))|
  }

  function Frame(c: Codec, r: Record): (b: bytes)
    ensures |b| == 5 + PayloadLength(c, r)
  {
    PutU32(PayloadLength(c, r)) + [OpOf(r)] + c.marshal(EntryOf(r))
  }

  function Frames(c: Codec, rs: seq<Record>): bytes {
    if rs == [] then [] else Frame(c, rs[0]) + Frames(c, rs[1..])
  }

  /** Small enough for replay to accept it. */
  predicate Replayable(c: Codec, r: Record) {
    PayloadLength(c, r) <= MAX_WAL_RECORD
  }

  predicate AllReplayable(c: Codec, rs: seq<Record>) {
    forall i | 0 <= i < |rs| :: Replayable(c, rs[i])
  }

  /** The first intact record of a log and its length in bytes; None at a torn or corrupt one. */
  function Next(c: Codec, b: bytes): (r: Option<(Option<Record>, nat)>)
    ensures r.Some? ==> 5 <= r.value.1 <= |b|
  {
    if |b| < 5 then None
    else
      var n := DecodeBE(b[..4]);
      if n > MAX_WAL_RECORD || |b| < 5 + n then None
      else
        var e := c.unmarshal(b[5..5 + n]);
        if e.None? then None else Some((RecordFor(b[4], e.value), 5 + n))
  }

  function Listed(r: Option<Record>): seq<Record> {
    if r.Some? then [r.value] else []
  }

  /** The records replay applies, and the length of the prefix they take up. */
  function Replay(c: Codec, b: bytes): (r: (seq<Record>, nat))
    ensures r.1 <= |b|
    decreases |b|
  {
    var next := Next(c, b);
    if next.None? then ([], 0)
    else
      var (first, n) := next.value;
      var (rest, valid) := Replay(c, b[n..]);
      (Listed(first) + rest, n + valid)
  }

  // ---- frames are read back ---------------------------------------------------------------

  lemma NextOfFrame(c: Codec, r: Record, tail: bytes)
    requires c.Inverse() && Replayable(c, r)
    ensures Next(c, Frame(c, r) + tail) == Some((Some(r), |Frame(c, r)|))
  {
    hide PutU32, DecodeBE;
    var payload := c.marshal(EntryOf(r));
    var b := Frame(c, r) + tail;
    assert b == PutU32(|payload|) + ([OpOf(r)] + payload + tail);
    assert b[..4] == PutU32(|payload|) && b[4] == OpOf(r) && b[5..5 + |payload|] == payload;
  }

  /** A frame longer than replay accepts ends the replay there. */
  lemma NextOfOversized(c: Codec, r: Record, tail: bytes)
    requires !Replayable(c, r) && PayloadLength(c, r) < U32_SIZE
    ensures Next(c, Frame(c, r) + tail) == None
  {
    var payload := c.marshal(EntryOf(r));
    var b := Frame(c, r) + tail;
    assert b == PutU32(|payload|) + ([OpOf(r)] + payload + tail);
    assert b[..4] == PutU32(|payload|);
  }

  /** A proper prefix of a frame holds no record. */
  lemma NextOfTorn(c: Codec, r: Record, cut: nat)
    requires PayloadLength(c, r) < U32_SIZE && cut < |Frame(c, r)|
    ensures Next(c, Frame(c, r)[..cut]) == None
  {
    var payload := c.marshal(EntryOf(r));
    var b := Frame(c, r)[..cut];
    if cut >= 5 {
      assert Frame(c, r) == PutU32(|payload|) + ([OpOf(r)] + payload);
      assert b[..4] == PutU32(|payload|);
    }
  }

  lemma ReplayUnfold(c: Codec, b: bytes, first: Option<Record>, n: nat)
    requires Next(c, b) == Some((first, n))
    ensures Replay(c, b) == (Listed(first) + Replay(c, b[n..]).0, n + Replay(c, b[n..]).1)
  {
  }

  lemma ReplayEnd(c: Codec, b: bytes)
    requires Next(c, b).None?
    ensures Replay(c, b) == ([], 0)
  {
  }

  lemma {:induction false} ReplayFrames(c: Codec, rs: seq<Record>, tail: bytes)
    requires c.Inverse() && AllReplayable(c, rs)
    ensures Replay(c, Frames(c, rs) + tail) ==
            (rs + Replay(c, tail).0, |Frames(c, rs)| + Replay(c, tail).1)
  {
    hide Next, Frame, Replay;
    if rs == [] {
      assert Frames(c, rs) + tail == tail && rs + Replay(c, tail).0 == Replay(c, tail).0;
    } else {
      var b := Frames(c, rs) + tail;
      var rest := Frames(c, rs[1..]) + tail;
      assert b == Frame(c, rs[0]) + rest;
      assert Replayable(c, rs[0]);
      NextOfFrame(c, rs[0], rest);
      ReplayUnfold(c, b, Some(rs[0]), |Frame(c, rs[0])|);
      assert b[|Frame(c, rs[0])|..] == rest;
      ReplayFrames(c, rs[1..], tail);
      assert rs == [rs[0]] + rs[1..];
      assert [rs[0]] + (rs[1..] + Replay(c, tail).0) == rs + Replay(c, tail).0;
    }
  }

  lemma ReplayIntact(c: Codec, rs: seq<Record>)
    requires c.Inverse() && AllReplayable(c, rs)
    ensures Replay(c, Frames(c, rs)) == (rs, |Frames(c, rs)|)
  {
    hide Frames;
    ReplayFrames(c, rs, []);
    assert Replay(c, []) == ([], 0);
    assert Frames(c, rs) + [] == Frames(c, rs) && rs + [] == rs;
  }

  /** A log whose last frame was cut short replays to the records before it and their length. */
  lemma ReplayTorn(c: Codec, rs: seq<Record>, torn: Record, cut: nat)
    requires c.Inverse() && AllReplayable(c, rs)
    requires PayloadLength(c, torn) < U32_SIZE && cut < |Frame(c, torn)|
    ensures Replay(c, Frames(c, rs) + Frame(c, torn)[..cut]) == (rs, |Frames(c, rs)|)
  {
    NextOfTorn(c, torn, cut);
    ReplayFrames(c, rs, Frame(c, torn)[..cut]);
    assert rs + [] == rs;
  }

  /** A frame header, whatever follows it. */
  function Framed(op: byte, payload: bytes): bytes {
    PutU32(|payload|) + [op] + payload
  }

  /** Replay ends at the first payload that does not decode: nothing behind it is applied or kept. */
  lemma ReplayEndsAtCorrupt(c: Codec, rs: seq<Record>, op: byte, payload: bytes, tail: bytes)
    requires c.Inverse() && AllReplayable(c, rs) && |payload| <= MAX_WAL_RECORD && c.unmarshal(payload).None?
    ensures Replay(c, Frames(c, rs) + (Framed(op, payload) + tail)) == (rs, |Frames(c, rs)|)
  {
    hide Frames, Frame, Replay;
    var b := Framed(op, payload) + tail;
    HeaderOf(op, payload, tail);
    assert Next(c, b) == None;
    ReplayEnd(c, b);
    ReplayFrames(c, rs, b);
    assert rs + [] == rs;
  }

  /** A record with an operation byte that is not known is passed over, and those behind it count. */
  lemma ReplayPassesUnknown(c: Codec, rs: seq<Record>, op: byte, e: Entry, more: seq<Record>)
    requires c.Inverse() && AllReplayable(c, rs) && AllReplayable(c, more)
    requires op > OP_CLEAR && |c.marshal(e)| <= MAX_WAL_RECORD
    ensures Replay(c, Frames(c, rs) + (Framed(op, c.marshal(e)) + Frames(c, more))).0 == rs + more
  {
    hide Frames, Frame, Replay;
    var payload := c.marshal(e);
    var b := Framed(op, payload) + Frames(c, more);
    HeaderOf(op, payload, Frames(c, more));
    assert Next(c, b) == Some((None, |Framed(op, payload)|));
    ReplayUnfold(c, b, None, |Framed(op, payload)|);
    assert b[|Framed(op, payload)|..] == Frames(c, more);
    ReplayIntact(c, more);
    assert Listed(None) + more == more;
    ReplayFrames(c, rs, b);
  }

  lemma HeaderOf(op: byte, payload: bytes, tail: bytes)
    requires |payload| <= MAX_WAL_RECORD
    ensures var b := Framed(op, payload) + tail;
            && |b| == 5 + |payload| + |tail| && DecodeBE(b[..4]) == |payload| && b[4] == op
            && b[5..5 + |payload|] == payload
  {
    hide PutU32, DecodeBE;
    var b := Framed(op, payload) + tail;
    assert b[..4] == PutU32(|payload|);
  }

  lemma {:induction false} FramesConcat(c: Codec, a: seq<Record>, b: seq<Record>)
    ensures Frames(c, a + b) == Frames(c, a) + Frames(c, b)
  {
    hide Frame;
    if a == [] {
      assert a + b == b;
    } else {
      assert (a + b)[1..] == a[1..] + b;
      FramesConcat(c, a[1..], b);
    }
  }

  /** What replay found in a file is all there is in the file chopped to it. */
  lemma {:induction false} ReplayChopped(c: Codec, b: bytes)
    ensures Replay(c, b[..Replay(c, b).1]) == Replay(c, b)
    decreases |b|
  {
    hide Next, Replay;
    var next := Next(c, b);
    if next.None? {
      ReplayEnd(c, b);
      ReplayNothing(c);
    } else {
      var (first, n) := next.value;
      var valid := Replay(c, b[n..]).1;
      ReplayUnfold(c, b, first, n);
      ReplayChopped(c, b[n..]);
      ReplayStepBack(c, b, b[n..][..valid], first, n);
      assert b[..n + valid] == b[..n] + b[n..][..valid];
    }
  }

  lemma ReplayNothing(c: Codec)
    ensures Replay(c, []) == ([], 0)
  {
  }

  /**
   * Whatever the file holds, chopping it to the replayed length and appending records makes a log
   * that replays to the old records followed by the new ones.
   */
  lemma {:induction false} ReplayAfterChop(c: Codec, b: bytes, rs: seq<Record>)
    requires c.Inverse() && AllReplayable(c, rs)
    ensures var (was, valid) := Replay(c, b);
            Replay(c, b[..valid] + Frames(c, rs)) == (was + rs, valid + |Frames(c, rs)|)
    decreases |b|
  {
    hide Next, Frames, Replay;
    var next := Next(c, b);
    var (was, valid) := Replay(c, b);
    if next.None? {
      ReplayEnd(c, b);
      assert b[..0] + Frames(c, rs) == Frames(c, rs) && [] + rs == rs;
      ReplayIntact(c, rs);
    } else {
      var (first, n) := next.value;
      var (was', valid') := Replay(c, b[n..]);
      ReplayUnfold(c, b, first, n);
      ReplayAfterChop(c, b[n..], rs);
      ReplayStepBack(c, b, b[n..][..valid'] + Frames(c, rs), first, n);
      assert b[..valid] + Frames(c, rs) == b[..n] + (b[n..][..valid'] + Frames(c, rs));
      assert Listed(first) + (was' + rs) == was + rs;
    }
  }

  lemma ReplayStepBack(c: Codec, b: bytes, rest: bytes, first: Option<Record>, n: nat)
    requires Next(c, b) == Some((first, n))
    ensures Replay(c, b[..n] + rest) == (Listed(first) + Replay(c, rest).0, n + Replay(c, rest).1)
  {
    hide Next, Replay;
    var b' := b[..n] + rest;
    assert b'[..n] == b[..n] && b'[n..] == rest;
    NextIsLocal(c, b, b', n);
    ReplayUnfold(c, b', first, n);
  }

  lemma NextIsLocal(c: Codec, a: bytes, b: bytes, n: nat)
    requires Next(c, a).Some? && Next(c, a).value.1 == n
    requires |b| >= n && a[..n] == b[..n]
    ensures Next(c, b) == Next(c, a)
  {
    assert a[..4] == a[..n][..4] && b[..4] == b[..n][..4];
    assert a[4] == a[..n][4] && b[4] == b[..n][4];
    assert a[5..n] == a[..n][5..n] && b[5..n] == b[..n][5..n];
  }

  /**
   * A crash mid-append leaves some byte prefix of the log; it replays to a record prefix, and to
   * no fewer records than were completely written.
   */
  lemma {:induction false} ReplayPrefix(c: Codec, rs: seq<Record>, w: nat) returns (j: nat)
    requires c.Inverse() && AllReplayable(c, rs) && w <= |Frames(c, rs)|
    ensures j <= |rs| && Replay(c, Frames(c, rs)[..w]) == (rs[..j], |Frames(c, rs[..j])|)
    ensures |Frames(c, rs[..j])| <= w
    ensures forall i | 0 <= i <= |rs| && |Frames(c, rs[..i])| <= w :: i <= j
    decreases |rs|
  {
    hide Next, Frame;
    var b := Frames(c, rs)[..w];
    if rs == [] {
      j := 0;
      ReplayIntact(c, []);
    } else {
      var f := Frame(c, rs[0]);
      if w < |f| {
        j := 0;
        assert b == f[..w];
        NextOfTorn(c, rs[0], w);
        forall i | 0 < i <= |rs| ensures |Frames(c, rs[..i])| > w {
          FramesHead(c, rs, i);
        }
      } else {
        var j' := ReplayPrefix(c, rs[1..], w - |f|);
        j := j' + 1;
        var rest := Frames(c, rs[1..])[..w - |f|];
        assert b == f + rest;
        assert Replayable(c, rs[0]);
        NextOfFrame(c, rs[0], rest);
        ReplayUnfold(c, b, Some(rs[0]), |f|);
        assert b[|f|..] == rest;
        FramesHead(c, rs, j);
        forall i | 0 <= i <= |rs| && |Frames(c, rs[..i])| <= w ensures i <= j {
          if i > 0 { FramesHead(c, rs, i); }
        }
      }
    }
  }

  lemma FramesHead(c: Codec, rs: seq<Record>, i: nat)
    requires 0 < i <= |rs|
    ensures rs[..i] == [rs[0]] + rs[1..][..i - 1]
    ensures Frames(c, rs[..i]) == Frame(c, rs[0]) + Frames(c, rs[1..][..i - 1])
  {
    assert rs[..i][1..] == rs[1..][..i - 1];
  }

  /** A log of intact frames replays completely exactly when no payload exceeds the replay cap. */
  lemma {:induction false} ReplayCompleteIff(c: Codec, rs: seq<Record>)
    requires c.Inverse() && forall i | 0 <= i < |rs| :: PayloadLength(c, rs[i]) < U32_SIZE
    ensures Replay(c, Frames(c, rs)).0 == rs <==> AllReplayable(c, rs)
  {
    if AllReplayable(c, rs) {
      ReplayIntact(c, rs);
    } else {
      var i := FirstOversized(c, rs);
      assert rs == rs[..i] + ([rs[i]] + rs[i + 1..]);
      FramesConcat(c, rs[..i], [rs[i]] + rs[i + 1..]);
      var tail := Frames(c, [rs[i]] + rs[i + 1..]);
      assert tail == Frame(c, rs[i]) + Frames(c, rs[i + 1..]) by {
        assert ([rs[i]] + rs[i + 1..])[1..] == rs[i + 1..];
      }
      NextOfOversized(c, rs[i], Frames(c, rs[i + 1..]));
      ReplayFrames(c, rs[..i], tail);
      assert rs[..i] + [] == rs[..i];
    }
  }

  lemma {:induction false} FirstOversized(c: Codec, rs: seq<Record>) returns (i: nat)
    requires !AllReplayable(c, rs)
    decreases |rs|
    ensures i < |rs| && AllReplayable(c, rs[..i]) && !Replayable(c, rs[i])
  {
    hide Replayable;
    var j :| 0 <= j < |rs| && !Replayable(c, rs[j]);
    if !Replayable(c, rs[0]) {
      i := 0;
    } else {
      assert rs[1..][j - 1] == rs[j];
      var rest := FirstOversized(c, rs[1..]);
      i := rest + 1;
      assert rs[..i] == [rs[0]] + rs[1..][..rest];
    }
  }
}
