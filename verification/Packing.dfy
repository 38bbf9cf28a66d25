/** The packed [u32 length][item]... stream a queue segment holds. */
module Packing {
  import opened Bytes

  datatype HeadResult =
    | NoItem
    | Head(item: bytes, rest: bytes)
    | Panics  // the slice bound 4+n wrapped around 32 bits

  /** The first item of a packed stream and what follows it. */
  function QueueHead(b: bytes): (r: HeadResult)
    ensures r.Head? ==> |r.rest| < |b|
  {
    if |b| < 4 then NoItem
    else
      var n := DecodeBE(b[..4]);
      if |b| < 4 + n then NoItem
      else if 4 + n >= U32_SIZE then Panics
      else Head(b[4..4 + n], b[4 + n..])
  }

  function AppendPacked(seg: bytes, item: bytes): bytes {
    seg + PutU32(|item|) + item
  }

  /** Lengths for which the 4-byte header and the 32-bit slice bound are both exact. */
  predicate Packable(item: bytes) {
    |item| < U32_SIZE - 4
  }

  predicate AllPackable(items: seq<bytes>) {
    forall i | 0 <= i < |items| :: Packable(items[i])
  }

  function Pack(items: seq<bytes>): bytes {
    if items == [] then [] else AppendPacked([], items[0]) + Pack(items[1..])
  }

  /** The items of the longest well-formed prefix of a packed stream. */
  function Unpack(b: bytes): seq<bytes>
    decreases |b|
  {
    match QueueHead(b)
    case Head(item, rest) => [item] + Unpack(rest)
    case _ => []
  }

  /** What follows that prefix. */
  function Leftover(b: bytes): (r: bytes)
    ensures |r| <= |b|
    decreases |b|
  {
    match QueueHead(b)
    case Head(_, rest) => Leftover(rest)
    case _ => b
  }

  /** The length of a byte slice, a signed 64-bit number. */
  const MAX_SLICE: nat := 0x7FFF_FFFF_FFFF_FFFF

  /** A slice that can be taken apart without the 32-bit bound wrapping around. */
  predicate Convertible(b: bytes) {
    |b| <= MAX_SLICE && !QueueHead(Leftover(b)).Panics?
  }

  /** Only a slice of 4 GiB or more can wrap it. */
  lemma ShortIsConvertible(b: bytes)
    requires |b| < U32_SIZE
    ensures Convertible(b)
  {
  }

  lemma HeadOfAppend(item: bytes, rest: bytes)
    requires Packable(item)
    ensures QueueHead(AppendPacked([], item) + rest) == Head(item, rest)
  {
    var b := AppendPacked([], item) + rest;
    assert b == PutU32(|item|) + (item + rest);
    assert b[..4] == PutU32(|item|);
    assert b[4..] == item + rest;
  }

  lemma HeadOfPack(items: seq<bytes>)
    requires items != [] && Packable(items[0])
    ensures QueueHead(Pack(items)) == Head(items[0], Pack(items[1..]))
  {
    HeadOfAppend(items[0], Pack(items[1..]));
  }

  lemma {:induction false} PackAppend(items: seq<bytes>, x: bytes)
    ensures Pack(items + [x]) == AppendPacked(Pack(items), x)
  {
    if items == [] {
      assert [x][1..] == [];
    } else {
      assert (items + [x])[1..] == items[1..] + [x];
      PackAppend(items[1..], x);
    }
  }

  lemma {:induction false} UnpackPack(items: seq<bytes>)
    requires AllPackable(items)
    ensures Unpack(Pack(items)) == items
  {
    if items != [] {
      HeadOfPack(items);
      UnpackPack(items[1..]);
    }
  }

  /** Every item takes at least its 4-byte header. */
  lemma {:induction false} PackLength(items: seq<bytes>)
    ensures |Pack(items)| >= 4 * |items|
    ensures Pack(items) == [] <==> items == []
  {
    if items != [] {
      PackLength(items[1..]);
    }
  }
}
