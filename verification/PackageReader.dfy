/** The package reader over data the writer produced: node data and byte ranges (pkg/ndb/node.go). */
module PackageReader {
  import opened Common
  import opened Geometry
  import opened Blocks
  import opened Allocation
  import opened Catalog
  import opened NodeDatabase
  import opened DataTrees

  /** LookupBlock: the entry whose BID equals `bid` with the internal bit cleared on both sides. */
  method LookupBlock(n: NDB, bid: nat) returns (r: Result<BBTEntry>)
    ensures r.Ok? ==> exists b | b in n.blocks :: Strip(b) == Strip(bid) && r.value == n.blocks[b]
    ensures r.Err? ==> forall b | b in n.blocks :: Strip(b) != Strip(bid)
  {
    var todo := n.blocks.Keys;
    while todo != {}
      invariant todo <= n.blocks.Keys && forall b | b in n.blocks && b !in todo :: Strip(b) != Strip(bid)
      decreases |todo|
    {
      var b :| b in todo;
      if Strip(b) == Strip(bid) {
        return Ok(n.blocks[b]);
      }
      todo := todo - {b};
    }
    return Err(InvalidArg);
  }

  function Concat(chunks: seq<seq<byte>>): seq<byte> {
    if chunks == [] then [] else Concat(chunks[..|chunks| - 1]) + chunks[|chunks| - 1]
  }

  lemma {:induction false} ConcatAppend(a: seq<seq<byte>>, b: seq<seq<byte>>)
    ensures Concat(a + b) == Concat(a) + Concat(b)
  {
    if b == [] {
      assert a + b == a;
    } else {
      ConcatAppend(a, b[..|b| - 1]);
      assert (a + b)[..|a + b| - 1] == a + b[..|b| - 1];
    }
  }

  lemma {:induction false} LeafBytesAppend(blocks: Catalogue, spool: Spool, a: seq<nat>, b: seq<nat>)
    ensures LeafBytes(blocks, spool, a + b) == LeafBytes(blocks, spool, a) + LeafBytes(blocks, spool, b)
  {
    hide BytesOf;
    if b == [] {
      assert a + b == a;
    } else {
      LeafBytesAppend(blocks, spool, a, b[..|b| - 1]);
      assert (a + b)[..|a + b| - 1] == a + b[..|b| - 1];
    }
  }

  /** A BID the reader can expand: a data block, or an extended block over such BIDs, `depth` levels up. */
  ghost predicate Expands(blocks: Catalogue, spool: Spool, bid: nat, depth: nat)
    decreases depth
  {
    && bid in blocks && blocks[bid].bid == bid && Payload(blocks, spool, bid).Ok?
    && (depth == 0 ==> !IsInternal(bid) && Payload(blocks, spool, bid).value.Data?)
    && (depth > 0 ==> HoldsExtended(blocks, spool, bid, depth))
    && (depth > 0 ==> forall c | c in Bids(blocks, spool, bid) :: Expands(blocks, spool, c, depth - 1))
  }

  /** The data blocks under `bid`, by the reader's recursion. */
  function Under(blocks: Catalogue, spool: Spool, bid: nat, depth: nat): seq<nat>
    decreases depth, 0
  {
    if depth == 0 then [bid] else UnderAll(blocks, spool, Bids(blocks, spool, bid), depth - 1)
  }

  function UnderAll(blocks: Catalogue, spool: Spool, bids: seq<nat>, depth: nat): seq<nat>
    decreases depth, 1, |bids|
  {
    if bids == [] then []
    else UnderAll(blocks, spool, bids[..|bids| - 1], depth) + Under(blocks, spool, bids[|bids| - 1], depth)
  }

  lemma ExpandsLeaf(blocks: Catalogue, spool: Spool, bid: nat, depth: nat)
    requires Expands(blocks, spool, bid, depth) && !IsInternal(bid)
    ensures Payload(blocks, spool, bid).Ok? && Payload(blocks, spool, bid).value.Data?
    ensures LeafBytes(blocks, spool, Under(blocks, spool, bid, depth)) == Payload(blocks, spool, bid).value.bytes
  {
    hide XBlockOk;
    assert depth == 0 && Under(blocks, spool, bid, depth) == [bid] && [bid][..0] == [];
  }

  lemma ExpandsNode(blocks: Catalogue, spool: Spool, bid: nat, depth: nat)
    requires Expands(blocks, spool, bid, depth) && IsInternal(bid)
    ensures depth > 0 && Payload(blocks, spool, bid).Ok? && Payload(blocks, spool, bid).value.Extended?
    ensures var bids := Payload(blocks, spool, bid).value.bids;
      && (forall c | c in bids :: Expands(blocks, spool, c, depth - 1))
      && Under(blocks, spool, bid, depth) == UnderAll(blocks, spool, bids, depth - 1)
  {
    assert Payload(blocks, spool, bid).value.bids == Bids(blocks, spool, bid);
    hide DistinctBids;
  }

  lemma ExpandsLive(blocks: Catalogue, spool: Spool, bid: nat, depth: nat)
    requires Expands(blocks, spool, bid, depth)
    ensures bid in blocks && blocks[bid].bid == bid && Payload(blocks, spool, bid) == PayloadOf(spool, blocks[bid])
    ensures Payload(blocks, spool, bid).Ok?
  {
    hide HoldsExtended;
  }

  /** readNodeData: the payloads of the leaves in order. The writer's levels 1 and 2 both recurse. */
  method ReadNodeData(n: NDB, bid: nat, ghost depth: nat) returns (r: Result<(seq<seq<byte>>, nat)>)
    requires Expands(n.blocks, n.store.spool, bid, depth) && StripDistinct(n.blocks)
    ensures r.Ok? && Concat(r.value.0) == LeafBytes(n.blocks, n.store.spool, Under(n.blocks, n.store.spool, bid, depth))
    ensures r.value.1 == |Concat(r.value.0)|
    decreases depth, 0
  {
    hide Expands, XBlockOk, LeafBytes, Under, UnderAll;
    ExpandsLive(n.blocks, n.store.spool, bid, depth);
    var info := LookupBlock(n, bid);
    if info.Err? {
      return Err(InvalidArg);
    }
    var data := n.BlockPayload(info.value);
    if data.Err? {
      return Err(InvariantBroken);
    }
    hide StripDistinct, Payload;
    if IsInternal(bid) {
      ExpandsNode(n.blocks, n.store.spool, bid, depth);
      if !data.value.Extended? {
        return Err(InvalidArg);
      }
      r := ReadChildren(n, data.value.bids, depth - 1);
      return;
    }
    ExpandsLeaf(n.blocks, n.store.spool, bid, depth);
    assert [data.value.bytes][..0] == [];
    assert Concat([data.value.bytes]) == data.value.bytes;
    return Ok(([data.value.bytes], |data.value.bytes|));
  }

  method ReadChildren(n: NDB, bids: seq<nat>, ghost depth: nat) returns (r: Result<(seq<seq<byte>>, nat)>)
    requires StripDistinct(n.blocks) && forall c | c in bids :: Expands(n.blocks, n.store.spool, c, depth)
    ensures r.Ok? &&
      Concat(r.value.0) == LeafBytes(n.blocks, n.store.spool, UnderAll(n.blocks, n.store.spool, bids, depth))
    ensures r.value.1 == |Concat(r.value.0)|
    decreases depth, 1
  {
    var out: seq<seq<byte>> := [];
    var size := 0;
    for i := 0 to |bids|
      invariant Concat(out) == LeafBytes(n.blocks, n.store.spool, UnderAll(n.blocks, n.store.spool, bids[..i], depth))
      invariant size == |Concat(out)|
    {
      hide Expands, StripDistinct;
      var child := ReadNodeData(n, bids[i], depth);
      assert bids[..i + 1][..i] == bids[..i];
      LeafBytesAppend(n.blocks, n.store.spool, UnderAll(n.blocks, n.store.spool, bids[..i], depth),
                      Under(n.blocks, n.store.spool, bids[i], depth));
      ConcatAppend(out, child.value.0);
      out := out + child.value.0;
      size := size + child.value.1;
    }
    assert bids[..|bids|] == bids;
    return Ok((out, size));
  }

  function Depth(blocks: Catalogue, spool: Spool, root: nat): nat {
    if !IsInternal(root) then 0 else if IsXX(blocks, spool, root) then 2 else 1
  }

  lemma {:induction false} UnderLeaves(blocks: Catalogue, spool: Spool, bids: seq<nat>)
    ensures UnderAll(blocks, spool, bids, 0) == bids
  {
    if bids != [] {
      UnderLeaves(blocks, spool, bids[..|bids| - 1]);
    }
  }

  lemma {:induction false} UnderMids(blocks: Catalogue, spool: Spool, mids: seq<nat>)
    ensures UnderAll(blocks, spool, mids, 1) == FlatMids(blocks, spool, mids)
  {
    if mids != [] {
      var last := mids[|mids| - 1];
      UnderMids(blocks, spool, mids[..|mids| - 1]);
      UnderLeaves(blocks, spool, Bids(blocks, spool, last));
      FlatAppend(blocks, spool, mids[..|mids| - 1], last);
      assert mids == mids[..|mids| - 1] + [last];
    }
  }

  lemma {:induction false} InFlat(blocks: Catalogue, spool: Spool, mids: seq<nat>, m: nat, b: nat)
    requires m in mids && b in Bids(blocks, spool, m)
    ensures b in FlatMids(blocks, spool, mids)
  {
    if m != mids[0] {
      InFlat(blocks, spool, mids[1..], m, b);
    }
  }

  /** The reader's recursion and the writer's walker agree on every tree the writer accepts as readable. */
  lemma ReaderAgrees(blocks: Catalogue, spool: Spool, root: nat)
    requires root != 0 && ReadableTree(blocks, spool, root)
    requires forall b | b in blocks :: blocks[b].bid == b
    ensures Expands(blocks, spool, root, Depth(blocks, spool, root))
    ensures Under(blocks, spool, root, Depth(blocks, spool, root)) == Leaves(blocks, spool, root)
  {
    hide XBlockOk;
    var d := Depth(blocks, spool, root);
    if d == 0 {
      assert root in Leaves(blocks, spool, root);
      assert ReadableBlock(blocks, spool, root);
    } else if d == 1 {
      var bids := Bids(blocks, spool, root);
      assert Leaves(blocks, spool, root) == bids + [];
      UnderLeaves(blocks, spool, bids);
      assert HoldsExtended(blocks, spool, root, 1) by {
        if HoldsExtended(blocks, spool, root, 2) {
          ExtendedLevel(Payload(blocks, spool, root).value);
        }
      }
      forall c | c in bids
        ensures Expands(blocks, spool, c, 0)
      {
        assert c in Leaves(blocks, spool, root);
        assert ReadableBlock(blocks, spool, c);
      }
    } else {
      var mids := Mids(blocks, spool, root);
      UnderMids(blocks, spool, mids);
      forall m | m in mids
        ensures Expands(blocks, spool, m, 1)
      {
        forall c | c in Bids(blocks, spool, m)
          ensures Expands(blocks, spool, c, 0)
        {
          InFlat(blocks, spool, mids, m, c);
          assert c in Leaves(blocks, spool, root);
          assert ReadableBlock(blocks, spool, c);
        }
      }
    }
  }

  // ---------- byte ranges ----------

  /** Start of block `i` in the concatenation. */
  function Start(chunks: seq<seq<byte>>, i: nat): nat
    requires i <= |chunks|
  {
    |Concat(chunks[..i])|
  }

  lemma {:induction false} ConcatSlice(chunks: seq<seq<byte>>, i: nat)
    requires i < |chunks|
    ensures Start(chunks, i + 1) == Start(chunks, i) + |chunks[i]| <= |Concat(chunks)|
    ensures Concat(chunks)[Start(chunks, i)..Start(chunks, i + 1)] == chunks[i]
  {
    assert chunks[..i + 1][..i] == chunks[..i];
    ConcatAppend(chunks[..i + 1], chunks[i + 1..]);
    assert chunks[..i + 1] + chunks[i + 1..] == chunks;
  }

  function Wrap(x: nat): nat {
    x % U64
  }

  /** The bytes [offset, offset+size) of the node, cut at its end. */
  function Slice(data: seq<byte>, offset: nat, size: nat): seq<byte> {
    if offset >= |data| then [] else data[offset..if offset + size > |data| then |data| else offset + size]
  }

  /** Go's make refuses a capacity that is no int: the read's buffer cannot be that large. */
  const MAX_CAPACITY: nat := 0x7FFF_FFFF_FFFF_FFFF

  /** Node.Read, with its 64-bit sums. When offset+size wraps, the clamp is skipped and the buffer's capacity is no int,
      which the code answers with a panic; every other range reads as the matching slice, cut at the end of the node. */
  method NodeRead(chunks: seq<seq<byte>>, dataSize: nat, offset: nat, size: nat) returns (r: Result<seq<byte>>)
    requires dataSize == |Concat(chunks)| <= MAX_CAPACITY && offset < U64 && size < U64
    ensures r.Err? <==> offset < dataSize && offset + size >= U64
    ensures r.Ok? ==> r.value == Slice(Concat(chunks), offset, size)
  {
    hide Concat, Start, Reading;
    if offset >= dataSize {
      return Ok([]);
    }
    var want := size;
    if Wrap(offset + size) > dataSize {
      want := dataSize - offset;
    }
    if want > MAX_CAPACITY {
      return Err(InvalidArg);
    }
    var out: seq<byte> := [];
    var remaining: nat := want;
    var current: nat := 0;
    ghost var end := offset + want;
    ReadingStart(chunks, offset, end);
    SliceIs(Concat(chunks), offset, size, end);
    hide Slice, Wrap;
    for i := 0 to |chunks|
      invariant Reading(chunks, offset, end, i, current, out, remaining)
    {
      var block := chunks[i];
      if current + |block| <= offset {
        ReadingSkip(chunks, offset, end, i, current, out, remaining);
        current := current + |block|;
        continue;
      }
      var from, to := Bounds(|block|, current, offset, remaining);
      ReadingTake(chunks, offset, end, i, current, out, remaining, from, to);
      out := out + block[from..to];
      remaining := remaining - (to - from);
      if remaining == 0 {
        return Ok(out);
      }
      current := current + |block|;
    }
    ReadingEnd(chunks, offset, end, current, out, remaining);
    return Ok(out);
  }

  lemma ReadingStart(chunks: seq<seq<byte>>, offset: nat, end: nat)
    requires offset <= end <= |Concat(chunks)| <= MAX_CAPACITY && offset < |Concat(chunks)|
    ensures Reading(chunks, offset, end, 0, 0, [], end - offset)
  {
    assert chunks[..0] == [];
  }

  lemma ReadingEnd(chunks: seq<seq<byte>>, offset: nat, end: nat, current: nat, out: seq<byte>, remaining: nat)
    requires Reading(chunks, offset, end, |chunks|, current, out, remaining)
    ensures out == Concat(chunks)[offset..end]
  {
    assert chunks[..|chunks|] == chunks;
  }

  /** Where copying from a block of `len` bytes starts and ends. */
  method Bounds(len: nat, current: nat, offset: nat, remaining: nat) returns (from: nat, to: nat)
    ensures from == (if current < offset then offset - current else 0)
    ensures to == if Wrap(from + remaining) < len then Wrap(from + remaining) else len
  {
    from := if current < offset then offset - current else 0;
    to := len;
    if Wrap(from + remaining) < len {
      to := Wrap(from + remaining);
    }
  }

  /** After `i` blocks: not at the offset yet, or everything from the offset on is copied and more is wanted. */
  ghost predicate Reading(chunks: seq<seq<byte>>, offset: nat, end: nat, i: nat, current: nat, out: seq<byte>,
                          remaining: nat) {
    && i <= |chunks| && offset <= end <= |Concat(chunks)| <= MAX_CAPACITY && offset < |Concat(chunks)|
    && current == Start(chunks, i) <= |Concat(chunks)|
    && (if current <= offset then out == [] && remaining == end - offset
        else remaining + current == end && out == Concat(chunks)[offset..current])
  }

  lemma ReadingSkip(chunks: seq<seq<byte>>, offset: nat, end: nat, i: nat, current: nat, out: seq<byte>, remaining: nat)
    requires i < |chunks| && Reading(chunks, offset, end, i, current, out, remaining) && current + |chunks[i]| <= offset
    ensures Reading(chunks, offset, end, i + 1, current + |chunks[i]|, out, remaining)
  {
    ConcatSlice(chunks, i);
    hide Concat, Start;
  }

  /** One block: no 64-bit sum wraps here, and the copy stops at the range's end or the block's. */
  lemma ReadingTake(chunks: seq<seq<byte>>, offset: nat, end: nat, i: nat, current: nat, out: seq<byte>,
                    remaining: nat, from: nat, to: nat)
    requires i < |chunks| && Reading(chunks, offset, end, i, current, out, remaining) && current + |chunks[i]| > offset
    requires from == (if current < offset then offset - current else 0)
    requires to == if Wrap(from + remaining) < |chunks[i]| then Wrap(from + remaining) else |chunks[i]|
    ensures from <= to <= |chunks[i]| && to - from <= remaining
    ensures to - from == remaining ==> out + chunks[i][from..to] == Concat(chunks)[offset..end]
    ensures to - from < remaining ==>
      Reading(chunks, offset, end, i + 1, current + |chunks[i]|, out + chunks[i][from..to], remaining - (to - from))
  {
    ConcatSlice(chunks, i);
    hide Concat, Start;
    assert Wrap(from + remaining) == from + remaining;
    hide Wrap;
    SliceStep(Concat(chunks), offset, current, out, chunks[i], from, to);
  }

  lemma SliceIs(data: seq<byte>, offset: nat, size: nat, end: nat)
    requires offset < |data| && end == if offset + size > |data| then |data| else offset + size
    ensures Slice(data, offset, size) == data[offset..end]
  {
  }

  lemma SliceStep(data: seq<byte>, offset: nat, current: nat, out: seq<byte>, block: seq<byte>, start: nat, end: nat)
    requires current + |block| <= |data| && data[current..current + |block|] == block && start <= end <= |block|
    requires start == if current < offset then offset - current else 0
    requires if current <= offset then out == [] else out == data[offset..current]
    ensures out + block[start..end] == data[offset..current + end]
  {
    forall k | 0 <= k < |block|
      ensures block[k] == data[current + k]
    {
      assert block[k] == data[current..current + |block|][k];
    }
    assert block[start..end] == data[current + start..current + end];
    if current <= offset {
      assert current + start == offset;
    } else {
      assert data[offset..current] + data[current..current + end] == data[offset..current + end];
    }
  }

  /** Every range whose end fits 64 bits reads, and adjacent reads join up to one read of the whole. */
  method FittingRangeReads(chunks: seq<seq<byte>>, offset: nat, size: nat, more: nat) returns (r: seq<byte>)
    requires |Concat(chunks)| <= MAX_CAPACITY && offset + size + more < U64
    ensures r == Slice(Concat(chunks), offset, size + more)
  {
    hide Concat;
    var n := TotalSize(chunks);
    var a := NodeRead(chunks, n, offset, size);
    var b := NodeRead(chunks, n, offset + size, more);
    SlicesJoin(Concat(chunks), offset, size, more);
    return a.value + b.value;
  }

  /** The size readNodeData adds up. */
  method TotalSize(chunks: seq<seq<byte>>) returns (n: nat)
    ensures n == |Concat(chunks)|
  {
    n := 0;
    assert chunks[..0] == [];
    for i := 0 to |chunks|
      invariant n == Start(chunks, i)
    {
      ConcatSlice(chunks, i);
      hide Concat;
      n := n + |chunks[i]|;
    }
    assert chunks[..|chunks|] == chunks;
  }

  lemma SlicesJoin(data: seq<byte>, offset: nat, a: nat, b: nat)
    ensures Slice(data, offset, a) + Slice(data, offset + a, b) == Slice(data, offset, a + b)
  {
  }

  /** The range starts a later block, so no sum inside a block wraps; the allocation fails all the same. */
  method HugeReadFails() returns (r: Result<seq<byte>>)
    ensures r.Err?
  {
    var chunks: seq<seq<byte>> := [[1], [2]];
    var n := TotalSize(chunks);
    assert chunks[..1] == [[1]] && chunks[..1][..0] == [];
    assert Concat(chunks) == [] + [1] + [2];
    r := NodeRead(chunks, n, 1, U64 - 1);
  }
}
