/** Block identifiers (bid.go), catalog entries (btree.go) and the typed payloads of blocks. */
module Blocks {
  import opened Common

  const FIRST_ALLOC_BID: nat := 4
  const U64: nat := 0x1_0000_0000_0000_0000
  const U32: nat := 0x1_0000_0000
  const U16: nat := 0x1_0000
  const MAX_XBLOCK_ENTRIES: nat := 1021
  const MAX_SL_ENTRIES: nat := 340
  const MAX_SI_ENTRIES: nat := 510

  predicate IsInternal(bid: nat) {
    bid / 2 % 2 == 1
  }

  predicate HasReserved(bid: nat) {
    bid % 2 == 1
  }

  function MakeInternal(bid: nat): nat {
    bid - bid % 4 + 2
  }

  /** `bid` with the internal bit cleared, as the package reader looks it up. */
  function Strip(bid: nat): nat {
    if IsInternal(bid) then bid - 2 else bid
  }

  /** takeMonotonic: the value handed out and the advanced 64-bit counter. */
  function TakeMonotonic(next: nat, inc: nat): (r: Result<(nat, nat)>)
    ensures r.Ok? <==> next != 0 && (inc == 0 || next + inc < U64)
    ensures r.Ok? ==> r.value == (next, next + inc)
  {
    if next == 0 then Err(LimitExceeded)
    else if inc > 0 && next > U64 - 1 - inc then Err(LimitExceeded)
    else Ok((next, next + inc))
  }

  datatype BREF = BREF(bid: nat, ib: nat)

  datatype NBTEntry = NBTEntry(nid: nat, data: nat, sub: nat, parent: nat)

  datatype BBTEntry = BBTEntry(bid: nat, ib: nat, cb: nat, refs: nat)

  datatype SLEntry = SLEntry(nid: nat, data: nat, sub: nat)

  datatype SIEntry = SIEntry(key: nat, ref: nat)

  datatype Body =
    | Data(bytes: seq<byte>)
    | Extended(level: nat, total: nat, bids: seq<nat>)
    | SubLeaf(entries: seq<SLEntry>)
    | SubIndex(kids: seq<SIEntry>)
  {
    /** Encoded payload length. */
    function CB(): nat {
      match this
      case Data(bytes) => |bytes|
      case Extended(_, _, bids) => 8 + 8 * |bids|
      case SubLeaf(entries) => 8 + 24 * |entries|
      case SubIndex(kids) => 8 + 16 * |kids|
    }
  }

  /** MS-PST 2.2.2.8.3: an extended or subnode block is a type, a level and a 2-byte count, four more bytes, and then
      its entries, of one, three and two 8-byte fields. */
  lemma EncodedSizes(level: nat, total: nat, bids: seq<nat>, entries: seq<SLEntry>, kids: seq<SIEntry>)
    ensures Extended(level, total, bids).CB() == (1 + 1 + 2) + 4 + 8 * |bids|
    ensures SubLeaf(entries).CB() == (1 + 1 + 2) + 4 + (8 + 8 + 8) * |entries|
    ensures SubIndex(kids).CB() == (1 + 1 + 2) + 4 + (8 + 8) * |kids|
  {
  }

  /** What the spool holds at the start of an extent: the block trailer's BID and the payload. */
  datatype Stored = Stored(bid: nat, body: Body)

  datatype Kind = DataTree | Subnode

  datatype Ref = Ref(kind: Kind, bid: nat)

  function LeafRefs(e: SLEntry): seq<Ref> {
    (if e.data != 0 then [Ref(Subnode, e.data)] else []) + (if e.sub != 0 then [Ref(Subnode, e.sub)] else [])
  }

  function AllLeafRefs(entries: seq<SLEntry>): seq<Ref> {
    if entries == [] then [] else AllLeafRefs(entries[..|entries| - 1]) + LeafRefs(entries[|entries| - 1])
  }

  /** The references a payload holds on other blocks, in order (treeChildRefs). */
  function Kids(body: Body): seq<Ref> {
    match body
    case Data(_) => []
    case Extended(_, _, bids) => seq(|bids|, i requires 0 <= i < |bids| => Ref(DataTree, bids[i]))
    case SubLeaf(entries) => AllLeafRefs(entries)
    case SubIndex(kids) => seq(|kids|, i requires 0 <= i < |kids| => Ref(Subnode, kids[i].ref))
  }

  /** Block BIDs taken from one counter stay distinct and ordered once the internal bit is cleared. */
  lemma StripOrders(a: nat, b: nat)
    requires Strip(a) % 4 == 0 && Strip(b) % 4 == 0
    ensures a < b && Strip(a) != Strip(b) ==> Strip(a) < Strip(b)
    ensures Strip(a) < Strip(b) ==> a < b
    ensures Strip(a) == Strip(b) && IsInternal(a) == IsInternal(b) ==> a == b
  {
  }
}
