// Block-wise transfer (RFC 7959 section 2).
module BlockTransfer {
  import opened Common
  import opened SortedList

  // The receiver's reassembly (wakaama/coap/block.c), and the sender's slicing
  // of a payload (wakaama/core/packet.c, wakaama/coap/transaction.c).

  // ----- Reassembly ---------------------------------------------------------

  // A Block1 transfer is named by its URI, a Block2 transfer by the message id
  // expected next.
  datatype Identifier = Path(uri: string) | Expected(mid: uint16)

  datatype Block = Block(id: Identifier, buffer: seq<byte>, num: nat)

  datatype Code = Continue | NoError | Retransmission | Incomplete

  datatype Outcome = Outcome(code: Code, complete: Option<seq<byte>>)

  function FindBlock(blocks: seq<Block>, id: Identifier): (i: nat)
    ensures i <= |blocks|
    ensures forall j :: 0 <= j < i ==> blocks[j].id != id
    ensures i < |blocks| ==> blocks[i].id == id
  {
    if blocks == [] || blocks[0].id == id then 0
    else
      assert forall j :: 0 < j < |blocks| ==> blocks[j] == blocks[1..][j - 1];
      1 + FindBlock(blocks[1..], id)
  }

  function Answer(more: bool, buffer: seq<byte>): Outcome {
    if more then Outcome(Continue, None) else Outcome(NoError, Some(buffer))
  }

  // prv_coap_block_handler. A block that skips ahead is answered like an
  // accepted one but not stored.
  function Handle(blocks: seq<Block>, id: Identifier, data: seq<byte>, size: nat, num: nat, more: bool)
    : (seq<Block>, Outcome)
  {
    var i := FindBlock(blocks, id);
    if num == 0 then
      var b := Block(id, data, 0);
      (if i == |blocks| then [b] + blocks else blocks[i := b], Answer(more, data))
    else if i == |blocks| then
      (blocks, Outcome(Incomplete, None))
    else if num <= blocks[i].num then
      (blocks, Outcome(Retransmission, None))
    else if num == blocks[i].num + 1 then
      if |blocks[i].buffer| != size * num then (blocks, Outcome(Incomplete, None))
      else
        var buffer := blocks[i].buffer + data;
        (blocks[i := Block(id, buffer, num)], Answer(more, buffer))
    else
      (blocks, Answer(more, blocks[i].buffer))
  }

  // What is on record for a transfer.
  function Record(blocks: seq<Block>, id: Identifier): Option<Block> {
    var i := FindBlock(blocks, id);
    if i < |blocks| then Some(blocks[i]) else None
  }

  lemma {:induction false} FindAfterUpdate(blocks: seq<Block>, id: Identifier, i: nat, b: Block)
    requires i < |blocks| && b.id == blocks[i].id
    ensures FindBlock(blocks[i := b], id) == FindBlock(blocks, id)
  {
    var j, k := FindBlock(blocks, id), FindBlock(blocks[i := b], id);
    assert forall m :: 0 <= m < |blocks| ==> blocks[i := b][m].id == blocks[m].id;
  }

  // A block is recorded under its own identifier and disturbs no other transfer.
  lemma HandleFrame(blocks: seq<Block>, id: Identifier, data: seq<byte>, size: nat, num: nat, more: bool,
                    other: Identifier)
    requires other != id
    ensures Record(Handle(blocks, id, data, size, num, more).0, other) == Record(blocks, other)
  {
    var i := FindBlock(blocks, id);
    if i < |blocks| {
      FindAfterUpdate(blocks, other, i, Block(id, data, 0));
      FindAfterUpdate(blocks, other, i, Block(id, blocks[i].buffer + data, num));
    } else {
      var b := Block(id, data, 0);
      assert ([b] + blocks)[1..] == blocks;
    }
  }

  // The record after a block: only block 0 and the block next in line change it.
  lemma HandleRecord(blocks: seq<Block>, id: Identifier, data: seq<byte>, size: nat, num: nat, more: bool)
    ensures Record(Handle(blocks, id, data, size, num, more).0, id) ==
            (match Record(blocks, id)
             case None => if num == 0 then Some(Block(id, data, 0)) else None
             case Some(b) =>
               if num == 0 then Some(Block(id, data, 0))
               else if num == b.num + 1 && |b.buffer| == size * num then Some(Block(id, b.buffer + data, num))
               else Some(b))
  {
    var i := FindBlock(blocks, id);
    if i < |blocks| {
      FindAfterUpdate(blocks, id, i, Block(id, data, 0));
      FindAfterUpdate(blocks, id, i, Block(id, blocks[i].buffer + data, num));
    }
  }

  // ----- The answers --------------------------------------------------------

  // What the receiver answers, by what it has on record: a block past the first
  // without a record, or after one of the wrong length, is incomplete (4.08).
  lemma AnswerIs(blocks: seq<Block>, id: Identifier, data: seq<byte>, size: nat, num: nat, more: bool)
    ensures var (after, out) := Handle(blocks, id, data, size, num, more); var had := Record(blocks, id);
            && (out.code == Incomplete <==>
                  num > 0 && (had == None || (num == had.value.num + 1 && |had.value.buffer| != size * num)))
            && (out.code == Retransmission <==> num > 0 && had.Some? && num <= had.value.num)
            && (out.code == Incomplete || out.code == Retransmission ==> after == blocks && out.complete == None)
            && (out.code == Continue ==> more && out.complete == None)
            && (out.code == NoError ==> !more && Record(after, id).Some? &&
                                        out.complete == Some(Record(after, id).value.buffer))
  {
    HandleRecord(blocks, id, data, size, num, more);
  }

  class BlockData {
    var id: Identifier
    var blockBuffer: seq<byte>
    var blockNum: nat

    constructor (id: Identifier)
      ensures this.id == id && fresh(this)
    {
      this.id := id;
      blockBuffer, blockNum := [], 0;
    }

    function Value(): Block
      reads this
    {
      Block(id, blockBuffer, blockNum)
    }
  }

  // The block data of one peer.
  class Peer {
    var blockData: seq<BlockData>

    constructor ()
      ensures Valid() && Blocks() == []
    {
      blockData := [];
    }

    ghost predicate Valid()
      reads this
    {
      forall i, j :: 0 <= i < j < |blockData| ==> blockData[i] != blockData[j]
    }

    function Blocks(): (r: seq<Block>)
      reads this, blockData
      ensures |r| == |blockData|
      ensures forall i :: 0 <= i < |r| ==> r[i] == blockData[i].Value()
    {
      seq(|blockData|, i requires 0 <= i < |blockData| reads this, blockData => blockData[i].Value())
    }

    // find_block_data
    method Find(id: Identifier) returns (i: nat)
      ensures i == FindBlock(Blocks(), id)
    {
      i := 0;
      while i < |blockData| && blockData[i].id != id
        invariant i <= |blockData|
        invariant forall j :: 0 <= j < i ==> Blocks()[j].id != id
      {
        i := i + 1;
      }
    }

    lemma UpdatedInPlace(i: nat, before: seq<Block>)
      requires Valid() && i < |blockData| == |before|
      requires forall j :: 0 <= j < |before| && j != i ==> before[j] == blockData[j].Value()
      ensures Blocks() == before[i := blockData[i].Value()]
    {
    }

    // prv_block_insert
    method Insert(id: Identifier, data: seq<byte>) returns (entry: BlockData)
      requires Valid()
      modifies this
      ensures Valid() && entry in blockData && entry.blockBuffer == data
      ensures Blocks() == [Block(id, data, 0)] + old(Blocks())
    {
      entry := new BlockData(id);
      entry.blockBuffer, entry.blockNum := data, 0;
      ghost var before := Blocks();
      blockData := [entry] + blockData;
      assert Blocks() == [Block(id, data, 0)] + before;
    }

    // The branch for block 0: a new entry at the head, or a cleared one.
    method StartTransfer(id: Identifier, data: seq<byte>) returns (entry: BlockData)
      requires Valid()
      modifies this, blockData
      ensures Valid() && entry in blockData && entry.blockBuffer == data
      ensures Blocks() == Handle(old(Blocks()), id, data, 0, 0, true).0
    {
      ghost var before := Blocks();
      var i := Find(id);
      if i == |blockData| {
        entry := Insert(id, data);
      } else {
        entry := blockData[i];
        entry.blockBuffer, entry.blockNum := data, 0;
        UpdatedInPlace(i, before);
      }
    }

    // prv_coap_block_handler
    method HandleBlock(id: Identifier, data: seq<byte>, size: nat, num: nat, more: bool) returns (out: Outcome)
      requires Valid()
      modifies this, blockData
      ensures Valid()
      ensures (Blocks(), out) == Handle(old(Blocks()), id, data, size, num, more)
    {
      var entry: BlockData;
      if num == 0 {
        entry := StartTransfer(id, data);
      } else {
        var i := Find(id);
        if i == |blockData| {
          return Outcome(Incomplete, None);
        }
        entry := blockData[i];
        if num <= entry.blockNum {
          return Outcome(Retransmission, None);
        }
        if num == entry.blockNum + 1 {
          if |entry.blockBuffer| != size * num {
            return Outcome(Incomplete, None);
          }
          ghost var before := Blocks();
          entry.blockBuffer := entry.blockBuffer + data;
          entry.blockNum := num;
          UpdatedInPlace(i, before);
        }
      }
      if more {
        return Outcome(Continue, None);
      }
      return Outcome(NoError, Some(entry.blockBuffer));
    }

    lemma Distinct(rest: seq<BlockData>, i: nat)
      requires Valid() && i < |blockData| && rest == blockData[..i] + blockData[i + 1..]
      ensures forall j, k :: 0 <= j < k < |rest| ==> rest[j] != rest[k]
    {
      assert forall j :: 0 <= j < |rest| ==> rest[j] == blockData[if j < i then j else j + 1];
    }

    // prv_block_data_delete: the first entry with the identifier goes.
    method Delete(id: Identifier)
      requires Valid()
      modifies this`blockData
      ensures Valid()
      ensures var b, i := old(Blocks()), FindBlock(old(Blocks()), id);
              Blocks() == if i < |b| then b[..i] + b[i + 1..] else b
    {
      var i := Find(id);
      if i < |blockData| {
        ghost var before := Blocks();
        Distinct(blockData[..i] + blockData[i + 1..], i);
        blockData := blockData[..i] + blockData[i + 1..];
        assert Blocks() == before[..i] + before[i + 1..];
      }
    }

    // coap_block2_set_expected_mid
    method SetExpectedMid(current: uint16, expected: uint16)
      requires Valid()
      modifies blockData
      ensures Valid()
      ensures var b, i := old(Blocks()), FindBlock(old(Blocks()), Expected(current));
              Blocks() == if i < |b| then b[i := b[i].(id := Expected(expected))] else b
    {
      ghost var before := Blocks();
      var i := Find(Expected(current));
      if i < |blockData| {
        blockData[i].id := Expected(expected);
        UpdatedInPlace(i, before);
      }
    }
  }

  // ----- Slicing ------------------------------------------------------------

  // The payload part and Block1 option of one request.
  datatype Slice = Slice(num: nat, more: bool, size: nat, data: seq<byte>)

  function Offset(s: Slice): nat { s.num * s.size }

  // prv_send_new_block1, for a block that is not past the end.
  function SliceAt(payload: seq<byte>, num: nat, size: nat): Slice
    requires num * size <= |payload|
  {
    var rest := payload[num * size..];
    Slice(num, |rest| > size, size, rest[..Min(size, |rest|)])
  }

  // The guard of prv_send_new_block1.
  function SendNew(payload: seq<byte>, num: nat, size: nat): Option<Slice> {
    if num * size >= |payload| then None else Some(SliceAt(payload, num, size))
  }

  // prv_send_next_block1: the size the peer asks for, unless it is zero or
  // larger than the one in use.
  function NextSize(last: Slice, asked: nat): nat {
    if asked > last.size || asked == 0 then last.size else asked
  }

  function NextNum(last: Slice, asked: nat): nat
    requires last.size > 0
  {
    if last.num == 0 then last.size / NextSize(last, asked) else last.num + 1
  }

  function SendNext(payload: seq<byte>, last: Slice, asked: nat): Option<Slice>
    requires last.size > 0
  {
    SendNew(payload, NextNum(last, asked), NextSize(last, asked))
  }

  // The slices sent from block `num` on while the peer keeps the size.
  function SlicesFrom(payload: seq<byte>, num: nat, size: nat): seq<Slice>
    requires size > 0
    decreases |payload| - num * size
  {
    match SendNew(payload, num, size)
    case None => []
    case Some(s) =>
      assert (num + 1) * size == num * size + size;
      [s] + SlicesFrom(payload, num + 1, size)
  }

  // A transfer whose first answer asks for `asked` and whose later answers keep
  // the size then in force.
  function Transfer(payload: seq<byte>, size: nat, asked: nat): seq<Slice>
    requires size > 0
  {
    match SendNew(payload, 0, size)
    case None => []
    case Some(first) =>
      var next := NextSize(first, asked);
      [first] + SlicesFrom(payload, NextNum(first, asked), next)
  }

  function Joined(slices: seq<Slice>): seq<byte> {
    if slices == [] then [] else slices[0].data + Joined(slices[1..])
  }

  // Each slice starts where the previous one ended, and announces more to come
  // exactly when it is not the last.
  ghost predicate Partition(slices: seq<Slice>, start: nat, total: nat) {
    if slices == [] then start >= total
    else
      && Offset(slices[0]) == start
      && (slices[0].more <==> |slices| > 1)
      && Partition(slices[1..], start + |slices[0].data|, total)
  }

  lemma SliceThere(payload: seq<byte>, num: nat, size: nat)
    requires size > 0 && num * size < |payload|
    ensures (num + 1) * size == num * size + size
    ensures var s, next := SliceAt(payload, num, size), Min((num + 1) * size, |payload|);
            && Offset(s) == num * size && num * size + |s.data| == next
            && (s.more <==> (num + 1) * size < |payload|)
            && s.data + payload[next..] == payload[num * size..]
  {
    assert (num + 1) * size == num * size + size;
  }

  // The slices cover the payload from a position on.
  ghost predicate Covers(slices: seq<Slice>, payload: seq<byte>, start: nat) {
    && Partition(slices, start, |payload|) && Joined(slices) == payload[Min(start, |payload|)..]
    && (slices == [] <==> start >= |payload|)
  }

  lemma NothingLeft(payload: seq<byte>, start: nat)
    requires start >= |payload|
    ensures Covers([], payload, start)
  {
  }

  lemma OneSliceMore(payload: seq<byte>, num: nat, size: nat, rest: seq<Slice>)
    requires size > 0 && num * size < |payload| && Covers(rest, payload, (num + 1) * size)
    ensures Covers([SliceAt(payload, num, size)] + rest, payload, num * size)
  {
    SliceThere(payload, num, size);
    assert ([SliceAt(payload, num, size)] + rest)[1..] == rest;
  }

  lemma NextSlice(payload: seq<byte>, num: nat, size: nat)
    requires size > 0
    ensures SlicesFrom(payload, num, size) ==
            if num * size < |payload| then [SliceAt(payload, num, size)] + SlicesFrom(payload, num + 1, size) else []
  {
  }

  lemma {:induction false} SlicesCover(payload: seq<byte>, num: nat, size: nat)
    requires size > 0
    ensures Covers(SlicesFrom(payload, num, size), payload, num * size)
    decreases |payload| - num * size
  {
    NextSlice(payload, num, size);
    if num * size < |payload| {
      assert (num + 1) * size == num * size + size;
      SlicesCover(payload, num + 1, size);
      OneSliceMore(payload, num, size, SlicesFrom(payload, num + 1, size));
    } else {
      NothingLeft(payload, num * size);
    }
  }

  lemma NextOffset(last: Slice, asked: nat)
    requires last.size > 0 && last.num == 0 && last.size % NextSize(last, asked) == 0
    ensures NextNum(last, asked) * NextSize(last, asked) == last.size
  {
  }

  // The peer may shrink the block size in its answer to block 0, to any divisor
  // of the size in use: the slices still cover the payload, each byte once and
  // in order, and only the last is marked as such.
  lemma TransferPartition(payload: seq<byte>, size: nat, asked: nat)
    requires 0 < size < |payload|
    requires size % (if asked > size || asked == 0 then size else asked) == 0
    ensures Partition(Transfer(payload, size, asked), 0, |payload|)
    ensures Joined(Transfer(payload, size, asked)) == payload
  {
    var first := SliceAt(payload, 0, size);
    var next := NextSize(first, asked);
    var num := NextNum(first, asked);
    NextOffset(first, asked);
    SlicesCover(payload, num, next);
    var t := Transfer(payload, size, asked);
    assert t[1..] == SlicesFrom(payload, num, next);
    assert first.data == payload[..size] && payload == payload[..size] + payload[size..];
  }

  // ----- The size the peer asks for -----------------------------------------

  lemma SliceIs(payload: seq<byte>, num: nat, size: nat, at: nat)
    requires at == num * size && at < |payload|
    ensures SliceAt(payload, num, size) ==
            Slice(num, at + size < |payload|, size, payload[at..Min(at + size, |payload|)])
  {
  }

  // One block more, after block `last`: in the size asked for unless that is
  // zero or larger than the one in use, and at the place where it belongs.
  lemma NextIsAsAsked(payload: seq<byte>, last: Slice, asked: nat)
    requires last.size > 0
    ensures var size := if 0 < asked <= last.size then asked else last.size;
            var num := if last.num == 0 then last.size / size else last.num + 1;
            var at := num * size;
            SendNext(payload, last, asked) ==
            if at < |payload| then Some(Slice(num, at + size < |payload|, size, payload[at..Min(at + size, |payload|)]))
            else None
  {
    var size := if 0 < asked <= last.size then asked else last.size;
    var num := if last.num == 0 then last.size / size else last.num + 1;
    assert NextSize(last, asked) == size && NextNum(last, asked) == num;
    if num * size < |payload| { SliceIs(payload, num, size, num * size); }
  }

  ghost predicate AllOfSize(slices: seq<Slice>, size: nat) {
    forall i :: 0 <= i < |slices| ==> slices[i].size == size && 0 < |slices[i].data| <= size
  }

  lemma {:induction false} SlicesOfSize(payload: seq<byte>, num: nat, size: nat)
    requires size > 0
    ensures AllOfSize(SlicesFrom(payload, num, size), size)
    ensures forall i :: 0 <= i < |SlicesFrom(payload, num, size)| ==> SlicesFrom(payload, num, size)[i].num == num + i
    decreases |payload| - num * size
  {
    NextSlice(payload, num, size);
    if num * size < |payload| {
      assert (num + 1) * size == num * size + size;
      SlicesOfSize(payload, num + 1, size);
    }
  }

  // A smaller size asked for in the answer to block 0 is used from the next
  // block on; without such a request every block keeps the size.
  lemma AskedSizeIsUsed(payload: seq<byte>, size: nat, asked: nat)
    requires 0 < size < |payload|
    ensures var t := Transfer(payload, size, asked);
            && t != [] && t[0].size == size && |t[0].data| == size && t[0].num == 0
            && (0 < asked <= size ==> AllOfSize(t[1..], asked))
            && (asked == 0 || asked > size ==> AllOfSize(t, size))
  {
    var first := SliceAt(payload, 0, size);
    var next := if 0 < asked <= size then asked else size;
    SlicesOfSize(payload, size / next, next);
    assert Transfer(payload, size, asked) == [first] + SlicesFrom(payload, size / next, next);
  }

  // After a full slice the next one starts exactly where it ended if and only
  // if the size is kept, or block 0 is followed by a divisor of its size.
  // Any later change of size repeats part of the payload.
  lemma ContiguousIff(payload: seq<byte>, num: nat, size: nat, asked: nat)
    requires 0 < size && num * size + size < |payload|
    ensures var last := SliceAt(payload, num, size);
            var next := NextSize(last, asked);
            && last.more
            && (NextNum(last, asked) * next == num * size + |last.data| <==>
                next == size || (num == 0 && size % next == 0))
    ensures var last := SliceAt(payload, num, size);
            NextNum(last, asked) * NextSize(last, asked) <= num * size + |last.data|
  {
    var last := SliceAt(payload, num, size);
    var next := NextSize(last, asked);
    assert |last.data| == size;
    if num == 0 {
      assert size == (size / next) * next + size % next;
    } else {
      assert (num + 1) * size == num * size + size;
      if next < size { Scale(num + 1, next, size); }
    }
  }

  lemma Scale(k: nat, a: nat, b: nat)
    requires k > 0 && a < b
    ensures k * a < k * b
  {
  }
}
