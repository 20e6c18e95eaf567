// The client side of a Block1 upload: each acknowledged block is replaced in
// the transaction list by the next one (wakaama/core/packet.c).
module BlockSender {
  import opened Common
  import opened SortedList
  import opened BlockTransfer

  // A listed block transaction: the whole payload travels with every block.
  datatype Pending = Pending(mid: uint16, peer: nat, payload: seq<byte>, slice: Slice)

  function PendingMid(t: Pending): int { t.mid }

  ghost predicate SizesPositive(list: seq<Pending>) {
    forall i :: 0 <= i < |list| ==> list[i].slice.size > 0
  }

  function Lookup(list: seq<Pending>, peer: nat, mid: uint16): (i: nat)
    ensures i <= |list|
    ensures forall j :: 0 <= j < i ==> !(list[j].peer == peer && list[j].mid == mid)
    ensures i < |list| ==> list[i].peer == peer && list[i].mid == mid
  {
    if list == [] || (list[0].peer == peer && list[0].mid == mid) then 0
    else
      assert forall j :: 0 < j < |list| ==> list[j] == list[1..][j - 1];
      1 + Lookup(list[1..], peer, mid)
  }

  class Uploader {
    var nextMID: uint16
    var transactionList: seq<Pending>
    // The requests handed to transaction_send, which transmits them once at once.
    var transmitted: seq<Pending>

    constructor (firstMID: uint16)
      ensures nextMID == firstMID && transactionList == [] && transmitted == []
    {
      nextMID, transactionList, transmitted := firstMID, [], [];
    }

    // The request `next` was given the message id, and is listed and transmitted
    // once, or gone again.
    ghost predicate Sent(next: Pending, encodable: bool, sent: Option<Pending>,
                         mid: uint16, list: seq<Pending>, wire: seq<Pending>)
      reads this
    {
      && nextMID == (mid + 1) % 0x1_0000
      && if encodable then
           sent == Some(next) && transactionList == Add(list, PendingMid, next) && transmitted == wire + [next]
         else
           sent == None && transactionList == Remove(Add(list, PendingMid, next), PendingMid, mid) && transmitted == wire
    }

    // prv_get_transaction
    method GetTransaction(peer: nat, mid: uint16) returns (found: Option<Pending>)
      ensures var i := Lookup(transactionList, peer, mid);
              found == if i < |transactionList| then Some(transactionList[i]) else None
    {
      var i := 0;
      while i < |transactionList| && !(transactionList[i].peer == peer && transactionList[i].mid == mid)
        invariant i <= Lookup(transactionList, peer, mid)
      {
        i := i + 1;
      }
      return if i < |transactionList| then Some(transactionList[i]) else None;
    }

    // prv_send_new_block1. A message that cannot be serialized leaves the list
    // again, by its message id.
    method SendNewBlock1(previous: Pending, num: nat, size: nat, encodable: bool) returns (sent: Option<Pending>)
      modifies this
      ensures (match SendNew(previous.payload, num, size)
               case None =>
                 sent == None && unchanged(this)
               case Some(slice) =>
                 Sent(previous.(mid := old(nextMID), slice := slice), encodable, sent,
                      old(nextMID), old(transactionList), old(transmitted)))
    {
      if num * size >= |previous.payload| {
        return None;
      }
      var mid := nextMID;
      nextMID := (nextMID + 1) % 0x1_0000;
      var remaining := |previous.payload| - num * size;
      var more := remaining > size;
      var data := previous.payload[num * size..num * size + Min(size, remaining)];
      assert data == SliceAt(previous.payload, num, size).data;
      var next := Pending(mid, previous.peer, previous.payload, Slice(num, more, size, data));
      transactionList := Add(transactionList, PendingMid, next);
      if !encodable {
        transactionList := Remove(transactionList, PendingMid, mid);
        return None;
      }
      transmitted := transmitted + [next];
      return Some(next);
    }

    // prv_send_next_block1
    method SendNextBlock1(peer: nat, mid: uint16, asked: nat, encodable: bool) returns (sent: Option<Pending>)
      requires SizesPositive(transactionList)
      modifies this
      ensures (var i := Lookup(old(transactionList), peer, mid);
               if i == |old(transactionList)| then
                 sent == None && unchanged(this)
               else
                 var last := old(transactionList)[i];
                 match SendNext(last.payload, last.slice, asked)
                 case None =>
                   sent == None && unchanged(this)
                 case Some(slice) =>
                   Sent(last.(mid := old(nextMID), slice := slice), encodable, sent,
                        old(nextMID), old(transactionList), old(transmitted)))
    {
      var transaction := GetTransaction(peer, mid);
      if transaction == None {
        return None;
      }
      var last := transaction.value.slice;
      var size := asked;
      if size > last.size || size == 0 {
        size := last.size;
      }
      var num;
      if last.num == 0 {
        num := last.size / size;
      } else {
        num := last.num + 1;
      }
      sent := SendNewBlock1(transaction.value, num, size, encodable);
    }
  }
}
