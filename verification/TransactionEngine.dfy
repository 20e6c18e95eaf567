// The transaction code as written: objects updated in place, a list walked
// while entries leave it. Every method is tied to its description in module
// Transactions.
module TransactionEngine {
  import opened Common
  import opened SortedList
  import opened Transactions

  class Transaction {
    const x: Exchange
    var ackReceived: bool
    var retransCounter: nat
    var retransTime: int

    // transaction_new
    constructor (x: Exchange)
      ensures this.x == x && Value() == New(x)
    {
      this.x := x;
      ackReceived, retransCounter, retransTime := false, 0, 0;
    }

    function Value(): Txn
      reads this
    {
      Txn(x, ackReceived, retransCounter, retransTime)
    }
  }

  const TransactionMid: Transaction -> int := (t: Transaction) => t.x.mID

  function Values(ts: seq<Transaction>): (r: seq<Txn>)
    reads ts
    ensures |r| == |ts|
    ensures forall i :: 0 <= i < |ts| ==> r[i] == ts[i].Value()
  {
    seq(|ts|, i requires 0 <= i < |ts| reads ts => ts[i].Value())
  }

  lemma SameOrder(ts: seq<Transaction>)
    ensures StrictlySorted(ts, TransactionMid) <==> StrictlySorted(Values(ts), Mid)
  {
    if StrictlySorted(Values(ts), Mid) {
      forall i, j | 0 <= i < j < |ts| ensures TransactionMid(ts[i]) < TransactionMid(ts[j]) {
        assert Mid(Values(ts)[i]) < Mid(Values(ts)[j]);
      }
    }
  }

  lemma {:induction false} SameBelow(ts: seq<Transaction>, id: int)
    ensures Below(ts, TransactionMid, id) == Below(Values(ts), Mid, id)
  {
    if ts != [] {
      assert Values(ts)[1..] == Values(ts[1..]);
      SameBelow(ts[1..], id);
    }
  }

  lemma SameRemove(ts: seq<Transaction>, id: int)
    ensures Values(Remove(ts, TransactionMid, id)) == Remove(Values(ts), Mid, id)
  {
    SameBelow(ts, id);
    var n := Below(ts, TransactionMid, id);
    if n < |ts| {
      ValuesConcat(ts[..n], ts[n + 1..]);
      assert Values(ts)[..n] == Values(ts[..n]) && Values(ts)[n + 1..] == Values(ts[n + 1..]);
    }
  }

  lemma SameAddAt(ts: seq<Transaction>, id: int)
    ensures AddAt(ts, TransactionMid, id) == AddAt(Values(ts), Mid, id)
  {
    if ts != [] {
      assert Values(ts)[1..] == Values(ts[1..]);
      SameBelow(ts[1..], id);
    }
  }

  lemma SameAdd(ts: seq<Transaction>, t: Transaction)
    ensures Values(Add(ts, TransactionMid, t)) == Add(Values(ts), Mid, t.Value())
  {
    var n := AddAt(ts, TransactionMid, t.x.mID);
    SameAddAt(ts, t.x.mID);
    ValuesConcat(ts[..n] + [t], ts[n..]);
    ValuesConcat(ts[..n], [t]);
    assert Values([t]) == [t.Value()];
    assert Values(ts)[..n] == Values(ts[..n]) && Values(ts)[n..] == Values(ts[n..]);
  }

  lemma ValuesConcat(a: seq<Transaction>, b: seq<Transaction>)
    ensures Values(a + b) == Values(a) + Values(b)
  {
  }

  class Context {
    const p: Params
    var transactionList: seq<Transaction>
    var log: seq<Event>

    constructor (p: Params)
      ensures Valid() && this.p == p && Abs() == State([], [])
    {
      this.p := p;
      transactionList, log := [], [];
    }

    ghost predicate Valid()
      reads this
    {
      StrictlySorted(transactionList, TransactionMid)
    }

    function Abs(): State
      reads this, transactionList
    {
      State(Values(transactionList), log)
    }

    lemma AbsOrdered()
      requires Valid()
      ensures Ordered(Abs())
    {
      SameOrder(transactionList);
    }

    // Listed transactions are different objects, as their mIDs differ.
    lemma OthersDiffer(i: nat)
      requires Valid() && i < |transactionList|
      ensures forall j :: 0 <= j < |transactionList| && j != i ==> transactionList[j] != transactionList[i]
    {
      forall j | 0 <= j < |transactionList| && j != i ensures transactionList[j] != transactionList[i] {
        if j < i {
          assert TransactionMid(transactionList[j]) < TransactionMid(transactionList[i]);
        } else {
          assert TransactionMid(transactionList[i]) < TransactionMid(transactionList[j]);
        }
      }
    }

    // LWM2M_LIST_ADD on the transaction list
    method Queue(t: Transaction)
      requires Valid() && !HasKey(transactionList, TransactionMid, t.x.mID)
      modifies this`transactionList
      ensures Valid()
      ensures Abs() == old(Abs()).(list := Add(old(Abs().list), Mid, t.Value()))
      ensures transactionList == Add(old(transactionList), TransactionMid, t)
    {
      AddKeepsOrder(transactionList, TransactionMid, t);
      SameAdd(transactionList, t);
      transactionList := Add(transactionList, TransactionMid, t);
    }

    lemma RemovedOrder(t: Transaction)
      requires Valid() && t in transactionList
      ensures StrictlySorted(Remove(transactionList, TransactionMid, t.x.mID), TransactionMid)
    {
      var i :| 0 <= i < |transactionList| && transactionList[i] == t;
      RemoveTakesOne(transactionList, TransactionMid, i);
    }

    // transaction_remove
    method RemoveTransaction(t: Transaction)
      requires Valid() && t in transactionList
      modifies this
      ensures Valid()
      ensures Abs() == Without(old(Abs()), old(t.Value()))
      ensures transactionList == Remove(old(transactionList), TransactionMid, t.x.mID)
    {
      RemovedOrder(t);
      SameRemove(transactionList, t.x.mID);
      transactionList := Remove(transactionList, TransactionMid, t.x.mID);
      log := log + [Freed(t.x.tag)];
    }

    // transaction_free_userData, for a transaction with user data
    method FreeUserData(t: Transaction, data: nat)
      modifies this`log
      ensures log == old(log) + if DataShared(Values(transactionList), t.Value(), data) then [] else [DataFreed(data)]
    {
      var k := 0;
      while k < |transactionList|
        invariant k <= |transactionList|
        invariant forall j :: 0 <= j < k ==>
          !(transactionList[j].x.tag != t.x.tag && transactionList[j].x.callback == Result(data))
      {
        if transactionList[k].x.callback == Result(data) && transactionList[k].x.tag != t.x.tag {
          ghost var vs := Values(transactionList);
          assert vs[k].x.tag != t.Value().x.tag && vs[k].x.callback == Result(data);
          return;
        }
        k := k + 1;
      }
      log := log + [DataFreed(data)];
    }

    // transacP->callback
    method RunCallback(t: Transaction, reply: Option<Message>)
      modifies this`log
      ensures log == old(log) + CallbackEvents(Values(transactionList), t.Value(), reply)
    {
      match t.x.callback
      case NoCallback =>
      case Plain => log := log + [Called(t.x.tag, reply)];
      case Result(data) =>
        log := log + [Called(t.x.tag, reply)];
        if !GivesUp(reply) {
          FreeUserData(t, data);
        }
    }

    method FinishTransaction(t: Transaction, reply: Option<Message>)
      requires Valid() && t in transactionList
      modifies this
      ensures Valid()
      ensures Abs() == Finish(old(Abs()), old(t.Value()), reply)
      ensures transactionList == Remove(old(transactionList), TransactionMid, t.x.mID)
    {
      RunCallback(t, reply);
      RemoveTransaction(t);
    }

    lemma UpdatedInPlace(i: nat, before: seq<Txn>)
      requires Valid() && i < |transactionList| == |before|
      requires forall j :: 0 <= j < |before| && j != i ==> before[j] == transactionList[j].Value()
      ensures Values(transactionList) == before[i := transactionList[i].Value()]
    {
    }

    // The part of transaction_send that sets the timers and transmits; it
    // answers whether the retries are used up.
    method Transmit(t: Transaction, now: int) returns (maxRetriesReached: bool)
      requires !t.ackReceived
      modifies this`log, t
      ensures maxRetriesReached == GivenUp(p, old(t.Value()))
      ensures t.Value() == if maxRetriesReached then old(t.Value()) else Resent(p, old(t.Value()), now)
      ensures log == old(log) + if maxRetriesReached then [] else [Sent(t.x.tag, now)]
    {
      var timeout := 0;
      if t.retransCounter == 0 {
        t.retransTime := now + p.timeout;
        t.retransCounter := 1;
      } else {
        timeout := p.timeout * Pow2(t.retransCounter - 1);
      }
      if p.maxRetransmit + 1 >= t.retransCounter {
        log := log + [Sent(t.x.tag, now)];
        t.retransTime := t.retransTime + timeout;
        t.retransCounter := t.retransCounter + 1;
        return false;
      }
      return true;
    }

    method TransmitListed(t: Transaction, ghost i: nat, now: int) returns (maxRetriesReached: bool)
      requires Valid() && i < |transactionList| && transactionList[i] == t && !t.ackReceived
      modifies this`log, t
      ensures maxRetriesReached == GivenUp(p, old(t.Value()))
      ensures maxRetriesReached ==> Abs() == old(Abs()) && t.Value() == old(t.Value())
      ensures !maxRetriesReached ==>
                Abs() == State(old(Abs()).list[i := Resent(p, old(t.Value()), now)],
                               old(log) + [Sent(t.x.tag, now)])
    {
      OthersDiffer(i);
      ghost var before := Values(transactionList);
      assert before[i := t.Value()] == before && log + [] == log;
      maxRetriesReached := Transmit(t, now);
      UpdatedInPlace(i, before);
    }

    // transaction_send; the result is 0 while the transaction stays listed.
    method Send(t: Transaction, ghost i: nat, now: int) returns (result: int)
      requires Valid() && i < |transactionList| && transactionList[i] == t
      modifies this, t
      ensures Valid()
      ensures Abs() == SendAt(p, old(Abs()), i, now)
      ensures result == 0 <==> !Leaves(p, old(t.Value()))
      ensures result == 0 ==> transactionList == old(transactionList)
      ensures result != 0 ==> transactionList == Remove(old(transactionList), TransactionMid, t.x.mID)
    {
      if !t.x.encodable {
        RemoveTransaction(t);
        return 0xA0;
      }
      var maxRetriesReached := true;
      if !t.ackReceived {
        maxRetriesReached := TransmitListed(t, i, now);
      }
      if !maxRetriesReached {
        return 0;
      }
      FinishTransaction(t, None);
      return -1;
    }

    // A new transaction is listed under an unused mID and sent at once.
    method Submit(x: Exchange, now: int) returns (t: Transaction, result: int)
      requires Valid() && !HasKey(transactionList, TransactionMid, x.mID)
      modifies this
      ensures Valid() && fresh(t) && t.x == x
      ensures Abs() == Submitted(p, old(Abs()), x, now)
      ensures result == 0 <==> !Leaves(p, New(x))
    {
      t := new Transaction(x);
      ghost var i := AddAt(transactionList, TransactionMid, x.mID);
      SameAddAt(transactionList, x.mID);
      Queue(t);
      result := Send(t, i, now);
    }

    // One round of the loop of transaction_step.
    method StepOne(k: nat, now: int, timeoutIn: int) returns (removed: bool, timeout: int)
      requires Valid() && k < |transactionList|
      modifies this, transactionList[k]
      ensures Valid() && Ordered(Abs())
      ensures removed ==> transactionList == Remove(old(transactionList), TransactionMid, old(transactionList)[k].x.mID)
      ensures removed ==> |transactionList| == |old(transactionList)| - 1
      ensures !removed ==> transactionList == old(transactionList)
      ensures Ordered(old(Abs())) && k < |old(Abs()).list|
      ensures StepFrom(p, Abs(), if removed then k else k + 1, now, timeout) ==
              StepFrom(p, old(Abs()), k, now, timeoutIn)
    {
      var t := transactionList[k];
      AbsOrdered();
      removed := false;
      if t.retransTime <= now {
        SendAtLength(p, Abs(), k, now);
        var result := Send(t, k, now);
        removed := result != 0;
        AbsOrdered();
      }
      if !removed {
        var interval := if t.retransTime > now then t.retransTime - now else 1;
        timeout := Min(timeoutIn, interval);
      } else {
        timeout := 1;
      }
    }

    // transaction_step
    method StepAll(now: int, timeoutIn: int) returns (timeout: int)
      requires Valid()
      modifies this, transactionList
      ensures Valid()
      ensures Ordered(old(Abs())) && (Abs(), timeout) == Step(p, old(Abs()), now, timeoutIn)
    {
      timeout := timeoutIn;
      AbsOrdered();
      ghost var goal := Step(p, Abs(), now, timeout);
      var k := 0;
      while k < |transactionList|
        invariant Valid() && k <= |transactionList|
        invariant forall t :: t in transactionList ==> t in old(transactionList)
        invariant Ordered(Abs())
        invariant StepFrom(p, Abs(), k, now, timeout) == goal
        decreases |transactionList| - k
      {
        assert transactionList[k] in transactionList;
        var removed;
        removed, timeout := StepOne(k, now, timeout);
        if !removed {
          k := k + 1;
        }
      }
    }

    // transaction_handleResponse
    method Response(peer: nat, m: Message, hasResponse: bool, now: int) returns (handled: bool)
      requires Valid()
      modifies this, transactionList
      ensures Valid()
      ensures (Abs(), handled) == HandleResponse(p, old(Abs()), peer, m, hasResponse, now)
    {
      AbsOrdered();
      ghost var before := Values(transactionList);
      ghost var hit := MatchIndex(before, peer, m);
      var k := 0;
      while k < |transactionList|
        invariant k <= |transactionList| && hit >= k
        invariant Abs() == old(Abs()) && transactionList == old(transactionList)
      {
        var t := transactionList[k];
        if t.x.peer == peer {
          if t.x.mID == m.mid {
            handled := RespondTo(t, k, m, hasResponse, now);
            return;
          }
        }
        k := k + 1;
      }
      return false;
    }

    // An ACK or RST is noted on the transaction that awaits one.
    method NoteAcknowledgement(t: Transaction, ghost i: nat, m: Message) returns (found: bool, reset: bool)
      requires Valid() && i < |transactionList| && transactionList[i] == t
      modifies t
      ensures found == Consumes(old(t.Value()), m) && reset == Resets(old(t.Value()), m)
      ensures t.Value() == if found then old(t.Value()).(acked := true) else old(t.Value())
      ensures Values(transactionList) == old(Values(transactionList))[i := t.Value()]
    {
      OthersDiffer(i);
      ghost var before := Values(transactionList);
      found, reset := false, false;
      if !t.ackReceived && (m.kind == Ack || m.kind == Rst) {
        found := true;
        t.ackReceived := true;
        reset := m.kind == Rst;
      }
      UpdatedInPlace(i, before);
    }

    method WaitAgain(t: Transaction, ghost i: nat, acked: bool, time: int)
      requires Valid() && i < |transactionList| && transactionList[i] == t
      modifies t
      ensures Values(transactionList) ==
              old(Values(transactionList))[i := old(t.Value()).(acked := acked, time := time)]
    {
      OthersDiffer(i);
      ghost var before := Values(transactionList);
      t.ackReceived := acked;
      t.retransTime := time;
      UpdatedInPlace(i, before);
    }

    // A 4.01 lets the exchange start again while retries are left.
    method RetryIfRefused(t: Transaction, ghost i: nat, m: Message) returns (again: bool)
      requires Valid() && i < |transactionList| && transactionList[i] == t
      modifies t
      ensures again == (m.code == UNAUTHORIZED_4_01 && p.maxRetransmit > old(t.retransCounter))
      ensures var u := old(t.Value());
              Values(transactionList) ==
              if again then old(Values(transactionList))[i := u.(acked := false, time := u.time + p.timeout)]
              else old(Values(transactionList))
      ensures !again ==> t.Value() == old(t.Value())
    {
      again := m.code == UNAUTHORIZED_4_01 && p.maxRetransmit > t.retransCounter;
      if again {
        WaitAgain(t, i, false, t.retransTime + p.timeout);
      }
    }

    method CompleteOrRetry(t: Transaction, ghost i: nat, reset: bool, m: Message, hasResponse: bool)
      requires Valid() && i < |transactionList| && transactionList[i] == t
      modifies this, t
      ensures Valid()
      ensures Abs() == Complete(p, old(Abs()), i, reset, m, hasResponse)
    {
      var again := false;
      if !reset {
        AckSeparateResponse(m, hasResponse);
        again := RetryIfRefused(t, i, m);
      }
      if !again {
        FinishTransaction(t, Some(m));
      }
    }

    method AckSeparateResponse(m: Message, hasResponse: bool)
      modifies this`log
      ensures Abs() == if m.kind == Con && hasResponse
                       then old(Abs()).(log := old(log) + [AckSent(m.mid)]) else old(Abs())
    {
      if m.kind == Con && hasResponse {
        log := log + [AckSent(m.mid)];
      }
    }

    // The body of the loop, for the transaction whose peer and mID match.
    method RespondTo(t: Transaction, ghost i: nat, m: Message, hasResponse: bool, now: int) returns (handled: bool)
      requires Valid() && i < |transactionList| && transactionList[i] == t
      requires t.x.mID == m.mid
      modifies this, t
      ensures Valid()
      ensures (Abs(), handled) == RespondAt(p, old(Abs()), i, m, hasResponse, now)
    {
      var found, reset := NoteAcknowledgement(t, i, m);
      if reset || CheckFinished(t.Value(), m) {
        CompleteOrRetry(t, i, reset, m, hasResponse);
        return true;
      }
      if found {
        var wait := if t.x.responseTimeout != 0 then t.x.responseTimeout else p.timeout * t.retransCounter;
        WaitAgain(t, i, true, now + wait);
        return true;
      }
      return false;
    }

    // One round of prv_deleteTransactionList: the head is unlinked before its
    // callback runs.
    method DeleteHead()
      requires Valid() && transactionList != []
      modifies this
      ensures Valid() && transactionList == old(transactionList)[1..]
      ensures Transactions.Close(Abs()) == Transactions.Close(old(Abs()))
    {
      ghost var s := Abs();
      var t := transactionList[0];
      transactionList := transactionList[1..];
      assert Values(transactionList) == s.list[1..];
      RunCallback(t, None);
      log := log + [Freed(t.x.tag)];
    }

    // prv_deleteTransactionList
    method DeleteAll()
      requires Valid()
      modifies this
      ensures Valid() && transactionList == []
      ensures Abs() == Transactions.Close(old(Abs()))
    {
      while transactionList != []
        invariant Valid()
        invariant Transactions.Close(Abs()) == Transactions.Close(old(Abs()))
        decreases |transactionList|
      {
        DeleteHead();
      }
    }
  }
}
