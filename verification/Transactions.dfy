// Pending CoAP exchanges: sending with exponential back-off, and the handling
// of acknowledgements, responses, resets and 4.01 answers
// (wakaama/coap/transaction.c, and the list teardown of
// wakaama/core/liblwm2m.c).
module Transactions {
  import opened Common
  import opened SortedList

  // COAP_RESPONSE_TIMEOUT and COAP_MAX_RETRANSMIT. The retry counter is one
  // byte wide and reaches maxRetransmit + 2.
  datatype Params = Params(timeout: nat, maxRetransmit: nat)

  ghost predicate Fits(p: Params) { p.maxRetransmit + 2 < 0x100 }

  datatype MessageType = Con | Non | Ack | Rst

  // A received packet. `locationOk` says whether its Location-Path, if it has
  // one, parses as an instance of the request's object.
  datatype Message = Message(kind: MessageType, code: byte, mid: uint16, token: seq<byte>, locationOk: bool)

  const CREATED_2_01: byte := 0x41
  const UNAUTHORIZED_4_01: byte := 0x81

  // Plain stands for a callback that leaves the user data alone, Result for
  // the device-management callback, whose user data is shared between the
  // block transactions of one request.
  datatype Callback = NoCallback | Plain | Result(data: nat)

  // The part of a transaction fixed at creation. `tag` is its identity;
  // `encodable` says whether the message can be serialized.
  datatype Exchange = Exchange(
    tag: nat, mID: uint16, peer: nat, isResponse: bool, token: seq<byte>,
    responseTimeout: nat, callback: Callback, encodable: bool)

  datatype Txn = Txn(x: Exchange, acked: bool, counter: nat, time: int)

  datatype Event =
    | Sent(tag: nat, at: int)
    | Called(tag: nat, reply: Option<Message>)
    | DataFreed(data: nat)
    | AckSent(mid: uint16)
    | Freed(tag: nat)

  // The transaction list of a context and everything visible it has done.
  datatype State = State(list: seq<Txn>, log: seq<Event>)

  function Mid(t: Txn): int { t.x.mID }

  ghost predicate Ordered(s: State) { StrictlySorted(s.list, Mid) }

  function New(x: Exchange): Txn { Txn(x, false, 0, 0) }

  // ----- Completion ---------------------------------------------------------

  // transaction_free_userData keeps the data while another listed transaction
  // points to it.
  predicate DataShared(list: seq<Txn>, t: Txn, data: nat) {
    exists i :: 0 <= i < |list| && list[i].x.tag != t.x.tag && list[i].x.callback == Result(data)
  }

  // prv_resultCallback gives up, before it reaches the release of the user
  // data, on a 2.01 whose Location-Path is malformed.
  predicate GivesUp(reply: Option<Message>) {
    reply.Some? && reply.value.code == CREATED_2_01 && !reply.value.locationOk
  }

  function CallbackEvents(list: seq<Txn>, t: Txn, reply: Option<Message>): seq<Event> {
    match t.x.callback
    case NoCallback => []
    case Plain => [Called(t.x.tag, reply)]
    case Result(data) =>
      [Called(t.x.tag, reply)] +
      if GivesUp(reply) || DataShared(list, t, data) then [] else [DataFreed(data)]
  }

  function Without(s: State, t: Txn): State {
    State(Remove(s.list, Mid, t.x.mID), s.log + [Freed(t.x.tag)])
  }

  function Finish(s: State, t: Txn, reply: Option<Message>): State {
    Without(s.(log := s.log + CallbackEvents(s.list, t, reply)), t)
  }

  // ----- transaction_send ---------------------------------------------------

  // The first send starts the clock, the later ones double the wait.
  function Started(p: Params, t: Txn, now: int): Txn {
    if t.counter == 0 then t.(time := now + p.timeout, counter := 1) else t
  }

  predicate GivenUp(p: Params, t: Txn) { t.acked || p.maxRetransmit + 1 < t.counter }

  function Resent(p: Params, t: Txn, now: int): Txn {
    var wait := if t.counter == 0 then 0 else p.timeout * Pow2(t.counter - 1);
    var u := Started(p, t, now);
    u.(time := u.time + wait, counter := u.counter + 1)
  }

  function SendAt(p: Params, s: State, i: nat, now: int): State
    requires i < |s.list|
  {
    var t := s.list[i];
    if !t.x.encodable then Without(s, t)
    else if GivenUp(p, t) then Finish(s, t, None)
    else State(s.list[i := Resent(p, t, now)], s.log + [Sent(t.x.tag, now)])
  }

  // A new exchange is listed and sent at once.
  function Queued(s: State, x: Exchange): State { s.(list := Add(s.list, Mid, New(x))) }

  function Submitted(p: Params, s: State, x: Exchange, now: int): State {
    SendAt(p, Queued(s, x), AddAt(s.list, Mid, x.mID), now)
  }

  predicate Leaves(p: Params, t: Txn) { !t.x.encodable || GivenUp(p, t) }

  lemma SendAtLength(p: Params, s: State, i: nat, now: int)
    requires Ordered(s) && i < |s.list|
    ensures Leaves(p, s.list[i]) ==> SendAt(p, s, i, now).list == s.list[..i] + s.list[i + 1..]
    ensures Ordered(SendAt(p, s, i, now))
  {
    RemoveTakesOne(s.list, Mid, i);
  }

  // ----- transaction_step ---------------------------------------------------

  // The walk over the list; `i` is the position reached, `timeout` the running
  // value of *timeoutP.
  function StepFrom(p: Params, s: State, i: nat, now: int, timeout: int): (State, int)
    requires Ordered(s)
    decreases |s.list| - i
  {
    if i >= |s.list| then (s, timeout)
    else if s.list[i].time > now then
      StepFrom(p, s, i + 1, now, Min(timeout, s.list[i].time - now))
    else
      SendAtLength(p, s, i, now);
      var s' := SendAt(p, s, i, now);
      if Leaves(p, s.list[i]) then StepFrom(p, s', i, now, 1)
      else StepFrom(p, s', i + 1, now, Min(timeout, if s'.list[i].time > now then s'.list[i].time - now else 1))
  }

  function Step(p: Params, s: State, now: int, timeout: int): (State, int)
    requires Ordered(s)
  {
    StepFrom(p, s, 0, now, timeout)
  }

  // ----- transaction_handleResponse -----------------------------------------

  // prv_checkFinished
  predicate CheckFinished(t: Txn, m: Message) {
    && t.x.mID == m.mid
    && if t.x.isResponse || t.x.token == [] then t.acked else t.x.token == m.token
  }

  predicate Matches(t: Txn, peer: nat, m: Message) { t.x.peer == peer && t.x.mID == m.mid }

  function MatchIndex(list: seq<Txn>, peer: nat, m: Message): (i: nat)
    ensures i <= |list|
    ensures forall j :: 0 <= j < i ==> !Matches(list[j], peer, m)
    ensures i < |list| ==> Matches(list[i], peer, m)
  {
    if list == [] || Matches(list[0], peer, m) then 0
    else
      assert forall j :: 0 < j < |list| ==> list[j] == list[1..][j - 1];
      1 + MatchIndex(list[1..], peer, m)
  }

  // An ACK or RST is consumed by a transaction still waiting for one.
  predicate Consumes(t: Txn, m: Message) { !t.acked && (m.kind == Ack || m.kind == Rst) }

  predicate Resets(t: Txn, m: Message) { Consumes(t, m) && m.kind == Rst }

  function Acknowledged(t: Txn, m: Message): Txn {
    if Consumes(t, m) then t.(acked := true) else t
  }

  // The exchange is over, or starts again after a 4.01.
  function Complete(p: Params, s: State, i: nat, reset: bool, m: Message, hasResponse: bool): State
    requires i < |s.list|
  {
    var u := s.list[i];
    var s1 := if !reset && m.kind == Con && hasResponse then s.(log := s.log + [AckSent(m.mid)]) else s;
    if !reset && m.code == UNAUTHORIZED_4_01 && p.maxRetransmit > u.counter
    then s1.(list := s.list[i := u.(acked := false, time := u.time + p.timeout)])
    else Finish(s1, u, Some(m))
  }

  function RespondAt(p: Params, s: State, i: nat, m: Message, hasResponse: bool, now: int): (State, bool)
    requires i < |s.list|
  {
    var t := s.list[i];
    var u := Acknowledged(t, m);
    var s1 := s.(list := s.list[i := u]);
    if Resets(t, m) || CheckFinished(u, m) then
      (Complete(p, s1, i, Resets(t, m), m, hasResponse), true)
    else if Consumes(t, m) then
      var wait := if t.x.responseTimeout != 0 then t.x.responseTimeout else p.timeout * t.counter;
      (s.(list := s1.list[i := u.(time := now + wait)]), true)
    else
      (s1, false)
  }

  function HandleResponse(p: Params, s: State, peer: nat, m: Message, hasResponse: bool, now: int): (State, bool) {
    var i := MatchIndex(s.list, peer, m);
    if i < |s.list| then RespondAt(p, s, i, m, hasResponse, now) else (s, false)
  }

  // ----- prv_deleteTransactionList ------------------------------------------

  function Close(s: State): State
    decreases |s.list|
  {
    if s.list == [] then s
    else
      var t := s.list[0];
      var rest := s.list[1..];
      Close(State(rest, s.log + CallbackEvents(rest, t, None) + [Freed(t.x.tag)]))
  }
}
