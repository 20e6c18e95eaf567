// What every message and step does to a pending transaction.
module TransactionLaws {
  import opened Common
  import opened SortedList
  import opened Transactions
  import opened TransactionRuns

  // ----- Messages -----------------------------------------------------------

  // The transaction a message is addressed to.
  ghost predicate Addressed(s: State, i: nat, peer: nat, m: Message) {
    Ordered(s) && i < |s.list| && s.list[i].x.peer == peer && s.list[i].x.mID == m.mid
  }

  // A request that carries a token is answered by that token; any other
  // exchange by its acknowledgement.
  ghost predicate HasToken(t: Txn) { !t.x.isResponse && t.x.token != [] }

  // The events with which transaction i ends on message m: its callback, the
  // release of its data by the last user, unless a 2.01 has a malformed
  // location, and its own release.
  ghost function Ending(list: seq<Txn>, t: Txn, m: Message): seq<Event> {
    match t.x.callback
    case NoCallback => [Freed(t.x.tag)]
    case Plain => [Called(t.x.tag, Some(m)), Freed(t.x.tag)]
    case Result(data) =>
      if (m.code == 0x41 && !m.locationOk) ||
         exists j :: 0 <= j < |list| && list[j].x.tag != t.x.tag && list[j].x.callback == Result(data)
      then [Called(t.x.tag, Some(m)), Freed(t.x.tag)]
      else [Called(t.x.tag, Some(m)), DataFreed(data), Freed(t.x.tag)]
  }

  ghost predicate Ends(s: State, i: nat, m: Message, acknowledge: bool, end: State)
    requires i < |s.list|
  {
    && end.list == s.list[..i] + s.list[i + 1..]
    && end.log == s.log + (if acknowledge then [AckSent(m.mid)] else []) + Ending(s.list, s.list[i], m)
  }

  // A 4.01 is followed by another try while retries are left.
  ghost predicate TriesAgain(p: Params, t: Txn, m: Message) { m.code == 0x81 && t.counter < p.maxRetransmit }

  lemma SameEnding(s: State, i: nat, u: Txn, m: Message)
    requires Ordered(s) && i < |s.list| && u.x == s.list[i].x
    ensures var s1 := s.(list := s.list[i := u]);
            && Finish(s1, u, Some(m)).log == s.log + Ending(s.list, s.list[i], m)
            && Finish(s1, u, Some(m)).list == s.list[..i] + s.list[i + 1..]
  {
    EndingList(s, i, u);
    var events := CallbackEvents(s.list[i := u], u, Some(m));
    if u.x.callback.Result? { SameShared(s, i, u); }
    assert events + [Freed(u.x.tag)] == Ending(s.list, s.list[i], m);
    Together(s.log, events, [Freed(u.x.tag)]);
  }

  lemma EndingList(s: State, i: nat, u: Txn)
    requires Ordered(s) && i < |s.list| && u.x == s.list[i].x
    ensures Remove(s.list[i := u], Mid, u.x.mID) == s.list[..i] + s.list[i + 1..]
  {
    var list := s.list[i := u];
    forall j, k | 0 <= j < k < |list| ensures Mid(list[j]) < Mid(list[k]) {
      assert Mid(s.list[j]) < Mid(s.list[k]);
    }
    RemoveTakesOne(list, Mid, i);
    assert list[..i] + list[i + 1..] == s.list[..i] + s.list[i + 1..];
  }

  lemma SameShared(s: State, i: nat, u: Txn)
    requires i < |s.list| && u.x == s.list[i].x && u.x.callback.Result?
    ensures DataShared(s.list[i := u], u, u.x.callback.data) <==>
            exists j :: 0 <= j < |s.list| && s.list[j].x.tag != u.x.tag && s.list[j].x.callback == u.x.callback
  {
    assert forall j :: 0 <= j < |s.list| ==> s.list[i := u][j].x == s.list[j].x;
  }

  lemma UpdateTwice(list: seq<Txn>, i: nat, u: Txn, w: Txn)
    requires i < |list|
    ensures list[i := u][i := w] == list[i := w]
  {
  }

  // The answer that carries the token of the request ends it, whether it comes
  // in the acknowledgement or later, and reaches the callback.
  lemma AnswerEnds(p: Params, s: State, i: nat, peer: nat, m: Message, hasResponse: bool, now: int)
    requires Addressed(s, i, peer, m) && HasToken(s.list[i]) && m.token == s.list[i].x.token
    requires !TriesAgain(p, s.list[i], m) && !(m.kind == Rst && !s.list[i].acked)
    ensures var (end, handled) := HandleResponse(p, s, peer, m, hasResponse, now);
            handled && Ends(s, i, m, m.kind == Con && hasResponse, end)
  {
    UniqueMatch(s, i, peer, m);
    var u := s.list[i].(acked := s.list[i].acked || m.kind == Ack);
    SameEnding(s, i, u, m);
    SameEnding(s.(log := s.log + [AckSent(m.mid)]), i, u, m);
    assert s.log + [] == s.log;
  }

  // An acknowledgement without that token is noted, and the wait for the
  // answer begins: as long as the exchange says, or else in proportion to the
  // sends. Nothing is called.
  lemma AcknowledgementIsNoted(p: Params, s: State, i: nat, peer: nat, m: Message, hasResponse: bool, now: int)
    requires Addressed(s, i, peer, m) && HasToken(s.list[i]) && m.token != s.list[i].x.token
    requires !s.list[i].acked && m.kind == Ack
    ensures var t := s.list[i];
            var wait := if t.x.responseTimeout > 0 then t.x.responseTimeout else p.timeout * t.counter;
            HandleResponse(p, s, peer, m, hasResponse, now) ==
            (s.(list := s.list[i := t.(acked := true, time := now + wait)]), true)
  {
    UniqueMatch(s, i, peer, m);
    var u := s.list[i].(acked := true);
    var wait := if u.x.responseTimeout != 0 then u.x.responseTimeout else p.timeout * u.counter;
    UpdateTwice(s.list, i, u, u.(time := now + wait));
  }

  // Without a token, and for a response, the acknowledgement itself ends the
  // exchange, as does whatever comes after it.
  lemma AcknowledgementEnds(p: Params, s: State, i: nat, peer: nat, m: Message, hasResponse: bool, now: int)
    requires Addressed(s, i, peer, m) && !HasToken(s.list[i]) && (s.list[i].acked || m.kind == Ack)
    requires !TriesAgain(p, s.list[i], m)
    ensures var (end, handled) := HandleResponse(p, s, peer, m, hasResponse, now);
            handled && Ends(s, i, m, m.kind == Con && hasResponse, end)
  {
    UniqueMatch(s, i, peer, m);
    var u := s.list[i].(acked := true);
    SameEnding(s, i, u, m);
    SameEnding(s.(log := s.log + [AckSent(m.mid)]), i, u, m);
    assert s.log + [] == s.log;
  }

  // A reset ends any exchange that was not acknowledged yet, and is not
  // acknowledged itself.
  lemma ResetEnds(p: Params, s: State, i: nat, peer: nat, m: Message, hasResponse: bool, now: int)
    requires Addressed(s, i, peer, m) && !s.list[i].acked && m.kind == Rst
    ensures var (end, handled) := HandleResponse(p, s, peer, m, hasResponse, now);
            handled && Ends(s, i, m, false, end)
  {
    UniqueMatch(s, i, peer, m);
    SameEnding(s, i, s.list[i].(acked := true), m);
    assert s.log + [] == s.log;
  }

  // A 4.01 that would end the exchange starts it again, one timeout later.
  lemma RefusalTriesAgain(p: Params, s: State, i: nat, peer: nat, m: Message, hasResponse: bool, now: int)
    requires Addressed(s, i, peer, m) && TriesAgain(p, s.list[i], m) && !(m.kind == Rst && !s.list[i].acked)
    requires if HasToken(s.list[i]) then m.token == s.list[i].x.token else s.list[i].acked || m.kind == Ack
    ensures var t := s.list[i];
            HandleResponse(p, s, peer, m, hasResponse, now) ==
            (State(s.list[i := t.(acked := false, time := t.time + p.timeout)],
                   s.log + if m.kind == Con && hasResponse then [AckSent(m.mid)] else []), true)
  {
    UniqueMatch(s, i, peer, m);
    var u := s.list[i].(acked := s.list[i].acked || m.kind == Ack);
    UpdateTwice(s.list, i, u, u.(acked := false, time := u.time + p.timeout));
    assert s.log + [] == s.log;
  }

  // Everything else is passed over.
  lemma OtherMessagePasses(p: Params, s: State, i: nat, peer: nat, m: Message, hasResponse: bool, now: int)
    requires Addressed(s, i, peer, m)
    requires s.list[i].acked || (m.kind != Ack && m.kind != Rst)
    requires if HasToken(s.list[i]) then m.token != s.list[i].x.token else !s.list[i].acked
    ensures HandleResponse(p, s, peer, m, hasResponse, now) == (s, false)
  {
    UniqueMatch(s, i, peer, m);
    assert s.list[i := s.list[i]] == s.list;
  }

  // ----- Steps --------------------------------------------------------------

  ghost predicate IsDue(t: Txn, now: int) { t.time <= now }

  // Not to be sent again: it was acknowledged, or sent as often as allowed.
  ghost predicate IsOver(p: Params, t: Txn) { t.acked || t.counter > p.maxRetransmit + 1 }

  // A transaction sent again waits twice as long as before.
  function Later(p: Params, t: Txn): Txn
    requires t.counter > 0
  {
    t.(time := t.time + p.timeout * Pow2(t.counter - 1), counter := t.counter + 1)
  }

  ghost predicate AllSent(list: seq<Txn>) { forall i :: 0 <= i < |list| ==> list[i].counter > 0 }

  // What is left of a list after a step, one transaction after the other.
  ghost function Left(p: Params, list: seq<Txn>, now: int): seq<Txn>
    requires AllSent(list)
  {
    if list == [] then []
    else
      var rest := Left(p, list[1..], now);
      if !IsDue(list[0], now) then [list[0]] + rest
      else if !list[0].x.encodable || IsOver(p, list[0]) then rest
      else [Later(p, list[0])] + rest
  }

  ghost function Acts(p: Params, t: Txn, now: int): seq<Event> {
    if !IsDue(t, now) then []
    else if !t.x.encodable then [Freed(t.x.tag)]
    else if !IsOver(p, t) then [Sent(t.x.tag, now)]
    else Ended(t)
  }

  ghost function AllActs(p: Params, list: seq<Txn>, now: int): seq<Event> {
    if list == [] then [] else Acts(p, list[0], now) + AllActs(p, list[1..], now)
  }

  // The log without the releases of shared data.
  function Visible(log: seq<Event>): seq<Event> {
    if log == [] then []
    else
      var rest := Visible(log[..|log| - 1]);
      if log[|log| - 1].DataFreed? then rest else rest + [log[|log| - 1]]
  }

  lemma VisibleOne(log: seq<Event>, e: Event)
    ensures Visible(log + [e]) == if e.DataFreed? then Visible(log) else Visible(log) + [e]
  {
    assert (log + [e])[..|log|] == log;
  }

  // A callback and the end of the transaction, as they are seen.
  ghost function Ended(t: Txn): seq<Event> {
    if t.x.callback == NoCallback then [Freed(t.x.tag)] else [Called(t.x.tag, None), Freed(t.x.tag)]
  }

  lemma VisibleCallback(log: seq<Event>, list: seq<Txn>, t: Txn)
    ensures Visible(log + CallbackEvents(list, t, None)) ==
            Visible(log) + if t.x.callback == NoCallback then [] else [Called(t.x.tag, None)]
  {
    var called := Called(t.x.tag, None);
    var events := CallbackEvents(list, t, None);
    if events == [] {
      assert log + events == log && Visible(log) + [] == Visible(log);
      return;
    }
    VisibleOne(log, called);
    if |events| == 2 {
      assert log + events == log + [called] + [events[1]];
      VisibleOne(log + [called], events[1]);
    } else {
      assert events == [called];
    }
  }

  lemma VisibleEnd(log: seq<Event>, list: seq<Txn>, t: Txn)
    ensures Visible(log + CallbackEvents(list, t, None) + [Freed(t.x.tag)]) == Visible(log) + Ended(t)
  {
    VisibleCallback(log, list, t);
    VisibleOne(log + CallbackEvents(list, t, None), Freed(t.x.tag));
    if t.x.callback != NoCallback {
      assert Visible(log) + [Called(t.x.tag, None)] + [Freed(t.x.tag)] == Visible(log) + Ended(t);
    } else {
      assert Visible(log) + [] + [Freed(t.x.tag)] == Visible(log) + Ended(t);
    }
  }

  ghost predicate Goes(p: Params, t: Txn) { !t.x.encodable || IsOver(p, t) }

  // One due transaction is sent again or leaves.
  lemma SendAtActs(p: Params, s: State, i: nat, now: int)
    requires Ordered(s) && i < |s.list| && s.list[i].counter > 0 && IsDue(s.list[i], now)
    ensures Visible(SendAt(p, s, i, now).log) == Visible(s.log) + Acts(p, s.list[i], now)
  {
    var t := s.list[i];
    if !t.x.encodable {
      VisibleOne(s.log, Freed(t.x.tag));
    } else if IsOver(p, t) {
      VisibleEnd(s.log, s.list, t);
    } else {
      VisibleOne(s.log, Sent(t.x.tag, now));
    }
  }

  lemma SendAtLeaves(p: Params, s: State, i: nat, now: int)
    requires Ordered(s) && i < |s.list| && s.list[i].counter > 0
    ensures Leaves(p, s.list[i]) <==> Goes(p, s.list[i])
    ensures Ordered(SendAt(p, s, i, now))
    ensures SendAt(p, s, i, now).list ==
            if Goes(p, s.list[i]) then s.list[..i] + s.list[i + 1..] else s.list[i := Later(p, s.list[i])]
  {
    SendAtLength(p, s, i, now);
  }

  // The walk from a position on, as a function of what changes on the way.
  ghost predicate IsWalk(f: (State, nat, int) -> (State, int), p: Params, now: int) {
    forall s, i, timeout {:trigger StepFrom(p, s, i, now, timeout)} ::
      0 <= i && Ordered(s) ==> f(s, i, timeout) == StepFrom(p, s, i, now, timeout)
  }

  lemma StepPasses(f: (State, nat, int) -> (State, int), p: Params, s: State, i: nat, now: int, timeout: int)
    requires IsWalk(f, p, now) && Ordered(s) && i < |s.list| && !IsDue(s.list[i], now)
    ensures f(s, i, timeout) == f(s, i + 1, Min(timeout, s.list[i].time - now))
  {
    assert f(s, i, timeout) == StepFrom(p, s, i, now, timeout);
  }

  lemma StepRemoves(f: (State, nat, int) -> (State, int), p: Params, s: State, i: nat, now: int, timeout: int)
    requires IsWalk(f, p, now) && Ordered(s) && i < |s.list|
    requires s.list[i].counter > 0 && IsDue(s.list[i], now) && Goes(p, s.list[i])
    ensures Ordered(SendAt(p, s, i, now)) && f(s, i, timeout) == f(SendAt(p, s, i, now), i, 1)
  {
    SendAtLeaves(p, s, i, now);
    assert f(s, i, timeout) == StepFrom(p, s, i, now, timeout);
  }

  lemma StepResends(f: (State, nat, int) -> (State, int), p: Params, s: State, i: nat, now: int, timeout: int)
    requires IsWalk(f, p, now) && Ordered(s) && i < |s.list|
    requires s.list[i].counter > 0 && IsDue(s.list[i], now) && !Goes(p, s.list[i])
    ensures Ordered(SendAt(p, s, i, now))
    ensures f(s, i, timeout) ==
            f(SendAt(p, s, i, now), i + 1, Min(timeout, Max(1, Later(p, s.list[i]).time - now)))
  {
    SendAtLeaves(p, s, i, now);
    assert f(s, i, timeout) == StepFrom(p, s, i, now, timeout);
  }

  lemma WalkEnds(f: (State, nat, int) -> (State, int), p: Params, s: State, now: int, timeout: int)
    requires IsWalk(f, p, now) && Ordered(s)
    ensures f(s, |s.list|, timeout) == (s, timeout)
  {
    assert f(s, |s.list|, timeout) == StepFrom(p, s, |s.list|, now, timeout);
  }

  // The list after one round.
  lemma Split(p: Params, s: State, done: seq<Txn>, t: Txn, more: seq<Txn>, now: int)
    requires s.list == done + [t] + more && Ordered(s) && t.counter > 0
    ensures s.list[|done|] == t
    ensures SendAt(p, s, |done|, now).list == if Goes(p, t) then done + more else done + [Later(p, t)] + more
  {
    assert s.list[..|done|] == done && s.list[|done| + 1..] == more;
    SendAtLeaves(p, s, |done|, now);
  }

  lemma Shorter(rest: seq<Txn>, done: seq<Txn>)
    requires rest != [] && AllSent(rest)
    ensures AllSent(rest[1..]) && rest[0].counter > 0 && done + rest == done + [rest[0]] + rest[1..]
  {
    assert forall j :: 0 <= j < |rest| - 1 ==> rest[1..][j] == rest[j + 1];
  }

  // One round of the walk: what is kept of the transaction, and the timeout
  // after it.
  ghost function Kept(p: Params, t: Txn, now: int): seq<Txn>
    requires t.counter > 0
  {
    if !IsDue(t, now) then [t] else if Goes(p, t) then [] else [Later(p, t)]
  }

  ghost function After(p: Params, t: Txn, now: int, timeout: int): int
    requires t.counter > 0
  {
    if !IsDue(t, now) then Min(timeout, t.time - now)
    else if Goes(p, t) then 1 else Min(timeout, Max(1, Later(p, t).time - now))
  }

  ghost function Next(p: Params, s: State, i: nat, now: int): State
    requires i < |s.list|
  {
    if IsDue(s.list[i], now) then SendAt(p, s, i, now) else s
  }

  lemma RoundList(p: Params, s: State, done: seq<Txn>, rest: seq<Txn>, now: int)
    requires s.list == done + rest && Ordered(s) && AllSent(rest) && rest != []
    ensures AllSent(rest[1..]) && rest[0].counter > 0 && s.list[|done|] == rest[0]
    ensures Ordered(Next(p, s, |done|, now))
    ensures Next(p, s, |done|, now).list == done + Kept(p, rest[0], now) + rest[1..]
  {
    Shorter(rest, done);
    Split(p, s, done, rest[0], rest[1..], now);
    SendAtLeaves(p, s, |done|, now);
    assert done + [] == done;
  }

  lemma RoundLog(p: Params, s: State, i: nat, now: int)
    requires Ordered(s) && i < |s.list| && s.list[i].counter > 0
    ensures Visible(Next(p, s, i, now).log) == Visible(s.log) + Acts(p, s.list[i], now)
  {
    if IsDue(s.list[i], now) { SendAtActs(p, s, i, now); }
  }

  lemma RoundGoesOn(f: (State, nat, int) -> (State, int), p: Params, s: State, i: nat, now: int, timeout: int)
    requires IsWalk(f, p, now) && Ordered(s) && i < |s.list| && s.list[i].counter > 0
    ensures f(s, i, timeout) ==
            f(Next(p, s, i, now), i + |Kept(p, s.list[i], now)|, After(p, s.list[i], now, timeout))
  {
    if !IsDue(s.list[i], now) {
      StepPasses(f, p, s, i, now, timeout);
    } else if Goes(p, s.list[i]) {
      StepRemoves(f, p, s, i, now, timeout);
    } else {
      StepResends(f, p, s, i, now, timeout);
    }
  }

  lemma LeftFirst(p: Params, rest: seq<Txn>, now: int)
    requires AllSent(rest) && rest != []
    ensures AllSent(rest[1..]) && rest[0].counter > 0
    ensures Left(p, rest, now) == Kept(p, rest[0], now) + Left(p, rest[1..], now)
  {
    Shorter(rest, []);
  }

  lemma {:induction false} StepFromList(
    f: (State, nat, int) -> (State, int), p: Params, s: State, done: seq<Txn>, rest: seq<Txn>, now: int, timeout: int)
    requires IsWalk(f, p, now) && s.list == done + rest && Ordered(s) && AllSent(rest)
    ensures f(s, |done|, timeout).0.list == done + Left(p, rest, now)
    decreases rest
  {
    if rest == [] {
      WalkEnds(f, p, s, now, timeout);
      assert done + [] == done;
      return;
    }
    RoundList(p, s, done, rest, now);
    RoundGoesOn(f, p, s, |done|, now, timeout);
    var kept, more := Kept(p, rest[0], now), rest[1..];
    StepFromList(f, p, Next(p, s, |done|, now), done + kept, more, now, After(p, rest[0], now, timeout));
    LeftFirst(p, rest, now);
    assert done + (kept + Left(p, more, now)) == done + kept + Left(p, more, now);
  }

  lemma {:induction false} StepFromLog(
    f: (State, nat, int) -> (State, int), p: Params, s: State, done: seq<Txn>, rest: seq<Txn>, now: int, timeout: int)
    requires IsWalk(f, p, now) && s.list == done + rest && Ordered(s) && AllSent(rest)
    ensures Visible(f(s, |done|, timeout).0.log) == Visible(s.log) + AllActs(p, rest, now)
    decreases rest
  {
    if rest == [] {
      WalkEnds(f, p, s, now, timeout);
      assert done + [] == done && Visible(s.log) + [] == Visible(s.log);
      return;
    }
    RoundList(p, s, done, rest, now);
    RoundLog(p, s, |done|, now);
    RoundGoesOn(f, p, s, |done|, now, timeout);
    StepFromLog(f, p, Next(p, s, |done|, now), done + Kept(p, rest[0], now), rest[1..], now,
                After(p, rest[0], now, timeout));
    Together(Visible(s.log), Acts(p, rest[0], now), AllActs(p, rest[1..], now));
  }

  // No later than any transaction that is left needs.
  ghost predicate InTime(t: int, left: seq<Txn>, now: int) {
    forall u :: u in left ==> t <= Max(1, u.time - now)
  }

  // As given, or as some transaction that is left asks, or as a removal does.
  ghost predicate Asked(t: int, given: int, left: seq<Txn>, now: int) {
    t == given || t == 1 || exists u :: u in left && t == u.time - now
  }

  lemma {:induction false} StepFromTimeout(
    f: (State, nat, int) -> (State, int), p: Params, s: State, done: seq<Txn>, rest: seq<Txn>, now: int, timeout: int)
    requires IsWalk(f, p, now) && s.list == done + rest && Ordered(s) && AllSent(rest)
    ensures var t := f(s, |done|, timeout).1;
            t <= Max(timeout, 1) && InTime(t, Left(p, rest, now), now) && Asked(t, timeout, Left(p, rest, now), now)
    decreases rest
  {
    if rest == [] {
      assert done + [] == done;
      WalkEnds(f, p, s, now, timeout);
    } else {
      RoundList(p, s, done, rest, now);
      RoundGoesOn(f, p, s, |done|, now, timeout);
      var kept, more := Kept(p, rest[0], now), rest[1..];
      var given := After(p, rest[0], now, timeout);
      StepFromTimeout(f, p, Next(p, s, |done|, now), done + kept, more, now, given);
      LeftFirst(p, rest, now);
      TimeoutOf(p, rest[0], Left(p, more, now), now, timeout, f(s, |done|, timeout).1);
    }
  }

  lemma TimeoutOf(p: Params, t: Txn, left: seq<Txn>, now: int, timeout: int, given: int)
    requires t.counter > 0
    requires given <= Max(After(p, t, now, timeout), 1) && InTime(given, left, now)
    requires Asked(given, After(p, t, now, timeout), left, now)
    ensures var all := Kept(p, t, now) + left;
            given <= Max(timeout, 1) && InTime(given, all, now) && Asked(given, timeout, all, now)
  {
    var all := Kept(p, t, now) + left;
    assert forall u :: u in left ==> u in all;
    if Kept(p, t, now) != [] { assert Kept(p, t, now)[0] == all[0] && all[0] in all; }
  }

  lemma Together(a: seq<Event>, b: seq<Event>, c: seq<Event>)
    ensures a + (b + c) == a + b + c
  {
  }

  // A step treats every transaction as if it were alone: those that are due are
  // sent again, or end with their callback, and all others stay. The timeout
  // returned is no later than any of them needs, and no earlier than one of
  // them, or a removal, asks for.
  lemma StepTreatsAll(p: Params, s: State, now: int, timeout: int)
    requires Ordered(s) && AllSent(s.list)
    ensures var (end, t) := Step(p, s, now, timeout);
            && end.list == Left(p, s.list, now) && Visible(end.log) == Visible(s.log) + AllActs(p, s.list, now)
            && t <= Max(timeout, 1) && InTime(t, end.list, now) && Asked(t, timeout, end.list, now)
  {
    assert [] + s.list == s.list && [] + Left(p, s.list, now) == Left(p, s.list, now);
    var f := (s: State, i: nat, t: int) => if Ordered(s) then StepFrom(p, s, i, now, t) else (s, t);
    StepFromList(f, p, s, [], s.list, now, timeout);
    StepFromLog(f, p, s, [], s.list, now, timeout);
    StepFromTimeout(f, p, s, [], s.list, now, timeout);
    assert f(s, 0, timeout) == Step(p, s, now, timeout);
  }

  // A new exchange is listed in order, sent once and due after one timeout; one
  // that cannot be serialized is dropped without a callback.
  lemma SubmittedOnce(p: Params, s: State, x: Exchange, now: int)
    requires Ordered(s) && !HasKey(s.list, Mid, x.mID)
    ensures Submitted(p, s, x, now) ==
            if x.encodable then State(Add(s.list, Mid, Txn(x, false, 2, now + p.timeout)), s.log + [Sent(x.tag, now)])
            else State(s.list, s.log + [Freed(x.tag)])
  {
    var i := AddAt(s.list, Mid, x.mID);
    var q := Queued(s, x);
    QueuedAt(s, x);
    AddKeepsOrder(s.list, Mid, New(x));
    SendAtLength(p, q, i, now);
    assert q.list[..i] + q.list[i + 1..] == s.list;
    assert q.list[i := Txn(x, false, 2, now + p.timeout)] == Add(s.list, Mid, Txn(x, false, 2, now + p.timeout));
  }

  // ----- Closing ------------------------------------------------------------

  ghost function Farewell(list: seq<Txn>): seq<Event> {
    if list == [] then [] else Ended(list[0]) + Farewell(list[1..])
  }

  // Closing calls every transaction back without an answer, in order.
  lemma {:induction false} CloseActs(s: State)
    ensures Close(s).list == [] && Visible(Close(s).log) == Visible(s.log) + Farewell(s.list)
    decreases |s.list|
  {
    if s.list == [] {
      assert Visible(s.log) + [] == Visible(s.log);
    } else {
      var t, rest := s.list[0], s.list[1..];
      var log := s.log + CallbackEvents(rest, t, None) + [Freed(t.x.tag)];
      VisibleEnd(s.log, rest, t);
      CloseActs(State(rest, log));
      Together(Visible(s.log), Ended(t), Farewell(rest));
    }
  }
}
