// The exponential back-off over whole runs.
module TransactionTiming {
  import opened Common
  import opened SortedList
  import opened Transactions
  import opened TransactionRuns

  // The times at which a transaction was transmitted, oldest first.
  ghost function SendTimes(log: seq<Event>, tag: nat): seq<int> {
    if log == [] then []
    else
      var e := log[|log| - 1];
      SendTimes(log[..|log| - 1], tag) + if e.Sent? && e.tag == tag then [e.at] else []
  }

  lemma {:induction false} SendTimesCount(log: seq<Event>, tag: nat)
    ensures |SendTimes(log, tag)| == Tally(log, Sending, tag)
  {
    if log != [] { SendTimesCount(log[..|log| - 1], tag); }
  }

  ghost predicate NoSends(evs: seq<Event>) { forall i :: 0 <= i < |evs| ==> !evs[i].Sent? }

  lemma {:induction false} SendTimesSame(log: seq<Event>, evs: seq<Event>, tag: nat)
    requires NoSends(evs)
    ensures SendTimes(log + evs, tag) == SendTimes(log, tag)
  {
    if evs == [] {
      assert log + evs == log;
    } else {
      var c := evs[..|evs| - 1];
      assert (log + evs)[..|log + evs| - 1] == log + c;
      SendTimesSame(log, c, tag);
    }
  }

  lemma SendTimesPush(log: seq<Event>, e: Event, tag: nat)
    ensures SendTimes(log + [e], tag) ==
            SendTimes(log, tag) + if e.Sent? && e.tag == tag then [e.at] else []
  {
    assert (log + [e])[..|log|] == log;
  }

  // When send number k (counted from 0) is due for a transaction first sent at t0.
  ghost function Due(p: Params, t0: int, k: nat): int { t0 + p.timeout * (Pow2(k) - 1) }

  lemma DueNext(p: Params, t0: int, k: nat)
    ensures Due(p, t0, k + 1) == Due(p, t0, k) + p.timeout * Pow2(k)
    ensures Due(p, t0, 0) == t0 && Due(p, t0, 1) == t0 + p.timeout
  {
    assert p.timeout * (2 * Pow2(k) - 1) == p.timeout * (Pow2(k) - 1) + p.timeout * Pow2(k);
    assert Pow2(0) == 1 && Pow2(1) == 2;
  }

  ghost predicate OnTime(p: Params, s: State, since: map<nat, int>, t: Txn) {
    && t.x.tag in since && !t.acked && t.counter >= 1
    && t.time == Due(p, since[t.x.tag], t.counter - 1)
  }

  ghost predicate Spaced(p: Params, times: seq<int>, t0: int) {
    forall k :: 0 <= k < |times| ==> times[k] >= Due(p, t0, k)
  }

  ghost predicate Schedule(p: Params, s: State, since: map<nat, int>, answered: set<nat>) {
    && (forall i :: 0 <= i < |s.list| && s.list[i].x.tag !in answered ==> OnTime(p, s, since, s.list[i]))
    && (forall tag :: tag in since && tag !in answered ==> Spaced(p, SendTimes(s.log, tag), since[tag]))
  }

  // ----- Each move keeps it -------------------------------------------------

  lemma LogKeepsSchedule(p: Params, s: State, s': State, since: map<nat, int>, answered: set<nat>, evs: seq<Event>)
    requires Schedule(p, s, since, answered) && s'.log == s.log + evs && NoSends(evs)
    requires forall i :: 0 <= i < |s'.list| && s'.list[i].x.tag !in answered ==> s'.list[i] in s.list
    ensures Schedule(p, s', since, answered)
  {
    forall tag | tag in since && tag !in answered ensures Spaced(p, SendTimes(s'.log, tag), since[tag]) {
      SendTimesSame(s.log, evs, tag);
    }
    forall i | 0 <= i < |s'.list| && s'.list[i].x.tag !in answered ensures OnTime(p, s', since, s'.list[i]) {
      var j :| 0 <= j < |s.list| && s.list[j] == s'.list[i];
      assert OnTime(p, s, since, s.list[j]);
    }
  }

  lemma FinishKeepsSchedule(p: Params, s: State, since: map<nat, int>, answered: set<nat>, i: nat, reply: Option<Message>)
    requires Ordered(s) && i < |s.list| && Schedule(p, s, since, answered)
    ensures Schedule(p, Finish(s, s.list[i], reply), since, answered)
  {
    var t := s.list[i];
    var evs := CallbackEvents(s.list, t, reply) + [Freed(t.x.tag)];
    assert Finish(s, t, reply).log == s.log + evs;
    RemoveAt(s.list, Mid, i);
    GapKeepsOrder(s.list, Mid, i, s.list[..i] + s.list[i + 1..]);
    LogKeepsSchedule(p, s, Finish(s, t, reply), since, answered, evs);
  }

  lemma SentKeepsSchedule(p: Params, s: State, issued: map<nat, Exchange>, since: map<nat, int>, answered: set<nat>,
                          i: nat, now: int)
    requires Inv(p, s, issued, false) && Schedule(p, s, since, answered)
    requires i < |s.list| && s.list[i].time <= now && !GivenUp(p, s.list[i])
    ensures Schedule(p, SendAt(p, s, i, now), since, answered)
  {
    var t := s.list[i];
    var u := Resent(p, t, now);
    var s' := SendAt(p, s, i, now);
    assert WellKept(p, s, issued, t);
    if t.x.tag !in answered {
      assert OnTime(p, s, since, t);
      DueNext(p, since[t.x.tag], t.counter - 1);
    }
    forall j | 0 <= j < |s'.list| && s'.list[j].x.tag !in answered ensures OnTime(p, s', since, s'.list[j]) {
      if j != i { assert OnTime(p, s, since, s.list[j]); }
    }
    forall tag | tag in since && tag !in answered ensures Spaced(p, SendTimes(s'.log, tag), since[tag]) {
      SendTimesPush(s.log, Sent(t.x.tag, now), tag);
      SendTimesCount(s.log, tag);
    }
  }

  lemma {:induction false} StepKeepsSchedule(p: Params, s: State, issued: map<nat, Exchange>,
                                             since: map<nat, int>, answered: set<nat>, i: nat, now: int, timeout: int)
    requires Inv(p, s, issued, false) && Schedule(p, s, since, answered)
    ensures Schedule(p, StepFrom(p, s, i, now, timeout).0, since, answered)
    decreases |s.list| - i
  {
    if i < |s.list| {
      var t := s.list[i];
      if t.time > now {
        StepKeepsSchedule(p, s, issued, since, answered, i + 1, now, Min(timeout, t.time - now));
      } else {
        SendAtLength(p, s, i, now);
        SendAtKeeps(p, s, issued, false, i, now);
        assert WellKept(p, s, issued, t);
        var s' := SendAt(p, s, i, now);
        if Leaves(p, t) {
          FinishKeepsSchedule(p, s, since, answered, i, None);
          StepKeepsSchedule(p, s', issued, since, answered, i, now, 1);
        } else {
          SentKeepsSchedule(p, s, issued, since, answered, i, now);
          StepKeepsSchedule(p, s', issued, since, answered, i + 1, now,
                            Min(timeout, if s'.list[i].time > now then s'.list[i].time - now else 1));
        }
      }
    }
  }

  lemma EnterKeepsSchedule(p: Params, r: Run, x: Exchange, now: int)
    requires Inv(p, r.s, r.issued, false) && Fresh(r, x) && Schedule(p, r.s, r.since, r.answered)
    ensures var r' := Enter(p, r, x, now); Schedule(p, r'.s, r'.since, r'.answered)
  {
    EnterShape(p, r.s, x, now);
    EnteredSchedule(p, r, Enter(p, r, x, now), x, now);
  }

  lemma EnteredSchedule(p: Params, r: Run, r': Run, x: Exchange, now: int)
    requires Inv(p, r.s, r.issued, false) && Fresh(r, x) && Schedule(p, r.s, r.since, r.answered)
    requires r'.since == r.since[x.tag := now] && r'.answered == r.answered
    requires r'.s.list ==
             if x.encodable then Add(r.s.list, Mid, Txn(x, false, 2, now + p.timeout)) else r.s.list
    requires r'.s.log == r.s.log + [if x.encodable then Sent(x.tag, now) else Freed(x.tag)]
    ensures Schedule(p, r'.s, r'.since, r'.answered)
  {
    var t := Txn(x, false, 2, now + p.timeout);
    DueNext(p, now, 0);
    assert OnTime(p, r'.s, r'.since, t);
    EnterSpaced(p, r, x, now, r'.s.log);
    AddContents(r.s.list, Mid, t);
    forall j | 0 <= j < |r'.s.list| && r'.s.list[j].x.tag !in r.answered
      ensures OnTime(p, r'.s, r'.since, r'.s.list[j])
    {
      assert r'.s.list[j] in r'.s.list;
      if r'.s.list[j] != t { EnterOthers(p, r, r', x, r'.s.list[j]); }
    }
  }

  lemma EnterOthers(p: Params, r: Run, r': Run, x: Exchange, u: Txn)
    requires Inv(p, r.s, r.issued, false) && x.tag !in r.issued && Schedule(p, r.s, r.since, r.answered)
    requires u in r.s.list && u.x.tag !in r.answered
    requires forall tag :: tag in r.since && tag != x.tag ==> tag in r'.since && r'.since[tag] == r.since[tag]
    ensures OnTime(p, r'.s, r'.since, u)
  {
    var k :| 0 <= k < |r.s.list| && r.s.list[k] == u;
    assert OnTime(p, r.s, r.since, r.s.list[k]);
    assert WellKept(p, r.s, r.issued, r.s.list[k]);
  }

  lemma EnterSpaced(p: Params, r: Run, x: Exchange, now: int, log: seq<Event>)
    requires Inv(p, r.s, r.issued, false) && Fresh(r, x) && Schedule(p, r.s, r.since, r.answered)
    requires log == r.s.log + [if x.encodable then Sent(x.tag, now) else Freed(x.tag)]
    ensures forall tag :: tag in r.since[x.tag := now] && tag !in r.answered ==>
              Spaced(p, SendTimes(log, tag), r.since[x.tag := now][tag])
  {
    var since := r.since[x.tag := now];
    DueNext(p, now, 0);
    forall tag | tag in since && tag !in r.answered ensures Spaced(p, SendTimes(log, tag), since[tag]) {
      SendTimesPush(r.s.log, if x.encodable then Sent(x.tag, now) else Freed(x.tag), tag);
      if tag == x.tag {
        assert Balanced(p, r.s, r.issued, tag);
        SendTimesCount(r.s.log, tag);
      }
    }
  }

  lemma ResponseKeepsSchedule(p: Params, s: State, since: map<nat, int>, answered: set<nat>,
                              peer: nat, m: Message, hasResponse: bool, now: int)
    requires Ordered(s) && Schedule(p, s, since, answered)
    requires var i := MatchIndex(s.list, peer, m); i < |s.list| ==> s.list[i].x.tag in answered
    ensures Schedule(p, HandleResponse(p, s, peer, m, hasResponse, now).0, since, answered)
  {
    var i := MatchIndex(s.list, peer, m);
    var s' := HandleResponse(p, s, peer, m, hasResponse, now).0;
    if i < |s.list| {
      var t := s.list[i];
      ResponseFrame(p, s, peer, m, hasResponse, now);
      OthersStay(s.list, s'.list, i);
      var evs := ResponseLog(p, s, i, m, hasResponse, now);
      LogKeepsSchedule(p, s, s', since, answered, evs);
    }
  }

  lemma OthersStay(before: seq<Txn>, after: seq<Txn>, i: nat)
    requires i < |before| && OnlyEntry(before, after, i)
    ensures forall j :: 0 <= j < |after| ==> after[j] in before || after[j].x == before[i].x
  {
    if |after| < |before| {
      forall j | 0 <= j < |after| ensures after[j] in before {
        assert after[j] == if j < i then before[j] else before[j + 1];
      }
    } else {
      forall j | 0 <= j < |after| ensures after[j] in before || after[j].x == before[i].x {
        assert j != i ==> after[j] == before[j];
      }
    }
  }

  lemma CompleteLog(p: Params, s: State, i: nat, reset: bool, m: Message, hasResponse: bool) returns (evs: seq<Event>)
    requires i < |s.list|
    ensures Complete(p, s, i, reset, m, hasResponse).log == s.log + evs && NoSends(evs)
  {
    var u := s.list[i];
    var ack := if !reset && m.kind == Con && hasResponse then [AckSent(m.mid)] else [];
    if !reset && m.code == UNAUTHORIZED_4_01 && p.maxRetransmit > u.counter {
      return ack;
    }
    evs := ack + (CallbackEvents(s.list, u, Some(m)) + [Freed(u.x.tag)]);
  }

  // A response logs callbacks, releases and an acknowledgement, never a send.
  lemma ResponseLog(p: Params, s: State, i: nat, m: Message, hasResponse: bool, now: int) returns (evs: seq<Event>)
    requires i < |s.list|
    ensures RespondAt(p, s, i, m, hasResponse, now).0.log == s.log + evs && NoSends(evs)
  {
    var t := s.list[i];
    var u := Acknowledged(t, m);
    evs := [];
    if Resets(t, m) || CheckFinished(u, m) {
      evs := CompleteLog(p, s.(list := s.list[i := u]), i, Resets(t, m), m, hasResponse);
    }
  }

  lemma {:induction false} CloseKeepsSchedule(p: Params, s: State, since: map<nat, int>, answered: set<nat>)
    requires Ordered(s) && Schedule(p, s, since, answered)
    ensures Schedule(p, Transactions.Close(s), since, answered)
    decreases |s.list|
  {
    if s.list != [] {
      var t := s.list[0];
      var rest := s.list[1..];
      var evs := CallbackEvents(rest, t, None) + [Freed(t.x.tag)];
      var s' := State(rest, s.log + CallbackEvents(rest, t, None) + [Freed(t.x.tag)]);
      assert s'.log == s.log + evs;
      LogKeepsSchedule(p, s, s', since, answered, evs);
      CloseKeepsSchedule(p, s', since, answered);
    }
  }

  lemma ApplyKeepsSchedule(p: Params, r: Run, a: Input)
    requires Inv(p, r.s, r.issued, false) && Ready(r, a) && Schedule(p, r.s, r.since, r.answered)
    ensures var r' := Apply(p, r, a); Schedule(p, r'.s, r'.since, r'.answered)
  {
    match a
    case Submit(x, now) => EnterKeepsSchedule(p, r, x, now);
    case Clone(_, x, now) => EnterKeepsSchedule(p, r, x, now);
    case Tick(now) => StepKeepsSchedule(p, r.s, r.issued, r.since, r.answered, 0, now, 0);
    case Receive(peer, m, hasResponse, now) =>
      ResponseKeepsSchedule(p, r.s, r.since, Apply(p, r, a).answered, peer, m, hasResponse, now);
    case Shutdown => CloseKeepsSchedule(p, r.s, r.since, r.answered);
  }

  lemma {:induction false} ScheduleAlways(p: Params, from: Run, inputs: seq<Input>, to: Run)
    requires Inv(p, from.s, from.issued, false) && Schedule(p, from.s, from.since, from.answered)
    requires Reaches(p, from, inputs, to)
    ensures Inv(p, to.s, to.issued, false) && Schedule(p, to.s, to.since, to.answered)
    decreases |inputs|
  {
    if inputs != [] {
      ApplyKeeps(p, from, false, inputs[0]);
      ApplyKeepsSchedule(p, from, inputs[0]);
      ScheduleAlways(p, Apply(p, from, inputs[0]), inputs[1..], to);
    }
  }

  // ----- Theorems -----------------------------------------------------------

  // A pending transaction that no message has matched, sent k times since t0,
  // is due again at t0 + T * (2^k - 1).
  lemma BackOff(p: Params, inputs: seq<Input>, to: Run, i: nat)
    requires Reaches(p, Empty, inputs, to) && i < |to.s.list| && to.s.list[i].x.tag !in to.answered
    ensures var t := to.s.list[i];
            && t.x.tag in to.since
            && t.time == Due(p, to.since[t.x.tag], Tally(to.s.log, Sending, t.x.tag))
  {
    ScheduleAlways(p, Empty, inputs, to);
    DueAsCounted(p, to.s, to.issued, to.since, to.answered, i);
  }

  lemma DueAsCounted(p: Params, s: State, issued: map<nat, Exchange>, since: map<nat, int>, answered: set<nat>, i: nat)
    requires Inv(p, s, issued, false) && Schedule(p, s, since, answered)
    requires i < |s.list| && s.list[i].x.tag !in answered
    ensures var tag := s.list[i].x.tag;
            && tag in since && s.list[i].time == Due(p, since[tag], Tally(s.log, Sending, tag))
            && s.list[i].counter == Tally(s.log, Sending, tag) + 1
  {
    assert OnTime(p, s, since, s.list[i]);
    assert WellKept(p, s, issued, s.list[i]);
  }

  // Send number k is never early, whether or not the transaction is still pending.
  lemma SendsNeverEarly(p: Params, inputs: seq<Input>, to: Run, tag: nat, k: nat)
    requires Reaches(p, Empty, inputs, to) && tag in to.since && tag !in to.answered
    requires k < Tally(to.s.log, Sending, tag)
    ensures k < |SendTimes(to.s.log, tag)| && SendTimes(to.s.log, tag)[k] >= Due(p, to.since[tag], k)
  {
    ScheduleAlways(p, Empty, inputs, to);
    SendTimesCount(to.s.log, tag);
    assert Spaced(p, SendTimes(to.s.log, tag), to.since[tag]);
  }

  lemma {:induction false} StepPrefix(p: Params, s: State, i: nat, now: int, timeout: int)
    requires Ordered(s) && i <= |s.list|
    ensures var l := StepFrom(p, s, i, now, timeout).0.list; i <= |l| && l[..i] == s.list[..i]
    decreases |s.list| - i
  {
    if i < |s.list| {
      if s.list[i].time > now {
        StepPrefix(p, s, i + 1, now, Min(timeout, s.list[i].time - now));
        var l := StepFrom(p, s, i, now, timeout).0.list;
        assert l[..i] == l[..i + 1][..i];
      } else {
        SendAtLength(p, s, i, now);
        var s' := SendAt(p, s, i, now);
        if Leaves(p, s.list[i]) {
          StepPrefix(p, s', i, now, 1);
        } else {
          StepPrefix(p, s', i + 1, now, Min(timeout, if s'.list[i].time > now then s'.list[i].time - now else 1));
          var l := StepFrom(p, s, i, now, timeout).0.list;
          assert l[..i] == l[..i + 1][..i];
        }
      }
    }
  }

  // A transaction the step passes over or resends is still listed after it.
  lemma StaysListed(p: Params, s: State, i: nat, now: int, timeout: int, tag: nat)
    requires Ordered(s) && 0 < i <= |s.list| && s.list[i - 1].x.tag == tag
    ensures Listed(StepFrom(p, s, i, now, timeout).0, tag)
  {
    StepPrefix(p, s, i, now, timeout);
    var l := StepFrom(p, s, i, now, timeout).0.list;
    assert l[i - 1] == l[..i][i - 1] == s.list[i - 1];
  }

  ghost predicate UsedUp(p: Params, log: seq<Event>, since: map<nat, int>, tag: nat, now: int) {
    && tag in since && Tally(log, Sending, tag) == p.maxRetransmit + 1
    && now >= Due(p, since[tag], p.maxRetransmit + 1)
  }

  lemma ExpiresHere(p: Params, s: State, issued: map<nat, Exchange>, since: map<nat, int>, answered: set<nat>,
                    i: nat, now: int)
    requires Inv(p, s, issued, false) && Schedule(p, s, since, answered)
    requires i < |s.list| && s.list[i].x.tag !in answered && s.list[i].time <= now && Leaves(p, s.list[i])
    ensures UsedUp(p, s.log, since, s.list[i].x.tag, now)
  {
    DueAsCounted(p, s, issued, since, answered, i);
    assert WellKept(p, s, issued, s.list[i]);
    assert OnTime(p, s, since, s.list[i]);
  }

  lemma {:induction false} ExpiredWhenDue(p: Params, s: State, issued: map<nat, Exchange>, since: map<nat, int>,
                                          answered: set<nat>, i: nat, now: int, timeout: int, j: nat)
    requires Inv(p, s, issued, false) && Schedule(p, s, since, answered)
    requires i <= j < |s.list| && s.list[j].x.tag !in answered
    requires !Listed(StepFrom(p, s, i, now, timeout).0, s.list[j].x.tag)
    ensures UsedUp(p, s.log, since, s.list[j].x.tag, now)
    decreases |s.list| - i
  {
    var t := s.list[i];
    var tag := s.list[j].x.tag;
    if t.time > now {
      if i == j {
        StaysListed(p, s, i + 1, now, Min(timeout, t.time - now), tag);
      } else {
        ExpiredWhenDue(p, s, issued, since, answered, i + 1, now, Min(timeout, t.time - now), j);
      }
    } else if Leaves(p, t) {
      if i == j {
        ExpiresHere(p, s, issued, since, answered, i, now);
      } else {
        ExpiredAfterRemoval(p, s, issued, since, answered, i, now, timeout, j);
      }
    } else {
      ExpiredAfterSend(p, s, issued, since, answered, i, now, timeout, j);
    }
  }

  lemma {:induction false} ExpiredAfterRemoval(p: Params, s: State, issued: map<nat, Exchange>, since: map<nat, int>,
                                               answered: set<nat>, i: nat, now: int, timeout: int, j: nat)
    requires Inv(p, s, issued, false) && Schedule(p, s, since, answered)
    requires i < j < |s.list| && s.list[j].x.tag !in answered
    requires s.list[i].time <= now && Leaves(p, s.list[i])
    requires !Listed(StepFrom(p, s, i, now, timeout).0, s.list[j].x.tag)
    ensures UsedUp(p, s.log, since, s.list[j].x.tag, now)
    decreases |s.list| - i, 0
  {
    var t := s.list[i];
    var s' := SendAt(p, s, i, now);
    SendAtLength(p, s, i, now);
    SendAtKeeps(p, s, issued, false, i, now);
    assert WellKept(p, s, issued, t);
    FinishKeepsSchedule(p, s, since, answered, i, None);
    FinishTally(s, t, None, Sending, s.list[j].x.tag);
    assert s'.list[j - 1] == s.list[j];
    ExpiredWhenDue(p, s', issued, since, answered, i, now, 1, j - 1);
  }

  lemma {:induction false} ExpiredAfterSend(p: Params, s: State, issued: map<nat, Exchange>, since: map<nat, int>,
                                            answered: set<nat>, i: nat, now: int, timeout: int, j: nat)
    requires Inv(p, s, issued, false) && Schedule(p, s, since, answered)
    requires i <= j < |s.list| && s.list[j].x.tag !in answered
    requires s.list[i].time <= now && !Leaves(p, s.list[i])
    requires !Listed(StepFrom(p, s, i, now, timeout).0, s.list[j].x.tag)
    ensures UsedUp(p, s.log, since, s.list[j].x.tag, now)
    decreases |s.list| - i, 0
  {
    var t := s.list[i];
    var tag := s.list[j].x.tag;
    var s' := SendAt(p, s, i, now);
    SendAtLength(p, s, i, now);
    SendAtKeeps(p, s, issued, false, i, now);
    var w := Min(timeout, if s'.list[i].time > now then s'.list[i].time - now else 1);
    if i == j {
      StaysListed(p, s', i + 1, now, w, tag);
    } else {
      SentKeepsSchedule(p, s, issued, since, answered, i, now);
      TallyPush(s.log, Sent(t.x.tag, now), Sending, tag);
      assert t.x.tag != tag;
      ExpiredWhenDue(p, s', issued, since, answered, i + 1, now, w, j);
    }
  }

  // An unanswered transaction is given up only after all N + 1 sends, and never
  // before t0 + T * (2^(N+1) - 1).
  lemma GivesUpLate(p: Params, inputs: seq<Input>, to: Run, i: nat, now: int)
    requires Reaches(p, Empty, inputs, to) && i < |to.s.list| && to.s.list[i].x.tag !in to.answered
    requires Ordered(to.s) && !Listed(Apply(p, to, Tick(now)).s, to.s.list[i].x.tag)
    ensures UsedUp(p, to.s.log, to.since, to.s.list[i].x.tag, now)
  {
    ScheduleAlways(p, Empty, inputs, to);
    ExpiredWhenDue(p, to.s, to.issued, to.since, to.answered, 0, now, 0, i);
  }
}
