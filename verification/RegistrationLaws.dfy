// What every answer, step and start does to a server.
module RegistrationLaws {
  import opened Common
  import opened Registration
  import opened RegistrationOrder

  // ----- Answers to a Register ----------------------------------------------

  // A 2.01 makes the server registered, as of now; a request for the next
  // block only renews the time.
  lemma AnswerDecides(s: State, i: nat, now: int)
    requires Counted(s) && i < |s.servers| && s.servers[i].status == Pending
    ensures Reply(s, i, now, Accepted).servers[i] == s.servers[i].(status := Registered, time := now)
    ensures Reply(s, i, now, Continue) == s.(servers := s.servers[i := s.servers[i].(time := now)])
  {
    var s2 := Put(Put(s, i, s.servers[i].(time := now)), i, s.servers[i].(time := now, status := Registered));
    StartLeaves(s2, i, now);
  }

  // An answer that comes when none is expected changes nothing.
  lemma UnexpectedAnswer(s: State, i: nat, now: int, answer: Answer)
    requires i < |s.servers| && s.servers[i].status != Pending
    ensures Reply(s, i, now, answer) == s
  {
  }

  // How often and how long apart a server is tried, by its resources, clamped
  // to 254.
  ghost predicate Limits(count: Read<nat>, delay: Read<nat>, presetCount: nat, presetDelay: nat, n: nat, d: nat) {
    && (if count == Missing then n == presetCount else count != Broken && n == (if count.v > 254 then 254 else count.v))
    && (if delay == Missing then d == presetDelay else delay != Broken && d == delay.v)
  }

  // After a refusal with attempts left the server waits for its delay, doubled
  // with every attempt.
  lemma NextAttempt(s: State, i: nat, now: int, n: nat, d: nat)
    requires Counted(s) && i < |s.servers| && s.servers[i].status == Pending && s.servers[i].attempt < n
    requires Limits(s.servers[i].c.attemptLimit, s.servers[i].c.attemptDelay, 5, 60, n, d)
    ensures var v := s.servers[i];
            Reply(s, i, now, Refused) ==
            s.(servers := s.servers[i := v.(status := HoldOff, time := now + d * Pow2(v.attempt - 1))])
  {
  }

  // After the last attempt of a sequence, with sequences left, it waits for the
  // delay between sequences and starts counting anew.
  lemma NextSequenceStarts(s: State, i: nat, now: int, n: nat, d: nat, rows: nat, gap: nat)
    requires Counted(s) && i < |s.servers| && s.servers[i].status == Pending
    requires Limits(s.servers[i].c.attemptLimit, s.servers[i].c.attemptDelay, 5, 60, n, d) && s.servers[i].attempt >= n
    requires Limits(s.servers[i].c.sequenceLimit, s.servers[i].c.sequenceDelay, 1, 86400, rows, gap)
    requires s.servers[i].sequence < rows
    ensures Reply(s, i, now, Refused).servers[i] == s.servers[i].(status := HoldOff, time := now + gap, attempt := 0)
    ensures Reply(s, i, now, Refused).needsBootstrap == s.needsBootstrap
  {
    var s1 := Put(s, i, s.servers[i].(time := now));
    StartLeaves(s1, i, now);
  }

  // After the last sequence the server has failed, and a bootstrap is asked for
  // unless the server says that it wants none.
  lemma FinallyFails(s: State, i: nat, now: int, n: nat, d: nat, rows: nat, gap: nat)
    requires Counted(s) && i < |s.servers| && s.servers[i].status == Pending
    requires Limits(s.servers[i].c.attemptLimit, s.servers[i].c.attemptDelay, 5, 60, n, d) && s.servers[i].attempt >= n
    requires Limits(s.servers[i].c.sequenceLimit, s.servers[i].c.sequenceDelay, 1, 86400, rows, gap)
    requires s.servers[i].sequence >= rows
    ensures var end := Reply(s, i, now, Refused);
            && end.servers[i] == s.servers[i].(status := Failed, time := now)
            && (end.needsBootstrap <==> s.needsBootstrap || s.servers[i].c.bootstrap != Value(false))
  {
    var s1 := Put(s, i, s.servers[i].(time := now));
    StartLeaves(s1, i, now);
  }

  // A failed first sequence of an ordered server that does not block starts the
  // next server, and nothing else does.
  lemma FailureStartsNextIff(s: State, i: nat, now: int, n: nat, d: nat)
    requires Counted(s) && i < |s.servers| && s.servers[i].status == Pending
    requires Limits(s.servers[i].c.attemptLimit, s.servers[i].c.attemptDelay, 5, 60, n, d)
    requires Chosen(s, false).Some?
    ensures var log := Reply(s, i, now, Refused).log; var c := s.servers[i].c;
            && s.log <= log
            && (Started(Chosen(s, false).value.server) in log[|s.log|..] <==>
                  s.servers[i].attempt >= n && s.servers[i].sequence == 1 && c.order.Value? &&
                  (c.blocking == Value(false) || c.blocking == Missing))
  {
    var s1 := Put(s, i, s.servers[i].(time := now));
    ChosenSame(s, s1);
    StartShape(s1, false, now);
    if s.servers[i].attempt >= n && FailureStartsNext(s1.servers[i]) {
      var end := Start(s1, false, now).0;
      assert Reply(s, i, now, Refused).log == end.log;
      assert end.log[|s.log|..][|end.log| - 1 - |s.log|] == end.log[|end.log| - 1];
    } else {
      assert Reply(s, i, now, Refused).log == s.log;
      assert s.log[|s.log|..] == [];
    }
  }

  // When a blocking server fails for good and wants no bootstrap, every ordered
  // server that was not started yet has failed with it; otherwise a blocking
  // server fails alone.
  lemma BlockingFailsOthers(s: State, i: nat, now: int, n: nat, d: nat, rows: nat, gap: nat, j: nat)
    requires Counted(s) && i < |s.servers| && s.servers[i].status == Pending && j < |s.servers| && j != i
    requires Limits(s.servers[i].c.attemptLimit, s.servers[i].c.attemptDelay, 5, 60, n, d) && s.servers[i].attempt >= n
    requires Limits(s.servers[i].c.sequenceLimit, s.servers[i].c.sequenceDelay, 1, 86400, rows, gap)
    requires s.servers[i].sequence >= rows && s.servers[i].c.blocking == Value(true)
    ensures var v := s.servers[j];
            Reply(s, i, now, Refused).servers[j] ==
            if s.servers[i].c.bootstrap == Value(false) && s.servers[i].c.order.Value? &&
               v.status == Deregistered && v.c.order.Value?
            then v.(status := Failed) else v
  {
  }

  // A limit that cannot be read fails the server at once, and asks for nothing.
  lemma UnreadableLimitFails(s: State, i: nat, now: int)
    requires Counted(s) && i < |s.servers| && s.servers[i].status == Pending
    requires s.servers[i].c.attemptLimit == Broken || s.servers[i].c.attemptDelay == Broken
    ensures Reply(s, i, now, Refused) == s.(servers := s.servers[i := s.servers[i].(status := Failed, time := now)])
  {
  }

  lemma UnreadableSequenceFails(s: State, i: nat, now: int, n: nat, d: nat)
    requires Counted(s) && i < |s.servers| && s.servers[i].status == Pending
    requires Limits(s.servers[i].c.attemptLimit, s.servers[i].c.attemptDelay, 5, 60, n, d) && s.servers[i].attempt >= n
    requires s.servers[i].c.sequenceLimit == Broken || s.servers[i].c.sequenceDelay == Broken
    ensures Reply(s, i, now, Refused).servers[i] == s.servers[i].(status := Failed, time := now)
    ensures Reply(s, i, now, Refused).needsBootstrap == s.needsBootstrap
  {
    StartLeaves(Put(s, i, s.servers[i].(time := now)), i, now);
  }

  // A start of the others leaves a server alone that is not deregistered.
  lemma StartLeaves(s: State, i: nat, now: int)
    requires i < |s.servers| && s.servers[i].status != Deregistered
    ensures var end := Start(s, false, now).0;
            end.servers[i] == s.servers[i] && end.needsBootstrap == s.needsBootstrap
  {
    StartShape(s, false, now);
    assert After(s.servers[i], Start(s, false, now).0.servers[i], false);
    WalkBootstrap(s, 0, false, now, None);
  }

  lemma {:induction false} WalkBootstrap(s: State, i: nat, restartFailed: bool, now: int, first: Option<First>)
    requires Within(s, first)
    ensures Walk(s, i, restartFailed, now, first).0.needsBootstrap == s.needsBootstrap
    decreases |s.servers| - i
  {
    if i < |s.servers| {
      var (s1, f, go) := WalkAt(s, i, restartFailed, now, first);
      if go { WalkBootstrap(s1, i + 1, restartFailed, now, f); }
    }
  }

  // ----- Updates ------------------------------------------------------------

  // A 2.04 makes the server registered again as of now, a refusal fails it; an
  // answer that is not expected changes nothing.
  lemma UpdateAnswerDecides(s: State, i: nat, now: int)
    requires i < |s.servers|
    ensures var v := s.servers[i];
            if v.status == UpdatePending then
              && UpdateReply(s, i, now, Accepted) == s.(servers := s.servers[i := v.(status := Registered, time := now)])
              && UpdateReply(s, i, now, Refused) == s.(servers := s.servers[i := v.(status := Failed, time := now)])
              && UpdateReply(s, i, now, Continue) == s.(servers := s.servers[i := v.(time := now)])
            else forall answer :: UpdateReply(s, i, now, answer) == s
  {
  }

  // An update asked for by the application is noted on a connected server; one
  // with objects is not forgotten for one without.
  lemma UpdateIsNoted(s: State, i: nat, withObjects: bool)
    requires i < |s.servers|
    ensures var v := s.servers[i];
            AskUpdate(s, i, withObjects) ==
            if v.status in {Registered, UpdatePending, UpdateNeeded, FullUpdateNeeded} then
              s.(servers := s.servers[i := v.(status := if withObjects || v.status == FullUpdateNeeded
                                                        then FullUpdateNeeded else UpdateNeeded)])
            else s
  {
    var v := s.servers[i];
    assert s.servers[i := v] == s.servers;
    assert v.(status := v.status) == v;
  }

  // ----- A step -------------------------------------------------------------

  // What a step does to a server whose message goes out, or does not.
  ghost predicate Visited(v: Server, w: Server, now: int, sendable: bool) {
    if v.status == HoldOff && v.time <= now && sendable then
      w == v.(status := Pending, attempt := Bump(v.attempt),
              sequence := if v.attempt == 0 then Bump(v.sequence) else v.sequence)
    else if ((v.status == Registered && NextUpdate(v) <= now) || v.status == UpdateNeeded || v.status == FullUpdateNeeded)
            && sendable then
      w == v.(status := UpdatePending)
    else w == v
  }

  // An Update is due 93 seconds before the lifetime is over, or half-way in a
  // short one.
  function NextUpdate(v: Server): int {
    if v.c.lifetime > 93 then v.time + v.c.lifetime - 93 else v.time + v.c.lifetime / 2
  }

  ghost predicate Sends(v: Server, now: int, sendable: bool) { v.status == HoldOff && v.time <= now && sendable }

  // The Register requests of a step, in the order of the servers.
  function Requests(servers: seq<Server>, i: nat, now: int, sendable: seq<bool>): seq<Event>
    requires |sendable| == |servers|
    decreases |servers| - i
  {
    if i >= |servers| then []
    else
      var more := Requests(servers, i + 1, now, sendable);
      if servers[i].status == HoldOff && servers[i].time <= now && sendable[i] then [Sent(i)] + more else more
  }

  lemma {:induction false} SameRequests(a: seq<Server>, b: seq<Server>, i: nat, now: int, sendable: seq<bool>)
    requires |a| == |b| == |sendable| && forall j :: i <= j < |a| ==> a[j] == b[j]
    ensures Requests(a, i, now, sendable) == Requests(b, i, now, sendable)
    decreases |a| - i
  {
    if i < |a| { SameRequests(a, b, i + 1, now, sendable); }
  }

  // A step visits every server once and logs exactly the requests that are due.
  lemma {:induction false} TickVisits(s: State, i: nat, now: int, sendable: seq<bool>, timeout: int)
    requires |sendable| == |s.servers|
    ensures var end := TickFrom(s, i, now, sendable, timeout).0;
            && |end.servers| == |s.servers| && end.needsBootstrap == s.needsBootstrap
            && (forall j :: 0 <= j < |s.servers| && j < i ==> end.servers[j] == s.servers[j])
            && (forall j :: i <= j < |s.servers| ==> Visited(s.servers[j], end.servers[j], now, sendable[j]))
            && end.log == s.log + Requests(s.servers, i, now, sendable)
    decreases |s.servers| - i
  {
    if i < |s.servers| {
      var (s1, t) := Visit(s, i, now, sendable[i], timeout);
      VisitIs(s, i, now, sendable[i], timeout);
      TickVisits(s1, i + 1, now, sendable, t);
      SameRequests(s.servers, s1.servers, i + 1, now, sendable);
      Regroup(s.log, Sent(i), Requests(s.servers, i + 1, now, sendable));
    } else {
      assert s.log + [] == s.log;
    }
  }

  lemma VisitIs(s: State, i: nat, now: int, sendable: bool, timeout: int)
    requires i < |s.servers|
    ensures var end := Visit(s, i, now, sendable, timeout).0; var v := s.servers[i];
            && |end.servers| == |s.servers| && end.needsBootstrap == s.needsBootstrap
            && (forall j :: 0 <= j < |s.servers| && j != i ==> end.servers[j] == s.servers[j])
            && Visited(v, end.servers[i], now, sendable)
            && end.log == if Sends(v, now, sendable) then s.log + [Sent(i)] else s.log
  {
  }

  // ----- A start ------------------------------------------------------------

  ghost predicate Delayed(c: Config, d: nat) { c.initialDelay == Value(d) || (c.initialDelay == Missing && d == 0) }

  // A server that is up for choice and is started waits for its initial delay,
  // with both counters at zero.
  ghost predicate StartedAt(v: Server, w: Server, now: int) {
    exists d {:trigger Delayed(v.c, d)} ::
      Delayed(v.c, d) && w == v.(status := HoldOff, time := now + d, attempt := 0, sequence := 0)
  }

  ghost predicate Handled(v: Server, w: Server, restartFailed: bool, now: int) {
    if !Considered(v, restartFailed) then w == v
    else if v.c.order == Missing then StartedAt(v, w, now)
    else w == v.(attempt := 0, sequence := 0)
  }

  // The first server up for choice that cannot be read, or the end of the list.
  ghost predicate StopsAt(servers: seq<Server>, restartFailed: bool, k: nat) {
    && k <= |servers|
    && (forall j :: 0 <= j < k && Considered(servers[j], restartFailed) ==> !Unreadable(servers[j].c))
    && (k < |servers| ==> Considered(servers[k], restartFailed) && Unreadable(servers[k].c))
  }

  // What a start does to server j when it stops at server k: that one has its
  // counters at zero, and those after it are left alone.
  ghost predicate HandledTo(v: Server, w: Server, restartFailed: bool, now: int, j: int, k: nat) {
    if j < k then Handled(v, w, restartFailed, now)
    else w == if j == k then v.(attempt := 0, sequence := 0) else v
  }

  lemma {:induction false} WalkHandles(s: State, i: nat, restartFailed: bool, now: int, first: Option<First>, k: nat)
    requires Within(s, first) && i <= k && StopsAt(s.servers, restartFailed, k)
    ensures var (end, f, ok) := Walk(s, i, restartFailed, now, first);
            && (ok <==> k == |s.servers|)
            && (forall j :: 0 <= j < |s.servers| && j < i ==> end.servers[j] == s.servers[j])
            && forall j :: i <= j < |s.servers| ==> HandledTo(s.servers[j], end.servers[j], restartFailed, now, j, k)
    decreases |s.servers| - i
  {
    if i < |s.servers| {
      var (s1, f, go) := WalkAt(s, i, restartFailed, now, first);
      WalkAtShape(s, i, restartFailed, now, first);
      var v := s.servers[i];
      if i < k {
        HandledAt(s, i, restartFailed, now, first);
        WalkHandles(s1, i + 1, restartFailed, now, f, k);
      }
    }
  }

  lemma HandledAt(s: State, i: nat, restartFailed: bool, now: int, first: Option<First>)
    requires i < |s.servers| && (Considered(s.servers[i], restartFailed) ==> !Unreadable(s.servers[i].c))
    ensures var (s1, f, go) := WalkAt(s, i, restartFailed, now, first);
            go && Handled(s.servers[i], s1.servers[i], restartFailed, now)
  {
    var v := s.servers[i];
    if Considered(v, restartFailed) && v.c.order == Missing {
      assert Delayed(v.c, if v.c.initialDelay == Missing then 0 else v.c.initialDelay.v);
    }
  }

  // A start begins with every unordered server that is up for choice and comes
  // before the first unreadable one, and with the first in order of the others,
  // if its delay can be read. The result tells whether this one could be begun,
  // or, when there is none, whether the end of the list was reached.
  lemma StartHandles(s: State, restartFailed: bool, now: int, k: nat)
    requires StopsAt(s.servers, restartFailed, k)
    ensures var (end, ok) := Start(s, restartFailed, now); var f := Pick(s.servers, restartFailed);
            && (f.Some? ==> f.value.server < |s.servers|)
            && (ok <==> if f.Some? then s.servers[f.value.server].c.initialDelay != Broken else k == |s.servers|)
            && forall j :: 0 <= j < |s.servers| ==>
                 if f.Some? && f.value.server == j && s.servers[j].c.initialDelay != Broken
                 then StartedAt(s.servers[j], end.servers[j], now)
                 else HandledTo(s.servers[j], end.servers[j], restartFailed, now, j, k)
  {
    WalkHandles(s, 0, restartFailed, now, None, k);
    WalkFirst(s, 0, restartFailed, now, None);
    WalkPicks(s, 0, restartFailed, now, None);
    PickIs(s.servers, restartFailed);
    var f := Pick(s.servers, restartFailed);
    if f.Some? {
      var v := s.servers[f.value.server];
      if v.c.initialDelay != Broken {
        assert Delayed(v.c, if v.c.initialDelay == Missing then 0 else v.c.initialDelay.v);
      }
    }
  }

  // ----- A registered server stays so ---------------------------------------

  // No Register goes to server i.
  ghost predicate NoneSent(s: State, end: State, i: nat) {
    s.log <= end.log && forall k :: |s.log| <= k < |end.log| ==> end.log[k] != Sent(i)
  }

  // Server i is connected still, and was sent no Register.
  ghost predicate StaysConnected(s: State, end: State, i: nat) {
    i < |s.servers| == |end.servers| && Connected(end.servers[i]) && NoneSent(s, end, i)
  }

  lemma StartKeeps(s: State, i: nat, now: int)
    requires i < |s.servers| && Connected(s.servers[i])
    ensures var end := Start(s, false, now).0; end.servers[i] == s.servers[i] && NoneSent(s, end, i)
  {
    StartLeaves(s, i, now);
    StartLog(s, false, now);
    var end := Start(s, false, now).0;
    forall k | |s.log| <= k < |end.log| ensures end.log[k] != Sent(i) { assert NewStart(s, end, k, false); }
  }

  lemma RefusalKeeps(s: State, j: nat, i: nat, now: int)
    requires i < |s.servers| && j < |s.servers| && j != i && Connected(s.servers[i]) && s.servers[j].attempt > 0
    ensures StaysConnected(s, AttemptFailure(s, j, now), i)
  {
    StartKeeps(s, i, now);
  }

  lemma ReplyKeepsOther(s: State, j: nat, i: nat, now: int, answer: Answer)
    requires Counted(s) && i < |s.servers| && j < |s.servers| && Connected(s.servers[i])
    ensures StaysConnected(s, Reply(s, j, now, answer), i)
  {
    if j != i && s.servers[j].status == Pending {
      var s1 := Put(s, j, s.servers[j].(time := now));
      if answer == Refused { RefusalKeeps(s1, j, i, now); }
      if answer == Accepted { StartKeeps(Put(s1, j, s1.servers[j].(status := Registered)), i, now); }
    }
  }

  lemma {:induction false} RequestsAre(servers: seq<Server>, i: nat, now: int, sendable: seq<bool>)
    requires |sendable| == |servers|
    ensures forall e :: e in Requests(servers, i, now, sendable) ==>
              e.Sent? && e.server < |servers| && servers[e.server].status == HoldOff
    decreases |servers| - i
  {
    if i < |servers| { RequestsAre(servers, i + 1, now, sendable); }
  }

  lemma TickKeepsConnected(s: State, i: nat, now: int, sendable: seq<bool>, timeout: int)
    requires |sendable| == |s.servers| && i < |s.servers| && Connected(s.servers[i])
    ensures StaysConnected(s, TickFrom(s, 0, now, sendable, timeout).0, i)
  {
    var end := TickFrom(s, 0, now, sendable, timeout).0;
    TickVisits(s, 0, now, sendable, timeout);
    RequestsAre(s.servers, 0, now, sendable);
    assert Visited(s.servers[i], end.servers[i], now, sendable[i]);
    var more := Requests(s.servers, 0, now, sendable);
    forall k | |s.log| <= k < |end.log| ensures end.log[k] != Sent(i) { assert end.log[k] == more[k - |s.log|]; }
  }

  // An Update to server i is refused.
  predicate Refuses(s: State, a: Act, i: nat)
    requires i < |s.servers|
  {
    a.UpdateReplied? && a.server == i && a.answer == Refused && s.servers[i].status == UpdatePending
  }

  ghost predicate NeverRefused(s: State, acts: seq<Act>, i: nat)
    decreases |acts|
  {
    acts == [] ||
    (&& Counted(s) && Fits(|s.servers|, acts[0]) && !acts[0].Restart?
     && i < |s.servers| && !Refuses(s, acts[0], i) && NeverRefused(Step(s, acts[0]), acts[1..], i))
  }

  lemma StepKeepsConnected(s: State, a: Act, i: nat)
    requires Counted(s) && Fits(|s.servers|, a) && i < |s.servers| && Connected(s.servers[i])
    requires !a.Restart? && !Refuses(s, a, i)
    ensures StaysConnected(s, Step(s, a), i)
  {
    match a
    case Tick(now, sendable, timeout) => TickKeepsConnected(s, i, now, sendable, timeout);
    case Replied(j, now, answer) => ReplyKeepsOther(s, j, i, now, answer);
    case UpdateReplied(j, now, answer) =>
    case UpdateAsked(j, withObjects) =>
  }

  // Over every run without a restart a connected server is sent no further
  // Register, and stays connected until an Update to it is refused, whatever
  // becomes of the others.
  lemma {:induction false} ConnectedStays(s: State, acts: seq<Act>, end: State, i: nat)
    requires i < |s.servers| && Connected(s.servers[i]) && Reaches(s, acts, end) && NeverRefused(s, acts, i)
    ensures StaysConnected(s, end, i)
    decreases |acts|
  {
    if acts != [] {
      var mid := Step(s, acts[0]);
      StepKeepsConnected(s, acts[0], i);
      ConnectedStays(mid, acts[1..], end, i);
      forall k | |s.log| <= k < |end.log| ensures end.log[k] != Sent(i) {
        if k < |mid.log| { assert end.log[k] == mid.log[k]; }
      }
    }
  }

  // So once a server accepts, that is the end of its Register requests.
  lemma AcceptedIsRegistered(s: State, i: nat, now: int, acts: seq<Act>, end: State)
    requires Counted(s) && i < |s.servers| && s.servers[i].status == Pending
    requires Reaches(Reply(s, i, now, Accepted), acts, end) && NeverRefused(Reply(s, i, now, Accepted), acts, i)
    ensures var s1 := Reply(s, i, now, Accepted);
            && s1.servers[i] == s.servers[i].(status := Registered, time := now)
            && StaysConnected(s1, end, i)
  {
    AnswerDecides(s, i, now);
    ConnectedStays(Reply(s, i, now, Accepted), acts, end, i);
  }

  // And a refused Update is what ends it.
  lemma RefusedUpdateFails(s: State, a: Act, i: nat)
    requires Counted(s) && Fits(|s.servers|, a) && i < |s.servers| && Refuses(s, a, i)
    ensures Step(s, a).servers[i] == s.servers[i].(status := Failed, time := a.now)
  {
  }
}
