// How often a client tries to register.
module RegistrationRetries {
  import opened Common
  import opened Registration
  import opened RegistrationOrder

  // Attempts and sequences are those of OMA LwM2M 1.1 section 6.2.1
  // (wakaama/core/registration.c).

  // Register requests sent to a server since it was last started.
  function Sends(log: seq<Event>, i: nat): nat {
    if log == [] then 0
    else
      var last := log[|log| - 1];
      if last == Started(i) then 0 else Sends(log[..|log| - 1], i) + if last == Sent(i) then 1 else 0
  }

  lemma SendsAppend(log: seq<Event>, e: Event, i: nat)
    ensures Sends(log + [e], i) ==
            if e == Started(i) then 0 else Sends(log, i) + if e == Sent(i) then 1 else 0
  {
    assert (log + [e])[..|log|] == log;
  }

  // A limit of zero acts as one; a server whose limits cannot be read fails at
  // the first use of them.
  function MaxAttempts(c: Config): nat {
    if AttemptLimit(c) == None then 1 else Max(1, AttemptLimit(c).value.count)
  }

  function MaxSequences(c: Config): nat {
    if AttemptLimit(c) == None || SequenceLimit(c) == None then 1 else Max(1, SequenceLimit(c).value.count)
  }

  function Budget(c: Config): nat { MaxAttempts(c) * MaxSequences(c) }

  ghost predicate Progress(v: Server, sends: nat) {
    match v.status
    case Deregistered => sends == 0
    case HoldOff =>
      && v.attempt < MaxAttempts(v.c)
      && if v.attempt == 0 then v.sequence < MaxSequences(v.c) && sends == v.sequence * MaxAttempts(v.c)
         else 1 <= v.sequence <= MaxSequences(v.c) && sends == (v.sequence - 1) * MaxAttempts(v.c) + v.attempt
    case Pending =>
      && 1 <= v.attempt <= MaxAttempts(v.c) && 1 <= v.sequence <= MaxSequences(v.c)
      && sends == (v.sequence - 1) * MaxAttempts(v.c) + v.attempt
    case _ => sends <= Budget(v.c)
  }

  ghost predicate ProgressAt(s: State, i: nat)
    requires i < |s.servers|
  {
    Progress(s.servers[i], Sends(s.log, i))
  }

  ghost predicate Inv(s: State) { forall i :: 0 <= i < |s.servers| ==> ProgressAt(s, i) }

  lemma Rows(a: nat, rows: nat, width: nat, k: nat)
    requires a + 1 <= rows && k <= width && 0 < width
    ensures a * width + k <= width * rows
    ensures a * width + k == width * rows <==> a + 1 == rows && k == width
  {
    assert width * rows == a * width + (rows - a) * width;
    if a + 1 < rows { assert (rows - a) * width >= 2 * width by { Times(rows - a, 2, width); } }
  }

  lemma Times(a: nat, b: nat, w: nat)
    requires a >= b
    ensures a * w >= b * w
  {
  }

  lemma PendingWithin(v: Server, sends: nat)
    requires v.status == Pending && Progress(v, sends)
    ensures sends <= Budget(v.c)
    ensures sends == Budget(v.c) <==> v.attempt == MaxAttempts(v.c) && v.sequence == MaxSequences(v.c)
  {
    Rows(v.sequence - 1, MaxSequences(v.c), MaxAttempts(v.c), v.attempt);
  }

  // ----- Steps --------------------------------------------------------------

  // Server i changes, the log may grow by its own sending.
  lemma PutKeeps(s: State, i: nat, end: State)
    requires Inv(s) && i < |s.servers| && |end.servers| == |s.servers|
    requires forall j :: 0 <= j < |s.servers| && j != i ==> end.servers[j] == s.servers[j]
    requires end.log == s.log || end.log == s.log + [Sent(i)] || end.log == s.log + [Started(i)]
    requires ProgressAt(end, i)
    ensures Inv(end)
  {
    forall j | 0 <= j < |s.servers| ensures ProgressAt(end, j) {
      assert ProgressAt(s, j);
      SendsAppend(s.log, Sent(i), j);
      SendsAppend(s.log, Started(i), j);
    }
  }

  lemma StartedAt(s: State, i: nat, w: Server)
    requires i < |s.servers| && Inv(s) && Starts(s.servers[i], w)
    ensures Inv(State(s.servers[i := w], s.needsBootstrap, s.log + [Started(i)]))
  {
    SendsAppend(s.log, Started(i), i);
    PutKeeps(s, i, State(s.servers[i := w], s.needsBootstrap, s.log + [Started(i)]));
  }

  lemma ResetAt(s: State, i: nat, restartFailed: bool)
    requires i < |s.servers| && Inv(s) && Considered(s.servers[i], restartFailed)
    ensures Inv(Put(s, i, s.servers[i].(attempt := 0, sequence := 0)))
  {
    assert ProgressAt(s, i);
    PutKeeps(s, i, Put(s, i, s.servers[i].(attempt := 0, sequence := 0)));
  }

  lemma BeginKeeps(s: State, i: nat, now: int)
    requires i < |s.servers| && Inv(s) && s.servers[i].attempt == 0 && s.servers[i].sequence == 0
    requires s.servers[i].c.order != Broken && s.servers[i].c.initialDelay != Broken
    ensures Inv(Begin(s, i, now).0)
  {
    StartedAt(s, i, Begin(s, i, now).0.servers[i]);
  }

  lemma WalkAtKeeps(s: State, i: nat, restartFailed: bool, now: int, first: Option<First>)
    requires i < |s.servers| && Inv(s)
    ensures Inv(WalkAt(s, i, restartFailed, now, first).0)
  {
    if Considered(s.servers[i], restartFailed) {
      ResetAt(s, i, restartFailed);
      var s1 := Put(s, i, s.servers[i].(attempt := 0, sequence := 0));
      if s.servers[i].c.order == Missing && s.servers[i].c.initialDelay != Broken {
        BeginKeeps(s1, i, now);
      }
    }
  }

  lemma {:induction false} WalkKeeps(s: State, i: nat, restartFailed: bool, now: int, first: Option<First>)
    requires Within(s, first) && Inv(s)
    ensures Inv(Walk(s, i, restartFailed, now, first).0)
    decreases |s.servers| - i
  {
    if i < |s.servers| {
      var (s1, f, go) := WalkAt(s, i, restartFailed, now, first);
      WalkAtKeeps(s, i, restartFailed, now, first);
      if go {
        WalkKeeps(s1, i + 1, restartFailed, now, f);
      }
    }
  }

  lemma StartKeeps(s: State, restartFailed: bool, now: int)
    requires Inv(s)
    ensures Inv(Start(s, restartFailed, now).0)
  {
    var (s1, f, ok) := Walk(s, 0, restartFailed, now, None);
    WalkKeeps(s, 0, restartFailed, now, None);
    WalkFirst(s, 0, restartFailed, now, None);
    WalkServers(s, 0, restartFailed, now, None);
    if f.Some? && s1.servers[f.value.server].c.initialDelay != Broken {
      BeginKeeps(s1, f.value.server, now);
    }
  }

  lemma StartLeaves(s: State, i: nat, now: int)
    requires i < |s.servers| && s.servers[i].status == Pending
    ensures var end := Start(s, false, now).0;
            end.servers[i] == s.servers[i] && Sends(end.log, i) == Sends(s.log, i)
  {
    var end := Start(s, false, now).0;
    StartShape(s, false, now);
    StartLog(s, false, now);
    assert After(s.servers[i], end.servers[i], false);
    forall k | |s.log| <= k < |end.log| ensures end.log[k] != Started(i) && end.log[k] != Sent(i) {
      assert NewStart(s, end, k, false);
    }
    OtherEvents(s.log, end.log, i);
  }

  lemma {:induction false} OtherEvents(log: seq<Event>, longer: seq<Event>, i: nat)
    requires log <= longer
    requires forall k :: |log| <= k < |longer| ==> longer[k] != Started(i) && longer[k] != Sent(i)
    ensures Sends(longer, i) == Sends(log, i)
    decreases |longer|
  {
    if |log| < |longer| {
      OtherEvents(log, longer[..|longer| - 1], i);
    } else {
      assert log == longer;
    }
  }

  lemma GiveUpKeeps(s: State, i: nat)
    requires Inv(s) && i < |s.servers| && s.servers[i].status == Pending
    ensures Inv(GiveUp(s, i)) && GiveUp(s, i).servers[i].status == Failed
  {
    assert ProgressAt(s, i);
    PendingWithin(s.servers[i], Sends(s.log, i));
    var s1 := Put(s, i, s.servers[i].(status := Failed));
    PutKeeps(s, i, s1);
    forall j | 0 <= j < |s.servers| ensures ProgressAt(GiveUp(s, i), j) {
      assert ProgressAt(s1, j);
    }
  }

  ghost predicate LastAttempt(v: Server) {
    v.status == Pending && AttemptLimit(v.c).Some? && v.attempt >= AttemptLimit(v.c).value.count
  }

  // A refusal: the server fails exactly when it has used up its budget.
  lemma NextSequenceKeeps(s: State, i: nat, now: int)
    requires Inv(s) && i < |s.servers| && LastAttempt(s.servers[i])
    ensures Inv(NextSequence(s, i, now))
    ensures NextSequence(s, i, now).servers[i].status == Failed <==> Sends(s.log, i) == Budget(s.servers[i].c)
  {
    var v := s.servers[i];
    assert ProgressAt(s, i);
    PendingWithin(v, Sends(s.log, i));
    assert v.attempt == MaxAttempts(v.c);
    var l := SequenceLimit(v.c);
    if l == None {
      PutKeeps(s, i, Put(s, i, v.(status := Failed)));
    } else if v.sequence >= l.value.count {
      GiveUpKeeps(s, i);
    } else {
      assert v.sequence * MaxAttempts(v.c) == (v.sequence - 1) * MaxAttempts(v.c) + MaxAttempts(v.c);
      PutKeeps(s, i, NextSequence(s, i, now));
    }
  }

  lemma SequenceFailureKeeps(s: State, i: nat, now: int)
    requires Inv(s) && i < |s.servers| && LastAttempt(s.servers[i])
    ensures Inv(SequenceFailure(s, i, now))
    ensures SequenceFailure(s, i, now).servers[i].status == Failed <==>
            Sends(s.log, i) == Budget(s.servers[i].c)
  {
    if FailureStartsNext(s.servers[i]) {
      StartKeeps(s, false, now);
      StartLeaves(s, i, now);
      NextSequenceKeeps(Start(s, false, now).0, i, now);
    } else {
      NextSequenceKeeps(s, i, now);
    }
  }

  lemma AttemptFailureKeeps(s: State, i: nat, now: int)
    requires Inv(s) && i < |s.servers| && s.servers[i].status == Pending && s.servers[i].attempt > 0
    ensures Inv(AttemptFailure(s, i, now))
    ensures AttemptFailure(s, i, now).servers[i].status == Failed <==>
            Sends(s.log, i) == Budget(s.servers[i].c)
  {
    var v := s.servers[i];
    assert ProgressAt(s, i);
    PendingWithin(v, Sends(s.log, i));
    var l := AttemptLimit(v.c);
    if l.Some? && v.attempt >= l.value.count {
      SequenceFailureKeeps(s, i, now);
    } else {
      PutKeeps(s, i, AttemptFailure(s, i, now));
    }
  }

  lemma ReplyKeeps(s: State, i: nat, now: int, answer: Answer)
    requires Inv(s) && i < |s.servers| && Counted(s)
    ensures Inv(Reply(s, i, now, answer))
  {
    var v := s.servers[i];
    if v.status == Pending {
      assert ProgressAt(s, i);
      PendingWithin(v, Sends(s.log, i));
      var s1 := Put(s, i, v.(time := now));
      PutKeeps(s, i, s1);
      match answer
      case Continue =>
      case Accepted =>
        var s2 := Put(s1, i, s1.servers[i].(status := Registered));
        PutKeeps(s1, i, s2);
        StartKeeps(s2, false, now);
      case Refused => AttemptFailureKeeps(s1, i, now);
    }
  }

  // One more request keeps the count of requests in step with the counters.
  lemma OneMore(v: Server, sends: nat)
    requires v.status == HoldOff && Progress(v, sends)
    ensures v.attempt < 254 && v.sequence <= 254 && (v.attempt == 0 ==> v.sequence < 254)
    ensures Progress(v.(sequence := if v.attempt == 0 then Bump(v.sequence) else v.sequence,
                        attempt := Bump(v.attempt), status := Pending), sends + 1)
  {
  }

  lemma RegisterKeeps(s: State, i: nat)
    requires Inv(s) && i < |s.servers| && s.servers[i].status == HoldOff
    ensures Inv(Register(s, i))
    ensures s.servers[i].attempt < 254 && s.servers[i].sequence <= 254
    ensures s.servers[i].attempt == 0 ==> s.servers[i].sequence < 254
  {
    assert ProgressAt(s, i);
    OneMore(s.servers[i], Sends(s.log, i));
    SendsAppend(s.log, Sent(i), i);
    PutKeeps(s, i, Register(s, i));
  }

  lemma VisitKeeps(s: State, i: nat, now: int, sendable: bool, timeout: int)
    requires Inv(s) && i < |s.servers|
    ensures Inv(Visit(s, i, now, sendable, timeout).0)
  {
    assert ProgressAt(s, i);
    var s1 := Visit(s, i, now, sendable, timeout).0;
    if s.servers[i].status == HoldOff {
      RegisterKeeps(s, i);
    } else {
      PutKeeps(s, i, s1);
    }
  }

  lemma {:induction false} TickKeeps(s: State, i: nat, now: int, sendable: seq<bool>, timeout: int)
    requires Inv(s) && |sendable| == |s.servers|
    ensures Inv(TickFrom(s, i, now, sendable, timeout).0)
    decreases |s.servers| - i
  {
    if i < |s.servers| {
      var (s1, t) := Visit(s, i, now, sendable[i], timeout);
      VisitKeeps(s, i, now, sendable[i], timeout);
      TickKeeps(s1, i + 1, now, sendable, t);
    }
  }

  lemma UpdateKeeps(s: State, i: nat, end: State)
    requires Inv(s) && i < |s.servers| == |end.servers| && end == Put(s, i, end.servers[i])
    requires end.servers[i] == s.servers[i] ||
             (Connected(s.servers[i]) && end.servers[i].c == s.servers[i].c &&
              (Connected(end.servers[i]) || end.servers[i].status == Failed))
    ensures Inv(end)
  {
    assert ProgressAt(s, i);
    PutKeeps(s, i, end);
  }

  lemma StepKeeps(s: State, a: Act)
    requires Inv(s) && Fits(|s.servers|, a) && Counted(s)
    ensures Inv(Step(s, a))
  {
    match a
    case Restart(now) => StartKeeps(s, true, now);
    case Tick(now, sendable, timeout) => TickKeeps(s, 0, now, sendable, timeout);
    case Replied(i, now, answer) => ReplyKeeps(s, i, now, answer);
    case UpdateReplied(i, now, answer) => UpdateKeeps(s, i, UpdateReply(s, i, now, answer));
    case UpdateAsked(i, withObjects) => UpdateKeeps(s, i, AskUpdate(s, i, withObjects));
  }

  // ----- Whole runs ---------------------------------------------------------

  // Freshly read from the Security and Server objects.
  ghost predicate Initial(s: State) {
    && s.log == []
    && forall j :: 0 <= j < |s.servers| ==> s.servers[j].status == Deregistered
  }

  lemma {:induction false} InvReached(s: State, acts: seq<Act>, end: State)
    requires Inv(s) && Reaches(s, acts, end)
    ensures Inv(end)
    decreases |acts|
  {
    if acts != [] {
      StepKeeps(s, acts[0]);
      InvReached(Step(s, acts[0]), acts[1..], end);
    }
  }

  lemma InvAlways(s: State, acts: seq<Act>, end: State)
    requires Initial(s) && Reaches(s, acts, end)
    ensures Inv(end)
  {
    forall i | 0 <= i < |s.servers| ensures ProgressAt(s, i) {}
    InvReached(s, acts, end);
  }

  // On every run, restarts included, a server is sent no more Register
  // requests per start than its limits allow; no counter ever wraps.
  lemma WithinBudget(s: State, acts: seq<Act>, end: State, i: nat)
    requires Initial(s) && Reaches(s, acts, end) && i < |end.servers|
    ensures Sends(end.log, i) <= Budget(end.servers[i].c)
    ensures InProgress(end.servers[i]) ==> end.servers[i].attempt <= 254 && end.servers[i].sequence <= 254
    ensures Counted(end)
  {
    InvAlways(s, acts, end);
    assert ProgressAt(end, i);
    var v := end.servers[i];
    if v.status == Pending {
      PendingWithin(v, Sends(end.log, i));
    } else if v.status == HoldOff {
      var a: nat := if v.attempt == 0 then v.sequence else v.sequence - 1;
      Rows(a, MaxSequences(v.c), MaxAttempts(v.c), v.attempt);
    }
    forall j | 0 <= j < |end.servers| && end.servers[j].status == Pending ensures end.servers[j].attempt > 0 {
      assert ProgressAt(end, j);
    }
  }

  // A refused server gives up exactly when its last request was the last one
  // its limits allow: not earlier, and not later.
  lemma GivesUpIff(s: State, acts: seq<Act>, mid: State, i: nat, now: int)
    requires Initial(s) && Reaches(s, acts, mid) && i < |mid.servers| && mid.servers[i].status == Pending
    ensures Counted(mid)
    ensures Reply(mid, i, now, Refused).servers[i].status == Failed <==>
            Sends(mid.log, i) == Budget(mid.servers[i].c)
  {
    InvAlways(s, acts, mid);
    WithinBudget(s, acts, mid, i);
    assert ProgressAt(mid, i);
    var s1 := Put(mid, i, mid.servers[i].(time := now));
    PutKeeps(mid, i, s1);
    AttemptFailureKeeps(s1, i, now);
  }

  // A step that can send sends exactly one more request, within the budget,
  // and the byte counters go up without wrapping.
  lemma AttemptCounts(s: State, acts: seq<Act>, mid: State, i: nat)
    requires Initial(s) && Reaches(s, acts, mid) && i < |mid.servers| && mid.servers[i].status == HoldOff
    ensures var v, w := mid.servers[i], Register(mid, i).servers[i];
            && w.attempt == v.attempt + 1
            && w.sequence == v.sequence + (if v.attempt == 0 then 1 else 0)
            && Sends(Register(mid, i).log, i) == Sends(mid.log, i) + 1 <= Budget(v.c)
  {
    InvAlways(s, acts, mid);
    RegisterKeeps(mid, i);
    SendsAppend(mid.log, Sent(i), i);
    var s1 := Register(mid, i);
    assert ProgressAt(s1, i);
    PendingWithin(s1.servers[i], Sends(s1.log, i));
  }

  // ----- Promptness ---------------------------------------------------------

  // After a step no server is left waiting past the time of its next Register
  // or Update, unless that could not go out, and the next step is asked for in
  // time for the others.
  ghost predicate OnTime(v: Server, now: int, sendable: bool, timeout: int) {
    match v.status
    case HoldOff => if v.time <= now then !sendable else timeout <= v.time - now
    case Registered => if UpdateDue(v) <= now then !sendable else timeout <= UpdateDue(v) - now
    case UpdateNeeded | FullUpdateNeeded => !sendable
    case Deregistered | Pending | UpdatePending | DeregistrationPending | Failed => true
  }

  lemma {:induction false} TickOnTime(s: State, i: nat, now: int, sendable: seq<bool>, timeout: int)
    requires |sendable| == |s.servers|
    ensures var (end, t) := TickFrom(s, i, now, sendable, timeout);
            && |end.servers| == |s.servers| && t <= timeout
            && (forall j :: 0 <= j < i && j < |s.servers| ==> end.servers[j] == s.servers[j])
            && forall j :: i <= j < |s.servers| ==> OnTime(end.servers[j], now, sendable[j], t)
    decreases |s.servers| - i
  {
    if i < |s.servers| {
      var (s1, t) := Visit(s, i, now, sendable[i], timeout);
      TickOnTime(s1, i + 1, now, sendable, t);
    }
  }
}
