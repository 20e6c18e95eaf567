// In which order servers are started.
module RegistrationOrder {
  import opened Common
  import opened Registration

  // ----- The shape of registration_start ------------------------------------

  // A server at which the loop of registration_start ends.
  predicate Unreadable(c: Config) { c.order == Broken || (c.order == Missing && c.initialDelay == Broken) }

  ghost predicate Starts(v: Server, w: Server) {
    !Unreadable(v.c) && w == v.(attempt := 0, sequence := 0, status := HoldOff, time := w.time)
  }

  ghost predicate After(v: Server, w: Server, restartFailed: bool) {
    w == v || (Considered(v, restartFailed) && (w == v.(attempt := 0, sequence := 0) || Starts(v, w)))
  }

  // Entry k of the new log says that a server was started, which it was.
  ghost predicate NewStart(s: State, end: State, k: nat, restartFailed: bool)
    requires k < |end.log| && |s.servers| == |end.servers|
  {
    && end.log[k].Started? && end.log[k].server < |s.servers|
    && Considered(s.servers[end.log[k].server], restartFailed)
    && Starts(s.servers[end.log[k].server], end.servers[end.log[k].server])
  }

  // What a round does to server i; no other changes.
  lemma WalkAtShape(s: State, i: nat, restartFailed: bool, now: int, first: Option<First>)
    requires i < |s.servers|
    ensures var end := WalkAt(s, i, restartFailed, now, first).0;
            && end.servers == s.servers[i := end.servers[i]]
            && After(s.servers[i], end.servers[i], restartFailed)
            && (Ordered(s.servers[i].c) ==> end.servers[i].status == s.servers[i].status)
            && (end.log == s.log ||
                (end.log == s.log + [Started(i)] && Considered(s.servers[i], restartFailed) &&
                 !Ordered(s.servers[i].c) && Starts(s.servers[i], end.servers[i])))
  {
  }

  lemma WalkAtFirst(s: State, i: nat, restartFailed: bool, now: int, first: Option<First>)
    requires i < |s.servers|
    ensures var (end, f, go) := WalkAt(s, i, restartFailed, now, first);
            && (f != first ==>
                  Considered(s.servers[i], restartFailed) && s.servers[i].c.order.Value? &&
                  f == Some(First(i, s.servers[i].c.order.v)) &&
                  end.servers[i] == s.servers[i].(attempt := 0, sequence := 0))
            && (go <==> !(Considered(s.servers[i], restartFailed) && Unreadable(s.servers[i].c)))
  {
  }

  // The log entries the walk adds.
  lemma {:induction false} WalkLog(s: State, i: nat, restartFailed: bool, now: int, first: Option<First>)
    requires Within(s, first)
    ensures var end := Walk(s, i, restartFailed, now, first).0;
            && s.log <= end.log
            && (forall j :: 0 <= j < |s.servers| && j < i ==> end.servers[j] == s.servers[j])
            && forall k :: |s.log| <= k < |end.log| ==>
                 NewStart(s, end, k, restartFailed) && !Ordered(s.servers[end.log[k].server].c) &&
                 end.log[k].server >= i
    decreases |s.servers| - i
  {
    if i < |s.servers| {
      var (s1, f, go) := WalkAt(s, i, restartFailed, now, first);
      WalkAtShape(s, i, restartFailed, now, first);
      if go {
        WalkLog(s1, i + 1, restartFailed, now, f);
        var end := Walk(s1, i + 1, restartFailed, now, f).0;
        forall k | |s.log| <= k < |end.log|
          ensures NewStart(s, end, k, restartFailed) && !Ordered(s.servers[end.log[k].server].c)
          ensures end.log[k].server >= i
        {
          if k < |s1.log| { assert end.log[k] == s1.log[k] == Started(i); } else {
            assert NewStart(s1, end, k, restartFailed);
            assert s1.servers[end.log[k].server] == s.servers[end.log[k].server];
          }
        }
      }
    }
  }

  // The servers it leaves.
  lemma {:induction false} WalkServers(s: State, i: nat, restartFailed: bool, now: int, first: Option<First>)
    requires Within(s, first)
    ensures var end := Walk(s, i, restartFailed, now, first).0;
            forall j :: 0 <= j < |s.servers| ==>
              After(s.servers[j], end.servers[j], restartFailed) &&
              (j < i ==> end.servers[j] == s.servers[j]) &&
              (Ordered(s.servers[j].c) ==> end.servers[j].status == s.servers[j].status)
    decreases |s.servers| - i
  {
    if i < |s.servers| {
      var (s1, f, go) := WalkAt(s, i, restartFailed, now, first);
      WalkAtShape(s, i, restartFailed, now, first);
      if go {
        WalkServers(s1, i + 1, restartFailed, now, f);
      }
    }
  }

  ghost predicate Ready(s: State, end: State, first: First, restartFailed: bool) {
    && first.server < |s.servers| == |end.servers|
    && Considered(s.servers[first.server], restartFailed)
    && s.servers[first.server].c.order == Value(first.order)
    && end.servers[first.server] == s.servers[first.server].(attempt := 0, sequence := 0)
  }

  // The server it picks is ready to be started.
  lemma {:induction false} WalkFirst(s: State, i: nat, restartFailed: bool, now: int, first: Option<First>)
    requires Within(s, first)
    ensures var (end, f, _) := Walk(s, i, restartFailed, now, first);
            f != first ==> f.Some? && f.value.server >= i && Ready(s, end, f.value, restartFailed)
    decreases |s.servers| - i
  {
    if i < |s.servers| {
      var (s1, f, go) := WalkAt(s, i, restartFailed, now, first);
      WalkAtShape(s, i, restartFailed, now, first);
      WalkAtFirst(s, i, restartFailed, now, first);
      if go {
        WalkServers(s1, i + 1, restartFailed, now, f);
        WalkFirst(s1, i + 1, restartFailed, now, f);
      }
    }
  }

  // Which ordered server the loop picks, on its own.
  function PickFrom(servers: seq<Server>, i: nat, restartFailed: bool, first: Option<First>): Option<First>
    decreases |servers| - i
  {
    if i >= |servers| then first
    else if !Considered(servers[i], restartFailed) then PickFrom(servers, i + 1, restartFailed, first)
    else if Unreadable(servers[i].c) then first
    else PickFrom(servers, i + 1, restartFailed,
                  if Ordered(servers[i].c) then Better(servers[i].c.order.v, i, first) else first)
  }

  function Pick(servers: seq<Server>, restartFailed: bool): Option<First> {
    PickFrom(servers, 0, restartFailed, None)
  }

  ghost predicate SameFrom(a: seq<Server>, b: seq<Server>, i: nat, restartFailed: bool) {
    && |a| == |b|
    && forall j :: i <= j < |a| ==>
         && a[j].c == b[j].c
         && (Ordered(a[j].c) || Unreadable(a[j].c) ==>
               Considered(a[j], restartFailed) == Considered(b[j], restartFailed))
  }

  lemma {:induction false} PickSame(
    a: seq<Server>, b: seq<Server>, i: nat, restartFailed: bool, first: Option<First>)
    requires SameFrom(a, b, i, restartFailed)
    ensures PickFrom(a, i, restartFailed, first) == PickFrom(b, i, restartFailed, first)
    decreases |a| - i
  {
    if i < |a| && !(Considered(a[i], restartFailed) && Unreadable(a[i].c)) {
      PickSame(a, b, i + 1, restartFailed,
               if Considered(a[i], restartFailed) && Ordered(a[i].c)
               then Better(a[i].c.order.v, i, first) else first);
    }
  }

  lemma PickAt(s: State, i: nat, restartFailed: bool, now: int, first: Option<First>)
    requires i < |s.servers|
    ensures var (_, f, go) := WalkAt(s, i, restartFailed, now, first);
            PickFrom(s.servers, i, restartFailed, first) ==
            if go then PickFrom(s.servers, i + 1, restartFailed, f) else f
  {
  }

  lemma {:induction false} WalkPicks(s: State, i: nat, restartFailed: bool, now: int, first: Option<First>)
    requires Within(s, first)
    ensures Walk(s, i, restartFailed, now, first).1 == PickFrom(s.servers, i, restartFailed, first)
    decreases |s.servers| - i
  {
    if i < |s.servers| {
      var (s1, f, go) := WalkAt(s, i, restartFailed, now, first);
      WalkAtShape(s, i, restartFailed, now, first);
      PickAt(s, i, restartFailed, now, first);
      if go {
        WalkPicks(s1, i + 1, restartFailed, now, f);
        PickSame(s1.servers, s.servers, i + 1, restartFailed, f);
      }
    }
  }

  // Up for choice: considered, ordered, and no unreadable server before it.
  ghost predicate Startable(servers: seq<Server>, j: nat, restartFailed: bool) {
    && j < |servers| && Considered(servers[j], restartFailed) && Ordered(servers[j].c)
    && forall k :: 0 <= k < j ==> !(Considered(servers[k], restartFailed) && Unreadable(servers[k].c))
  }

  ghost predicate Best(servers: seq<Server>, restartFailed: bool, n: nat, first: Option<First>) {
    && (first.Some? ==>
          first.value.server < n && Startable(servers, first.value.server, restartFailed) &&
          servers[first.value.server].c.order == Value(first.value.order))
    && forall j: nat :: j < n && Startable(servers, j, restartFailed) ==>
         && first.Some? && first.value.order <= servers[j].c.order.v
         && (j < first.value.server ==> first.value.order < servers[j].c.order.v)
  }

  lemma {:induction false} PickFromIs(servers: seq<Server>, i: nat, restartFailed: bool, first: Option<First>)
    requires i <= |servers| && Best(servers, restartFailed, i, first)
    requires forall k :: 0 <= k < i ==> !(Considered(servers[k], restartFailed) && Unreadable(servers[k].c))
    ensures Best(servers, restartFailed, |servers|, PickFrom(servers, i, restartFailed, first))
    decreases |servers| - i
  {
    if i < |servers| && !(Considered(servers[i], restartFailed) && Unreadable(servers[i].c)) {
      PickFromIs(servers, i + 1, restartFailed,
                 if Considered(servers[i], restartFailed) && Ordered(servers[i].c)
                 then Better(servers[i].c.order.v, i, first) else first);
    }
  }

  // registration_start picks the first in order of the servers up for choice,
  // and the first in the list of equals.
  lemma PickIs(servers: seq<Server>, restartFailed: bool)
    ensures Best(servers, restartFailed, |servers|, Pick(servers, restartFailed))
  {
    PickFromIs(servers, 0, restartFailed, None);
  }

  predicate CanBegin(c: Config) { c.initialDelay != Broken }

  // The server registration_start picks and can start, if any.
  function Chosen(s: State, restartFailed: bool): Option<First> {
    var f := Pick(s.servers, restartFailed);
    if f.Some? && f.value.server < |s.servers| && CanBegin(s.servers[f.value.server].c) then f else None
  }

  // What registration_start does to the list and the log: any number of
  // unordered servers, then the chosen one.
  lemma StartShape(s: State, restartFailed: bool, now: int)
    ensures var end := Start(s, restartFailed, now).0; var f := Chosen(s, restartFailed);
            && s.log <= end.log
            && (forall j :: 0 <= j < |s.servers| ==>
                  After(s.servers[j], end.servers[j], restartFailed) &&
                  (Ordered(s.servers[j].c) ==>
                     end.servers[j].status == s.servers[j].status || (f.Some? && f.value.server == j)))
            && (f.Some? ==>
                  |end.log| > |s.log| && end.log[|end.log| - 1] == Started(f.value.server) &&
                  f.value.server < |s.servers| && s.servers[f.value.server].c.order == Value(f.value.order))
  {
    var (s1, f, ok) := Walk(s, 0, restartFailed, now, None);
    WalkLog(s, 0, restartFailed, now, None);
    WalkServers(s, 0, restartFailed, now, None);
    WalkFirst(s, 0, restartFailed, now, None);
    WalkPicks(s, 0, restartFailed, now, None);
  }

  lemma StartLog(s: State, restartFailed: bool, now: int)
    ensures var end := Start(s, restartFailed, now).0; var f := Chosen(s, restartFailed);
            && s.log <= end.log
            && forall k :: |s.log| <= k < |end.log| ==>
                 NewStart(s, end, k, restartFailed) &&
                 (Ordered(s.servers[end.log[k].server].c) ==>
                    k == |end.log| - 1 && f.Some? && end.log[k].server == f.value.server)
  {
    var (s1, f, ok) := Walk(s, 0, restartFailed, now, None);
    WalkLog(s, 0, restartFailed, now, None);
    WalkFirst(s, 0, restartFailed, now, None);
    WalkPicks(s, 0, restartFailed, now, None);
    var end := Start(s, restartFailed, now).0;
    forall k | |s.log| <= k < |end.log|
      ensures NewStart(s, end, k, restartFailed)
      ensures Ordered(s.servers[end.log[k].server].c) ==> k == |end.log| - 1 && f == Chosen(s, restartFailed)
      ensures Ordered(s.servers[end.log[k].server].c) ==> f.Some? && end.log[k].server == f.value.server
    {
      if k < |s1.log| {
        assert end.log[k] == s1.log[k];
        assert NewStart(s, s1, k, restartFailed);
      }
    }
  }

  // ----- Runs as moves ------------------------------------------------------

  // Every step between restarts is made of three kinds of move: a server
  // already started changes, the next one is started, the rest are failed.
  datatype Move = Change(i: nat, v: Server, sent: bool, bootstrap: bool) | StartNext(now: int) | StopRest

  predicate CanMove(s: State, m: Move) {
    m.Change? ==>
      && m.i < |s.servers| && s.servers[m.i].status != Deregistered && s.servers[m.i].status != Failed
      && m.v.status != Deregistered && m.v.c == s.servers[m.i].c
  }

  function Apply(s: State, m: Move): State
    requires CanMove(s, m)
  {
    match m
    case Change(i, v, sent, bootstrap) =>
      State(s.servers[i := v], s.needsBootstrap || bootstrap, if sent then s.log + [Sent(i)] else s.log)
    case StartNext(now) => Start(s, false, now).0
    case StopRest => s.(servers := FailRest(s.servers))
  }

  ghost predicate Moves(s: State, ms: seq<Move>, end: State)
    decreases |ms|
  {
    if ms == [] then end == s else CanMove(s, ms[0]) && Moves(Apply(s, ms[0]), ms[1..], end)
  }

  lemma {:induction false} MovesJoin(s: State, a: seq<Move>, mid: State, b: seq<Move>, end: State)
    requires Moves(s, a, mid) && Moves(mid, b, end)
    ensures Moves(s, a + b, end)
    decreases |a|
  {
    if a == [] { assert a + b == b; } else {
      assert (a + b)[0] == a[0] && (a + b)[1..] == a[1..] + b;
      MovesJoin(Apply(s, a[0]), a[1..], mid, b, end);
    }
  }

  lemma OneMove(s: State, m: Move)
    requires CanMove(s, m)
    ensures Moves(s, [m], Apply(s, m))
  {
    assert [m][1..] == [];
    assert Moves(Apply(s, m), [], Apply(s, m));
  }

  function PutMove(i: nat, v: Server): Move { Change(i, v, false, false) }

  lemma GiveUpMoves(s: State, i: nat) returns (ms: seq<Move>)
    requires i < |s.servers| && s.servers[i].status == Pending
    ensures Moves(s, ms, GiveUp(s, i))
  {
    var v := s.servers[i];
    var wants := Or(v.c.bootstrap, true) != Some(false);
    var m := Change(i, v.(status := Failed), false, wants);
    OneMove(s, m);
    ms := [m];
    if !wants && Ordered(v.c) && v.c.blocking == Value(true) {
      var s1 := Apply(s, m);
      OneMove(s1, StopRest);
      MovesJoin(s, ms, s1, [StopRest], Apply(s1, StopRest));
      ms := ms + [StopRest];
    }
  }

  lemma NextSequenceMoves(s: State, i: nat, now: int) returns (ms: seq<Move>)
    requires i < |s.servers| && s.servers[i].status == Pending
    ensures Moves(s, ms, NextSequence(s, i, now))
  {
    var v := s.servers[i];
    var l := SequenceLimit(v.c);
    if l.Some? && v.sequence >= l.value.count {
      ms := GiveUpMoves(s, i);
    } else {
      var w := if l.Some? then v.(time := now + l.value.delay, status := HoldOff, attempt := 0)
               else v.(status := Failed);
      OneMove(s, PutMove(i, w));
      ms := [PutMove(i, w)];
    }
  }

  lemma SequenceFailureMoves(s: State, i: nat, now: int) returns (ms: seq<Move>)
    requires i < |s.servers| && s.servers[i].status == Pending
    ensures Moves(s, ms, SequenceFailure(s, i, now))
  {
    if FailureStartsNext(s.servers[i]) {
      var s1 := Start(s, false, now).0;
      OneMove(s, StartNext(now));
      StartShape(s, false, now);
      assert After(s.servers[i], s1.servers[i], false);
      var b := NextSequenceMoves(s1, i, now);
      MovesJoin(s, [StartNext(now)], s1, b, NextSequence(s1, i, now));
      ms := [StartNext(now)] + b;
    } else {
      ms := NextSequenceMoves(s, i, now);
    }
  }

  lemma ReplyMoves(s: State, i: nat, now: int, answer: Answer) returns (ms: seq<Move>)
    requires i < |s.servers| && Counted(s)
    ensures Moves(s, ms, Reply(s, i, now, answer))
  {
    var v := s.servers[i];
    if v.status != Pending { return []; }
    var w := v.(time := now);
    var m := PutMove(i, w);
    OneMove(s, m);
    var s1 := Apply(s, m);
    ms := [m];
    match answer
    case Continue =>
    case Accepted =>
      var m1 := PutMove(i, w.(status := Registered));
      var s2 := Apply(s1, m1);
      OneMove(s1, m1);
      MovesJoin(s, [m], s1, [m1], s2);
      ms := [m] + [m1];
      if SuccessStartsNext(s2.servers[i]) {
        OneMove(s2, StartNext(now));
        MovesJoin(s, ms, s2, [StartNext(now)], Start(s2, false, now).0);
        ms := ms + [StartNext(now)];
      }
    case Refused =>
      var rest: seq<Move>;
      var l := AttemptLimit(v.c);
      if l.Some? && v.attempt >= l.value.count {
        rest := SequenceFailureMoves(s1, i, now);
      } else {
        var m1 := PutMove(i, if l == None then w.(status := Failed)
          else w.(time := now + l.value.delay * Pow2(v.attempt - 1), status := HoldOff));
        OneMove(s1, m1);
        rest := [m1];
      }
      MovesJoin(s, [m], s1, rest, AttemptFailure(s1, i, now));
      ms := [m] + rest;
  }

  lemma {:induction false} TickMoves(s: State, i: nat, now: int, sendable: seq<bool>, timeout: int)
    returns (ms: seq<Move>)
    requires |sendable| == |s.servers|
    ensures Moves(s, ms, TickFrom(s, i, now, sendable, timeout).0)
    decreases |s.servers| - i
  {
    if i >= |s.servers| { return []; }
    var (s1, t) := Visit(s, i, now, sendable[i], timeout);
    ms := TickMoves(s1, i + 1, now, sendable, t);
    if s1 != s {
      var m := Change(i, s1.servers[i], s.servers[i].status == HoldOff, false);
      OneMove(s, m);
      MovesJoin(s, [m], s1, ms, TickFrom(s, i, now, sendable, timeout).0);
      ms := [m] + ms;
    }
  }

  lemma StepMoves(s: State, a: Act) returns (ms: seq<Move>)
    requires Fits(|s.servers|, a) && Counted(s) && !a.Restart?
    ensures Moves(s, ms, Step(s, a))
  {
    match a
    case Tick(now, sendable, timeout) => ms := TickMoves(s, 0, now, sendable, timeout);
    case Replied(i, now, answer) => ms := ReplyMoves(s, i, now, answer);
    case UpdateReplied(_, _, _) | UpdateAsked(_, _) =>
      ms := [];
      if Step(s, a) != s {
        var m := PutMove(a.server, Step(s, a).servers[a.server]);
        OneMove(s, m);
        ms := [m];
      }
  }

  predicate NoRestart(acts: seq<Act>) { forall k :: 0 <= k < |acts| ==> !acts[k].Restart? }

  lemma {:induction false} RunMoves(s: State, acts: seq<Act>, end: State) returns (ms: seq<Move>)
    requires Reaches(s, acts, end) && NoRestart(acts)
    ensures Moves(s, ms, end)
    decreases |acts|
  {
    if acts == [] { return []; }
    var first := StepMoves(s, acts[0]);
    var rest := RunMoves(Step(s, acts[0]), acts[1..], end);
    MovesJoin(s, first, Step(s, acts[0]), rest, end);
    ms := first + rest;
  }

  // ----- Priority order -----------------------------------------------------

  // Entry k of the log starts an ordered server.
  ghost predicate IsStart(s: State, k: nat) {
    && k < |s.log| && s.log[k].Started? && s.log[k].server < |s.servers|
    && Ordered(s.servers[s.log[k].server].c)
  }

  ghost function OrderAt(s: State, k: nat): nat
    requires IsStart(s, k)
  {
    s.servers[s.log[k].server].c.order.v
  }

  // Ordered servers are started in order, none twice.
  ghost predicate InOrder(s: State) {
    forall a: nat, b: nat :: a < b && IsStart(s, a) && IsStart(s, b) ==>
      s.log[a].server != s.log[b].server && OrderAt(s, a) <= OrderAt(s, b)
  }

  ghost predicate Gone(s: State) {
    forall a: nat :: IsStart(s, a) ==> s.servers[s.log[a].server].status != Deregistered
  }

  // The next server to start, if any, is not before one already started.
  ghost predicate Ladder(s: State) {
    Chosen(s, false).Some? ==> forall a: nat :: IsStart(s, a) ==> OrderAt(s, a) <= Chosen(s, false).value.order
  }

  lemma ChosenSame(s: State, t: State)
    requires SameFrom(s.servers, t.servers, 0, false)
    ensures Chosen(s, false) == Chosen(t, false)
  {
    PickSame(s.servers, t.servers, 0, false, None);
  }

  lemma StartNextClimbs(s: State, now: int)
    requires InOrder(s) && Gone(s) && Ladder(s)
    ensures var end := Start(s, false, now).0; InOrder(end) && Gone(end)
  {
    var end := Start(s, false, now).0;
    StartShape(s, false, now);
    StartLog(s, false, now);
    forall a: nat | IsStart(end, a) && a < |s.log|
      ensures IsStart(s, a) && OrderAt(s, a) == OrderAt(end, a) && s.log[a] == end.log[a]
    {
      assert After(s.servers[end.log[a].server], end.servers[end.log[a].server], false);
    }
    forall a: nat | IsStart(end, a) && |s.log| <= a
      ensures a == |end.log| - 1 && NewStart(s, end, a, false)
      ensures Chosen(s, false).Some? && OrderAt(end, a) == Chosen(s, false).value.order
    {
      assert NewStart(s, end, a, false);
    }
  }

  lemma StartNextLadder(s: State, now: int)
    requires Ladder(s)
    ensures Ladder(Start(s, false, now).0)
  {
    var end := Start(s, false, now).0;
    StartShape(s, false, now);
    StartLog(s, false, now);
    var f := Chosen(s, false);
    if f == None {
      ChosenSame(s, end);
      forall a: nat | IsStart(end, a) ensures IsStart(s, a) {
        assert a < |s.log|;
        assert s.log[a] == end.log[a];
      }
    } else if Chosen(end, false).Some? {
      var g := Chosen(end, false).value;
      PickIs(s.servers, false);
      PickIs(end.servers, false);
      assert Startable(s.servers, g.server, false);
      forall a: nat | IsStart(end, a) ensures OrderAt(end, a) <= g.order {
        if a >= |s.log| { assert NewStart(s, end, a, false); } else {
          assert s.log[a] == end.log[a] && IsStart(s, a) && OrderAt(s, a) == OrderAt(end, a);
        }
      }
    }
  }

  lemma MoveClimbs(s: State, m: Move)
    requires InOrder(s) && Gone(s) && Ladder(s) && CanMove(s, m)
    ensures var end := Apply(s, m); InOrder(end) && Gone(end) && Ladder(end)
  {
    var end := Apply(s, m);
    match m
    case StartNext(now) =>
      StartNextClimbs(s, now);
      StartNextLadder(s, now);
    case StopRest =>
      PickIs(end.servers, false);
      assert forall a: nat :: IsStart(end, a) ==> IsStart(s, a) && OrderAt(s, a) == OrderAt(end, a);
    case Change(i, v, sent, bootstrap) =>
      ChosenSame(s, end);
      assert forall a: nat :: IsStart(end, a) ==> IsStart(s, a) && OrderAt(s, a) == OrderAt(end, a);
  }

  lemma {:induction false} MovesClimb(s: State, ms: seq<Move>, end: State)
    requires InOrder(s) && Gone(s) && Ladder(s) && Moves(s, ms, end)
    ensures InOrder(end)
    decreases |ms|
  {
    if ms != [] {
      MoveClimbs(s, ms[0]);
      MovesClimb(Apply(s, ms[0]), ms[1..], end);
    }
  }

  ghost predicate AlwaysInOrder(s: State) {
    forall acts: seq<Act>, end: State :: NoRestart(acts) && Reaches(s, acts, end) ==> InOrder(end)
  }

  lemma RestartLog(s: State, now: int)
    requires s.log == []
    ensures var s0 := Start(s, true, now).0; InOrder(s0) && Gone(s0)
    ensures var s0 := Start(s, true, now).0;
            forall a: nat :: IsStart(s0, a) ==>
              && s0.servers[s0.log[a].server].status == HoldOff && s0.servers[s0.log[a].server].attempt == 0
              && s0.servers[s0.log[a].server].sequence == 0
              && Chosen(s, true).Some? && OrderAt(s0, a) == Chosen(s, true).value.order
  {
    var s0 := Start(s, true, now).0;
    StartShape(s, true, now);
    StartLog(s, true, now);
    forall a: nat | IsStart(s0, a) ensures a == |s0.log| - 1 && NewStart(s, s0, a, true) {
      assert NewStart(s, s0, a, true);
    }
  }

  lemma {:induction false} TickIdle(s: State, k: nat, i: nat, now: int, timeout: int)
    requires i < k
    ensures TickFrom(s, k, now, seq(|s.servers|, j => j == i), timeout).0 == s
    decreases |s.servers| - k
  {
    if k < |s.servers| {
      TickIdle(s, k + 1, i, now, Visit(s, k, now, false, timeout).1);
    }
  }

  // A step in which only the message to server i goes out.
  lemma {:induction false} TickOne(s: State, k: nat, i: nat, now: int, timeout: int)
    requires k <= i < |s.servers| && s.servers[i].status == HoldOff && s.servers[i].time <= now
    ensures TickFrom(s, k, now, seq(|s.servers|, j => j == i), timeout).0 == Register(s, i)
    decreases i - k
  {
    if k < i {
      TickOne(s, k + 1, i, now, Visit(s, k, now, false, timeout).1);
    } else {
      var s1 := Register(s, i);
      assert seq(|s.servers|, j => j == i) == seq(|s1.servers|, j => j == i);
      TickIdle(s1, i + 1, i, now, timeout);
    }
  }

  // A started server can register at once; then the chosen one starts.
  lemma NextCanStart(s: State, i: nat) returns (acts: seq<Act>, end: State)
    requires Counted(s) && i < |s.servers| && s.servers[i].status == HoldOff && Ordered(s.servers[i].c)
    requires s.servers[i].attempt == 0 && s.servers[i].sequence == 0
    requires Chosen(s, false).Some?
    ensures NoRestart(acts) && Reaches(s, acts, end)
    ensures |end.servers| == |s.servers| && forall j :: 0 <= j < |s.servers| ==> end.servers[j].c == s.servers[j].c
    ensures s.log <= end.log && |s.log| < |end.log|
    ensures end.log[|end.log| - 1] == Started(Chosen(s, false).value.server)
  {
    var now := s.servers[i].time;
    var tick := Tick(now, seq(|s.servers|, j => j == i), 0);
    var reply := Replied(i, now, Accepted);
    acts := [tick, reply];
    TickOne(s, 0, i, now, 0);
    var s1 := Step(s, tick);
    assert s1 == Register(s, i);
    var s2 := Put(Put(s1, i, s1.servers[i].(time := now)), i, s1.servers[i].(time := now, status := Registered));
    assert SuccessStartsNext(s2.servers[i]);
    end := Start(s2, false, now).0;
    assert Step(s1, reply) == end;
    assert acts[1..] == [reply] && [reply][1..] == [];
    assert Reaches(end, [], end);
    assert Reaches(s1, [reply], end);
    ChosenSame(s, s2);
    StartShape(s2, false, now);
    forall j | 0 <= j < |s.servers| ensures end.servers[j].c == s.servers[j].c {
      assert After(s2.servers[j], end.servers[j], false);
    }
  }

  lemma LadderHolds(s: State)
    requires InOrder(s) && Gone(s) && Ladder(s)
    ensures AlwaysInOrder(s)
  {
    forall acts: seq<Act>, end: State | NoRestart(acts) && Reaches(s, acts, end) ensures InOrder(end) {
      var ms := RunMoves(s, acts, end);
      MovesClimb(s, ms, end);
    }
  }

  lemma LadderBroken(s: State, a: nat)
    requires Counted(s) && IsStart(s, a) && Chosen(s, false).Some? && OrderAt(s, a) > Chosen(s, false).value.order
    requires var v := s.servers[s.log[a].server]; v.status == HoldOff && v.attempt == 0 && v.sequence == 0
    ensures !AlwaysInOrder(s)
  {
    var acts, end := NextCanStart(s, s.log[a].server);
    PickIs(s.servers, false);
    assert end.log[a] == s.log[a] && IsStart(end, a) && IsStart(end, |end.log| - 1);
    assert !InOrder(end);
  }

  // Between two restarts ordered servers are started in order and none twice,
  // on every run, exactly when the server the restart starts does not come
  // after the one that is next.
  lemma StartsInOrderIff(s: State, now: int)
    requires s.log == [] && Counted(s)
    ensures var s0 := Start(s, true, now).0; var first, next := Chosen(s, true), Chosen(s0, false);
            AlwaysInOrder(s0) <==> (first.Some? && next.Some? ==> first.value.order <= next.value.order)
  {
    var s0 := Start(s, true, now).0;
    RestartLog(s, now);
    StartShape(s, true, now);
    var first, next := Chosen(s, true), Chosen(s0, false);
    if first.Some? && next.Some? && first.value.order > next.value.order {
      var a := |s0.log| - 1;
      assert After(s.servers[first.value.server], s0.servers[first.value.server], true);
      assert IsStart(s0, a);
      forall j | 0 <= j < |s0.servers| && s0.servers[j].status == Pending ensures s0.servers[j].attempt > 0 {
        assert After(s.servers[j], s0.servers[j], true);
      }
      LadderBroken(s0, a);
    } else {
      LadderHolds(s0);
    }
  }

  function Three(c: Config): State {
    State([Server(c.(order := Value(5)), Deregistered, 0, 0, 0),
           Server(c.(order := Broken), Failed, 0, 0, 0),
           Server(c.(order := Value(3)), Deregistered, 0, 0, 0)], false, [])
  }

  lemma ThreeFirst(c: Config)
    requires c.initialDelay != Broken
    ensures Chosen(Three(c), true).Some? && Chosen(Three(c), true).value == First(0, 5)
  {
    var s := Three(c).servers;
    PickIs(s, true);
    assert Startable(s, 0, true);
    assert Considered(s[1], true) && Unreadable(s[1].c);
  }

  // An unreadable server that failed earlier cuts the restart short, but not
  // the later starts: the server with order 5 goes before the one with 3.
  lemma UnreadableReorders(c: Config, now: int)
    requires c.initialDelay != Broken
    ensures !AlwaysInOrder(Start(Three(c), true, now).0)
  {
    var s := Three(c);
    var s0 := Start(s, true, now).0;
    ThreeFirst(c);
    StartShape(s, true, now);
    assert After(s.servers[1], s0.servers[1], true) && After(s.servers[2], s0.servers[2], true);
    StartLog(s, true, now);
    assert NewStart(s, s0, |s0.log| - 1, true);
    PickIs(s0.servers, false);
    assert Startable(s0.servers, 2, false);
    StartsInOrderIff(s, now);
  }

  // It is enough that the walk of the restart was not cut short.
  lemma ReadableInOrder(s: State, now: int)
    requires s.log == [] && Counted(s)
    requires forall j :: 0 <= j < |s.servers| && Considered(s.servers[j], true) ==> !Unreadable(s.servers[j].c)
    ensures AlwaysInOrder(Start(s, true, now).0)
  {
    var s0 := Start(s, true, now).0;
    StartsInOrderIff(s, now);
    RestartLog(s, now);
    StartShape(s, true, now);
    PickIs(s.servers, true);
    PickIs(s0.servers, false);
    if Chosen(s0, false).Some? {
      var g := Chosen(s0, false).value;
      assert After(s.servers[g.server], s0.servers[g.server], true);
      assert Startable(s.servers, g.server, true);
    }
  }

  // ----- Servers that never start -------------------------------------------

  ghost predicate Untouched(s: State, end: State, j: nat) {
    && j < |s.servers| == |end.servers| && end.servers[j].status == Failed
    && s.log <= end.log
    && forall k :: |s.log| <= k < |end.log| ==> end.log[k] != Started(j)
  }

  lemma {:induction false} FailedStaysFailed(s: State, ms: seq<Move>, end: State, j: nat)
    requires Moves(s, ms, end) && j < |s.servers| && s.servers[j].status == Failed
    ensures Untouched(s, end, j)
    decreases |ms|
  {
    if ms != [] {
      var s1 := Apply(s, ms[0]);
      if ms[0].StartNext? {
        StartShape(s, false, ms[0].now);
        StartLog(s, false, ms[0].now);
        assert After(s.servers[j], s1.servers[j], false);
        forall k | |s.log| <= k < |s1.log| ensures s1.log[k] != Started(j) {
          assert NewStart(s, s1, k, false);
        }
      }
      FailedStaysFailed(s1, ms[1..], end, j);
      assert forall k :: |s.log| <= k < |s1.log| ==> end.log[k] == s1.log[k];
    }
  }

  // Of the ordered servers that failed earlier a restart revives only the one
  // it starts; the others stay failed until the next restart.
  lemma RestartRevivesOne(s: State, now: int, j: nat, acts: seq<Act>, end: State)
    requires j < |s.servers| && s.servers[j].status == Failed && Ordered(s.servers[j].c)
    requires NoRestart(acts) && Reaches(Start(s, true, now).0, acts, end)
    ensures var f := Chosen(s, true);
            (f.Some? && f.value.server == j) || Untouched(Start(s, true, now).0, end, j)
  {
    var s0 := Start(s, true, now).0;
    StartShape(s, true, now);
    if !(Chosen(s, true).Some? && Chosen(s, true).value.server == j) {
      var ms := RunMoves(s0, acts, end);
      FailedStaysFailed(s0, ms, end, j);
    }
  }

  ghost predicate NoneLeft(s: State) {
    forall j :: 0 <= j < |s.servers| && Ordered(s.servers[j].c) ==> s.servers[j].status != Deregistered
  }

  ghost predicate NoMoreStarts(s: State, end: State) {
    s.log <= end.log && forall k: nat :: |s.log| <= k && k < |end.log| ==> !IsStart(end, k)
  }

  lemma {:induction false} NoneLeftKept(s: State, ms: seq<Move>, end: State)
    requires Moves(s, ms, end) && NoneLeft(s)
    ensures |end.servers| == |s.servers| && NoMoreStarts(s, end)
    ensures forall j :: 0 <= j < |s.servers| ==> end.servers[j].c == s.servers[j].c
    decreases |ms|
  {
    if ms != [] {
      var s1 := Apply(s, ms[0]);
      if ms[0].StartNext? {
        StartShape(s, false, ms[0].now);
        StartLog(s, false, ms[0].now);
        forall j | 0 <= j < |s.servers|
          ensures s1.servers[j].c == s.servers[j].c
          ensures Ordered(s1.servers[j].c) ==> s1.servers[j].status != Deregistered
        {
          assert After(s.servers[j], s1.servers[j], false);
        }
        forall k: nat | |s.log| <= k < |s1.log| ensures !IsStart(s1, k) {
          assert NewStart(s, s1, k, false);
        }
      }
      assert NoneLeft(s1);
      NoneLeftKept(s1, ms[1..], end);
      forall k: nat | |s.log| <= k && k < |end.log| ensures !IsStart(end, k) {
        if k < |s1.log| { assert end.log[k] == s1.log[k] && !IsStart(s1, k); }
      }
    }
  }

  // The refusal after which server i has nothing left to try.
  ghost predicate FinalRefusal(v: Server) {
    && v.status == Pending
    && AttemptLimit(v.c).Some? && v.attempt >= AttemptLimit(v.c).value.count
    && SequenceLimit(v.c).Some? && v.sequence >= SequenceLimit(v.c).value.count
  }

  // Once a blocking server fails for good, and asks for no bootstrap, no
  // ordered server is started any more, on any run until the next restart.
  lemma BlockingStopsAll(s: State, i: nat, now: int, acts: seq<Act>, end: State)
    requires Counted(s) && i < |s.servers| && FinalRefusal(s.servers[i]) && Ordered(s.servers[i].c)
    requires s.servers[i].c.blocking == Value(true) && s.servers[i].c.bootstrap == Value(false)
    requires NoRestart(acts) && Reaches(Reply(s, i, now, Refused), acts, end)
    ensures NoMoreStarts(s, end) && Reply(s, i, now, Refused).servers[i].status == Failed
  {
    var s1 := Reply(s, i, now, Refused);
    var ms := RunMoves(s1, acts, end);
    NoneLeftKept(s1, ms, end);
  }

  // ----- The start of the next server ---------------------------------------

  // A success lets the next server start exactly when it came in the first
  // sequence, or the server does not block.
  lemma SuccessStartsNextIff(s: State, i: nat, now: int)
    requires Counted(s) && i < |s.servers| && s.servers[i].status == Pending && Ordered(s.servers[i].c)
    requires Chosen(s, false).Some?
    ensures var log := Reply(s, i, now, Accepted).log;
            && s.log <= log
            && (Started(Chosen(s, false).value.server) in log[|s.log|..] <==>
                s.servers[i].sequence == 1 || s.servers[i].c.blocking == Value(false) ||
                s.servers[i].c.blocking == Missing)
  {
    var s1 := Put(Put(s, i, s.servers[i].(time := now)), i, s.servers[i].(time := now, status := Registered));
    ChosenSame(s, s1);
    StartShape(s1, false, now);
    var log := Reply(s, i, now, Accepted).log;
    if SuccessStartsNext(s1.servers[i]) {
      assert log[|s.log|..][|log| - |s.log| - 1] == log[|log| - 1];
    }
  }

  // No ordered server is on its way.
  ghost predicate Quiet(s: State) {
    forall j :: 0 <= j < |s.servers| && Ordered(s.servers[j].c) ==> !InProgress(s.servers[j])
  }

  ghost predicate NothingStarted(s: State, end: State) {
    s.log <= end.log && forall k :: |s.log| <= k < |end.log| ==> end.log[k].Sent?
  }

  lemma {:induction false} TickQuiet(s: State, i: nat, now: int, sendable: seq<bool>, timeout: int)
    requires Quiet(s) && |sendable| == |s.servers|
    ensures var end := TickFrom(s, i, now, sendable, timeout).0; Quiet(end) && NothingStarted(s, end)
    decreases |s.servers| - i
  {
    if i < |s.servers| {
      var (s1, t) := Visit(s, i, now, sendable[i], timeout);
      TickQuiet(s1, i + 1, now, sendable, t);
    }
  }

  lemma ReplyQuiet(s: State, i: nat, now: int, answer: Answer)
    requires Quiet(s) && Counted(s) && i < |s.servers|
    ensures var end := Reply(s, i, now, answer); Quiet(end) && NothingStarted(s, end)
  {
  }

  lemma {:induction false} QuietKept(s: State, acts: seq<Act>, end: State)
    requires Quiet(s) && NoRestart(acts) && Reaches(s, acts, end)
    ensures NothingStarted(s, end)
    decreases |acts|
  {
    if acts != [] {
      match acts[0] {
        case Tick(now, sendable, timeout) => TickQuiet(s, 0, now, sendable, timeout);
        case Replied(i, now, answer) => ReplyQuiet(s, i, now, answer);
        case UpdateReplied(_, _, _) | UpdateAsked(_, _) =>
      }
      assert Quiet(Step(s, acts[0])) && NothingStarted(s, Step(s, acts[0]));
      QuietKept(Step(s, acts[0]), acts[1..], end);
    }
  }

  // A blocking server that registers in a later sequence, while no other
  // ordered server is on its way, leaves all the others unstarted on every
  // run until the next restart.
  lemma LateSuccessStrands(s: State, i: nat, now: int, acts: seq<Act>, end: State)
    requires Counted(s) && i < |s.servers| && s.servers[i].status == Pending && Ordered(s.servers[i].c)
    requires s.servers[i].c.blocking == Value(true) && s.servers[i].sequence != 1
    requires forall j :: 0 <= j < |s.servers| && j != i && Ordered(s.servers[j].c) ==> !InProgress(s.servers[j])
    requires NoRestart(acts) && Reaches(Reply(s, i, now, Accepted), acts, end)
    ensures NothingStarted(s, end)
  {
    QuietKept(Reply(s, i, now, Accepted), acts, end);
  }
}
