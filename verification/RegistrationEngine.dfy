// The client registration as written: the nodes of the server list updated in
// place by the loop of registration_start, the reply callbacks and
// registration_step (wakaama/core/registration.c).
module RegistrationEngine {
  import opened Common
  import opened Registration

  class ServerNode {
    const c: Config
    var status: Status
    var attempt: byte
    var sequence: byte
    var registration: int

    constructor (c: Config)
      ensures this.c == c && Value() == Server(c, Deregistered, 0, 0, 0)
    {
      this.c := c;
      status, attempt, sequence, registration := Deregistered, 0, 0, 0;
    }

    function Value(): Server
      reads this
    {
      Server(c, status, attempt, sequence, registration)
    }
  }

  function Values(ns: seq<ServerNode>): (r: seq<Server>)
    reads ns
    ensures |r| == |ns|
    ensures forall i :: 0 <= i < |ns| ==> r[i] == ns[i].Value()
  {
    seq(|ns|, i requires 0 <= i < |ns| reads ns => ns[i].Value())
  }

  // What registration_getStatus reports.
  datatype Summary = AnyPending | AnyRegistered | AllFailed

  class Client {
    const serverList: seq<ServerNode>
    var needsBootstrap: bool
    var log: seq<Event>

    constructor (serverList: seq<ServerNode>)
      requires forall i, j :: 0 <= i < j < |serverList| ==> serverList[i] != serverList[j]
      ensures this.serverList == serverList && Valid() && Abs() == State(Values(serverList), false, [])
    {
      this.serverList := serverList;
      needsBootstrap, log := false, [];
    }

    ghost predicate Valid() {
      forall i, j :: 0 <= i < j < |serverList| ==> serverList[i] != serverList[j]
    }

    function Abs(): State
      reads this, serverList
    {
      State(Values(serverList), needsBootstrap, log)
    }

    // prv_startRegistration
    method StartAt(i: nat, now: int) returns (ok: bool)
      requires Valid() && i < |serverList|
      modifies this, serverList[i]
      ensures (Abs(), ok) == Begin(old(Abs()), i, now)
    {
      var t := serverList[i];
      var delay := Or(t.c.initialDelay, 0);
      if delay == None {
        return false;
      }
      t.registration := now + delay.value;
      t.status := HoldOff;
      log := log + [Started(i)];
      ok := true;
      assert Abs().servers == old(Abs()).servers[i := t.Value()];
    }

    // One round of the loop in registration_start.
    method Round(i: nat, restartFailed: bool, now: int, firstIn: Option<First>)
      returns (first: Option<First>, go: bool)
      requires Valid() && i < |serverList|
      modifies this, serverList[i]
      ensures (Abs(), first, go) == WalkAt(old(Abs()), i, restartFailed, now, firstIn)
    {
      first, go := firstIn, true;
      var t := serverList[i];
      if t.status == Deregistered || (restartFailed && t.status == Failed) {
        t.attempt := 0;
        t.sequence := 0;
        assert Abs().servers == old(Abs()).servers[i := t.Value()];
        match t.c.order {
          case Broken => go := false;
          case Missing => go := StartAt(i, now);
          case Value(order) =>
            if first == None || order < first.value.order {
              first := Some(First(i, order));
            }
        }
      }
    }

    // registration_start
    method Start(restartFailed: bool, now: int) returns (ok: bool)
      requires Valid()
      modifies this, serverList
      ensures (Abs(), ok) == Registration.Start(old(Abs()), restartFailed, now)
    {
      var first: Option<First> := None;
      ok := true;
      var k := 0;
      while k < |serverList| && ok
        invariant k <= |serverList| && Within(Abs(), first)
        invariant Walk(old(Abs()), 0, restartFailed, now, None) ==
                  if ok then Walk(Abs(), k, restartFailed, now, first) else (Abs(), first, false)
      {
        first, ok := Round(k, restartFailed, now, first);
        k := k + 1;
      }
      if first.Some? {
        ok := StartAt(first.value.server, now);
      }
    }

    // The loop of prv_handleRegistrationSequenceFailure that fails the ordered
    // servers not yet started.
    method FailOthers()
      requires Valid()
      modifies serverList
      ensures Abs() == old(Abs()).(servers := FailRest(old(Abs()).servers))
    {
      var k := 0;
      while k < |serverList|
        invariant k <= |serverList| && log == old(log) && needsBootstrap == old(needsBootstrap)
        invariant forall j :: 0 <= j < |serverList| ==>
                    serverList[j].Value() ==
                    if j < k then FailRest(old(Values(serverList)))[j] else old(serverList[j].Value())
      {
        if serverList[k].status == Deregistered && serverList[k].c.order.Value? {
          serverList[k].status := Failed;
        }
        k := k + 1;
      }
      assert Values(serverList) == FailRest(old(Values(serverList)));
    }

    method FailFinally(i: nat, ordered: bool, blocking: bool)
      requires Valid() && i < |serverList|
      requires ordered == Ordered(serverList[i].c)
      requires ordered ==> blocking == (serverList[i].c.blocking == Value(true))
      modifies this, serverList
      ensures Abs() == GiveUp(old(Abs()), i)
    {
      var t := serverList[i];
      t.status := Failed;
      assert Values(serverList) == old(Values(serverList))[i := t.Value()];
      var bootstrap := Or(t.c.bootstrap, true);
      if bootstrap == None || bootstrap.value {
        needsBootstrap := true;
      } else if ordered && blocking {
        FailOthers();
      }
    }

    // prv_handleRegistrationSequenceFailure
    method HandleSequenceFailure(i: nat, now: int)
      requires Valid() && i < |serverList| && serverList[i].status == Pending
      modifies this, serverList
      ensures Abs() == SequenceFailure(old(Abs()), i, now)
    {
      var t := serverList[i];
      var ordered := t.c.order.Value?;
      var blocking := false;
      if ordered {
        var b := Or(t.c.blocking, false);
        blocking := b.Some? && b.value;
        if b.Some? && !blocking && t.sequence == 1 {
          var _ := Start(false, now);
        }
      }
      NextTry(i, now, ordered, blocking);
    }

    method NextTry(i: nat, now: int, ordered: bool, blocking: bool)
      requires Valid() && i < |serverList|
      requires ordered == Ordered(serverList[i].c)
      requires ordered ==> blocking == (serverList[i].c.blocking == Value(true))
      modifies this, serverList
      ensures Abs() == NextSequence(old(Abs()), i, now)
    {
      var t := serverList[i];
      var limit := SequenceLimit(t.c);
      if limit.Some? {
        if t.sequence >= limit.value.count {
          FailFinally(i, ordered, blocking);
        } else {
          t.registration := now + limit.value.delay;
          t.status := HoldOff;
          t.attempt := 0;
          assert Values(serverList) == old(Values(serverList))[i := t.Value()];
        }
      } else {
        t.status := Failed;
        assert Values(serverList) == old(Values(serverList))[i := t.Value()];
      }
    }

    // prv_handleRegistrationAttemptFailure
    method HandleAttemptFailure(i: nat, now: int)
      requires Valid() && i < |serverList| && serverList[i].status == Pending && serverList[i].attempt > 0
      modifies this, serverList
      ensures Abs() == AttemptFailure(old(Abs()), i, now)
    {
      var t := serverList[i];
      var limit := AttemptLimit(t.c);
      if limit.Some? {
        if t.attempt >= limit.value.count {
          HandleSequenceFailure(i, now);
        } else {
          t.registration := now + limit.value.delay * Pow2(t.attempt - 1);
          t.status := HoldOff;
          assert Values(serverList) == old(Values(serverList))[i := t.Value()];
        }
      } else {
        t.status := Failed;
        assert Values(serverList) == old(Values(serverList))[i := t.Value()];
      }
    }

    // prv_handleRegistrationReply
    method HandleReply(i: nat, now: int, answer: Answer)
      requires Valid() && i < |serverList|
      requires serverList[i].status == Pending ==> serverList[i].attempt > 0
      modifies this, serverList
      ensures Abs() == Reply(old(Abs()), i, now, answer)
    {
      var t := serverList[i];
      if t.status == Pending {
        t.registration := now;
        assert Values(serverList) == old(Values(serverList))[i := t.Value()];
        if answer == Continue {
          return;
        }
        if answer == Accepted {
          t.status := Registered;
          assert Values(serverList) ==
                 old(Values(serverList))[i := old(t.Value()).(time := now)][i := t.Value()];
          if t.c.order.Value? {
            if 1 == t.sequence {
              var _ := Start(false, now);
            } else {
              var blocking := Or(t.c.blocking, false);
              if blocking.Some? && !blocking.value {
                var _ := Start(false, now);
              }
            }
          }
        } else {
          HandleAttemptFailure(i, now);
        }
      }
    }

    // prv_handleRegistrationUpdateReply
    method HandleUpdateReply(i: nat, now: int, answer: Answer)
      requires Valid() && i < |serverList|
      modifies serverList[i]
      ensures Abs() == UpdateReply(old(Abs()), i, now, answer)
    {
      var t := serverList[i];
      if t.status == UpdatePending {
        t.registration := now;
        if answer == Accepted {
          t.status := Registered;
        } else if answer == Refused {
          t.status := Failed;
        }
        assert Values(serverList) == old(Values(serverList))[i := t.Value()];
      }
    }

    // prv_register, when the message goes out
    method SendRegister(i: nat)
      requires Valid() && i < |serverList|
      modifies this, serverList[i]
      ensures Abs() == Register(old(Abs()), i)
    {
      var t := serverList[i];
      log := log + [Sent(i)];
      if t.attempt == 0 {
        t.sequence := Bump(t.sequence);
      }
      t.attempt := Bump(t.attempt);
      t.status := Pending;
      assert Values(serverList) == old(Values(serverList))[i := t.Value()];
    }

    // One round of the loop in registration_step.
    method StepAt(i: nat, now: int, sendable: bool, timeoutIn: int) returns (timeout: int)
      requires Valid() && i < |serverList|
      modifies this, serverList[i]
      ensures (Abs(), timeout) == Visit(old(Abs()), i, now, sendable, timeoutIn)
    {
      timeout := timeoutIn;
      var t := serverList[i];
      match t.status {
        case HoldOff =>
          var interval := t.registration - now;
          if 0 >= interval {
            if sendable {
              SendRegister(i);
            }
          } else if interval <= timeout {
            timeout := interval;
          }
        case Registered =>
          var nextUpdate: int := t.c.lifetime;
          if MAX_TRANSMIT_WAIT < nextUpdate {
            nextUpdate := nextUpdate - MAX_TRANSMIT_WAIT;
          } else {
            nextUpdate := nextUpdate / 2;
          }
          var interval := t.registration + nextUpdate - now;
          if 0 >= interval {
            if sendable {
              t.status := UpdatePending;
            }
          } else if interval < timeout {
            timeout := interval;
          }
        case UpdateNeeded | FullUpdateNeeded =>
          if sendable {
            t.status := UpdatePending;
          }
        case _ =>
      }
      assert Values(serverList) == old(Values(serverList))[i := t.Value()];
    }

    // registration_step
    method Step(now: int, sendable: seq<bool>, timeoutIn: int) returns (timeout: int)
      requires Valid() && |sendable| == |serverList|
      modifies this, serverList
      ensures (Abs(), timeout) == TickFrom(old(Abs()), 0, now, sendable, timeoutIn)
    {
      timeout := timeoutIn;
      var k := 0;
      while k < |serverList|
        invariant k <= |serverList|
        invariant TickFrom(Abs(), k, now, sendable, timeout) == TickFrom(old(Abs()), 0, now, sendable, timeoutIn)
      {
        timeout := StepAt(k, now, sendable[k], timeout);
        k := k + 1;
      }
    }

    // registration_getStatus
    method GetStatus() returns (r: Summary)
      ensures r == AnyPending <==> exists i :: 0 <= i < |serverList| && InProgress(serverList[i].Value())
      ensures r == AllFailed <==>
              forall i :: 0 <= i < |serverList| ==>
                serverList[i].Value().status == Deregistered || serverList[i].Value().status == Failed
    {
      r := AllFailed;
      var k := 0;
      while k < |serverList|
        invariant k <= |serverList|
        invariant r == AnyPending <==> exists i :: 0 <= i < k && InProgress(serverList[i].Value())
        invariant r == AllFailed <==>
                  forall i :: 0 <= i < k ==>
                    serverList[i].Value().status == Deregistered || serverList[i].Value().status == Failed
      {
        match serverList[k].status {
          case Registered | UpdateNeeded | FullUpdateNeeded | UpdatePending | DeregistrationPending =>
            if r == AllFailed {
              r := AnyRegistered;
            }
          case HoldOff | Pending =>
            r := AnyPending;
          case Deregistered | Failed =>
        }
        assert InProgress(serverList[k].Value()) <==> serverList[k].status == HoldOff || serverList[k].status == Pending;
        k := k + 1;
      }
    }
  }
}
