// The registration of a client to its servers: retries in attempts and
// sequences, priority order, blocking failures (OMA LwM2M 1.1 section 6.2.1;
// the client half of wakaama/core/registration.c).
module Registration {
  import opened Common

  // How reading one resource of a Server object instance turns out.
  datatype Read<+T> = Value(v: T) | Missing | Broken

  // A missing resource has a default; any other failure is passed on.
  function Or<T>(r: Read<T>, preset: T): Option<T> {
    match r
    case Value(v) => Some(v)
    case Missing => Some(preset)
    case Broken => None
  }

  datatype Config = Config(
    order: Read<nat>, blocking: Read<bool>, bootstrap: Read<bool>, initialDelay: Read<nat>,
    attemptLimit: Read<nat>, attemptDelay: Read<nat>,
    sequenceLimit: Read<nat>, sequenceDelay: Read<nat>, lifetime: nat)

  datatype Status =
    | Deregistered | HoldOff | Pending | Registered
    | UpdateNeeded | FullUpdateNeeded | UpdatePending | DeregistrationPending | Failed

  // attempt and sequence are one byte wide and wrap.
  datatype Server = Server(c: Config, status: Status, attempt: byte, sequence: byte, time: int)

  function Bump(b: byte): byte { (b + 1) % 0x100 }

  // Servers are named by their position in the server list.
  datatype Event = Started(server: nat) | Sent(server: nat)

  datatype State = State(servers: seq<Server>, needsBootstrap: bool, log: seq<Event>)

  datatype Limit = Limit(count: nat, delay: nat)

  const IMPLEMENTATION_LIMIT: nat := 254

  function Clamped(count: Read<nat>, presetCount: nat, delay: Read<nat>, presetDelay: nat): Option<Limit> {
    var n := Or(count, presetCount);
    var d := Or(delay, presetDelay);
    if n.Some? && d.Some?
    then Some(Limit(if n.value > IMPLEMENTATION_LIMIT then IMPLEMENTATION_LIMIT else n.value, d.value))
    else None
  }

  function AttemptLimit(c: Config): Option<Limit> { Clamped(c.attemptLimit, 5, c.attemptDelay, 60) }

  function SequenceLimit(c: Config): Option<Limit> { Clamped(c.sequenceLimit, 1, c.sequenceDelay, 86400) }

  predicate Ordered(c: Config) { c.order.Value? }

  // ----- registration_start -------------------------------------------------

  function Put(s: State, i: nat, v: Server): State
    requires i < |s.servers|
  {
    s.(servers := s.servers[i := v])
  }

  // prv_startRegistration
  function Begin(s: State, i: nat, now: int): (r: (State, bool))
    requires i < |s.servers|
    ensures |r.0.servers| == |s.servers|
  {
    match Or(s.servers[i].c.initialDelay, 0)
    case None => (s, false)
    case Some(d) =>
      (Put(s, i, s.servers[i].(status := HoldOff, time := now + d)).(log := s.log + [Started(i)]), true)
  }

  predicate Considered(v: Server, restartFailed: bool) {
    v.status == Deregistered || (restartFailed && v.status == Failed)
  }

  // The first server in order so far.
  datatype First = First(server: nat, order: nat)

  function Better(order: nat, i: nat, first: Option<First>): Option<First> {
    if first == None || order < first.value.order then Some(First(i, order)) else first
  }

  ghost predicate Within(s: State, first: Option<First>) { first.Some? ==> first.value.server < |s.servers| }

  // One round of the loop: an unordered server starts at once, of the ordered
  // ones the first in order is remembered. An unreadable server ends the loop.
  function WalkAt(s: State, i: nat, restartFailed: bool, now: int, first: Option<First>)
    : (r: (State, Option<First>, bool))
    requires i < |s.servers|
    ensures |r.0.servers| == |s.servers| && (Within(s, first) ==> Within(s, r.1))
  {
    if !Considered(s.servers[i], restartFailed) then (s, first, true)
    else
      var s1 := Put(s, i, s.servers[i].(attempt := 0, sequence := 0));
      match s.servers[i].c.order
      case Broken => (s1, first, false)
      case Missing => var (s2, ok) := Begin(s1, i, now); (s2, first, ok)
      case Value(order) => (s1, Better(order, i, first), true)
  }

  function Walk(s: State, i: nat, restartFailed: bool, now: int, first: Option<First>)
    : (r: (State, Option<First>, bool))
    requires Within(s, first)
    ensures |r.0.servers| == |s.servers| && Within(s, r.1)
    decreases |s.servers| - i
  {
    if i >= |s.servers| then (s, first, true)
    else
      var (s1, f, go) := WalkAt(s, i, restartFailed, now, first);
      if go then Walk(s1, i + 1, restartFailed, now, f) else (s1, f, false)
  }

  // The result is the one of the last start: it hides why the loop ended.
  function Start(s: State, restartFailed: bool, now: int): (r: (State, bool))
    ensures |r.0.servers| == |s.servers|
  {
    var (s1, first, ok) := Walk(s, 0, restartFailed, now, None);
    if first.Some? then Begin(s1, first.value.server, now) else (s1, ok)
  }

  // ----- Failures -----------------------------------------------------------

  // Ordered servers not yet started fail with a blocking one.
  function FailRest(servers: seq<Server>): (r: seq<Server>)
    ensures |r| == |servers|
    ensures forall j :: 0 <= j < |servers| ==>
              r[j] == if servers[j].status == Deregistered && Ordered(servers[j].c)
                      then servers[j].(status := Failed) else servers[j]
  {
    seq(|servers|, j requires 0 <= j < |servers| =>
      if servers[j].status == Deregistered && Ordered(servers[j].c)
      then servers[j].(status := Failed) else servers[j])
  }

  function GiveUp(s: State, i: nat): State
    requires i < |s.servers|
  {
    var c := s.servers[i].c;
    var s1 := Put(s, i, s.servers[i].(status := Failed));
    match Or(c.bootstrap, true)
    case Some(false) =>
      if Ordered(c) && c.blocking == Value(true) then s1.(servers := FailRest(s1.servers)) else s1
    case _ => s1.(needsBootstrap := true)
  }

  // A failed first sequence of a server that does not block lets the next one
  // start.
  predicate FailureStartsNext(v: Server) {
    Ordered(v.c) && Or(v.c.blocking, false) == Some(false) && v.sequence == 1
  }

  // Another sequence, or the end.
  function NextSequence(s: State, i: nat, now: int): State
    requires i < |s.servers|
  {
    var v := s.servers[i];
    match SequenceLimit(v.c)
    case None => Put(s, i, v.(status := Failed))
    case Some(l) =>
      if v.sequence >= l.count then GiveUp(s, i)
      else Put(s, i, v.(time := now + l.delay, status := HoldOff, attempt := 0))
  }

  function SequenceFailure(s: State, i: nat, now: int): State
    requires i < |s.servers|
  {
    NextSequence(if FailureStartsNext(s.servers[i]) then Start(s, false, now).0 else s, i, now)
  }

  function AttemptFailure(s: State, i: nat, now: int): State
    requires i < |s.servers| && s.servers[i].attempt > 0
  {
    var v := s.servers[i];
    match AttemptLimit(v.c)
    case None => Put(s, i, v.(status := Failed))
    case Some(l) =>
      if v.attempt >= l.count then SequenceFailure(s, i, now)
      else Put(s, i, v.(time := now + l.delay * Pow2(v.attempt - 1), status := HoldOff))
  }

  // ----- Replies ------------------------------------------------------------

  // Accepted is a 2.01; Continue asks for the next block; everything else,
  // and silence, is a refusal.
  datatype Answer = Accepted | Continue | Refused

  predicate SuccessStartsNext(v: Server) {
    Ordered(v.c) && (v.sequence == 1 || Or(v.c.blocking, false) == Some(false))
  }

  // prv_handleRegistrationReply
  function Reply(s: State, i: nat, now: int, answer: Answer): State
    requires i < |s.servers| && (s.servers[i].status == Pending ==> s.servers[i].attempt > 0)
  {
    if s.servers[i].status != Pending then s
    else
      var s1 := Put(s, i, s.servers[i].(time := now));
      match answer
      case Continue => s1
      case Accepted =>
        var s2 := Put(s1, i, s1.servers[i].(status := Registered));
        if SuccessStartsNext(s2.servers[i]) then Start(s2, false, now).0 else s2
      case Refused => AttemptFailure(s1, i, now)
  }

  // prv_handleRegistrationUpdateReply, where Accepted is a 2.04
  function UpdateReply(s: State, i: nat, now: int, answer: Answer): State
    requires i < |s.servers|
  {
    if s.servers[i].status != UpdatePending then s
    else
      var v := s.servers[i].(time := now);
      match answer
      case Continue => Put(s, i, v)
      case Accepted => Put(s, i, v.(status := Registered))
      case Refused => Put(s, i, v.(status := Failed))
  }

  // lwm2m_update_registration, for one server
  function AskUpdate(s: State, i: nat, withObjects: bool): State
    requires i < |s.servers|
  {
    var v := s.servers[i];
    match v.status
    case Registered | UpdatePending => Put(s, i, v.(status := if withObjects then FullUpdateNeeded else UpdateNeeded))
    case UpdateNeeded | FullUpdateNeeded => if withObjects then Put(s, i, v.(status := FullUpdateNeeded)) else s
    case _ => s
  }

  // ----- registration_step --------------------------------------------------

  // prv_register, when the message goes out
  function Register(s: State, i: nat): State
    requires i < |s.servers|
  {
    var v := s.servers[i];
    var w := v.(sequence := if v.attempt == 0 then Bump(v.sequence) else v.sequence,
                attempt := Bump(v.attempt), status := Pending);
    Put(s, i, w).(log := s.log + [Sent(i)])
  }

  const MAX_TRANSMIT_WAIT: nat := 93

  function UpdateDue(v: Server): int {
    v.time + if MAX_TRANSMIT_WAIT < v.c.lifetime then v.c.lifetime - MAX_TRANSMIT_WAIT else v.c.lifetime / 2
  }

  // One server of the loop. `sendable` says whether a message to it goes out.
  function Visit(s: State, i: nat, now: int, sendable: bool, timeout: int): (State, int)
    requires i < |s.servers|
  {
    var v := s.servers[i];
    match v.status
    case HoldOff =>
      if v.time <= now then (if sendable then Register(s, i) else s, timeout)
      else (s, Min(timeout, v.time - now))
    case Registered =>
      if UpdateDue(v) <= now then (if sendable then Put(s, i, v.(status := UpdatePending)) else s, timeout)
      else (s, Min(timeout, UpdateDue(v) - now))
    case UpdateNeeded | FullUpdateNeeded =>
      (if sendable then Put(s, i, v.(status := UpdatePending)) else s, timeout)
    case _ => (s, timeout)
  }

  function TickFrom(s: State, i: nat, now: int, sendable: seq<bool>, timeout: int): (State, int)
    requires |sendable| == |s.servers|
    decreases |s.servers| - i
  {
    if i >= |s.servers| then (s, timeout)
    else
      var (s1, t) := Visit(s, i, now, sendable[i], timeout);
      TickFrom(s1, i + 1, now, sendable, t)
  }

  // ----- registration_getStatus ---------------------------------------------

  predicate InProgress(v: Server) { v.status == HoldOff || v.status == Pending }

  predicate Connected(v: Server) {
    v.status == Registered || v.status == UpdateNeeded || v.status == FullUpdateNeeded || v.status == UpdatePending
  }

  // ----- Runs ---------------------------------------------------------------

  datatype Act =
    | Restart(now: int)
    | Tick(now: int, sendable: seq<bool>, timeout: int)
    | Replied(server: nat, now: int, answer: Answer)
    | UpdateReplied(server: nat, now: int, answer: Answer)
    | UpdateAsked(server: nat, withObjects: bool)

  predicate Fits(n: nat, a: Act) {
    match a
    case Restart(_) => true
    case Tick(_, sendable, _) => |sendable| == n
    case Replied(i, _, _) => i < n
    case UpdateReplied(i, _, _) => i < n
    case UpdateAsked(i, _) => i < n
  }

  // A pending request has been sent at least once.
  predicate Counted(s: State) {
    forall j :: 0 <= j < |s.servers| && s.servers[j].status == Pending ==> s.servers[j].attempt > 0
  }

  function Step(s: State, a: Act): State
    requires Fits(|s.servers|, a) && Counted(s)
  {
    match a
    case Restart(now) => Start(s, true, now).0
    case Tick(now, sendable, timeout) => TickFrom(s, 0, now, sendable, timeout).0
    case Replied(i, now, answer) => Reply(s, i, now, answer)
    case UpdateReplied(i, now, answer) => UpdateReply(s, i, now, answer)
    case UpdateAsked(i, withObjects) => AskUpdate(s, i, withObjects)
  }

  ghost predicate Reaches(s: State, acts: seq<Act>, end: State)
    decreases |acts|
  {
    if acts == [] then end == s
    else Counted(s) && Fits(|s.servers|, acts[0]) && Reaches(Step(s, acts[0]), acts[1..], end)
  }
}
