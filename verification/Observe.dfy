// When an observed resource is notified (wakaama/core/observe.c).
module Observe {
  import opened Common

  // The minimum and maximum period of a watcher are those of OMA LwM2M 1.0
  // section 5.1.2.

  // The attributes in force. For the numeric ones only their presence matters
  // here; whether the value crossed one of them is an input of each step.
  datatype Attributes = Attributes(
    minPeriod: Option<nat>, maxPeriod: Option<nat>, lessThan: bool, greaterThan: bool, step: bool)

  predicate Numeric(a: Attributes) { a.lessThan || a.greaterThan || a.step }

  predicate Nothing(a: Attributes) { a.minPeriod == None && a.maxPeriod == None && !Numeric(a) }

  datatype Watcher = Watcher(
    active: bool, update: bool, parameters: Option<Attributes>, lastTime: int, counter: nat)

  function MinPeriod(w: Watcher): Option<nat> {
    if w.parameters.Some? then w.parameters.value.minPeriod else None
  }

  function MaxPeriod(w: Watcher): Option<nat> {
    if w.parameters.Some? then w.parameters.value.maxPeriod else None
  }

  // ----- One watcher in observe_step ----------------------------------------

  predicate MinElapsed(w: Watcher, now: int)
    requires MinPeriod(w).Some?
  {
    w.lastTime + MinPeriod(w).value <= now
  }

  // A pending change: a minimum period decides alone; without one it takes no
  // attributes at all or a threshold crossed.
  predicate NotifyOnChange(w: Watcher, now: int, crossed: bool) {
    && w.update
    && match w.parameters
       case None => true
       case Some(a) =>
         if a.minPeriod.Some? then MinElapsed(w, now)
         else Nothing(a) || (Numeric(a) && crossed)
  }

  predicate MaxElapsed(w: Watcher, now: int) {
    MaxPeriod(w).Some? && w.lastTime + MaxPeriod(w).value <= now
  }

  predicate Notifies(w: Watcher, now: int, crossed: bool) {
    w.active && (NotifyOnChange(w, now, crossed) || MaxElapsed(w, now))
  }

  function StepWatcher(w: Watcher, now: int, crossed: bool): Watcher {
    if Notifies(w, now, crossed)
    then w.(lastTime := now, update := false, counter := w.counter + 1)
    else w
  }

  // *timeoutP after the watcher was handled.
  function StepTimeout(w: Watcher, now: int, crossed: bool, timeout: int): int {
    if !w.active then timeout
    else
      var t := if w.update && MinPeriod(w).Some? && !MinElapsed(w, now)
               then Min(timeout, w.lastTime + MinPeriod(w).value - now) else timeout;
      if MaxPeriod(w).Some?
      then Min(t, StepWatcher(w, now, crossed).lastTime + MaxPeriod(w).value - now) else t
  }

  // ----- The whole step -----------------------------------------------------

  // How reading and serializing the resource turn out in one step.
  datatype Reading = ReadOk | ReadFails | SerializeFails

  // The watchers of one observed resource, in order. A failing serialization
  // ends the walk at the first watcher that needed it.
  function StepWatchers(ws: seq<Watcher>, reading: Reading, now: int, crossed: seq<bool>, timeout: int)
    : (r: (seq<Watcher>, int))
    requires |crossed| == |ws|
    ensures |r.0| == |ws|
  {
    if ws == [] || reading == ReadFails then (ws, timeout)
    else if reading == SerializeFails && Notifies(ws[0], now, crossed[0]) then
      (ws, ChangeTimeout(ws[0], now, timeout))
    else
      var (rest, t) := StepWatchers(ws[1..], reading, now, crossed[1..],
                                    StepTimeout(ws[0], now, crossed[0], timeout));
      ([StepWatcher(ws[0], now, crossed[0])] + rest, t)
  }

  // The timeout when the walk breaks off before the timers are updated.
  function ChangeTimeout(w: Watcher, now: int, timeout: int): int {
    if w.update && MinPeriod(w).Some? && !MinElapsed(w, now)
    then Min(timeout, w.lastTime + MinPeriod(w).value - now) else timeout
  }

  // Each watcher is handled on its own, and the timeout returned is no later
  // than any of them allows.
  lemma {:induction false} StepWatchersIs(ws: seq<Watcher>, now: int, crossed: seq<bool>, timeout: int)
    requires |crossed| == |ws|
    ensures var (r, t) := StepWatchers(ws, ReadOk, now, crossed, timeout);
            && |r| == |ws| && t <= timeout
            && (forall i :: 0 <= i < |ws| ==> r[i] == StepWatcher(ws[i], now, crossed[i]))
            && (forall i :: 0 <= i < |ws| ==> t <= StepTimeout(ws[i], now, crossed[i], timeout))
  {
    if ws != [] {
      var t0 := StepTimeout(ws[0], now, crossed[0], timeout);
      StepWatchersIs(ws[1..], now, crossed[1..], t0);
      var (r, t) := StepWatchers(ws, ReadOk, now, crossed, timeout);
      forall i | 0 <= i < |ws|
        ensures r[i] == StepWatcher(ws[i], now, crossed[i]) && t <= StepTimeout(ws[i], now, crossed[i], timeout)
      {
        if i > 0 {
          assert ws[i] == ws[1..][i - 1] && crossed[i] == crossed[1..][i - 1];
          TimeoutMonotone(ws[i], now, crossed[i], t0, timeout);
        }
      }
    }
  }

  lemma TimeoutMonotone(w: Watcher, now: int, crossed: bool, t: int, timeout: int)
    requires t <= timeout
    ensures StepTimeout(w, now, crossed, t) <= StepTimeout(w, now, crossed, timeout)
  {
  }

  // ----- Attributes ---------------------------------------------------------

  // A Write-Attributes request: values to set, and flags to clear.
  datatype Request = Request(
    values: Attributes, clearMin: bool, clearMax: bool, clearLess: bool, clearGreater: bool, clearStep: bool)

  function Revised(had: Option<nat>, given: Option<nat>, clear: bool): Option<nat> {
    if clear || had == None then None else if given.Some? then given else had
  }

  // observe_setParameters, past its checks. When the watcher already has
  // attributes, values are replaced and flags cleared, but no flag is added.
  function SetParameters(had: Option<Attributes>, r: Request): Option<Attributes> {
    match had
    case None => if Nothing(r.values) then None else Some(r.values)
    case Some(a) =>
      Some(Attributes(
        Revised(a.minPeriod, r.values.minPeriod, r.clearMin),
        Revised(a.maxPeriod, r.values.maxPeriod, r.clearMax),
        a.lessThan && !r.clearLess, a.greaterThan && !r.clearGreater, a.step && !r.clearStep))
  }

  // An attribute written to a watcher, a period or a threshold, takes effect
  // exactly when the watcher had no attributes at all, or had that one already.
  lemma AttributeTakesEffectIff(had: Option<Attributes>, r: Request, v: nat)
    ensures r.values.minPeriod == Some(v) && !r.clearMin ==>
              var set' := SetParameters(had, r);
              set'.Some? && (set'.value.minPeriod == Some(v) <==> had == None || had.value.minPeriod.Some?)
    ensures r.values.maxPeriod == Some(v) && !r.clearMax ==>
              var set' := SetParameters(had, r);
              set'.Some? && (set'.value.maxPeriod == Some(v) <==> had == None || had.value.maxPeriod.Some?)
    ensures r.values.lessThan && !r.clearLess ==>
              var set' := SetParameters(had, r);
              set'.Some? && (set'.value.lessThan <==> had == None || had.value.lessThan)
    ensures r.values.greaterThan && !r.clearGreater ==>
              var set' := SetParameters(had, r);
              set'.Some? && (set'.value.greaterThan <==> had == None || had.value.greaterThan)
    ensures r.values.step && !r.clearStep ==>
              var set' := SetParameters(had, r);
              set'.Some? && (set'.value.step <==> had == None || had.value.step)
  {
  }

  // ----- Runs of one watcher ------------------------------------------------

  // A step of the client, returning `timeout` for the whole context; a change
  // of the resource; a new Observe request for the same watcher; or a request
  // for another one.
  datatype Happening =
    | Tick(now: int, crossed: bool, timeout: int)
    | Changed
    | Observed(now: int)
    | Elsewhere(now: int)

  // What was sent to the observer: notifications, and answers to its requests.
  datatype Sending = Sending(at: int, notification: bool)

  // `due` is when the next step has to come, by the timeout last returned.
  datatype Life = Life(w: Watcher, sent: seq<Sending>, clock: int, due: int)

  function Live(l: Life, e: Happening): Life {
    match e
    case Tick(now, crossed, timeout) =>
      var w := StepWatcher(l.w, now, crossed);
      Life(w, if Notifies(l.w, now, crossed) then l.sent + [Sending(now, true)] else l.sent, now, now + timeout)
    case Changed => l.(w := if l.w.active then l.w.(update := true) else l.w)
    case Observed(now) =>
      l.(w := l.w.(active := true, lastTime := now, counter := l.w.counter + 1),
         sent := l.sent + [Sending(now, false)], clock := now)
    case Elsewhere(now) => l.(clock := now)
  }

  // Time does not run backwards, and a step returns no more than the watcher
  // itself allows. In a punctual run nothing happens after the due time.
  ghost predicate Possible(l: Life, e: Happening, punctual: bool) {
    match e
    case Tick(now, crossed, timeout) =>
      && now >= l.clock && (punctual ==> now <= l.due)
      && exists given :: timeout <= StepTimeout(l.w, now, crossed, given)
    case Changed => true
    case Observed(now) => now >= l.clock && (punctual ==> now <= l.due)
    case Elsewhere(now) => now >= l.clock && (punctual ==> now <= l.due)
  }

  ghost predicate Lives(l: Life, es: seq<Happening>, end: Life, punctual: bool)
    decreases |es|
  {
    if es == [] then end == l
    else Possible(l, es[0], punctual) && Lives(Live(l, es[0]), es[1..], end, punctual)
  }

  // Just after the first Observe request was answered.
  ghost predicate Starts(l: Life, punctual: bool) {
    && l.w.active && l.clock == l.w.lastTime && l.sent == [Sending(l.w.lastTime, false)]
    && (punctual && MaxPeriod(l.w).Some? ==> l.due <= l.w.lastTime + MaxPeriod(l.w).value)
  }

  // A notification is never less than the minimum period after whatever was
  // sent before it.
  ghost predicate Unhurried(sent: seq<Sending>, minPeriod: nat) {
    forall i :: 0 < i < |sent| && sent[i].notification ==> sent[i].at >= sent[i - 1].at + minPeriod
  }

  ghost predicate Prompt(sent: seq<Sending>, maxPeriod: nat) {
    forall i :: 0 < i < |sent| ==> sent[i].at <= sent[i - 1].at + maxPeriod
  }

  ghost predicate Consistent(l: Life) {
    && l.w.active && l.sent != [] && l.sent[|l.sent| - 1].at == l.w.lastTime <= l.clock
  }

  lemma {:induction false} MinPeriodKept(l: Life, es: seq<Happening>, end: Life, minPeriod: nat)
    requires Consistent(l) && Unhurried(l.sent, minPeriod) && Lives(l, es, end, false)
    requires MinPeriod(l.w) == Some(minPeriod)
    requires MaxPeriod(l.w).Some? ==> minPeriod <= MaxPeriod(l.w).value
    ensures Unhurried(end.sent, minPeriod)
    decreases |es|
  {
    if es != [] {
      var l' := Live(l, es[0]);
      assert Unhurried(l'.sent, minPeriod) by {
        forall i | 0 < i < |l'.sent| && l'.sent[i].notification
          ensures l'.sent[i].at >= l'.sent[i - 1].at + minPeriod
        {
          if i < |l.sent| { assert l'.sent[i] == l.sent[i] && l'.sent[i - 1] == l.sent[i - 1]; }
        }
      }
      MinPeriodKept(l', es[1..], end, minPeriod);
    }
  }

  // With a minimum period not above the maximum one, over every run no
  // notification comes less than the minimum period after the previous one.
  lemma NeverTooSoon(l: Life, es: seq<Happening>, end: Life, minPeriod: nat)
    requires Starts(l, false) && Lives(l, es, end, false)
    requires MinPeriod(l.w) == Some(minPeriod)
    requires MaxPeriod(l.w).Some? ==> minPeriod <= MaxPeriod(l.w).value
    ensures Unhurried(end.sent, minPeriod)
  {
    MinPeriodKept(l, es, end, minPeriod);
  }

  // Nothing else is enough: a step notifies before the minimum period is over
  // exactly when the maximum period is over already.
  lemma TooSoonIff(w: Watcher, now: int, crossed: bool)
    requires w.active && MinPeriod(w).Some? && !MinElapsed(w, now)
    ensures Notifies(w, now, crossed) <==> MaxElapsed(w, now)
    ensures MaxElapsed(w, now) ==> MaxPeriod(w).value < MinPeriod(w).value
  {
  }

  // So every watcher whose minimum period exceeds its maximum one has a run
  // that notifies too soon.
  lemma TooSoonPossible(l: Life, timeout: int) returns (e: Happening)
    requires Starts(l, false) && MinPeriod(l.w).Some? && MaxPeriod(l.w).Some?
    requires MaxPeriod(l.w).value < MinPeriod(l.w).value
    ensures Possible(l, e, false) && !Unhurried(Live(l, e).sent, MinPeriod(l.w).value)
  {
    var now := l.w.lastTime + MaxPeriod(l.w).value;
    e := Tick(now, false, StepTimeout(l.w, now, false, timeout));
    assert e.timeout <= StepTimeout(l.w, now, false, timeout);
    var s := Live(l, e).sent;
    assert s[0].at == l.w.lastTime && s[1] == Sending(now, true);
  }

  lemma {:induction false} MaxPeriodKept(l: Life, es: seq<Happening>, end: Life, maxPeriod: nat)
    requires Consistent(l) && Prompt(l.sent, maxPeriod) && Lives(l, es, end, true)
    requires MaxPeriod(l.w) == Some(maxPeriod) && l.clock <= l.w.lastTime + maxPeriod
    requires l.due <= l.w.lastTime + maxPeriod
    ensures Prompt(end.sent, maxPeriod) && end.clock <= end.w.lastTime + maxPeriod
    decreases |es|
  {
    if es != [] {
      var l' := Live(l, es[0]);
      assert Prompt(l'.sent, maxPeriod) by {
        forall i | 0 < i < |l'.sent| ensures l'.sent[i].at <= l'.sent[i - 1].at + maxPeriod {
          if i < |l.sent| { assert l'.sent[i] == l.sent[i] && l'.sent[i - 1] == l.sent[i - 1]; }
        }
      }
      MaxPeriodKept(l', es[1..], end, maxPeriod);
    }
  }

  // If every step comes within the timeout returned by the previous one, the
  // observer never waits longer than the maximum period.
  lemma NeverTooLate(l: Life, es: seq<Happening>, end: Life, maxPeriod: nat)
    requires Starts(l, true) && Lives(l, es, end, true) && MaxPeriod(l.w) == Some(maxPeriod)
    ensures Prompt(end.sent, maxPeriod) && end.clock <= end.w.lastTime + maxPeriod
  {
    MaxPeriodKept(l, es, end, maxPeriod);
  }

  // ----- A pending change ---------------------------------------------------

  // Every step of the run comes before the minimum period is over.
  ghost predicate Early(l: Life, es: seq<Happening>)
    decreases |es|
  {
    es == [] ||
    (&& (es[0].Tick? && MinPeriod(l.w).Some? ==> es[0].now < l.w.lastTime + MinPeriod(l.w).value)
     && Early(Live(l, es[0]), es[1..]))
  }

  ghost predicate Unasked(es: seq<Happening>) { forall i :: 0 <= i < |es| ==> !es[i].Observed? }

  function Notifications(sent: seq<Sending>): nat {
    if sent == [] then 0
    else Notifications(sent[..|sent| - 1]) + if sent[|sent| - 1].notification then 1 else 0
  }

  // A change waits for the minimum period.
  ghost predicate Waits(l: Life, minPeriod: nat) {
    && l.w.active && l.w.update && MinPeriod(l.w) == Some(minPeriod)
    && (MaxPeriod(l.w).Some? ==> minPeriod <= MaxPeriod(l.w).value)
  }

  lemma StillWaits(l: Life, e: Happening, punctual: bool, minPeriod: nat)
    requires Waits(l, minPeriod) && Possible(l, e, punctual)
    requires e.Tick? ==> e.now < l.w.lastTime + minPeriod
    ensures var l' := Live(l, e);
            && Waits(l', minPeriod) && Notifications(l'.sent) == Notifications(l.sent)
            && (!e.Observed? ==> l'.sent == l.sent && l'.w.lastTime == l.w.lastTime)
            && (e.Tick? ==> l'.due <= l'.w.lastTime + minPeriod)
            && (e.Observed? && Consistent(l) ==> l'.w.lastTime >= l.w.lastTime)
  {
    var l' := Live(l, e);
    if e.Observed? { assert l'.sent[..|l'.sent| - 1] == l.sent; }
  }

  // Over every run a change on a watcher with a minimum period goes out at the
  // first step at or after lastTime + pmin, whatever happens in between: it is
  // not sent before, it is not lost, and that step sends it.
  lemma {:induction false} PendingChangeGoesOut(
    l: Life, es: seq<Happening>, end: Life, minPeriod: nat, now: int, crossed: bool, timeout: int)
    requires Waits(l, minPeriod) && Lives(l, es, end, false) && Early(l, es)
    ensures Waits(end, minPeriod) && Notifications(end.sent) == Notifications(l.sent)
    ensures Unasked(es) ==> end.sent == l.sent && end.w.lastTime == l.w.lastTime
    ensures var then' := Live(end, Tick(now, crossed, timeout));
            if now >= end.w.lastTime + minPeriod
            then then'.sent == end.sent + [Sending(now, true)] && !then'.w.update
            else then'.sent == end.sent && then'.w == end.w
    decreases |es|
  {
    if es != [] {
      StillWaits(l, es[0], false, minPeriod);
      assert Unasked(es) ==> !es[0].Observed? && Unasked(es[1..]);
      PendingChangeGoesOut(Live(l, es[0]), es[1..], end, minPeriod, now, crossed, timeout);
    }
  }

  lemma {:induction false} StaysInTime(l: Life, es: seq<Happening>, end: Life, minPeriod: nat)
    requires Waits(l, minPeriod) && Consistent(l) && Lives(l, es, end, true) && Early(l, es)
    requires l.due <= l.w.lastTime + minPeriod && l.clock <= l.w.lastTime + minPeriod
    ensures end.due <= end.w.lastTime + minPeriod && end.clock <= end.w.lastTime + minPeriod
    decreases |es|
  {
    if es != [] {
      StillWaits(l, es[0], true, minPeriod);
      StaysInTime(Live(l, es[0]), es[1..], end, minPeriod);
    }
  }

  // In a punctual run, from the step that first sees the change on, the next
  // step is always due by lastTime + pmin: the change goes out at that very
  // time.
  lemma PendingChangeInTime(l: Life, es: seq<Happening>, end: Life, minPeriod: nat)
    requires Waits(l, minPeriod) && Consistent(l)
    requires es != [] && es[0].Tick? && Lives(l, es, end, true) && Early(l, es)
    ensures end.due <= end.w.lastTime + minPeriod && end.clock <= end.w.lastTime + minPeriod
  {
    StillWaits(l, es[0], true, minPeriod);
    StaysInTime(Live(l, es[0]), es[1..], end, minPeriod);
  }

  // ----- What is sent in one step -------------------------------------------

  ghost predicate SendsOne(l: Life, e: Happening) {
    e.Tick? && Live(l, e).sent == l.sent + [Sending(e.now, true)] && !Live(l, e).w.update &&
    Live(l, e).w == l.w.(update := false, lastTime := e.now, counter := l.w.counter + 1)
  }

  ghost predicate SendsNothing(l: Life, e: Happening) { e.Tick? && Live(l, e).sent == l.sent && Live(l, e).w == l.w }

  ghost predicate NoTick(es: seq<Happening>) { forall i :: 0 <= i < |es| ==> !es[i].Tick? }

  // No attributes at all, or none of them set.
  ghost predicate Plain(w: Watcher) {
    w.parameters == None || w.parameters == Some(Attributes(None, None, false, false, false))
  }

  // Until the next step a pending change stays pending.
  lemma {:induction false} StaysPending(l: Life, es: seq<Happening>, end: Life)
    requires Lives(l, es, end, false) && NoTick(es) && l.w.active && l.w.update
    ensures end.w.active && end.w.update && end.w.parameters == l.w.parameters
    decreases |es|
  {
    if es != [] {
      assert !es[0].Tick?;
      assert forall i :: 0 <= i < |es| - 1 ==> es[1..][i] == es[i + 1];
      StaysPending(Live(l, es[0]), es[1..], end);
    }
  }

  // A change of a resource that is observed without attributes is notified in
  // the very next step, at any time.
  lemma PlainChangeGoesOut(l: Life, es: seq<Happening>, end: Life, now: int, crossed: bool, timeout: int)
    requires l.w.active && Plain(l.w) && Lives(Live(l, Changed), es, end, false) && NoTick(es)
    ensures SendsOne(end, Tick(now, crossed, timeout))
  {
    StaysPending(Live(l, Changed), es, end);
  }

  // With thresholds and no minimum period it is notified in the next step
  // exactly when the value crossed one of them or the maximum period is over.
  lemma CrossingGoesOut(l: Life, es: seq<Happening>, end: Life, now: int, crossed: bool, timeout: int)
    requires l.w.active && l.w.parameters.Some? && Lives(Live(l, Changed), es, end, false) && NoTick(es)
    requires var a := l.w.parameters.value; a.minPeriod == None && (a.lessThan || a.greaterThan || a.step)
    ensures var over := l.w.parameters.value.maxPeriod.Some? &&
                        end.w.lastTime + l.w.parameters.value.maxPeriod.value <= now;
            var e := Tick(now, crossed, timeout);
            if crossed || over then SendsOne(end, e) else SendsNothing(end, e)
  {
    StaysPending(Live(l, Changed), es, end);
  }

  // With a maximum period alone a change does not hasten the notification.
  lemma OnlyMaximumWaits(l: Life, now: int, crossed: bool, timeout: int, maxPeriod: nat)
    requires l.w.active && l.w.parameters == Some(Attributes(None, Some(maxPeriod), false, false, false))
    ensures var e := Tick(now, crossed, timeout);
            if l.w.lastTime + maxPeriod <= now then SendsOne(l, e) else SendsNothing(l, e)
  {
  }

  // Without a change nothing is sent before the maximum period is over, and
  // never without one; an inactive watcher is sent nothing.
  lemma QuietIsSilent(l: Life, now: int, crossed: bool, timeout: int)
    requires !l.w.update || !l.w.active
    ensures var over := l.w.parameters.Some? && l.w.parameters.value.maxPeriod.Some? &&
                        l.w.lastTime + l.w.parameters.value.maxPeriod.value <= now;
            var e := Tick(now, crossed, timeout);
            if l.w.active && over then SendsOne(l, e) else SendsNothing(l, e)
  {
  }

  // A watcher asks to be called again when its minimum period is over, if a
  // change waits for that, and when its maximum period is over; for nothing
  // else.
  lemma AsksInTime(w: Watcher, now: int, crossed: bool, given: int)
    requires w.active && w.parameters.Some?
    ensures var a := w.parameters.value; var t := StepTimeout(w, now, crossed, given);
            var waits := w.update && a.minPeriod.Some? && now < w.lastTime + a.minPeriod.value;
            var last := StepWatcher(w, now, crossed).lastTime;
            && t <= given
            && (waits ==> t <= w.lastTime + a.minPeriod.value - now)
            && (a.maxPeriod.Some? ==> t <= last + a.maxPeriod.value - now)
            && (t == given || (waits && t == w.lastTime + a.minPeriod.value - now) ||
                (a.maxPeriod.Some? && t == last + a.maxPeriod.value - now))
  {
  }

  lemma AsksNothing(w: Watcher, now: int, crossed: bool, given: int)
    requires !w.active || w.parameters == None
    ensures StepTimeout(w, now, crossed, given) == given
  {
  }

  // Writing attributes clears the ones asked to be cleared, changes the ones
  // given, and leaves the others.
  lemma OtherAttributesStay(had: Attributes, r: Request)
    ensures var a := SetParameters(Some(had), r);
            && a.Some?
            && a.value.minPeriod == (if r.clearMin then None else if had.minPeriod == None then None
                                     else if r.values.minPeriod.Some? then r.values.minPeriod else had.minPeriod)
            && a.value.maxPeriod == (if r.clearMax then None else if had.maxPeriod == None then None
                                     else if r.values.maxPeriod.Some? then r.values.maxPeriod else had.maxPeriod)
            && (a.value.lessThan <==> had.lessThan && !r.clearLess)
            && (a.value.greaterThan <==> had.greaterThan && !r.clearGreater)
            && (a.value.step <==> had.step && !r.clearStep)
  {
  }

  // When the resource cannot be read, nothing happens at all. When it cannot be
  // serialized nobody is notified and no watcher changes, and the step asks to
  // be called again for those it came to.
  lemma UnreadableChangesNothing(ws: seq<Watcher>, now: int, crossed: seq<bool>, timeout: int)
    requires |crossed| == |ws|
    ensures StepWatchers(ws, ReadFails, now, crossed, timeout) == (ws, timeout)
  {
  }

  // The watchers before this one are not notified in this step.
  ghost predicate Reached(ws: seq<Watcher>, now: int, crossed: seq<bool>, i: nat)
    requires |crossed| == |ws|
  {
    i < |ws| && forall k :: 0 <= k < i ==> !Notifies(ws[k], now, crossed[k])
  }

  ghost predicate Waiting(w: Watcher, now: int) {
    w.active && w.update && MinPeriod(w).Some? && now < w.lastTime + MinPeriod(w).value
  }

  lemma {:induction false} UnserializedChangesNothing(ws: seq<Watcher>, now: int, crossed: seq<bool>, timeout: int)
    requires |crossed| == |ws|
    ensures var (r, t) := StepWatchers(ws, SerializeFails, now, crossed, timeout);
            && r == ws && t <= timeout
            && forall i: nat :: Reached(ws, now, crossed, i) && Waiting(ws[i], now) ==>
                 t <= ws[i].lastTime + MinPeriod(ws[i]).value - now
  {
    if ws != [] {
      var (r, t) := StepWatchers(ws, SerializeFails, now, crossed, timeout);
      if !Notifies(ws[0], now, crossed[0]) {
        UnserializedChangesNothing(ws[1..], now, crossed[1..], StepTimeout(ws[0], now, crossed[0], timeout));
        assert [ws[0]] + ws[1..] == ws;
      }
      forall i: nat | Reached(ws, now, crossed, i) && Waiting(ws[i], now)
        ensures t <= ws[i].lastTime + MinPeriod(ws[i]).value - now
      {
        if i > 0 {
          assert !Notifies(ws[0], now, crossed[0]);
          assert forall k :: 0 < k < |ws| ==> ws[k] == ws[1..][k - 1] && crossed[k] == crossed[1..][k - 1];
          assert Reached(ws[1..], now, crossed[1..], i - 1);
        }
      }
    }
  }
}
