// Runs of a client with all of its watchers.
module ObserveRuns {
  import opened Common
  import opened Observe
  import opened ObserveEngine

  // What happens to a client: a step, a change of an observed resource, an
  // Observe request for watcher j of resource i.
  datatype Event =
    | Stepped(readings: seq<Read>, now: int, given: int)
    | Tagged(i: nat)
    | Asked(i: nat, j: nat, now: int)

  // `sent` holds, for every watcher, what it was sent. `due` is when the next
  // step has to come, by the timeout last returned.
  datatype Session = Session(watchers: seq<seq<Watcher>>, sent: seq<seq<seq<Sending>>>, clock: int, due: int)

  function Marked(w: Watcher): Watcher { if w.active then w.(update := true) else w }

  function Answered(w: Watcher, now: int): Watcher {
    w.(active := true, lastTime := now, counter := w.counter + 1)
  }

  // One record for each watcher.
  ghost predicate Matched(s: Session) {
    && |s.sent| == |s.watchers|
    && forall i :: 0 <= i < |s.watchers| ==> |s.sent[i]| == |s.watchers[i]|
  }

  // Every read succeeds, and gives one input for each watcher.
  ghost predicate Readable(wss: seq<seq<Watcher>>, readings: seq<Read>) {
    && |readings| == |wss|
    && forall i :: 0 <= i < |wss| ==> |readings[i].crossed| == |wss[i]| && readings[i].reading == ReadOk
  }

  ghost predicate Allowed(s: Session, e: Event, punctual: bool) {
    && Matched(s)
    && match e
       case Stepped(readings, now, given) =>
         Readable(s.watchers, readings) && now >= s.clock && (punctual ==> now <= s.due)
       case Tagged(i) => i < |s.watchers|
       case Asked(i, j, now) =>
         i < |s.watchers| && j < |s.watchers[i]| && now >= s.clock && (punctual ==> now <= s.due)
  }

  // The notifications of one step to the watchers of one resource.
  function Notified(sent: seq<seq<Sending>>, ws: seq<Watcher>, now: int, crossed: seq<bool>): seq<seq<Sending>>
    requires |sent| == |ws| == |crossed|
  {
    if ws == [] then []
    else
      [if Notifies(ws[0], now, crossed[0]) then sent[0] + [Sending(now, true)] else sent[0]] +
      Notified(sent[1..], ws[1..], now, crossed[1..])
  }

  ghost function AllNotified(sent: seq<seq<seq<Sending>>>, wss: seq<seq<Watcher>>, readings: seq<Read>, now: int)
    : seq<seq<seq<Sending>>>
    requires Readable(wss, readings) && |sent| == |wss|
    requires forall i :: 0 <= i < |wss| ==> |sent[i]| == |wss[i]|
  {
    if wss == [] then []
    else
      [Notified(sent[0], wss[0], now, readings[0].crossed)] + AllNotified(sent[1..], wss[1..], readings[1..], now)
  }

  ghost function Next(s: Session, e: Event): Session
    requires Allowed(s, e, false)
  {
    match e
    case Stepped(readings, now, given) =>
      var (wss, timeout) := StepLists(s.watchers, readings, now, given);
      Session(wss, AllNotified(s.sent, s.watchers, readings, now), now, now + timeout)
    case Tagged(i) => s.(watchers := s.watchers[i := Map(Marked, s.watchers[i])])
    case Asked(i, j, now) =>
      s.(watchers := s.watchers[i := s.watchers[i][j := Answered(s.watchers[i][j], now)]],
         sent := s.sent[i := s.sent[i][j := s.sent[i][j] + [Sending(now, false)]]], clock := now)
  }

  ghost predicate Runs(s: Session, es: seq<Event>, end: Session, punctual: bool)
    decreases |es|
  {
    if es == [] then end == s
    else Allowed(s, es[0], punctual) && Runs(Next(s, es[0]), es[1..], end, punctual)
  }

  // ----- One watcher --------------------------------------------------------

  ghost predicate Has(s: Session, i: nat, j: nat) {
    Matched(s) && i < |s.watchers| && j < |s.watchers[i]|
  }

  // Watcher j of resource i at this point of the session, and all it was sent.
  function LifeOf(s: Session, i: nat, j: nat): Life
    requires Has(s, i, j)
  {
    Life(s.watchers[i][j], s.sent[i][j], s.clock, s.due)
  }

  // What an event is for one watcher.
  ghost function Happenings(s: Session, e: Event, i: nat, j: nat): seq<Happening>
    requires Allowed(s, e, false) && Has(s, i, j)
  {
    match e
    case Stepped(readings, now, given) =>
      [Tick(now, readings[i].crossed[j], StepLists(s.watchers, readings, now, given).1)]
    case Tagged(k) => if k == i then [Changed] else []
    case Asked(k, m, now) => if k == i && m == j then [Observed(now)] else [Elsewhere(now)]
  }

  ghost function AllHappenings(s: Session, es: seq<Event>, end: Session, i: nat, j: nat, punctual: bool)
    : seq<Happening>
    requires Runs(s, es, end, punctual) && Has(s, i, j)
    decreases |es|
  {
    if es == [] then []
    else
      StillHas(s, es[0], i, j);
      Happenings(s, es[0], i, j) + AllHappenings(Next(s, es[0]), es[1..], end, i, j, punctual)
  }

  lemma {:induction false} NotifiedAt(sent: seq<seq<Sending>>, ws: seq<Watcher>, now: int, crossed: seq<bool>, j: nat)
    requires |sent| == |ws| == |crossed|
    ensures |Notified(sent, ws, now, crossed)| == |ws|
    ensures j < |ws| ==>
              Notified(sent, ws, now, crossed)[j] ==
              if Notifies(ws[j], now, crossed[j]) then sent[j] + [Sending(now, true)] else sent[j]
  {
    if ws != [] { NotifiedAt(sent[1..], ws[1..], now, crossed[1..], if j > 0 then j - 1 else 0); }
  }

  lemma {:induction false} AllNotifiedAt(
    sent: seq<seq<seq<Sending>>>, wss: seq<seq<Watcher>>, readings: seq<Read>, now: int, i: nat)
    requires Readable(wss, readings) && |sent| == |wss|
    requires forall k :: 0 <= k < |wss| ==> |sent[k]| == |wss[k]|
    ensures |AllNotified(sent, wss, readings, now)| == |wss|
    ensures i < |wss| ==>
              AllNotified(sent, wss, readings, now)[i] == Notified(sent[i], wss[i], now, readings[i].crossed)
  {
    if wss != [] { AllNotifiedAt(sent[1..], wss[1..], readings[1..], now, if i > 0 then i - 1 else 0); }
  }

  // A step changes every watcher as it would alone, and sends it what it would
  // be sent alone.
  lemma SteppedAt(s: Session, readings: seq<Read>, now: int, given: int, i: nat, j: nat)
    requires Allowed(s, Stepped(readings, now, given), false) && Has(s, i, j)
    ensures var s' := Next(s, Stepped(readings, now, given)); var t := StepLists(s.watchers, readings, now, given).1;
            && Has(s', i, j) && t <= StepTimeout(s.watchers[i][j], now, readings[i].crossed[j], given)
            && LifeOf(s', i, j) == Live(LifeOf(s, i, j), Tick(now, readings[i].crossed[j], t))
  {
    var s' := Next(s, Stepped(readings, now, given));
    StepListsIs(s.watchers, readings, now, given);
    AllNotifiedAt(s.sent, s.watchers, readings, now, i);
    forall k | 0 <= k < |s.watchers| ensures |s'.sent[k]| == |s'.watchers[k]| {
      AllNotifiedAt(s.sent, s.watchers, readings, now, k);
      NotifiedAt(s.sent[k], s.watchers[k], now, readings[k].crossed, 0);
    }
    NotifiedAt(s.sent[i], s.watchers[i], now, readings[i].crossed, j);
  }

  lemma StillHas(s: Session, e: Event, i: nat, j: nat)
    requires Allowed(s, e, false) && Has(s, i, j)
    ensures Has(Next(s, e), i, j)
  {
    if e.Stepped? { SteppedAt(s, e.readings, e.now, e.given, i, j); }
  }

  // One event is one happening in the life of a watcher, or none.
  lemma OneEvent(s: Session, e: Event, i: nat, j: nat, punctual: bool)
    requires Allowed(s, e, punctual) && Has(s, i, j)
    ensures Has(Next(s, e), i, j)
    ensures Lives(LifeOf(s, i, j), Happenings(s, e, i, j), LifeOf(Next(s, e), i, j), punctual)
  {
    var l := LifeOf(s, i, j);
    match e
    case Stepped(readings, now, given) =>
      SteppedAt(s, readings, now, given, i, j);
      OneHappening(l, Happenings(s, e, i, j)[0], punctual);
    case Tagged(k) =>
      if k == i {
        MapAt(Marked, s.watchers[i], j);
        OneHappening(l, Changed, punctual);
      }
    case Asked(k, m, now) =>
      OneHappening(l, Happenings(s, e, i, j)[0], punctual);
  }

  lemma OneHappening(l: Life, h: Happening, punctual: bool)
    requires Possible(l, h, punctual)
    ensures Lives(l, [h], Live(l, h), punctual)
  {
    assert [h][1..] == [];
    assert Lives(Live(l, h), [], Live(l, h), punctual);
  }

  lemma {:induction false} LivesOn(l: Life, a: seq<Happening>, mid: Life, b: seq<Happening>, end: Life, punctual: bool)
    requires Lives(l, a, mid, punctual) && Lives(mid, b, end, punctual)
    ensures Lives(l, a + b, end, punctual)
    decreases |a|
  {
    if a == [] {
      assert a + b == b;
    } else {
      assert (a + b)[0] == a[0] && (a + b)[1..] == a[1..] + b;
      LivesOn(Live(l, a[0]), a[1..], mid, b, end, punctual);
    }
  }

  // Every run of the whole client is, for each of its watchers, the run of that
  // watcher alone through the same events: what it is sent, and when, is what
  // it would be sent alone.
  lemma {:induction false} RunIsLife(s: Session, es: seq<Event>, end: Session, i: nat, j: nat, punctual: bool)
    requires Runs(s, es, end, punctual) && Has(s, i, j)
    ensures Has(end, i, j)
    ensures Lives(LifeOf(s, i, j), AllHappenings(s, es, end, i, j, punctual), LifeOf(end, i, j), punctual)
    decreases |es|
  {
    if es != [] {
      var mid := Next(s, es[0]);
      OneEvent(s, es[0], i, j, punctual);
      RunIsLife(mid, es[1..], end, i, j, punctual);
      LivesOn(LifeOf(s, i, j), Happenings(s, es[0], i, j), LifeOf(mid, i, j),
              AllHappenings(mid, es[1..], end, i, j, punctual), LifeOf(end, i, j), punctual);
    }
  }

  // ----- Theorems -----------------------------------------------------------

  // On every run of the client no notification to any watcher comes less than
  // its minimum period after whatever that watcher was sent before.
  lemma EveryWatcherUnhurried(s: Session, es: seq<Event>, end: Session, i: nat, j: nat, minPeriod: nat)
    requires Runs(s, es, end, false) && Has(s, i, j) && Starts(LifeOf(s, i, j), false)
    requires MinPeriod(s.watchers[i][j]) == Some(minPeriod)
    requires MaxPeriod(s.watchers[i][j]).Some? ==> minPeriod <= MaxPeriod(s.watchers[i][j]).value
    ensures Has(end, i, j) && Unhurried(end.sent[i][j], minPeriod)
  {
    RunIsLife(s, es, end, i, j, false);
    NeverTooSoon(LifeOf(s, i, j), AllHappenings(s, es, end, i, j, false), LifeOf(end, i, j), minPeriod);
  }

  // On every punctual run of the client no watcher waits longer than its
  // maximum period for whatever it is sent next, nor at the end of the run.
  lemma EveryWatcherInTime(s: Session, es: seq<Event>, end: Session, i: nat, j: nat, maxPeriod: nat)
    requires Runs(s, es, end, true) && Has(s, i, j) && Starts(LifeOf(s, i, j), true)
    requires MaxPeriod(s.watchers[i][j]) == Some(maxPeriod)
    ensures Has(end, i, j) && Prompt(end.sent[i][j], maxPeriod)
    ensures end.clock <= end.watchers[i][j].lastTime + maxPeriod
  {
    RunIsLife(s, es, end, i, j, true);
    NeverTooLate(LifeOf(s, i, j), AllHappenings(s, es, end, i, j, true), LifeOf(end, i, j), maxPeriod);
  }

  // The record of what was sent agrees with the fields of the watcher: it has
  // one entry for each value of the Observe counter, and the last one is at
  // lastTime.
  lemma RecordFitsWatcher(s: Session, es: seq<Event>, end: Session, i: nat, j: nat)
    requires Runs(s, es, end, false) && Has(s, i, j) && Consistent(LifeOf(s, i, j))
    ensures Has(end, i, j)
    ensures var w, v := s.watchers[i][j], end.watchers[i][j];
            && |end.sent[i][j]| - |s.sent[i][j]| == v.counter - w.counter && s.sent[i][j] <= end.sent[i][j]
            && end.sent[i][j] != [] && end.sent[i][j][|end.sent[i][j]| - 1].at == v.lastTime
  {
    RunIsLife(s, es, end, i, j, false);
    LifeCounts(LifeOf(s, i, j), AllHappenings(s, es, end, i, j, false), LifeOf(end, i, j));
  }

  lemma {:induction false} LifeCounts(l: Life, hs: seq<Happening>, end: Life)
    requires Lives(l, hs, end, false) && Consistent(l)
    ensures Consistent(end) && l.sent <= end.sent && |end.sent| - |l.sent| == end.w.counter - l.w.counter
    decreases |hs|
  {
    if hs != [] { LifeCounts(Live(l, hs[0]), hs[1..], end); }
  }

  // A change of an observed resource reaches every active watcher without
  // attributes in the next step of the client.
  lemma PlainChangeReachesAll(s: Session, i: nat, j: nat, readings: seq<Read>, now: int, given: int)
    requires Allowed(s, Tagged(i), false) && Has(s, i, j)
    requires s.watchers[i][j].active && Plain(s.watchers[i][j])
    requires Allowed(Next(s, Tagged(i)), Stepped(readings, now, given), false)
    ensures var end := Next(Next(s, Tagged(i)), Stepped(readings, now, given));
            && Has(end, i, j) && end.sent[i][j] == s.sent[i][j] + [Sending(now, true)]
            && !end.watchers[i][j].update && end.watchers[i][j].lastTime == now
  {
    var mid := Next(s, Tagged(i));
    MapAt(Marked, s.watchers[i], j);
    SteppedAt(mid, readings, now, given, i, j);
  }
}
