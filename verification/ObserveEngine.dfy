// The observe step as written: nested loops over the observed resources and
// their watchers, updating the watchers in place (wakaama/core/observe.c).
module ObserveEngine {
  import opened Common
  import opened Observe

  class WatcherNode {
    var active: bool
    var update: bool
    var parameters: Option<Attributes>
    var lastTime: int
    var counter: nat

    constructor ()
      ensures Value() == Watcher(false, false, None, 0, 0)
    {
      active, update, parameters, lastTime, counter := false, false, None, 0, 0;
    }

    function Value(): Watcher
      reads this
    {
      Watcher(active, update, parameters, lastTime, counter)
    }

    // The decision taken in observe_step for one watcher, in the order of the
    // source: conditions on a change, minimum period, maximum period.
    method Decide(now: int, crossed: bool, timeoutIn: int) returns (notify: bool, timeout: int)
      requires active
      ensures notify == Notifies(Value(), now, crossed)
      ensures timeout == ChangeTimeout(Value(), now, timeoutIn)
    {
      notify, timeout := false, timeoutIn;
      if update {
        if parameters == None || Nothing(parameters.value) {
          notify := true;
        }
        if !notify && parameters.Some? && Numeric(parameters.value) {
          notify := crossed;
        }
        if parameters.Some? && parameters.value.minPeriod.Some? {
          var minPeriod := parameters.value.minPeriod.value;
          if lastTime + minPeriod > now {
            timeout := Min(timeout, lastTime + minPeriod - now);
            notify := false;
          } else {
            notify := true;
          }
        }
      }
      if !notify && parameters.Some? && parameters.value.maxPeriod.Some? {
        if lastTime + parameters.value.maxPeriod.value <= now {
          notify := true;
        }
      }
    }

    // One round of the inner loop; `broken` when the resource cannot be
    // serialized for the notification.
    method Round(reading: Reading, now: int, crossed: bool, timeoutIn: int)
      returns (broken: bool, timeout: int)
      requires reading != ReadFails
      modifies this
      ensures broken == (reading == SerializeFails && Notifies(old(Value()), now, crossed))
      ensures broken ==> Value() == old(Value()) && timeout == ChangeTimeout(old(Value()), now, timeoutIn)
      ensures !broken ==> Value() == StepWatcher(old(Value()), now, crossed)
      ensures !broken ==> timeout == StepTimeout(old(Value()), now, crossed, timeoutIn)
    {
      broken, timeout := false, timeoutIn;
      if active {
        var notify;
        notify, timeout := Decide(now, crossed, timeoutIn);
        if notify {
          if reading == SerializeFails {
            return true, timeout;
          }
          lastTime := now;
          counter := counter + 1;
          update := false;
        }
        if parameters.Some? && parameters.value.maxPeriod.Some? {
          timeout := Min(timeout, lastTime + parameters.value.maxPeriod.value - now);
        }
      }
    }
  }

  function Values(ws: seq<WatcherNode>): (r: seq<Watcher>)
    reads ws
    ensures |r| == |ws|
    ensures forall i :: 0 <= i < |ws| ==> r[i] == ws[i].Value()
  {
    seq(|ws|, i requires 0 <= i < |ws| reads ws => ws[i].Value())
  }

  ghost predicate Distinct(ws: seq<WatcherNode>) {
    forall i, j :: 0 <= i < j < |ws| ==> ws[i] != ws[j]
  }

  // The result of the walk, when the first k watchers are handled already.
  ghost function WalkRest(ws: seq<Watcher>, k: nat, reading: Reading, now: int, crossed: seq<bool>, timeout: int,
                          vals: seq<Watcher>): (seq<Watcher>, int)
    requires |crossed| == |ws| == |vals| && k <= |ws|
  {
    var (rest, t) := StepWatchers(ws[k..], reading, now, crossed[k..], timeout);
    (vals[..k] + rest, t)
  }

  lemma WalkOn(ws: seq<Watcher>, k: nat, reading: Reading, now: int, crossed: seq<bool>, timeout: int,
               vals: seq<Watcher>)
    requires |crossed| == |ws| == |vals| && k < |ws| && reading != ReadFails
    requires vals[k..] == ws[k..]
    ensures if reading == SerializeFails && Notifies(ws[k], now, crossed[k]) then
              WalkRest(ws, k, reading, now, crossed, timeout, vals) == (vals, ChangeTimeout(ws[k], now, timeout))
            else
              WalkRest(ws, k, reading, now, crossed, timeout, vals) ==
              WalkRest(ws, k + 1, reading, now, crossed, StepTimeout(ws[k], now, crossed[k], timeout),
                       vals[k := StepWatcher(ws[k], now, crossed[k])])
  {
    assert ws[k..][1..] == ws[k + 1..] && crossed[k..][1..] == crossed[k + 1..];
    assert vals == vals[..k] + vals[k..];
    var w := StepWatcher(ws[k], now, crossed[k]);
    var rest := StepWatchers(ws[k + 1..], reading, now, crossed[k + 1..],
                             StepTimeout(ws[k], now, crossed[k], timeout)).0;
    assert vals[k := w][..k + 1] == vals[..k] + [w];
    assert vals[..k] + ([w] + rest) == vals[..k] + [w] + rest;
  }

  lemma WalkAtStart(ws: seq<Watcher>, reading: Reading, now: int, crossed: seq<bool>, timeout: int, vals: seq<Watcher>)
    requires |crossed| == |ws| == |vals|
    ensures WalkRest(ws, 0, reading, now, crossed, timeout, vals) == StepWatchers(ws, reading, now, crossed, timeout)
  {
    assert ws[0..] == ws && crossed[0..] == crossed;
    var r := StepWatchers(ws, reading, now, crossed, timeout).0;
    assert vals[..0] + r == r;
  }

  class ObservedNode {
    var watcherList: seq<WatcherNode>

    constructor ()
      ensures watcherList == []
    {
      watcherList := [];
    }

    // The inner loop of observe_step.
    method Step(reading: Reading, now: int, crossed: seq<bool>, timeoutIn: int) returns (timeout: int)
      requires |crossed| == |watcherList| && Distinct(watcherList)
      modifies watcherList
      ensures (Values(watcherList), timeout) ==
              StepWatchers(old(Values(watcherList)), reading, now, crossed, timeoutIn)
    {
      timeout := timeoutIn;
      if reading == ReadFails {
        return;
      }
      ghost var before := Values(watcherList);
      ghost var vals := before;
      var k := 0;
      WalkAtStart(before, reading, now, crossed, timeoutIn, before);
      while k < |watcherList|
        invariant k <= |watcherList| == |vals|
        invariant Values(watcherList) == vals && vals[k..] == before[k..]
        invariant WalkRest(before, k, reading, now, crossed, timeout, vals) ==
                  StepWatchers(before, reading, now, crossed, timeoutIn)
      {
        WalkOn(before, k, reading, now, crossed, timeout, vals);
        assert vals[k] == vals[k..][0] == before[k..][0] == before[k];
        var broken;
        broken, timeout := RoundAt(k, reading, now, crossed[k], timeout, vals);
        if broken {
          return;
        }
        vals := vals[k := StepWatcher(vals[k], now, crossed[k])];
        k := k + 1;
      }
      assert vals[..k] + [] == vals;
    }

    method RoundAt(k: nat, reading: Reading, now: int, crossed: bool, timeoutIn: int, ghost vals: seq<Watcher>)
      returns (broken: bool, timeout: int)
      requires k < |watcherList| && Distinct(watcherList) && Values(watcherList) == vals && reading != ReadFails
      modifies watcherList[k]
      ensures broken == (reading == SerializeFails && Notifies(vals[k], now, crossed))
      ensures broken ==> Values(watcherList) == vals && timeout == ChangeTimeout(vals[k], now, timeoutIn)
      ensures !broken ==> Values(watcherList) == vals[k := StepWatcher(vals[k], now, crossed)]
      ensures !broken ==> timeout == StepTimeout(vals[k], now, crossed, timeoutIn)
    {
      broken, timeout := watcherList[k].Round(reading, now, crossed, timeoutIn);
    }

    // The body of lwm2m_resource_value_changed for a resource that matches.
    method Tag()
      requires Distinct(watcherList)
      modifies watcherList
      ensures forall i :: 0 <= i < |watcherList| ==>
                var w := old(watcherList[i].Value());
                watcherList[i].Value() == if w.active then w.(update := true) else w
    {
      var k := 0;
      while k < |watcherList|
        invariant k <= |watcherList|
        invariant forall i :: 0 <= i < |watcherList| ==>
                    var w := old(watcherList[i].Value());
                    watcherList[i].Value() == if i < k && w.active then w.(update := true) else w
      {
        if watcherList[k].active {
          watcherList[k].update := true;
        }
        k := k + 1;
      }
    }
  }

  // The inputs of one step for one observed resource.
  datatype Read = Read(reading: Reading, crossed: seq<bool>)

  function StepLists(wss: seq<seq<Watcher>>, readings: seq<Read>, now: int, timeout: int)
    : (r: (seq<seq<Watcher>>, int))
    requires |readings| == |wss|
    requires forall i :: 0 <= i < |wss| ==> |readings[i].crossed| == |wss[i]|
    ensures |r.0| == |wss|
  {
    if wss == [] then ([], timeout)
    else
      var (ws, t) := StepWatchers(wss[0], readings[0].reading, now, readings[0].crossed, timeout);
      var (rest, t') := StepLists(wss[1..], readings[1..], now, t);
      ([ws] + rest, t')
  }

  // Every watcher of every readable resource is stepped on its own, and the
  // timeout returned is within what each of them allows.
  lemma {:induction false} StepListsIs(wss: seq<seq<Watcher>>, readings: seq<Read>, now: int, timeout: int)
    requires |readings| == |wss|
    requires forall i :: 0 <= i < |wss| ==> |readings[i].crossed| == |wss[i]| && readings[i].reading == ReadOk
    ensures var (r, t) := StepLists(wss, readings, now, timeout);
            && |r| == |wss| && t <= timeout
            && (forall i :: 0 <= i < |wss| ==> |r[i]| == |wss[i]|)
            && (forall i, j :: 0 <= i < |wss| && 0 <= j < |wss[i]| ==>
                  && r[i][j] == StepWatcher(wss[i][j], now, readings[i].crossed[j])
                  && t <= StepTimeout(wss[i][j], now, readings[i].crossed[j], timeout))
  {
    if wss != [] {
      var (ws, t0) := StepWatchers(wss[0], readings[0].reading, now, readings[0].crossed, timeout);
      StepWatchersIs(wss[0], now, readings[0].crossed, timeout);
      StepListsIs(wss[1..], readings[1..], now, t0);
      var (r, t) := StepLists(wss, readings, now, timeout);
      forall i, j | 0 <= i < |wss| && 0 <= j < |wss[i]|
        ensures r[i][j] == StepWatcher(wss[i][j], now, readings[i].crossed[j])
        ensures t <= StepTimeout(wss[i][j], now, readings[i].crossed[j], timeout)
      {
        if i > 0 {
          assert r[i] == r[1..][i - 1] && wss[i] == wss[1..][i - 1] && readings[i] == readings[1..][i - 1];
          TimeoutMonotone(wss[i][j], now, readings[i].crossed[j], t0, timeout);
        }
      }
    }
  }

  class Context {
    var observedList: seq<ObservedNode>

    constructor ()
      ensures observedList == []
    {
      observedList := [];
    }

    // Observed resources own their watchers.
    ghost predicate Valid()
      reads this, observedList
    {
      && (forall i :: 0 <= i < |observedList| ==> Distinct(observedList[i].watcherList))
      && (forall i, j :: 0 <= i < j < |observedList| ==>
            observedList[i] != observedList[j] &&
            forall w :: w in observedList[i].watcherList ==> w !in observedList[j].watcherList)
    }

    ghost function Watchers(): set<WatcherNode>
      reads this, observedList
    {
      set i, w | 0 <= i < |observedList| && w in observedList[i].watcherList :: w
    }

    ghost predicate Holds(values: seq<seq<Watcher>>)
      reads this, observedList, Watchers()
    {
      && |values| == |observedList|
      && forall i :: 0 <= i < |observedList| ==> HoldsAt(i, values[i])
    }

    ghost predicate HoldsAt(i: nat, values: seq<Watcher>)
      requires i < |observedList|
      reads this, observedList, Watchers()
    {
      assert forall w :: w in observedList[i].watcherList ==> w in Watchers();
      Values(observedList[i].watcherList) == values
    }

    // observe_step
    method Step(readings: seq<Read>, now: int, timeoutIn: int, ghost before: seq<seq<Watcher>>)
      returns (timeout: int)
      requires Valid() && Holds(before) && |readings| == |observedList|
      requires forall i :: 0 <= i < |observedList| ==> |readings[i].crossed| == |before[i]|
      modifies Watchers()
      ensures Valid() && Holds(StepLists(before, readings, now, timeoutIn).0)
      ensures timeout == StepLists(before, readings, now, timeoutIn).1
    {
      ghost var f := (k: nat, t: int, vals: seq<seq<Watcher>>) =>
        if k <= |before| == |vals| then Rest(before, k, readings, now, t, vals) else (vals, t);
      RestAtStart(before, readings, now, timeoutIn, before);
      ghost var after;
      timeout, after := Rounds(readings, now, timeoutIn, before, f);
    }

    // The outer loop.
    method Rounds(readings: seq<Read>, now: int, timeoutIn: int, ghost before: seq<seq<Watcher>>,
                  ghost f: (nat, int, seq<seq<Watcher>>) -> (seq<seq<Watcher>>, int))
      returns (timeout: int, ghost after: seq<seq<Watcher>>)
      requires Valid() && Holds(before) && Fits(before, readings) && StandsForRest(f, before, readings, now)
      modifies Watchers()
      ensures Valid() && Holds(after) && (after, timeout) == f(0, timeoutIn, before)
    {
      timeout, after := timeoutIn, before;
      var k := 0;
      while k < |observedList|
        invariant k <= |observedList| && Watchers() == old(Watchers())
        invariant Holds(after) && forall i :: k <= i < |after| ==> after[i] == before[i]
        invariant f(k, timeout, after) == f(0, timeoutIn, before)
      {
        assert forall w :: w in observedList[k].watcherList ==> w in Watchers();
        after, timeout := StepAt(k, readings, now, timeout, before, after, f);
        k := k + 1;
      }
      RestAtEnd(f, before, readings, now, timeout, after);
    }

    // One round of the outer loop.
    method StepAt(k: nat, readings: seq<Read>, now: int, timeoutIn: int, ghost before: seq<seq<Watcher>>,
                  ghost vals: seq<seq<Watcher>>, ghost f: (nat, int, seq<seq<Watcher>>) -> (seq<seq<Watcher>>, int))
      returns (ghost after: seq<seq<Watcher>>, timeout: int)
      requires Valid() && k < |observedList| && Holds(vals) && |vals| == |before| && vals[k] == before[k]
      requires Fits(before, readings) && StandsForRest(f, before, readings, now)
      modifies observedList[k].watcherList
      ensures Valid() && Holds(after) && Watchers() == old(Watchers())
      ensures forall i :: k < i < |vals| ==> after[i] == vals[i]
      ensures f(k + 1, timeout, after) == f(k, timeoutIn, vals)
    {
      assert HoldsAt(k, vals[k]);
      timeout := observedList[k].Step(readings[k].reading, now, readings[k].crossed, timeoutIn);
      after := vals[k := Values(observedList[k].watcherList)];
      StepHead(before, k, readings, now, timeoutIn, vals);
      assert f(k, timeoutIn, vals) == Rest(before, k, readings, now, timeoutIn, vals);
      assert f(k + 1, timeout, after) == Rest(before, k + 1, readings, now, timeout, after);
      forall i | 0 <= i < |observedList| ensures HoldsAt(i, after[i]) {
        if i != k {
          assert old(HoldsAt(i, vals[i]));
          var ws := observedList[i].watcherList;
          forall j | 0 <= j < |ws| ensures ws[j].Value() == old(ws[j].Value()) {
            assert ws[j] in ws && ws[j] !in observedList[k].watcherList;
          }
        }
      }
    }
  }

  ghost predicate Fits(wss: seq<seq<Watcher>>, readings: seq<Read>) {
    && |readings| == |wss|
    && forall i :: 0 <= i < |wss| ==> |readings[i].crossed| == |wss[i]|
  }

  ghost predicate StandsForRest(f: (nat, int, seq<seq<Watcher>>) -> (seq<seq<Watcher>>, int),
                                wss: seq<seq<Watcher>>, readings: seq<Read>, now: int)
    requires Fits(wss, readings)
  {
    forall k, t, vals {:trigger Rest(wss, k, readings, now, t, vals)} ::
      0 <= k <= |wss| == |vals| ==> f(k, t, vals) == Rest(wss, k, readings, now, t, vals)
  }

  lemma RestAtEnd(f: (nat, int, seq<seq<Watcher>>) -> (seq<seq<Watcher>>, int),
                  wss: seq<seq<Watcher>>, readings: seq<Read>, now: int, timeout: int, vals: seq<seq<Watcher>>)
    requires Fits(wss, readings) && StandsForRest(f, wss, readings, now) && |vals| == |wss|
    ensures f(|wss|, timeout, vals) == (vals, timeout)
  {
    assert f(|wss|, timeout, vals) == Rest(wss, |wss|, readings, now, timeout, vals);
    assert vals[..|wss|] + [] == vals;
  }

  // The result of the step, when the first k resources are handled already.
  ghost function Rest(wss: seq<seq<Watcher>>, k: nat, readings: seq<Read>, now: int, timeout: int,
                      vals: seq<seq<Watcher>>): (seq<seq<Watcher>>, int)
    requires |readings| == |wss| == |vals| && k <= |wss|
    requires forall i :: 0 <= i < |wss| ==> |readings[i].crossed| == |wss[i]|
  {
    var (rest, t) := StepLists(wss[k..], readings[k..], now, timeout);
    (vals[..k] + rest, t)
  }

  lemma StepHead(wss: seq<seq<Watcher>>, k: nat, readings: seq<Read>, now: int, timeout: int, vals: seq<seq<Watcher>>)
    requires |readings| == |wss| == |vals| && k < |wss|
    requires forall i :: 0 <= i < |wss| ==> |readings[i].crossed| == |wss[i]|
    ensures var (ws, t) := StepWatchers(wss[k], readings[k].reading, now, readings[k].crossed, timeout);
            Rest(wss, k, readings, now, timeout, vals) == Rest(wss, k + 1, readings, now, t, vals[k := ws])
  {
    assert wss[k..][1..] == wss[k + 1..] && readings[k..][1..] == readings[k + 1..];
    var (ws, t) := StepWatchers(wss[k], readings[k].reading, now, readings[k].crossed, timeout);
    var rest := StepLists(wss[k + 1..], readings[k + 1..], now, t).0;
    assert vals[k := ws][..k + 1] == vals[..k] + [ws];
    assert vals[..k] + ([ws] + rest) == vals[..k] + [ws] + rest;
  }

  lemma RestAtStart(wss: seq<seq<Watcher>>, readings: seq<Read>, now: int, timeout: int, vals: seq<seq<Watcher>>)
    requires |readings| == |wss| == |vals|
    requires forall i :: 0 <= i < |wss| ==> |readings[i].crossed| == |wss[i]|
    ensures Rest(wss, 0, readings, now, timeout, vals) == StepLists(wss, readings, now, timeout)
  {
    assert wss[0..] == wss && readings[0..] == readings;
    assert vals[..0] + StepLists(wss, readings, now, timeout).0 == StepLists(wss, readings, now, timeout).0;
  }
}
