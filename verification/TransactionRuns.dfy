// What holds over whole runs of transactions.
module TransactionRuns {
  import opened Common
  import opened SortedList
  import opened Transactions

  // ----- Runs ---------------------------------------------------------------

  // Submit is a new request; Clone is the next block of a listed one, sharing
  // its callback and user data.
  datatype Input =
    | Submit(x: Exchange, now: int)
    | Clone(of: nat, x: Exchange, now: int)
    | Tick(now: int)
    | Receive(peer: nat, m: Message, hasResponse: bool, now: int)
    | Shutdown

  // The engine, with a record of what was handed to it: every exchange, the
  // time of its first send, and which of them some received message matched.
  datatype Run = Run(s: State, issued: map<nat, Exchange>, since: map<nat, int>, answered: set<nat>)

  const Empty := Run(State([], []), map[], map[], {})

  ghost predicate Listed(s: State, tag: nat) {
    exists i :: 0 <= i < |s.list| && s.list[i].x.tag == tag
  }

  ghost predicate ListedData(s: State, data: nat) {
    exists i :: 0 <= i < |s.list| && s.list[i].x.callback == Result(data)
  }

  ghost predicate KnownData(issued: map<nat, Exchange>, data: nat) {
    exists tag :: tag in issued && issued[tag].callback == Result(data)
  }

  // mIDs are distinct among the pending transactions; tags never repeat.
  ghost predicate Fresh(r: Run, x: Exchange) {
    x.tag !in r.issued && !HasKey(r.s.list, Mid, x.mID)
  }

  ghost predicate Ready(r: Run, a: Input) {
    match a
    case Submit(x, _) => Fresh(r, x) && (x.callback.Result? ==> !KnownData(r.issued, x.callback.data))
    case Clone(of, x, _) =>
      Fresh(r, x) && exists i :: 0 <= i < |r.s.list| && r.s.list[i].x.tag == of &&
                                 r.s.list[i].x.callback == x.callback
    case _ => true
  }

  ghost function Enter(p: Params, r: Run, x: Exchange, now: int): Run
    requires Fresh(r, x)
  {
    Run(Submitted(p, r.s, x, now),
        r.issued[x.tag := x], r.since[x.tag := now], r.answered)
  }

  ghost function Apply(p: Params, r: Run, a: Input): Run
    requires Ordered(r.s) && Ready(r, a)
  {
    match a
    case Submit(x, now) => Enter(p, r, x, now)
    case Clone(_, x, now) => Enter(p, r, x, now)
    case Tick(now) => r.(s := Step(p, r.s, now, 0).0)
    case Receive(peer, m, hasResponse, now) =>
      var i := MatchIndex(r.s.list, peer, m);
      r.(s := HandleResponse(p, r.s, peer, m, hasResponse, now).0,
         answered := if i < |r.s.list| then r.answered + {r.s.list[i].x.tag} else r.answered)
    case Shutdown => r.(s := Transactions.Close(r.s))
  }

  // `to` is reached from `from` by the inputs, each ready when it comes.
  ghost predicate Reaches(p: Params, from: Run, inputs: seq<Input>, to: Run)
    decreases |inputs|
  {
    if inputs == [] then to == from
    else Ordered(from.s) && Ready(from, inputs[0]) && Reaches(p, Apply(p, from, inputs[0]), inputs[1..], to)
  }

  // ----- Counting events ----------------------------------------------------

  datatype Kind = Sending | Calling | Freeing | Releasing

  predicate Is(e: Event, k: Kind, id: nat) {
    match e
    case Sent(tag, _) => k == Sending && tag == id
    case Called(tag, _) => k == Calling && tag == id
    case Freed(tag) => k == Freeing && tag == id
    case DataFreed(data) => k == Releasing && data == id
    case AckSent(_) => false
  }

  ghost function Tally(log: seq<Event>, k: Kind, id: nat): nat {
    if log == [] then 0
    else Tally(log[..|log| - 1], k, id) + if Is(log[|log| - 1], k, id) then 1 else 0
  }

  lemma TallyPush(log: seq<Event>, e: Event, k: Kind, id: nat)
    ensures Tally(log + [e], k, id) == Tally(log, k, id) + if Is(e, k, id) then 1 else 0
  {
    assert (log + [e])[..|log|] == log;
  }

  ghost predicate ReleasesData(list: seq<Txn>, t: Txn, reply: Option<Message>, data: nat) {
    t.x.callback == Result(data) && !GivesUp(reply) && !DataShared(list, t, data)
  }

  lemma CallbackTally(s: State, t: Txn, reply: Option<Message>, k: Kind, id: nat)
    ensures Tally(s.log + CallbackEvents(s.list, t, reply), k, id) == Tally(s.log, k, id) +
            match k
            case Calling => if t.x.callback != NoCallback && t.x.tag == id then 1 else 0
            case Releasing => if ReleasesData(s.list, t, reply, id) then 1 else 0
            case _ => 0
  {
    var call := Called(t.x.tag, reply);
    var evs := CallbackEvents(s.list, t, reply);
    match t.x.callback
    case NoCallback => assert s.log + evs == s.log;
    case Plain => TallyPush(s.log, call, k, id);
    case Result(data) =>
      TallyPush(s.log, call, k, id);
      if ReleasesData(s.list, t, reply, data) {
        assert s.log + evs == (s.log + [call]) + [DataFreed(data)];
        TallyPush(s.log + [call], DataFreed(data), k, id);
      } else {
        assert s.log + evs == s.log + [call];
      }
  }

  // What finishing a transaction adds to the log.
  lemma FinishTally(s: State, t: Txn, reply: Option<Message>, k: Kind, id: nat)
    ensures Tally(Finish(s, t, reply).log, k, id) == Tally(s.log, k, id) +
            match k
            case Sending => 0
            case Calling => if t.x.callback != NoCallback && t.x.tag == id then 1 else 0
            case Freeing => if t.x.tag == id then 1 else 0
            case Releasing => if ReleasesData(s.list, t, reply, id) then 1 else 0
  {
    CallbackTally(s, t, reply, k, id);
    TallyPush(s.log + CallbackEvents(s.list, t, reply), Freed(t.x.tag), k, id);
  }

  // ----- The invariant ------------------------------------------------------

  ghost predicate WellListed(p: Params, s: State, issued: map<nat, Exchange>) {
    && Ordered(s)
    && (forall i :: 0 <= i < |s.list| ==> WellKept(p, s, issued, s.list[i]))
    && (forall i, j :: 0 <= i < j < |s.list| ==> s.list[i].x.tag != s.list[j].x.tag)
  }

  ghost predicate WellKept(p: Params, s: State, issued: map<nat, Exchange>, t: Txn) {
    && t.x.tag in issued && issued[t.x.tag] == t.x && t.x.encodable
    && 2 <= t.counter <= p.maxRetransmit + 2
    && t.counter == Tally(s.log, Sending, t.x.tag) + 1
  }

  // Conservation: an issued transaction is either still listed, untouched by
  // callback and release, or it was released once and called back once.
  ghost predicate Balanced(p: Params, s: State, issued: map<nat, Exchange>, tag: nat) {
    var gone := if tag !in issued || Listed(s, tag) then 0 else 1;
    && Tally(s.log, Freeing, tag) == gone
    && Tally(s.log, Calling, tag) ==
       (if tag in issued && issued[tag].callback != NoCallback && issued[tag].encodable then gone else 0)
    && Tally(s.log, Sending, tag) <= (if tag in issued then p.maxRetransmit + 1 else 0)
  }

  // User data is never released twice, nor while a listed transaction uses it.
  // In a tidy run, one without malformed Location-Paths and with every message
  // serializable, it is released as soon as the last of its users has left.
  ghost predicate DataSafe(s: State, issued: map<nat, Exchange>, tidy: bool, data: nat) {
    && Tally(s.log, Releasing, data) <= 1
    && (ListedData(s, data) || !KnownData(issued, data) ==> Tally(s.log, Releasing, data) == 0)
    && (tidy && !ListedData(s, data) && KnownData(issued, data) ==> Tally(s.log, Releasing, data) == 1)
  }

  ghost predicate Inv(p: Params, s: State, issued: map<nat, Exchange>, tidy: bool) {
    && WellListed(p, s, issued)
    && (forall tag :: Balanced(p, s, issued, tag))
    && (forall data :: DataSafe(s, issued, tidy, data))
  }

  // ----- Each move keeps it -------------------------------------------------

  lemma SentKeeps(p: Params, s: State, issued: map<nat, Exchange>, tidy: bool, i: nat, t: Txn, now: int)
    requires Inv(p, s, issued, tidy) && i < |s.list|
    requires t.x == s.list[i].x && t.counter == s.list[i].counter + 1 <= p.maxRetransmit + 2
    ensures Inv(p, State(s.list[i := t], s.log + [Sent(t.x.tag, now)]), issued, tidy)
  {
    var e := Sent(t.x.tag, now);
    var s' := State(s.list[i := t], s.log + [e]);
    forall k, id ensures Tally(s'.log, k, id) == Tally(s.log, k, id) + if Is(e, k, id) then 1 else 0 {
      TallyPush(s.log, e, k, id);
    }
    SameTags(s, s', i);
    assert WellKept(p, s, issued, s.list[i]);
    forall j | 0 <= j < |s'.list| ensures WellKept(p, s', issued, s'.list[j]) {
      assert WellKept(p, s, issued, s.list[j]);
    }
    forall tag ensures Balanced(p, s', issued, tag) {
      assert Balanced(p, s, issued, tag);
    }
    forall data ensures DataSafe(s', issued, tidy, data) {
      assert DataSafe(s, issued, tidy, data);
    }
  }

  lemma TouchedKeeps(p: Params, s: State, issued: map<nat, Exchange>, tidy: bool, i: nat, t: Txn)
    requires Inv(p, s, issued, tidy) && i < |s.list|
    requires t.x == s.list[i].x && t.counter == s.list[i].counter
    ensures Inv(p, s.(list := s.list[i := t]), issued, tidy)
  {
    var s' := s.(list := s.list[i := t]);
    SameTags(s, s', i);
    forall j | 0 <= j < |s'.list| ensures WellKept(p, s', issued, s'.list[j]) {
      assert WellKept(p, s, issued, s.list[j]);
    }
    forall tag ensures Balanced(p, s', issued, tag) {
      assert Balanced(p, s, issued, tag);
    }
    forall data ensures DataSafe(s', issued, tidy, data) {
      assert DataSafe(s, issued, tidy, data);
    }
  }

  lemma AckKeeps(p: Params, s: State, issued: map<nat, Exchange>, tidy: bool, mid: uint16)
    requires Inv(p, s, issued, tidy)
    ensures Inv(p, s.(log := s.log + [AckSent(mid)]), issued, tidy)
  {
    var s' := s.(log := s.log + [AckSent(mid)]);
    forall k, id ensures Tally(s'.log, k, id) == Tally(s.log, k, id) {
      TallyPush(s.log, AckSent(mid), k, id);
    }
    forall j | 0 <= j < |s'.list| ensures WellKept(p, s', issued, s'.list[j]) {
      assert WellKept(p, s, issued, s.list[j]);
    }
    forall tag ensures Balanced(p, s', issued, tag) {
      assert Balanced(p, s, issued, tag);
      assert Listed(s', tag) == Listed(s, tag);
    }
    forall data ensures DataSafe(s', issued, tidy, data) {
      assert DataSafe(s, issued, tidy, data);
      assert ListedData(s', data) == ListedData(s, data);
    }
  }

  lemma SameTags(s: State, s': State, i: nat)
    requires i < |s.list| == |s'.list| && s'.list[i].x == s.list[i].x
    requires forall j :: 0 <= j < |s.list| && j != i ==> s'.list[j] == s.list[j]
    ensures forall j :: 0 <= j < |s.list| ==> s'.list[j].x == s.list[j].x
    ensures Ordered(s) ==> Ordered(s')
    ensures forall tag :: Listed(s', tag) <==> Listed(s, tag)
    ensures forall data :: ListedData(s', data) <==> ListedData(s, data)
  {
    forall tag ensures Listed(s', tag) <==> Listed(s, tag) {
      if Listed(s, tag) {
        var j :| 0 <= j < |s.list| && s.list[j].x.tag == tag;
        assert s'.list[j].x.tag == tag;
      }
      if Listed(s', tag) {
        var j :| 0 <= j < |s'.list| && s'.list[j].x.tag == tag;
        assert s.list[j].x.tag == tag;
      }
    }
    forall data ensures ListedData(s', data) <==> ListedData(s, data) {
      if ListedData(s, data) {
        var j :| 0 <= j < |s.list| && s.list[j].x.callback == Result(data);
        assert s'.list[j].x.callback == Result(data);
      }
      if ListedData(s', data) {
        var j :| 0 <= j < |s'.list| && s'.list[j].x.callback == Result(data);
        assert s.list[j].x.callback == Result(data);
      }
    }
    if Ordered(s) {
      forall j, k | 0 <= j < k < |s'.list| ensures Mid(s'.list[j]) < Mid(s'.list[k]) {
        assert Mid(s.list[j]) < Mid(s.list[k]);
      }
    }
  }

  // ----- A transaction leaves -----------------------------------------------

  lemma Departs(s: State, i: nat, r: seq<Txn>)
    requires i < |s.list| && r == s.list[..i] + s.list[i + 1..]
    requires forall j, k :: 0 <= j < k < |s.list| ==> s.list[j].x.tag != s.list[k].x.tag
    ensures forall j :: 0 <= j < |r| ==> r[j] in s.list && r[j].x.tag != s.list[i].x.tag
    ensures forall j, k :: 0 <= j < k < |r| ==> r[j].x.tag != r[k].x.tag
    ensures forall t :: t in s.list && t != s.list[i] ==> t in r
  {
    forall j | 0 <= j < |r| ensures r[j] in s.list && r[j].x.tag != s.list[i].x.tag {
      assert r[j] == if j < i then s.list[j] else s.list[j + 1];
    }
    forall j, k | 0 <= j < k < |r| ensures r[j].x.tag != r[k].x.tag {
      assert r[j] == if j < i then s.list[j] else s.list[j + 1];
      assert r[k] == if k < i then s.list[k] else s.list[k + 1];
    }
    forall t | t in s.list && t != s.list[i] ensures t in r {
      var j :| 0 <= j < |s.list| && s.list[j] == t;
      assert r[if j < i then j else j - 1] == t;
    }
  }

  lemma DepartsTags(s: State, i: nat, s': State)
    requires i < |s.list| && s'.list == s.list[..i] + s.list[i + 1..]
    requires forall j, k :: 0 <= j < k < |s.list| ==> s.list[j].x.tag != s.list[k].x.tag
    ensures forall tag :: Listed(s', tag) <==> Listed(s, tag) && tag != s.list[i].x.tag
    ensures forall data :: ListedData(s', data) <==> DataShared(s.list, s.list[i], data)
  {
    Departs(s, i, s'.list);
    forall tag ensures Listed(s', tag) <==> Listed(s, tag) && tag != s.list[i].x.tag {
      if Listed(s, tag) && tag != s.list[i].x.tag {
        var j :| 0 <= j < |s.list| && s.list[j].x.tag == tag;
        assert s.list[j] in s'.list;
      }
      if Listed(s', tag) {
        var j :| 0 <= j < |s'.list| && s'.list[j].x.tag == tag;
        assert s'.list[j] in s.list;
      }
    }
    forall data ensures ListedData(s', data) <==> DataShared(s.list, s.list[i], data) {
      if DataShared(s.list, s.list[i], data) {
        var j :| 0 <= j < |s.list| && s.list[j].x.tag != s.list[i].x.tag && s.list[j].x.callback == Result(data);
        assert s.list[j] in s'.list;
      }
      if ListedData(s', data) {
        var j :| 0 <= j < |s'.list| && s'.list[j].x.callback == Result(data);
        assert s'.list[j] in s.list;
        var k :| 0 <= k < |s.list| && s.list[k] == s'.list[j];
        assert s.list[k].x.tag != s.list[i].x.tag && s.list[k].x.callback == Result(data);
      }
    }
  }

  lemma FinishKeeps(p: Params, s: State, issued: map<nat, Exchange>, tidy: bool, i: nat, reply: Option<Message>)
    requires Inv(p, s, issued, tidy) && i < |s.list| && (tidy ==> !GivesUp(reply))
    ensures Inv(p, Finish(s, s.list[i], reply), issued, tidy)
    ensures Finish(s, s.list[i], reply).list == s.list[..i] + s.list[i + 1..]
  {
    var t := s.list[i];
    var s' := Finish(s, t, reply);
    RemoveAt(s.list, Mid, i);
    GapKeepsOrder(s.list, Mid, i, s'.list);
    Departs(s, i, s'.list);
    DepartsTags(s, i, s');
    assert WellKept(p, s, issued, t);
    assert Listed(s, t.x.tag);
    FinishKeepsCounts(p, s, issued, tidy, i, reply);
    forall j | 0 <= j < |s'.list| ensures WellKept(p, s', issued, s'.list[j]) {
      var k :| 0 <= k < |s.list| && s.list[k] == s'.list[j];
      assert WellKept(p, s, issued, s.list[k]);
      FinishTally(s, t, reply, Sending, s'.list[j].x.tag);
    }
  }

  lemma FinishKeepsCounts(p: Params, s: State, issued: map<nat, Exchange>, tidy: bool, i: nat, reply: Option<Message>)
    requires Inv(p, s, issued, tidy) && i < |s.list| && (tidy ==> !GivesUp(reply))
    requires Finish(s, s.list[i], reply).list == s.list[..i] + s.list[i + 1..]
    ensures forall tag :: Balanced(p, Finish(s, s.list[i], reply), issued, tag)
    ensures forall data :: DataSafe(Finish(s, s.list[i], reply), issued, tidy, data)
  {
    var t := s.list[i];
    var s' := Finish(s, t, reply);
    DepartsTags(s, i, s');
    assert WellKept(p, s, issued, t);
    assert Listed(s, t.x.tag);
    forall tag ensures Balanced(p, s', issued, tag) {
      assert Balanced(p, s, issued, tag);
      FinishTally(s, t, reply, Freeing, tag);
      FinishTally(s, t, reply, Calling, tag);
      FinishTally(s, t, reply, Sending, tag);
    }
    forall data ensures DataSafe(s', issued, tidy, data) {
      assert DataSafe(s, issued, tidy, data);
      FinishTally(s, t, reply, Releasing, data);
      assert t.x.callback == Result(data) ==> ListedData(s, data) && KnownData(issued, data);
      if ListedData(s', data) { SharedIsListed(s, i, data); }
    }
  }

  lemma SharedIsListed(s: State, i: nat, data: nat)
    requires i < |s.list| && DataShared(s.list, s.list[i], data)
    ensures ListedData(s, data)
  {
  }

  // ----- A transaction enters -----------------------------------------------

  lemma QueuedAt(s: State, x: Exchange)
    ensures var i, q := AddAt(s.list, Mid, x.mID), Queued(s, x).list;
            && i < |q| && q[i] == New(x) && q[..i] + q[i + 1..] == s.list
            && forall t: Txn :: t.x == x ==> q[i := t] == Add(s.list, Mid, t)
  {
  }

  lemma EnterShape(p: Params, s: State, x: Exchange, now: int)
    requires Ordered(s) && !HasKey(s.list, Mid, x.mID)
    ensures var s' := SendAt(p, Queued(s, x), AddAt(s.list, Mid, x.mID), now);
            && Ordered(s')
            && (if x.encodable then
                  && s'.list == Add(s.list, Mid, Txn(x, false, 2, now + p.timeout))
                  && s'.log == s.log + [Sent(x.tag, now)]
                else s'.list == s.list && s'.log == s.log + [Freed(x.tag)])
  {
    QueuedAt(s, x);
    AddKeepsOrder(s.list, Mid, New(x));
    SendAtLength(p, Queued(s, x), AddAt(s.list, Mid, x.mID), now);
    assert Resent(p, New(x), now) == Txn(x, false, 2, now + p.timeout);
  }

  lemma EnterKeeps(p: Params, s: State, issued: map<nat, Exchange>, tidy: bool, x: Exchange, now: int)
    requires Inv(p, s, issued, tidy) && x.tag !in issued && !HasKey(s.list, Mid, x.mID)
    requires tidy ==> x.encodable
    requires x.callback.Result? && KnownData(issued, x.callback.data) ==> ListedData(s, x.callback.data)
    ensures Inv(p, SendAt(p, Queued(s, x), AddAt(s.list, Mid, x.mID), now), issued[x.tag := x], tidy)
  {
    EnterShape(p, s, x, now);
    EnteredKeeps(p, s, SendAt(p, Queued(s, x), AddAt(s.list, Mid, x.mID), now), issued, tidy, x,
                 if x.encodable then Sent(x.tag, now) else Freed(x.tag), now + p.timeout);
  }

  lemma EnteredKeeps(p: Params, s: State, s': State, issued: map<nat, Exchange>, tidy: bool, x: Exchange, e: Event, time: int)
    requires Inv(p, s, issued, tidy) && x.tag !in issued && Ordered(s')
    requires tidy ==> x.encodable
    requires x.callback.Result? && KnownData(issued, x.callback.data) ==> ListedData(s, x.callback.data)
    requires if x.encodable then e.Sent? && e.tag == x.tag else e == Freed(x.tag)
    requires s'.list == (if x.encodable then Add(s.list, Mid, Txn(x, false, 2, time)) else s.list)
    requires s'.log == s.log + [e]
    ensures Inv(p, s', issued[x.tag := x], tidy)
  {
    var t := Txn(x, false, 2, time);
    forall k, id ensures Tally(s'.log, k, id) == Tally(s.log, k, id) + if Is(e, k, id) then 1 else 0 {
      TallyPush(s.log, e, k, id);
    }
    EnterTags(s, s', t);
    EnterKeepsList(p, s, s', issued, tidy, t);
    EnterKeepsCounts(p, s, s', issued, tidy, issued[x.tag := x], x, e);
  }

  lemma EnterKeepsCounts(p: Params, s: State, s': State, issued: map<nat, Exchange>, tidy: bool, after: map<nat, Exchange>,
                         x: Exchange, e: Event)
    requires after == issued[x.tag := x]
    requires Inv(p, s, issued, tidy) && x.tag !in issued
    requires tidy ==> x.encodable
    requires x.callback.Result? && KnownData(issued, x.callback.data) ==> ListedData(s, x.callback.data)
    requires if x.encodable then e.Sent? && e.tag == x.tag else e == Freed(x.tag)
    requires forall k, id :: Tally(s'.log, k, id) == Tally(s.log, k, id) + if Is(e, k, id) then 1 else 0
    requires forall tag :: Listed(s', tag) <==> Listed(s, tag) || (x.encodable && tag == x.tag)
    requires forall data ::
      ListedData(s', data) <==> ListedData(s, data) || (x.encodable && x.callback == Result(data))
    ensures forall tag :: Balanced(p, s', after, tag)
    ensures forall data :: DataSafe(s', after, tidy, data)
  {
    NotListed(p, s, issued, tidy, x.tag);
    forall tag ensures Balanced(p, s', after, tag) {
      assert Balanced(p, s, issued, tag);
    }
    forall data ensures DataSafe(s', after, tidy, data) {
      assert DataSafe(s, issued, tidy, data);
      KnownAfter(issued, x, data);
    }
  }

  lemma KnownAfter(issued: map<nat, Exchange>, x: Exchange, data: nat)
    requires x.tag !in issued
    ensures KnownData(issued[x.tag := x], data) <==> KnownData(issued, data) || x.callback == Result(data)
  {
    var m := issued[x.tag := x];
    if KnownData(issued, data) {
      var tag :| tag in issued && issued[tag].callback == Result(data);
      assert tag in m && m[tag].callback == Result(data);
    }
    if x.callback == Result(data) {
      assert x.tag in m && m[x.tag].callback == Result(data);
    }
  }

  lemma NotListed(p: Params, s: State, issued: map<nat, Exchange>, tidy: bool, tag: nat)
    requires Inv(p, s, issued, tidy) && tag !in issued
    ensures !Listed(s, tag)
  {
    forall i | 0 <= i < |s.list| ensures s.list[i].x.tag != tag {
      assert WellKept(p, s, issued, s.list[i]);
    }
  }

  lemma EnterTags(s: State, s': State, t: Txn)
    requires s'.list == if t.x.encodable then Add(s.list, Mid, t) else s.list
    ensures forall tag :: Listed(s', tag) <==> Listed(s, tag) || (t.x.encodable && tag == t.x.tag)
    ensures forall data ::
      ListedData(s', data) <==> ListedData(s, data) || (t.x.encodable && t.x.callback == Result(data))
  {
    AddContents(s.list, Mid, t);
    assert forall u :: u in s'.list <==> u in s.list || (t.x.encodable && u == t);
    forall tag ensures Listed(s', tag) <==> Listed(s, tag) || (t.x.encodable && tag == t.x.tag) {
      ListedIn(s, tag);
      ListedIn(s', tag);
    }
    forall data
      ensures ListedData(s', data) <==> ListedData(s, data) || (t.x.encodable && t.x.callback == Result(data))
    {
      ListedDataIn(s, data);
      ListedDataIn(s', data);
    }
  }

  lemma ListedIn(s: State, tag: nat)
    ensures Listed(s, tag) <==> exists t :: t in s.list && t.x.tag == tag
  {
    if t :| t in s.list && t.x.tag == tag {
      var i :| 0 <= i < |s.list| && s.list[i] == t;
    }
  }

  lemma ListedDataIn(s: State, data: nat)
    ensures ListedData(s, data) <==> exists t :: t in s.list && t.x.callback == Result(data)
  {
    if t :| t in s.list && t.x.callback == Result(data) {
      var i :| 0 <= i < |s.list| && s.list[i] == t;
    }
  }

  lemma EnterKeepsList(p: Params, s: State, s': State, issued: map<nat, Exchange>, tidy: bool, t: Txn)
    requires Inv(p, s, issued, tidy) && t.x.tag !in issued && Ordered(s') && t.counter == 2
    requires s'.list == if t.x.encodable then Add(s.list, Mid, t) else s.list
    requires forall id :: Tally(s'.log, Sending, id) ==
                          Tally(s.log, Sending, id) + if t.x.encodable && id == t.x.tag then 1 else 0
    ensures WellListed(p, s', issued[t.x.tag := t.x])
  {
    forall j | 0 <= j < |s.list| ensures s.list[j].x.tag != t.x.tag {
      assert WellKept(p, s, issued, s.list[j]);
    }
    if t.x.encodable {
      EnterDistinct(s.list, AddAt(s.list, Mid, t.x.mID), t, s'.list);
    }
    forall j | 0 <= j < |s'.list| ensures WellKept(p, s', issued[t.x.tag := t.x], s'.list[j]) {
      EnterKept(p, s, s', issued, tidy, t, j);
    }
  }

  lemma EnterKept(p: Params, s: State, s': State, issued: map<nat, Exchange>, tidy: bool, t: Txn, j: nat)
    requires Inv(p, s, issued, tidy) && t.x.tag !in issued && t.counter == 2
    requires s'.list == (if t.x.encodable then Add(s.list, Mid, t) else s.list) && j < |s'.list|
    requires forall id :: Tally(s'.log, Sending, id) ==
                          Tally(s.log, Sending, id) + if t.x.encodable && id == t.x.tag then 1 else 0
    ensures WellKept(p, s', issued[t.x.tag := t.x], s'.list[j])
  {
    var n := if t.x.encodable then AddAt(s.list, Mid, t.x.mID) else |s.list|;
    if j == n {
      assert s'.list[j] == t;
      assert Balanced(p, s, issued, t.x.tag);
    } else {
      var u := s.list[if j < n then j else j - 1];
      assert s'.list[j] == u;
      assert WellKept(p, s, issued, u);
    }
  }

  lemma EnterDistinct(list: seq<Txn>, n: nat, t: Txn, r: seq<Txn>)
    requires n <= |list| && r == list[..n] + [t] + list[n..]
    requires forall j, k :: 0 <= j < k < |list| ==> list[j].x.tag != list[k].x.tag
    requires forall j :: 0 <= j < |list| ==> list[j].x.tag != t.x.tag
    ensures forall j, k :: 0 <= j < k < |r| ==> r[j].x.tag != r[k].x.tag
  {
    forall j, k | 0 <= j < k < |r| ensures r[j].x.tag != r[k].x.tag {
      assert r[j] == if j < n then list[j] else if j == n then t else list[j - 1];
      assert r[k] == if k < n then list[k] else if k == n then t else list[k - 1];
    }
  }

  // ----- Every input keeps it -----------------------------------------------

  lemma SendAtKeeps(p: Params, s: State, issued: map<nat, Exchange>, tidy: bool, i: nat, now: int)
    requires Inv(p, s, issued, tidy) && i < |s.list|
    ensures Inv(p, SendAt(p, s, i, now), issued, tidy)
  {
    var t := s.list[i];
    assert WellKept(p, s, issued, t);
    if GivenUp(p, t) {
      FinishKeeps(p, s, issued, tidy, i, None);
    } else {
      SentKeeps(p, s, issued, tidy, i, Resent(p, t, now), now);
    }
  }

  lemma {:induction false} StepKeeps(p: Params, s: State, issued: map<nat, Exchange>, tidy: bool, i: nat, now: int, timeout: int)
    requires Inv(p, s, issued, tidy)
    ensures Inv(p, StepFrom(p, s, i, now, timeout).0, issued, tidy)
    decreases |s.list| - i
  {
    if i < |s.list| {
      var t := s.list[i];
      if t.time > now {
        StepKeeps(p, s, issued, tidy, i + 1, now, Min(timeout, t.time - now));
      } else {
        SendAtLength(p, s, i, now);
        SendAtKeeps(p, s, issued, tidy, i, now);
        var s' := SendAt(p, s, i, now);
        if Leaves(p, t) {
          StepKeeps(p, s', issued, tidy, i, now, 1);
        } else {
          StepKeeps(p, s', issued, tidy, i + 1, now,
                    Min(timeout, if s'.list[i].time > now then s'.list[i].time - now else 1));
        }
      }
    }
  }

  lemma CompleteKeeps(p: Params, s: State, issued: map<nat, Exchange>, tidy: bool, i: nat, reset: bool, m: Message, hasResponse: bool)
    requires Inv(p, s, issued, tidy) && i < |s.list| && (tidy ==> !GivesUp(Some(m)))
    ensures Inv(p, Complete(p, s, i, reset, m, hasResponse), issued, tidy)
  {
    var u := s.list[i];
    var s1 := s;
    if !reset && m.kind == Con && hasResponse {
      AckKeeps(p, s, issued, tidy, m.mid);
      s1 := s.(log := s.log + [AckSent(m.mid)]);
    }
    if !reset && m.code == UNAUTHORIZED_4_01 && p.maxRetransmit > u.counter {
      TouchedKeeps(p, s1, issued, tidy, i, u.(acked := false, time := u.time + p.timeout));
    } else {
      FinishKeeps(p, s1, issued, tidy, i, Some(m));
    }
  }

  lemma ResponseKeeps(p: Params, s: State, issued: map<nat, Exchange>, tidy: bool, peer: nat, m: Message, hasResponse: bool, now: int)
    requires Inv(p, s, issued, tidy) && (tidy ==> !GivesUp(Some(m)))
    ensures Inv(p, HandleResponse(p, s, peer, m, hasResponse, now).0, issued, tidy)
  {
    var i := MatchIndex(s.list, peer, m);
    if i < |s.list| {
      var t := s.list[i];
      var u := Acknowledged(t, m);
      var s1 := s.(list := s.list[i := u]);
      TouchedKeeps(p, s, issued, tidy, i, u);
      if Resets(t, m) || CheckFinished(u, m) {
        CompleteKeeps(p, s1, issued, tidy, i, Resets(t, m), m, hasResponse);
      } else if Consumes(t, m) {
        var wait := if t.x.responseTimeout != 0 then t.x.responseTimeout else p.timeout * t.counter;
        TouchedKeeps(p, s1, issued, tidy, i, u.(time := now + wait));
      }
    }
  }

  // At shutdown the head is already unlinked when its callback looks for other
  // users of its data; that makes no difference.
  lemma HeadFirst(s: State, data: nat)
    requires s.list != []
    requires forall j, k :: 0 <= j < k < |s.list| ==> s.list[j].x.tag != s.list[k].x.tag
    ensures DataShared(s.list[1..], s.list[0], data) <==> DataShared(s.list, s.list[0], data)
  {
    if DataShared(s.list, s.list[0], data) {
      var j :| 0 <= j < |s.list| && s.list[j].x.tag != s.list[0].x.tag && s.list[j].x.callback == Result(data);
      assert s.list[1..][j - 1] == s.list[j];
    }
  }

  lemma {:induction false} CloseKeeps(p: Params, s: State, issued: map<nat, Exchange>, tidy: bool)
    requires Inv(p, s, issued, tidy)
    ensures Inv(p, Transactions.Close(s), issued, tidy) && Transactions.Close(s).list == []
    decreases |s.list|
  {
    if s.list != [] {
      var t := s.list[0];
      if t.x.callback.Result? { HeadFirst(s, t.x.callback.data); }
      FinishKeeps(p, s, issued, tidy, 0, None);
      var s' := Finish(s, t, None);
      assert s'.list == s.list[1..];
      CloseKeeps(p, s', issued, tidy);
    }
  }

  ghost predicate Tidy(a: Input) {
    match a
    case Submit(x, _) => x.encodable
    case Clone(_, x, _) => x.encodable
    case Receive(_, m, _, _) => !GivesUp(Some(m))
    case _ => true
  }

  lemma ApplyKeeps(p: Params, r: Run, tidy: bool, a: Input)
    requires Inv(p, r.s, r.issued, tidy) && Ready(r, a) && (tidy ==> Tidy(a))
    ensures Inv(p, Apply(p, r, a).s, Apply(p, r, a).issued, tidy)
  {
    match a
    case Submit(x, now) => EnterKeeps(p, r.s, r.issued, tidy, x, now);
    case Clone(of, x, now) =>
      if x.callback.Result? {
        var i :| 0 <= i < |r.s.list| && r.s.list[i].x.tag == of && r.s.list[i].x.callback == x.callback;
        assert ListedData(r.s, x.callback.data);
      }
      EnterKeeps(p, r.s, r.issued, tidy, x, now);
    case Tick(now) => StepKeeps(p, r.s, r.issued, tidy, 0, now, 0);
    case Receive(peer, m, hasResponse, now) => ResponseKeeps(p, r.s, r.issued, tidy, peer, m, hasResponse, now);
    case Shutdown => CloseKeeps(p, r.s, r.issued, tidy);
  }

  lemma {:induction false} InvAlways(p: Params, from: Run, tidy: bool, inputs: seq<Input>, to: Run)
    requires Inv(p, from.s, from.issued, tidy) && Reaches(p, from, inputs, to)
    requires tidy ==> forall a :: a in inputs ==> Tidy(a)
    ensures Inv(p, to.s, to.issued, tidy)
    decreases |inputs|
  {
    if inputs != [] {
      ApplyKeeps(p, from, tidy, inputs[0]);
      InvAlways(p, Apply(p, from, inputs[0]), tidy, inputs[1..], to);
    }
  }

  // ----- Exactly-once completion --------------------------------------------

  // Over every run from an empty context: the list is ordered, and every
  // transaction handed in is accounted for. While it is listed it has neither
  // been released nor called back; once it has left it was released once and,
  // if it has a callback and could be serialized, called back once. It was
  // sent at most N + 1 times.
  lemma ExactlyOnce(p: Params, inputs: seq<Input>, to: Run, tag: nat)
    requires Reaches(p, Empty, inputs, to) && tag in to.issued
    ensures Ordered(to.s)
    ensures Tally(to.s.log, Freeing, tag) == if Listed(to.s, tag) then 0 else 1
    ensures Tally(to.s.log, Calling, tag) ==
            if Listed(to.s, tag) || to.issued[tag].callback == NoCallback || !to.issued[tag].encodable then 0 else 1
    ensures Tally(to.s.log, Sending, tag) <= p.maxRetransmit + 1
  {
    InvAlways(p, Empty, false, inputs, to);
    assert Balanced(p, to.s, to.issued, tag);
  }

  // Shutting down completes whatever is left.
  lemma ShutdownCompletes(p: Params, inputs: seq<Input>, to: Run, tag: nat)
    requires Reaches(p, Empty, inputs, to) && tag in to.issued
    ensures Ordered(to.s)
    ensures var end := Apply(p, to, Shutdown);
            && end.s.list == []
            && Tally(end.s.log, Freeing, tag) == 1
            && (to.issued[tag].callback != NoCallback && to.issued[tag].encodable ==>
                  Tally(end.s.log, Calling, tag) == 1)
  {
    InvAlways(p, Empty, false, inputs, to);
    CloseKeeps(p, to.s, to.issued, false);
    var end := Apply(p, to, Shutdown);
    assert Balanced(p, end.s, end.issued, tag);
  }

  // The one-byte retry counter never wraps.
  lemma CounterFits(p: Params, inputs: seq<Input>, to: Run, i: nat)
    requires Fits(p) && Reaches(p, Empty, inputs, to) && i < |to.s.list|
    ensures 0 < to.s.list[i].counter < 0x100
  {
    InvAlways(p, Empty, false, inputs, to);
    assert WellKept(p, to.s, to.issued, to.s.list[i]);
  }

  // ----- User data shared between block transactions -----------------------

  // Over every run: the shared data is released at most once and never while
  // a listed transaction points to it. In a tidy run it is released exactly
  // once, when the last transaction pointing to it leaves.
  lemma SharedDataReleasedOnce(p: Params, inputs: seq<Input>, to: Run, data: nat)
    requires Reaches(p, Empty, inputs, to)
    ensures Tally(to.s.log, Releasing, data) <= 1
    ensures ListedData(to.s, data) ==> Tally(to.s.log, Releasing, data) == 0
    ensures KnownData(to.issued, data) && (forall a :: a in inputs ==> Tidy(a)) ==>
              Tally(to.s.log, Releasing, data) == if ListedData(to.s, data) then 0 else 1
  {
    InvAlways(p, Empty, false, inputs, to);
    assert DataSafe(to.s, to.issued, false, data);
    if forall a :: a in inputs ==> Tidy(a) {
      InvAlways(p, Empty, true, inputs, to);
      assert DataSafe(to.s, to.issued, true, data);
    }
  }

  // When the last user leaves, its data is released, unless that user is
  // completed by a 2.01 whose Location-Path is malformed: then it never is.
  lemma LastUserReleases(p: Params, s: State, issued: map<nat, Exchange>, i: nat, reply: Option<Message>, data: nat)
    requires Inv(p, s, issued, false) && i < |s.list| && s.list[i].x.callback == Result(data)
    requires !DataShared(s.list, s.list[i], data)
    ensures Tally(Finish(s, s.list[i], reply).log, Releasing, data) == if GivesUp(reply) then 0 else 1
  {
    assert ListedData(s, data);
    assert DataSafe(s, issued, false, data);
    FinishTally(s, s.list[i], reply, Releasing, data);
  }

  // ----- What a message does ------------------------------------------------

  // At most entry `i` differs: it left, or it stays with the same identity.
  ghost predicate OnlyEntry(before: seq<Txn>, after: seq<Txn>, i: nat)
    requires i < |before|
  {
    || after == before[..i] + before[i + 1..]
    || (|after| == |before| && after[i].x == before[i].x && after == before[i := after[i]])
  }

  lemma OnlyEntryTwice(before: seq<Txn>, u: Txn, after: seq<Txn>, i: nat)
    requires i < |before| && u.x == before[i].x && OnlyEntry(before[i := u], after, i)
    ensures OnlyEntry(before, after, i)
  {
    var mid := before[i := u];
    assert mid[..i] == before[..i] && mid[i + 1..] == before[i + 1..];
  }

  lemma CompleteFrame(p: Params, s: State, i: nat, reset: bool, m: Message, hasResponse: bool)
    requires Ordered(s) && i < |s.list|
    ensures OnlyEntry(s.list, Complete(p, s, i, reset, m, hasResponse).list, i)
  {
    RemoveAt(s.list, Mid, i);
  }

  // A received message leaves every entry but one exactly as it was, and that
  // one keeps its identity if it stays.
  lemma ResponseFrame(p: Params, s: State, peer: nat, m: Message, hasResponse: bool, now: int)
    requires Ordered(s)
    ensures var i := MatchIndex(s.list, peer, m);
            var l := HandleResponse(p, s, peer, m, hasResponse, now).0.list;
            if i == |s.list| then l == s.list else OnlyEntry(s.list, l, i)
  {
    var i := MatchIndex(s.list, peer, m);
    if i < |s.list| {
      var u := Acknowledged(s.list[i], m);
      var s1 := s.(list := s.list[i := u]);
      SameTags(s, s1, i);
      CompleteFrame(p, s1, i, Resets(s.list[i], m), m, hasResponse);
      OnlyEntryTwice(s.list, u, HandleResponse(p, s, peer, m, hasResponse, now).0.list, i);
    }
  }

  // An acknowledged exchange ends with the answer that carries its token, one
  // without a token with the acknowledgement, and any with a reset; a 4.01 ends
  // it when no retries are left.
  ghost predicate Completes(p: Params, t: Txn, peer: nat, m: Message) {
    && t.x.peer == peer && t.x.mID == m.mid
    && ((!t.acked && m.kind == Rst) ||
        (&& (if t.x.isResponse || t.x.token == [] then t.acked || m.kind == Ack else t.x.token == m.token)
         && !(m.code == UNAUTHORIZED_4_01 && p.maxRetransmit > t.counter)))
  }

  lemma UniqueMatch(s: State, i: nat, peer: nat, m: Message)
    requires Ordered(s) && i < |s.list| && Matches(s.list[i], peer, m)
    ensures MatchIndex(s.list, peer, m) == i
  {
    var k := MatchIndex(s.list, peer, m);
    assert k <= i;
  }

  // Exactly when a message completes a pending transaction.
  lemma CompletesIff(p: Params, s: State, issued: map<nat, Exchange>, i: nat,
                     peer: nat, m: Message, hasResponse: bool, now: int)
    requires Inv(p, s, issued, false) && i < |s.list|
    ensures !Listed(HandleResponse(p, s, peer, m, hasResponse, now).0, s.list[i].x.tag) <==>
            Completes(p, s.list[i], peer, m)
  {
    var t := s.list[i];
    var s' := HandleResponse(p, s, peer, m, hasResponse, now).0;
    if Matches(t, peer, m) {
      UniqueMatch(s, i, peer, m);
      MatchCompletesIff(p, s, issued, i, m, hasResponse, now);
    } else {
      ResponseFrame(p, s, peer, m, hasResponse, now);
      OthersListed(s.list, s'.list, MatchIndex(s.list, peer, m), i);
    }
  }

  lemma OthersListed(before: seq<Txn>, after: seq<Txn>, k: nat, i: nat)
    requires i < |before| && k <= |before| && k != i
    requires if k == |before| then after == before else OnlyEntry(before, after, k)
    ensures exists j :: 0 <= j < |after| && after[j].x.tag == before[i].x.tag
  {
    assert after[if |after| < |before| && k < i then i - 1 else i] == before[i];
  }

  lemma MatchCompletesIff(p: Params, s: State, issued: map<nat, Exchange>, i: nat,
                          m: Message, hasResponse: bool, now: int)
    requires Inv(p, s, issued, false) && i < |s.list| && s.list[i].x.mID == m.mid
    ensures !Listed(RespondAt(p, s, i, m, hasResponse, now).0, s.list[i].x.tag) <==>
            Completes(p, s.list[i], s.list[i].x.peer, m)
  {
    var t := s.list[i];
    var s' := RespondAt(p, s, i, m, hasResponse, now).0;
    var u := Acknowledged(t, m);
    var s1 := s.(list := s.list[i := u]);
    TouchedKeeps(p, s, issued, false, i, u);
    if Completes(p, t, t.x.peer, m) {
      var s2 := if !Resets(t, m) && m.kind == Con && hasResponse
                then s1.(log := s1.log + [AckSent(m.mid)]) else s1;
      AckKeeps(p, s1, issued, false, m.mid);
      FinishKeeps(p, s2, issued, false, i, Some(m));
      Departs(s2, i, s'.list);
    } else {
      assert |s'.list| == |s.list| && s'.list[i].x == t.x;
    }
  }

  // A separate response carries a message id of its own. It is passed over,
  // whatever its token: the state does not change.
  lemma ForeignMidIgnored(p: Params, s: State, peer: nat, m: Message, hasResponse: bool, now: int)
    requires forall i :: 0 <= i < |s.list| && s.list[i].x.peer == peer ==> s.list[i].x.mID != m.mid
    ensures HandleResponse(p, s, peer, m, hasResponse, now) == (s, false)
  {
    var i := MatchIndex(s.list, peer, m);
  }
}
