// The server's list of clients (wakaama/core/registration.c).
module Registry {
  import opened Common
  import opened Text
  import opened SortedList
  import opened LinkFormat
  import opened LinkParser

  // Registration, update, deregistration and expiry, and what becomes of the
  // observations of a client.

  // An observation of an object, or of an instance or more of it; MAX_ID
  // stands for an instance that is not set.
  datatype Observation = Observation(id: uint16, objectId: uint16, instanceId: uint16)

  datatype Client = Client(
    id: uint16, name: string, session: nat, lifetime: nat, endOfLife: int,
    objects: seq<Entry>, observations: seq<Observation>)

  // Calls of the monitoring callback, and of the callbacks of observations.
  datatype Event = Monitored(client: uint16, code: byte) | Dropped(client: uint16, observation: Observation)

  datatype State = State(clients: seq<Client>, log: seq<Event>)

  const ClientId: Client -> int := (c: Client) => c.id
  const ObservationId: Observation -> int := (o: Observation) => o.id

  const CREATED_2_01: byte := 0x41
  const DELETED_2_02: byte := 0x42
  const CHANGED_2_04: byte := 0x44
  const BAD_REQUEST_4_00: byte := 0x80
  const NOT_FOUND_4_04: byte := 0x84
  const PRECONDITION_FAILED_4_12: byte := 0x8C
  const DEFAULT_LIFETIME: nat := 86400

  datatype Version = NoVersion | Supported | Unsupported

  // A POST: its query, as far as it could be read, its content type and its
  // payload.
  datatype Post = Post(
    readable: bool, linkFormat: bool, name: Option<string>, version: Version, lifetime: nat, payload: string)

  // A payload that cannot be parsed leaves no objects.
  function Objects(payload: string): seq<Entry> {
    var d := Decode(payload);
    if d.Some? then d.value.objects else []
  }

  // prv_getClientByName
  function NameAt(clients: seq<Client>, name: string): (n: nat)
    ensures n <= |clients|
  {
    if clients == [] || clients[0].name == name then 0 else 1 + NameAt(clients[1..], name)
  }

  // ----- Register -----------------------------------------------------------

  function Admit(s: State, now: int, session: nat, name: string, lifetime: nat, objects: seq<Entry>): State {
    var n := NameAt(s.clients, name);
    if n < |s.clients| then
      var c := s.clients[n].(session := session, lifetime := lifetime, endOfLife := now + lifetime, objects := objects);
      State(s.clients[n := c], s.log + [Monitored(c.id, CREATED_2_01)])
    else
      var c := Client(NewId(s.clients, ClientId), name, session, lifetime, now + lifetime, objects, []);
      State(Add(s.clients, ClientId, c), s.log + [Monitored(c.id, CREATED_2_01)])
  }

  function LifetimeOf(p: Post): nat { if p.lifetime == 0 then DEFAULT_LIFETIME else p.lifetime }

  function Register(s: State, now: int, session: nat, p: Post): (State, byte) {
    var objects := Objects(p.payload);
    if p.version == NoVersion || p.name == None || objects == [] then (s, BAD_REQUEST_4_00)
    else if p.version == Unsupported then (s, PRECONDITION_FAILED_4_12)
    else (Admit(s, now, session, p.name.value, LifetimeOf(p), objects), CREATED_2_01)
  }

  // ----- Update -------------------------------------------------------------

  // Whether the new object list still has what is observed.
  predicate Present(o: Observation, objects: seq<Entry>) {
    var e := Find(objects, EntryId, o.objectId);
    e.Some? && (o.instanceId == MAX_ID || Find(e.value.instances, InstanceId, o.instanceId).Some?)
  }

  // The walk over the observations: every one that is gone is reported and
  // removed by its id.
  function DropGone(rest: seq<Observation>, list: seq<Observation>, objects: seq<Entry>, client: uint16, log: seq<Event>)
    : (seq<Observation>, seq<Event>)
    decreases rest
  {
    if rest == [] then (list, log)
    else if Present(rest[0], objects) then DropGone(rest[1..], list, objects, client, log)
    else DropGone(rest[1..], Remove(list, ObservationId, rest[0].id), objects, client,
                  log + [Dropped(client, rest[0])])
  }

  // The changes to a client; without objects its own ones stay.
  function Renewed(c: Client, now: int, session: nat, newLifetime: nat, objects: seq<Entry>, log: seq<Event>)
    : (Client, seq<Event>)
  {
    var lifetime := if newLifetime != 0 then newLifetime else c.lifetime;
    var (list, log') :=
      if objects != [] then DropGone(c.observations, c.observations, objects, c.id, log) else (c.observations, log);
    (c.(lifetime := lifetime, session := session, endOfLife := now + lifetime,
        objects := if objects != [] then objects else c.objects, observations := list), log')
  }

  function Refresh(s: State, n: nat, now: int, session: nat, newLifetime: nat, objects: seq<Entry>): State
    requires n < |s.clients|
  {
    var (c, log) := Renewed(s.clients[n], now, session, newLifetime, objects, s.log);
    State(s.clients[n := c], log + [Monitored(c.id, CHANGED_2_04)])
  }

  function Update(s: State, id: uint16, instanceSet: bool, now: int, session: nat, p: Post): (State, byte) {
    var n := Below(s.clients, ClientId, id);
    if instanceSet then (s, BAD_REQUEST_4_00)
    else if n >= |s.clients| || s.clients[n].id != id then (s, NOT_FOUND_4_04)
    else if p.name.Some? then (s, BAD_REQUEST_4_00)
    else (Refresh(s, n, now, session, p.lifetime, Objects(p.payload)), CHANGED_2_04)
  }

  // The POST branch of registration_handleRequest. `uri` is the client id in
  // the path, if there is one.
  function HandlePost(s: State, uri: Option<uint16>, instanceSet: bool, now: int, session: nat, p: Post): (State, byte) {
    if !p.readable || !p.linkFormat then (s, BAD_REQUEST_4_00)
    else if uri == None then Register(s, now, session, p)
    else Update(s, uri.value, instanceSet, now, session, p)
  }

  // ----- Deregister ---------------------------------------------------------

  function HandleDelete(s: State, uri: Option<uint16>, instanceSet: bool): (State, byte) {
    if uri == None || instanceSet || Find(s.clients, ClientId, uri.value) == None then (s, BAD_REQUEST_4_00)
    else (State(Remove(s.clients, ClientId, uri.value), s.log + [Monitored(uri.value, DELETED_2_02)]), DELETED_2_02)
  }

  // ----- Expiry -------------------------------------------------------------

  // registration_step from client i on
  function ExpireFrom(s: State, i: nat, now: int, timeout: int): (State, int)
    requires StrictlySorted(s.clients, ClientId)
    decreases |s.clients| - i
  {
    if i >= |s.clients| then (s, timeout)
    else
      var c := s.clients[i];
      if c.endOfLife > now then ExpireFrom(s, i + 1, now, Min(timeout, c.endOfLife - now))
      else
        RemoveTakesOne(s.clients, ClientId, i);
        ExpireFrom(State(Remove(s.clients, ClientId, c.id), s.log + [Monitored(c.id, DELETED_2_02)]), i, now, timeout)
  }

  // ----- Observations after an Update ---------------------------------------

  function Kept(list: seq<Observation>, objects: seq<Entry>): seq<Observation> {
    if list == [] then []
    else if Present(list[0], objects) then [list[0]] + Kept(list[1..], objects)
    else Kept(list[1..], objects)
  }

  function Reports(list: seq<Observation>, objects: seq<Entry>, client: uint16): seq<Event> {
    if list == [] then []
    else if Present(list[0], objects) then Reports(list[1..], objects, client)
    else [Dropped(client, list[0])] + Reports(list[1..], objects, client)
  }

  lemma {:induction false} DropGoneIs(
    rest: seq<Observation>, done: seq<Observation>, objects: seq<Entry>, client: uint16, log: seq<Event>)
    requires StrictlySorted(done + rest, ObservationId)
    ensures DropGone(rest, done + rest, objects, client, log) ==
            (done + Kept(rest, objects), log + Reports(rest, objects, client))
    decreases rest
  {
    if rest == [] {
      assert done + [] == done && log + [] == log;
      return;
    }
    var o, more := rest[0], rest[1..];
    Regroup(done, o, more);
    assert [o] + more == rest;
    if Present(o, objects) {
      DropGoneIs(more, done + [o], objects, client, log);
      Regroup(done, o, Kept(more, objects));
    } else {
      RemoveMiddle(done, o, more, ObservationId);
      DropGoneIs(more, done, objects, client, log + [Dropped(client, o)]);
      Regroup(log, Dropped(client, o), Reports(more, objects, client));
    }
  }

  // What is observed is in a list of objects.
  ghost predicate Mentioned(o: Observation, objects: seq<Entry>) {
    exists e :: e in objects && e.id == o.objectId && (o.instanceId == MAX_ID || o.instanceId in e.instances)
  }

  // On the lists that a payload decodes to, the two searches that stop early
  // find whatever is there.
  lemma PresentIff(o: Observation, objects: seq<Entry>)
    requires Proper(objects)
    ensures Present(o, objects) <==> Mentioned(o, objects)
  {
    FindIsMembership(objects, EntryId, o.objectId);
    var found := Find(objects, EntryId, o.objectId);
    if found.Some? {
      var e := found.value;
      assert e in objects && WellFormed(e);
      FindIsMembership(e.instances, InstanceId, o.instanceId);
    }
  }

  lemma ObjectsProper(payload: string)
    ensures Proper(Objects(payload))
  {
    DecodeProper(payload);
  }

  // After an Update with a list of objects the observations left are exactly
  // those the list mentions, in the order they had, and each other one is
  // reported once. Without a list all are left. No other client changes.
  lemma UpdateDropsGone(s: State, id: uint16, now: int, session: nat, p: Post)
    requires Find(s.clients, ClientId, id).Some? && p.name == None
    requires StrictlySorted(Find(s.clients, ClientId, id).value.observations, ObservationId)
    ensures var n := Below(s.clients, ClientId, id); var c := s.clients[n]; var objects := Objects(p.payload);
            var (end, code) := Update(s, id, false, now, session, p);
            && code == CHANGED_2_04 && |end.clients| == |s.clients|
            && StrictlySorted(end.clients[n].observations, ObservationId)
            && (forall o :: o in end.clients[n].observations <==>
                            o in c.observations && (objects == [] || Mentioned(o, objects)))
            && end.clients[n].objects == (if objects == [] then c.objects else objects)
            && (var reports := if objects == [] then [] else Reports(c.observations, objects, id);
                && end.log == s.log + reports + [Monitored(id, CHANGED_2_04)]
                && forall o :: multiset(reports)[Dropped(id, o)] ==
                               if objects != [] && o in c.observations && !Mentioned(o, objects) then 1 else 0)
            && forall j :: 0 <= j < |s.clients| && j != n ==> end.clients[j] == s.clients[j]
  {
    var objects := Objects(p.payload);
    var c := s.clients[Below(s.clients, ClientId, id)];
    var end := Update(s, id, false, now, session, p).0;
    if objects == [] {
      assert end.log == s.log + [] + [Monitored(id, CHANGED_2_04)];
      return;
    }
    RefreshDrops(c, objects, s.log);
    ObjectsProper(p.payload);
    KeptIs(c.observations, objects);
    var reports := Reports(c.observations, objects, id);
    assert end.log == s.log + reports + [Monitored(id, CHANGED_2_04)];
    forall o
      ensures multiset(reports)[Dropped(id, o)] == if o in c.observations && !Mentioned(o, objects) then 1 else 0
    {
      ReportsAre(c.observations, objects, id, o);
    }
  }

  lemma RefreshDrops(c: Client, objects: seq<Entry>, log: seq<Event>)
    requires StrictlySorted(c.observations, ObservationId)
    ensures DropGone(c.observations, c.observations, objects, c.id, log) ==
            (Kept(c.observations, objects), log + Reports(c.observations, objects, c.id))
  {
    assert [] + c.observations == c.observations;
    DropGoneIs(c.observations, [], objects, c.id, log);
    assert [] + Kept(c.observations, objects) == Kept(c.observations, objects);
  }

  // Each observation that is gone is reported once, and no other one.
  lemma {:induction false} ReportsAre(list: seq<Observation>, objects: seq<Entry>, client: uint16, o: Observation)
    requires StrictlySorted(list, ObservationId) && Proper(objects)
    ensures multiset(Reports(list, objects, client))[Dropped(client, o)] ==
            if o in list && !Mentioned(o, objects) then 1 else 0
  {
    if list != [] {
      var first, rest := list[0], list[1..];
      TailSorted(list);
      ReportsAre(rest, objects, client, o);
      PresentIff(first, objects);
      assert list == [first] + rest;
      assert o == first ==> o !in rest;
    }
  }

  lemma TailSorted(list: seq<Observation>)
    requires StrictlySorted(list, ObservationId) && list != []
    ensures StrictlySorted(list[1..], ObservationId)
    ensures forall o :: o in list[1..] ==> ObservationId(list[0]) < ObservationId(o)
  {
    var rest := list[1..];
    assert forall i :: 0 <= i < |rest| ==> rest[i] == list[i + 1];
  }

  lemma {:induction false} KeptSorted(list: seq<Observation>, objects: seq<Entry>)
    requires StrictlySorted(list, ObservationId)
    ensures StrictlySorted(Kept(list, objects), ObservationId)
    ensures forall o :: o in Kept(list, objects) <==> o in list && Present(o, objects)
  {
    if list != [] {
      TailSorted(list);
      KeptSorted(list[1..], objects);
      var r, rest := Kept(list, objects), Kept(list[1..], objects);
      forall i, j | 0 <= i < j < |r| ensures ObservationId(r[i]) < ObservationId(r[j]) {
        if Present(list[0], objects) && i == 0 { assert r[j] == rest[j - 1] && rest[j - 1] in rest; }
      }
      assert list == [list[0]] + list[1..];
    }
  }

  // An observation is kept exactly when its object, and its instance if that
  // is set, is in the new list.
  lemma KeptIs(list: seq<Observation>, objects: seq<Entry>)
    requires StrictlySorted(list, ObservationId) && Proper(objects)
    ensures StrictlySorted(Kept(list, objects), ObservationId)
    ensures forall o :: o in Kept(list, objects) <==> o in list && Mentioned(o, objects)
  {
    KeptSorted(list, objects);
    forall o | o in list ensures Present(o, objects) <==> Mentioned(o, objects) { PresentIff(o, objects); }
  }

  // ----- What the payload decides -------------------------------------------

  // A payload is heeded when all its items can be read, the root is described
  // once at most, and some item is a link.
  ghost predicate Heeded(payload: string) { Readable(ItemsRead(payload)) && HasLink(ItemsRead(payload)) }

  lemma HeededIff(payload: string)
    ensures Heeded(payload) <==> Objects(payload) != []
  {
    DecodesIff(payload);
  }

  // A Register without such a payload is refused; everything else that is
  // asked of it is in the query.
  lemma RegisteredIff(s: State, now: int, session: nat, p: Post)
    ensures var code := HandlePost(s, None, false, now, session, p).1;
            && (code == CREATED_2_01 <==>
                  p.readable && p.linkFormat && p.version == Supported && p.name.Some? && Heeded(p.payload))
            && (code != CREATED_2_01 ==> HandlePost(s, None, false, now, session, p).0 == s)
  {
    HeededIff(p.payload);
  }

  // An Update is accepted whatever its payload is, exactly when its query can
  // be read, names no client, and the path is the one of a client.
  lemma UpdatedIff(s: State, id: uint16, instanceSet: bool, now: int, session: nat, p: Post)
    requires StrictlySorted(s.clients, ClientId)
    ensures var (end, code) := HandlePost(s, Some(id), instanceSet, now, session, p);
            && (code == CHANGED_2_04 <==>
                  p.readable && p.linkFormat && !instanceSet && p.name == None && HasKey(s.clients, ClientId, id))
            && (code != CHANGED_2_04 ==> end == s)
  {
    FindIsMembership(s.clients, ClientId, id);
  }

  // Its objects take the place of the old ones exactly when the payload is
  // heeded. If not, the Update does what one without a payload does.
  lemma ObjectsReplacedIff(s: State, id: uint16, now: int, session: nat, p: Post)
    requires StrictlySorted(s.clients, ClientId) && HasKey(s.clients, ClientId, id)
    requires p.readable && p.linkFormat && p.name == None
    ensures var n := Below(s.clients, ClientId, id); var c := s.clients[n];
            var end := HandlePost(s, Some(id), false, now, session, p).0;
            && |end.clients| == |s.clients|
            && end.clients[n].objects == (if Heeded(p.payload) then Objects(p.payload) else c.objects)
            && (!Heeded(p.payload) ==>
                  end.clients[n].observations == c.observations &&
                  end == HandlePost(s, Some(id), false, now, session, p.(payload := "")).0)
  {
    FindIsMembership(s.clients, ClientId, id);
    HeededIff(p.payload);
    if !Heeded(p.payload) { NoItems(); }
  }

  lemma NoItems()
    ensures Objects("") == []
  {
    assert Items("", 0) == [];
  }

  // The one item of this payload is neither a link nor the root: it is refused in a Register, and in an
  // Update to the same client it is answered 2.04, with objects and
  // observations as they were.
  lemma MalformedUpdateAccepted(s: State, id: uint16, now: int, session: nat, p: Post)
    requires StrictlySorted(s.clients, ClientId) && HasKey(s.clients, ClientId, id)
    requires p.readable && p.linkFormat && p.name == None && p.payload == "x"
    ensures Decode(p.payload) == None && !Heeded(p.payload)
    ensures HandlePost(s, None, false, now, session, p.(name := Some(""), version := Supported)) ==
            (s, BAD_REQUEST_4_00)
    ensures var n := Below(s.clients, ClientId, id);
            var (end, code) := HandlePost(s, Some(id), false, now, session, p);
            && code == CHANGED_2_04 && |end.clients| == |s.clients|
            && end.clients[n].objects == s.clients[n].objects
            && end.clients[n].observations == s.clients[n].observations
  {
    NotALink();
    HeededIff(p.payload);
    UpdatedIff(s, id, false, now, session, p);
    ObjectsReplacedIff(s, id, now, session, p);
  }

  lemma NotALink()
    ensures Decode("x") == None
  {
    var p := "x";
    assert ScanTo(p, 0, ',') == 1 && SkipSpaces(p, 0) == 0;
    assert ItemText(p, 0, 1) == p && Items(p, 2) == [];
    assert Items(p, 0) == [p];
    assert Trim(p) == p;
    assert ReadItem(p) == IsNothing;
    assert Map(ReadItem, [p]) == [IsNothing];
  }

  // ----- Expiry -------------------------------------------------------------

  function Alive(clients: seq<Client>, now: int): seq<Client> {
    if clients == [] then []
    else if clients[0].endOfLife > now then [clients[0]] + Alive(clients[1..], now)
    else Alive(clients[1..], now)
  }

  function Expiries(clients: seq<Client>, now: int): seq<Event> {
    if clients == [] then []
    else if clients[0].endOfLife > now then Expiries(clients[1..], now)
    else [Monitored(clients[0].id, DELETED_2_02)] + Expiries(clients[1..], now)
  }

  lemma {:induction false} ExpireFromIs(done: seq<Client>, rest: seq<Client>, log: seq<Event>, now: int, timeout: int)
    requires StrictlySorted(done + rest, ClientId)
    ensures var (end, t) := ExpireFrom(State(done + rest, log), |done|, now, timeout);
            && end == State(done + Alive(rest, now), log + Expiries(rest, now)) && t <= timeout
            && forall c :: c in Alive(rest, now) ==> t <= c.endOfLife - now
    decreases rest
  {
    if rest == [] {
      assert done + [] == done && log + [] == log;
      return;
    }
    var c, more := rest[0], rest[1..];
    Regroup(done, c, more);
    assert [c] + more == rest && (done + rest)[|done|] == c;
    if c.endOfLife > now {
      ExpireFromIs(done + [c], more, log, now, Min(timeout, c.endOfLife - now));
      Regroup(done, c, Alive(more, now));
    } else {
      var e := Monitored(c.id, DELETED_2_02);
      RemoveMiddle(done, c, more, ClientId);
      ExpireFromIs(done, more, log + [e], now, timeout);
      Regroup(log, e, Expiries(more, now));
    }
  }

  lemma {:induction false} AliveIs(clients: seq<Client>, now: int)
    ensures forall c :: c in Alive(clients, now) <==> c in clients && c.endOfLife > now
  {
    if clients != [] {
      AliveIs(clients[1..], now);
      assert clients == [clients[0]] + clients[1..];
    }
  }

  // A step removes exactly the clients whose life has ended, reports each of
  // them, and asks to be called again no later than the next end.
  lemma StepExpires(s: State, now: int, timeout: int)
    requires StrictlySorted(s.clients, ClientId)
    ensures var (end, t) := ExpireFrom(s, 0, now, timeout);
            && end.clients == Alive(s.clients, now) && end.log == s.log + Expiries(s.clients, now)
            && t <= timeout && forall c :: c in end.clients ==> c.endOfLife > now && t <= c.endOfLife - now
  {
    assert [] + s.clients == s.clients && [] + Alive(s.clients, now) == Alive(s.clients, now);
    ExpireFromIs([], s.clients, s.log, now, timeout);
    AliveIs(s.clients, now);
  }

  // ----- The whole registry -------------------------------------------------

  ghost predicate Distinct(clients: seq<Client>) {
    forall i, j :: 0 <= i < j < |clients| ==> clients[i].name != clients[j].name
  }

  // Ids sorted and usable in a path, names distinct.
  ghost predicate Inv(clients: seq<Client>) {
    && StrictlySorted(clients, ClientId) && Distinct(clients)
    && forall c :: c in clients ==> c.id < MAX_ID && StrictlySorted(c.observations, ObservationId)
  }

  lemma {:induction false} NameAtIs(clients: seq<Client>, name: string)
    ensures var n := NameAt(clients, name);
            && (forall i :: 0 <= i < n ==> clients[i].name != name)
            && (n < |clients| ==> clients[n].name == name)
  {
    if clients != [] && clients[0].name != name {
      NameAtIs(clients[1..], name);
      var n := NameAt(clients, name);
      forall i | 0 <= i < n ensures clients[i].name != name {
        if i > 0 { assert clients[i] == clients[1..][i - 1]; }
      }
      if n < |clients| { assert clients[n] == clients[1..][n - 1]; }
    }
  }

  // Replacing a client by one with the same id and name keeps the invariant.
  lemma ReplaceKeeps(clients: seq<Client>, n: nat, c: Client)
    requires Inv(clients) && n < |clients| && c.id == clients[n].id && c.name == clients[n].name
    requires StrictlySorted(c.observations, ObservationId)
    ensures Inv(clients[n := c])
  {
    var r := clients[n := c];
    forall i, j | 0 <= i < j < |r| ensures ClientId(r[i]) < ClientId(r[j]) && r[i].name != r[j].name {
      assert ClientId(clients[i]) < ClientId(clients[j]);
    }
    forall x | x in r ensures x.id < MAX_ID && StrictlySorted(x.observations, ObservationId) {
      var k :| 0 <= k < |r| && r[k] == x;
      assert clients[k] in clients;
    }
  }

  // The ids of strictly sorted clients are at least as many as the positions.
  lemma {:induction false} PositionBelowId(clients: seq<Client>, i: nat)
    requires StrictlySorted(clients, ClientId) && i < |clients|
    ensures i <= clients[i].id
  {
    if i > 0 {
      PositionBelowId(clients, i - 1);
      assert ClientId(clients[i - 1]) < ClientId(clients[i]);
    }
  }

  lemma {:induction false} NewIdWithin(clients: seq<Client>, id: uint16)
    requires id + |clients| < 0x1_0000
    ensures NewIdFrom(clients, ClientId, id) <= id + |clients|
  {
    if clients != [] && ClientId(clients[0]) == id { NewIdWithin(clients[1..], (id + 1) % 0x1_0000); }
  }

  // A new id can be used in a path exactly while fewer than 65535 clients are
  // registered; it is the smallest one free then.
  lemma NewIdUsableIff(clients: seq<Client>)
    requires Inv(clients)
    ensures var id := NewId(clients, ClientId);
            && (id < MAX_ID <==> |clients| < MAX_ID as int)
            && (id < MAX_ID ==> !HasKey(clients, ClientId, id) &&
                                forall j: uint16 :: j < id ==> HasKey(clients, ClientId, j))
  {
    var n := |clients|;
    if n > 0 {
      PositionBelowId(clients, n - 1);
      assert clients[n - 1] in clients;
    }
    NewIdWithin(clients, 0);
    if n < MAX_ID as int {
      NewIdIsSmallestFree(clients, ClientId);
    } else {
      RoomAbove(clients, 0);
      forall j | 0 <= j < n ensures ClientId(clients[j]) == j { IdIsPosition(clients, j); }
      AllTaken(clients, 0);
      assert clients[0..] == clients;
    }
  }

  // A full registry: every id stands at its position.
  lemma IdIsPosition(clients: seq<Client>, i: nat)
    requires Inv(clients) && |clients| == MAX_ID as int && i < |clients|
    ensures clients[i].id == i
  {
    PositionBelowId(clients, i);
    RoomAbove(clients, i);
  }

  lemma {:induction false} AllTaken(clients: seq<Client>, i: nat)
    requires |clients| == MAX_ID as int && i <= |clients|
    requires forall j :: 0 <= j < |clients| ==> ClientId(clients[j]) == j
    ensures NewIdFrom(clients[i..], ClientId, i) == MAX_ID
    decreases |clients| - i
  {
    if i < |clients| {
      assert clients[i..][0] == clients[i] && clients[i..][1..] == clients[i + 1..];
      AllTaken(clients, i + 1);
    }
  }

  lemma {:induction false} RoomAbove(clients: seq<Client>, i: nat)
    requires Inv(clients) && i < |clients|
    ensures clients[i].id + (|clients| - 1 - i) < MAX_ID as int
    decreases |clients| - i
  {
    assert clients[i] in clients;
    if i + 1 < |clients| {
      RoomAbove(clients, i + 1);
      assert ClientId(clients[i]) < ClientId(clients[i + 1]);
    }
  }

  lemma NewcomerKeeps(clients: seq<Client>, c: Client)
    requires Inv(clients) && NotNamed(clients, c.name) && !HasKey(clients, ClientId, c.id)
    requires c.id < MAX_ID && c.observations == []
    ensures Inv(Add(clients, ClientId, c))
  {
    AddKeepsOrder(clients, ClientId, c);
    AddContents(clients, ClientId, c);
    AddDistinct(clients, c);
  }

  lemma AdmitKeeps(s: State, now: int, session: nat, name: string, lifetime: nat, objects: seq<Entry>)
    requires Inv(s.clients) && (NameAt(s.clients, name) == |s.clients| ==> |s.clients| < MAX_ID as int)
    ensures Inv(Admit(s, now, session, name, lifetime, objects).clients)
  {
    var n := NameAt(s.clients, name);
    NameAtIs(s.clients, name);
    if n < |s.clients| {
      var c := s.clients[n];
      assert c in s.clients;
      ReplaceKeeps(s.clients, n, c.(session := session, lifetime := lifetime, endOfLife := now + lifetime,
                                    objects := objects));
    } else {
      NewIdUsableIff(s.clients);
      NewcomerKeeps(s.clients,
                    Client(NewId(s.clients, ClientId), name, session, lifetime, now + lifetime, objects, []));
    }
  }

  ghost predicate NotNamed(clients: seq<Client>, name: string) {
    forall i :: 0 <= i < |clients| ==> clients[i].name != name
  }

  lemma AddDistinct(clients: seq<Client>, c: Client)
    requires Distinct(clients) && NotNamed(clients, c.name)
    ensures Distinct(Add(clients, ClientId, c))
  {
    var n, r := AddAt(clients, ClientId, c.id), Add(clients, ClientId, c);
    forall i, j | 0 <= i < j < |r| ensures r[i].name != r[j].name {
      assert i < n ==> r[i] == clients[i];
      assert j > n ==> r[j] == clients[j - 1];
      if j < n { assert r[j] == clients[j]; } else if i > n { assert r[i] == clients[i - 1]; }
    }
  }

  lemma RefreshKeeps(s: State, n: nat, now: int, session: nat, lifetime: nat, objects: seq<Entry>)
    requires Inv(s.clients) && n < |s.clients|
    ensures Inv(Refresh(s, n, now, session, lifetime, objects).clients)
  {
    var c := s.clients[n];
    assert c in s.clients;
    var end := Refresh(s, n, now, session, lifetime, objects).clients[n];
    if objects != [] {
      RefreshDrops(c, objects, s.log);
      KeptSorted(c.observations, objects);
    }
    ReplaceKeeps(s.clients, n, end);
  }

  lemma GapKeeps(clients: seq<Client>, n: nat)
    requires Inv(clients) && n < |clients|
    ensures Inv(clients[..n] + clients[n + 1..])
  {
    var r := clients[..n] + clients[n + 1..];
    forall i, j | 0 <= i < j < |r| ensures ClientId(r[i]) < ClientId(r[j]) && r[i].name != r[j].name {
      var i', j' := if i < n then i else i + 1, if j < n then j else j + 1;
      assert r[i] == clients[i'] && r[j] == clients[j'] && ClientId(clients[i']) < ClientId(clients[j']);
    }
  }

  lemma IdsDiffer(clients: seq<Client>, j: nat, k: nat)
    requires StrictlySorted(clients, ClientId) && j < |clients| && k < |clients| && j != k
    ensures clients[j].id != clients[k].id
  {
    var a, b := if j < k then j else k, if j < k then k else j;
    assert ClientId(clients[a]) < ClientId(clients[b]);
  }

  lemma HeadDiffers(clients: seq<Client>)
    requires Inv(clients) && clients != []
    ensures Inv(clients[1..])
    ensures forall x :: x in clients[1..] ==> clients[0].id < x.id && clients[0].name != x.name
  {
    GapKeeps(clients, 0);
    assert clients[..0] + clients[1..] == clients[1..];
    forall x | x in clients[1..] ensures clients[0].id < x.id && clients[0].name != x.name {
      var k :| 0 <= k < |clients| - 1 && clients[1..][k] == x;
      assert clients[k + 1] == x && ClientId(clients[0]) < ClientId(clients[k + 1]);
    }
  }

  lemma ConsKeeps(c: Client, a: seq<Client>)
    requires Inv(a) && forall x :: x in a ==> c.id < x.id && c.name != x.name
    requires c.id < MAX_ID && StrictlySorted(c.observations, ObservationId)
    ensures Inv([c] + a)
  {
    var r := [c] + a;
    forall i, j | 0 <= i < j < |r| ensures ClientId(r[i]) < ClientId(r[j]) && r[i].name != r[j].name {
      if i == 0 { assert r[j] == a[j - 1] && a[j - 1] in a; } else {
        assert ClientId(a[i - 1]) < ClientId(a[j - 1]);
      }
    }
  }

  lemma {:induction false} AliveKeeps(clients: seq<Client>, now: int)
    requires Inv(clients)
    ensures Inv(Alive(clients, now))
  {
    if clients != [] {
      HeadDiffers(clients);
      AliveKeeps(clients[1..], now);
      AliveIs(clients[1..], now);
      if clients[0].endOfLife > now {
        assert clients[0] in clients;
        ConsKeeps(clients[0], Alive(clients[1..], now));
      }
    }
  }

  datatype Act =
    | Posted(uri: Option<uint16>, instanceSet: bool, now: int, session: nat, post: Post)
    | Deleted(uri: Option<uint16>, instanceSet: bool)
    | Stepped(now: int, timeout: int)

  function Step(s: State, a: Act): State
    requires StrictlySorted(s.clients, ClientId)
  {
    match a
    case Posted(uri, instanceSet, now, session, post) => HandlePost(s, uri, instanceSet, now, session, post).0
    case Deleted(uri, instanceSet) => HandleDelete(s, uri, instanceSet).0
    case Stepped(now, timeout) => ExpireFrom(s, 0, now, timeout).0
  }

  // A client with a new name registers while an id is left for it.
  ghost predicate Fits(clients: seq<Client>, uri: Option<uint16>, p: Post) {
    uri == None && p.name.Some? && NameAt(clients, p.name.value) == |clients| ==> |clients| < MAX_ID as int
  }

  ghost predicate Reaches(s: State, acts: seq<Act>, end: State)
    decreases |acts|
  {
    if acts == [] then end == s
    else
      && (acts[0].Posted? ==> Fits(s.clients, acts[0].uri, acts[0].post))
      && StrictlySorted(s.clients, ClientId) && Reaches(Step(s, acts[0]), acts[1..], end)
  }

  lemma PostKeeps(s: State, uri: Option<uint16>, instanceSet: bool, now: int, session: nat, p: Post)
    requires Inv(s.clients) && Fits(s.clients, uri, p)
    ensures Inv(HandlePost(s, uri, instanceSet, now, session, p).0.clients)
  {
    if uri == None {
      if p.name.Some? {
        AdmitKeeps(s, now, session, p.name.value, LifetimeOf(p), Objects(p.payload));
      }
    } else {
      var n := Below(s.clients, ClientId, uri.value);
      if n < |s.clients| { RefreshKeeps(s, n, now, session, p.lifetime, Objects(p.payload)); }
    }
  }

  lemma DeleteKeeps(s: State, uri: Option<uint16>, instanceSet: bool)
    requires Inv(s.clients)
    ensures Inv(HandleDelete(s, uri, instanceSet).0.clients)
  {
    if uri.Some? {
      var n := Below(s.clients, ClientId, uri.value);
      if n < |s.clients| { GapKeeps(s.clients, n); }
    }
  }

  lemma StepKeeps(s: State, a: Act)
    requires Inv(s.clients) && (a.Posted? ==> Fits(s.clients, a.uri, a.post))
    ensures Inv(Step(s, a).clients)
  {
    match a
    case Posted(uri, instanceSet, now, session, p) => PostKeeps(s, uri, instanceSet, now, session, p);
    case Deleted(uri, instanceSet) => DeleteKeeps(s, uri, instanceSet);
    case Stepped(now, timeout) =>
      StepExpires(s, now, timeout);
      AliveKeeps(s.clients, now);
  }

  // Over every run ids stay sorted, distinct and usable, and no name is
  // registered twice.
  lemma {:induction false} RegistryAlways(s: State, acts: seq<Act>, end: State)
    requires Inv(s.clients) && Reaches(s, acts, end)
    ensures Inv(end.clients)
    decreases |acts|
  {
    if acts != [] {
      StepKeeps(s, acts[0]);
      RegistryAlways(Step(s, acts[0]), acts[1..], end);
    }
  }

  ghost predicate Registered(clients: seq<Client>, id: uint16, name: string) {
    exists c :: c in clients && c.id == id && c.name == name
  }

  // What makes a client leave: its own deregistration, or a step at or after
  // the end of its life.
  predicate Ends(c: Client, a: Act) {
    match a
    case Posted(_, _, _, _, _) => false
    case Deleted(uri, instanceSet) => uri == Some(c.id) && !instanceSet
    case Stepped(now, _) => c.endOfLife <= now
  }

  lemma AdmitKeepsClient(s: State, now: int, session: nat, name: string, lifetime: nat, objects: seq<Entry>, k: nat)
    requires k < |s.clients|
    ensures Registered(Admit(s, now, session, name, lifetime, objects).clients, s.clients[k].id, s.clients[k].name)
  {
    var c := s.clients[k];
    var end := Admit(s, now, session, name, lifetime, objects).clients;
    if NameAt(s.clients, name) < |s.clients| {
      assert end[k].id == c.id && end[k].name == c.name && end[k] in end;
    } else {
      AddContents(s.clients, ClientId,
                  Client(NewId(s.clients, ClientId), name, session, lifetime, now + lifetime, objects, []));
      assert c in end;
    }
  }

  lemma PostKeepsClient(s: State, a: Act, k: nat)
    requires StrictlySorted(s.clients, ClientId) && k < |s.clients| && a.Posted?
    ensures Registered(Step(s, a).clients, s.clients[k].id, s.clients[k].name)
  {
    var c, p := s.clients[k], a.post;
    var end := Step(s, a).clients;
    if a.uri == None && p.name.Some? && end != s.clients {
      AdmitKeepsClient(s, a.now, a.session, p.name.value, LifetimeOf(p), Objects(p.payload), k);
    } else {
      assert |end| == |s.clients| && end[k].id == c.id && end[k].name == c.name && end[k] in end;
    }
  }

  lemma DeleteLeavesIff(s: State, uri: Option<uint16>, instanceSet: bool, k: nat)
    requires Inv(s.clients) && k < |s.clients|
    ensures Registered(HandleDelete(s, uri, instanceSet).0.clients, s.clients[k].id, s.clients[k].name) <==>
            !(uri == Some(s.clients[k].id) && !instanceSet)
  {
    var c := s.clients[k];
    assert c in s.clients;
    if uri.Some? && !instanceSet {
      var n := Below(s.clients, ClientId, uri.value);
      if n < |s.clients| && s.clients[n].id == uri.value {
        OthersStay(s.clients, n, k);
        if n != k { IdsDiffer(s.clients, n, k); }
      } else {
        NotThere(s.clients, uri.value);
      }
    }
  }

  lemma StepLeavesIff(s: State, now: int, timeout: int, k: nat)
    requires Inv(s.clients) && k < |s.clients|
    ensures Registered(ExpireFrom(s, 0, now, timeout).0.clients, s.clients[k].id, s.clients[k].name) <==>
            s.clients[k].endOfLife > now
  {
    var c := s.clients[k];
    assert c in s.clients;
    StepExpires(s, now, timeout);
    AliveIs(s.clients, now);
    forall x | x in s.clients && x != c ensures x.id != c.id {
      var j :| 0 <= j < |s.clients| && s.clients[j] == x;
      IdsDiffer(s.clients, j, k);
    }
  }

  // A client keeps its id and name until exactly such an event.
  lemma LeavesIff(s: State, a: Act, c: Client)
    requires Inv(s.clients) && c in s.clients
    ensures Registered(Step(s, a).clients, c.id, c.name) <==> !Ends(c, a)
  {
    var k :| 0 <= k < |s.clients| && s.clients[k] == c;
    match a
    case Posted(_, _, _, _, _) => PostKeepsClient(s, a, k);
    case Deleted(uri, instanceSet) => DeleteLeavesIff(s, uri, instanceSet, k);
    case Stepped(now, timeout) => StepLeavesIff(s, now, timeout, k);
  }

  lemma NotThere(clients: seq<Client>, id: uint16)
    requires StrictlySorted(clients, ClientId) && Find(clients, ClientId, id) == None
    ensures forall c :: c in clients ==> c.id != id
  {
    FindIsMembership(clients, ClientId, id);
  }

  lemma OthersStay(clients: seq<Client>, n: nat, k: nat)
    requires Inv(clients) && n < |clients| && k < |clients|
    ensures Registered(clients[..n] + clients[n + 1..], clients[k].id, clients[k].name) <==> k != n
  {
    var r := clients[..n] + clients[n + 1..];
    if k != n {
      var i := if k < n then k else k - 1;
      assert r[i] == clients[k] && r[i] in r;
    } else {
      forall c | c in r ensures c.id != clients[k].id {
        var i :| 0 <= i < |r| && r[i] == c;
        var j := if i < n then i else i + 1;
        assert clients[j] == c;
        IdsDiffer(clients, j, k);
      }
    }
  }
}
