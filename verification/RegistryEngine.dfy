// The registry as written: client objects updated in place, and loops over
// the lists of clients and of observations while entries leave them
// (wakaama/core/registration.c).
module RegistryEngine {
  import opened Common
  import opened SortedList
  import opened LinkFormat
  import opened LinkParser
  import opened LinkReader
  import opened Registry

  class ClientNode {
    const id: uint16
    var name: string
    var session: nat
    var lifetime: nat
    var endOfLife: int
    var objectList: seq<Entry>
    var observationList: seq<Observation>

    constructor (id: uint16)
      ensures this.id == id && observationList == [] && objectList == []
    {
      this.id := id;
      name, session, lifetime, endOfLife := "", 0, 0, 0;
      objectList, observationList := [], [];
    }

    function Value(): Client
      reads this
    {
      Client(id, name, session, lifetime, endOfLife, objectList, observationList)
    }
  }

  const ClientNodeId: ClientNode -> int := (c: ClientNode) => c.id

  function Values(cs: seq<ClientNode>): (r: seq<Client>)
    reads cs
    ensures |r| == |cs|
    ensures forall i :: 0 <= i < |cs| ==> r[i] == cs[i].Value()
  {
    seq(|cs|, i requires 0 <= i < |cs| reads cs => cs[i].Value())
  }

  lemma {:induction false} SameBelow(cs: seq<ClientNode>, id: int)
    ensures Below(cs, ClientNodeId, id) == Below(Values(cs), ClientId, id)
    ensures AddAt(cs, ClientNodeId, id) == AddAt(Values(cs), ClientId, id)
  {
    if cs != [] {
      assert Values(cs)[1..] == Values(cs[1..]);
      SameBelow(cs[1..], id);
    }
  }

  lemma {:induction false} SameNewId(cs: seq<ClientNode>, id: uint16)
    ensures NewIdFrom(cs, ClientNodeId, id) == NewIdFrom(Values(cs), ClientId, id)
  {
    if cs != [] {
      assert Values(cs)[1..] == Values(cs[1..]);
      SameNewId(cs[1..], (id + 1) % 0x1_0000);
    }
  }

  lemma SameAdd(cs: seq<ClientNode>, c: ClientNode)
    ensures Values(Add(cs, ClientNodeId, c)) == Add(Values(cs), ClientId, c.Value())
  {
    SameBelow(cs, c.id);
    var n := AddAt(cs, ClientNodeId, c.id);
    ValuesConcat(cs[..n] + [c], cs[n..]);
    ValuesConcat(cs[..n], [c]);
    assert Values([c]) == [c.Value()];
    assert Values(cs)[..n] == Values(cs[..n]) && Values(cs)[n..] == Values(cs[n..]);
  }

  lemma ValuesConcat(a: seq<ClientNode>, b: seq<ClientNode>)
    ensures Values(a + b) == Values(a) + Values(b)
  {
  }

  lemma SameRemove(cs: seq<ClientNode>, id: int)
    ensures Values(Remove(cs, ClientNodeId, id)) == Remove(Values(cs), ClientId, id)
  {
    SameBelow(cs, id);
    var n := Below(cs, ClientNodeId, id);
    if n < |cs| {
      ValuesConcat(cs[..n], cs[n + 1..]);
      assert Values(cs)[..n] == Values(cs[..n]) && Values(cs)[n + 1..] == Values(cs[n + 1..]);
    }
  }

  class Server {
    var clientList: seq<ClientNode>
    var log: seq<Event>

    constructor ()
      ensures Valid() && Abs() == State([], [])
    {
      clientList, log := [], [];
    }

    ghost predicate Valid()
      reads this
    {
      StrictlySorted(clientList, ClientNodeId)
    }

    function Abs(): State
      reads this, clientList
    {
      State(Values(clientList), log)
    }

    lemma Sorted()
      requires Valid()
      ensures StrictlySorted(Abs().clients, ClientId)
      ensures forall i, j :: 0 <= i < j < |clientList| ==> clientList[i] != clientList[j]
    {
      forall i, j | 0 <= i < j < |clientList|
        ensures ClientId(Abs().clients[i]) < ClientId(Abs().clients[j]) && clientList[i] != clientList[j]
      {
        assert ClientNodeId(clientList[i]) < ClientNodeId(clientList[j]);
      }
    }

    // prv_getClientByName
    method GetClientByName(name: string) returns (k: nat)
      ensures k == NameAt(Abs().clients, name)
    {
      k := 0;
      assert Values(clientList)[0..] == Values(clientList);
      while k < |clientList| && clientList[k].name != name
        invariant k <= |clientList|
        invariant NameAt(Abs().clients, name) == k + NameAt(Abs().clients[k..], name)
      {
        assert Abs().clients[k..][1..] == Abs().clients[k + 1..];
        k := k + 1;
      }
    }

    // A registration reset by a client with the same name.
    method ResetClient(k: nat, now: int, session: nat, lifetime: nat, objects: seq<Entry>)
      requires Valid() && k < |clientList|
      modifies this`log, clientList[k]
      ensures Valid()
      ensures var c := old(clientList[k].Value()).(
                         session := session, lifetime := lifetime, endOfLife := now + lifetime, objects := objects);
              Abs() == State(old(Abs()).clients[k := c], old(log) + [Monitored(c.id, CREATED_2_01)])
    {
      Sorted();
      var clientP := clientList[k];
      clientP.objectList := [];
      clientP.lifetime := lifetime;
      clientP.endOfLife := now + lifetime;
      clientP.objectList := objects;
      clientP.session := session;
      log := log + [Monitored(clientP.id, CREATED_2_01)];
      assert Values(clientList) == old(Values(clientList))[k := clientP.Value()];
    }

    method FilledClient(id: uint16, now: int, session: nat, name: string, lifetime: nat, objects: seq<Entry>)
      returns (clientP: ClientNode)
      ensures fresh(clientP)
      ensures clientP.Value() == Client(id, name, session, lifetime, now + lifetime, objects, [])
    {
      clientP := new ClientNode(id);
      clientP.name := name;
      clientP.lifetime := lifetime;
      clientP.endOfLife := now + lifetime;
      clientP.objectList := objects;
      clientP.session := session;
    }

    // LWM2M_LIST_ADD of a client whose id is free.
    method AddClient(clientP: ClientNode)
      requires Valid() && !HasKey(Abs().clients, ClientId, clientP.id)
      modifies this
      ensures Valid() && Abs() == State(Add(old(Abs()).clients, ClientId, clientP.Value()), old(log))
    {
      NoSuchKey(clientP.id);
      AddKeepsOrder(clientList, ClientNodeId, clientP);
      SameAdd(clientList, clientP);
      clientList := Add(clientList, ClientNodeId, clientP);
    }

    // Ids are left: with all 65536 taken the counter of newId wraps.
    method NewClient(now: int, session: nat, name: string, lifetime: nat, objects: seq<Entry>)
      requires Valid() && |clientList| < 0x1_0000
      modifies this
      ensures Valid()
      ensures var c := Client(NewId(old(Abs()).clients, ClientId), name, session, lifetime, now + lifetime, objects, []);
              Abs() == State(Add(old(Abs()).clients, ClientId, c), old(log) + [Monitored(c.id, CREATED_2_01)])
    {
      SameNewId(clientList, 0);
      Sorted();
      NewIdIsSmallestFree(Abs().clients, ClientId);
      var clientP := FilledClient(NewId(clientList, ClientNodeId), now, session, name, lifetime, objects);
      AddClient(clientP);
      log := log + [Monitored(clientP.id, CREATED_2_01)];
    }

    // There is an id for the name.
    ghost predicate HasRoom(name: string)
      reads this, clientList
    {
      NameAt(Abs().clients, name) == |clientList| ==> |clientList| < 0x1_0000
    }

    // The Register operation once its parameters are accepted.
    method AdmitClient(now: int, session: nat, name: string, lifetime: nat, objects: seq<Entry>)
      requires Valid() && HasRoom(name)
      modifies this, clientList
      ensures Valid() && Abs() == Admit(old(Abs()), now, session, name, lifetime, objects)
    {
      var k := GetClientByName(name);
      if k < |clientList| {
        ResetClient(k, now, session, lifetime, objects);
      } else {
        NewClient(now, session, name, lifetime, objects);
      }
    }

    lemma NoSuchKey(id: uint16)
      requires !HasKey(Abs().clients, ClientId, id)
      ensures !HasKey(clientList, ClientNodeId, id)
    {
      forall i | 0 <= i < |clientList| ensures ClientNodeId(clientList[i]) != id {
        assert ClientId(Abs().clients[i]) != id;
      }
    }

    // Whether the new object list still has what is observed.
    method StillThere(observationP: Observation, objects: seq<Entry>) returns (there: bool)
      ensures there == Present(observationP, objects)
    {
      var objP := Find(objects, EntryId, observationP.objectId);
      if objP == None {
        return false;
      }
      there := observationP.instanceId == MAX_ID ||
               Find(objP.value.instances, InstanceId, observationP.instanceId) != None;
    }

    // One round of the loop of a Registration Update.
    method DropOne(clientP: ClientNode, observationP: Observation, ghost rest: seq<Observation>, objects: seq<Entry>)
      modifies this`log, clientP`observationList
      ensures DropGone([observationP] + rest, old(clientP.observationList), objects, clientP.id, old(log)) ==
              DropGone(rest, clientP.observationList, objects, clientP.id, log)
    {
      assert ([observationP] + rest)[1..] == rest;
      var there := StillThere(observationP, objects);
      if !there {
        log := log + [Dropped(clientP.id, observationP)];
        clientP.observationList := Remove(clientP.observationList, ObservationId, observationP.id);
      }
    }

    // The loop of a Registration Update over the observations of a client.
    method DropObservations(clientP: ClientNode, objects: seq<Entry>)
      modifies this`log, clientP`observationList
      ensures var c := old(clientP.Value());
              (clientP.observationList, log) == DropGone(c.observations, c.observations, objects, c.id, old(log))
    {
      var all := clientP.observationList;
      var i := 0;
      assert all[0..] == all;
      while i < |all|
        invariant i <= |all|
        invariant DropGone(all, all, objects, clientP.id, old(log)) ==
                  DropGone(all[i..], clientP.observationList, objects, clientP.id, log)
      {
        assert all[i..] == [all[i]] + all[i + 1..];
        DropOne(clientP, all[i], all[i + 1..], objects);
        i := i + 1;
      }
    }

    // The Update operation; without objects the client's own ones stay.
    method Renew(clientP: ClientNode, now: int, session: nat, lifetime: nat, objects: seq<Entry>)
      modifies this`log, clientP
      ensures (clientP.Value(), log) == Renewed(old(clientP.Value()), now, session, lifetime, objects, old(log))
    {
      if lifetime != 0 {
        clientP.lifetime := lifetime;
      }
      clientP.session := session;
      if objects != [] {
        DropObservations(clientP, objects);
        clientP.objectList := objects;
      }
      clientP.endOfLife := now + clientP.lifetime;
    }

    method RefreshClient(k: nat, now: int, session: nat, lifetime: nat, objects: seq<Entry>)
      requires Valid() && k < |clientList|
      modifies this`log, clientList[k]
      ensures Valid() && Abs() == Refresh(old(Abs()), k, now, session, lifetime, objects)
    {
      Sorted();
      var clientP := clientList[k];
      Renew(clientP, now, session, lifetime, objects);
      log := log + [Monitored(clientP.id, CHANGED_2_04)];
      assert Values(clientList) == old(Values(clientList))[k := clientP.Value()];
    }

    // registration_handleRequest for a POST
    method HandlePostRequest(uri: Option<uint16>, instanceSet: bool, now: int, session: nat, p: Post) returns (code: byte)
      requires Valid() && (uri == None && p.name.Some? ==> HasRoom(p.name.value))
      modifies this, clientList
      ensures Valid() && (Abs(), code) == HandlePost(old(Abs()), uri, instanceSet, now, session, p)
    {
      if !p.readable || !p.linkFormat {
        return BAD_REQUEST_4_00;
      }
      var decoded := DecodeRegisterPayload(p.payload);
      var objects := if decoded.Some? then decoded.value.objects else [];
      assert objects == Objects(p.payload);
      if uri == None {
        code := HandleRegister(now, session, p, objects);
      } else {
        code := HandleUpdate(uri.value, instanceSet, now, session, p, objects);
      }
    }

    method HandleRegister(now: int, session: nat, p: Post, objects: seq<Entry>) returns (code: byte)
      requires Valid() && (p.name.Some? ==> HasRoom(p.name.value)) && objects == Objects(p.payload)
      modifies this, clientList
      ensures Valid() && (Abs(), code) == Register(old(Abs()), now, session, p)
    {
      if p.version == NoVersion || p.name == None || objects == [] {
        return BAD_REQUEST_4_00;
      }
      if p.version == Unsupported {
        return PRECONDITION_FAILED_4_12;
      }
      var lifetime := p.lifetime;
      if lifetime == 0 {
        lifetime := DEFAULT_LIFETIME;
      }
      AdmitClient(now, session, p.name.value, lifetime, objects);
      code := CREATED_2_01;
    }

    method HandleUpdate(id: uint16, instanceSet: bool, now: int, session: nat, p: Post, objects: seq<Entry>)
      returns (code: byte)
      requires Valid() && objects == Objects(p.payload)
      modifies this, clientList
      ensures Valid() && (Abs(), code) == Update(old(Abs()), id, instanceSet, now, session, p)
    {
      if instanceSet {
        return BAD_REQUEST_4_00;
      }
      SameBelow(clientList, id);
      var k := Below(clientList, ClientNodeId, id);
      if k >= |clientList| || clientList[k].id != id {
        return NOT_FOUND_4_04;
      }
      if p.name.Some? {
        return BAD_REQUEST_4_00;
      }
      RefreshClient(k, now, session, p.lifetime, objects);
      code := CHANGED_2_04;
    }

    lemma RemoveKeepsOrder(id: int)
      requires Valid()
      ensures StrictlySorted(Remove(clientList, ClientNodeId, id), ClientNodeId)
    {
      var n := Below(clientList, ClientNodeId, id);
      if n < |clientList| {
        GapKeepsOrder(clientList, ClientNodeId, n, clientList[..n] + clientList[n + 1..]);
      }
    }

    // registration_handleRequest for a DELETE
    method HandleDeleteRequest(uri: Option<uint16>, instanceSet: bool) returns (code: byte)
      requires Valid()
      modifies this
      ensures Valid() && (Abs(), code) == HandleDelete(old(Abs()), uri, instanceSet)
    {
      if uri == None || instanceSet {
        return BAD_REQUEST_4_00;
      }
      SameBelow(clientList, uri.value);
      var found := Find(clientList, ClientNodeId, uri.value);
      if found == None {
        return BAD_REQUEST_4_00;
      }
      SameRemove(clientList, uri.value);
      RemoveKeepsOrder(uri.value);
      clientList := Remove(clientList, ClientNodeId, uri.value);
      log := log + [Monitored(uri.value, DELETED_2_02)];
      code := DELETED_2_02;
    }

    // The removal of client k at the end of its life.
    method Expire(k: nat)
      requires Valid() && k < |clientList|
      modifies this
      ensures Valid() && |clientList| == old(|clientList|) - 1
      ensures var c := old(clientList[k]);
              Abs() == State(Remove(old(Abs()).clients, ClientId, c.id), old(log) + [Monitored(c.id, DELETED_2_02)])
    {
      var clientP := clientList[k];
      SameRemove(clientList, clientP.id);
      RemoveTakesOne(clientList, ClientNodeId, k);
      RemoveKeepsOrder(clientP.id);
      clientList := Remove(clientList, ClientNodeId, clientP.id);
      log := log + [Monitored(clientP.id, DELETED_2_02)];
    }

    // One round of the loop; the index stays put when a client leaves.
    method StepAt(k: nat, now: int, timeoutIn: int) returns (next: nat, timeout: int)
      requires Valid() && k < |clientList| && StrictlySorted(Abs().clients, ClientId)
      modifies this
      ensures Valid() && next <= |clientList| && |clientList| - next < old(|clientList|) - k
      ensures StrictlySorted(Abs().clients, ClientId)
      ensures ExpireFrom(Abs(), next, now, timeout) == ExpireFrom(old(Abs()), k, now, timeoutIn)
    {
      timeout, next := timeoutIn, k;
      if clientList[k].endOfLife <= now {
        Expire(k);
        Sorted();
      } else {
        var interval := clientList[k].endOfLife - now;
        if timeout > interval {
          timeout := interval;
        }
        next := k + 1;
      }
    }

    // The loop of registration_step over the clients.
    method Step(now: int, timeoutIn: int) returns (timeout: int)
      requires Valid()
      modifies this
      ensures Valid() && StrictlySorted(old(Abs().clients), ClientId)
      ensures (Abs(), timeout) == ExpireFrom(old(Abs()), 0, now, timeoutIn)
    {
      timeout := timeoutIn;
      var k: nat := 0;
      Sorted();
      while k < |clientList|
        invariant Valid() && k <= |clientList| && StrictlySorted(Abs().clients, ClientId)
        invariant ExpireFrom(Abs(), k, now, timeout) == ExpireFrom(old(Abs()), 0, now, timeoutIn)
        decreases |clientList| - k
      {
        k, timeout := StepAt(k, now, timeout);
      }
    }
  }
}
