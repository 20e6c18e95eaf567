// Bootstrap-Delete as written: instance lists that shrink under the loops that
// walk them, and marks set on server objects (wakaama/core/bootstrap.c,
// wakaama/core/objects.c).
module BootstrapEngine {
  import opened Common
  import opened Bootstrap

  // lwm2m_object_t with its delete callback
  class ObjectNode {
    const id: uint16
    const deletable: bool
    const refusals: map<uint16, byte>
    var instanceList: seq<uint16>

    constructor (id: uint16, deletable: bool, refusals: map<uint16, byte>, instances: seq<uint16>)
      ensures Value() == Object(id, deletable, refusals, instances)
    {
      this.id, this.deletable, this.refusals, instanceList := id, deletable, refusals, instances;
    }

    function Value(): Object
      reads this
    {
      Object(id, deletable, refusals, instanceList)
    }

    // The delete callback: it removes the instance, or refuses.
    method DeleteFunc(instance: uint16) returns (code: byte)
      requires deletable && DELETED_2_02 !in refusals.Values
      modifies this
      ensures var r := DeleteInstance(old(Value()), instance, []); Value() == r.o && code == r.code
      ensures code == DELETED_2_02 <==> instance in old(instanceList) && instance !in refusals
    {
      var k := Index(instanceList, instance);
      if k == |instanceList| {
        code := NOT_FOUND_4_04;
      } else if instance in refusals {
        code := refusals[instance];
        assert code in refusals.Values;
      } else {
        instanceList := instanceList[..k] + instanceList[k + 1..];
        code := DELETED_2_02;
      }
    }
  }

  // The bootstrap fields of lwm2m_server_t
  class ServerNode {
    const secObjInstID: uint16
    var dirty: bool

    constructor (id: uint16)
      ensures Value() == Server(id, false)
    {
      secObjInstID, dirty := id, false;
    }

    function Value(): Server
      reads this
    {
      Server(secObjInstID, dirty)
    }
  }

  function ObjectValues(objects: seq<ObjectNode>): (r: seq<Object>)
    reads objects
    ensures |r| == |objects| && forall i :: 0 <= i < |r| ==> r[i] == objects[i].Value()
  {
    seq(|objects|, i requires 0 <= i < |objects| reads objects => objects[i].Value())
  }

  function ServerValues(servers: seq<ServerNode>): (r: seq<Server>)
    reads servers
    ensures |r| == |servers| && forall i :: 0 <= i < |r| ==> r[i] == servers[i].Value()
  {
    seq(|servers|, i requires 0 <= i < |servers| reads servers => servers[i].Value())
  }

  ghost predicate NoneTwice(nodes: seq<object>) {
    forall i, j :: 0 <= i < j < |nodes| ==> nodes[i] != nodes[j]
  }

  class Context {
    var objectList: seq<ObjectNode>
    var bootstrapServerList: seq<ServerNode>
    var serverList: seq<ServerNode>
    var log: seq<Event>

    constructor (objects: seq<ObjectNode>, bootstrapServers: seq<ServerNode>, servers: seq<ServerNode>)
      ensures objectList == objects && bootstrapServerList == bootstrapServers && serverList == servers && log == []
    {
      objectList, bootstrapServerList, serverList, log := objects, bootstrapServers, servers, [];
    }

    ghost predicate Valid()
      reads this
    {
      && NoneTwice(objectList) && NoneTwice(bootstrapServerList) && NoneTwice(serverList)
      && (forall i, j :: 0 <= i < |bootstrapServerList| && 0 <= j < |serverList| ==>
            bootstrapServerList[i] != serverList[j])
      && forall i :: 0 <= i < |objectList| ==> DELETED_2_02 !in objectList[i].refusals.Values
    }

    ghost function Abs(): State
      reads this, objectList, bootstrapServerList, serverList
    {
      State(ObjectValues(objectList), ServerValues(bootstrapServerList), ServerValues(serverList), log)
    }

    // ----- object_delete ----------------------------------------------------

    // One turn of a deletion loop.
    method DeleteOne(objectP: ObjectNode, instance: uint16) returns (code: byte)
      requires objectP.deletable && DELETED_2_02 !in objectP.refusals.Values
      modifies this`log, objectP
      ensures Result(objectP.Value(), log, code) == DeleteInstance(old(objectP.Value()), instance, old(log))
      ensures code == DELETED_2_02 <==> instance in old(objectP.instanceList) && instance !in objectP.refusals
    {
      code := objectP.DeleteFunc(instance);
      if code == DELETED_2_02 {
        log := log + [Deleted(objectP.id, instance)];
      }
    }

    method DeleteEvery(objectP: ObjectNode) returns (code: byte)
      requires objectP.deletable && DELETED_2_02 !in objectP.refusals.Values
      modifies this`log, objectP
      ensures Result(objectP.Value(), log, code) == Clear(old(objectP.Value()), old(log))
    {
      code := DELETED_2_02;
      while objectP.instanceList != [] && code == DELETED_2_02
        invariant Clear(old(objectP.Value()), old(log)) ==
                  if code == DELETED_2_02 then Clear(objectP.Value(), log) else Result(objectP.Value(), log, code)
        decreases code == DELETED_2_02, |objectP.instanceList|
      {
        var list := objectP.instanceList;
        assert Index(list, list[0]) == 0 && list[..0] + list[1..] == list[1..];
        code := DeleteOne(objectP, list[0]);
      }
    }

    method ObjectDelete(objectP: ObjectNode, instance: Option<uint16>) returns (code: byte)
      requires DELETED_2_02 !in objectP.refusals.Values
      modifies this`log, objectP
      ensures Result(objectP.Value(), log, code) ==
              if instance.Some? then DeleteInstance(old(objectP.Value()), instance.value, old(log))
              else DeleteObject(old(objectP.Value()), old(log))
    {
      if !objectP.deletable {
        return NOT_ALLOWED_4_05;
      }
      if instance.Some? {
        code := DeleteOne(objectP, instance.value);
      } else {
        code := DeleteEvery(objectP);
      }
    }

    // The loop over the Security object, back at the head after every deletion.
    method PurgeSecurity(objectP: ObjectNode, own: uint16) returns (code: byte)
      requires DELETED_2_02 !in objectP.refusals.Values
      modifies this`log, objectP
      ensures Result(objectP.Value(), log, code) == Purge(old(objectP.Value()), own, 0, old(log))
    {
      code := DELETED_2_02;
      var pos: nat := 0;
      while pos < |objectP.instanceList| && code == DELETED_2_02
        invariant code == DELETED_2_02 ==> pos <= |objectP.instanceList| && AllOwn(objectP.instanceList[..pos], own)
        invariant Purge(old(objectP.Value()), own, 0, old(log)) ==
                  if code == DELETED_2_02 then Purge(objectP.Value(), own, pos, log)
                  else Result(objectP.Value(), log, code)
        decreases code == DELETED_2_02, |objectP.instanceList|, |objectP.instanceList| - pos
      {
        var list := objectP.instanceList;
        if list[pos] == own {
          assert list[..pos + 1] == list[..pos] + [own];
          pos := pos + 1;
        } else {
          assert forall i :: 0 <= i < pos ==> list[i] == list[..pos][i] == own;
          assert Index(list, list[pos]) == pos;
          code := ObjectDelete(objectP, Some(list[pos]));
          pos := 0;
        }
      }
    }

    // ----- Marks ------------------------------------------------------------

    method TagAllBootstrap(k: nat)
      requires Valid() && k < |bootstrapServerList|
      modifies bootstrapServerList
      ensures Abs() == old(Abs()).(bootstrapServers := TagOthers(old(Abs()).bootstrapServers, k))
    {
      var i := 0;
      while i < |bootstrapServerList|
        invariant 0 <= i <= |bootstrapServerList|
        invariant forall j :: 0 <= j < |bootstrapServerList| ==>
                    bootstrapServerList[j].dirty == (old(bootstrapServerList[j].dirty) || (j < i && j != k))
      {
        if bootstrapServerList[i] != bootstrapServerList[k] {
          bootstrapServerList[i].dirty := true;
        }
        i := i + 1;
      }
      assert ServerValues(bootstrapServerList) == TagOthers(old(Abs()).bootstrapServers, k);
      assert ServerValues(serverList) == old(Abs()).servers;
      assert ObjectValues(objectList) == old(Abs()).objects;
    }

    method TagAllOrdinary()
      requires Valid()
      modifies serverList
      ensures Abs() == old(Abs()).(servers := TagAll(old(Abs()).servers))
    {
      var i := 0;
      while i < |serverList|
        invariant 0 <= i <= |serverList|
        invariant forall j :: 0 <= j < |serverList| ==> serverList[j].dirty == (old(serverList[j].dirty) || j < i)
      {
        serverList[i].dirty := true;
        i := i + 1;
      }
      assert ServerValues(serverList) == TagAll(old(Abs()).servers);
      assert ServerValues(bootstrapServerList) == old(Abs()).bootstrapServers;
      assert ObjectValues(objectList) == old(Abs()).objects;
    }

    // prv_tagAllServer, for the server at position k
    method TagAllServer(k: nat)
      requires Valid() && k < |bootstrapServerList|
      modifies bootstrapServerList, serverList
      ensures Abs() == Tag(old(Abs()), k)
    {
      TagAllBootstrap(k);
      TagAllOrdinary();
    }

    // prv_tagServer
    method TagServer(id: uint16)
      requires Valid()
      modifies bootstrapServerList, serverList
      ensures Abs() == TagOne(old(Abs()), id)
    {
      ghost var before := Abs();
      var b := FindServer(bootstrapServerList, id);
      if b < |bootstrapServerList| {
        bootstrapServerList[b].dirty := true;
        assert ServerValues(bootstrapServerList) ==
               before.bootstrapServers[b := before.bootstrapServers[b].(dirty := true)];
      } else {
        var n := FindServer(serverList, id);
        if n < |serverList| {
          serverList[n].dirty := true;
          assert ServerValues(serverList) == before.servers[n := before.servers[n].(dirty := true)];
        }
        assert ServerValues(bootstrapServerList) == before.bootstrapServers;
      }
      assert b < |bootstrapServerList| ==> ServerValues(serverList) == before.servers;
      assert ObjectValues(objectList) == before.objects;
    }

    // ----- The requests -----------------------------------------------------

    // One object of the loop of bootstrap_handleDeleteAll.
    method DeleteAllAt(k: nat, i: nat, codeIn: byte) returns (code: byte)
      requires Valid() && k < |bootstrapServerList| && i < |objectList|
      modifies this`log, objectList[i], bootstrapServerList, serverList
      ensures (Abs(), code) == DeleteAt(old(Abs()), k, i, codeIn)
    {
      var objectP := objectList[i];
      code := codeIn;
      if objectP.id == SECURITY {
        if code == DELETED_2_02 {
          code := PurgeSecurity(objectP, bootstrapServerList[k].secObjInstID);
          Changed(i, old(Abs()).objects);
          if code == DELETED_2_02 {
            TagAllServer(k);
          }
        }
      } else {
        code := ObjectDelete(objectP, None);
        Changed(i, old(Abs()).objects);
        if code == NOT_ALLOWED_4_05 {
          code := DELETED_2_02;
        }
      }
    }

    // Object i is the only one that may have changed.
    lemma Changed(i: nat, before: seq<Object>)
      requires Valid() && i < |objectList| == |before|
      requires forall j :: 0 <= j < |objectList| && j != i ==> objectList[j].Value() == before[j]
      ensures Abs().objects == before[i := objectList[i].Value()]
    {
    }

    // bootstrap_handleDeleteAll, for the bootstrap server at position k
    method HandleDeleteAll(k: nat) returns (code: byte)
      requires Valid() && k < |bootstrapServerList|
      modifies this`log, objectList, bootstrapServerList, serverList
      ensures (Abs(), code) == DeleteAll(old(Abs()), k)
    {
      code := DELETED_2_02;
      var i := 0;
      while i < |objectList|
        invariant 0 <= i <= |objectList|
        invariant DeleteAllFrom(Abs(), k, i, code) == DeleteAll(old(Abs()), k)
      {
        code := DeleteAllAt(k, i, code);
        i := i + 1;
      }
    }

    // LWM2M_LIST_FIND on the objects, and on a list of servers
    method FindObject(id: uint16) returns (i: nat)
      ensures i == Index(ObjectIds(Abs().objects), id)
    {
      i := 0;
      ghost var ids := ObjectIds(Abs().objects);
      while i < |objectList| && objectList[i].id != id
        invariant i <= |objectList| && forall j :: 0 <= j < i ==> ids[j] != id
      {
        i := i + 1;
      }
    }

    method FindServer(servers: seq<ServerNode>, id: uint16) returns (i: nat)
      ensures i == Index(ServerIds(ServerValues(servers)), id)
    {
      i := 0;
      ghost var ids := ServerIds(ServerValues(servers));
      while i < |servers| && servers[i].secObjInstID != id
        invariant i <= |servers| && forall j :: 0 <= j < i ==> ids[j] != id
      {
        i := i + 1;
      }
    }

    // The DELETE branch of bootstrap_handleCommand
    method HandleDelete(k: nat, p: Path) returns (code: byte)
      requires Valid() && k < |bootstrapServerList|
      modifies this`log, objectList, bootstrapServerList, serverList
      ensures (Abs(), code) == Delete(old(Abs()), k, p)
    {
      if p.resource {
        return BAD_REQUEST_4_00;
      }
      var i := FindObject(p.objectId);
      if i == |objectList| {
        return if p.objectId == SECURITY && p.instanceId == None then DELETED_2_02 else NOT_FOUND_4_04;
      }
      if p.objectId == SECURITY && p.instanceId == None {
        code := DeleteAllAt(k, i, DELETED_2_02);
        return;
      }
      code := ObjectDelete(objectList[i], p.instanceId);
      Changed(i, old(Abs()).objects);
      if p.objectId == SECURITY && code == DELETED_2_02 {
        TagServer(p.instanceId.value);
      }
    }
  }
}
