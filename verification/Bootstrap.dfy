// Bootstrap-Delete (wakaama/core/bootstrap.c, wakaama/core/objects.c): what a
// bootstrap server deletes, what refuses to be deleted, and which servers are
// marked.
module Bootstrap {
  import opened Common

  // Deletion loops that start again at the head of the list after every
  // deletion.

  // An object and its instances. Deleting an instance removes it, or fails
  // with the code `refusals` has for it; without a delete callback nothing can
  // be deleted.
  datatype Object = Object(id: uint16, deletable: bool, refusals: map<uint16, byte>, instances: seq<uint16>)

  // A server is known by the instance of the Security object it comes from.
  datatype Server = Server(id: uint16, dirty: bool)

  datatype Event = Deleted(objectId: uint16, instanceId: uint16)

  datatype State = State(objects: seq<Object>, bootstrapServers: seq<Server>, servers: seq<Server>, log: seq<Event>)

  const SECURITY: uint16 := 0
  const DELETED_2_02: byte := 0x42
  const NOT_ALLOWED_4_05: byte := 0x85

  // An error is never the code of a success, and instances have distinct ids.
  ghost predicate WellFormed(o: Object) {
    && (forall i :: i in o.refusals ==> o.refusals[i] != DELETED_2_02)
    && forall i, j :: 0 <= i < j < |o.instances| ==> o.instances[i] != o.instances[j]
  }

  // object_delete for one instance
  function Refusal(o: Object, instance: uint16): Option<byte> {
    if !o.deletable then Some(NOT_ALLOWED_4_05)
    else if instance in o.refusals then Some(o.refusals[instance])
    else None
  }

  datatype Result = Result(o: Object, log: seq<Event>, code: byte)

  function WithoutAt(o: Object, pos: nat): Object
    requires pos < |o.instances|
  {
    o.(instances := o.instances[..pos] + o.instances[pos + 1..])
  }

  // ----- object_delete for a whole object -----------------------------------

  // The loop always takes the head of what is left.
  function Clear(o: Object, log: seq<Event>): (r: Result)
    ensures r.o.id == o.id
    decreases |o.instances|
  {
    if o.instances == [] then Result(o, log, DELETED_2_02)
    else
      var i := o.instances[0];
      if i in o.refusals then Result(o, log, o.refusals[i])
      else Clear(o.(instances := o.instances[1..]), log + [Deleted(o.id, i)])
  }

  function DeleteObject(o: Object, log: seq<Event>): (r: Result)
    ensures r.o.id == o.id
  {
    if o.deletable then Clear(o, log) else Result(o, log, NOT_ALLOWED_4_05)
  }

  // ----- The Security object ------------------------------------------------

  // The loop skips the instance of the requesting server, and starts again at
  // the head after every deletion.
  function Purge(o: Object, own: uint16, pos: nat, log: seq<Event>): (r: Result)
    ensures r.o.id == o.id
    decreases |o.instances|, |o.instances| - pos
  {
    if pos >= |o.instances| then Result(o, log, DELETED_2_02)
    else if o.instances[pos] == own then Purge(o, own, pos + 1, log)
    else
      var i := o.instances[pos];
      var refusal := Refusal(o, i);
      if refusal.Some? then Result(o, log, refusal.value)
      else
        Purge(WithoutAt(o, pos), own, 0, log + [Deleted(o.id, i)])
  }

  // ----- bootstrap_handleDeleteAll ------------------------------------------

  function TagAll(servers: seq<Server>): (r: seq<Server>)
    ensures |r| == |servers|
    ensures forall i :: 0 <= i < |servers| ==> r[i] == servers[i].(dirty := true)
  {
    seq(|servers|, i requires 0 <= i < |servers| => servers[i].(dirty := true))
  }

  function TagOthers(servers: seq<Server>, k: nat): (r: seq<Server>)
    ensures |r| == |servers|
    ensures forall i :: 0 <= i < |servers| ==> r[i] == if i == k then servers[i] else servers[i].(dirty := true)
  {
    seq(|servers|, i requires 0 <= i < |servers| => if i == k then servers[i] else servers[i].(dirty := true))
  }

  // prv_tagAllServer, for the requesting server at position k
  function Tag(s: State, k: nat): State {
    s.(bootstrapServers := TagOthers(s.bootstrapServers, k), servers := TagAll(s.servers))
  }

  function Own(s: State, k: nat): uint16
    requires k < |s.bootstrapServers|
  {
    s.bootstrapServers[k].id
  }

  function Put(s: State, i: nat, r: Result): State
    requires i < |s.objects|
  {
    s.(objects := s.objects[i := r.o], log := r.log)
  }

  // One object of the loop. A static object counts as deleted.
  function DeleteAt(s: State, k: nat, i: nat, result: byte): (r: (State, byte))
    requires k < |s.bootstrapServers| && i < |s.objects|
    ensures |r.0.objects| == |s.objects| && |r.0.bootstrapServers| == |s.bootstrapServers|
  {
    var o := s.objects[i];
    if o.id == SECURITY then
      if result != DELETED_2_02 then (s, result)
      else
        var r := Purge(o, Own(s, k), 0, s.log);
        var s1 := Put(s, i, r);
        (if r.code == DELETED_2_02 then Tag(s1, k) else s1, r.code)
    else
      var r := DeleteObject(o, s.log);
      (Put(s, i, r), if r.code == NOT_ALLOWED_4_05 then DELETED_2_02 else r.code)
  }

  function DeleteAllFrom(s: State, k: nat, i: nat, result: byte): (State, byte)
    requires k < |s.bootstrapServers|
    decreases |s.objects| - i
  {
    if i >= |s.objects| then (s, result)
    else
      var (s1, code) := DeleteAt(s, k, i, result);
      DeleteAllFrom(s1, k, i + 1, code)
  }

  function DeleteAll(s: State, k: nat): (State, byte)
    requires k < |s.bootstrapServers|
  {
    DeleteAllFrom(s, k, 0, DELETED_2_02)
  }

  // ----- The DELETE branch of bootstrap_handleCommand -----------------------

  datatype Path = Path(objectId: uint16, instanceId: Option<uint16>, resource: bool)

  const BAD_REQUEST_4_00: byte := 0x80
  const NOT_FOUND_4_04: byte := 0x84

  function Index(ids: seq<uint16>, id: uint16): (r: nat)
    ensures r <= |ids| && (r < |ids| ==> ids[r] == id)
    ensures forall i :: 0 <= i < r ==> ids[i] != id
  {
    if ids == [] || ids[0] == id then 0 else 1 + Index(ids[1..], id)
  }

  function ObjectIds(objects: seq<Object>): (r: seq<uint16>)
    ensures |r| == |objects| && forall i :: 0 <= i < |r| ==> r[i] == objects[i].id
  {
    seq(|objects|, i requires 0 <= i < |objects| => objects[i].id)
  }

  function ServerIds(servers: seq<Server>): (r: seq<uint16>)
    ensures |r| == |servers| && forall i :: 0 <= i < |r| ==> r[i] == servers[i].id
  {
    seq(|servers|, i requires 0 <= i < |servers| => servers[i].id)
  }

  // object_delete for one instance. The callback does not know an instance
  // that is not in the list.
  function DeleteInstance(o: Object, instance: uint16, log: seq<Event>): (r: Result)
    ensures r.o.id == o.id
  {
    var k := Index(o.instances, instance);
    if !o.deletable then Result(o, log, NOT_ALLOWED_4_05)
    else if k == |o.instances| then Result(o, log, NOT_FOUND_4_04)
    else if instance in o.refusals then Result(o, log, o.refusals[instance])
    else Result(WithoutAt(o, k), log + [Deleted(o.id, instance)], DELETED_2_02)
  }

  // prv_tagServer: a bootstrap server comes before any other.
  function TagOne(s: State, id: uint16): State {
    var b, n := Index(ServerIds(s.bootstrapServers), id), Index(ServerIds(s.servers), id);
    if b < |s.bootstrapServers| then
      s.(bootstrapServers := s.bootstrapServers[b := s.bootstrapServers[b].(dirty := true)])
    else if n < |s.servers| then s.(servers := s.servers[n := s.servers[n].(dirty := true)])
    else s
  }

  function Delete(s: State, k: nat, p: Path): (State, byte)
    requires k < |s.bootstrapServers|
  {
    var i := Index(ObjectIds(s.objects), p.objectId);
    if p.resource then (s, BAD_REQUEST_4_00)
    else if i == |s.objects| then
      (s, if p.objectId == SECURITY && p.instanceId == None then DELETED_2_02 else NOT_FOUND_4_04)
    else if p.instanceId == None then
      if p.objectId == SECURITY then DeleteAt(s, k, i, DELETED_2_02)
      else
        var r := DeleteObject(s.objects[i], s.log);
        (Put(s, i, r), r.code)
    else
      var r := DeleteInstance(s.objects[i], p.instanceId.value, s.log);
      var s1 := Put(s, i, r);
      (if p.objectId == SECURITY && r.code == DELETED_2_02 then TagOne(s1, p.instanceId.value) else s1, r.code)
  }

  // ----- What the loops do --------------------------------------------------

  // The instances that are deleted before the first refusal.
  function Yielding(o: Object, instances: seq<uint16>): nat {
    if instances == [] || instances[0] in o.refusals then 0 else 1 + Yielding(o, instances[1..])
  }

  function Deletions(id: uint16, instances: seq<uint16>): seq<Event> {
    if instances == [] then [] else [Deleted(id, instances[0])] + Deletions(id, instances[1..])
  }

  lemma {:induction false} YieldingIs(o: Object, instances: seq<uint16>)
    ensures var n := Yielding(o, instances);
            && n <= |instances| && (n < |instances| ==> instances[n] in o.refusals)
            && forall i :: 0 <= i < n ==> instances[i] !in o.refusals
  {
    if instances != [] && instances[0] !in o.refusals {
      YieldingIs(o, instances[1..]);
      assert forall i :: 0 < i < |instances| ==> instances[i] == instances[1..][i - 1];
    }
  }

  // A deletable object loses its instances up to the first that refuses.
  lemma {:induction false} ClearIs(o: Object, log: seq<Event>)
    ensures var r := Clear(o, log); var n := Yielding(o, o.instances);
            && n <= |o.instances| && (n < |o.instances| ==> o.instances[n] in o.refusals)
            && r.o == o.(instances := o.instances[n..]) && r.log == log + Deletions(o.id, o.instances[..n])
            && r.code == if n == |o.instances| then DELETED_2_02 else o.refusals[o.instances[n]]
    decreases |o.instances|
  {
    YieldingIs(o, o.instances);
    var n := Yielding(o, o.instances);
    if n == 0 {
      assert o.instances[0..] == o.instances && o.instances[..0] == [] && log + [] == log;
    } else {
      var i, rest := o.instances[0], o.instances[1..];
      ClearIs(o.(instances := rest), log + [Deleted(o.id, i)]);
      SameYield(o, o.(instances := rest), rest);
      assert rest[n - 1..] == o.instances[n..] && o.instances[..n] == [i] + rest[..n - 1];
      assert ([i] + rest[..n - 1])[1..] == rest[..n - 1];
      Regroup(log, Deleted(o.id, i), Deletions(o.id, rest[..n - 1]));
    }
  }

  lemma {:induction false} SameYield(a: Object, b: Object, instances: seq<uint16>)
    requires a.refusals == b.refusals
    ensures Yielding(a, instances) == Yielding(b, instances)
  {
    if instances != [] { SameYield(a, b, instances[1..]); }
  }

  // The instances other than the requesting server's own one.
  function Others(instances: seq<uint16>, own: uint16): seq<uint16> {
    if instances == [] then []
    else if instances[0] == own then Others(instances[1..], own)
    else [instances[0]] + Others(instances[1..], own)
  }

  ghost predicate AllOwn(instances: seq<uint16>, own: uint16) {
    forall i :: 0 <= i < |instances| ==> instances[i] == own
  }

  lemma {:induction false} OthersAfter(before: seq<uint16>, rest: seq<uint16>, own: uint16)
    requires AllOwn(before, own)
    ensures Others(before + rest, own) == Others(rest, own)
  {
    if before == [] {
      assert before + rest == rest;
    } else {
      assert (before + rest)[1..] == before[1..] + rest;
      OthersAfter(before[1..], rest, own);
    }
  }

  // One deletion takes the first of the others.
  lemma OthersWithout(o: Object, own: uint16, pos: nat)
    requires pos < |o.instances| && AllOwn(o.instances[..pos], own) && o.instances[pos] != own
    ensures Others(o.instances, own) == [o.instances[pos]] + Others(WithoutAt(o, pos).instances, own)
  {
    var before, i, more := o.instances[..pos], o.instances[pos], o.instances[pos + 1..];
    assert o.instances == before + ([i] + more);
    OthersAfter(before, [i] + more, own);
    OthersAfter(before, more, own);
  }

  lemma {:induction false} PurgeShape(o: Object, own: uint16, pos: nat, log: seq<Event>)
    ensures var r := Purge(o, own, pos, log); r.o == o.(instances := r.o.instances)
    decreases |o.instances|, |o.instances| - pos
  {
    if pos < |o.instances| {
      if o.instances[pos] == own {
        PurgeShape(o, own, pos + 1, log);
      } else if Refusal(o, o.instances[pos]) == None {
        PurgeShape(WithoutAt(o, pos), own, 0, log + [Deleted(o.id, o.instances[pos])]);
      }
    }
  }

  // When nothing refuses, all the others are deleted in order.
  lemma {:induction false} PurgeIs(o: Object, own: uint16, pos: nat, log: seq<Event>)
    requires WellFormed(o) && o.deletable && pos <= |o.instances| && AllOwn(o.instances[..pos], own)
    requires forall i :: i in o.instances && i != own ==> i !in o.refusals
    ensures var r := Purge(o, own, pos, log);
            AllOwn(r.o.instances, own) && r.log == log + Deletions(o.id, Others(o.instances, own))
    decreases |o.instances|, |o.instances| - pos
  {
    if pos == |o.instances| {
      assert o.instances[..pos] == o.instances == o.instances + [];
      OthersAfter(o.instances, [], own);
      assert log + [] == log;
    } else if o.instances[pos] == own {
      assert o.instances[..pos + 1] == o.instances[..pos] + [own];
      PurgeIs(o, own, pos + 1, log);
    } else {
      var i := o.instances[pos];
      OneLess(o, pos);
      OthersWithout(o, own, pos);
      PurgeIs(WithoutAt(o, pos), own, 0, log + [Deleted(o.id, i)]);
      Regroup(log, Deleted(o.id, i), Deletions(o.id, Others(WithoutAt(o, pos).instances, own)));
    }
  }

  // What is left of the Security object is the requesting server's own
  // instance, if it had one.
  lemma PurgeLeavesOwn(o: Object, own: uint16, log: seq<Event>)
    requires WellFormed(o) && o.deletable
    requires forall i :: i in o.instances && i != own ==> i !in o.refusals
    ensures var r := Purge(o, own, 0, log);
            && r.code == DELETED_2_02 && r.log == log + Deletions(o.id, Others(o.instances, own))
            && r.o == o.(instances := if own in o.instances then [own] else [])
  {
    PurgeShape(o, own, 0, log);
    PurgeIs(o, own, 0, log);
    PurgeDistinct(o, own, 0, log);
    PurgeSucceedsIff(o, own, 0, log);
    PurgeLoses(o, own, 0, log);
    OwnIsKept(o, own);
    var left := Purge(o, own, 0, log).o.instances;
    OneAtMost(left, own);
  }

  lemma OneAtMost(ids: seq<uint16>, id: uint16)
    requires AllOwn(ids, id)
    requires forall i, j :: 0 <= i < j < |ids| ==> ids[i] != ids[j]
    ensures ids == if id in ids then [id] else []
  {
    if ids != [] {
      assert ids[0] == id && ids[|ids| - 1] == id;
      assert ids == [id];
    }
  }

  lemma OneLess(o: Object, pos: nat)
    requires WellFormed(o) && pos < |o.instances|
    ensures WellFormed(WithoutAt(o, pos))
    ensures forall x :: x in WithoutAt(o, pos).instances <==> x in o.instances && x != o.instances[pos]
  {
    var left := WithoutAt(o, pos).instances;
    assert forall j :: 0 <= j < |left| ==> left[j] == o.instances[if j < pos then j else j + 1];
    assert o.instances == o.instances[..pos] + [o.instances[pos]] + o.instances[pos + 1..];
    assert o.instances[pos] !in left;
  }

  lemma {:induction false} PurgeDistinct(o: Object, own: uint16, pos: nat, log: seq<Event>)
    requires WellFormed(o)
    ensures WellFormed(Purge(o, own, pos, log).o)
    decreases |o.instances|, |o.instances| - pos
  {
    if pos < |o.instances| {
      if o.instances[pos] == own {
        PurgeDistinct(o, own, pos + 1, log);
      } else if Refusal(o, o.instances[pos]) == None {
        OneLess(o, pos);
        PurgeDistinct(WithoutAt(o, pos), own, 0, log + [Deleted(o.id, o.instances[pos])]);
      }
    }
  }

  // Nothing that the purge has to delete refuses.
  ghost predicate Purgeable(o: Object, own: uint16) {
    forall i :: i in o.instances && i != own ==> Refusal(o, i) == None
  }

  lemma PurgeableWithout(o: Object, own: uint16, pos: nat)
    requires WellFormed(o) && pos < |o.instances| && Refusal(o, o.instances[pos]) == None
    ensures Purgeable(o, own) <==> Purgeable(WithoutAt(o, pos), own)
  {
    OneLess(o, pos);
    assert forall i :: Refusal(WithoutAt(o, pos), i) == Refusal(o, i);
  }

  // The purge succeeds exactly when nothing that it meets refuses.
  lemma {:induction false} PurgeSucceedsIff(o: Object, own: uint16, pos: nat, log: seq<Event>)
    requires WellFormed(o) && pos <= |o.instances| && AllOwn(o.instances[..pos], own)
    ensures Purge(o, own, pos, log).code == DELETED_2_02 <==> Purgeable(o, own)
    decreases |o.instances|, |o.instances| - pos
  {
    if pos == |o.instances| {
      assert o.instances[..pos] == o.instances;
    } else if o.instances[pos] == own {
      assert o.instances[..pos + 1] == o.instances[..pos] + [own];
      PurgeSucceedsIff(o, own, pos + 1, log);
    } else if Refusal(o, o.instances[pos]) == None {
      OneLess(o, pos);
      PurgeableWithout(o, own, pos);
      PurgeSucceedsIff(WithoutAt(o, pos), own, 0, log + [Deleted(o.id, o.instances[pos])]);
    } else {
      assert o.instances[pos] in o.instances;
    }
  }

  // ----- The whole deletion -------------------------------------------------

  // Sorted by id, so the Security object comes first.
  ghost predicate Sorted(objects: seq<Object>) {
    forall i, j :: 0 <= i < j < |objects| ==> objects[i].id < objects[j].id
  }

  // What becomes of one object, taken on its own.
  function Alone(o: Object, own: uint16): (Object, byte) {
    if o.id == SECURITY then
      var r := Purge(o, own, 0, []);
      (r.o, r.code)
    else
      var r := DeleteObject(o, []);
      (r.o, if r.code == NOT_ALLOWED_4_05 then DELETED_2_02 else r.code)
  }

  lemma {:induction false} PurgeLog(o: Object, own: uint16, pos: nat, log: seq<Event>, other: seq<Event>)
    ensures Purge(o, own, pos, log).o == Purge(o, own, pos, other).o
    ensures Purge(o, own, pos, log).code == Purge(o, own, pos, other).code
    decreases |o.instances|, |o.instances| - pos
  {
    if pos < |o.instances| {
      var i := o.instances[pos];
      if i == own {
        PurgeLog(o, own, pos + 1, log, other);
      } else if Refusal(o, i) == None {
        PurgeLog(WithoutAt(o, pos), own, 0, log + [Deleted(o.id, i)], other + [Deleted(o.id, i)]);
      }
    }
  }

  lemma DeleteLog(o: Object, log: seq<Event>, other: seq<Event>)
    ensures DeleteObject(o, log).o == DeleteObject(o, other).o
    ensures DeleteObject(o, log).code == DeleteObject(o, other).code
  {
    ClearIs(o, log);
    ClearIs(o, other);
  }

  // One round changes one object, as it would change alone.
  lemma DeleteAtIs(s: State, k: nat, i: nat, result: byte)
    requires k < |s.bootstrapServers| && i < |s.objects| && (s.objects[i].id == SECURITY ==> result == DELETED_2_02)
    ensures var (end, code) := DeleteAt(s, k, i, result); var (o, c) := Alone(s.objects[i], Own(s, k));
            && end.objects == s.objects[i := o] && code == c && Own(end, k) == Own(s, k)
            && (if s.objects[i].id == SECURITY && c == DELETED_2_02
                then end.bootstrapServers == TagOthers(s.bootstrapServers, k) && end.servers == TagAll(s.servers)
                else end.bootstrapServers == s.bootstrapServers && end.servers == s.servers)
  {
    var o := s.objects[i];
    if o.id == SECURITY { PurgeLog(o, Own(s, k), 0, s.log, []); } else { DeleteLog(o, s.log, []); }
  }

  // Past the Security object the servers stay as they are, and every object
  // is handled on its own; the result is the one of the last object.
  lemma {:induction false} DeleteRest(s: State, k: nat, i: nat, result: byte)
    requires k < |s.bootstrapServers| && i <= |s.objects|
    requires forall j :: i <= j < |s.objects| ==> s.objects[j].id != SECURITY
    ensures var (end, code) := DeleteAllFrom(s, k, i, result);
            && |end.objects| == |s.objects| && end.bootstrapServers == s.bootstrapServers && end.servers == s.servers
            && (forall j :: 0 <= j < |s.objects| ==>
                  end.objects[j] == if j < i then s.objects[j] else Alone(s.objects[j], Own(s, k)).0)
            && code == if i == |s.objects| then result else Alone(s.objects[|s.objects| - 1], Own(s, k)).1
    decreases |s.objects| - i
  {
    if i < |s.objects| {
      DeleteAtIs(s, k, i, result);
      var (s1, code) := DeleteAt(s, k, i, result);
      DeleteRest(s1, k, i + 1, code);
    }
  }

  // Bootstrap-Delete of everything: each object is handled on its own, the
  // servers are marked exactly when the Security object was there and could
  // be purged, and the result tells about the last object only.
  lemma DeleteAllIs(s: State, k: nat)
    requires Sorted(s.objects) && k < |s.bootstrapServers| && s.objects != []
    ensures var (end, code) := DeleteAll(s, k); var own := Own(s, k);
            && |end.objects| == |s.objects|
            && (forall j :: 0 <= j < |s.objects| ==> end.objects[j] == Alone(s.objects[j], own).0)
            && code == Alone(s.objects[|s.objects| - 1], own).1
            && (if s.objects[0].id == SECURITY && Alone(s.objects[0], own).1 == DELETED_2_02
                then end.bootstrapServers == TagOthers(s.bootstrapServers, k) && end.servers == TagAll(s.servers)
                else end.bootstrapServers == s.bootstrapServers && end.servers == s.servers)
  {
    assert forall j :: 1 <= j < |s.objects| ==> s.objects[0].id < s.objects[j].id;
    DeleteAtIs(s, k, 0, DELETED_2_02);
    var (s1, code) := DeleteAt(s, k, 0, DELETED_2_02);
    DeleteRest(s1, k, 1, code);
  }

  ghost predicate Willing(o: Object) { forall i :: 0 <= i < |o.instances| ==> o.instances[i] !in o.refusals }

  lemma ClearsAll(o: Object)
    requires Willing(o)
    ensures DeleteObject(o, []) ==
            if o.deletable then Result(o.(instances := []), Deletions(o.id, o.instances), DELETED_2_02)
            else Result(o, [], NOT_ALLOWED_4_05)
  {
    ClearIs(o, []);
    YieldingIs(o, o.instances);
    assert o.instances[|o.instances|..] == [] && o.instances[..|o.instances|] == o.instances;
    assert [] + Deletions(o.id, o.instances) == Deletions(o.id, o.instances);
  }

  // When no callback refuses, the Security object keeps the requesting
  // server's own instance only, every other deletable object is empty, static
  // objects are untouched, every other server is marked, and the result is
  // 2.02.
  lemma DeleteAllClears(s: State, k: nat)
    requires Sorted(s.objects) && k < |s.bootstrapServers| && s.objects != []
    requires forall j :: 0 <= j < |s.objects| ==> WellFormed(s.objects[j]) && Willing(s.objects[j])
    requires s.objects[0].id == SECURITY && s.objects[0].deletable
    ensures var (end, code) := DeleteAll(s, k); var own := Own(s, k);
            && code == DELETED_2_02 && |end.objects| == |s.objects|
            && end.objects[0].instances == (if own in s.objects[0].instances then [own] else [])
            && (forall j :: 1 <= j < |s.objects| ==>
                  end.objects[j].instances == if s.objects[j].deletable then [] else s.objects[j].instances)
            && end.bootstrapServers == TagOthers(s.bootstrapServers, k) && end.servers == TagAll(s.servers)
  {
    var own := Own(s, k);
    DeleteAllIs(s, k);
    PurgeLeavesOwn(s.objects[0], own, []);
    forall j | 1 <= j < |s.objects|
      ensures Alone(s.objects[j], own) ==
              (s.objects[j].(instances := if s.objects[j].deletable then [] else s.objects[j].instances), DELETED_2_02)
    {
      assert s.objects[0].id < s.objects[j].id;
      ClearsAll(s.objects[j]);
    }
  }

  // Deleting the object fails with a code that is not taken for a static
  // object: the first callback that refuses gives the code.
  ghost predicate Fails(o: Object) {
    && o.deletable
    && exists n :: Refuses(o, n) && o.refusals[o.instances[n]] != NOT_ALLOWED_4_05
  }

  ghost predicate Refuses(o: Object, n: int) {
    && 0 <= n < |o.instances| && o.instances[n] in o.refusals
    && forall i :: 0 <= i < n ==> o.instances[i] !in o.refusals
  }

  // An error is reported exactly when the last object has one: whatever went
  // wrong before it, the Security object included, goes unnoticed.
  lemma ErrorReportedIff(s: State, k: nat)
    requires Sorted(s.objects) && k < |s.bootstrapServers| && s.objects != []
    requires forall j :: 0 <= j < |s.objects| ==> WellFormed(s.objects[j])
    ensures var last := s.objects[|s.objects| - 1];
            DeleteAll(s, k).1 != DELETED_2_02 <==>
            if last.id == SECURITY then !Purgeable(last, Own(s, k)) else Fails(last)
  {
    var last := s.objects[|s.objects| - 1];
    DeleteAllIs(s, k);
    if last.id == SECURITY {
      PurgeSucceedsIff(last, Own(s, k), 0, []);
    } else {
      DeletionFailsIff(last);
    }
  }

  lemma DeletionFailsIff(o: Object)
    requires WellFormed(o)
    ensures var code := DeleteObject(o, []).code; code != DELETED_2_02 && code != NOT_ALLOWED_4_05 <==> Fails(o)
  {
    ClearIs(o, []);
    YieldingIs(o, o.instances);
    var n := Yielding(o, o.instances);
    assert n < |o.instances| ==> Refuses(o, n);
    assert forall m :: Refuses(o, m) ==> m == n;
  }

  // Two instances of the Security object remain, no server is marked, and the
  // result still is 2.02.
  lemma UnnoticedFailure()
    ensures var security := Object(0, true, map[7 := 0xA0], [7, 8]);
            var s := State([security, Object(3, false, map[], [0])], [Server(8, false)], [Server(7, false)], []);
            DeleteAll(s, 0) == (s, DELETED_2_02)
  {
    var security := Object(0, true, map[7 := 0xA0], [7, 8]);
    var s := State([security, Object(3, false, map[], [0])], [Server(8, false)], [Server(7, false)], []);
    assert Purge(security, 8, 0, []) == Result(security, [], 0xA0);
    assert s.objects[0 := security] == s.objects && s.objects[1 := s.objects[1]] == s.objects;
    assert DeleteAt(s, 0, 0, DELETED_2_02) == (s, 0xA0);
    assert DeleteAt(s, 0, 1, 0xA0) == (s, DELETED_2_02);
    assert DeleteAllFrom(s, 0, 2, DELETED_2_02) == (s, DELETED_2_02);
  }

  // ----- Marks and deletions agree ------------------------------------------

  // A server that is not marked still has its instance of the Security object,
  // which is the first of the objects.
  ghost predicate Backed(s: State) {
    && s.objects != [] && s.objects[0].id == SECURITY
    && HaveInstances(s.bootstrapServers, s.objects[0].instances)
    && HaveInstances(s.servers, s.objects[0].instances)
  }

  ghost predicate HaveInstances(servers: seq<Server>, instances: seq<uint16>) {
    forall i :: 0 <= i < |servers| && !servers[i].dirty ==> servers[i].id in instances
  }

  // The instances that the purge deletes before one refuses.
  function Lost(o: Object, own: uint16): seq<uint16> {
    var others := Others(o.instances, own);
    if o.deletable then Taken(o, others) else []
  }

  function Taken(o: Object, instances: seq<uint16>): (r: seq<uint16>)
    ensures forall x :: x in r ==> x in instances
  {
    if instances == [] || instances[0] in o.refusals then [] else [instances[0]] + Taken(o, instances[1..])
  }

  lemma {:induction false} SameTaken(a: Object, b: Object, instances: seq<uint16>)
    requires a.refusals == b.refusals
    ensures Taken(a, instances) == Taken(b, instances)
  {
    if instances != [] { SameTaken(a, b, instances[1..]); }
  }

  lemma {:induction false} OthersAre(instances: seq<uint16>, own: uint16)
    ensures forall x :: x in Others(instances, own) <==> x in instances && x != own
  {
    if instances != [] { OthersAre(instances[1..], own); }
  }

  // One deletion takes the first of the instances that get lost.
  lemma LostFirst(o: Object, own: uint16, pos: nat)
    requires pos < |o.instances| && AllOwn(o.instances[..pos], own) && o.instances[pos] != own
    ensures Lost(o, own) ==
            if Refusal(o, o.instances[pos]) == None then [o.instances[pos]] + Lost(WithoutAt(o, pos), own) else []
  {
    OthersWithout(o, own, pos);
    SameTaken(o, WithoutAt(o, pos), Others(WithoutAt(o, pos).instances, own));
  }

  // Whatever refuses, exactly these instances are gone afterwards.
  lemma {:induction false} PurgeLoses(o: Object, own: uint16, pos: nat, log: seq<Event>)
    requires WellFormed(o) && pos <= |o.instances| && AllOwn(o.instances[..pos], own)
    ensures forall x :: x in Purge(o, own, pos, log).o.instances <==> x in o.instances && x !in Lost(o, own)
    decreases |o.instances|, |o.instances| - pos
  {
    if pos == |o.instances| {
      assert o.instances[..pos] + [] == o.instances;
      OthersAfter(o.instances, [], own);
    } else if o.instances[pos] == own {
      assert o.instances[..pos + 1] == o.instances[..pos] + [own];
      PurgeLoses(o, own, pos + 1, log);
    } else {
      LostFirst(o, own, pos);
      if Refusal(o, o.instances[pos]) == None {
        OneLess(o, pos);
        PurgeLoses(WithoutAt(o, pos), own, 0, log + [Deleted(o.id, o.instances[pos])]);
      }
    }
  }

  // The code of the first instance that cannot be deleted: none can in a static
  // object.
  ghost function FirstRefusal(o: Object, instances: seq<uint16>): byte {
    if instances == [] then 0x42
    else if !o.deletable then 0x85
    else if instances[0] in o.refusals then o.refusals[instances[0]]
    else FirstRefusal(o, instances[1..])
  }

  lemma {:induction false} SameRefusal(a: Object, b: Object, instances: seq<uint16>)
    requires a.refusals == b.refusals && a.deletable == b.deletable
    ensures FirstRefusal(a, instances) == FirstRefusal(b, instances)
  {
    if instances != [] { SameRefusal(a, b, instances[1..]); }
  }

  // The purge reports that code.
  lemma {:induction false} PurgeReports(o: Object, own: uint16, pos: nat, log: seq<Event>)
    requires WellFormed(o) && pos <= |o.instances| && AllOwn(o.instances[..pos], own)
    ensures Purge(o, own, pos, log).code == FirstRefusal(o, Others(o.instances, own))
    decreases |o.instances|, |o.instances| - pos
  {
    if pos == |o.instances| {
      assert o.instances[..pos] + [] == o.instances;
      OthersAfter(o.instances, [], own);
    } else if o.instances[pos] == own {
      assert o.instances[..pos + 1] == o.instances[..pos] + [own];
      PurgeReports(o, own, pos + 1, log);
    } else {
      var i := o.instances[pos];
      OthersWithout(o, own, pos);
      if o.deletable && i !in o.refusals {
        OneLess(o, pos);
        PurgeReports(WithoutAt(o, pos), own, 0, log + [Deleted(o.id, i)]);
        SameRefusal(o, WithoutAt(o, pos), Others(WithoutAt(o, pos).instances, own));
      }
    }
  }

  // The requesting server's own instance is never deleted.
  lemma OwnIsKept(o: Object, own: uint16)
    ensures own !in Lost(o, own)
  {
    OthersAre(o.instances, own);
  }

  ghost predicate NoneLost(servers: seq<Server>, lost: seq<uint16>) {
    forall i :: 0 <= i < |servers| && !servers[i].dirty ==> servers[i].id !in lost
  }

  lemma StillThere(servers: seq<Server>, o: Object, own: uint16, log: seq<Event>)
    requires WellFormed(o) && HaveInstances(servers, o.instances)
    ensures HaveInstances(servers, Purge(o, own, 0, log).o.instances) <==> NoneLost(servers, Lost(o, own))
  {
    PurgeLoses(o, own, 0, log);
  }

  // Deleting everything keeps the marks right exactly when the purge gets to
  // its end, or had not yet deleted the instance of an unmarked server when a
  // callback refused: nobody is marked then.
  lemma MarksStayRightIff(s: State, k: nat)
    requires Sorted(s.objects) && k < |s.bootstrapServers| && Backed(s) && WellFormed(s.objects[0])
    ensures var o, own := s.objects[0], Own(s, k);
            Backed(DeleteAll(s, k).0) <==>
            Purgeable(o, own) || (NoneLost(s.bootstrapServers, Lost(o, own)) && NoneLost(s.servers, Lost(o, own)))
  {
    var o, own := s.objects[0], Own(s, k);
    var end := DeleteAll(s, k).0;
    DeleteAllIs(s, k);
    PurgeSucceedsIff(o, own, 0, []);
    OwnIsKept(o, own);
    PurgeLoses(o, own, 0, []);
    assert end.objects[0] == Purge(o, own, 0, []).o;
    if Purgeable(o, own) {
      assert HaveInstances(end.bootstrapServers, end.objects[0].instances);
      assert HaveInstances(end.servers, end.objects[0].instances);
    } else {
      StillThere(s.bootstrapServers, o, own, []);
      StillThere(s.servers, o, own, []);
    }
  }

  // The purge deletes instance 7, and then instance 9 refuses: server 7 is not
  // marked and has no instance any more.
  lemma MarksGoWrong()
    ensures var security := Object(0, true, map[9 := 0xA0], [7, 9, 8]);
            var s := State([security], [Server(8, false)], [Server(7, false), Server(9, false)], []);
            Backed(s) && !Backed(DeleteAll(s, 0).0)
  {
    var security := Object(0, true, map[9 := 0xA0], [7, 9, 8]);
    var s := State([security], [Server(8, false)], [Server(7, false), Server(9, false)], []);
    assert [7, 9, 8][1..] == [9, 8];
    assert Others([7, 9, 8], 8) == [7] + Others([9, 8], 8);
    assert 7 in Lost(security, 8);
    assert s.servers[0].id in Lost(security, 8);
    assert 9 in security.instances && Refusal(security, 9) == Some(0xA0);
    MarksStayRightIff(s, 0);
  }

  // A server is known to one list only, and once.
  ghost predicate DistinctServers(s: State) {
    && Distinct(s.bootstrapServers) && Distinct(s.servers)
    && forall i, j :: 0 <= i < |s.bootstrapServers| && 0 <= j < |s.servers| ==>
         s.bootstrapServers[i].id != s.servers[j].id
  }

  ghost predicate Distinct(servers: seq<Server>) {
    forall i, j :: 0 <= i < j < |servers| ==> servers[i].id != servers[j].id
  }

  // Every DELETE but the one of the whole Security object keeps the marks
  // right, whatever the callbacks answer.
  lemma DeleteKeepsMarks(s: State, k: nat, p: Path)
    requires Sorted(s.objects) && k < |s.bootstrapServers| && Backed(s) && DistinctServers(s)
    requires p.objectId != SECURITY || p.instanceId != None
    ensures Backed(Delete(s, k, p).0)
  {
    var end := Delete(s, k, p).0;
    var i := Index(ObjectIds(s.objects), p.objectId);
    if i < |s.objects| && !p.resource {
      assert s.objects[i].id == p.objectId;
      if p.objectId == SECURITY {
        assert i == 0;
        TagFits(s, p.instanceId.value);
      } else {
        assert end.objects[0] == s.objects[0];
      }
    }
  }

  lemma TagFits(s: State, id: uint16)
    requires Backed(s) && DistinctServers(s)
    ensures var r := DeleteInstance(s.objects[0], id, s.log);
            var s1 := Put(s, 0, r);
            Backed(if r.code == DELETED_2_02 then TagOne(s1, id) else s1)
  {
    var o := s.objects[0];
    var r := DeleteInstance(o, id, s.log);
    if r.o != o {
      var n := Index(o.instances, id);
      assert o.instances == o.instances[..n] + [id] + o.instances[n + 1..];
      assert forall x :: x in o.instances && x != id ==> x in r.o.instances;
    }
  }

  // Deleting the Security object does to it and to the marks what deleting
  // everything does, and tells its own outcome.
  lemma SecurityAlone(s: State, k: nat)
    requires Sorted(s.objects) && k < |s.bootstrapServers| && Backed(s)
    ensures var (a, code) := Delete(s, k, Path(SECURITY, None, false)); var b := DeleteAll(s, k).0;
            && |a.objects| == |b.objects| == |s.objects| && a.objects[0] == b.objects[0] && a.objects[1..] == s.objects[1..]
            && a.bootstrapServers == b.bootstrapServers && a.servers == b.servers
            && (WellFormed(s.objects[0]) ==> (code == DELETED_2_02 <==> Purgeable(s.objects[0], Own(s, k))))
  {
    assert Index(ObjectIds(s.objects), SECURITY) == 0;
    DeleteAtIs(s, k, 0, DELETED_2_02);
    DeleteAllIs(s, k);
    if WellFormed(s.objects[0]) { PurgeSucceedsIff(s.objects[0], Own(s, k), 0, []); }
  }

  // ----- The answers to a DELETE --------------------------------------------

  ghost predicate Known(s: State, id: uint16) { exists i :: 0 <= i < |s.objects| && s.objects[i].id == id }

  // A path with a resource, or to an object that is not there, changes nothing.
  lemma RefusedPaths(s: State, k: nat, p: Path)
    requires k < |s.bootstrapServers|
    ensures p.resource ==> Delete(s, k, p) == (s, 0x80)
    ensures !p.resource && !Known(s, p.objectId) ==>
              Delete(s, k, p) == (s, if p.objectId == 0 && p.instanceId == None then 0x42 else 0x84)
  {
    var i := Index(ObjectIds(s.objects), p.objectId);
    if i < |s.objects| { assert s.objects[i].id == p.objectId; }
  }

  // Deleting one instance: it goes, or the reason why it does not is the
  // answer, and nothing else changes.
  lemma InstanceDecides(o: Object, id: uint16, log: seq<Event>)
    requires WellFormed(o)
    ensures var r := DeleteInstance(o, id, log);
            && r.o == o.(instances := r.o.instances)
            && (if !o.deletable then r == Result(o, log, 0x85)
                else if id !in o.instances then r == Result(o, log, 0x84)
                else if id in o.refusals then r == Result(o, log, o.refusals[id])
                else
                  && r.code == 0x42 && r.log == log + [Deleted(o.id, id)]
                  && forall x :: x in r.o.instances <==> x in o.instances && x != id)
  {
    var n := Index(o.instances, id);
    if n < |o.instances| { OneLess(o, n); }
  }

  // Deleting an instance by its path: the object with the id is changed as
  // above, the others are not, and only for the Security object a server is
  // marked.
  lemma InstancePath(s: State, k: nat, j: nat, id: uint16)
    requires Sorted(s.objects) && k < |s.bootstrapServers| && j < |s.objects|
    ensures var (end, code) := Delete(s, k, Path(s.objects[j].id, Some(id), false));
            var r := DeleteInstance(s.objects[j], id, s.log);
            && code == r.code && end.objects == s.objects[j := r.o] && end.log == r.log
            && (s.objects[j].id != 0 || code != 0x42 ==>
                  end.bootstrapServers == s.bootstrapServers && end.servers == s.servers)
  {
    At(s, j);
  }

  lemma At(s: State, j: nat)
    requires Sorted(s.objects) && j < |s.objects|
    ensures Index(ObjectIds(s.objects), s.objects[j].id) == j
  {
    var i := Index(ObjectIds(s.objects), s.objects[j].id);
    assert i < |s.objects| ==> s.objects[i].id == s.objects[j].id;
  }

  // Deleting a whole object other than the Security one, by its path: the
  // answer for a static one is 4.05.
  lemma ObjectPath(s: State, k: nat, j: nat)
    requires Sorted(s.objects) && k < |s.bootstrapServers| && j < |s.objects| && s.objects[j].id != 0
    requires WellFormed(s.objects[j])
    ensures var (end, code) := Delete(s, k, Path(s.objects[j].id, None, false));
            && end.bootstrapServers == s.bootstrapServers && end.servers == s.servers
            && |end.objects| == |s.objects|
            && (forall i :: 0 <= i < |s.objects| && i != j ==> end.objects[i] == s.objects[i])
            && (!s.objects[j].deletable ==> code == 0x85 && end == s)
            && (s.objects[j].deletable && Willing(s.objects[j]) ==>
                  code == 0x42 && end.objects[j] == s.objects[j].(instances := []) &&
                  end.log == s.log + Deletions(s.objects[j].id, s.objects[j].instances))
  {
    At(s, j);
    var o := s.objects[j];
    ClearIs(o, s.log);
    YieldingIs(o, o.instances);
    assert o.instances[|o.instances|..] == [] && o.instances[..|o.instances|] == o.instances;
    assert s.objects[j := o] == s.objects;
  }

  // Which server is marked when a Security instance goes: the bootstrap server
  // it belongs to, or else the server.
  lemma MarkIs(s: State, id: uint16)
    requires DistinctServers(s)
    ensures var end := TagOne(s, id);
            && end.objects == s.objects && end.log == s.log
            && |end.bootstrapServers| == |s.bootstrapServers| && |end.servers| == |s.servers|
            && (forall i :: 0 <= i < |s.bootstrapServers| ==>
                  end.bootstrapServers[i] == if s.bootstrapServers[i].id == id
                                             then s.bootstrapServers[i].(dirty := true) else s.bootstrapServers[i])
            && (forall i :: 0 <= i < |s.servers| ==>
                  end.servers[i] == if s.servers[i].id == id then s.servers[i].(dirty := true) else s.servers[i])
  {
    var b, n := Index(ServerIds(s.bootstrapServers), id), Index(ServerIds(s.servers), id);
    assert forall i :: 0 <= i < |s.bootstrapServers| ==> ServerIds(s.bootstrapServers)[i] == s.bootstrapServers[i].id;
    assert forall i :: 0 <= i < |s.servers| ==> ServerIds(s.servers)[i] == s.servers[i].id;
  }
}
