// How long a registration lasts, and what requests change of it.
module RegistryLaws {
  import opened Common
  import opened SortedList
  import opened LinkFormat
  import opened LinkParser
  import opened Registry

  // ----- One request --------------------------------------------------------

  lemma Admitted(s: State, now: int, session: nat, p: Post)
    requires HandlePost(s, None, false, now, session, p).1 == CREATED_2_01
    ensures p.name.Some?
    ensures HandlePost(s, None, false, now, session, p).0 ==
            Admit(s, now, session, p.name.value, if p.lifetime == 0 then 86400 else p.lifetime, Objects(p.payload))
  {
  }

  lemma AdmitNew(s: State, now: int, session: nat, name: string, lifetime: nat, objects: seq<Entry>)
    requires forall i :: 0 <= i < |s.clients| ==> s.clients[i].name != name
    ensures var c := Client(NewId(s.clients, ClientId), name, session, lifetime, now + lifetime, objects, []);
            Admit(s, now, session, name, lifetime, objects) ==
            State(Add(s.clients, ClientId, c), s.log + [Monitored(c.id, CREATED_2_01)])
  {
    NameAtIs(s.clients, name);
  }

  // A Register that is accepted makes a known client what it says; id, name and
  // observations stay.
  lemma RegisterKnown(s: State, now: int, session: nat, p: Post, k: nat)
    requires Inv(s.clients) && k < |s.clients| && p.name == Some(s.clients[k].name)
    requires HandlePost(s, None, false, now, session, p).1 == CREATED_2_01
    ensures var lifetime := if p.lifetime == 0 then 86400 else p.lifetime;
            var c := s.clients[k].(session := session, lifetime := lifetime, endOfLife := now + lifetime,
                                   objects := Objects(p.payload));
            HandlePost(s, None, false, now, session, p).0 ==
            State(s.clients[k := c], s.log + [Monitored(c.id, CREATED_2_01)])
  {
    Admitted(s, now, session, p);
    NamedAt(s.clients, k);
  }

  lemma NamedAt(clients: seq<Client>, k: nat)
    requires Inv(clients) && k < |clients|
    ensures NameAt(clients, clients[k].name) == k
  {
    NameAtIs(clients, clients[k].name);
  }

  // A new name gets the smallest free id and no observations.
  lemma RegisterNew(s: State, now: int, session: nat, p: Post)
    requires p.name.Some? && forall i :: 0 <= i < |s.clients| ==> s.clients[i].name != p.name.value
    requires HandlePost(s, None, false, now, session, p).1 == CREATED_2_01
    ensures var lifetime := if p.lifetime == 0 then 86400 else p.lifetime;
            var c := Client(NewId(s.clients, ClientId), p.name.value, session, lifetime, now + lifetime,
                            Objects(p.payload), []);
            HandlePost(s, None, false, now, session, p).0 ==
            State(Add(s.clients, ClientId, c), s.log + [Monitored(c.id, CREATED_2_01)])
  {
    Admitted(s, now, session, p);
    AdmitNew(s, now, session, p.name.value, if p.lifetime == 0 then 86400 else p.lifetime, Objects(p.payload));
  }

  // The reasons to refuse a Register.
  lemma RegisterRefusals(s: State, now: int, session: nat, p: Post)
    ensures var (end, code) := HandlePost(s, None, false, now, session, p);
            var complete := p.readable && p.linkFormat && p.version != NoVersion && p.name.Some? && Heeded(p.payload);
            && (code == PRECONDITION_FAILED_4_12 <==> complete && p.version == Unsupported)
            && (code == BAD_REQUEST_4_00 <==> !complete)
  {
    HeededIff(p.payload);
  }

  // The reasons to refuse an Update or a Deregister.
  lemma UpdateRefusals(s: State, id: uint16, instanceSet: bool, now: int, session: nat, p: Post)
    requires StrictlySorted(s.clients, ClientId)
    ensures var code := HandlePost(s, Some(id), instanceSet, now, session, p).1;
            && (code == NOT_FOUND_4_04 <==>
                  p.readable && p.linkFormat && !instanceSet && forall c :: c in s.clients ==> c.id != id)
            && code in {CHANGED_2_04, BAD_REQUEST_4_00, NOT_FOUND_4_04}
  {
    FindIsMembership(s.clients, ClientId, id);
    var n := Below(s.clients, ClientId, id);
    if n < |s.clients| { assert s.clients[n] in s.clients; }
    forall c | c in s.clients ensures c.id == id ==> HasKey(s.clients, ClientId, id) {
      var k :| 0 <= k < |s.clients| && s.clients[k] == c;
      assert c.id == id ==> ClientId(s.clients[k]) == id;
    }
  }

  lemma DeregisterDecides(s: State, uri: Option<uint16>, instanceSet: bool)
    requires StrictlySorted(s.clients, ClientId)
    ensures var (end, code) := HandleDelete(s, uri, instanceSet);
            if uri.Some? && !instanceSet && exists c :: c in s.clients && c.id == uri.value then
              && code == DELETED_2_02 && end.log == s.log + [Monitored(uri.value, DELETED_2_02)]
              && forall c :: c in end.clients <==> c in s.clients && c.id != uri.value
            else code == BAD_REQUEST_4_00 && end == s
  {
    if uri.Some? {
      var id := uri.value;
      FindIsMembership(s.clients, ClientId, id);
      var n := Below(s.clients, ClientId, id);
      if n < |s.clients| && s.clients[n].id == id {
        RemoveMeans(s.clients, n);
      }
    }
  }

  lemma RemoveMeans(clients: seq<Client>, n: nat)
    requires StrictlySorted(clients, ClientId) && n < |clients|
    ensures forall c :: c in clients[..n] + clients[n + 1..] <==> c in clients && c.id != clients[n].id
  {
    var r := clients[..n] + clients[n + 1..];
    forall c ensures c in r <==> c in clients && c.id != clients[n].id {
      if c in clients && c.id != clients[n].id { StaysIn(clients, n, c); }
      if c in r { WasIn(clients, n, c); }
    }
  }

  lemma StaysIn(clients: seq<Client>, n: nat, c: Client)
    requires n < |clients| && c in clients && c.id != clients[n].id
    ensures c in clients[..n] + clients[n + 1..]
  {
    var k :| 0 <= k < |clients| && clients[k] == c;
    assert (clients[..n] + clients[n + 1..])[if k < n then k else k - 1] == c;
  }

  lemma WasIn(clients: seq<Client>, n: nat, c: Client)
    requires StrictlySorted(clients, ClientId) && n < |clients| && c in clients[..n] + clients[n + 1..]
    ensures c in clients && c.id != clients[n].id
  {
    var r := clients[..n] + clients[n + 1..];
    var k :| 0 <= k < |r| && r[k] == c;
    var j := if k < n then k else k + 1;
    assert clients[j] == c;
    IdsDiffer(clients, j, n);
  }

  // ----- The lease ----------------------------------------------------------

  // A registration lasts for its lifetime from the last accepted Register or
  // Update on.
  datatype Lease = Lease(from: int, lifetime: nat)

  function End(l: Lease): int { l.from + l.lifetime }

  ghost predicate Leased(s: State, id: uint16, name: string, l: Lease) {
    exists c :: c in s.clients && c.id == id && c.name == name && c.lifetime == l.lifetime && c.endOfLife == End(l)
  }

  // What a request or a step does to the lease of a client, by the request and
  // its answer alone.
  ghost function Renewal(s: State, a: Act, id: uint16, name: string, l: Lease): Lease {
    match a
    case Posted(uri, instanceSet, now, session, p) =>
      var code := HandlePost(s, uri, instanceSet, now, session, p).1;
      if uri == None && p.name == Some(name) && code == CREATED_2_01 then
        Lease(now, if p.lifetime == 0 then 86400 else p.lifetime)
      else if uri == Some(id) && code == CHANGED_2_04 then
        Lease(now, if p.lifetime == 0 then l.lifetime else p.lifetime)
      else l
    case Deleted(_, _) => l
    case Stepped(_, _) => l
  }

  // A Deregister of the client, or a step at or after the end of its lease.
  ghost predicate Terminates(a: Act, id: uint16, l: Lease) {
    match a
    case Posted(_, _, _, _, _) => false
    case Deleted(uri, instanceSet) => uri == Some(id) && !instanceSet
    case Stepped(now, _) => End(l) <= now
  }

  lemma RegisterRenews(s: State, now: int, session: nat, p: Post, k: nat)
    requires Inv(s.clients) && Fits(s.clients, None, p) && k < |s.clients|
    ensures var c := s.clients[k];
            Leased(HandlePost(s, None, false, now, session, p).0, c.id, c.name,
                   Renewal(s, Posted(None, false, now, session, p), c.id, c.name, LeaseOf(c)))
  {
    var c := s.clients[k];
    var (end, code) := HandlePost(s, None, false, now, session, p);
    if code == CREATED_2_01 {
      Admitted(s, now, session, p);
      AdmitRenews(s, now, session, p.name.value, if p.lifetime == 0 then 86400 else p.lifetime, Objects(p.payload), k);
    } else {
      assert c in end.clients;
    }
  }

  lemma AdmitRenews(s: State, now: int, session: nat, name: string, lifetime: nat, objects: seq<Entry>, k: nat)
    requires Inv(s.clients) && k < |s.clients|
    ensures var c := s.clients[k];
            Leased(Admit(s, now, session, name, lifetime, objects), c.id, c.name,
                   if name == c.name then Lease(now, lifetime) else LeaseOf(c))
  {
    var c := s.clients[k];
    var end := Admit(s, now, session, name, lifetime, objects);
    var n := NameAt(s.clients, name);
    NameAtIs(s.clients, name);
    if n < |s.clients| {
      if name == c.name { NamedAt(s.clients, k); }
      assert end.clients[k] in end.clients;
    } else {
      AdmitNew(s, now, session, name, lifetime, objects);
      AddContents(s.clients, ClientId, Client(NewId(s.clients, ClientId), name, session, lifetime, now + lifetime,
                                              objects, []));
      assert c in end.clients;
    }
  }

  lemma UpdateRenews(s: State, id: uint16, instanceSet: bool, now: int, session: nat, p: Post, k: nat)
    requires Inv(s.clients) && k < |s.clients|
    ensures var c := s.clients[k]; var end := HandlePost(s, Some(id), instanceSet, now, session, p).0;
            && Leased(end, c.id, c.name,
                      Renewal(s, Posted(Some(id), instanceSet, now, session, p), c.id, c.name,
                              LeaseOf(c)))
            && |end.clients| == |s.clients|
            && (HandlePost(s, Some(id), instanceSet, now, session, p).1 == CHANGED_2_04 && c.id == id ==>
                  end.clients[k].session == session)
  {
    var c := s.clients[k];
    var (end, code) := HandlePost(s, Some(id), instanceSet, now, session, p);
    if code == CHANGED_2_04 {
      var n := Below(s.clients, ClientId, id);
      if n != k { IdsDiffer(s.clients, n, k); }
      assert end.clients[k] in end.clients;
    } else {
      assert c in end.clients;
    }
  }

  lemma OthersKeepLease(s: State, a: Act, k: nat)
    requires Inv(s.clients) && k < |s.clients| && !a.Posted?
    ensures var c := s.clients[k]; var l := LeaseOf(c);
            !Terminates(a, c.id, l) ==> Leased(Step(s, a), c.id, c.name, l)
  {
    var c := s.clients[k];
    var l := LeaseOf(c);
    if !Terminates(a, c.id, l) {
      match a
      case Deleted(uri, instanceSet) => DeregisterDecides(s, uri, instanceSet);
      case Stepped(now, timeout) =>
        StepExpires(s, now, timeout);
        AliveIs(s.clients, now);
      assert c in Step(s, a).clients;
    }
  }

  // A client is gone after a request or a step exactly when this terminates it;
  // otherwise its lease is what the request made of it.
  lemma GoneIff(s: State, a: Act, id: uint16, name: string, l: Lease)
    requires Inv(s.clients) && (a.Posted? ==> Fits(s.clients, a.uri, a.post)) && Leased(s, id, name, l)
    ensures Registered(Step(s, a).clients, id, name) <==> !Terminates(a, id, l)
    ensures !Terminates(a, id, l) ==> Leased(Step(s, a), id, name, Renewal(s, a, id, name, l))
  {
    var c :| c in s.clients && c.id == id && c.name == name && c.lifetime == l.lifetime && c.endOfLife == End(l);
    var k :| 0 <= k < |s.clients| && s.clients[k] == c;
    assert l == LeaseOf(c);
    GoneAtIff(s, a, k);
  }

  function LeaseOf(c: Client): Lease { Lease(c.endOfLife - c.lifetime, c.lifetime) }

  lemma GoneAtIff(s: State, a: Act, k: nat)
    requires Inv(s.clients) && (a.Posted? ==> Fits(s.clients, a.uri, a.post)) && k < |s.clients|
    ensures var c := s.clients[k];
            && (Registered(Step(s, a).clients, c.id, c.name) <==> !Terminates(a, c.id, LeaseOf(c)))
            && (!Terminates(a, c.id, LeaseOf(c)) ==>
                  Leased(Step(s, a), c.id, c.name, Renewal(s, a, c.id, c.name, LeaseOf(c))))
  {
    var c := s.clients[k];
    assert Ends(c, a) <==> Terminates(a, c.id, LeaseOf(c));
    LeavesIff(s, a, c);
    if a.Posted? { PostRenews(s, a, k); } else { OthersKeepLease(s, a, k); }
  }

  lemma PostRenews(s: State, a: Act, k: nat)
    requires Inv(s.clients) && a.Posted? && Fits(s.clients, a.uri, a.post) && k < |s.clients|
    ensures var c := s.clients[k]; var l := LeaseOf(c);
            Leased(Step(s, a), c.id, c.name, Renewal(s, a, c.id, c.name, l))
  {
    if a.uri == None {
      RegisterRenews(s, a.now, a.session, a.post, k);
    } else {
      UpdateRenews(s, a.uri.value, a.instanceSet, a.now, a.session, a.post, k);
    }
  }

  // The lease after a run, as long as nothing in it terminates the client.
  ghost predicate Lasts(s: State, acts: seq<Act>, id: uint16, name: string, l: Lease, last: Lease)
    decreases |acts|
  {
    if acts == [] then last == l
    else
      && StrictlySorted(s.clients, ClientId) && !Terminates(acts[0], id, l)
      && Lasts(Step(s, acts[0]), acts[1..], id, name, Renewal(s, acts[0], id, name, l), last)
  }

  // Over every run: a client is there as long as no Deregister and no step after
  // the end of its lease has come, and is gone with the first of them. The
  // lease runs from the last accepted Register or Update for the lifetime then
  // in force.
  lemma {:induction false} LeaseDecides(
    s: State, acts: seq<Act>, mid: State, a: Act, id: uint16, name: string, l: Lease, last: Lease)
    requires Inv(s.clients) && Reaches(s, acts, mid) && Leased(s, id, name, l) && Lasts(s, acts, id, name, l, last)
    requires a.Posted? ==> Fits(mid.clients, a.uri, a.post)
    ensures Inv(mid.clients) && Leased(mid, id, name, last)
    ensures Registered(Step(mid, a).clients, id, name) <==> !Terminates(a, id, last)
    decreases |acts|
  {
    if acts == [] {
      GoneIff(s, a, id, name, l);
    } else {
      GoneIff(s, acts[0], id, name, l);
      StepKeeps(s, acts[0]);
      LeaseDecides(Step(s, acts[0]), acts[1..], mid, a, id, name, Renewal(s, acts[0], id, name, l), last);
    }
  }

  // An Update that is accepted is in force at once.
  lemma UpdateDecides(s: State, id: uint16, now: int, session: nat, p: Post)
    requires Inv(s.clients) && HandlePost(s, Some(id), false, now, session, p).1 == CHANGED_2_04
    ensures var n := Below(s.clients, ClientId, id); var end := HandlePost(s, Some(id), false, now, session, p).0;
            n < |s.clients| && |end.clients| == |s.clients| &&
            var c, d := s.clients[n], end.clients[n];
            var lifetime := if p.lifetime == 0 then c.lifetime else p.lifetime;
            && c.id == id && d.id == id && d.name == c.name && d.session == session
            && d.lifetime == lifetime && d.endOfLife == now + lifetime
  {
  }
}
