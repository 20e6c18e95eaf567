// SenML records (RFC 8428) grouped into a tree of objects, instances and
// resources (wakaama/data/senml_common.c, wakaama/data/data.c).
module Senml {
  import opened Common

  datatype Kind = ObjectKind | InstanceKind | MultipleKind

  // A leaf without a value is an item whose type is still undefined.
  datatype Data<V> =
    | Leaf(id: uint16, value: Option<V>)
    | Group(id: uint16, kind: Kind, children: seq<Data<V>>)

  // What a record holds: a value, none at all, or one that cannot be converted.
  datatype Held<V> = Plain(v: V) | Absent | Refused

  // MAX_ID stands for an id that is not set.
  datatype Record<V> = Record(ids: (uint16, uint16, uint16, uint16), held: Held<V>)

  // ----- The code -----------------------------------------------------------

  predicate Typed<V>(d: Data<V>) { d.Group? || d.value.Some? }

  // senml_findDataItem; the length of the list when there is none.
  function FindItem<V>(list: seq<Data<V>>, id: uint16): (n: nat)
    ensures n <= |list| && (n < |list| ==> list[n].id == id && Typed(list[n]))
  {
    if list == [] || (Typed(list[0]) && list[0].id == id) then 0 else 1 + FindItem(list[1..], id)
  }

  function IdAt<V>(r: Record<V>, level: nat): uint16
    requires level < 4
  {
    match level
    case 0 => r.ids.0
    case 1 => r.ids.1
    case 2 => r.ids.2
    case 3 => r.ids.3
  }

  // A new item at a level: the type comes with the depth, below instances it
  // is not known yet.
  function Fresh<V>(level: nat, id: uint16): (d: Data<V>)
    ensures d.id == id
  {
    if level == 0 && id != MAX_ID then Group(id, ObjectKind, [])
    else if level == 1 then Group(id, InstanceKind, [])
    else Leaf(id, None)
  }

  // The value of a record put into an item. Overwriting a value is not part
  // of this model.
  function SetValue<V>(d: Data<V>, held: Held<V>): Option<Data<V>> {
    match held
    case Refused => None
    case Plain(v) => Some(Leaf(d.id, Some(v)))
    case Absent => if d.Group? then Some(Group(d.id, d.kind, [])) else if d.value == None then Some(d) else None
  }

  // The level below an item that the ids of the record lead to, if any. A
  // resource instance makes its item a multiple resource.
  function NextLevel<V>(r: Record<V>, level: nat): nat
    requires level < 4
  {
    if level == 0 then if r.ids.1 != MAX_ID then 1 else 4
    else if level == 1 && r.ids.2 != MAX_ID then 2
    else if level < 3 && r.ids.3 != MAX_ID then 3
    else 4
  }

  // The item as a container for the next level. None stands for children
  // added to a value, or to an item without a type.
  function AsGroup<V>(d: Data<V>, next: nat): Option<Data<V>> {
    if d.Group? then Some(if next == 3 then d.(kind := MultipleKind) else d)
    else if d.value == None && next == 3 then Some(Group(d.id, MultipleKind, []))
    else None
  }

  // One record added below a list of items at `level`. A resource instance is
  // always added, other items are looked up first.
  function Insert<V>(list: seq<Data<V>>, level: nat, r: Record<V>): Option<seq<Data<V>>>
    requires level < 4
    decreases 4 - level
  {
    var id := IdAt(r, level);
    var n := if level == 3 then |list| else FindItem(list, id);
    var d := if n < |list| then list[n] else Fresh(level, id);
    var next := NextLevel(r, level);
    var e :- if next == 4 || next <= level then SetValue(d, r.held) else InsertBelow(d, next, level, r);
    Some(if n < |list| then list[n := e] else list + [e])
  }

  function InsertBelow<V>(d: Data<V>, next: nat, level: nat, r: Record<V>): Option<Data<V>>
    requires level < next < 4
    decreases 4 - level, 0
  {
    var g :- AsGroup(d, next);
    var children :- Insert(g.children, next, r);
    Some(g.(children := children))
  }

  // prv_convertRecord
  function Convert<V>(records: seq<Record<V>>, root: seq<Data<V>>): Option<seq<Data<V>>>
    decreases records
  {
    if records == [] then Some(root)
    else
      var root' :- Insert(root, 0, records[0]);
      Convert(records[1..], root')
  }

  // senml_dataStrip
  function Strip<V>(list: seq<Data<V>>): seq<Data<V>>
    decreases list, 1
  {
    if list == [] then [] else [StripOne(list[0])] + Strip(list[1..])
  }

  function StripOne<V>(d: Data<V>): Data<V>
    decreases d, 0
  {
    match d
    case Leaf(_, _) => d
    case Group(id, kind, children) => if children == [] then d else Group(id, kind, Strip(children))
  }

  // ----- What the tree means ------------------------------------------------

  // The first item with an id, whatever its type.
  function IndexOf<V>(list: seq<Data<V>>, id: uint16): (n: nat)
    ensures n <= |list| && (n < |list| ==> list[n].id == id)
    ensures forall i :: 0 <= i < n ==> list[i].id != id
  {
    if list == [] || list[0].id == id then 0
    else
      assert forall i :: 0 < i < |list| ==> list[i] == list[1..][i - 1];
      1 + IndexOf(list[1..], id)
  }

  // The value at a path: None when there is no such leaf.
  function Lookup<V>(list: seq<Data<V>>, path: seq<uint16>): Option<Option<V>>
    decreases path
  {
    if path == [] then None
    else
      var n := IndexOf(list, path[0]);
      if n == |list| then None
      else
        match list[n]
        case Leaf(_, value) => if |path| == 1 then Some(value) else None
        case Group(_, _, children) => Lookup(children, path[1..])
  }

  // ----- Well-formed trees --------------------------------------------------

  ghost predicate DistinctIds<V>(list: seq<Data<V>>) {
    forall i, j :: 0 <= i < j < |list| ==> list[i].id != list[j].id
  }

  ghost predicate WellFormed<V>(list: seq<Data<V>>, level: nat)
    requires level < 4
    decreases 4 - level, 1
  {
    DistinctIds(list) && forall i :: 0 <= i < |list| ==> ItemAt(list[i], level)
  }

  ghost predicate ItemAt<V>(d: Data<V>, level: nat)
    requires level < 4
    decreases 4 - level, 0
  {
    match level
    case 0 => d.Group? && d.kind == ObjectKind && d.children != [] && WellFormed(d.children, 1)
    case 1 => d.Group? && d.kind == InstanceKind && d.children != [] && WellFormed(d.children, 2)
    case 2 => d.Group? ==> d.kind == MultipleKind && d.children != [] && WellFormed(d.children, 3)
    case 3 => d.Leaf?
  }

  // A record of a resource or a resource instance, whose value can be
  // converted.
  ghost predicate Valid<V>(r: Record<V>) {
    r.ids.0 != MAX_ID && r.ids.1 != MAX_ID && r.ids.2 != MAX_ID && r.held != Refused
  }

  function ValueOf<V>(r: Record<V>): Option<V> {
    match r.held
    case Plain(v) => Some(v)
    case Absent | Refused => None
  }

  function PathFrom<V>(r: Record<V>, level: nat): (p: seq<uint16>)
    requires level < 4
    ensures p != [] && p[0] == IdAt(r, level)
    decreases 4 - level
  {
    [IdAt(r, level)] + if level == 3 || (level == 2 && r.ids.3 == MAX_ID) then [] else PathFrom(r, level + 1)
  }

  // Nothing in the list lies on the path, above or below its end.
  ghost predicate Clear<V>(list: seq<Data<V>>, path: seq<uint16>) {
    forall q :: Lookup(list, q).Some? ==> !(q <= path) && !(path <= q)
  }

  // Every list that is not empty has a leaf.
  lemma {:induction false} HasLeaf<V>(list: seq<Data<V>>, level: nat) returns (q: seq<uint16>)
    requires level < 4 && WellFormed(list, level) && list != []
    ensures q != [] && q[0] == list[0].id && Lookup(list, q).Some?
    decreases 4 - level
  {
    assert ItemAt(list[0], level);
    if list[0].Leaf? {
      q := [list[0].id];
    } else {
      var below := HasLeaf(list[0].children, level + 1);
      q := [list[0].id] + below;
      assert q[1..] == below;
    }
  }

  lemma {:induction false} IndexIs<V>(list: seq<Data<V>>, n: nat)
    requires DistinctIds(list) && n < |list|
    ensures IndexOf(list, list[n].id) == n
  {
    var k := IndexOf(list, list[n].id);
  }

  lemma BelowItem<V>(list: seq<Data<V>>, n: nat, q: seq<uint16>)
    requires DistinctIds(list) && n < |list| && list[n].Group?
    ensures Lookup(list, [list[n].id] + q) == Lookup(list[n].children, q)
  {
    IndexIs(list, n);
    assert ([list[n].id] + q)[1..] == q;
  }

  lemma PrefixCons(x: uint16, q: seq<uint16>, rest: seq<uint16>)
    ensures [x] + q <= [x] + rest <==> q <= rest
  {
    assert ([x] + q)[1..] == q && ([x] + rest)[1..] == rest;
  }

  // On a clear path an existing item is a group the path leads through.
  lemma ClearItem<V>(list: seq<Data<V>>, level: nat, n: nat, path: seq<uint16>)
    requires level < 4 && WellFormed(list, level) && n < |list| && path != [] && list[n].id == path[0]
    requires Clear(list, path)
    ensures list[n].Group? && |path| > 1 && Clear(list[n].children, path[1..])
  {
    var d := list[n];
    var rest := path[1..];
    assert path == [d.id] + rest;
    IndexIs(list, n);
    assert ItemAt(d, level);
    var q := [];
    if d.Group? {
      q := HasLeaf(d.children, level + 1);
      BelowItem(list, n, q);
    }
    var p := [d.id] + q;
    assert Lookup(list, p).Some?;
    PrefixCons(d.id, q, rest);
    PrefixCons(d.id, rest, q);
    if d.Group? {
      forall b | Lookup(d.children, b).Some? ensures !(b <= rest) && !(rest <= b) {
        BelowItem(list, n, b);
        PrefixCons(d.id, b, rest);
        PrefixCons(d.id, rest, b);
      }
    }
  }

  // ----- One record ---------------------------------------------------------

  // The list after the insertion holds the new leaf and everything it held.
  ghost predicate Adds<V>(list: seq<Data<V>>, after: seq<Data<V>>, path: seq<uint16>, value: Option<V>) {
    forall p :: Lookup(after, p) == if p == path then Some(value) else Lookup(list, p)
  }

  lemma ReplaceAdds<V>(list: seq<Data<V>>, n: nat, children: seq<Data<V>>, path: seq<uint16>, value: Option<V>)
    requires DistinctIds(list) && n < |list| && list[n].Group? && |path| > 1 && path[0] == list[n].id
    requires Adds(list[n].children, children, path[1..], value)
    ensures Adds(list, list[n := list[n].(children := children)], path, value)
    ensures DistinctIds(list[n := list[n].(children := children)])
  {
    var d := list[n];
    var r := list[n := d.(children := children)];
    forall p ensures Lookup(r, p) == if p == path then Some(value) else Lookup(list, p) {
      if p != [] {
        var k := IndexOf(list, p[0]);
        assert IndexOf(r, p[0]) == k by { SameIndex(list, r, p[0]); }
        if k == n {
          assert p == [p[0]] + p[1..] && path == [path[0]] + path[1..];
        }
      }
    }
  }

  lemma {:induction false} SameIndex<V>(a: seq<Data<V>>, b: seq<Data<V>>, id: uint16)
    requires |a| == |b| && forall i :: 0 <= i < |a| ==> a[i].id == b[i].id
    ensures IndexOf(a, id) == IndexOf(b, id)
  {
  }

  lemma AppendAdds<V>(list: seq<Data<V>>, d: Data<V>, path: seq<uint16>, value: Option<V>)
    requires DistinctIds(list) && path != [] && d.id == path[0] && IndexOf(list, d.id) == |list|
    requires if d.Leaf? then |path| == 1 && d.value == value else |path| > 1 && Adds([], d.children, path[1..], value)
    ensures DistinctIds(list + [d]) && Adds(list, list + [d], path, value)
  {
    forall p ensures Lookup(list + [d], p) == if p == path then Some(value) else Lookup(list, p) {
      if p != [] {
        IndexAppend(list, d, p[0]);
        if p[0] == d.id { LookupLast(list, d, path, value, p); }
      }
    }
  }

  lemma LookupLast<V>(list: seq<Data<V>>, d: Data<V>, path: seq<uint16>, value: Option<V>, p: seq<uint16>)
    requires path != [] && p != [] && d.id == path[0] == p[0] && IndexOf(list, d.id) == |list|
    requires if d.Leaf? then |path| == 1 && d.value == value else |path| > 1 && Adds([], d.children, path[1..], value)
    ensures Lookup(list + [d], p) == (if p == path then Some(value) else None) && Lookup(list, p) == None
  {
    IndexAppend(list, d, p[0]);
    assert p == [p[0]] + p[1..] && path == [path[0]] + path[1..];
    assert Lookup<V>([], p[1..]) == None;
  }

  lemma IndexAppend<V>(list: seq<Data<V>>, d: Data<V>, id: uint16)
    ensures var k := IndexOf(list, id);
            IndexOf(list + [d], id) == if k < |list| then k else if d.id == id then k else k + 1
  {
    var r := list + [d];
    var m := IndexOf(r, id);
    assert forall i :: 0 <= i < |list| ==> r[i] == list[i];
    assert r[|list|] == d;
  }

  // On a clear path the lookup of an id finds the group with it, or nothing.
  lemma FindOnClearPath<V>(list: seq<Data<V>>, level: nat, path: seq<uint16>)
    requires level < 4 && WellFormed(list, level) && path != [] && Clear(list, path)
    ensures FindItem(list, path[0]) == IndexOf(list, path[0])
    ensures level == 3 ==> IndexOf(list, path[0]) == |list|
  {
    var n := IndexOf(list, path[0]);
    if n < |list| {
      ClearItem(list, level, n, path);
      assert ItemAt(list[n], level);
      FindsIndex(list, path[0]);
    } else {
      FindsNothing(list, path[0]);
    }
  }

  lemma {:induction false} FindsIndex<V>(list: seq<Data<V>>, id: uint16)
    requires IndexOf(list, id) < |list| && Typed(list[IndexOf(list, id)])
    ensures FindItem(list, id) == IndexOf(list, id)
  {
    if list[0].id != id { FindsIndex(list[1..], id); }
  }

  lemma {:induction false} FindsNothing<V>(list: seq<Data<V>>, id: uint16)
    requires IndexOf(list, id) == |list|
    ensures FindItem(list, id) == |list|
  {
    if list != [] { FindsNothing(list[1..], id); }
  }

  lemma {:induction false} InsertAdds<V>(list: seq<Data<V>>, level: nat, r: Record<V>)
    requires level < 4 && WellFormed(list, level) && Valid(r) && Clear(list, PathFrom(r, level))
    requires level == 3 ==> r.ids.3 != MAX_ID
    ensures var after := Insert(list, level, r);
            && after.Some? && after.value != [] && WellFormed(after.value, level)
            && Adds(list, after.value, PathFrom(r, level), ValueOf(r))
    decreases 4 - level
  {
    var path := PathFrom(r, level);
    var id := IdAt(r, level);
    var n := IndexOf(list, id);
    FindOnClearPath(list, level, path);
    var next := NextLevel(r, level);
    if next == 4 {
      assert path == [id];
      if n < |list| { ClearItem(list, level, n, path); }
      AppendAdds(list, Leaf(id, ValueOf(r)), path, ValueOf(r));
    } else {
      assert next == level + 1 && path[1..] == PathFrom(r, next);
      if n < |list| {
        ClearItem(list, level, n, path);
        assert ItemAt(list[n], level);
        InsertAdds(list[n].children, next, r);
        var children := Insert(list[n].children, next, r).value;
        ReplaceAdds(list, n, children, path, ValueOf(r));
        ReplaceWellFormed(list, level, n, children);
      } else {
        assert WellFormed<V>([], next) && Clear<V>([], path[1..]);
        InsertAdds<V>([], next, r);
        var children := Insert<V>([], next, r).value;
        var kind := if level == 0 then ObjectKind else if level == 1 then InstanceKind else MultipleKind;
        AppendAdds(list, Group(id, kind, children), path, ValueOf(r));
      }
    }
  }

  lemma ReplaceWellFormed<V>(list: seq<Data<V>>, level: nat, n: nat, children: seq<Data<V>>)
    requires level < 3 && WellFormed(list, level) && n < |list| && list[n].Group?
    requires children != [] && WellFormed(children, level + 1)
    ensures WellFormed(list[n := list[n].(children := children)], level)
  {
    assert ItemAt(list[n], level);
    assert ItemAt(list[n].(children := children), level);
  }

  // Whatever the record, the items stay at their places: one with its id is
  // changed, or a new one comes last. A resource instance is always new.
  lemma InsertPlaces<V>(list: seq<Data<V>>, level: nat, r: Record<V>)
    requires level < 4 && Insert(list, level, r).Some?
    ensures var after := Insert(list, level, r).value; var n := |list|;
            if |after| == n then
              && level < 3
              && exists k :: 0 <= k < n && Typed(list[k]) && list[k].id == after[k].id == IdAt(r, level) &&
                   (forall i :: 0 <= i < k ==> !(Typed(list[i]) && list[i].id == IdAt(r, level))) &&
                   forall i :: 0 <= i < n && i != k ==> after[i] == list[i]
            else
              && |after| == n + 1 && after[..n] == list && after[n].id == IdAt(r, level)
              && (level < 3 ==> forall i :: 0 <= i < n ==> !(Typed(list[i]) && list[i].id == IdAt(r, level)))
  {
    FindsFirst(list, IdAt(r, level));
    if |Insert(list, level, r).value| == |list| {
      var k := FindItem(list, IdAt(r, level));
      assert Typed(list[k]) && list[k].id == Insert(list, level, r).value[k].id;
    }
  }

  lemma {:induction false} FindsFirst<V>(list: seq<Data<V>>, id: uint16)
    ensures forall i :: 0 <= i < FindItem(list, id) ==> !(Typed(list[i]) && list[i].id == id)
  {
    if list != [] && !(Typed(list[0]) && list[0].id == id) {
      FindsFirst(list[1..], id);
      assert forall i :: 0 < i < |list| ==> list[i] == list[1..][i - 1];
    }
  }

  // What a record for an object that is not there yet makes of it, by the ids
  // that are set: a value instead of the object, of an instance, or below it.
  // An instance with a resource instance but no resource is taken for a
  // multiple resource.
  function NewObject<V>(r: Record<V>): Data<V> {
    var (o, i, resource, item) := r.ids;
    var leaf := (id: uint16) => Leaf(id, ValueOf(r));
    if i == 0xFFFF then if r.held.Plain? then leaf(o) else Group(o, ObjectKind, [])
    else if resource != 0xFFFF then
      Group(o, ObjectKind, [Group(i, InstanceKind,
        [if item == 0xFFFF then leaf(resource) else Group(resource, MultipleKind, [leaf(item)])])])
    else if item != 0xFFFF then Group(o, ObjectKind, [Group(i, MultipleKind, [leaf(item)])])
    else Group(o, ObjectKind, [if r.held.Plain? then leaf(i) else Group(i, InstanceKind, [])])
  }

  lemma InsertFirst<V>(level: nat, r: Record<V>)
    requires level < 4
    ensures var next := NextLevel(r, level);
            var e := if next == 4 || next <= level then SetValue(Fresh(level, IdAt(r, level)), r.held)
                     else InsertBelow(Fresh(level, IdAt(r, level)), next, level, r);
            Insert<V>([], level, r) == if e == None then None else Some([e.value])
  {
    var next := NextLevel(r, level);
    var e := if next == 4 || next <= level then SetValue(Fresh(level, IdAt(r, level)), r.held)
             else InsertBelow(Fresh(level, IdAt(r, level)), next, level, r);
    if e.Some? { assert [] + [e.value] == [e.value]; }
  }

  lemma NewLeaf<V>(level: nat, r: Record<V>)
    requires 2 <= level < 4 && r.held != Refused && (level == 2 ==> r.ids.3 == 0xFFFF)
    ensures Insert([], level, r) == Some([Leaf(IdAt(r, level), ValueOf(r))])
  {
    InsertFirst(level, r);
  }

  lemma NewResource<V>(r: Record<V>)
    requires r.held != Refused
    ensures Insert([], 2, r) ==
            Some([if r.ids.3 == 0xFFFF then Leaf(r.ids.2, ValueOf(r))
                  else Group(r.ids.2, MultipleKind, [Leaf(r.ids.3, ValueOf(r))])])
  {
    InsertFirst(2, r);
    NewLeaf(if r.ids.3 == 0xFFFF then 2 else 3, r);
  }

  lemma NewInstance<V>(r: Record<V>)
    requires r.held != Refused
    ensures Insert([], 1, r) ==
            Some([if r.ids.2 != 0xFFFF then Group(r.ids.1, InstanceKind, Insert([], 2, r).value)
                  else if r.ids.3 != 0xFFFF then Group(r.ids.1, MultipleKind, Insert([], 3, r).value)
                  else if r.held.Plain? then Leaf(r.ids.1, ValueOf(r)) else Group(r.ids.1, InstanceKind, [])])
  {
    InsertFirst(1, r);
    NewResource(r);
    NewLeaf(3, r);
  }

  lemma ObjectAdded<V>(list: seq<Data<V>>, r: Record<V>)
    requires r.held != Refused && r.ids.0 != 0xFFFF
    requires forall k :: 0 <= k < |list| ==> !(Typed(list[k]) && list[k].id == r.ids.0)
    ensures Insert(list, 0, r) == Some(list + [NewObject(r)])
  {
    NewInstance(r);
    NewResource(r);
    NewLeaf(3, r);
  }

  // The level a record goes on to below an item, if any.
  function Below<V>(r: Record<V>, level: nat): Option<nat> {
    match level
    case 0 => if r.ids.1 != 0xFFFF then Some(1) else None
    case 1 => if r.ids.2 != 0xFFFF then Some(2) else if r.ids.3 != 0xFFFF then Some(3) else None
    case 2 => if r.ids.3 != 0xFFFF then Some(3) else None
    case _ => None
  }

  // An item that is there takes the rest of the record below it, and becomes a
  // multiple resource with a resource instance.
  lemma GroupFound<V>(list: seq<Data<V>>, level: nat, r: Record<V>, k: nat)
    requires level < 3 && Below(r, level).Some? && k < |list| && list[k].Group? && list[k].id == IdAt(r, level)
    requires forall i :: 0 <= i < k ==> !(Typed(list[i]) && list[i].id == IdAt(r, level))
    ensures var below := Below(r, level).value; var d := list[k]; var children := Insert(d.children, below, r);
            Insert(list, level, r) ==
            if children == None then None
            else Some(list[k := Group(d.id, if below == 3 then MultipleKind else d.kind, children.value)])
  {
    FindsAt(list, IdAt(r, level), k);
  }

  lemma {:induction false} FindsAt<V>(list: seq<Data<V>>, id: uint16, k: nat)
    requires k < |list| && Typed(list[k]) && list[k].id == id
    requires forall i :: 0 <= i < k ==> !(Typed(list[i]) && list[i].id == id)
    ensures FindItem(list, id) == k
  {
    if k > 0 {
      assert forall i :: 0 < i < |list| ==> list[i] == list[1..][i - 1];
      FindsAt(list[1..], id, k - 1);
    }
  }

  // A value that cannot be converted fails the whole.
  lemma {:induction false} RefusedFails<V>(list: seq<Data<V>>, level: nat, r: Record<V>)
    requires level < 4 && r.held == Refused
    ensures Insert(list, level, r) == None
    decreases 4 - level
  {
    var next := NextLevel(r, level);
    if level < next < 4 {
      var id := IdAt(r, level);
      var n := if level == 3 then |list| else FindItem(list, id);
      var g := AsGroup(if n < |list| then list[n] else Fresh(level, id), next);
      if g.Some? { RefusedFails(g.value.children, next, r); }
    }
  }

  lemma {:induction false} RefusedFailsAll<V>(records: seq<Record<V>>, root: seq<Data<V>>, k: nat)
    requires k < |records| && records[k].held == Refused
    ensures Convert(records, root) == None
    decreases records
  {
    if k == 0 {
      RefusedFails(root, 0, records[0]);
    } else {
      var after := Insert(root, 0, records[0]);
      if after.Some? { RefusedFailsAll(records[1..], after.value, k - 1); }
    }
  }

  // ----- All records --------------------------------------------------------

  function PathOf<V>(r: Record<V>): seq<uint16> { PathFrom(r, 0) }

  // No path leads to or through the end of another one.
  ghost predicate PrefixFree<V>(records: seq<Record<V>>) {
    forall i, j :: 0 <= i < |records| && 0 <= j < |records| && i != j ==>
      !(PathOf(records[i]) <= PathOf(records[j]))
  }

  // The value the records give a path.
  function Given<V>(records: seq<Record<V>>, path: seq<uint16>): Option<Option<V>> {
    if records == [] then None
    else if PathOf(records[0]) == path then Some(ValueOf(records[0]))
    else Given(records[1..], path)
  }

  ghost predicate Fitting<V>(records: seq<Record<V>>, root: seq<Data<V>>) {
    forall i :: 0 <= i < |records| ==> Valid(records[i]) && Clear(root, PathOf(records[i]))
  }

  // A list holds the values of the records, and those of another list.
  ghost predicate Holds<V>(after: seq<Data<V>>, records: seq<Record<V>>, root: seq<Data<V>>) {
    forall p :: Lookup(after, p) == if Given(records, p).Some? then Given(records, p) else Lookup(root, p)
  }

  lemma RestFits<V>(records: seq<Record<V>>, root: seq<Data<V>>, after: seq<Data<V>>)
    requires records != [] && PrefixFree(records) && Fitting(records, root)
    requires Adds(root, after, PathOf(records[0]), ValueOf(records[0]))
    ensures PrefixFree(records[1..]) && Fitting(records[1..], after)
  {
    var rest := records[1..];
    forall i, j | 0 <= i < |rest| && 0 <= j < |rest| && i != j ensures !(PathOf(rest[i]) <= PathOf(rest[j])) {
      assert rest[i] == records[i + 1] && rest[j] == records[j + 1];
    }
    forall i | 0 <= i < |rest| ensures Valid(rest[i]) && Clear(after, PathOf(rest[i])) {
      assert rest[i] == records[i + 1];
      StaysClear(root, after, records[0], rest[i]);
    }
  }

  lemma FirstHeld<V>(end: seq<Data<V>>, records: seq<Record<V>>, root: seq<Data<V>>, after: seq<Data<V>>)
    requires records != [] && Clear(root, PathOf(records[0])) && PrefixFree(records)
    requires Adds(root, after, PathOf(records[0]), ValueOf(records[0])) && Holds(end, records[1..], after)
    ensures Holds(end, records, root)
  {
    var path := PathOf(records[0]);
    NotGiven(records[1..], path) by {
      forall i | 0 <= i < |records| - 1 ensures PathOf(records[1..][i]) != path {
        assert records[1..][i] == records[i + 1];
      }
    }
  }

  lemma {:induction false} NotGiven<V>(records: seq<Record<V>>, path: seq<uint16>)
    requires forall i :: 0 <= i < |records| ==> PathOf(records[i]) != path
    ensures Given(records, path) == None
  {
    if records != [] { NotGiven(records[1..], path); }
  }

  lemma {:induction false} ConvertFrom<V>(records: seq<Record<V>>, root: seq<Data<V>>)
    requires WellFormed(root, 0) && PrefixFree(records) && Fitting(records, root)
    ensures var end := Convert(records, root);
            end.Some? && WellFormed(end.value, 0) && Holds(end.value, records, root)
    decreases records
  {
    if records != [] {
      InsertAdds(root, 0, records[0]);
      var after := Insert(root, 0, records[0]).value;
      RestFits(records, root, after);
      ConvertFrom(records[1..], after);
      FirstHeld(Convert(records[1..], after).value, records, root, after);
    }
  }

  lemma StaysClear<V>(root: seq<Data<V>>, after: seq<Data<V>>, r: Record<V>, other: Record<V>)
    requires Adds(root, after, PathOf(r), ValueOf(r)) && Clear(root, PathOf(other))
    requires !(PathOf(r) <= PathOf(other)) && !(PathOf(other) <= PathOf(r))
    ensures Clear(after, PathOf(other))
  {
  }

  lemma EmptyFits<V>(records: seq<Record<V>>)
    requires forall i :: 0 <= i < |records| ==> Valid(records[i])
    ensures WellFormed<V>([], 0) && Fitting(records, [])
  {
    forall p ensures Lookup<V>([], p) == None {}
  }

  lemma HeldAlone<V>(end: seq<Data<V>>, records: seq<Record<V>>)
    requires Holds(end, records, [])
    ensures forall p :: Lookup(end, p) == Given(records, p)
  {
    forall p ensures Lookup(end, p) == Given(records, p) {
      assert Lookup<V>([], p) == None;
    }
  }

  // Grouping loses nothing and adds nothing: the tree holds exactly the
  // values of the records at their paths, and no container holds an id twice.
  lemma GroupingLosesNothing<V>(records: seq<Record<V>>)
    requires PrefixFree(records) && forall i :: 0 <= i < |records| ==> Valid(records[i])
    ensures var end := Convert(records, []);
            && end.Some? && WellFormed(end.value, 0)
            && forall p :: Lookup(end.value, p) == Given(records, p)
  {
    EmptyFits(records);
    ConvertFrom(records, []);
    HeldAlone(Convert(records, []).value, records);
  }

  // The path of a record, by its ids.
  lemma PathIs<V>(r: Record<V>)
    ensures PathOf(r) == [r.ids.0, r.ids.1, r.ids.2] + if r.ids.3 == 0xFFFF then [] else [r.ids.3]
  {
  }

  // A second record of the same resource instance is added beside the first
  // one: the container keeps its ids distinct exactly when the id is new.
  lemma InstanceDistinctIff<V>(list: seq<Data<V>>, r: Record<V>)
    requires DistinctIds(list) && r.held != Refused
    ensures Insert(list, 3, r).Some?
    ensures DistinctIds(Insert(list, 3, r).value) <==> IndexOf(list, r.ids.3) == |list|
  {
    var after := Insert(list, 3, r).value;
    var n := IndexOf(list, r.ids.3);
    assert after[|list|].id == r.ids.3 && forall i :: 0 <= i < |list| ==> after[i] == list[i];
    if n < |list| {
      assert after[n].id == after[|list|].id;
    }
  }

  lemma {:induction false} StripIs<V>(list: seq<Data<V>>)
    ensures Strip(list) == list
    decreases list, 1
  {
    if list != [] {
      StripOneIs(list[0]);
      StripIs(list[1..]);
    }
  }

  lemma {:induction false} StripOneIs<V>(d: Data<V>)
    ensures StripOne(d) == d
    decreases d, 0
  {
    if d.Group? { StripIs(d.children); }
  }

  // ----- The loops ----------------------------------------------------------

  // senml_findDataItem
  method FindDataItem<V>(list: seq<Data<V>>, id: uint16) returns (i: nat)
    ensures i == FindItem(list, id)
  {
    i := 0;
    assert list[0..] == list;
    while i < |list|
      invariant i <= |list| && FindItem(list, id) == i + FindItem(list[i..], id)
    {
      assert list[i..][0] == list[i] && list[i..][1..] == list[i + 1..];
      if (list[i].Group? || list[i].value.Some?) && list[i].id == id {
        return;
      }
      i := i + 1;
    }
  }

  // lwm2m_data_append_one: the children are copied into a new array with room
  // for one more.
  method AppendOne<T(0)>(data: array<T>, x: T) returns (grown: array<T>)
    ensures fresh(grown) && grown[..] == data[..] + [x]
  {
    grown := new T[data.Length + 1];
    forall k | 0 <= k < data.Length {
      grown[k] := data[k];
    }
    grown[data.Length] := x;
  }

  // The outer loop of prv_convertRecord.
  method ConvertRecords<V>(records: seq<Record<V>>) returns (root: Option<seq<Data<V>>>)
    ensures root == Convert(records, [])
  {
    root := Some([]);
    var k := 0;
    assert records[0..] == records;
    while k < |records|
      invariant k <= |records| && root.Some?
      invariant Convert(records, []) == Convert(records[k..], root.value)
    {
      assert records[k..][0] == records[k] && records[k..][1..] == records[k + 1..];
      root := Insert(root.value, 0, records[k]);
      if root == None {
        return;
      }
      k := k + 1;
    }
  }

  // senml_dataStrip: a copy into a new array, container by container.
  method DataStrip<V>(data: seq<Data<V>>) returns (result: seq<Data<V>>)
    ensures result == Strip(data)
    decreases data
  {
    result := [];
    var i := 0;
    assert data[0..] == data;
    while i < |data|
      invariant i <= |data| && Strip(data) == result + Strip(data[i..])
    {
      assert data[i..][0] == data[i] && data[i..][1..] == data[i + 1..];
      var d := data[i];
      if d.Group? && d.children != [] {
        var children := DataStrip(d.children);
        d := Group(d.id, d.kind, children);
      }
      Regroup(result, d, Strip(data[i + 1..]));
      result := result + [d];
      i := i + 1;
    }
    assert result + [] == result;
  }
}
