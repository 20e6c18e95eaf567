// The id-sorted linked list under transactions, clients, observations and
// objects (wakaama/core/list.c), as operations on sequences and as the pointer
// code itself.
module SortedList {
  import opened Common

  // The first half describes the operations for any element type with an
  // integer key; the other modules use these functions. The second half is
  // proved against them.

  // ----- Specification ------------------------------------------------------

  ghost predicate StrictlySorted<T>(s: seq<T>, key: T -> int) {
    forall i, j :: 0 <= i < j < |s| ==> key(s[i]) < key(s[j])
  }

  ghost predicate WeaklySorted<T>(s: seq<T>, key: T -> int) {
    forall i, j :: 0 <= i < j < |s| ==> key(s[i]) <= key(s[j])
  }

  predicate HasKey<T>(s: seq<T>, key: T -> int, id: int) {
    exists i :: 0 <= i < |s| && key(s[i]) == id
  }

  // How many leading elements have a key below `id`.
  function Below<T>(s: seq<T>, key: T -> int, id: int): (n: nat)
    ensures n <= |s|
    ensures forall i :: 0 <= i < n ==> key(s[i]) < id
    ensures n < |s| ==> key(s[n]) >= id
  {
    if s == [] || key(s[0]) >= id then 0
    else
      assert forall i :: 0 < i < |s| ==> s[i] == s[1..][i - 1];
      1 + Below(s[1..], key, id)
  }

  // lwm2m_list_add: the head is passed over even when it holds the same id.
  function AddAt<T>(s: seq<T>, key: T -> int, id: int): (n: nat)
    ensures n <= |s|
  {
    if s == [] || key(s[0]) > id then 0 else 1 + Below(s[1..], key, id)
  }

  function Add<T>(s: seq<T>, key: T -> int, x: T): seq<T> {
    var n := AddAt(s, key, key(x));
    s[..n] + [x] + s[n..]
  }

  // lwm2m_list_find: the walk stops at the first id that is not smaller.
  function Find<T>(s: seq<T>, key: T -> int, id: int): Option<T> {
    var n := Below(s, key, id);
    if n < |s| && key(s[n]) == id then Some(s[n]) else None
  }

  // lwm2m_list_remove
  function Remove<T>(s: seq<T>, key: T -> int, id: int): seq<T> {
    var n := Below(s, key, id);
    if n < |s| && key(s[n]) == id then s[..n] + s[n + 1..] else s
  }

  // lwm2m_list_newId: the id counts along the list while it keeps matching,
  // in 16 bits.
  function NewIdFrom<T>(s: seq<T>, key: T -> int, id: uint16): uint16 {
    if s == [] || key(s[0]) != id then id
    else NewIdFrom(s[1..], key, (id + 1) % 0x1_0000)
  }

  function NewId<T>(s: seq<T>, key: T -> int): uint16 { NewIdFrom(s, key, 0) }

  // ----- What the operations mean -------------------------------------------

  lemma AddAtSplits<T>(s: seq<T>, key: T -> int, id: int)
    requires WeaklySorted(s, key)
    ensures forall i :: 0 <= i < AddAt(s, key, id) ==> key(s[i]) <= id
    ensures forall i :: AddAt(s, key, id) <= i < |s| ==> id <= key(s[i])
  {
    var n := AddAt(s, key, id);
    if s != [] && key(s[0]) <= id {
      forall i | 0 <= i < n ensures key(s[i]) <= id {
        if i > 0 { assert s[i] == s[1..][i - 1]; }
      }
      if n < |s| { assert s[n] == s[1..][n - 1]; }
    }
  }

  lemma AddContents<T>(s: seq<T>, key: T -> int, x: T)
    ensures multiset(Add(s, key, x)) == multiset(s) + multiset{x}
    ensures forall y :: y in Add(s, key, x) <==> y in s || y == x
  {
    var n := AddAt(s, key, key(x));
    assert s == s[..n] + s[n..];
    assert forall y :: y in Add(s, key, x) <==> y in multiset(Add(s, key, x));
  }

  // Where the entries are after an insertion at position n.
  lemma Inserted<T>(s: seq<T>, n: nat, x: T, i: nat)
    requires n <= |s| && i <= |s|
    ensures var r := s[..n] + [x] + s[n..];
            r[i] == if i < n then s[i] else if i == n then x else s[i - 1]
  {
  }

  lemma AddKeepsOrder<T>(s: seq<T>, key: T -> int, x: T)
    requires StrictlySorted(s, key) && !HasKey(s, key, key(x))
    ensures StrictlySorted(Add(s, key, x), key)
  {
    AddAtSplits(s, key, key(x));
    var n, r := AddAt(s, key, key(x)), Add(s, key, x);
    forall i, j | 0 <= i < j < |r| ensures key(r[i]) < key(r[j]) {
      Inserted(s, n, x, i);
      Inserted(s, n, x, j);
      if i == n { assert key(s[j - 1]) != key(x); } else if j == n { assert key(s[i]) != key(x); }
    }
  }

  // Inserting a second entry with an id already present still leaves the list
  // ordered, but no longer strictly.
  lemma AddKeepsWeakOrder<T>(s: seq<T>, key: T -> int, x: T)
    requires WeaklySorted(s, key)
    ensures WeaklySorted(Add(s, key, x), key)
  {
    AddAtSplits(s, key, key(x));
    var n, r := AddAt(s, key, key(x)), Add(s, key, x);
    forall i, j | 0 <= i < j < |r| ensures key(r[i]) <= key(r[j]) {
      Inserted(s, n, x, i);
      Inserted(s, n, x, j);
    }
  }

  lemma BelowFindsKey<T>(s: seq<T>, key: T -> int, i: nat)
    requires StrictlySorted(s, key) && i < |s|
    ensures Below(s, key, key(s[i])) == i
  {
    var n := Below(s, key, key(s[i]));
    assert n <= i;
  }

  lemma FindIsMembership<T>(s: seq<T>, key: T -> int, id: int)
    requires StrictlySorted(s, key)
    ensures Find(s, key, id).Some? <==> HasKey(s, key, id)
    ensures forall x :: x in s && key(x) == id ==> Find(s, key, id) == Some(x)
  {
    forall i | 0 <= i < |s| && key(s[i]) == id
      ensures Find(s, key, id) == Some(s[i])
    {
      BelowFindsKey(s, key, i);
    }
  }

  lemma RemoveAt<T>(s: seq<T>, key: T -> int, i: nat)
    requires StrictlySorted(s, key) && i < |s|
    ensures Remove(s, key, key(s[i])) == s[..i] + s[i + 1..]
  {
    BelowFindsKey(s, key, i);
  }

  lemma GapKeepsOrder<T>(s: seq<T>, key: T -> int, i: nat, r: seq<T>)
    requires StrictlySorted(s, key) && i < |s| && r == s[..i] + s[i + 1..]
    ensures StrictlySorted(r, key) && !HasKey(r, key, key(s[i]))
    ensures forall x :: x in r ==> x in s
  {
    forall j | 0 <= j < |r| ensures key(r[j]) != key(s[i]) && r[j] in s {
      assert r[j] == if j < i then s[j] else s[j + 1];
    }
    forall j, k | 0 <= j < k < |r| ensures key(r[j]) < key(r[k]) {
      assert r[j] == if j < i then s[j] else s[j + 1];
      assert r[k] == if k < i then s[k] else s[k + 1];
    }
  }

  lemma RemoveTakesOne<T>(s: seq<T>, key: T -> int, i: nat)
    requires StrictlySorted(s, key) && i < |s|
    ensures Remove(s, key, key(s[i])) == s[..i] + s[i + 1..]
    ensures StrictlySorted(Remove(s, key, key(s[i])), key)
    ensures multiset(Remove(s, key, key(s[i]))) == multiset(s) - multiset{s[i]}
    ensures !HasKey(Remove(s, key, key(s[i])), key, key(s[i]))
  {
    RemoveAt(s, key, i);
    GapKeepsOrder(s, key, i, s[..i] + s[i + 1..]);
    GapContents(s, i);
  }

  lemma GapContents<T>(s: seq<T>, i: nat)
    requires i < |s|
    ensures multiset(s[..i] + s[i + 1..]) == multiset(s) - multiset{s[i]}
  {
    assert s == s[..i] + [s[i]] + s[i + 1..];
  }

  // Removing the entry between two parts joins them.
  lemma RemoveMiddle<T>(done: seq<T>, x: T, rest: seq<T>, key: T -> int)
    requires StrictlySorted(done + [x] + rest, key)
    ensures Remove(done + [x] + rest, key, key(x)) == done + rest
    ensures StrictlySorted(done + rest, key)
  {
    var list := done + [x] + rest;
    assert list[|done|] == x && list[..|done|] == done && list[|done| + 1..] == rest;
    RemoveAt(list, key, |done|);
    GapKeepsOrder(list, key, |done|, done + rest);
  }

  // With repeated ids, removal by id takes the first of the equal entries: the
  // entry that was meant is the one removed exactly when no earlier entry
  // shares its id.
  lemma RemoveHitsTarget<T>(s: seq<T>, key: T -> int, i: nat)
    requires WeaklySorted(s, key) && i < |s|
    ensures Below(s, key, key(s[i])) == i <==> (i == 0 || key(s[i - 1]) != key(s[i]))
  {
    var n := Below(s, key, key(s[i]));
    if i > 0 && key(s[i - 1]) != key(s[i]) {
      assert forall j :: 0 <= j < i ==> key(s[j]) <= key(s[i - 1]);
    }
  }

  lemma {:induction false} NewIdFromCounts<T>(s: seq<T>, key: T -> int, id: uint16)
    requires StrictlySorted(s, key)
    requires forall i :: 0 <= i < |s| ==> id <= key(s[i])
    requires id + |s| < 0x1_0000
    ensures id <= NewIdFrom(s, key, id) <= id + |s|
    ensures forall i :: 0 <= i < |s| ==> key(s[i]) != NewIdFrom(s, key, id)
    ensures forall i :: 0 <= i < NewIdFrom(s, key, id) - id ==> key(s[i]) == id + i
    decreases |s|
  {
    if s != [] && key(s[0]) == id {
      var t := s[1..];
      assert forall i :: 0 <= i < |t| ==> t[i] == s[i + 1];
      NewIdFromCounts(t, key, id + 1);
      assert NewIdFrom(s, key, id) == NewIdFrom(t, key, id + 1);
      forall i | 0 <= i < |s| ensures key(s[i]) != NewIdFrom(s, key, id) {
        if i > 0 { assert s[i] == t[i - 1]; }
      }
      forall i | 0 <= i < NewIdFrom(s, key, id) - id ensures key(s[i]) == id + i {
        if i > 0 { assert s[i] == t[i - 1]; }
      }
    }
  }

  // The new id is free, and every smaller id is taken.
  lemma NewIdIsSmallestFree<T>(s: seq<T>, key: T -> int)
    requires StrictlySorted(s, key) && |s| < 0x1_0000
    requires forall x :: x in s ==> 0 <= key(x) < 0x1_0000
    ensures !HasKey(s, key, NewId(s, key)) && NewId(s, key) <= |s|
    ensures forall j :: 0 <= j < NewId(s, key) ==> HasKey(s, key, j)
  {
    NewIdFromCounts(s, key, 0);
    forall j | 0 <= j < NewId(s, key) ensures HasKey(s, key, j) {
      assert key(s[j]) == j;
    }
  }

  lemma {:induction false} NewIdFromWraps<T>(s: seq<T>, key: T -> int, id: uint16)
    requires |s| == 0x1_0000 - id
    requires forall i :: 0 <= i < |s| ==> key(s[i]) == id + i
    ensures NewIdFrom(s, key, id) == 0
    decreases |s|
  {
    assert key(s[0]) == id;
    if id < 0xFFFF {
      assert forall i :: 0 <= i < |s[1..]| ==> s[1..][i] == s[i + 1];
      NewIdFromWraps(s[1..], key, id + 1);
    }
  }

  lemma {:induction false} KeyAtLeast<T>(s: seq<T>, key: T -> int, i: nat)
    requires StrictlySorted(s, key) && i < |s|
    requires forall x :: x in s ==> 0 <= key(x)
    ensures key(s[i]) >= i
  {
    if i > 0 { KeyAtLeast(s, key, i - 1); }
  }

  lemma {:induction false} KeyAtMost<T>(s: seq<T>, key: T -> int, i: nat, top: int)
    requires StrictlySorted(s, key) && i < |s|
    requires forall x :: x in s ==> key(x) < top
    ensures key(s[i]) <= top - (|s| - i)
    decreases |s| - i
  {
    if i + 1 < |s| { KeyAtMost(s, key, i + 1, top); } else { assert s[i] in s; }
  }

  // The id handed out is unused exactly while the list is not full: with all
  // 65536 ids taken the 16-bit counter wraps round to 0.
  lemma NewIdFreeIffRoom<T>(s: seq<T>, key: T -> int)
    requires StrictlySorted(s, key)
    requires forall x :: x in s ==> 0 <= key(x) < 0x1_0000
    ensures !HasKey(s, key, NewId(s, key)) <==> |s| < 0x1_0000
  {
    if |s| < 0x1_0000 {
      NewIdIsSmallestFree(s, key);
    } else {
      KeyAtMost(s, key, 0, 0x1_0000);
      KeyAtLeast(s, key, 0);
      forall i | 0 <= i < |s| ensures key(s[i]) == i {
        KeyAtLeast(s, key, i);
        KeyAtMost(s, key, i, 0x1_0000);
      }
      NewIdFromWraps(s, key, 0);
      assert key(s[0]) == 0;
    }
  }

  // ----- The pointer code ---------------------------------------------------

  class Node {
    const id: uint16
    var next: Node?

    constructor (id: uint16)
      ensures this.id == id && next == null
    {
      this.id := id;
      next := null;
    }
  }

  const NodeId: Node -> int := (n: Node) => n.id

  // `spine` is the sequence of nodes reached from `head`.
  ghost predicate IsList(head: Node?, spine: seq<Node>)
    reads spine
  {
    && (head == if spine == [] then null else spine[0])
    && (forall i {:trigger spine[i].next} :: 0 <= i < |spine| ==>
          spine[i].next == if i + 1 < |spine| then spine[i + 1] else null)
    && (forall i, j :: 0 <= i < j < |spine| ==> spine[i] != spine[j])
  }

  lemma BelowFrom(s: seq<Node>, id: int, n: nat)
    requires n <= |s|
    requires forall i :: 0 <= i < n ==> NodeId(s[i]) < id
    requires n < |s| ==> NodeId(s[n]) >= id
    ensures Below(s, NodeId, id) == n
  {
    var b := Below(s, NodeId, id);
    assert b >= n;
  }

  // The walk shared by insertion and removal: stop before the first node,
  // other than the head, whose id is not smaller.
  method Seek(head: Node, id: uint16, ghost spine: seq<Node>) returns (target: Node, ghost k: nat)
    requires IsList(head, spine)
    ensures k < |spine| && target == spine[k]
    ensures forall i :: 1 <= i <= k ==> spine[i].id < id
    ensures k + 1 < |spine| ==> spine[k + 1].id >= id
  {
    target, k := head, 0;
    while target.next != null && target.next.id < id
      invariant k < |spine| && target == spine[k]
      invariant forall i :: 1 <= i <= k ==> spine[i].id < id
      decreases |spine| - k
    {
      assert target.next == spine[k + 1];
      target := target.next;
      k := k + 1;
    }
    assert target.next == if k + 1 < |spine| then spine[k + 1] else null;
  }

  method ListAdd(head: Node?, node: Node, ghost spine: seq<Node>)
    returns (newHead: Node, ghost newSpine: seq<Node>)
    requires IsList(head, spine) && node !in spine
    requires head == null ==> node.next == null
    modifies spine, node
    ensures newSpine == Add(spine, NodeId, node)
    ensures IsList(newHead, newSpine)
  {
    newSpine := Add(spine, NodeId, node);
    if head == null {
      return node, newSpine;
    }
    if head.id > node.id {
      node.next := head;
      assert newSpine == [node] + spine;
      return node, newSpine;
    }
    var target, k := Seek(head, node.id, spine);
    assert Below(spine[1..], NodeId, node.id) == k by {
      forall i | 0 <= i < k ensures NodeId(spine[1..][i]) < node.id {
        assert spine[1..][i] == spine[i + 1];
      }
      if k < |spine[1..]| { assert spine[1..][k] == spine[k + 1] == target.next; }
      BelowFrom(spine[1..], node.id, k);
    }
    assert newSpine == spine[..k + 1] + [node] + spine[k + 1..];
    LinkAfter(head, target, node, spine, k);
    newHead := head;
  }

  method ListFind(head: Node?, id: uint16, ghost spine: seq<Node>) returns (found: Node?)
    requires IsList(head, spine)
    ensures (match Find(spine, NodeId, id) case None => found == null case Some(n) => found == n)
  {
    found := head;
    ghost var k := 0;
    while found != null && found.id < id
      invariant k <= |spine| && found == if k < |spine| then spine[k] else null
      invariant forall i :: 0 <= i < k ==> spine[i].id < id
      decreases |spine| - k
    {
      assert found.next == if k + 1 < |spine| then spine[k + 1] else null;
      found := found.next;
      k := k + 1;
    }
    BelowFrom(spine, id, k);
    if found != null && found.id == id {
      return;
    }
    found := null;
  }

  lemma Unlinked(head: Node?, spine: seq<Node>, i: nat, rest: seq<Node>)
    requires i < |spine| && rest == spine[..i] + spine[i + 1..]
    requires head == if rest == [] then null else rest[0]
    requires forall j, k :: 0 <= j < k < |spine| ==> spine[j] != spine[k]
    requires forall j {:trigger spine[j].next} :: 0 <= j < |spine| && j != i && j != i - 1 ==>
               spine[j].next == if j + 1 < |spine| then spine[j + 1] else null
    requires i > 0 ==> spine[i - 1].next == if i + 1 < |spine| then spine[i + 1] else null
    ensures IsList(head, rest)
  {
    forall j | 0 <= j < |rest|
      ensures rest[j].next == if j + 1 < |rest| then rest[j + 1] else null
    {
      if j < i {
        assert rest[j] == spine[j];
        assert j + 1 < |rest| ==> rest[j + 1] == if j + 1 < i then spine[j + 1] else spine[j + 2];
      } else {
        assert rest[j] == spine[j + 1];
        assert j + 1 < |rest| ==> rest[j + 1] == spine[j + 2];
      }
    }
    forall j, k | 0 <= j < k < |rest| ensures rest[j] != rest[k] {
      assert rest[j] == if j < i then spine[j] else spine[j + 1];
      assert rest[k] == if k < i then spine[k] else spine[k + 1];
    }
  }

  method LinkAfter(head: Node, target: Node, node: Node, ghost spine: seq<Node>, ghost k: nat)
    requires IsList(head, spine) && k < |spine| && target == spine[k] && node !in spine
    modifies target, node
    ensures IsList(head, spine[..k + 1] + [node] + spine[k + 1..])
  {
    assert spine[k].next == if k + 1 < |spine| then spine[k + 1] else null;
    node.next := target.next;
    target.next := node;
    ghost var r := spine[..k + 1] + [node] + spine[k + 1..];
    forall j | 0 <= j < |r| ensures r[j].next == if j + 1 < |r| then r[j + 1] else null {
      assert r[j] == if j <= k then spine[j] else if j == k + 1 then node else spine[j - 1];
      if j + 1 < |r| {
        assert r[j + 1] == if j + 1 <= k then spine[j + 1] else if j == k then node else spine[j];
      }
    }
  }

  method UnlinkNext(head: Node, target: Node, ghost spine: seq<Node>, ghost k: nat)
    requires IsList(head, spine) && k + 1 < |spine| && target == spine[k]
    modifies target
    ensures IsList(head, spine[..k + 1] + spine[k + 2..])
  {
    assert spine[k].next == spine[k + 1];
    assert spine[k + 1].next == if k + 2 < |spine| then spine[k + 2] else null;
    target.next := target.next.next;
    Unlinked(head, spine, k + 1, spine[..k + 1] + spine[k + 2..]);
  }

  // The node after the target of the search goes, if it has the id.
  method RemoveAfter(head: Node, target: Node, id: uint16, ghost spine: seq<Node>, ghost k: nat)
    returns (removed: Node?)
    requires IsList(head, spine) && WeaklySorted(spine, NodeId) && head.id != id
    requires k < |spine| && target == spine[k] && forall i :: 1 <= i <= k ==> spine[i].id < id
    requires k + 1 < |spine| ==> spine[k + 1].id >= id
    modifies target
    ensures IsList(head, Remove(spine, NodeId, id))
    ensures (match Find(spine, NodeId, id) case None => removed == null case Some(n) => removed == n)
  {
    assert target.next == if k + 1 < |spine| then spine[k + 1] else null;
    if target.next != null && target.next.id == id {
      SoughtAt(spine, id, k);
      removed := target.next;
      UnlinkNext(head, target, spine, k);
    } else {
      removed := null;
      NotInList(spine, id, k);
    }
  }

  method ListRemove(head: Node?, id: uint16, ghost spine: seq<Node>)
    returns (newHead: Node?, removed: Node?, ghost newSpine: seq<Node>)
    requires IsList(head, spine)
    // The code compares the head for equality only, so it needs an ordered
    // list to find every entry.
    requires WeaklySorted(spine, NodeId)
    modifies spine
    ensures newSpine == Remove(spine, NodeId, id)
    ensures IsList(newHead, newSpine)
    ensures (match Find(spine, NodeId, id) case None => removed == null case Some(n) => removed == n)
  {
    newSpine := Remove(spine, NodeId, id);
    if head == null {
      return null, null, newSpine;
    }
    if head.id == id {
      BelowFrom(spine, id, 0);
      assert spine[0].next == if 1 < |spine| then spine[1] else null;
      Unlinked(head.next, spine, 0, newSpine);
      return head.next, head, newSpine;
    }
    var target, k := Seek(head, id, spine);
    newHead := head;
    removed := RemoveAfter(head, target, id, spine, k);
  }

  lemma SoughtAt(spine: seq<Node>, id: int, k: nat)
    requires WeaklySorted(spine, NodeId)
    requires k + 1 < |spine| && spine[0].id != id && spine[k + 1].id == id
    requires forall i :: 1 <= i <= k ==> spine[i].id < id
    ensures Below(spine, NodeId, id) == k + 1
  {
    assert NodeId(spine[0]) <= NodeId(spine[k + 1]);
    BelowFrom(spine, id, k + 1);
  }

  lemma NotInList(spine: seq<Node>, id: int, k: nat)
    requires WeaklySorted(spine, NodeId)
    requires k < |spine| && spine[0].id != id
    requires forall i :: 1 <= i <= k ==> spine[i].id < id
    requires k + 1 < |spine| ==> spine[k + 1].id > id
    ensures Find(spine, NodeId, id) == None
  {
    var b := Below(spine, NodeId, id);
    assert forall i :: k + 1 < i < |spine| ==> NodeId(spine[k + 1]) <= NodeId(spine[i]);
  }

  method ListNewId(head: Node?, ghost spine: seq<Node>) returns (id: uint16)
    requires IsList(head, spine)
    ensures id == NewId(spine, NodeId)
  {
    id := 0;
    var target := head;
    ghost var k := 0;
    assert spine[0..] == spine;
    while target != null && id == target.id
      invariant k <= |spine| && target == if k < |spine| then spine[k] else null
      invariant NewIdFrom(spine[k..], NodeId, id) == NewId(spine, NodeId)
      decreases |spine| - k
    {
      assert spine[k..][0] == target && spine[k..][1..] == spine[k + 1..];
      assert target.next == if k + 1 < |spine| then spine[k + 1] else null;
      id := (target.id + 1) % 0x1_0000;
      target := target.next;
      k := k + 1;
    }
  }
}
