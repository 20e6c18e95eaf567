// object_getRegisterPayload and its length pass as written: text written into
// a buffer at an advancing index (wakaama/core/objects.c,
// wakaama/core/utils.c).
module LinkPrinter {
  import opened Common
  import opened Decimal
  import opened LinkFormat

  predicate NoNull(s: string) { forall i :: 0 <= i < |s| ==> s[i] != '\0' }

  // utils_stringCopy to buffer[at .. at + length]
  method StringCopy(buffer: array<char>, at: nat, length: nat, str: string) returns (n: int)
    requires at + length <= buffer.Length && NoNull(str)
    modifies buffer
    ensures n == if |str| < length then |str| else -1
    ensures n >= 0 ==> buffer[at..at + n] == str
    ensures OnlyWithin(buffer, at, length)
  {
    var i := 0;
    while i < length && i < |str|
      invariant 0 <= i <= length && i <= |str| && buffer[at..at + i] == str[..i]
      invariant OnlyWithin(buffer, at, length)
    {
      buffer[at + i] := str[i];
      i := i + 1;
    }
    if i == length {
      return -1;
    }
    buffer[at + i] := '\0';
    n := i;
  }

  // What is printed so far stays when more is printed after it.
  lemma PrefixKept(a: seq<char>, b: seq<char>, at: nat, n: nat, s: string)
    requires at + n <= |a| == |b| && b[at..at + n] == s
    requires forall k :: 0 <= k < at ==> b[k] == a[k]
    ensures b[..at + n] == a[..at] + s
  {
    assert b[..at + n] == b[..at] + b[at..at + n];
  }

  method AppendString(buffer: array<char>, index: nat, str: string) returns (ok: bool, after: nat)
    requires index <= buffer.Length && NoNull(str)
    modifies buffer
    ensures index <= after <= buffer.Length
    ensures AddString(old(buffer[..index]), buffer.Length, str) == if ok then Some(buffer[..after]) else None
  {
    var n := StringCopy(buffer, index, buffer.Length - index, str);
    ok, after := n >= 0, index;
    if ok {
      PrefixKept(old(buffer[..]), buffer[..], index, n, str);
      after := index + n;
    }
  }

  // prv_getObjectTemplate
  method PrintTemplate(buffer: array<char>, index: nat, id: uint16) returns (length: int)
    requires index <= buffer.Length
    modifies buffer
    ensures length >= 0 ==> index + length <= buffer.Length && length == |Template(id)|
    ensures AddTemplate(old(buffer[..index]), buffer.Length, id) ==
            if length >= 0 then Some(buffer[..index + length]) else None
  {
    if buffer.Length - index < MIN_LEN {
      return -1;
    }
    buffer[index] := '<';
    buffer[index + 1] := '/';
    assert buffer[index..index + 2] == "</";
    var n := UintToText(id, buffer, index + 2, buffer.Length - index - 2);
    if n == 0 {
      return -1;
    }
    if buffer.Length - index - (2 + n) < MIN_LEN - 3 {
      return -1;
    }
    assert buffer[index..index + 2] == "</";
    assert buffer[index..index + 2 + n] == buffer[index..index + 2] + buffer[index + 2..index + 2 + n];
    buffer[index + 2 + n] := '/';
    length := 2 + n + 1;
    assert buffer[index..index + length] == Template(id);
    PrefixKept(old(buffer[..]), buffer[..], index, length, Template(id));
  }

  // memcpy of the template printed at `start` to `index`
  method CopyTemplate(buffer: array<char>, start: nat, length: nat, index: nat)
    requires start + length <= index && index + length <= buffer.Length
    modifies buffer
    ensures buffer[..index + length] == old(buffer[..index]) + old(buffer[start..start + length])
  {
    forall k | 0 <= k < length {
      buffer[index + k] := buffer[start + k];
    }
    PrefixKept(old(buffer[..]), buffer[..], index, length, old(buffer[start..start + length]));
  }

  // The template of a later instance, copied from the first one.
  method RepeatTemplate(buffer: array<char>, index: nat, id: uint16, start: nat, length: nat)
    returns (ok: bool, after: nat)
    requires start + length <= index <= buffer.Length && buffer[start..start + length] == Template(id)
    modifies buffer
    ensures index <= after <= buffer.Length
    ensures ok <==> !(index != start + length && buffer.Length - index <= length)
    ensures ok ==> buffer[..after] ==
                   if index != start + length then old(buffer[..index]) + Template(id) else old(buffer[..index])
  {
    ok, after := false, index;
    if after != start + length {
      if buffer.Length - after <= length {
        return;
      }
      CopyTemplate(buffer, start, length, after);
      after := after + length;
    }
    ok := true;
  }

  // A number, which must fit here.
  method AppendNumber(buffer: array<char>, index: nat, n: nat) returns (ok: bool, after: nat)
    requires index <= buffer.Length
    modifies buffer
    ensures index <= after <= buffer.Length
    ensures ok <==> index + |Digits(n)| <= buffer.Length
    ensures buffer[..after] == if ok then old(buffer[..index]) + Digits(n) else old(buffer[..index])
  {
    var k := UintToText(n, buffer, index, buffer.Length - index);
    ok, after := k > 0, index + k;
    if ok {
      PrefixKept(old(buffer[..]), buffer[..], index, k, Digits(n));
    }
  }

  // One round of the loop over the instances.
  method AppendInstance(buffer: array<char>, index: nat, id: uint16, start: nat, length: nat, instance: uint16)
    returns (ok: bool, after: nat)
    requires start + length <= index <= buffer.Length && buffer[start..start + length] == Template(id)
    modifies buffer
    ensures index <= after <= buffer.Length
    ensures AddInstance(old(buffer[..index]), buffer.Length, id, start + length, instance) ==
            if ok then Some(buffer[..after]) else None
    ensures ok ==> old(buffer[..index]) <= buffer[..after]
  {
    ok, after := RepeatTemplate(buffer, index, id, start, length);
    if !ok {
      return;
    }
    ok, after := AppendNumber(buffer, after, instance);
    if !ok {
      return;
    }
    ok, after := AppendString(buffer, after, PATH_END);
  }

  lemma SliceKept(out: string, buffer: seq<char>, start: nat, length: nat)
    requires start + length <= |out| && out <= buffer
    ensures buffer[start..start + length] == out[start..start + length]
  {
  }

  // The loop over the instances.
  method AppendInstances(buffer: array<char>, index: nat, id: uint16, start: nat, length: nat,
                         instances: seq<uint16>) returns (ok: bool, after: nat)
    requires start + length <= index <= buffer.Length && buffer[start..start + length] == Template(id)
    modifies buffer
    ensures index <= after <= buffer.Length
    ensures AddInstances(old(buffer[..index]), buffer.Length, id, start + length, instances) ==
            if ok then Some(buffer[..after]) else None
  {
    ok, after := true, index;
    var k := 0;
    assert instances[0..] == instances;
    while k < |instances|
      invariant k <= |instances| && index <= after <= buffer.Length && ok
      invariant buffer[start..start + length] == Template(id)
      invariant AddInstances(old(buffer[..index]), buffer.Length, id, start + length, instances) ==
                AddInstances(buffer[..after], buffer.Length, id, start + length, instances[k..])
    {
      assert instances[k..][0] == instances[k] && instances[k..][1..] == instances[k + 1..];
      ghost var out := buffer[..after];
      SliceKept(out, buffer[..], start, length);
      ok, after := AppendInstance(buffer, after, id, start, length, instances[k]);
      if !ok {
        return;
      }
      SliceKept(out, buffer[..], start, length);
      k := k + 1;
    }
  }

  // The version attribute, printed over the last slash of the template.
  method AppendVersion(buffer: array<char>, index: nat, o: Entry) returns (ok: bool, after: nat)
    requires index <= buffer.Length
    modifies buffer
    ensures index <= after <= buffer.Length
    ensures AddVersion(old(buffer[..index]), buffer.Length, o) == if ok then Some(buffer[..after]) else None
  {
    ok, after := AppendString(buffer, index, VERSION_START);
    if !ok {
      return;
    }
    ok, after := AppendNumberAndChar(buffer, after, o.major, '.');
    if !ok {
      return;
    }
    ok, after := AppendNumberAndChar(buffer, after, o.minor, ',');
  }

  method AppendNumberAndChar(buffer: array<char>, index: nat, n: nat, c: char) returns (ok: bool, after: nat)
    requires index <= buffer.Length
    modifies buffer
    ensures index <= after <= buffer.Length
    ensures AddChar(AddNumber(old(buffer[..index]), buffer.Length, n), buffer.Length, c) ==
            if ok then Some(buffer[..after]) else None
  {
    ok, after := AppendNumber(buffer, index, n);
    ghost var out := buffer[..after];
    if after >= buffer.Length {
      ok := false;
      return;
    }
    buffer[after] := c;
    after := after + 1;
    ok := true;
    assert buffer[..after] == out + [c];
  }

  // A template for the instances, at buffer[index .. after].
  method AppendTemplate(buffer: array<char>, index: nat, id: uint16) returns (ok: bool, after: nat)
    requires index <= buffer.Length
    modifies buffer
    ensures index <= after <= buffer.Length
    ensures AddTemplate(old(buffer[..index]), buffer.Length, id) == if ok then Some(buffer[..after]) else None
    ensures ok ==> after == index + |Template(id)| && buffer[index..after] == Template(id)
  {
    var n := PrintTemplate(buffer, index, id);
    ok := n >= 0;
    after := if ok then index + n else index;
    if ok {
      assert buffer[index..after] == buffer[..after][index..];
    }
  }

  // The version, and the template of the first instance if there is one.
  method AppendVersioned(buffer: array<char>, index: nat, o: Entry) returns (ok: bool, after: nat, start: nat)
    requires 0 < index <= buffer.Length
    modifies buffer
    ensures start <= after <= buffer.Length
    ensures AddVersioned(old(buffer[..index]), buffer.Length, o) == if ok then Some(buffer[..after]) else None
    ensures ok && o.instances != [] ==>
              after == start + |Template(o.id)| && buffer[start..after] == Template(o.id)
  {
    after := index - 1;
    assert buffer[..after] == buffer[..index][..after];
    ok, after := AppendVersion(buffer, after, o);
    start := after;
    if ok && o.instances != [] {
      ok, after := AppendTemplate(buffer, after, o.id);
    }
  }

  // What comes before the instances: the template of the first of them ends
  // up at buffer[start .. after].
  method AppendHead(buffer: array<char>, index: nat, o: Entry) returns (ok: bool, after: nat, start: nat)
    requires index <= buffer.Length
    modifies buffer
    ensures start <= after <= buffer.Length
    ensures AddHead(old(buffer[..index]), buffer.Length, o) == if ok then Some(buffer[..after]) else None
    ensures ok && o.instances != [] ==>
              after == start + |Template(o.id)| && buffer[start..after] == Template(o.id)
  {
    start := index;
    ok, after := AppendTemplate(buffer, index, o.id);
    if !ok {
      return;
    }
    if o.major != 0 || o.minor != 0 {
      ok, after, start := AppendVersioned(buffer, after, o);
    } else if o.instances == [] {
      after := after - 1;
      assert buffer[..after] == buffer[..after + 1][..after];
      ok, after := AppendString(buffer, after, PATH_END);
    }
  }

  // One round of the loop over the objects.
  method AppendObject(buffer: array<char>, index: nat, o: Entry) returns (ok: bool, after: nat)
    requires index <= buffer.Length
    modifies buffer
    ensures after <= buffer.Length
    ensures AddObject(old(buffer[..index]), buffer.Length, o) == if ok then Some(buffer[..after]) else None
  {
    var start;
    ok, after, start := AppendHead(buffer, index, o);
    if ok && o.instances != [] {
      ok, after := AppendInstances(buffer, after, o.id, start, after - start, o.instances);
    }
  }

  // object_getRegisterPayload; zero on failure
  method GetRegisterPayload(altPath: string, objectList: seq<Entry>, buffer: array<char>) returns (index: nat)
    requires NoNull(altPath)
    modifies buffer
    ensures match Payload(altPath, objectList, buffer.Length)
            case None => index == 0
            case Some(t) => index == |t| <= buffer.Length && buffer[..index] == t
  {
    assert buffer[..0] == "";
    var ok;
    ok, index := AppendString(buffer, 0, "<");
    if !ok {
      return 0;
    }
    ok, index := AppendString(buffer, index, if altPath != "" then altPath else "/");
    if !ok {
      return 0;
    }
    ok, index := AppendString(buffer, index, RESOURCE_TYPE);
    if !ok {
      return 0;
    }
    ghost var head := buffer[..index];
    assert Header(altPath, buffer.Length) == Some(head);
    ok, index := AppendObjects(buffer, index, objectList);
    if !ok {
      return 0;
    }
    index := index - 1;
    buffer[index] := '\0';
  }

  // The loop over the objects.
  method AppendObjects(buffer: array<char>, index: nat, objectList: seq<Entry>) returns (ok: bool, after: nat)
    requires 0 < index <= buffer.Length
    modifies buffer
    ensures after <= buffer.Length
    ensures AddObjects(old(buffer[..index]), buffer.Length, objectList) ==
            if ok then Some(buffer[..after]) else None
  {
    ok, after := true, index;
    var k := 0;
    assert objectList[0..] == objectList;
    while k < |objectList|
      invariant k <= |objectList| && 0 < after <= buffer.Length && ok
      invariant AddObjects(old(buffer[..index]), buffer.Length, objectList) ==
                AddObjects(buffer[..after], buffer.Length, objectList[k..])
    {
      assert objectList[k..][0] == objectList[k] && objectList[k..][1..] == objectList[k + 1..];
      if objectList[k].id != SECURITY {
        ok, after := AppendObject(buffer, after, objectList[k]);
        if !ok {
          return;
        }
      }
      k := k + 1;
    }
  }

  // ----- object_getRegisterPayloadBufferLength ------------------------------

  // Index arithmetic only; `buffer` is a scratch area. What comes before the
  // instances, and for them the template that starts at `start`.
  method HeadLength(o: Entry, indexIn: nat, buffer: array<char>) returns (index: nat, start: nat, length: nat)
    requires buffer.Length == MIN_LEN + 5
    modifies buffer
    ensures length == |Template(o.id)|
    ensures start == indexIn + if o.instances == [] then 0 else |HeadText(o)|
    ensures index == if o.instances == [] then indexIn + |HeadText(o)| else start + length
  {
    IdLength(o.id);
    start := indexIn;
    var n := PrintTemplate(buffer, 0, o.id);
    length := n;
    index := indexIn + length;
    if o.major != 0 || o.minor != 0 {
      index := index - 1;
      index := index + |VERSION_START|;
      ByteLength(o.major);
      ByteLength(o.minor);
      n := UintToText(o.major, buffer, 0, buffer.Length);
      index := index + n + 1;
      n := UintToText(o.minor, buffer, 0, buffer.Length);
      index := index + n + 1;
      if o.instances != [] {
        start := index;
        index := index + length;
      }
    } else if o.instances == [] {
      index := index - 1;
      index := index + |PATH_END|;
    }
  }

  method ObjectLength(o: Entry, indexIn: nat) returns (index: nat)
    ensures index == indexIn + |ObjectText(o)|
  {
    var buffer := new char[MIN_LEN + 5];
    var start, length;
    index, start, length := HeadLength(o, indexIn, buffer);
    var k := 0;
    assert o.instances[0..] == o.instances;
    ghost var total := index - (if o.instances == [] then 0 else length) + |InstancesText(o.id, o.instances)|;
    while k < |o.instances|
      invariant k <= |o.instances| && (k > 0 ==> index > start + length)
      invariant k == 0 && o.instances != [] ==> index == start + length
      invariant total == index - (if k == 0 && o.instances != [] then length else 0)
                         + |InstancesText(o.id, o.instances[k..])|
    {
      assert o.instances[k..][1..] == o.instances[k + 1..];
      if index != start + length {
        index := index + length;
      }
      IdLength(o.instances[k]);
      var n := UintToText(o.instances[k], buffer, 0, buffer.Length);
      index := index + n;
      index := index + |PATH_END|;
      k := k + 1;
    }
  }

  ghost function LengthOf(os: seq<Entry>): nat { |ObjectsText(WithoutOscore(os))| }

  lemma LengthStep(os: seq<Entry>)
    requires os != []
    ensures LengthOf(os) ==
            (if os[0].id == SECURITY || os[0].id == OSCORE then 0 else |ObjectText(os[0])|) + LengthOf(os[1..])
  {
    var rest := WithoutOscore(os[1..]);
    if os[0].id == OSCORE {
      assert [] + rest == rest;
    } else {
      assert ([os[0]] + rest)[1..] == rest;
    }
  }

  method GetRegisterPayloadBufferLength(altPath: string, objectList: seq<Entry>) returns (index: nat)
    ensures index == BufferLength(altPath, objectList)
  {
    index := 1;
    if altPath != "" {
      index := index + |altPath|;
    } else {
      index := index + 1;
    }
    index := index + |RESOURCE_TYPE|;
    var k := 0;
    assert objectList[0..] == objectList;
    ghost var total := index + LengthOf(objectList);
    while k < |objectList|
      invariant k <= |objectList| && total == index + LengthOf(objectList[k..])
    {
      LengthStep(objectList[k..]);
      assert objectList[k..][0] == objectList[k] && objectList[k..][1..] == objectList[k + 1..];
      if objectList[k].id != SECURITY && objectList[k].id != OSCORE {
        index := ObjectLength(objectList[k], index);
      }
      k := k + 1;
    }
    index := index + 1;
  }
}
