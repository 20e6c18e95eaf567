// The server's link-format parser as written: loops that advance an index, or
// cut the front off the data, each proved to read what is specified
// (wakaama/core/registration.c).
module LinkReader {
  import opened Common
  import opened Decimal
  import opened Text
  import opened SortedList
  import opened LinkFormat
  import opened LinkParser

  method Skip(s: string, from: nat) returns (i: nat)
    requires from <= |s|
    ensures i == SkipSpaces(s, from)
  {
    i := from;
    while i < |s| && s[i] == ' '
      invariant from <= i <= |s| && SkipSpaces(s, i) == SkipSpaces(s, from)
    {
      i := i + 1;
    }
  }

  method Scan(s: string, from: nat, c: char) returns (i: nat)
    requires from <= |s|
    ensures i == ScanTo(s, from, c)
  {
    i := from;
    while i < |s| && s[i] != c
      invariant from <= i <= |s| && ScanTo(s, i, c) == ScanTo(s, from, c)
    {
      i := i + 1;
    }
  }

  method TrimEnd(e: string) returns (data: string)
    ensures data == Trim(e)
  {
    data := e;
    while data != "" && data[|data| - 1] == ' '
      invariant Trim(data) == Trim(e)
      decreases |data|
    {
      data := data[..|data| - 1];
    }
  }

  // The ids of a link, after its "</".
  method ReadIds(d: string) returns (r: Option<Ids>)
    ensures r == ObjectPart(d)
  {
    var data := d;
    var limit := 0;
    while limit < |data| && data[limit] != '/' && data[limit] != '>'
      invariant limit <= |data| && ScanToEither(data, limit, '/', '>') == ScanToEither(data, 0, '/', '>')
    {
      limit := limit + 1;
    }
    if limit == 0 || limit >= |data| {
      return None;
    }
    var value := IdOf(data[..limit]);
    if value == None {
      return None;
    }
    if data[limit] == '/' {
      r := ReadInstance(value.value, data[limit + 1..]);
    } else {
      r := Some(Ids(value.value, None, data[limit + 1..]));
    }
  }

  method ReadInstance(id: uint16, data: string) returns (r: Option<Ids>)
    ensures r == InstancePart(id, data)
  {
    var limit := Scan(data, 0, '>');
    if limit >= |data| {
      return None;
    }
    var instance := None;
    if limit > 0 {
      instance := IdOf(data[..limit]);
      if instance == None {
        return None;
      }
    }
    r := Some(Ids(id, instance, data[limit + 1..]));
  }

  // The separator after an attribute is passed over.
  method SkipAttribute(data: string, limit: nat) returns (rest: string)
    requires limit <= |data|
    ensures rest == AfterAttribute(data, limit)
  {
    var n := limit;
    if n < |data| && data[n] == ';' {
      n := n + 1;
    }
    rest := data[n..];
  }

  // The version attribute: quotes are taken off on either side, then the dot
  // is looked for.
  method ReadVersion(d: string, n: nat) returns (r: Option<VersionRead>)
    requires 4 < n <= |d|
    ensures r == VersionAttribute(d, n)
  {
    if n < 6 {
      return None;
    }
    var data, limit := d, n;
    if data[4] == '"' {
      data := data[1..];
      limit := limit - 1;
    }
    var end := limit;
    if data[end - 1] == '"' {
      end := end - 1;
    }
    r := ReadNumbers(data, limit, end);
  }

  method ReadNumbers(data: string, limit: nat, end: nat) returns (r: Option<VersionRead>)
    requires end <= limit <= |data|
    ensures r == VersionNumbers(data, limit, end)
  {
    if end < 5 {
      return None;
    }
    var dot := Scan(data[..end], 5, '.');
    if dot > end - 2 {
      return None;
    }
    var major, minor := Version(data[4..dot]), Version(data[dot + 1..end]);
    if major == None || minor == None {
      return None;
    }
    var rest := SkipAttribute(data, limit);
    r := Some(VersionRead(major.value, minor.value, rest));
  }

  // The loop over the attributes of a link.
  method ReadAttributes(s: string) returns (r: Option<(byte, byte)>)
    ensures r == Attributes(s, (0, 0))
  {
    var data := s;
    var version: (byte, byte) := (0, 0);
    while data != ""
      invariant Attributes(s, (0, 0)) == Attributes(data, version)
      decreases |data|
    {
      var first := Skip(data, 0);
      ghost var was := data;
      data := data[first..];
      if data == "" {
        break;
      }
      var limit := Scan(data, 0, ';');
      if limit > 4 && data[..4] == "ver=" {
        if version != (0, 0) {
          return None;
        }
        var v := ReadVersion(data, limit);
        if v == None {
          return None;
        }
        version := (v.value.major, v.value.minor);
        data := v.value.after;
      } else {
        data := SkipAttribute(data, limit);
      }
    }
    r := Some(version);
    assert Attributes("", version) == Some(version) by { assert SkipSpaces("", 0) == 0; }
  }

  // prv_getId
  method ReadLink(e: string) returns (r: Option<Link>)
    ensures r == GetId(e)
  {
    var data := TrimEnd(e);
    if |data| < 1 || data[0] != '<' {
      return None;
    }
    if |data| < 2 || data[1] != '/' {
      return None;
    }
    var ids := ReadIds(data[2..]);
    if ids == None {
      return None;
    }
    var version: Option<(byte, byte)> := Some((0, 0));
    var rest := ids.value.rest;
    if |rest| > 1 && rest[0] == ';' {
      version := ReadAttributes(rest[1..]);
      if version == None {
        return None;
      }
    }
    r := Some(Link(ids.value.objectId, ids.value.instance, version.value.0, version.value.1));
  }

  // The last character of a value, without trailing spaces.
  method LastOf(s: string, first: nat, end: nat) returns (last: nat)
    requires first < end <= |s|
    ensures last == TrimFrom(s[..end], first)
  {
    last := end - 1;
    while last > first && s[last] == ' '
      invariant first <= last < end && TrimFrom(s[..last + 1], first) == TrimFrom(s[..end], first)
    {
      assert s[..last + 1][..last] == s[..last];
      last := last - 1;
    }
  }

  // prv_splitLinkAttribute
  method ReadAttribute(s: string) returns (r: Option<Attribute>)
    ensures r == Split(s)
  {
    var index := Skip(s, 0);
    if index == |s| {
      return None;
    }
    if s[index] == ';' {
      index := index + 1;
    }
    if index == |s| {
      return None;
    }
    var keyStart := index;
    index := Scan(s, index, '=');
    if index == keyStart || index == |s| {
      return None;
    }
    r := ReadValue(s, s[keyStart..index], index + 1);
  }

  method ReadValue(s: string, key: string, from: nat) returns (r: Option<Attribute>)
    requires from <= |s|
    ensures r == SplitValue(s, key, from)
  {
    var valueStart := Skip(s, from);
    if valueStart == |s| {
      return None;
    }
    var end := Scan(s, valueStart, ';');
    if end == valueStart {
      return Some(Attribute(key, "", s[end..]));
    }
    var last := LastOf(s, valueStart, end);
    if last == valueStart {
      return None;
    }
    r := Some(Attribute(key, s[valueStart..last + 1], s[end..]));
  }

  // The last '>' after the first character, or 0.
  method FindEnd(d: string) returns (index: nat)
    requires d != ""
    ensures index == LastEnd(d)
  {
    index := |d| - 1;
    assert d[..index + 1] == d;
    while index > 0 && d[index] != '>'
      invariant index < |d| && LastEnd(d[..index + 1]) == LastEnd(d)
    {
      assert d[..index + 1][..index] == d[..index];
      index := index - 1;
    }
  }

  // The path of the root and the attributes after it.
  method ReadSplitRoot(e: string) returns (r: Option<Root>)
    ensures r == SplitRoot(e)
  {
    var data := TrimEnd(e);
    if |data| < 2 || data[0] != '<' {
      return None;
    }
    data := data[1..];
    var index := FindEnd(data);
    if index == 0 || index == |data| - 1 {
      return None;
    }
    var pathStart := 0;
    if data[0] == '/' {
      pathStart := 1;
    }
    if data[index + 1] != ';' {
      return None;
    }
    r := Some(Root(data[pathStart..index], data[index + 2..]));
  }

  // The description of the root, and the loop over its attributes.
  method ReadRoot(e: string) returns (r: Option<(Format, Option<string>)>)
    ensures r == LinkAttributes(e)
  {
    var root := ReadSplitRoot(e);
    if root == None {
      return None;
    }
    var data := root.value.attributes;
    var format, types := TLV, 0;
    while data != ""
      invariant LinkAttributesFrom(root.value.attributes, 0, TLV) == LinkAttributesFrom(data, types, format)
      decreases |data|
    {
      var a := ReadAttribute(data);
      if a == None {
        return None;
      }
      if a.value.key == "rt" {
        if a.value.value != "\"oma.lwm2m\"" || types > 0 {
          return None;
        }
        types := types + 1;
      } else if a.value.key == "ct" {
        if format != TLV {
          return None;
        }
        var f := FormatOf(a.value.value);
        if f == None {
          return None;
        }
        format := f.value;
      }
      data := a.value.after;
    }
    r := Some((format, if root.value.path == "" then None else Some(root.value.path)));
  }

  ghost predicate StandsForReadItem(f: string -> ItemRead) {
    forall e {:trigger ReadItem(e)} :: f(e) == ReadItem(e)
  }

  // One item of the payload.
  method TakeItem(item: string, d: Decoded, ghost f: string -> ItemRead) returns (r: Option<Decoded>)
    requires StandsForReadItem(f)
    ensures r == Take(f(item), d)
  {
    assert f(item) == ReadItem(item);
    var l := ReadLink(item);
    if l.Some? {
      r := Some(d.(objects := AddLink(d.objects, l.value)));
    } else if !d.linkSeen {
      var root := ReadRoot(item);
      if root == None {
        return None;
      }
      r := Some(d.(linkSeen := true, format := root.value.0, altPath := root.value.1));
    } else {
      r := None;
    }
  }

  // The loop of prv_decodeRegisterPayload from position index on; f reads one
  // item.
  ghost function DecodeFrom(f: string -> ItemRead, p: string, index: nat, d: Decoded): Option<Decoded>
    decreases |p| + 1 - index
  {
    match NextItem(p, index)
    case None => Some(d)
    case Some((item, after)) =>
      var next :- Take(f(item), d);
      DecodeFrom(f, p, after, next)
  }

  lemma CollectNext(f: string -> ItemRead, item: string, rest: seq<string>, d: Decoded)
    ensures var next := Take(f(item), d);
            Collect(Map(f, [item] + rest), d) == if next.Some? then Collect(Map(f, rest), next.value) else None
  {
    MapFirst(f, item, rest);
    assert ([f(item)] + Map(f, rest))[1..] == Map(f, rest);
  }

  // Reading item by item is the same as reading all items first.
  lemma {:induction false} DecodeFromIs(f: string -> ItemRead, p: string, index: nat, d: Decoded)
    ensures DecodeFrom(f, p, index, d) == Collect(Map(f, Items(p, index)), d)
    decreases |p| + 1 - index
  {
    match NextItem(p, index)
    case None =>
    case Some((item, after)) =>
      CollectNext(f, item, Items(p, after), d);
      var next := Take(f(item), d);
      if next.Some? { DecodeFromIs(f, p, after, next.value); }
  }

  // The next item, found by the two inner loops.
  method ReadItemAt(payload: string, indexIn: nat) returns (item: string, index: nat, last: bool)
    requires indexIn <= |payload|
    ensures NextItem(payload, indexIn) == if last then None else Some((item, index))
  {
    index := Skip(payload, indexIn);
    last := index == |payload|;
    if last {
      return "", index, true;
    }
    var start := index;
    index := Scan(payload, index, ',');
    item := ItemText(payload, start, index);
    index := index + 1;
  }

  // One round of the loop; it may be the last one.
  method Round(payload: string, indexIn: nat, d: Decoded, ghost f: string -> ItemRead)
    returns (r: Option<Decoded>, index: nat, last: bool)
    requires indexIn <= |payload| && StandsForReadItem(f)
    ensures last || indexIn < index <= |payload| + 1
    ensures DecodeFrom(f, payload, indexIn, d) ==
            if r.Some? && !last then DecodeFrom(f, payload, index, r.value) else r
  {
    var item;
    item, index, last := ReadItemAt(payload, indexIn);
    if last {
      return Some(d), index, true;
    }
    r := TakeItem(item, d, f);
  }

  // prv_decodeRegisterPayload
  method DecodeRegisterPayload(payload: string) returns (r: Option<Decoded>)
    ensures r == Decode(payload)
  {
    r := Some(Decoded(false, TLV, None, []));
    var index, last := 0, false;
    DecodeFromIs(ReadItem, payload, 0, r.value);
    while index <= |payload| && !last
      invariant r.Some? && (last || index <= |payload| + 1)
      invariant Decode(payload) == if last then r else DecodeFrom(ReadItem, payload, index, r.value)
      decreases !last, |payload| + 1 - index
    {
      r, index, last := Round(payload, index, r.value, ReadItem);
      if r == None {
        return;
      }
    }
  }
}
