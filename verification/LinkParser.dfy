// The server's reading of a registration payload (RFC 6690 section 2;
// wakaama/core/registration.c), and its agreement with what clients print.
module LinkParser {
  import opened Common
  import opened Decimal
  import opened Text
  import opened SortedList
  import opened LinkFormat

  // ----- prv_getId ----------------------------------------------------------

  // A link to an object, or to an instance of one.
  datatype Link = Link(objectId: uint16, instance: Option<uint16>, major: byte, minor: byte)

  function IdOf(s: string): Option<uint16> {
    var n :- GetNumber(s);
    if n >= MAX_ID as int then None else Some(n)
  }

  function Version(s: string): Option<byte> {
    var n :- TextToUInt(s);
    if n > 0xFF then None else Some(n)
  }

  // After an attribute that ends at position n. The character just past the
  // data is never a separator.
  function AfterAttribute(d: string, n: nat): (r: string)
    requires n <= |d|
    ensures |r| <= |d| - n && (n == 0 && d != "" && d[0] == ';' ==> |r| < |d|)
  {
    if n < |d| && d[n] == ';' then d[n + 1..] else d[n..]
  }

  datatype VersionRead = VersionRead(major: byte, minor: byte, after: string)

  // The version attribute at the start of d, `n` bytes long, with or without
  // quotes; and what follows it.
  function VersionAttribute(d: string, n: nat): (r: Option<VersionRead>)
    requires 4 < n <= |d|
    ensures r.Some? ==> |r.value.after| < |d|
  {
    if n < 6 then None
    else
      var e := if d[4] == '"' then d[1..] else d;
      var n1 := if d[4] == '"' then n - 1 else n;
      var n2 := if e[n1 - 1] == '"' then n1 - 1 else n1;
      VersionNumbers(e, n1, n2)
  }

  // The two numbers before position n2, and what follows the attribute, which
  // ends at n1.
  function VersionNumbers(e: string, n1: nat, n2: nat): (r: Option<VersionRead>)
    requires n2 <= n1 <= |e|
    ensures r.Some? ==> |r.value.after| < |e|
  {
    if n2 < 5 then None
    else
      var dot := ScanTo(e[..n2], 5, '.');
      if dot > n2 - 2 then None
      else
        var major :- Version(e[4..dot]);
        var minor :- Version(e[dot + 1..n2]);
        Some(VersionRead(major, minor, AfterAttribute(e, n1)))
  }

  function Attributes(s: string, version: (byte, byte)): Option<(byte, byte)>
    decreases |s|
  {
    var d := s[SkipSpaces(s, 0)..];
    if d == "" then Some(version)
    else
      var n := ScanTo(d, 0, ';');
      if n > 4 && d[..4] == "ver=" then
        if version != (0, 0) then None
        else
          var r :- VersionAttribute(d, n);
          Attributes(r.after, (r.major, r.minor))
      else
        Attributes(AfterAttribute(d, n), version)
  }

  // The version among the attributes after the closing '>'.
  function VersionOf(d: string): Option<(byte, byte)> {
    if |d| > 1 && d[0] == ';' then Attributes(d[1..], (0, 0)) else Some((0, 0))
  }

  // The ids in a link, and what follows the closing '>'.
  datatype Ids = Ids(objectId: uint16, instance: Option<uint16>, rest: string)

  function InstancePart(objectId: uint16, d: string): Option<Ids> {
    var n := ScanTo(d, 0, '>');
    if n >= |d| then None
    else if n == 0 then Some(Ids(objectId, None, d[1..]))
    else
      var i :- IdOf(d[..n]);
      Some(Ids(objectId, Some(i), d[n + 1..]))
  }

  function ObjectPart(d: string): Option<Ids> {
    var n := ScanToEither(d, 0, '/', '>');
    if n == 0 || n >= |d| then None
    else
      var objectId :- IdOf(d[..n]);
      if d[n] == '/' then InstancePart(objectId, d[n + 1..]) else Some(Ids(objectId, None, d[n + 1..]))
  }

  function GetId(e: string): Option<Link> {
    var d := Trim(e);
    if |d| < 2 || d[0] != '<' || d[1] != '/' then None
    else
      var ids :- ObjectPart(d[2..]);
      var version :- VersionOf(ids.rest);
      Some(Link(ids.objectId, ids.instance, version.0, version.1))
  }

  // ----- prv_parseLinkAttributes --------------------------------------------

  datatype Format = TLV | JSON | SENML_JSON | SENML_CBOR

  datatype Attribute = Attribute(key: string, value: string, after: string)

  function TrimFrom(s: string, first: nat): (last: nat)
    requires first < |s|
    ensures first <= last < |s|
  {
    if |s| > first + 1 && s[|s| - 1] == ' ' then TrimFrom(s[..|s| - 1], first) else |s| - 1
  }

  // The value that starts at position `from`. A value of one character is
  // refused, an empty one is not.
  function SplitValue(s: string, key: string, from: nat): (r: Option<Attribute>)
    requires from <= |s|
    ensures r.Some? ==> |r.value.after| <= |s| - from
  {
    var value := SkipSpaces(s, from);
    if value == |s| then None
    else
      var end := ScanTo(s, value, ';');
      if end == value then Some(Attribute(key, "", s[end..]))
      else
        var last := TrimFrom(s[..end], value);
        if last == value then None else Some(Attribute(key, s[value..last + 1], s[end..]))
  }

  // prv_splitLinkAttribute
  function Split(s: string): (r: Option<Attribute>)
    ensures r.Some? ==> |r.value.after| < |s|
  {
    var i := SkipSpaces(s, 0);
    if i == |s| then None
    else
      var key := if s[i] == ';' then i + 1 else i;
      if key == |s| then None
      else
        var eq := ScanTo(s, key, '=');
        if eq == key || eq == |s| then None else SplitValue(s, s[key..eq], eq + 1)
  }

  function FormatOf(value: string): Option<Format> {
    if value == "11543" then Some(JSON)
    else if value == "110" then Some(SENML_JSON)
    else if value == "112" then Some(SENML_CBOR)
    else None
  }

  function LinkAttributesFrom(s: string, types: nat, format: Format): Option<Format>
    decreases |s|
  {
    if s == "" then Some(format)
    else
      var a :- Split(s);
      if a.key == "rt" then
        if a.value != "\"oma.lwm2m\"" || types > 0 then None else LinkAttributesFrom(a.after, types + 1, format)
      else if a.key == "ct" then
        if format != TLV then None
        else
          var f :- FormatOf(a.value);
          LinkAttributesFrom(a.after, types, f)
      else LinkAttributesFrom(a.after, types, format)
  }

  // The last '>' after the first character, or 0.
  function LastEnd(s: string): (r: nat)
    requires s != ""
    ensures r < |s|
  {
    if |s| == 1 then 0 else if s[|s| - 1] == '>' then |s| - 1 else LastEnd(s[..|s| - 1])
  }

  datatype Root = Root(path: string, attributes: string)

  // The path, without its leading slash, and the attributes after it.
  function SplitRoot(e: string): Option<Root> {
    var t := Trim(e);
    if |t| < 2 || t[0] != '<' then None
    else
      var d := t[1..];
      var end := LastEnd(d);
      if end == 0 || end == |d| - 1 || d[end + 1] != ';' then None
      else Some(Root(if d[0] == '/' then d[1..end] else d[..end], d[end + 2..]))
  }

  // The content format and the alternate path.
  function LinkAttributes(e: string): Option<(Format, Option<string>)> {
    var root :- SplitRoot(e);
    var format :- LinkAttributesFrom(root.attributes, 0, TLV);
    Some((format, if root.path == "" then None else Some(root.path)))
  }

  // ----- prv_decodeRegisterPayload ------------------------------------------

  datatype Decoded = Decoded(linkSeen: bool, format: Format, altPath: Option<string>, objects: seq<Entry>)

  const EntryId: Entry -> int := (o: Entry) => o.id
  const InstanceId: uint16 -> int := (i: uint16) => i

  // A link to an object sets its version, a link to an instance adds it.
  function Linked(o: Entry, l: Link): Entry {
    match l.instance
    case None => o.(major := l.major, minor := l.minor)
    case Some(i) =>
      if Find(o.instances, InstanceId, i).Some? then o
      else o.(instances := Add(o.instances, InstanceId, i))
  }

  function AddLink(objects: seq<Entry>, l: Link): seq<Entry> {
    var k := Below(objects, EntryId, l.objectId);
    if k < |objects| && objects[k].id == l.objectId then objects[k := Linked(objects[k], l)]
    else Add(objects, EntryId, Linked(Entry(l.objectId, 0, 0, []), l))
  }

  // An item of the payload is a link, or else the description of the root.
  datatype ItemRead = IsLink(l: Link) | IsRoot(format: Format, altPath: Option<string>) | IsNothing

  function ReadItem(e: string): ItemRead {
    var l := GetId(e);
    if l.Some? then IsLink(l.value)
    else
      var r := LinkAttributes(e);
      if r.Some? then IsRoot(r.value.0, r.value.1) else IsNothing
  }

  // What 16 bits keep of a position.
  function Low16(n: nat): (r: nat)
    ensures r <= n && (n < 0x1_0000 ==> r == n)
  {
    n % 0x1_0000
  }

  // start and length are 16 bits wide.
  function ItemText(p: string, start: nat, end: nat): string
    requires start <= end <= |p|
  {
    var s := Low16(start);
    p[s..s + Low16(end - s)]
  }

  // The item at a position, without leading spaces, up to the next comma; and
  // the position after it. None at the end.
  function NextItem(p: string, index: nat): (r: Option<(string, nat)>)
    ensures r.Some? ==> index < r.value.1 <= |p| + 1
  {
    if index > |p| then None
    else
      var start := SkipSpaces(p, index);
      if start == |p| then None
      else
        var end := ScanTo(p, start, ',');
        Some((ItemText(p, start, end), end + 1))
  }

  function Items(p: string, index: nat): seq<string>
    decreases |p| + 1 - index
  {
    match NextItem(p, index)
    case None => []
    case Some((item, next)) => [item] + Items(p, next)
  }

  // The root may be described once, before or after any links.
  function Take(item: ItemRead, d: Decoded): Option<Decoded> {
    match item
    case IsLink(l) => Some(d.(objects := AddLink(d.objects, l)))
    case IsRoot(format, altPath) =>
      if d.linkSeen then None else Some(d.(linkSeen := true, format := format, altPath := altPath))
    case IsNothing => None
  }

  function Collect(items: seq<ItemRead>, d: Decoded): Option<Decoded>
    decreases items
  {
    if items == [] then Some(d)
    else
      var next :- Take(items[0], d);
      Collect(items[1..], next)
  }

  function Decode(p: string): Option<Decoded> {
    Collect(Map(ReadItem, Items(p, 0)), Decoded(false, TLV, None, []))
  }

  // ----- Reading back what was printed --------------------------------------

  ghost predicate WellFormed(o: Entry) {
    o.id < MAX_ID && StrictlySorted(o.instances, InstanceId) &&
    forall i :: 0 <= i < |o.instances| ==> o.instances[i] < MAX_ID
  }

  // The object list of a client: sorted, no id twice.
  ghost predicate Proper(os: seq<Entry>) {
    StrictlySorted(os, EntryId) && forall i :: 0 <= i < |os| ==> WellFormed(os[i])
  }

  ghost predicate Writable(l: Link) {
    l.objectId < MAX_ID && (l.instance.Some? ==> l.instance.value < MAX_ID && l.major == 0 && l.minor == 0)
  }

  function VersionDigits(major: byte, minor: byte): string { "ver=" + Digits(major) + "." + Digits(minor) }

  // The version attribute, when there is one.
  function RestText(l: Link): string {
    if l.instance == None && (l.major != 0 || l.minor != 0) then ";" + VersionDigits(l.major, l.minor) else ""
  }

  function TailText(l: Link): string {
    match l.instance
    case Some(i) => "/" + (Digits(i) + ">")
    case None => ">" + RestText(l)
  }

  function LinkText(l: Link): string { "</" + Digits(l.objectId) + TailText(l) }

  lemma DigitsPlain(n: nat)
    ensures forall i :: 0 <= i < |Digits(n)| ==> IsDigit(Digits(n)[i])
  {
    NumeralOfDigits(n);
  }

  // Where the parts of the attribute are.
  lemma VersionShape(a: string, b: string)
    requires AllDigits(a) && AllDigits(b) && a != "" && b != ""
    ensures var d := "ver=" + a + "." + b; var n := 4 + |a|;
            && d[..4] == "ver=" && IsDigit(d[4]) && IsDigit(d[|d| - 1])
            && d[4..n] == a && d[n + 1..|d|] == b && d[..|d|] == d
            && ScanTo(d, 5, '.') == n && ScanTo(d, 0, ';') == |d|
  {
    var d := "ver=" + a + "." + b;
    var n := 4 + |a|;
    assert d[4] == a[0] && d[|d| - 1] == b[|b| - 1] && d[n] == '.';
    assert forall k :: 4 <= k < n ==> d[k] == a[k - 4];
    assert forall k :: n < k < |d| ==> d[k] == b[k - n - 1];
    ScanIs(d, 5, '.', n);
    ScanIs(d, 0, ';', |d|);
  }

  lemma VersionReadBack(major: byte, minor: byte)
    ensures var d := VersionDigits(major, minor); VersionAttribute(d, |d|) == Some(VersionRead(major, minor, ""))
  {
    var a, b := Digits(major), Digits(minor);
    var d := VersionDigits(major, minor);
    NumeralOfDigits(major);
    NumeralOfDigits(minor);
    VersionShape(a, b);
    DigitsReadBack(major);
    DigitsReadBack(minor);
    assert d[|d|..] == "";
  }

  lemma VersionOfReadBack(major: byte, minor: byte)
    ensures VersionOf(";" + VersionDigits(major, minor)) == Some((major, minor))
  {
    var d := VersionDigits(major, minor);
    var e := ";" + d;
    NumeralOfDigits(major);
    NumeralOfDigits(minor);
    VersionShape(Digits(major), Digits(minor));
    assert e[1..] == d && d[0..] == d;
    VersionReadBack(major, minor);
    assert Attributes("", (major, minor)) == Some((major, minor));
  }

  lemma IdReadBack(id: uint16)
    requires id < MAX_ID
    ensures IdOf(Digits(id)) == Some(id)
  {
    GetDigits(id);
  }

  lemma InstanceReadBack(id: uint16, i: uint16, d: string)
    requires i < MAX_ID && d == Digits(i) + ">"
    ensures InstancePart(id, d) == Some(Ids(id, Some(i), ""))
  {
    var n := |Digits(i)|;
    NumeralOfDigits(i);
    assert forall k :: 0 <= k < n ==> d[k] == Digits(i)[k] && IsDigit(d[k]);
    assert d[n] == '>';
    ScanIs(d, 0, '>', n);
    assert d[..n] == Digits(i) && d[n + 1..] == "";
    IdReadBack(i);
  }

  lemma ObjectShape(d: string, id: string, tail: string)
    requires d == id + tail && AllDigits(id) && id != "" && tail != "" && (tail[0] == '/' || tail[0] == '>')
    ensures var n := |id|;
            ScanToEither(d, 0, '/', '>') == n && d[..n] == id && d[n] == tail[0] && d[n + 1..] == tail[1..]
  {
    assert forall k :: 0 <= k < |id| ==> d[k] == id[k] && IsDigit(d[k]);
    assert d[|id|] == tail[0];
    ScanEitherIs(d, 0, '/', '>', |id|);
  }

  lemma InstanceLinkIds(d: string, id: uint16, i: uint16)
    requires id < MAX_ID && i < MAX_ID && d == Digits(id) + ("/" + (Digits(i) + ">"))
    ensures ObjectPart(d) == Some(Ids(id, Some(i), ""))
  {
    var tail := "/" + (Digits(i) + ">");
    NumeralOfDigits(id);
    ObjectShape(d, Digits(id), tail);
    IdReadBack(id);
    assert tail[1..] == Digits(i) + ">";
    InstanceReadBack(id, i, tail[1..]);
  }

  lemma ObjectLinkIds(d: string, id: uint16, rest: string)
    requires id < MAX_ID && d == Digits(id) + (">" + rest)
    ensures ObjectPart(d) == Some(Ids(id, None, rest))
  {
    NumeralOfDigits(id);
    ObjectShape(d, Digits(id), ">" + rest);
    IdReadBack(id);
    assert (">" + rest)[1..] == rest;
  }

  lemma ObjectPartReadBack(l: Link, d: string)
    requires Writable(l) && d == Digits(l.objectId) + TailText(l)
    ensures ObjectPart(d) == Some(Ids(l.objectId, l.instance, RestText(l)))
  {
    if l.instance.Some? {
      InstanceLinkIds(d, l.objectId, l.instance.value);
    } else {
      ObjectLinkIds(d, l.objectId, RestText(l));
    }
  }

  lemma DigitsThenBracket(n: nat)
    ensures var t := "/" + (Digits(n) + ">");
            t[|t| - 1] == '>' && forall k :: 0 <= k < |t| ==> t[k] != ','
  {
    DigitsPlain(n);
  }

  lemma VersionTail(major: byte, minor: byte)
    ensures var t := ";" + VersionDigits(major, minor);
            IsDigit(t[|t| - 1]) && forall k :: 0 <= k < |t| ==> t[k] != ','
  {
    DigitsPlain(major);
    DigitsPlain(minor);
    var t, m := ";" + VersionDigits(major, minor), Digits(minor);
    assert t[|t| - 1] == m[|m| - 1];
  }

  lemma TailEnd(l: Link)
    ensures var t := TailText(l); t[|t| - 1] == '>' || IsDigit(t[|t| - 1])
    ensures forall k :: 0 <= k < |TailText(l)| ==> TailText(l)[k] != ','
  {
    if l.instance.Some? {
      DigitsThenBracket(l.instance.value);
    } else if l.major != 0 || l.minor != 0 {
      VersionTail(l.major, l.minor);
    }
  }

  // prv_getId undoes the printing of a link.
  lemma LinkReadBack(l: Link)
    requires Writable(l)
    ensures GetId(LinkText(l)) == Some(l)
  {
    var t := LinkText(l);
    TailEnd(l);
    assert t[|t| - 1] == TailText(l)[|TailText(l)| - 1];
    assert Trim(t) == t;
    assert t[2..] == Digits(l.objectId) + TailText(l);
    ObjectPartReadBack(l, t[2..]);
    VersionOfReadBack(l.major, l.minor);
  }

  lemma LinkPlain(l: Link)
    ensures LinkText(l) != "" && LinkText(l)[0] == '<'
    ensures forall k :: 0 <= k < |LinkText(l)| ==> LinkText(l)[k] != ','
  {
    DigitsPlain(l.objectId);
    TailEnd(l);
    var t := LinkText(l);
    var id := Digits(l.objectId);
    assert forall k :: 2 <= k < 2 + |id| ==> t[k] == id[k - 2];
    assert forall k :: 2 + |id| <= k < |t| ==> t[k] == TailText(l)[k - 2 - |id|];
  }

  // ----- The whole payload --------------------------------------------------

  function Commas(items: seq<string>): string {
    if items == [] then "" else items[0] + "," + Commas(items[1..])
  }

  function AddLinks(objects: seq<Entry>, ls: seq<Link>): seq<Entry>
    decreases ls
  {
    if ls == [] then objects else AddLinks(AddLink(objects, ls[0]), ls[1..])
  }

  ghost predicate Plain(item: string) {
    item != "" && item[0] != ' ' && forall k :: 0 <= k < |item| ==> item[k] != ','
  }

  ghost predicate AllPlain(items: seq<string>) { forall k :: 0 <= k < |items| ==> Plain(items[k]) }

  lemma ItemTextIs(p: string, start: nat, end: nat)
    requires start <= end <= |p| < 0x1_0000
    ensures ItemText(p, start, end) == p[start..end]
  {
  }

  lemma ItemPlace(p: string, index: nat, item: string, rest: string)
    requires index <= |p| && p[index..] + "," == item + "," + rest
    ensures index + |item| <= |p| && p[index..index + |item|] == item
    ensures index + |item| < |p| ==> p[index + |item|] == ',' && p[index + |item| + 1..] + "," == rest
    ensures index + |item| == |p| <==> rest == ""
  {
    var q := p[index..] + ",";
    var n := |item|;
    assert |q| == |p| - index + 1 && q[..n] == item && q[n] == ',';
    if index + n < |p| {
      assert p[index + n + 1..] + "," == q[n + 1..];
    }
  }

  lemma FirstItem(p: string, index: nat, item: string)
    requires Plain(item) && index + |item| <= |p| < 0x1_0000
    requires p[index..index + |item|] == item && (index + |item| < |p| ==> p[index + |item|] == ',')
    ensures Items(p, index) == [item] + Items(p, index + |item| + 1)
  {
    var end := index + |item|;
    forall k | index <= k < end ensures p[k] == item[k - index] {
      assert p[k] == p[index..end][k - index];
    }
    ScanIs(p, index, ',', end);
    ItemTextIs(p, index, end);
  }

  // The items joined by commas are what is left of p.
  ghost predicate Remaining(p: string, index: nat, items: seq<string>) {
    index <= |p| < 0x1_0000 && items != [] && p[index..] + "," == Commas(items) && AllPlain(items)
  }

  lemma RemainingFirst(p: string, index: nat, items: seq<string>)
    requires Remaining(p, index, items)
    ensures var end := index + |items[0]|;
            && end <= |p| && p[index..end] == items[0] && Plain(items[0])
            && (end < |p| ==> p[end] == ',')
            && (items[1..] == [] ==> end == |p|)
            && (items[1..] != [] ==> Remaining(p, end + 1, items[1..]))
  {
    var rest := items[1..];
    ItemPlace(p, index, items[0], Commas(rest));
    assert AllPlain(rest) by { assert forall k :: 0 <= k < |rest| ==> rest[k] == items[k + 1]; }
    if rest != [] { assert Commas(rest) != ""; }
  }

  lemma {:induction false} ItemsAre(p: string, index: nat, items: seq<string>)
    requires Remaining(p, index, items)
    ensures Items(p, index) == items
    decreases items
  {
    var item, rest := items[0], items[1..];
    RemainingFirst(p, index, items);
    if rest != [] {
      ItemsAre(p, index + |item| + 1, rest);
    }
    FirstItem(p, index, item);
    assert items == [item] + rest;
  }

  function Texts(ls: seq<Link>): seq<string> { Map(LinkText, ls) }

  const ToLink: Link -> ItemRead := l => IsLink(l)

  function Links(ls: seq<Link>): seq<ItemRead> { Map(ToLink, ls) }

  lemma LinkRead(l: Link)
    requires Writable(l)
    ensures ReadItem(LinkText(l)) == IsLink(l)
  {
    LinkReadBack(l);
  }

  lemma LinksRead(ls: seq<Link>)
    requires forall k :: 0 <= k < |ls| ==> Writable(ls[k])
    ensures Map(ReadItem, Texts(ls)) == Links(ls)
  {
    forall k | 0 <= k < |ls| ensures ReadItem(LinkText(ls[k])) == ToLink(ls[k]) {
      LinkRead(ls[k]);
    }
    MapTwice(LinkText, ReadItem, ToLink, ls);
  }

  lemma {:induction false} LinksCollected(ls: seq<Link>, d: Decoded)
    ensures Collect(Links(ls), d) == Some(d.(objects := AddLinks(d.objects, ls)))
    decreases ls
  {
    if ls != [] {
      var rest := Links(ls[1..]);
      assert Links(ls) == [IsLink(ls[0])] + rest && Links(ls)[1..] == rest;
      LinksCollected(ls[1..], d.(objects := AddLink(d.objects, ls[0])));
    }
  }

  // ----- From objects to links ----------------------------------------------

  function InstanceLinks(id: uint16, instances: seq<uint16>): seq<Link> {
    if instances == [] then [] else [Link(id, Some(instances[0]), 0, 0)] + InstanceLinks(id, instances[1..])
  }

  function HeadLinks(o: Entry): seq<Link> {
    if LinkFormat.Versioned(o) || o.instances == [] then [Link(o.id, None, o.major, o.minor)] else []
  }

  function LinksOf(o: Entry): seq<Link> { HeadLinks(o) + InstanceLinks(o.id, o.instances) }

  function AllLinks(os: seq<Entry>): seq<Link> {
    if os == [] then [] else LinksOf(os[0]) + AllLinks(os[1..])
  }

  function WithoutSecurity(os: seq<Entry>): seq<Entry> {
    if os == [] then []
    else if os[0].id == SECURITY then WithoutSecurity(os[1..]) else [os[0]] + WithoutSecurity(os[1..])
  }

  lemma {:induction false} CommasConcat(a: seq<string>, b: seq<string>)
    ensures Commas(a + b) == Commas(a) + Commas(b)
  {
    if a == [] {
      assert a + b == b && "" + Commas(b) == Commas(b);
    } else {
      assert (a + b)[1..] == a[1..] + b;
      CommasConcat(a[1..], b);
      Glue(a[0] + ",", Commas(a[1..]), Commas(b));
    }
  }

  lemma CommasFirst(item: string, items: seq<string>)
    ensures Commas([item] + items) == item + "," + Commas(items)
  {
    assert ([item] + items)[1..] == items;
  }

  lemma InstanceIsLink(id: uint16, i: uint16)
    ensures LinkText(Link(id, Some(i), 0, 0)) + "," == Template(id) + Digits(i) + PATH_END
  {
  }

  lemma {:induction false} InstancesAreLinks(id: uint16, instances: seq<uint16>)
    ensures InstancesText(id, instances) == Commas(Texts(InstanceLinks(id, instances)))
  {
    if instances != [] {
      var l, rest := Link(id, Some(instances[0]), 0, 0), InstanceLinks(id, instances[1..]);
      InstancesAreLinks(id, instances[1..]);
      assert ([l] + rest)[1..] == rest;
      CommasFirst(LinkText(l), Texts(rest));
      InstanceIsLink(id, instances[0]);
    }
  }

  lemma VersionGlue(x: string, a: string, b: string)
    ensures x + VERSION_START + a + "." + b == x + (">" + (";" + ("ver=" + a + "." + b)))
  {
    var h := ">" + ";";
    assert VERSION_START == h + "ver=";
    Glue(h, "ver=", a);
    Glue(h, "ver=" + a, ".");
    Glue(h, "ver=" + a + ".", b);
    Glue(">", ";", "ver=" + a + "." + b);
    Glue(x, VERSION_START, a);
    Glue(x, VERSION_START + a, ".");
    Glue(x, VERSION_START + a + ".", b);
  }

  lemma VersionedLinkText(o: Entry)
    requires LinkFormat.Versioned(o)
    ensures VersionText(o) == LinkText(Link(o.id, None, o.major, o.minor)) + ","
  {
    VersionGlue("</" + Digits(o.id), Digits(o.major), Digits(o.minor));
  }

  lemma HeadIsLinks(o: Entry)
    ensures HeadText(o) == Commas(Texts(HeadLinks(o)))
  {
    var l := Link(o.id, None, o.major, o.minor);
    var t := LinkText(l);
    if HeadLinks(o) != [] {
      assert HeadLinks(o) == [l] && [l][1..] == [];
      assert Texts([l]) == [t] + [];
      CommasFirst(t, []);
      assert t + "," + "" == t + ",";
      if LinkFormat.Versioned(o) { VersionedLinkText(o); }
    }
  }

  lemma LinksTogether(a: seq<Link>, b: seq<Link>)
    ensures Commas(Texts(a + b)) == Commas(Texts(a)) + Commas(Texts(b))
  {
    MapConcat(LinkText, a, b);
    CommasConcat(Texts(a), Texts(b));
  }

  lemma ObjectIsLinks(o: Entry)
    ensures ObjectText(o) == Commas(Texts(LinksOf(o)))
  {
    HeadIsLinks(o);
    InstancesAreLinks(o.id, o.instances);
    LinksTogether(HeadLinks(o), InstanceLinks(o.id, o.instances));
  }

  lemma OneObjectMore(o: Entry, text: string, rest: seq<Entry>)
    requires text == Commas(Texts(AllLinks(rest)))
    ensures ObjectText(o) + text == Commas(Texts(AllLinks([o] + rest)))
  {
    ObjectIsLinks(o);
    LinksTogether(LinksOf(o), AllLinks(rest));
    assert ([o] + rest)[1..] == rest;
  }

  lemma {:induction false} ObjectsAreLinks(os: seq<Entry>)
    ensures ObjectsText(os) == Commas(Texts(AllLinks(WithoutSecurity(os))))
  {
    if os != [] {
      ObjectsAreLinks(os[1..]);
      if os[0].id != SECURITY { OneObjectMore(os[0], ObjectsText(os[1..]), WithoutSecurity(os[1..])); }
    }
  }

  lemma {:induction false} AddLinksConcat(objects: seq<Entry>, a: seq<Link>, b: seq<Link>)
    ensures AddLinks(objects, a + b) == AddLinks(AddLinks(objects, a), b)
    decreases a
  {
    if a == [] { assert a + b == b; } else {
      assert (a + b)[1..] == a[1..] + b;
      AddLinksConcat(AddLink(objects, a[0]), a[1..], b);
    }
  }

  lemma {:induction false} BelowAll<T>(s: seq<T>, key: T -> int, id: int)
    requires forall i :: 0 <= i < |s| ==> key(s[i]) < id
    ensures Below(s, key, id) == |s| && AddAt(s, key, id) == |s|
  {
    if s != [] {
      assert forall i :: 0 <= i < |s| - 1 ==> s[1..][i] == s[i + 1];
      BelowAll(s[1..], key, id);
    }
  }

  lemma {:induction false} BelowLast(s: seq<Entry>, o: Entry)
    requires forall i :: 0 <= i < |s| ==> s[i].id < o.id
    ensures Below(s + [o], EntryId, o.id) == |s|
  {
    var t := s + [o];
    assert t[|s|] == o && EntryId(t[|s|]) == o.id;
    assert forall i :: 0 <= i < |s| ==> EntryId(t[i]) == s[i].id;
  }

  // The links of an object, read after smaller ones, build that object.
  lemma InstanceAdds(done: seq<Entry>, o: Entry, k: nat)
    requires WellFormed(o) && k < |o.instances| && forall i :: 0 <= i < |done| ==> done[i].id < o.id
    ensures AddLink(done + [o.(instances := o.instances[..k])], Link(o.id, Some(o.instances[k]), 0, 0)) ==
            done + [o.(instances := o.instances[..k + 1])]
  {
    var u := o.(instances := o.instances[..k]);
    BelowLast(done, u);
    assert forall i :: 0 <= i < k ==> InstanceId(o.instances[i]) < InstanceId(o.instances[k]);
    BelowAll(o.instances[..k], InstanceId, o.instances[k]);
    assert o.instances[..k] + [o.instances[k]] + [] == o.instances[..k + 1];
    var l := Link(o.id, Some(o.instances[k]), 0, 0);
    assert Linked(u, l) == o.(instances := o.instances[..k + 1]);
    assert (done + [u])[|done| := Linked(u, l)] == done + [Linked(u, l)];
  }

  lemma {:induction false} InstancesAdd(done: seq<Entry>, o: Entry, k: nat)
    requires WellFormed(o) && k <= |o.instances| && forall i :: 0 <= i < |done| ==> done[i].id < o.id
    ensures AddLinks(done + [o.(instances := o.instances[..k])], InstanceLinks(o.id, o.instances[k..])) == done + [o]
    decreases |o.instances| - k
  {
    if k < |o.instances| {
      InstanceAdds(done, o, k);
      assert o.instances[k..][0] == o.instances[k] && o.instances[k..][1..] == o.instances[k + 1..];
      var l, rest := Link(o.id, Some(o.instances[k]), 0, 0), InstanceLinks(o.id, o.instances[k + 1..]);
      InstancesAdd(done, o, k + 1);
      assert ([l] + rest)[1..] == rest;
    } else {
      assert o.instances[..k] == o.instances;
    }
  }

  lemma AddAfter(done: seq<Entry>, o: Entry)
    requires forall i :: 0 <= i < |done| ==> done[i].id < o.id
    ensures Add(done, EntryId, o) == done + [o]
    ensures Below(done, EntryId, o.id) == |done|
  {
    BelowAll(done, EntryId, o.id);
    assert done[..|done|] == done && done[|done|..] == [];
    assert done + [o] + [] == done + [o];
  }

  lemma LinksThen(done: seq<Entry>, a: seq<Link>, mid: seq<Entry>, b: seq<Link>, end: seq<Entry>)
    requires AddLinks(done, a) == mid && AddLinks(mid, b) == end
    ensures AddLinks(done, a + b) == end
  {
    AddLinksConcat(done, a, b);
  }

  lemma {:induction false} ObjectAdds(done: seq<Entry>, o: Entry)
    requires WellFormed(o) && forall i :: 0 <= i < |done| ==> done[i].id < o.id
    ensures AddLinks(done, LinksOf(o)) == done + [o]
  {
    var ls := InstanceLinks(o.id, o.instances);
    assert o.instances[0..] == o.instances;
    if HeadLinks(o) != [] {
      var l := Link(o.id, None, o.major, o.minor);
      AddAfter(done, o.(instances := []));
      assert [l][1..] == [] && o.instances[..0] == [];
      assert AddLinks(done, [l]) == AddLink(done, l);
      InstancesAdd(done, o, 0);
      LinksThen(done, [l], done + [o.(instances := [])], ls, done + [o]);
    } else {
      var i := o.instances[0];
      var l, rest := Link(o.id, Some(i), 0, 0), InstanceLinks(o.id, o.instances[1..]);
      assert [] + ls == ls && ls == [l] + rest && ls[1..] == rest;
      assert Linked(Entry(o.id, 0, 0, []), l) == o.(instances := [i]);
      assert o.instances[..1] == [i];
      AddAfter(done, o.(instances := [i]));
      InstancesAdd(done, o, 1);
    }
  }

  lemma ProperRest(os: seq<Entry>)
    requires Proper(os) && os != []
    ensures Proper(os[1..])
    ensures forall j :: 0 <= j < |os| - 1 ==> os[0].id < os[1..][j].id
  {
    var rest := os[1..];
    forall i, j | 0 <= i < j < |rest| ensures EntryId(rest[i]) < EntryId(rest[j]) {
      assert rest[i] == os[i + 1] && rest[j] == os[j + 1];
    }
    forall j | 0 <= j < |rest| ensures WellFormed(rest[j]) && os[0].id < rest[j].id {
      assert rest[j] == os[j + 1] && EntryId(os[0]) < EntryId(os[j + 1]);
    }
  }

  lemma {:induction false} ProperWithoutSecurity(os: seq<Entry>)
    requires Proper(os)
    ensures Proper(WithoutSecurity(os)) && forall o :: o in WithoutSecurity(os) ==> o in os
  {
    if os != [] {
      ProperRest(os);
      ProperWithoutSecurity(os[1..]);
      var rest := WithoutSecurity(os[1..]);
      if os[0].id != SECURITY {
        var r := [os[0]] + rest;
        forall i, j | 0 <= i < j < |r| ensures EntryId(r[i]) < EntryId(r[j]) {
          if i == 0 { assert r[j] in rest && r[j] in os[1..]; }
        }
      }
    }
  }

  // The objects added one after the other.
  function AddEach(done: seq<Entry>, os: seq<Entry>): seq<Entry>
    decreases os
  {
    if os == [] then done else AddEach(AddLinks(done, LinksOf(os[0])), os[1..])
  }

  lemma {:induction false} AddEachIs(done: seq<Entry>, os: seq<Entry>)
    ensures AddEach(done, os) == AddLinks(done, AllLinks(os))
    decreases os
  {
    if os != [] {
      AddLinksConcat(done, LinksOf(os[0]), AllLinks(os[1..]));
      AddEachIs(AddLinks(done, LinksOf(os[0])), os[1..]);
    }
  }

  lemma NextAdds(os: seq<Entry>, k: nat)
    requires Proper(os) && k < |os|
    ensures AddLinks(os[..k], LinksOf(os[k])) == os[..k + 1]
  {
    var done, o := os[..k], os[k];
    assert done + [o] == os[..k + 1];
    assert forall i :: 0 <= i < k ==> EntryId(os[i]) < EntryId(os[k]);
    assert forall i :: 0 <= i < |done| ==> done[i] == os[i] && done[i].id < o.id;
    ObjectAdds(done, o);
  }

  // Read in order, the objects come back one by one.
  lemma {:induction false} EachAdds(os: seq<Entry>, k: nat)
    requires Proper(os) && k <= |os|
    ensures AddEach(os[..k], os[k..]) == os
    decreases |os| - k
  {
    if k < |os| {
      NextAdds(os, k);
      assert os[k..][0] == os[k] && os[k..][1..] == os[k + 1..];
      EachAdds(os, k + 1);
    } else {
      assert os[..k] == os;
    }
  }

  lemma {:induction false} InstancesWritable(id: uint16, instances: seq<uint16>)
    requires id < MAX_ID && forall i :: 0 <= i < |instances| ==> instances[i] < MAX_ID
    ensures forall l :: l in InstanceLinks(id, instances) ==> Writable(l)
  {
    if instances != [] {
      assert forall i :: 0 <= i < |instances| - 1 ==> instances[1..][i] == instances[i + 1];
      InstancesWritable(id, instances[1..]);
    }
  }

  lemma {:induction false} AllWritable(os: seq<Entry>)
    requires forall i :: 0 <= i < |os| ==> WellFormed(os[i])
    ensures forall l :: l in AllLinks(os) ==> Writable(l)
  {
    if os != [] {
      assert forall i :: 0 <= i < |os| - 1 ==> os[1..][i] == os[i + 1];
      AllWritable(os[1..]);
      InstancesWritable(os[0].id, os[0].instances);
    }
  }

  // prv_splitLinkAttribute takes apart what is written as key=value.
  lemma SplitIs(before: string, key: string, value: string, after: string)
    requires before == "" || before == ";"
    requires key != "" && key[0] != ' ' && key[0] != ';' && forall k :: 0 <= k < |key| ==> key[k] != '='
    requires |value| > 1 && value[0] != ' ' && value[|value| - 1] != ' '
    requires forall k :: 0 <= k < |value| ==> value[k] != ';'
    requires after == "" || after[0] == ';'
    ensures Split(before + key + "=" + value + after) == Some(Attribute(key, value, after))
  {
    SplitShape(before, key, value, after);
    SplitSlices(before + key + "=" + value + after, before, key, value, after);
  }

  ghost predicate Slices(s: string, i: nat, key: string, value: string, after: string) {
    var eq := i + |key|;
    var end := eq + 1 + |value|;
    |s| == end + |after| && s[i..eq] == key && s[eq] == '=' && s[eq + 1..end] == value && s[end..] == after
  }

  lemma SplitShape(before: string, key: string, value: string, after: string)
    ensures var s := before + key + "=" + value + after;
            before <= s && Slices(s, |before|, key, value, after)
  {
  }

  lemma SplitSlices(s: string, before: string, key: string, value: string, after: string)
    requires before == "" || before == ";"
    requires before <= s && Slices(s, |before|, key, value, after)
    requires key != "" && key[0] != ' ' && key[0] != ';' && forall k :: 0 <= k < |key| ==> key[k] != '='
    requires |value| > 1 && value[0] != ' ' && value[|value| - 1] != ' '
    requires forall k :: 0 <= k < |value| ==> value[k] != ';'
    requires after == "" || after[0] == ';'
    ensures Split(s) == Some(Attribute(key, value, after))
  {
    var i := |before|;
    var eq := i + |key|;
    var end := eq + 1 + |value|;
    assert s[i] == s[i..eq][0] && s[eq + 1] == s[eq + 1..end][0] && s[end - 1] == s[eq + 1..end][|value| - 1];
    forall k | i <= k < eq ensures s[k] != '=' { assert s[k] == s[i..eq][k - i]; }
    forall k | eq < k < end ensures s[k] != ';' { assert s[k] == s[eq + 1..end][k - eq - 1]; }
    if after != "" { assert s[end] == s[end..][0]; }
    SplitAt(s, i, eq, end);
  }

  lemma SplitAt(s: string, i: nat, eq: nat, end: nat)
    requires i <= 1 && i < eq && eq + 2 < end <= |s|
    requires (i == 1 ==> s[0] == ';') && s[i] != ' ' && (i == 0 ==> s[0] != ';')
    requires s[eq] == '=' && forall k :: i <= k < eq ==> s[k] != '='
    requires s[eq + 1] != ' ' && s[end - 1] != ' ' && (end < |s| ==> s[end] == ';')
    requires forall k :: eq < k < end ==> s[k] != ';'
    ensures Split(s) == Some(Attribute(s[i..eq], s[eq + 1..end], s[end..]))
  {
    ScanIs(s, i, '=', eq);
    ValueAt(s, s[i..eq], eq + 1, end);
  }

  lemma ValueAt(s: string, key: string, from: nat, end: nat)
    requires from + 1 < end <= |s|
    requires s[from] != ' ' && s[end - 1] != ' ' && (end < |s| ==> s[end] == ';')
    requires forall k :: from <= k < end ==> s[k] != ';'
    ensures SplitValue(s, key, from) == Some(Attribute(key, s[from..end], s[end..]))
  {
    ScanIs(s, from, ';', end);
    assert TrimFrom(s[..end], from) == end - 1;
  }

  const ROOT_TYPE := "\"oma.lwm2m\""

  function RootAttributes(): string { "" + "rt" + "=" + ROOT_TYPE + ";ct=112" }

  function RootLink(): string { "</>;" + RootAttributes() }

  lemma RootText()
    ensures "<" + "/" + RESOURCE_TYPE == RootLink() + ","
    ensures ";ct=112" == ";" + "ct" + "=" + "112" + ""
  {
  }

  lemma TypeRead(s: string, after: string, format: Format)
    requires s != "" && Split(s) == Some(Attribute("rt", ROOT_TYPE, after))
    ensures LinkAttributesFrom(s, 0, format) == LinkAttributesFrom(after, 1, format)
  {
  }

  lemma FormatRead(s: string, types: nat, value: string, after: string, format: Format)
    requires s != "" && Split(s) == Some(Attribute("ct", value, after)) && FormatOf(value) == Some(format)
    ensures LinkAttributesFrom(s, types, TLV) == LinkAttributesFrom(after, types, format)
  {
  }

  lemma FormatSplit()
    ensures Split(";ct=112") == Some(Attribute("ct", "112", ""))
  {
    RootText();
    SplitIs(";", "ct", "112", "");
  }

  lemma TypeSplit()
    ensures Split(RootAttributes()) == Some(Attribute("rt", ROOT_TYPE, ";ct=112"))
  {
    SplitIs("", "rt", ROOT_TYPE, ";ct=112");
  }

  lemma RootFormats()
    ensures LinkAttributesFrom(RootAttributes(), 0, TLV) == Some(SENML_CBOR)
  {
    FormatSplit();
    FormatRead(";ct=112", 1, "112", "", SENML_CBOR);
    TypeSplit();
    TypeRead(RootAttributes(), ";ct=112", TLV);
  }

  lemma {:induction false} LastEndIs(s: string, n: nat)
    requires 0 < n < |s| && s[n] == '>' && forall k :: n < k < |s| ==> s[k] != '>'
    ensures LastEnd(s) == n
  {
    if |s| - 1 > n { LastEndIs(s[..|s| - 1], n); }
  }

  lemma SplitRootIs(rest: string)
    requires rest != "" && rest[|rest| - 1] != ' ' && forall k :: 0 <= k < |rest| ==> rest[k] != '>'
    ensures SplitRoot("</>;" + rest) == Some(Root("", rest))
  {
    var t := "</>;" + rest;
    var d := t[1..];
    assert t[|t| - 1] == rest[|rest| - 1] && Trim(t) == t;
    assert d[1] == '>' && d[2] == ';';
    assert forall k :: 3 <= k < |d| ==> d[k] == rest[k - 3];
    LastEndIs(d, 1);
    assert d[3..] == rest && d[1..1] == "";
  }

  lemma RootIsNoLink(rest: string)
    requires rest != "" && rest[|rest| - 1] != ' '
    ensures GetId("</>;" + rest) == None
  {
    var t := "</>;" + rest;
    assert t[|t| - 1] == rest[|rest| - 1] && Trim(t) == t;
    assert t[2..][0] == '>';
    ScanEitherIs(t[2..], 0, '/', '>', 0);
  }

  lemma RootRead()
    ensures ReadItem(RootLink()) == IsRoot(SENML_CBOR, None)
  {
    var rest := RootAttributes();
    RootFormats();
    RootPlain();
    RootIsNoLink(rest);
    SplitRootIs(rest);
  }

  lemma RootPlain()
    ensures var rest := RootAttributes();
            rest != "" && rest[|rest| - 1] != ' ' && forall k :: 0 <= k < |rest| ==> rest[k] != '>'
    ensures Plain(RootLink())
  {
  }

  lemma {:induction false} WithoutLastComma(items: seq<string>)
    requires items != []
    ensures var t := Commas(items); t != "" && t[..|t| - 1] + "," == t
  {
    var rest := items[1..];
    if rest == [] {
      assert items[0] + "," + "" == items[0] + ",";
    } else {
      WithoutLastComma(rest);
      var t := Commas(items);
      assert t[|t| - 1] == Commas(rest)[|Commas(rest)| - 1] == ',';
    }
  }

  lemma AllItemsPlain(ls: seq<Link>)
    ensures AllPlain([RootLink()] + Texts(ls))
  {
    RootPlain();
    forall k | 0 <= k < |ls| ensures Plain(Texts(ls)[k]) {
      MapAt(LinkText, ls, k);
      LinkPlain(ls[k]);
    }
  }

  lemma PayloadCommas(os: seq<Entry>)
    ensures PayloadText("", os) == Commas([RootLink()] + Texts(AllLinks(WithoutSecurity(os))))
  {
    ObjectsAreLinks(os);
    CommasFirst(RootLink(), Texts(AllLinks(WithoutSecurity(os))));
    RootText();
  }

  lemma PayloadItems(os: seq<Entry>)
    requires |PayloadText("", os)| <= 0x1_0000
    ensures var t := PayloadText("", os); Items(t[..|t| - 1], 0) == [RootLink()] + Texts(AllLinks(WithoutSecurity(os)))
  {
    var items := [RootLink()] + Texts(AllLinks(WithoutSecurity(os)));
    PayloadCommas(os);
    AllItemsPlain(AllLinks(WithoutSecurity(os)));
    WithoutLastComma(items);
    var t := Commas(items);
    var p := t[..|t| - 1];
    assert p[0..] == p;
    ItemsAre(p, 0, items);
  }

  // Parsing what a client printed, with the default path, gives back every
  // object but the Security one, with its version and instances.
  lemma PayloadReadBack(os: seq<Entry>)
    requires Proper(os) && |PayloadText("", os)| <= 0x1_0000
    ensures var t := PayloadText("", os);
            Decode(t[..|t| - 1]) == Some(Decoded(true, SENML_CBOR, None, WithoutSecurity(os)))
  {
    var rest := WithoutSecurity(os);
    var ls := AllLinks(rest);
    PayloadItems(os);
    ProperWithoutSecurity(os);
    AllWritable(rest);
    LinksRead(ls);
    assert ([RootLink()] + Texts(ls))[1..] == Texts(ls);
    RootRead();
    RootThenLinks(ls);
    AddEachIs([], rest);
    EachAdds(rest, 0);
    assert rest[..0] == [] && rest[0..] == rest;
  }

  lemma RootThenLinks(ls: seq<Link>)
    ensures Collect([IsRoot(SENML_CBOR, None)] + Links(ls), Decoded(false, TLV, None, [])) ==
            Some(Decoded(true, SENML_CBOR, None, AddLinks([], ls)))
  {
    assert ([IsRoot(SENML_CBOR, None)] + Links(ls))[1..] == Links(ls);
    LinksCollected(ls, Decoded(true, SENML_CBOR, None, []));
  }

  // The two halves together: a client without an OSCORE object prints into
  // the buffer it computed, and the server reads the same objects.
  lemma RegistrationRoundTrip(os: seq<Entry>)
    requires Proper(os) && |PayloadText("", os)| <= 0x1_0000
    requires forall i :: 0 <= i < |os| ==> os[i].id != OSCORE
    ensures var t := Payload("", os, BufferLength("", os));
            t.Some? && Decode(t.value) == Some(Decoded(true, SENML_CBOR, None, WithoutSecurity(os)))
  {
    PrintsAllIff("", os);
    PayloadReadBack(os);
  }

  // ----- Any payload --------------------------------------------------------

  // Every item is a link or describes the root, and the root is described once
  // at most.
  ghost predicate Readable(items: seq<ItemRead>) {
    && (forall i :: 0 <= i < |items| ==> !items[i].IsNothing?)
    && forall i, j :: 0 <= i < j < |items| ==> !(items[i].IsRoot? && items[j].IsRoot?)
  }

  ghost predicate HasLink(items: seq<ItemRead>) { exists i :: 0 <= i < |items| && items[i].IsLink? }

  ghost predicate NoRoot(items: seq<ItemRead>) { forall i :: 0 <= i < |items| ==> !items[i].IsRoot? }

  lemma FirstRead(items: seq<ItemRead>)
    requires items != []
    ensures Readable(items) <==>
            !items[0].IsNothing? && Readable(items[1..]) && (items[0].IsRoot? ==> NoRoot(items[1..]))
    ensures HasLink(items) <==> items[0].IsLink? || HasLink(items[1..])
    ensures NoRoot(items) <==> !items[0].IsRoot? && NoRoot(items[1..])
  {
    var rest := items[1..];
    assert forall i :: 0 <= i < |rest| ==> rest[i] == items[i + 1];
    assert forall i :: 0 < i < |items| ==> items[i] == rest[i - 1];
  }

  lemma {:induction false} CollectIff(items: seq<ItemRead>, d: Decoded)
    ensures Collect(items, d).Some? <==> Readable(items) && (d.linkSeen ==> NoRoot(items))
    ensures Collect(items, d).Some? ==>
              (Collect(items, d).value.objects != [] <==> d.objects != [] || HasLink(items))
    decreases items
  {
    if items != [] {
      FirstRead(items);
      var next := Take(items[0], d);
      if next.Some? { CollectIff(items[1..], next.value); }
    }
  }

  function ItemsRead(p: string): seq<ItemRead> { Map(ReadItem, Items(p, 0)) }

  // A payload can be parsed exactly when its items are readable, and gives
  // objects exactly when one of them is a link.
  lemma DecodesIff(p: string)
    ensures Decode(p).Some? <==> Readable(ItemsRead(p))
    ensures Decode(p).Some? ==> (Decode(p).value.objects != [] <==> HasLink(ItemsRead(p)))
  {
    CollectIff(ItemsRead(p), Decoded(false, TLV, None, []));
  }

  ghost predicate Usable(l: Link) {
    l.objectId < MAX_ID && (l.instance.Some? ==> l.instance.value < MAX_ID)
  }

  lemma IdsUsable(e: string)
    ensures GetId(e).Some? ==> Usable(GetId(e).value)
  {
    var d := Trim(e);
    if GetId(e).Some? { assert ObjectPart(d[2..]).Some?; }
  }

  lemma InstanceKept(o: Entry, i: uint16)
    requires WellFormed(o) && i < MAX_ID && Find(o.instances, InstanceId, i) == None
    ensures WellFormed(o.(instances := Add(o.instances, InstanceId, i)))
  {
    FindIsMembership(o.instances, InstanceId, i);
    AddKeepsOrder(o.instances, InstanceId, i);
    AddContents(o.instances, InstanceId, i);
    var r := Add(o.instances, InstanceId, i);
    forall k | 0 <= k < |r| ensures r[k] < MAX_ID { assert r[k] in r; }
  }

  lemma LinkedWellFormed(o: Entry, l: Link)
    requires WellFormed(o) && Usable(l)
    ensures WellFormed(Linked(o, l)) && Linked(o, l).id == o.id
  {
    if l.instance.Some? && Find(o.instances, InstanceId, l.instance.value) == None {
      InstanceKept(o, l.instance.value);
    }
  }

  // Adding a link keeps the lists sorted and free of repeated ids.
  lemma AddLinkProper(objects: seq<Entry>, l: Link)
    requires Proper(objects) && Usable(l)
    ensures Proper(AddLink(objects, l))
  {
    var k := Below(objects, EntryId, l.objectId);
    if k < |objects| && objects[k].id == l.objectId {
      LinkedWellFormed(objects[k], l);
      var r := objects[k := Linked(objects[k], l)];
      forall i, j | 0 <= i < j < |r| ensures EntryId(r[i]) < EntryId(r[j]) {
        assert EntryId(objects[i]) < EntryId(objects[j]);
      }
    } else {
      var e := Linked(Entry(l.objectId, 0, 0, []), l);
      LinkedWellFormed(Entry(l.objectId, 0, 0, []), l);
      FindIsMembership(objects, EntryId, l.objectId);
      AddKeepsOrder(objects, EntryId, e);
      var r := Add(objects, EntryId, e);
      AddContents(objects, EntryId, e);
      forall i | 0 <= i < |r| ensures WellFormed(r[i]) { assert r[i] in r; }
    }
  }

  ghost predicate UsableRead(item: ItemRead) { item.IsLink? ==> Usable(item.l) }

  lemma {:induction false} CollectProper(items: seq<ItemRead>, d: Decoded)
    requires Proper(d.objects) && forall i :: 0 <= i < |items| ==> UsableRead(items[i])
    ensures Collect(items, d).Some? ==> Proper(Collect(items, d).value.objects)
    decreases items
  {
    if items != [] {
      assert UsableRead(items[0]);
      if items[0].IsLink? { AddLinkProper(d.objects, items[0].l); }
      var next := Take(items[0], d);
      if next.Some? {
        assert forall i :: 0 <= i < |items| - 1 ==> items[1..][i] == items[i + 1];
        CollectProper(items[1..], next.value);
      }
    }
  }

  // Whatever the payload, the objects read from it are sorted, with no id
  // twice, and so are the instances of each.
  lemma DecodeProper(p: string)
    ensures Decode(p).Some? ==> Proper(Decode(p).value.objects)
  {
    var items := Items(p, 0);
    var read := Map(ReadItem, items);
    forall i | 0 <= i < |read| ensures UsableRead(read[i]) {
      MapAt(ReadItem, items, i);
      IdsUsable(items[i]);
    }
    CollectProper(read, Decoded(false, TLV, None, []));
  }
}
