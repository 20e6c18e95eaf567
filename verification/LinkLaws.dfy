// What the parser of registration payloads accepts, and what it makes of it:
// ids, versions, attributes, the root, and the list of objects.
module LinkLaws {
  import opened Common
  import opened Decimal
  import opened Text
  import opened SortedList
  import opened LinkFormat
  import opened LinkParser

  // ----- Ids ----------------------------------------------------------------

  ghost predicate Free(s: string, c: char) { forall i :: 0 <= i < |s| ==> s[i] != c }

  // The numeral of an id that is not reserved.
  ghost predicate IsId(s: string) { AllDigits(s) && Numeral(s) < 0xFFFF }

  lemma IdIff(s: string)
    requires s != "" && Free(s, '/')
    ensures IdOf(s) == if IsId(s) then Some(Numeral(s)) else None
  {
    NumberIff(s);
  }

  // What follows the ids; a text that does not end with a blank is not trimmed.
  ghost predicate Ending(s: string) { s == "" || s[|s| - 1] != ' ' }

  lemma TrimKeeps(s: string)
    requires Ending(s)
    ensures Trim(s) == s
  {
  }

  lemma LinkStarts(a: string, tail: string)
    requires tail != "" && Ending(tail)
    ensures var e := "</" + a + tail; Trim(e) == e && e[0] == '<' && e[1] == '/' && e[2..] == a + tail
  {
    var e := "</" + a + tail;
    assert e[|e| - 1] == tail[|tail| - 1];
  }

  lemma ObjectPartIs(a: string, tail: string)
    requires Free(a, '/') && Free(a, '>') && tail != "" && (tail[0] == '/' || tail[0] == '>')
    ensures ObjectPart(a + tail) ==
            if a == "" || !IsId(a) then None
            else if tail[0] == '/' then InstancePart(Numeral(a), tail[1..]) else Some(Ids(Numeral(a), None, tail[1..]))
  {
    var d := a + tail;
    assert forall k :: 0 <= k < |a| ==> d[k] == a[k];
    assert d[|a|] == tail[0];
    ScanEitherIs(d, 0, '/', '>', |a|);
    assert d[..|a|] == a && d[|a| + 1..] == tail[1..];
    if a != "" { IdIff(a); }
  }

  lemma InstancePartIs(id: uint16, b: string, rest: string)
    requires Free(b, '/') && Free(b, '>')
    ensures InstancePart(id, b + (">" + rest)) ==
            if b == "" then Some(Ids(id, None, rest))
            else if IsId(b) then Some(Ids(id, Some(Numeral(b)), rest)) else None
  {
    var d := b + (">" + rest);
    assert forall k :: 0 <= k < |b| ==> d[k] == b[k];
    assert d[|b|] == '>';
    ScanIs(d, 0, '>', |b|);
    assert d[..|b|] == b && d[|b| + 1..] == rest;
    if b != "" { IdIff(b); }
  }

  function WithVersion(ids: Option<Ids>): Option<Link> {
    if ids == None then None
    else
      var v := VersionOf(ids.value.rest);
      if v == None then None else Some(Link(ids.value.objectId, ids.value.instance, v.value.0, v.value.1))
  }

  // A link to an object is one exactly when its id is, and its version if it
  // has one.
  lemma ObjectLinkIff(a: string, rest: string)
    requires Free(a, '/') && Free(a, '>') && Ending(rest)
    ensures GetId("</" + a + (">" + rest)) ==
            if a != "" && IsId(a) then WithVersion(Some(Ids(Numeral(a), None, rest))) else None
  {
    var tail := ">" + rest;
    assert tail[|tail| - 1] == if rest == "" then '>' else rest[|rest| - 1];
    LinkStarts(a, tail);
    ObjectPartIs(a, tail);
    assert tail[1..] == rest;
  }

  // A link to an instance is one exactly when both ids are; without a second
  // one it is a link to the object.
  lemma InstanceLinkIff(a: string, b: string, rest: string)
    requires Free(a, '/') && Free(a, '>') && Free(b, '/') && Free(b, '>') && Ending(rest)
    ensures GetId("</" + a + ("/" + (b + (">" + rest)))) ==
            if a == "" || !IsId(a) || (b != "" && !IsId(b)) then None
            else WithVersion(Some(Ids(Numeral(a), if b == "" then None else Some(Numeral(b)), rest)))
  {
    var tail := "/" + (b + (">" + rest));
    assert tail[|tail| - 1] == if rest == "" then '>' else rest[|rest| - 1];
    LinkStarts(a, tail);
    ObjectPartIs(a, tail);
    assert tail[1..] == b + (">" + rest);
    if a != "" && IsId(a) { InstancePartIs(Numeral(a), b, rest); }
  }

  // Without the opening, or without the closing bracket, there is no link.
  lemma NoBracketNoLink(e: string)
    requires Ending(e) && (|e| < 2 || e[0] != '<' || e[1] != '/' || Free(e, '>'))
    ensures GetId(e) == None
  {
    TrimKeeps(e);
    if |e| >= 2 && e[0] == '<' && e[1] == '/' {
      var d := e[2..];
      NoEnd(d);
    }
  }

  lemma NoEnd(d: string)
    requires Free(d, '>')
    ensures ObjectPart(d) == None
  {
    var n := ScanToEither(d, 0, '/', '>');
    ScanEitherEnds(d, 0, '/', '>');
    if n < |d| && d[n] == '/' {
      var e := d[n + 1..];
      assert Free(e, '>');
      ScanIs(e, 0, '>', |e|);
      assert forall id :: InstancePart(id, e) == None;
    }
  }

  lemma {:induction false} ScanEitherEnds(s: string, i: nat, a: char, b: char)
    requires i <= |s|
    ensures var n := ScanToEither(s, i, a, b); n == |s| || s[n] == a || s[n] == b
    decreases |s| - i
  {
    if i < |s| && s[i] != a && s[i] != b { ScanEitherEnds(s, i + 1, a, b); }
  }

  // Blanks at the end of an item do not matter.
  lemma {:induction false} BlanksAtEnd(e: string, n: nat)
    ensures Trim(e + Blanks(n)) == Trim(e)
  {
    if n > 0 {
      assert (e + Blanks(n))[..|e + Blanks(n)| - 1] == e + Blanks(n - 1);
      BlanksAtEnd(e, n - 1);
    } else {
      assert e + "" == e;
    }
  }

  function Blanks(n: nat): (s: string)
    ensures |s| == n && forall i :: 0 <= i < n ==> s[i] == ' '
  {
    if n == 0 then "" else Blanks(n - 1) + " "
  }

  lemma TrimmedAlike(e: string, n: nat)
    ensures GetId(e + Blanks(n)) == GetId(e)
  {
    BlanksAtEnd(e, n);
  }

  // ----- Versions -----------------------------------------------------------

  ghost predicate IsVersionNumber(s: string) { s != "" && AllDigits(s) && Numeral(s) <= 0xFF }

  lemma VersionNumberIff(s: string)
    requires AllDigits(s) && Numeral(s) <= UINT64_MAX
    ensures Version(s) == if IsVersionNumber(s) then Some(Numeral(s)) else None
  {
    TextToUIntIff(s);
  }

  lemma NumbersIff(e: string, n1: nat, n2: nat, a: string, b: string)
    requires n2 <= n1 <= |e| && n2 == 5 + |a| + |b| && a != "" && b != "" && AllDigits(a) && AllDigits(b)
    requires Numeral(a) <= UINT64_MAX && Numeral(b) <= UINT64_MAX
    requires ScanTo(e[..n2], 5, '.') == 4 + |a| && e[4..4 + |a|] == a && e[5 + |a|..n2] == b
    ensures VersionNumbers(e, n1, n2) ==
            if Numeral(a) <= 0xFF && Numeral(b) <= 0xFF
            then Some(VersionRead(Numeral(a), Numeral(b), AfterAttribute(e, n1))) else None
  {
    VersionNumberIff(a);
    VersionNumberIff(b);
  }

  // A version attribute that ends with the data.
  lemma LastAttribute(d: string, r: Option<VersionRead>)
    requires |d| > 4 && d[..4] == "ver=" && ScanTo(d, 0, ';') == |d| && VersionAttribute(d, |d|) == r
    requires r.Some? ==> r.value.after == ""
    ensures VersionOf(";" + d) == if r.Some? then Some((r.value.major, r.value.minor)) else None
  {
    var e := ";" + d;
    assert e[1..] == d && d[0..] == d && d[0] == d[..4][0] == 'v';
    if r.Some? {
      var v := (r.value.major, r.value.minor);
      assert Attributes("", v) == Some(v);
    }
  }

  // Two numerals with a dot between them, plain or in quotes: a version exactly
  // when both fit a byte.
  lemma PlainVersionIff(a: string, b: string)
    requires AllDigits(a) && AllDigits(b) && a != "" && b != "" && Numeral(a) <= UINT64_MAX && Numeral(b) <= UINT64_MAX
    ensures VersionOf(";" + ("ver=" + a + "." + b)) ==
            if Numeral(a) <= 0xFF && Numeral(b) <= 0xFF then Some((Numeral(a), Numeral(b))) else None
  {
    var d := "ver=" + a + "." + b;
    VersionShape(a, b);
    assert d[|d|..] == "" && d[..|d|] == d;
    NumbersIff(d, |d|, |d|, a, b);
    LastAttribute(d, VersionAttribute(d, |d|));
  }

  lemma QuotedShape(a: string, b: string)
    requires AllDigits(a) && AllDigits(b) && a != "" && b != ""
    ensures var d := "ver=\"" + a + "." + b + "\""; var e := d[1..]; var n := 4 + |a|;
            && d[..4] == "ver=" && d[4] == '"' && ScanTo(d, 0, ';') == |d|
            && e[|e| - 1] == '"' && |e| == n + 1 + |b| + 1
            && ScanTo(e[..|e| - 1], 5, '.') == n && e[4..n] == a && e[n + 1..|e| - 1] == b
  {
    var d := "ver=\"" + a + "." + b + "\"";
    var e := d[1..];
    var n := 4 + |a|;
    assert d == "ver=\"" + (a + "." + b) + "\"";
    assert d[..4] == "ver=" && d[4] == '"' && d[|d| - 1] == '"';
    assert e == "er=\"" + (a + "." + b) + "\"";
    var f := e[..|e| - 1];
    assert f == "er=\"" + (a + "." + b);
    assert forall k :: 4 <= k < n ==> f[k] == a[k - 4];
    assert f[n] == '.';
    ScanIs(f, 5, '.', n);
    assert forall k :: n < k < |f| ==> f[k] == b[k - n - 1];
    assert forall k :: 5 <= k < |d| - 1 ==> d[k] == f[k - 1];
    ScanIs(d, 0, ';', |d|);
  }

  // Quotes on either side are taken off.
  lemma Unquoted(d: string, e: string)
    requires |d| > 5 && e == d[1..] && d[4] == '"' && e[|e| - 1] == '"'
    ensures VersionAttribute(d, |d|) == VersionNumbers(e, |e|, |e| - 1)
  {
  }

  lemma QuotedNumbers(e: string, a: string, b: string)
    requires AllDigits(a) && AllDigits(b) && a != "" && b != "" && Numeral(a) <= UINT64_MAX && Numeral(b) <= UINT64_MAX
    requires |e| == 6 + |a| + |b| && ScanTo(e[..|e| - 1], 5, '.') == 4 + |a|
    requires e[4..4 + |a|] == a && e[5 + |a|..|e| - 1] == b
    ensures VersionNumbers(e, |e|, |e| - 1) ==
            if Numeral(a) <= 0xFF && Numeral(b) <= 0xFF then Some(VersionRead(Numeral(a), Numeral(b), "")) else None
  {
    NumbersIff(e, |e|, |e| - 1, a, b);
    assert e[|e|..] == "";
  }

  lemma QuotedAttribute(d: string, e: string, a: string, b: string)
    requires AllDigits(a) && AllDigits(b) && a != "" && b != "" && Numeral(a) <= UINT64_MAX && Numeral(b) <= UINT64_MAX
    requires |d| == 7 + |a| + |b| && d[..4] == "ver=" && d[4] == '"' && ScanTo(d, 0, ';') == |d|
    requires e == d[1..] && e[|e| - 1] == '"' && ScanTo(e[..|e| - 1], 5, '.') == 4 + |a|
    requires e[4..4 + |a|] == a && e[5 + |a|..|e| - 1] == b
    ensures VersionOf(";" + d) ==
            if Numeral(a) <= 0xFF && Numeral(b) <= 0xFF then Some((Numeral(a), Numeral(b))) else None
  {
    QuotedNumbers(e, a, b);
    Unquoted(d, e);
    LastAttribute(d, VersionAttribute(d, |d|));
  }

  lemma QuotedVersionIff(d: string, a: string, b: string)
    requires AllDigits(a) && AllDigits(b) && a != "" && b != "" && Numeral(a) <= UINT64_MAX && Numeral(b) <= UINT64_MAX
    requires d == "ver=\"" + a + "." + b + "\""
    ensures VersionOf(";" + d) ==
            if Numeral(a) <= 0xFF && Numeral(b) <= 0xFF then Some((Numeral(a), Numeral(b))) else None
  {
    QuotedShape(a, b);
    QuotedAttribute(d, d[1..], a, b);
  }

  // Without attributes the version is 0.0, which stands for none.
  lemma NoVersion(rest: string)
    requires |rest| <= 1 || rest[0] != ';'
    ensures VersionOf(rest) == Some((0, 0))
  {
  }

  // An attribute that is not recognised, or empty, is passed over, with blanks
  // before it.
  lemma OtherAttribute(n: nat, a: string, rest: string, version: (byte, byte))
    requires (a == "" || a[0] != ' ') && Free(a, ';') && (|a| <= 4 || a[..4] != "ver=")
    ensures Attributes(Blanks(n) + a + ";" + rest, version) == Attributes(rest, version)
  {
    var s := Blanks(n) + a + ";" + rest;
    BlanksSkipped(n, a + ";" + rest);
    assert Blanks(n) + a + ";" + rest == Blanks(n) + (a + ";" + rest);
    var d := s[n..];
    assert d == a + ";" + rest;
    assert forall k :: 0 <= k < |a| ==> d[k] == a[k];
    ScanIs(d, 0, ';', |a|);
    assert |a| > 4 ==> d[..4] == a[..4];
    assert d[|a| + 1..] == rest;
  }

  lemma {:induction false} SkipFrom(s: string, i: nat, n: nat)
    requires i <= n <= |s| && (forall k :: i <= k < n ==> s[k] == ' ') && (n < |s| ==> s[n] != ' ')
    ensures SkipSpaces(s, i) == n
    decreases n - i
  {
    if i < n { SkipFrom(s, i + 1, n); }
  }

  lemma BlanksSkipped(n: nat, s: string)
    requires s != "" && s[0] != ' '
    ensures SkipSpaces(Blanks(n) + s, 0) == n && (Blanks(n) + s)[n..] == s
  {
    SkipFrom(Blanks(n) + s, 0, n);
  }

  // A second version is an error.
  lemma SecondVersion(a: string, version: (byte, byte))
    requires |a| > 4 && a[..4] == "ver=" && Free(a, ';') && version != (0, 0)
    ensures Attributes(a, version) == None
  {
    assert a[0] == a[..4][0] == 'v';
    assert a[0..] == a;
    ScanIs(a, 0, ';', |a|);
  }

  // ----- The root -----------------------------------------------------------

  // The content formats a client may announce; any other is refused.
  lemma FormatIs(value: string)
    ensures FormatOf(value) ==
            if value == "110" then Some(SENML_JSON) else if value == "112" then Some(SENML_CBOR)
            else if value == "11543" then Some(JSON) else None
  {
  }

  lemma RootShape(path: string, attributes: string)
    requires attributes != "" && Ending(attributes)
    ensures var e := "</" + path + ">;" + attributes; var d := "/" + path + (">;" + attributes); var end := 1 + |path|;
            && Trim(e) == e && |e| >= 2 && e[0] == '<' && e[1..] == d && d[0] == '/' && d[end] == '>' && d[end + 1] == ';'
            && d[1..end] == path && d[end + 2..] == attributes
  {
    var e := "</" + path + ">;" + attributes;
    var d := "/" + path + (">;" + attributes);
    var end := 1 + |path|;
    assert e == "<" + d && e[|e| - 1] == attributes[|attributes| - 1];
    TrimKeeps(e);
    assert d[end..] == ">;" + attributes && d[..end] == "/" + path;
    assert d[1..end] == d[..end][1..] == path && d[end + 2..] == d[end..][2..] == attributes;
  }

  lemma RootEnd(d: string, end: nat, attributes: string)
    requires 0 < end < |d| && d[end..] == ">;" + attributes && Free(attributes, '>')
    ensures LastEnd(d) == end
  {
    var tail := d[end..];
    assert tail[0] == '>' && tail[1] == ';';
    forall k | end < k < |d| ensures d[k] != '>' {
      assert d[k] == tail[k - end];
      if k > end + 1 { assert tail[k - end] == attributes[k - end - 2]; }
    }
    LastEndIs(d, end);
  }

  // The root link gives the alternate path without its slash, and the format.
  lemma RootIs(path: string, attributes: string)
    requires Free(attributes, '>') && attributes != "" && Ending(attributes)
    ensures LinkAttributes("</" + path + ">;" + attributes) ==
            var format := LinkAttributesFrom(attributes, 0, TLV);
            if format == None then None else Some((format.value, if path == "" then None else Some(path)))
  {
    RootShape(path, attributes);
    var d := "/" + path + (">;" + attributes);
    assert d[1 + |path|..] == ">;" + attributes;
    RootEnd(d, 1 + |path|, attributes);
    assert SplitRoot("</" + path + ">;" + attributes) == Some(Root(path, attributes));
  }

  // Attributes of the root, one at a time: the resource type is checked and may
  // come once, the content format is taken and may come once, all others are
  // passed over.
  lemma RootAttribute(s: string, a: Attribute, types: nat, format: Format)
    requires s != "" && Split(s) == Some(a)
    ensures LinkAttributesFrom(s, types, format) ==
            if a.key == "rt" then
              if a.value == "\"oma.lwm2m\"" && types == 0 then LinkAttributesFrom(a.after, 1, format) else None
            else if a.key == "ct" then
              if format == TLV && (a.value == "110" || a.value == "112" || a.value == "11543") then
                LinkAttributesFrom(a.after, types,
                                   if a.value == "110" then SENML_JSON else if a.value == "112" then SENML_CBOR else JSON)
              else None
            else LinkAttributesFrom(a.after, types, format)
  {
  }

  lemma NoAttribute(s: string, types: nat, format: Format)
    ensures s == "" ==> LinkAttributesFrom(s, types, format) == Some(format)
    ensures s != "" && Split(s) == None ==> LinkAttributesFrom(s, types, format) == None
  {
  }

  // A value of one character, or no value at all, is no attribute; an empty one
  // before another attribute is.
  lemma ShortValues(key: string, c: char, rest: string)
    requires key != "" && key[0] != ' ' && key[0] != ';' && Free(key, '=') && c != ' ' && c != ';'
    ensures Split(key + "=") == None && Split(key + "=" + [c]) == None
    ensures Split(key + "=" + [c] + ";" + rest) == None
    ensures Split(key + "=;" + rest) == Some(Attribute(key, "", ";" + rest))
  {
    NoValue(key);
    BlanksAround(key, 0, [c], 0, "");
    BlanksAround(key, 0, [c], 0, ";" + rest);
    assert "" + ([c] + ("" + "")) == [c];
    assert key + "=" + ("" + ([c] + ("" + (";" + rest)))) == key + "=" + [c] + ";" + rest;
    EmptyValue(key, rest);
  }

  lemma NoValue(key: string)
    requires key != "" && key[0] != ' ' && key[0] != ';' && Free(key, '=')
    ensures Split(key + "=") == None
  {
    KeyFound(key, "");
    assert key + "=" + "" == key + "=";
  }

  lemma EmptyValue(key: string, rest: string)
    requires key != "" && key[0] != ' ' && key[0] != ';' && Free(key, '=')
    ensures Split(key + "=;" + rest) == Some(Attribute(key, "", ";" + rest))
  {
    KeyFound(key, ";" + rest);
    var s := key + "=;" + rest;
    assert s == key + "=" + (";" + rest);
    assert s[|key| + 1] == ';';
    ScanIs(s, |key| + 1, ';', |key| + 1);
    assert s[|key| + 1..] == ";" + rest;
  }

  lemma KeyFound(key: string, value: string)
    requires key != "" && key[0] != ' ' && key[0] != ';' && Free(key, '=')
    ensures var s := key + "=" + value;
            SkipSpaces(s, 0) == 0 && ScanTo(s, 0, '=') == |key| && s[..|key|] == key && s[|key| + 1..] == value &&
            Split(s) == SplitValue(s, key, |key| + 1)
  {
    var s := key + "=" + value;
    assert forall k :: 0 <= k < |key| ==> s[k] == key[k];
    assert s[|key|] == '=';
    ScanIs(s, 0, '=', |key|);
    assert s[0..|key|] == key;
  }

  // Blanks around a value are taken off, and then one of a single character is
  // refused.
  lemma BlanksAround(key: string, n1: nat, value: string, n2: nat, after: string)
    requires key != "" && key[0] != ' ' && key[0] != ';' && Free(key, '=')
    requires value != "" && value[0] != ' ' && value[|value| - 1] != ' ' && Free(value, ';')
    requires after == "" || after[0] == ';'
    ensures Split(key + "=" + (Blanks(n1) + (value + (Blanks(n2) + after)))) ==
            if |value| == 1 then None else Some(Attribute(key, value, after))
  {
    var tail := Blanks(n1) + (value + (Blanks(n2) + after));
    var s, from := key + "=" + tail, |key| + 1;
    KeyFound(key, tail);
    ValueShape(s, from, n1, value, n2, after);
    ValueFound(s, key, from, n1, value, n2, after);
  }

  // Where value and blanks are in a text from a position on.
  ghost predicate ValueIn(s: string, from: nat, n1: nat, value: string, n2: nat, after: string) {
    var start := from + n1; var end := start + |value| + n2;
    && |s| == end + |after| && (forall k :: from <= k < start ==> s[k] == ' ')
    && s[start..start + |value|] == value && (forall k :: start + |value| <= k < end ==> s[k] == ' ')
    && s[end..] == after
  }

  lemma ValueShape(s: string, from: nat, n1: nat, value: string, n2: nat, after: string)
    requires from <= |s| && s[from..] == Blanks(n1) + (value + (Blanks(n2) + after))
    ensures ValueIn(s, from, n1, value, n2, after)
  {
    var tail := s[from..];
    var end := n1 + |value| + n2;
    assert forall k :: 0 <= k < n1 ==> tail[k] == Blanks(n1)[k];
    assert forall k :: n1 + |value| <= k < end ==> tail[k] == Blanks(n2)[k - n1 - |value|];
    assert tail[n1..n1 + |value|] == value && tail[end..] == after;
    assert forall k :: from <= k < |s| ==> s[k] == tail[k - from];
    assert s[from + n1..from + n1 + |value|] == tail[n1..n1 + |value|] && s[from + end..] == tail[end..];
  }

  lemma {:induction false} TrimBlanks(s: string, first: nat, n: nat)
    requires first + n < |s| && forall k :: |s| - n <= k < |s| ==> s[k] == ' '
    requires s[|s| - n - 1] != ' ' || first + n + 1 == |s|
    ensures TrimFrom(s, first) == |s| - n - 1
    decreases n
  {
    if n > 0 { TrimBlanks(s[..|s| - 1], first, n - 1); }
  }

  lemma ValueFound(s: string, key: string, from: nat, n1: nat, value: string, n2: nat, after: string)
    requires from <= |s| && ValueIn(s, from, n1, value, n2, after) && (after == "" || after[0] == ';')
    requires value != "" && value[0] != ' ' && value[|value| - 1] != ' ' && Free(value, ';')
    ensures SplitValue(s, key, from) == if |value| == 1 then None else Some(Attribute(key, value, after))
  {
    var start := from + n1;
    var end := start + |value| + n2;
    var v := s[start..start + |value|];
    assert s[start] == v[0] && s[start + |value| - 1] == v[|value| - 1];
    assert forall k :: start <= k < start + |value| ==> s[k] == v[k - start];
    SkipFrom(s, from, start);
    if after != "" { assert s[end] == s[end..][0]; }
    ScanIs(s, start, ';', end);
    TrimBlanks(s[..end], start, n2);
  }

  // ----- The whole payload --------------------------------------------------

  lemma {:induction false} RootKept(items: seq<ItemRead>, d: Decoded)
    requires Collect(items, d).Some?
    ensures var e := Collect(items, d).value;
            && (forall k :: 0 <= k < |items| && items[k].IsRoot? ==>
                  !d.linkSeen && e.linkSeen && e.format == items[k].format && e.altPath == items[k].altPath)
            && ((forall k :: 0 <= k < |items| ==> !items[k].IsRoot?) ==>
                  e.linkSeen == d.linkSeen && e.format == d.format && e.altPath == d.altPath)
    decreases items
  {
    if items != [] {
      var more, next := items[1..], Take(items[0], d).value;
      RootKept(more, next);
      assert forall k :: 0 < k < |items| ==> items[k] == more[k - 1];
    }
  }

  // Format and alternate path are those of the root, and without a root TLV and
  // none.
  lemma RootDecides(p: string)
    requires Decode(p).Some?
    ensures var d := Decode(p).value; var items := Map(ReadItem, Items(p, 0));
            && (forall k :: 0 <= k < |items| && items[k].IsRoot? ==>
                  d.format == items[k].format && d.altPath == items[k].altPath)
            && ((forall k :: 0 <= k < |items| ==> !items[k].IsRoot?) ==> d.format == TLV && d.altPath == None)
  {
    RootKept(Map(ReadItem, Items(p, 0)), Decoded(false, TLV, None, []));
  }

  // The payload of a client begins with its path, "/" when it has none, the
  // resource type and the content format.
  lemma PayloadStarts(altPath: string, os: seq<Entry>)
    ensures "<" + (if altPath == "" then "/" else altPath) + ">;rt=\"oma.lwm2m\";ct=112," <= PayloadText(altPath, os)
  {
  }

  // ----- Items --------------------------------------------------------------

  // Blanks before an item are passed over, and nothing follows the end.
  lemma BlankBeforeItem(p: string, i: nat)
    ensures i < |p| && p[i] == ' ' ==> NextItem(p, i) == NextItem(p, i + 1)
    ensures i >= |p| ==> NextItem(p, i) == None
  {
  }

  // A link changes the entry of its object only: one to an instance adds it,
  // one to the object sets its version.
  lemma LinkAdds(objects: seq<Entry>, l: Link)
    requires Proper(objects) && Usable(l)
    ensures Proper(AddLink(objects, l))
    ensures forall e: Entry :: e.id != l.objectId ==> (e in AddLink(objects, l) <==> e in objects)
    ensures exists e :: e in AddLink(objects, l) && e.id == l.objectId && Merged(objects, l, e)
  {
    AddLinkProper(objects, l);
    var k := Below(objects, EntryId, l.objectId);
    if k < |objects| && objects[k].id == l.objectId { LinkToKnown(objects, l, k); } else { LinkToNew(objects, l); }
  }

  lemma LinkToKnown(objects: seq<Entry>, l: Link, k: nat)
    requires Proper(objects) && Usable(l) && k < |objects| && objects[k].id == l.objectId
    requires AddLink(objects, l) == objects[k := Linked(objects[k], l)]
    ensures forall e: Entry :: e.id != l.objectId ==> (e in AddLink(objects, l) <==> e in objects)
    ensures exists e :: e in AddLink(objects, l) && e.id == l.objectId && Merged(objects, l, e)
  {
    var r := AddLink(objects, l);
    OthersSame(objects, k, Linked(objects[k], l));
    assert objects[k] in objects;
    LinkedIs(objects[k], l);
    assert r[k] in r && Merged(objects, l, r[k]);
  }

  lemma LinkToNew(objects: seq<Entry>, l: Link)
    requires Proper(objects) && Usable(l) && Find(objects, EntryId, l.objectId) == None
    ensures forall e: Entry :: e.id != l.objectId ==> (e in AddLink(objects, l) <==> e in objects)
    ensures exists e :: e in AddLink(objects, l) && e.id == l.objectId && Merged(objects, l, e)
  {
    var had := Entry(l.objectId, 0, 0, []);
    var e := Linked(had, l);
    AddContents(objects, EntryId, e);
    NoneWithId(objects, l.objectId);
    LinkedIs(had, l);
    assert MergedWith(had, l, e);
    assert e in AddLink(objects, l) && Merged(objects, l, e);
  }

  lemma NoneWithId(objects: seq<Entry>, id: uint16)
    requires Proper(objects) && Find(objects, EntryId, id) == None
    ensures forall o :: o in objects ==> o.id != id
  {
    FindIsMembership(objects, EntryId, id);
  }

  lemma OthersSame(objects: seq<Entry>, k: nat, u: Entry)
    requires Proper(objects) && k < |objects| && u.id == objects[k].id
    ensures forall e: Entry :: e.id != u.id ==> (e in objects[k := u] <==> e in objects)
  {
    var r := objects[k := u];
    forall e: Entry | e.id != u.id ensures e in r <==> e in objects {
      if e in objects {
        var i :| 0 <= i < |objects| && objects[i] == e;
        assert r[i] == e;
      }
    }
  }

  // The entry of an object after a link, by the one it had, if any.
  ghost predicate Merged(objects: seq<Entry>, l: Link, e: Entry) {
    exists had :: (had in objects || (had == Entry(l.objectId, 0, 0, []) && forall o :: o in objects ==> o.id != l.objectId))
                  && had.id == l.objectId && MergedWith(had, l, e)
  }

  ghost predicate MergedWith(had: Entry, l: Link, e: Entry) {
    match l.instance
    case None => e == had.(major := l.major, minor := l.minor)
    case Some(i) =>
      && e == had.(instances := e.instances)
      && forall x :: x in e.instances <==> x in had.instances || x == i
  }

  lemma LinkedIs(had: Entry, l: Link)
    requires WellFormed(had)
    ensures MergedWith(had, l, Linked(had, l))
  {
    if l.instance.Some? {
      FindIsMembership(had.instances, InstanceId, l.instance.value);
      AddContents(had.instances, InstanceId, l.instance.value);
      if Find(had.instances, InstanceId, l.instance.value).Some? {
        assert l.instance.value in had.instances;
      }
    }
  }
}
