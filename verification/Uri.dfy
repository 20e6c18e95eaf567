// LwM2M URIs as text and as path segments (wakaama/core/uri.c): printing them
// into a buffer, reading them back, and the paths of CoAP requests.
module Uri {
  import opened Common
  import opened Decimal

  // MAX_ID stands for an id that is not set.
  datatype Uri = Uri(objectId: uint16, instanceId: uint16, resourceId: uint16, resourceInstanceId: uint16)

  const NO_URI := Uri(MAX_ID, MAX_ID, MAX_ID, MAX_ID)

  function FromIds(ids: seq<uint16>): Uri {
    Uri(if |ids| > 0 then ids[0] else MAX_ID, if |ids| > 1 then ids[1] else MAX_ID,
        if |ids| > 2 then ids[2] else MAX_ID, if |ids| > 3 then ids[3] else MAX_ID)
  }

  // The ids up to the first one that is not set.
  function Ids(u: Uri): (ids: seq<uint16>)
    ensures |ids| <= 4 && forall i :: 0 <= i < |ids| ==> ids[i] < MAX_ID
  {
    if u.objectId == MAX_ID then []
    else if u.instanceId == MAX_ID then [u.objectId]
    else if u.resourceId == MAX_ID then [u.objectId, u.instanceId]
    else if u.resourceInstanceId == MAX_ID then [u.objectId, u.instanceId, u.resourceId]
    else [u.objectId, u.instanceId, u.resourceId, u.resourceInstanceId]
  }

  // No id is set after one that is not.
  predicate Canonical(u: Uri) {
    && (u.instanceId != MAX_ID ==> u.objectId != MAX_ID)
    && (u.resourceId != MAX_ID ==> u.instanceId != MAX_ID)
    && (u.resourceInstanceId != MAX_ID ==> u.resourceId != MAX_ID)
  }

  // ----- lwm2m_uriToString --------------------------------------------------

  function IdsText(ids: seq<uint16>): string {
    if ids == [] then "" else "/" + Digits(ids[0]) + IdsText(ids[1..])
  }

  function UriText(u: Uri): string { if Ids(u) == [] then "/" else IdsText(Ids(u)) }

  function AddIds(out: string, cap: nat, ids: seq<uint16>): Option<string>
    requires cap > 0
    decreases ids
  {
    if ids == [] then Some(out)
    else if |out| >= cap - 1 || |Digits(ids[0])| > cap - (|out| + 1) then None
    else AddIds(out + "/" + Digits(ids[0]), cap, ids[1..])
  }

  function UriToString(u: Uri, cap: nat): Option<string>
    requires cap > 0
  {
    if Ids(u) == [] then if cap > 1 then Some("/") else None
    else AddIds("", cap, Ids(u))
  }

  // ----- lwm2m_stringToUri --------------------------------------------------

  predicate IsSpace(c: char) { c == ' ' || '\t' <= c <= '\r' }

  function SkipBlank(s: string, i: nat): (r: nat)
    requires i <= |s|
    ensures i <= r <= |s|
    decreases |s| - i
  {
    if i == |s| || !IsSpace(s[i]) then i else SkipBlank(s, i + 1)
  }

  datatype Reading = Reading(ids: seq<uint16>, head: nat)

  // One id after the other; a slash may follow each of the first three. All
  // text has to be used up.
  function ReadIds(s: string, head: nat, ids: seq<uint16>): Option<Reading>
    requires |ids| < 4
    decreases 4 - |ids|
  {
    var (value, end) :- ParseNumber(s, head);
    if value >= MAX_ID as int then None
    else
      var ids' := ids + [value];
      if |ids'| == 4 then if end == |s| then Some(Reading(ids', end)) else None
      else
        var next := if end < |s| && s[end] == '/' then end + 1 else end;
        if next < |s| then ReadIds(s, next, ids') else Some(Reading(ids', next))
  }

  // The URI and the number of characters read; None for the result 0.
  function StringToUri(s: string): Option<(Uri, nat)> {
    var head := SkipBlank(s, 0);
    if head == |s| || s[head] != '/' then None
    else if head + 1 == |s| then Some((NO_URI, head + 1))
    else
      var r :- ReadIds(s, head + 1, []);
      Some((FromIds(r.ids), r.head))
  }

  // ----- Printing -----------------------------------------------------------

  lemma {:induction false} IdsTextShort(ids: seq<uint16>)
    ensures |ids| <= |IdsText(ids)| <= 6 * |ids| && (ids != [] ==> |IdsText(ids)| > 1)
  {
    if ids != [] {
      IdLength(ids[0]);
      IdsTextShort(ids[1..]);
    }
  }

  lemma {:induction false} AddIdsIff(out: string, cap: nat, ids: seq<uint16>)
    requires cap > 0 && |out| <= cap
    ensures AddIds(out, cap, ids) ==
            if |out| + |IdsText(ids)| <= cap then Some(out + IdsText(ids)) else None
    decreases ids
  {
    if ids == [] {
      assert out + "" == out;
    } else {
      IdsTextShort(ids[1..]);
      var out' := out + "/" + Digits(ids[0]);
      assert out + IdsText(ids) == out' + IdsText(ids[1..]);
      if |out'| <= cap { AddIdsIff(out', cap, ids[1..]); }
    }
  }

  // The text is at most 24 characters long, and printing it succeeds exactly
  // when it fits; one more character is needed for the root alone.
  lemma UriToStringIff(u: Uri, cap: nat)
    requires cap > 0
    ensures 0 < |UriText(u)| <= 24
    ensures UriToString(u, cap) == if |UriText(u)| <= cap && cap > 1 then Some(UriText(u)) else None
  {
    IdsTextShort(Ids(u));
    AddIdsIff("", cap, Ids(u));
    assert "" + IdsText(Ids(u)) == IdsText(Ids(u));
  }

  // ----- Reading back -------------------------------------------------------

  const IdText: uint16 -> string := (id: uint16) => Digits(id)

  // Segments as one text.
  function PathText(segments: seq<string>): string {
    if segments == [] then "" else "/" + segments[0] + PathText(segments[1..])
  }

  ghost predicate IsSegment(s: string) { s != "" && forall i :: 0 <= i < |s| ==> s[i] != '/' }

  ghost predicate AreSegments(segments: seq<string>) {
    forall i :: 0 <= i < |segments| ==> IsSegment(segments[i])
  }

  // A segment inside a text is read as it is read alone.
  lemma {:induction false} ParseWithin(before: string, seg: string, rest: string, i: nat, result: nat)
    requires IsSegment(seg) && i <= |seg| && (rest == "" || rest[0] == '/')
    ensures var alone := ParseFrom(seg, i, result);
            ParseFrom(before + seg + rest, |before| + i, result) ==
            if alone.Some? then Some((alone.value.0, |before| + |seg|)) else None
    decreases |seg| - i
  {
    var s := before + seg + rest;
    if i < |seg| {
      assert s[|before| + i] == seg[i];
      if IsDigit(seg[i]) { ParseWithin(before, seg, rest, i + 1, result * 10 + DigitValue(seg[i])); }
    } else {
      assert rest != "" ==> s[|before| + i] == rest[0];
    }
  }

  lemma NumberWithin(before: string, seg: string, rest: string)
    requires IsSegment(seg) && (rest == "" || rest[0] == '/')
    ensures var n := GetNumber(seg);
            ParseNumber(before + seg + rest, |before|) ==
            if n.Some? then Some((n.value, |before| + |seg|)) else None
  {
    ParseWithin(before, seg, rest, 0, 0);
    assert (before + seg + rest)[|before|] == seg[0];
  }

  lemma PathStarts(segments: seq<string>)
    requires AreSegments(segments)
    ensures segments == [] <==> PathText(segments) == ""
    ensures segments != [] ==> PathText(segments)[0] == '/' && |PathText(segments)| > 1
  {
    if segments != [] { assert IsSegment(segments[0]); }
  }

  lemma Slashed(before: string, seg: string, rest: string)
    ensures before + ("/" + seg + rest) == (before + "/") + seg + rest
  {
  }

  lemma SegmentsRest(segments: seq<string>)
    requires segments != [] && AreSegments(segments)
    ensures IsSegment(segments[0]) && AreSegments(segments[1..])
  {
    assert forall i :: 0 <= i < |segments| - 1 ==> segments[1..][i] == segments[i + 1];
  }

  // The parts of a text around its first segment.
  lemma FirstPart(before: string, segments: seq<string>)
    requires segments != [] && AreSegments(segments)
    ensures var from, seg, rest := before + "/", segments[0], PathText(segments[1..]);
            && before + PathText(segments) == from + seg + rest && |from| == |before| + 1
            && IsSegment(seg) && AreSegments(segments[1..]) && (rest != "" <==> |segments| > 1)
            && (rest != "" ==> rest[0] == '/' && |rest| > 1 && (from + seg + rest)[|from| + |seg|] == '/')
  {
    var rest := PathText(segments[1..]);
    Slashed(before, segments[0], rest);
    SegmentsRest(segments);
    PathStarts(segments[1..]);
    if rest != "" { assert (before + "/" + segments[0] + rest)[|before| + 1 + |segments[0]|] == rest[0]; }
  }

  // Reading a text is reading its segments one by one.
  lemma {:induction false} ReadSegments(before: string, segments: seq<string>, done: seq<uint16>)
    requires segments != [] && AreSegments(segments) && |done| + |segments| <= 4
    ensures var ids := SegmentIds(segments, done, true); var s := before + PathText(segments);
            ReadIds(s, |before| + 1, done) == if ids.Some? then Some(Reading(ids.value, |s|)) else None
    decreases segments
  {
    var from, seg, more := before + "/", segments[0], segments[1..];
    FirstPart(before, segments);
    NumberWithin(from, seg, PathText(more));
    var id := SegmentId(seg);
    if id.Some? && more != [] { ReadSegments(from + seg, more, done + [id.value]); }
  }

  lemma ReadPath(path: seq<string>)
    requires 0 < |path| <= 4 && AreSegments(path)
    ensures var ids := SegmentIds(path, [], true);
            StringToUri(PathText(path)) == if ids.Some? then Some((FromIds(ids.value), |PathText(path)|)) else None
  {
    PathStarts(path);
    ReadSegments("", path, []);
    assert "" + PathText(path) == PathText(path);
  }

  lemma {:induction false} SegmentsReadBack(ids: seq<uint16>, done: seq<uint16>)
    requires |done| + |ids| <= 4 && forall i :: 0 <= i < |ids| ==> ids[i] < MAX_ID
    ensures SegmentIds(Map(IdText, ids), done, true) == Some(done + ids)
    ensures AreSegments(Map(IdText, ids)) && PathText(Map(IdText, ids)) == IdsText(ids)
    decreases ids
  {
    if ids == [] {
      assert done + [] == done;
    } else {
      GetDigits(ids[0]);
      NumeralOfDigits(ids[0]);
      var rest := Map(IdText, ids[1..]);
      assert ([Digits(ids[0])] + rest)[1..] == rest;
      SegmentsReadBack(ids[1..], done + [ids[0]]);
      assert done + [ids[0]] + ids[1..] == done + ids;
      assert IsSegment(Digits(ids[0]));
    }
  }

  // Text read back gives the ids up to the first one not set.
  lemma TextReadBack(u: Uri)
    ensures StringToUri(UriText(u)) == Some((FromIds(Ids(u)), |UriText(u)|))
  {
    var ids := Ids(u);
    if ids != [] {
      SegmentsReadBack(ids, []);
      ReadPath(Map(IdText, ids));
      assert [] + ids == ids;
    }
  }

  // So a URI survives printing and reading exactly when its set ids are a
  // prefix.
  lemma UriRoundTripIff(u: Uri)
    ensures StringToUri(UriText(u)) == Some((u, |UriText(u)|)) <==> Canonical(u)
  {
    TextReadBack(u);
  }

  // ----- uri_decode ---------------------------------------------------------

  datatype RequestType = Unknown | DeviceManagement | DeleteAll | Registration | Bootstrap

  datatype Decoded = Decoded(request: RequestType, uri: Uri)

  const UNKNOWN := Decoded(Unknown, NO_URI)

  function SegmentId(segment: string): Option<uint16> {
    var n :- GetNumber(segment);
    if n >= MAX_ID as int then None else Some(n)
  }

  // The ids of a device-management path. An empty segment leaves its id
  // unset, and no id may follow it.
  function SegmentIds(segments: seq<string>, ids: seq<uint16>, open: bool): Option<seq<uint16>>
    decreases segments
  {
    if segments == [] then Some(ids)
    else if |ids| == 4 || (!open && |segments[0]| != 0) then None
    else if segments[0] == "" && ids != [] then SegmentIds(segments[1..], ids, false)
    else
      var id :- SegmentId(segments[0]);
      SegmentIds(segments[1..], ids + [id], open)
  }

  // Without an alternate path; at most four segments count as ids.
  function UriDecode(path: seq<string>, delete: bool): Decoded {
    if path != [] && path[0] == "rd" then
      if |path| == 1 then Decoded(Registration, NO_URI)
      else
        var id := SegmentId(path[1]);
        if id == None || |path| > 2 then UNKNOWN else Decoded(Registration, FromIds([id.value]))
    else if path != [] && path[0] == "bs" then
      if |path| > 1 then UNKNOWN else Decoded(Bootstrap, NO_URI)
    else if path == [] || path[0] == "" then
      Decoded(if delete then DeleteAll else DeviceManagement, NO_URI)
    else if |path| > 4 then UNKNOWN
    else
      var ids := SegmentIds(path, [], true);
      if ids == None then UNKNOWN else Decoded(DeviceManagement, FromIds(ids.value))
  }

  // A path of ids is decoded exactly when its text is read, to the same URI,
  // whatever the segments are; the text is then read to its end.
  lemma SegmentsAgree(path: seq<string>, delete: bool)
    requires 0 < |path| <= 4 && AreSegments(path) && path[0] != "rd" && path[0] != "bs"
    ensures var d := UriDecode(path, delete); var s := PathText(path);
            StringToUri(s) == if d.request == DeviceManagement then Some((d.uri, |s|)) else None
  {
    assert IsSegment(path[0]);
    ReadPath(path);
  }

  // ----- What is accepted ---------------------------------------------------

  // Each segment is the numeral of an id that is not reserved.
  ghost predicate AreIds(path: seq<string>) {
    forall i :: 0 <= i < |path| ==> AllDigits(path[i]) && Numeral(path[i]) < 0xFFFF
  }

  ghost function NumeralsOf(path: seq<string>): seq<nat>
    requires AreIds(path)
  {
    if path == [] then [] else [Numeral(path[0])] + NumeralsOf(path[1..])
  }

  ghost predicate NoSlash(s: string) { forall i :: 0 <= i < |s| ==> s[i] != '/' }

  ghost predicate NoSlashes(path: seq<string>) { forall i :: 0 <= i < |path| ==> NoSlash(path[i]) }

  lemma SegmentIdIff(segment: string)
    requires segment != "" && NoSlash(segment)
    ensures SegmentId(segment) ==
            if AllDigits(segment) && Numeral(segment) < 0xFFFF then Some(Numeral(segment)) else None
  {
    NumberIff(segment);
  }

  // The first k segments are not empty, and no more are if one is empty.
  ghost predicate FilledTo(path: seq<string>, k: nat) {
    k <= |path| && (forall i :: 0 <= i < k ==> path[i] != "") && (k < |path| ==> path[k] == "")
  }

  ghost predicate AllEmpty(path: seq<string>) { forall i :: 0 <= i < |path| ==> path[i] == "" }

  lemma {:induction false} ClosedIff(path: seq<string>, ids: seq<uint16>)
    requires 0 < |ids| < 4
    ensures SegmentIds(path, ids, false) == if AllEmpty(path) then Some(ids) else None
    decreases path
  {
    if path != [] {
      ClosedIff(path[1..], ids);
      assert AllEmpty(path) <==> path[0] == "" && AllEmpty(path[1..]) by {
        assert forall i :: 0 < i < |path| ==> path[i] == path[1..][i - 1];
      }
    }
  }

  // The paths read: ids, and then only empty segments.
  ghost predicate Readable(path: seq<string>, k: nat)
    requires k <= |path|
  {
    AreIds(path[..k]) && AllEmpty(path[k..])
  }

  lemma OneMore(path: seq<string>, k: nat)
    requires 0 < k <= |path| && FilledTo(path, k) && NoSlashes(path)
    ensures FilledTo(path[1..], k - 1) && NoSlashes(path[1..])
    ensures Readable(path, k) <==> AllDigits(path[0]) && Numeral(path[0]) < 0xFFFF && Readable(path[1..], k - 1)
    ensures Readable(path, k) ==> NumeralsOf(path[..k]) == [Numeral(path[0])] + NumeralsOf(path[1..][..k - 1])
  {
    var ids := path[..k];
    assert ids[1..] == path[1..][..k - 1] && path[1..][k - 1..] == path[k..];
    assert AreIds(ids) <==> AllDigits(ids[0]) && Numeral(ids[0]) < 0xFFFF && AreIds(ids[1..]) by {
      assert forall i :: 0 < i < |ids| ==> ids[i] == ids[1..][i - 1];
    }
  }

  lemma {:induction false} SegmentIdsIff(path: seq<string>, done: seq<uint16>, k: nat)
    requires NoSlashes(path) && |done| + |path| <= 4 && FilledTo(path, k) && (done != [] || k > 0)
    ensures SegmentIds(path, done, true) == if Readable(path, k) then Some(done + NumeralsOf(path[..k])) else None
    decreases path
  {
    if path == [] {
      assert done + [] == done;
    } else if k == 0 {
      assert path[0..] == path && AllEmpty(path) <==> AllEmpty(path[1..]) by {
        assert forall i :: 0 < i < |path| ==> path[i] == path[1..][i - 1];
      }
      ClosedIff(path[1..], done);
      assert done + [] == done;
    } else {
      OneMore(path, k);
      SegmentIdIff(path[0]);
      var id := SegmentId(path[0]);
      if id.Some? {
        SegmentIdsIff(path[1..], done + [id.value], k - 1);
        if Readable(path, k) {
          assert done + [id.value] + NumeralsOf(path[1..][..k - 1]) == done + NumeralsOf(path[..k]);
        }
      }
    }
  }

  // A path is read exactly when it has at most four segments, the first ones
  // are the numerals of ids below 65535, and all after these are empty; the
  // fields are these numbers in order, and the rest is unset.
  lemma PathAcceptedIff(path: seq<string>, delete: bool, k: nat)
    requires NoSlashes(path) && FilledTo(path, k) && k > 0 && path[0] != "rd" && path[0] != "bs"
    ensures var d := UriDecode(path, delete);
            && (d.request == DeviceManagement <==> |path| <= 4 && Readable(path, k))
            && (d.request == DeviceManagement ==>
                  var n := NumeralsOf(path[..k]);
                  && |n| == k && d.uri.objectId == n[0] && d.uri.instanceId == (if k > 1 then n[1] else 0xFFFF)
                  && d.uri.resourceId == (if k > 2 then n[2] else 0xFFFF)
                  && d.uri.resourceInstanceId == (if k > 3 then n[3] else 0xFFFF))
            && (d.request != DeviceManagement ==> d == Decoded(Unknown, Uri(0xFFFF, 0xFFFF, 0xFFFF, 0xFFFF)))
  {
    if |path| <= 4 {
      SegmentIdsIff(path, [], k);
      if Readable(path, k) {
        NumeralsLength(path[..k]);
        assert [] + NumeralsOf(path[..k]) == NumeralsOf(path[..k]);
      }
    }
  }

  lemma {:induction false} NumeralsLength(path: seq<string>)
    requires AreIds(path)
    ensures |NumeralsOf(path)| == |path|
  {
    if path != [] { NumeralsLength(path[1..]); }
  }

  // No segment, or an empty one first, stands for the root, which a DELETE
  // empties.
  lemma OtherPaths(path: seq<string>, delete: bool)
    ensures path == [] || path[0] == "" ==>
              UriDecode(path, delete) ==
              Decoded(if delete then DeleteAll else DeviceManagement, Uri(0xFFFF, 0xFFFF, 0xFFFF, 0xFFFF))
    ensures |path| > 0 && path[0] == "bs" ==>
              UriDecode(path, delete).request == if |path| == 1 then Bootstrap else Unknown
    ensures UriDecode(["rd"], delete) == Decoded(Registration, Uri(0xFFFF, 0xFFFF, 0xFFFF, 0xFFFF))
    ensures |path| > 2 && path[0] == "rd" ==> UriDecode(path, delete).request == Unknown
  {
  }

  // The path of a registration names the client by its id; an empty segment
  // stands for client 0.
  lemma RegistrationPath(segment: string, delete: bool)
    requires NoSlash(segment)
    ensures UriDecode(["rd", segment], delete) ==
            if AllDigits(segment) && Numeral(segment) < 0xFFFF
            then Decoded(Registration, Uri(Numeral(segment), 0xFFFF, 0xFFFF, 0xFFFF)) else UNKNOWN
  {
    if segment != "" { SegmentIdIff(segment); }
  }

  // Blanks before a text do not matter, and any other first character than a
  // slash is no URI.
  lemma BlanksBefore(s: string)
    ensures s != "" && (s[0] == ' ' || '\t' <= s[0] <= '\r') ==>
              SkipBlank(s, 0) == SkipBlank(s, 1) && (StringToUri(s).Some? ==> s[SkipBlank(s, 1)] == '/')
    ensures s != "" && s[0] != '/' && s[0] != ' ' && !('\t' <= s[0] <= '\r') ==> StringToUri(s) == None
    ensures StringToUri("") == None
  {
    if s != "" && IsSpace(s[0]) { BlanksEnd(s, 1); }
  }

  lemma {:induction false} BlanksEnd(s: string, i: nat)
    requires i <= |s|
    ensures SkipBlank(s, i) == |s| || !IsSpace(s[SkipBlank(s, i)])
    decreases |s| - i
  {
    if i < |s| && IsSpace(s[i]) { BlanksEnd(s, i + 1); }
  }

  // ----- The loops ----------------------------------------------------------

  // prv_parseNumber
  method ReadNumber(s: string, headIn: nat) returns (r: Option<(nat, nat)>)
    requires headIn < |s|
    ensures r == ParseNumber(s, headIn)
  {
    var head, result: nat := headIn, 0;
    if s[head] == '/' {
      return None;
    }
    while head < |s| && s[head] != '/'
      invariant headIn <= head <= |s| && ParseFrom(s, head, result) == ParseFrom(s, headIn, 0)
    {
      if '0' <= s[head] <= '9' {
        result := result * 10 + DigitValue(s[head]);
      } else {
        return None;
      }
      head := head + 1;
    }
    r := Some((result, head));
  }

  // lwm2m_stringToUri; zero when the text is no URI.
  method ReadUri(s: string) returns (uri: Uri, length: nat)
    ensures match StringToUri(s)
            case None => length == 0
            case Some(r) => uri == r.0 && length == r.1 > 0
  {
    uri, length := NO_URI, 0;
    var head := 0;
    while head < |s| && IsSpace(s[head])
      invariant head <= |s| && SkipBlank(s, head) == SkipBlank(s, 0)
    {
      head := head + 1;
    }
    if head == |s| || s[head] != '/' {
      return;
    }
    head := head + 1;
    if head == |s| {
      length := head;
      return;
    }
    var r := ReadAllIds(s, head);
    if r.Some? {
      uri, length := FromIds(r.value.ids), r.value.head;
      ReadIdsEnds(s, head, []);
    }
  }

  lemma {:induction false} ReadIdsEnds(s: string, head: nat, ids: seq<uint16>)
    requires head < |s| && |ids| < 4
    ensures ReadIds(s, head, ids).Some? ==> ReadIds(s, head, ids).value.head > 0
    decreases 4 - |ids|
  {
    if ParseNumber(s, head).Some? {
      NumberEnds(s, head);
      var (value, end) := ParseNumber(s, head).value;
      var next := if end < |s| && s[end] == '/' then end + 1 else end;
      if value < MAX_ID as int && |ids| < 3 && next < |s| {
        ReadIdsEnds(s, next, ids + [value]);
      }
    }
  }

  method ReadAllIds(s: string, start: nat) returns (r: Option<Reading>)
    requires start < |s|
    ensures r == ReadIds(s, start, [])
  {
    var head := start;
    var ids: seq<uint16> := [];
    while head < |s| && |ids| < 4
      invariant start <= head <= |s| && |ids| <= 4
      invariant ReadIds(s, start, []) ==
                if head < |s| && |ids| < 4 then ReadIds(s, head, ids)
                else if head == |s| then Some(Reading(ids, head)) else None
      decreases |s| - head
    {
      var n := ReadNumber(s, head);
      if n == None || n.value.0 >= MAX_ID as int {
        return None;
      }
      NumberEnds(s, head);
      ids := ids + [n.value.0];
      head := n.value.1;
      if |ids| < 4 && head < |s| && s[head] == '/' {
        head := head + 1;
      }
    }
    r := if head == |s| then Some(Reading(ids, head)) else None;
  }

  lemma {:induction false} ParseFromEnds(s: string, head: nat, result: nat)
    requires head <= |s|
    ensures ParseFrom(s, head, result).Some? ==>
              var end := ParseFrom(s, head, result).value.1;
              head <= end <= |s| && (head < |s| && s[head] != '/' ==> head < end) && (end < |s| ==> s[end] == '/')
    decreases |s| - head
  {
    if head < |s| && s[head] != '/' && IsDigit(s[head]) {
      ParseFromEnds(s, head + 1, result * 10 + DigitValue(s[head]));
    }
  }

  lemma NumberEnds(s: string, head: nat)
    requires head < |s| && ParseNumber(s, head).Some?
    ensures head < ParseNumber(s, head).value.1 <= |s|
    ensures ParseNumber(s, head).value.1 < |s| ==> s[ParseNumber(s, head).value.1] == '/'
  {
    ParseFromEnds(s, head, 0);
  }
}
