// The registration payload in CoRE link format (RFC 6690 section 2), and how it
// is printed into a buffer that may be too small for it.
module LinkFormat {
  import opened Common
  import opened Decimal
  import opened SortedList

  // It is printed by the client (wakaama/core/objects.c) and parsed by the
  // server (wakaama/core/registration.c). Text is a sequence of characters, one
  // per byte.

  // An object with its version and the ids of its instances.
  datatype Entry = Entry(id: uint16, major: byte, minor: byte, instances: seq<uint16>)

  const SECURITY: uint16 := 0
  const OSCORE: uint16 := 21
  const MIN_LEN: nat := 5
  const RESOURCE_TYPE := ">;rt=\"oma.lwm2m\";ct=112,"
  const VERSION_START := ">;ver="
  const PATH_END := ">,"

  predicate Versioned(o: Entry) { o.major != 0 || o.minor != 0 }

  // ----- The text -----------------------------------------------------------

  function Template(id: uint16): string { "</" + Digits(id) + "/" }

  function VersionText(o: Entry): string {
    "</" + Digits(o.id) + VERSION_START + Digits(o.major) + "." + Digits(o.minor) + ","
  }

  function InstancesText(id: uint16, instances: seq<uint16>): string {
    if instances == [] then ""
    else Template(id) + Digits(instances[0]) + PATH_END + InstancesText(id, instances[1..])
  }

  // What is printed of an object before its instances.
  function HeadText(o: Entry): string {
    if Versioned(o) then VersionText(o)
    else if o.instances == [] then "</" + Digits(o.id) + PATH_END else ""
  }

  function ObjectText(o: Entry): string { HeadText(o) + InstancesText(o.id, o.instances) }

  function ObjectsText(os: seq<Entry>): string {
    if os == [] then ""
    else (if os[0].id == SECURITY then "" else ObjectText(os[0])) + ObjectsText(os[1..])
  }

  // The alternate path, "/" when there is none.
  function Path(altPath: string): string { if altPath == "" then "/" else altPath }

  // The whole payload, still with the comma after its last link.
  function PayloadText(altPath: string, os: seq<Entry>): string {
    "<" + Path(altPath) + RESOURCE_TYPE + ObjectsText(os)
  }

  // ----- object_getRegisterPayload ------------------------------------------

  // Every step appends to what is printed so far, `out`, in a buffer of `cap`
  // bytes. utils_stringCopy needs room for a terminating null, too.
  function AddString(out: string, cap: nat, s: string): (r: Option<string>)
    ensures r.Some? ==> |out| <= |r.value| <= cap
  {
    if |out| + |s| < cap then Some(out + s) else None
  }

  function AddChar(out: string, cap: nat, c: char): (r: Option<string>)
    ensures r.Some? ==> |out| <= |r.value| <= cap
  {
    if |out| < cap then Some(out + [c]) else None
  }

  // A number that does not fit is left out without notice.
  function AddNumber(out: string, cap: nat, n: nat): string {
    if |out| + |Digits(n)| <= cap then out + Digits(n) else out
  }

  // prv_getObjectTemplate
  function AddTemplate(out: string, cap: nat, id: uint16): (r: Option<string>)
    requires |out| <= cap
    ensures r.Some? ==> r.value == out + Template(id) && |r.value| <= cap
  {
    var room := cap - |out|;
    if room < MIN_LEN || |Digits(id)| > room - 2 || room - (2 + |Digits(id)|) < MIN_LEN - 3 then None
    else Some(out + Template(id))
  }

  // One instance of an object, when `mark` is the position just after the
  // template already printed for the first of them.
  function AddInstance(out: string, cap: nat, id: uint16, mark: nat, instance: uint16): (r: Option<string>)
    requires |out| <= cap
    ensures r.Some? ==> |out| <= |r.value| <= cap
  {
    if |out| != mark && cap - |out| <= |Template(id)| then None
    else
      var a := if |out| != mark then out + Template(id) else out;
      if |a| + |Digits(instance)| > cap then None else AddString(a + Digits(instance), cap, PATH_END)
  }

  function AddInstances(out: string, cap: nat, id: uint16, mark: nat, instances: seq<uint16>)
    : (r: Option<string>)
    requires |out| <= cap
    ensures r.Some? ==> |out| <= |r.value| <= cap
    decreases instances
  {
    if instances == [] then Some(out)
    else
      var a :- AddInstance(out, cap, id, mark, instances[0]);
      AddInstances(a, cap, id, mark, instances[1..])
  }

  function AddVersion(out: string, cap: nat, o: Entry): (r: Option<string>)
    requires |out| <= cap
    ensures r.Some? ==> |out| <= |r.value| <= cap
  {
    var a :- AddString(out, cap, VERSION_START);
    var b :- AddChar(AddNumber(a, cap, o.major), cap, '.');
    AddChar(AddNumber(b, cap, o.minor), cap, ',')
  }

  // The version goes over the last slash of the template; the instances need
  // a template of their own then.
  function AddVersioned(template: string, cap: nat, o: Entry): (r: Option<string>)
    requires 0 < |template| <= cap
    ensures r.Some? ==> |r.value| <= cap && r.value != ""
  {
    var v :- AddVersion(template[..|template| - 1], cap, o);
    if o.instances == [] then Some(v) else AddTemplate(v, cap, o.id)
  }

  // What comes before the instances, with the template of the first of them.
  function AddHead(out: string, cap: nat, o: Entry): (r: Option<string>)
    requires |out| <= cap
    ensures r.Some? ==> |r.value| <= cap && r.value != ""
  {
    var t :- AddTemplate(out, cap, o.id);
    if Versioned(o) then AddVersioned(t, cap, o)
    else if o.instances == [] then AddString(t[..|t| - 1], cap, PATH_END)
    else Some(t)
  }

  function AddObject(out: string, cap: nat, o: Entry): (r: Option<string>)
    requires |out| <= cap
    ensures r.Some? ==> |r.value| <= cap && r.value != ""
  {
    var h :- AddHead(out, cap, o);
    AddInstances(h, cap, o.id, |h|, o.instances)
  }

  function AddObjects(out: string, cap: nat, os: seq<Entry>): (r: Option<string>)
    requires |out| <= cap && out != ""
    ensures r.Some? ==> |r.value| <= cap && r.value != ""
    decreases os
  {
    if os == [] then Some(out)
    else if os[0].id == SECURITY then AddObjects(out, cap, os[1..])
    else
      var a :- AddObject(out, cap, os[0]);
      AddObjects(a, cap, os[1..])
  }

  function Header(altPath: string, cap: nat): (r: Option<string>)
    ensures r.Some? ==> |r.value| <= cap && r.value != ""
  {
    var a :- AddString("", cap, "<");
    var b :- AddString(a, cap, Path(altPath));
    AddString(b, cap, RESOURCE_TYPE)
  }

  // The trailing comma is dropped.
  function Payload(altPath: string, os: seq<Entry>, cap: nat): (r: Option<string>)
    ensures r.Some? ==> |r.value| < cap
  {
    var a :- Header(altPath, cap);
    var b :- AddObjects(a, cap, os);
    Some(b[..|b| - 1])
  }

  // object_getRegisterPayloadBufferLength skips the OSCORE object.
  function WithoutOscore(os: seq<Entry>): seq<Entry> {
    if os == [] then []
    else (if os[0].id == OSCORE then [] else [os[0]]) + WithoutOscore(os[1..])
  }

  function BufferLength(altPath: string, os: seq<Entry>): nat {
    |PayloadText(altPath, WithoutOscore(os))| + 1
  }

  // ----- Printing in enough room --------------------------------------------

  lemma Glue(a: string, b: string, c: string)
    ensures a + (b + c) == a + b + c
  {
  }

  lemma InstancesGlue(out: string, id: uint16, instances: seq<uint16>)
    requires instances != []
    ensures out + InstancesText(id, instances) ==
            out + Template(id) + Digits(instances[0]) + PATH_END + InstancesText(id, instances[1..])
  {
    var t, d, rest := Template(id), Digits(instances[0]), InstancesText(id, instances[1..]);
    Glue(out, t, d);
    Glue(out, t + d, PATH_END);
    Glue(out, t + d + PATH_END, rest);
  }

  lemma {:induction false} AddInstancesFits(out: string, cap: nat, id: uint16, mark: nat, instances: seq<uint16>)
    requires |out| <= cap && mark < |out| && |out| + |InstancesText(id, instances)| < cap
    ensures AddInstances(out, cap, id, mark, instances) == Some(out + InstancesText(id, instances))
    decreases instances
  {
    if instances == [] {
      assert out + "" == out;
    } else {
      InstancesGlue(out, id, instances);
      AddInstancesFits(out + Template(id) + Digits(instances[0]) + PATH_END, cap, id, mark, instances[1..]);
    }
  }

  lemma TemplateFits(out: string, cap: nat, id: uint16)
    requires |out| + |Digits(id)| + 4 < cap
    ensures AddTemplate(out, cap, id) == Some(out + Template(id))
    ensures (out + Template(id))[..|out + Template(id)| - 1] == out + ("</" + Digits(id))
  {
  }

  lemma FirstInstancesFits(out: string, cap: nat, id: uint16, instances: seq<uint16>)
    requires instances != [] && |out| + |InstancesText(id, instances)| < cap
    ensures AddTemplate(out, cap, id) == Some(out + Template(id))
    ensures AddInstances(out + Template(id), cap, id, |out + Template(id)|, instances) ==
            Some(out + InstancesText(id, instances))
  {
    TemplateFits(out, cap, id);
    InstancesGlue(out, id, instances);
    var t := out + Template(id);
    AddInstancesFits(t + Digits(instances[0]) + PATH_END, cap, id, |t|, instances[1..]);
  }

  lemma AddVersionFits(out: string, cap: nat, o: Entry)
    requires |out| + |VersionText(o)| < cap
    ensures AddVersion(out + ("</" + Digits(o.id)), cap, o) == Some(out + VersionText(o))
  {
    var s := out + ("</" + Digits(o.id));
    var v := s + VERSION_START + Digits(o.major) + ['.'] + Digits(o.minor) + [','];
    assert out + VersionText(o) == v;
  }

  lemma AddVersionedFits(out: string, cap: nat, o: Entry, head: string, template: string)
    requires head == out + VersionText(o) && |head| < cap && template == out + Template(o.id)
    requires o.instances != [] ==> AddTemplate(head, cap, o.id) == Some(head + Template(o.id))
    ensures AddVersioned(template, cap, o) ==
            Some(if o.instances == [] then head else head + Template(o.id))
  {
    assert template[..|template| - 1] == out + ("</" + Digits(o.id));
    AddVersionFits(out, cap, o);
  }

  lemma VersionedFits(out: string, cap: nat, o: Entry, head: string, tail: string)
    requires Versioned(o) && head == out + VersionText(o) && tail == InstancesText(o.id, o.instances)
    requires |head| + |tail| < cap
    ensures AddObject(out, cap, o) == Some(head + tail)
  {
    TemplateFits(out, cap, o.id);
    if o.instances == [] {
      assert head + "" == head;
    } else {
      FirstInstancesFits(head, cap, o.id, o.instances);
    }
    AddVersionedFits(out, cap, o, head, out + Template(o.id));
  }

  lemma AddObjectFits(out: string, cap: nat, o: Entry, head: string, tail: string)
    requires head == HeadText(o) && tail == InstancesText(o.id, o.instances)
    requires |out| + |head| + |tail| < cap
    ensures AddObject(out, cap, o) == Some(out + head + tail)
  {
    if Versioned(o) {
      VersionedFits(out, cap, o, out + head, tail);
    } else if o.instances == [] {
      TemplateFits(out, cap, o.id);
      Glue(out, "</" + Digits(o.id), PATH_END);
      assert out + head + "" == out + head;
    } else {
      FirstInstancesFits(out, cap, o.id, o.instances);
      assert out + "" == out;
    }
  }

  lemma {:induction false} AddObjectsFits(out: string, cap: nat, os: seq<Entry>)
    requires out != "" && |out| + |ObjectsText(os)| < cap
    ensures AddObjects(out, cap, os) == Some(out + ObjectsText(os))
    decreases os
  {
    if os == [] {
      assert out + "" == out;
    } else if os[0].id == SECURITY {
      AddObjectsFits(out, cap, os[1..]);
      assert "" + ObjectsText(os[1..]) == ObjectsText(os[1..]);
    } else {
      var head, tail, rest := HeadText(os[0]), InstancesText(os[0].id, os[0].instances), ObjectsText(os[1..]);
      AddObjectFits(out, cap, os[0], head, tail);
      AddObjectsFits(out + head + tail, cap, os[1..]);
      Glue(out, head, tail);
      Glue(out, head + tail, rest);
    }
  }

  lemma PayloadFits(altPath: string, os: seq<Entry>, cap: nat)
    requires |PayloadText(altPath, os)| < cap
    ensures var t := PayloadText(altPath, os); Payload(altPath, os, cap) == Some(t[..|t| - 1])
  {
    var h := "<" + Path(altPath) + RESOURCE_TYPE;
    assert "" + "<" == "<";
    assert Header(altPath, cap) == Some(h);
    AddObjectsFits(h, cap, os);
  }

  // ----- The computed buffer length -----------------------------------------

  lemma {:induction false} WithoutOscoreShorter(os: seq<Entry>)
    ensures |ObjectsText(WithoutOscore(os))| <= |ObjectsText(os)|
    ensures (exists i :: 0 <= i < |os| && os[i].id == OSCORE) ==>
              |ObjectsText(WithoutOscore(os))| + 6 <= |ObjectsText(os)|
    ensures (forall i :: 0 <= i < |os| ==> os[i].id != OSCORE) ==> WithoutOscore(os) == os
  {
    if os != [] {
      WithoutOscoreShorter(os[1..]);
      assert forall i :: 0 < i < |os| ==> os[i] == os[1..][i - 1];
      if os[0].id == OSCORE {
        assert [] + WithoutOscore(os[1..]) == WithoutOscore(os[1..]);
        ObjectTextLong(os[0]);
      } else {
        assert WithoutOscore(os)[1..] == WithoutOscore(os[1..]);
        assert [os[0]] + os[1..] == os;
      }
    }
  }

  lemma ObjectTextLong(o: Entry)
    requires o.id == OSCORE
    ensures |ObjectText(o)| >= 6
  {
    assert Digits(21) == Digits(2) + [DigitChar(1)];
    if !Versioned(o) && o.instances != [] {
      assert |InstancesText(o.id, o.instances)| >= |Template(o.id)| + 2;
    }
  }

  // In a buffer of the computed length the whole payload is printed exactly
  // when no OSCORE object is present, and is two bytes shorter then.
  lemma PrintsAllIff(altPath: string, os: seq<Entry>)
    ensures var t := PayloadText(altPath, os); var n := BufferLength(altPath, os);
            && (Payload(altPath, os, n) == Some(t[..|t| - 1]) <==>
                forall i :: 0 <= i < |os| ==> os[i].id != OSCORE)
            && (Payload(altPath, os, n) == Some(t[..|t| - 1]) ==> |t| - 1 == n - 2)
  {
    WithoutOscoreShorter(os);
    var t := PayloadText(altPath, os);
    var n := BufferLength(altPath, os);
    if forall i :: 0 <= i < |os| ==> os[i].id != OSCORE {
      PayloadFits(altPath, os, n);
    } else {
      assert |t| - 1 >= n;
    }
  }

  // ----- Printing in too little room ----------------------------------------

  // The two numbers of a version in `room` bytes. Short by a few bytes, the
  // second one or both are left out, and dot and comma are printed all the same.
  function Numbers(o: Entry, room: int): Option<string> {
    var major, minor := Digits(o.major), Digits(o.minor);
    if |major| + |minor| + 2 <= room then Some(major + "." + minor + ",")
    else if |major| + 2 <= room <= |major| + |minor| then Some(major + ".,")
    else if room == 2 && |major| == 3 && |minor| >= 2 then Some(".,")
    else None
  }

  function AddNumbers(out: string, cap: nat, o: Entry): (r: Option<string>) {
    var n :- Numbers(o, cap - |out|);
    Some(out + n)
  }

  lemma NumbersInRoom(out: string, cap: nat, o: Entry)
    requires |out| < cap
    ensures var b := AddChar(AddNumber(out, cap, o.major), cap, '.');
            AddNumbers(out, cap, o) == if b == None then None else AddChar(AddNumber(b.value, cap, o.minor), cap, ',')
  {
    var major, minor := Digits(o.major), Digits(o.minor);
    ByteDigits(o.major);
    ByteDigits(o.minor);
    var b := AddChar(AddNumber(out, cap, o.major), cap, '.');
    if b.Some? {
      var c := AddChar(AddNumber(b.value, cap, o.minor), cap, ',');
      if |out| + |major| <= cap && c.Some? {
        assert b.value == out + major + ".";
        if |b.value| + |minor| <= cap {
          assert c.value == out + (major + "." + minor + ",");
        } else {
          assert c.value == out + (major + ".,");
        }
      } else if c.Some? {
        assert c.value == out + ".,";
      }
    }
  }

  lemma ByteDigits(n: byte)
    ensures 1 <= |Digits(n)| <= 3
  {
    if n >= 10 {
      assert |Digits(n)| == |Digits(n / 10)| + 1;
      assert n >= 100 ==> |Digits(n / 10)| == |Digits(n / 10 / 10)| + 1;
    }
  }

  // An object that does not fit: a version at its end is printed as above,
  // anything else is an error.
  function AddLast(out: string, cap: nat, o: Entry): Option<string> {
    var a := out + "</" + Digits(o.id) + VERSION_START;
    if Versioned(o) && o.instances == [] && |a| < cap then AddNumbers(a, cap, o) else None
  }

  lemma {:induction false} InstancesInRoom(out: string, cap: nat, id: uint16, mark: nat, instances: seq<uint16>)
    requires mark < |out| <= cap && instances != [] && |out| + |InstancesText(id, instances)| >= cap
    ensures AddInstances(out, cap, id, mark, instances) == None
    decreases instances
  {
    var t, d := Template(id), Digits(instances[0]);
    if |out| + |t| + |d| + 2 < cap {
      assert InstancesText(id, []) == "";
      InstancesInRoom(out + t + d + PATH_END, cap, id, mark, instances[1..]);
    }
  }

  lemma FirstInstancesInRoom(out: string, cap: nat, id: uint16, instances: seq<uint16>)
    requires |out + Template(id)| <= cap && instances != [] && |out| + |InstancesText(id, instances)| >= cap
    ensures AddInstances(out + Template(id), cap, id, |out + Template(id)|, instances) == None
  {
    var t, d := out + Template(id), Digits(instances[0]);
    if |t| + |d| + 2 < cap {
      assert InstancesText(id, []) == "";
      InstancesInRoom(t + d + PATH_END, cap, id, |t|, instances[1..]);
    }
  }

  lemma VersionInRoom(out: string, cap: nat, o: Entry)
    requires |out| <= cap
    ensures AddVersion(out, cap, o) == if |out| + 6 < cap then AddNumbers(out + VERSION_START, cap, o) else None
  {
    if |out| + 6 < cap { NumbersInRoom(out + VERSION_START, cap, o); }
  }

  lemma TemplateInRoom(out: string, cap: nat, id: uint16)
    requires |out| <= cap
    ensures AddTemplate(out, cap, id).Some? <==> |out| + |Digits(id)| + 4 <= cap
    ensures (out + Template(id))[..|out| + |Template(id)| - 1] == out + "</" + Digits(id)
  {
  }

  lemma VersionedInRoom(out: string, cap: nat, o: Entry)
    requires |out| <= cap && |out| + |ObjectText(o)| >= cap && Versioned(o)
    ensures AddObject(out, cap, o) == AddLast(out, cap, o)
  {
    TemplateInRoom(out, cap, o.id);
    if AddTemplate(out, cap, o.id).Some? {
      VersionInRoom(out + "</" + Digits(o.id), cap, o);
      if o.instances == [] { VersionAlone(out, cap, o); } else { VersionAndMore(out, cap, o); }
    }
  }

  lemma VersionAlone(out: string, cap: nat, o: Entry)
    requires |out| <= cap && Versioned(o) && o.instances == [] && AddTemplate(out, cap, o.id).Some?
    ensures AddObject(out, cap, o) == AddVersion(out + "</" + Digits(o.id), cap, o)
  {
    TemplateInRoom(out, cap, o.id);
  }

  lemma HeadOfMore(out: string, cap: nat, o: Entry)
    requires |out| <= cap && Versioned(o) && o.instances != [] && AddTemplate(out, cap, o.id).Some?
    ensures var v := AddVersion(out + "</" + Digits(o.id), cap, o);
            AddHead(out, cap, o) == if v == None then None else AddTemplate(v.value, cap, o.id)
  {
    TemplateInRoom(out, cap, o.id);
  }

  lemma VersionAndMore(out: string, cap: nat, o: Entry)
    requires |out| <= cap && Versioned(o) && o.instances != [] && |out| + |ObjectText(o)| >= cap
    requires AddTemplate(out, cap, o.id).Some?
    ensures AddObject(out, cap, o) == None
  {
    var a := out + "</" + Digits(o.id);
    HeadOfMore(out, cap, o);
    VersionInRoom(a, cap, o);
    var v := AddVersion(a, cap, o);
    if v.Some? {
      assert v == AddNumbers(a + VERSION_START, cap, o);
      NotAllInRoom(out, cap, o);
    }
  }

  lemma NotAllInRoom(out: string, cap: nat, o: Entry)
    requires Versioned(o) && o.instances != [] && |out| + |ObjectText(o)| >= cap
    requires var a := out + "</" + Digits(o.id) + VERSION_START; |a| < cap && AddNumbers(a, cap, o).Some?
    ensures var v := AddNumbers(out + "</" + Digits(o.id) + VERSION_START, cap, o).value;
            |v| <= cap && (AddTemplate(v, cap, o.id) == None ||
              AddInstances(v + Template(o.id), cap, o.id, |v + Template(o.id)|, o.instances) == None)
  {
    ByteDigits(o.major);
    ByteDigits(o.minor);
    var v := AddNumbers(out + "</" + Digits(o.id) + VERSION_START, cap, o).value;
    TemplateInRoom(v, cap, o.id);
    if AddTemplate(v, cap, o.id).Some? {
      assert |v| == |out| + |VersionText(o)|;
      FirstInstancesInRoom(v, cap, o.id, o.instances);
    }
  }

  lemma ObjectInRoom(out: string, cap: nat, o: Entry)
    requires |out| <= cap && |out| + |ObjectText(o)| >= cap
    ensures AddObject(out, cap, o) == AddLast(out, cap, o)
  {
    if Versioned(o) {
      VersionedInRoom(out, cap, o);
    } else {
      TemplateInRoom(out, cap, o.id);
      if o.instances == [] {
        assert |ObjectText(o)| == |Digits(o.id)| + 4;
      } else if AddTemplate(out, cap, o.id).Some? {
        assert |ObjectText(o)| == |InstancesText(o.id, o.instances)|;
        FirstInstancesInRoom(out, cap, o.id, o.instances);
      }
    }
  }

  lemma {:induction false} NoRoom(out: string, cap: nat, os: seq<Entry>, k: nat)
    requires out != "" && |out| <= cap < |out| + MIN_LEN && k < |os| && os[k].id != SECURITY
    ensures AddObjects(out, cap, os) == None
    decreases os
  {
    if os[0].id == SECURITY { NoRoom(out, cap, os[1..], k - 1); }
  }

  lemma {:induction false} OthersPassed(out: string, cap: nat, os: seq<Entry>)
    requires out != "" && |out| <= cap && forall i :: 0 <= i < |os| ==> os[i].id == SECURITY
    ensures AddObjects(out, cap, os) == Some(out) && ObjectsText(os) == ""
    decreases os
  {
    if os != [] { OthersPassed(out, cap, os[1..]); }
  }

  function TextOf(o: Entry): string { if o.id == SECURITY then "" else ObjectText(o) }

  // The printer of objects, as a function of what is printed and what is to be.
  ghost predicate Prints(f: (string, seq<Entry>) -> Option<string>, cap: nat) {
    forall out, os :: out != "" && |out| <= cap ==> f(out, os) == AddObjects(out, cap, os)
  }

  lemma FitsBefore(f: (string, seq<Entry>) -> Option<string>, out: string, cap: nat, b: Entry, rest: seq<Entry>)
    requires Prints(f, cap) && out != "" && |out| + |TextOf(b)| < cap
    ensures f(out, [b] + rest) == f(out + TextOf(b), rest)
  {
    assert ([b] + rest)[1..] == rest;
    if b.id == SECURITY {
      assert out + "" == out;
    } else {
      AddObjectFits(out, cap, b, HeadText(b), InstancesText(b.id, b.instances));
      Glue(out, HeadText(b), InstancesText(b.id, b.instances));
    }
  }

  lemma FullBefore(f: (string, seq<Entry>) -> Option<string>, out: string, cap: nat, b: Entry, rest: seq<Entry>, k: nat)
    requires Prints(f, cap) && out != "" && |out| <= cap && |out| + |ObjectText(b)| >= cap && b.id != SECURITY
    requires k < |rest| && rest[k].id != SECURITY
    ensures f(out, [b] + rest) == None
  {
    ObjectInRoom(out, cap, b);
    var r := AddObject(out, cap, b);
    assert ([b] + rest)[1..] == rest;
    if r.Some? {
      AddLastFills(out, cap, b);
      NoRoom(r.value, cap, rest, k);
    }
  }

  lemma Before(before: seq<Entry>, rest: seq<Entry>)
    requires before != []
    ensures before + rest == [before[0]] + (before[1..] + rest)
    ensures ObjectsText(before) == TextOf(before[0]) + ObjectsText(before[1..])
  {
  }

  lemma {:induction false} PassBefore(
    f: (string, seq<Entry>) -> Option<string>, out: string, cap: nat, before: seq<Entry>, rest: seq<Entry>)
    requires Prints(f, cap) && out != "" && |out| + |ObjectsText(before)| < cap
    ensures f(out, before + rest) == f(out + ObjectsText(before), rest)
    decreases before
  {
    if before == [] {
      assert before + rest == rest && out + "" == out;
    } else {
      var b, more := before[0], before[1..];
      Before(before, rest);
      Glue(out, TextOf(b), ObjectsText(more));
      FitsBefore(f, out, cap, b, more + rest);
      PassBefore(f, out + TextOf(b), cap, more, rest);
    }
  }

  lemma {:induction false} StopBefore(
    f: (string, seq<Entry>) -> Option<string>, out: string, cap: nat, before: seq<Entry>, rest: seq<Entry>)
    requires Prints(f, cap) && out != "" && |out| < cap <= |out| + |ObjectsText(before)|
    requires rest != [] && rest[0].id != SECURITY
    ensures f(out, before + rest) == None
    decreases before
  {
    var b, more := before[0], before[1..];
    Before(before, rest);
    if |out| + |TextOf(b)| < cap {
      FitsBefore(f, out, cap, b, more + rest);
      StopBefore(f, out + TextOf(b), cap, more, rest);
    } else {
      assert (more + rest)[|more|] == rest[0];
      FullBefore(f, out, cap, b, more + rest, |more|);
    }
  }

  lemma ObjectsInRoom(out: string, cap: nat, before: seq<Entry>, o: Entry, after: seq<Entry>)
    requires out != "" && |out| < cap && o.id != SECURITY && forall i :: 0 <= i < |after| ==> after[i].id == SECURITY
    requires |out| + |ObjectsText(before)| + |ObjectText(o)| >= cap
    ensures AddObjects(out, cap, before + ([o] + after)) == AddLast(out + ObjectsText(before), cap, o)
  {
    var f := (out: string, os: seq<Entry>) => if out != "" && |out| <= cap then AddObjects(out, cap, os) else None;
    if |out| + |ObjectsText(before)| < cap {
      PassBefore(f, out, cap, before, [o] + after);
      LastInRoom(out + ObjectsText(before), cap, o, after);
    } else {
      StopBefore(f, out, cap, before, [o] + after);
    }
  }

  lemma LastInRoom(out: string, cap: nat, o: Entry, after: seq<Entry>)
    requires out != "" && |out| <= cap && |out| + |ObjectText(o)| >= cap
    requires o.id != SECURITY && forall i :: 0 <= i < |after| ==> after[i].id == SECURITY
    ensures AddObjects(out, cap, [o] + after) == AddLast(out, cap, o)
  {
    ObjectInRoom(out, cap, o);
    assert ([o] + after)[1..] == after;
    var r := AddObject(out, cap, o);
    if r.Some? { OthersPassed(r.value, cap, after); }
  }

  lemma AddLastFills(out: string, cap: nat, o: Entry)
    requires |out| + |ObjectText(o)| >= cap && AddLast(out, cap, o).Some?
    ensures cap - 1 <= |AddLast(out, cap, o).value| <= cap
  {
    ByteDigits(o.major);
    ByteDigits(o.minor);
    assert ObjectText(o) == VersionText(o) + "";
  }

  // A buffer no larger than the text is an error unless the last object printed
  // has a version and no instances: with room for all but its last one, two or
  // three digits the payload is printed without these numbers.
  lemma SmallBuffer(altPath: string, before: seq<Entry>, o: Entry, after: seq<Entry>, cap: nat)
    requires o.id != SECURITY && forall i :: 0 <= i < |after| ==> after[i].id == SECURITY
    requires cap <= |PayloadText(altPath, before)| + |ObjectText(o)|
    ensures var r := AddLast(PayloadText(altPath, before), cap, o);
            Payload(altPath, before + ([o] + after), cap) == if r == None then None else Some(r.value[..|r.value| - 1])
  {
    var h := "<" + Path(altPath) + RESOURCE_TYPE;
    assert "" + "<" == "<";
    if |h| < cap {
      assert Header(altPath, cap) == Some(h);
      ObjectsInRoom(h, cap, before, o, after);
    } else {
      assert Header(altPath, cap) == None;
    }
  }

  lemma NothingToPrint(altPath: string, os: seq<Entry>, cap: nat)
    requires forall i :: 0 <= i < |os| ==> os[i].id == SECURITY
    ensures var h := "<" + Path(altPath) + RESOURCE_TYPE;
            Payload(altPath, os, cap) == if |h| < cap then Some(h[..|h| - 1]) else None
  {
    var h := "<" + Path(altPath) + RESOURCE_TYPE;
    assert "" + "<" == "<";
    if |h| < cap {
      assert Header(altPath, cap) == Some(h);
      OthersPassed(h, cap, os);
    } else {
      assert Header(altPath, cap) == None;
    }
  }

  // An OSCORE object makes the computed buffer so small: of the version 255.25
  // of the object after it only the dot is sent.
  lemma VersionLost(altPath: string, c: Entry, o: Entry)
    requires c == Entry(OSCORE, 0, 0, []) && o == Entry(o.id, 255, 25, []) && o.id != SECURITY && o.id != OSCORE
    ensures Payload(altPath, [c, o], BufferLength(altPath, [c, o])) ==
            Some(PayloadText(altPath, [c]) + "</" + Digits(o.id) + ">;ver=.")
  {
    assert [c, o] == [c] + ([o] + []);
    OnlyLength(altPath, c, o);
    var cap := BufferLength(altPath, [c, o]);
    SmallBuffer(altPath, [c], o, [], cap);
    var text := PayloadText(altPath, [c]);
    LastTwo(text, cap, o);
    var r := text + "</" + Digits(o.id) + VERSION_START + ".,";
    assert r[..|r| - 1] == text + "</" + Digits(o.id) + ">;ver=.";
  }

  lemma OnlyText(o: Entry)
    requires o.id != SECURITY && o.instances == []
    ensures ObjectsText([o]) == HeadText(o)
  {
    assert [o][1..] == [];
    assert HeadText(o) + "" == HeadText(o);
  }

  lemma OnlyLength(altPath: string, c: Entry, o: Entry)
    requires c == Entry(OSCORE, 0, 0, []) && o.id != OSCORE && o.id != SECURITY && o.instances == []
    ensures BufferLength(altPath, [c, o]) == |PayloadText(altPath, [c])| + |HeadText(o)| - 5
    ensures ObjectText(o) == HeadText(o)
  {
    OnlyText(c);
    OnlyText(o);
    assert [c, o][1..] == [o] && [o][1..] == [];
    assert WithoutOscore([o]) == [o];
    assert WithoutOscore([c, o]) == [o];
    assert Digits(21) == Digits(2) + [DigitChar(1)];
    assert |HeadText(c)| == 6;
    assert HeadText(o) + "" == HeadText(o);
  }

  lemma LastTwo(out: string, cap: nat, o: Entry)
    requires o.instances == [] && o.major == 255 && o.minor == 25 && cap == |out| + |HeadText(o)| - 5
    ensures AddLast(out, cap, o) == Some(out + "</" + Digits(o.id) + VERSION_START + ".,")
  {
    assert Digits(255) == Digits(25) + [DigitChar(5)] && Digits(25) == Digits(2) + [DigitChar(5)];
    assert |Digits(255)| == 3 && |Digits(25)| == 2;
  }
}
