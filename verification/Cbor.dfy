// CBOR items (RFC 8949 section 3) for single resource values
// (wakaama/data/cbor.c), and object links as text (wakaama/core/utils.c).
module Cbor {
  import opened Common
  import opened BigEndian
  import opened Decimal
  import opened Text

  const TWO_TO_63: int := 0x8000_0000_0000_0000
  const TWO_TO_64: int := 0x1_0000_0000_0000_0000

  datatype Kind =
    | UnsignedInteger | NegativeInteger | ByteString | TextString | ArrayHead | MapHead | Tag
    | SimpleValue | Float | Break

  function Major(k: Kind): (m: nat)
    ensures m < 8
  {
    match k
    case UnsignedInteger => 0
    case NegativeInteger => 1
    case ByteString => 2
    case TextString => 3
    case ArrayHead => 4
    case MapHead => 5
    case Tag => 6
    case SimpleValue | Float | Break => 7
  }

  // ----- Heads --------------------------------------------------------------

  // The additional information for a value, and the bytes that follow it. The
  // largest value of each width already takes the next one.
  function Info(v: nat): (ai: nat)
    ensures ai < 28
  {
    if v < 0xFF then if v < 24 then v else 24
    else if v < 0xFFFF then 25
    else if v < 0xFFFF_FFFF then 26
    else 27
  }

  function Width(ai: nat): nat {
    if ai == 24 then 1 else if ai == 25 then 2 else if ai == 26 then 4 else if ai == 27 then 8 else 0
  }

  // prv_serialize_value, when the buffer is large enough
  function Head(major: nat, v: nat): (b: seq<byte>)
    requires major < 8
    ensures |b| == 1 + Width(Info(v))
  {
    [(major * 32 + Info(v)) as byte] + Bytes(v, Width(Info(v)))
  }

  // cbor_put_type_and_value. Negative integers are given as two's complement;
  // the break is written without its major type in place.
  function PutHead(k: Kind, v: nat): Option<seq<byte>>
    requires k != Float && v <= UINT64_MAX
  {
    match k
    case Break => Some([31])
    case SimpleValue => if v > 255 then None else Some(Head(7, v))
    case NegativeInteger => Some(Head(1, UINT64_MAX - v))
    case UnsignedInteger | ByteString | TextString | ArrayHead | MapHead | Tag => Some(Head(Major(k), v))
  }

  // The value of a float is the raw bits of its width.
  datatype HeadRead = HeadRead(kind: Kind, value: nat, length: nat)

  function KindOf(major: nat, ai: nat): Kind
    requires major < 8
  {
    match major
    case 0 => UnsignedInteger
    case 1 => NegativeInteger
    case 2 => ByteString
    case 3 => TextString
    case 4 => ArrayHead
    case 5 => MapHead
    case 6 => Tag
    case _ => if 25 <= ai <= 27 then Float else if ai == 31 then Break else SimpleValue
  }

  // The top three bits of a byte, and the other five.
  function Top(x: byte): (m: nat)
    ensures m < 8 && m * 32 <= x < m * 32 + 32
  {
    if x < 128 then if x < 64 then if x < 32 then 0 else 1 else if x < 96 then 2 else 3
    else if x < 192 then if x < 160 then 4 else 5
    else if x < 224 then 6 else 7
  }

  function Low(x: byte): nat { x - Top(x) * 32 }

  function HeadValue(b: seq<byte>, ai: nat): nat
    requires |b| >= 1 + Width(ai)
  {
    if Width(ai) == 0 then ai else Number(b[1..1 + Width(ai)])
  }

  // cbor_get_type_and_value
  function GetHead(b: seq<byte>): (r: Option<HeadRead>)
    ensures r.Some? ==> 0 < r.value.length <= |b|
  {
    if b == [] then None
    else
      var major, ai := Top(b[0]), Low(b[0]);
      if 28 <= ai <= 30 || |b| < 1 + Width(ai) then None
      else
        var v := HeadValue(b, ai);
        var k := KindOf(major, ai);
        if k == NegativeInteger then
          if v >= TWO_TO_63 then None else Some(HeadRead(k, UINT64_MAX - v, 1 + Width(ai)))
        else if k == Break then Some(HeadRead(k, 0, 1))
        else Some(HeadRead(k, v, 1 + Width(ai)))
  }

  lemma InfoFits(v: nat)
    requires v <= UINT64_MAX
    ensures Width(Info(v)) == 0 ==> v == Info(v) < 24
    ensures Width(Info(v)) > 0 ==> v < Pow256(Width(Info(v)))
  {
    Widths();
  }

  // The first byte and the number after it.
  lemma HeadParts(b: seq<byte>, major: nat, v: nat, rest: seq<byte>)
    requires major < 8 && v <= UINT64_MAX && b == Head(major, v) + rest
    ensures |b| >= 1 + Width(Info(v)) && b[0] == major * 32 + Info(v) && HeadValue(b, Info(v)) == v
  {
    var w := Width(Info(v));
    InfoFits(v);
    assert b[1..1 + w] == Bytes(v, w);
    if w > 0 { NumberOfBytes(v, w); }
  }

  lemma GetOfParts(b: seq<byte>, major: nat, ai: nat, v: nat)
    requires major < 8 && ai < 28 && |b| >= 1 + Width(ai) && b[0] == major * 32 + ai && HeadValue(b, ai) == v
    ensures GetHead(b) ==
            if major != 1 then Some(HeadRead(KindOf(major, ai), v, 1 + Width(ai)))
            else if v < TWO_TO_63 then Some(HeadRead(NegativeInteger, UINT64_MAX - v, 1 + Width(ai))) else None
  {
  }

  function ReadOf(major: nat, v: nat): Option<HeadRead>
    requires major < 8
  {
    var n := 1 + Width(Info(v));
    if major != 1 then Some(HeadRead(KindOf(major, Info(v)), v, n))
    else if v < TWO_TO_63 then Some(HeadRead(NegativeInteger, UINT64_MAX - v, n)) else None
  }

  lemma GetOfHead(major: nat, v: nat, rest: seq<byte>)
    requires major < 8 && v <= UINT64_MAX
    ensures GetHead(Head(major, v) + rest) == ReadOf(major, v)
  {
    var b := Head(major, v) + rest;
    HeadParts(b, major, v, rest);
    GetOfParts(b, major, Info(v), v);
  }

  lemma NegativeReadBackIff(v: nat, rest: seq<byte>)
    requires v <= UINT64_MAX
    ensures var b := Head(1, UINT64_MAX - v);
            GetHead(b + rest) == Some(HeadRead(NegativeInteger, v, |b|)) <==> v >= TWO_TO_63
  {
    GetOfHead(1, UINT64_MAX - v, rest);
  }

  lemma OtherReadBackIff(k: Kind, v: nat, rest: seq<byte>)
    requires k != Float && k != Break && k != NegativeInteger && v <= UINT64_MAX && (k == SimpleValue ==> v <= 255)
    ensures var b := Head(Major(k), v);
            GetHead(b + rest) == Some(HeadRead(k, v, |b|)) <==> !(k == SimpleValue && v == 255)
  {
    GetOfHead(Major(k), v, rest);
    KindBackIff(k, v);
  }

  lemma KindBackIff(k: Kind, v: nat)
    requires k != Float && k != Break && (k == SimpleValue ==> v <= 255)
    ensures KindOf(Major(k), Info(v)) == k <==> !(k == SimpleValue && v == 255)
  {
  }

  // A head as it may come from any writer: a value below 24 in the first byte,
  // any other in one, two, four or eight more, leading zeros included.
  ghost predicate IsHead(h: seq<byte>, major: nat, ai: nat, v: nat) {
    && major < 8 && h != [] && h[0] == major * 32 + ai
    && if ai in {24, 25, 26, 27} then v < Pow256(Width(ai)) && h[1..] == Bytes(v, Width(ai))
       else ai < 24 && v == ai && |h| == 1
  }

  lemma FirstByteParts(major: nat, ai: nat, x: byte)
    requires major < 8 && ai < 32 && x == major * 32 + ai
    ensures Top(x) == major && Low(x) == ai
  {
  }

  // Every such head is read, with the value it denotes; negative integers are
  // given as two's complement, and refused beyond 64 bits with their sign.
  lemma AnyHeadRead(h: seq<byte>, major: nat, ai: nat, v: nat, rest: seq<byte>)
    requires IsHead(h, major, ai, v)
    ensures GetHead(h + rest) ==
            if major != 1 then Some(HeadRead(KindOf(major, ai), v, |h|))
            else if v < TWO_TO_63 then Some(HeadRead(NegativeInteger, UINT64_MAX - v, |h|)) else None
  {
    var b, w := h + rest, Width(ai);
    FirstByteParts(major, ai, b[0]);
    assert h[1..] == b[1..|h|];
    if w > 0 { NumberOfBytes(v, w); }
    GetOfParts(b, major, ai, v);
  }

  // What is written is such a head, in the width the value asks for; the largest
  // value of each width takes the next one.
  lemma WrittenHead(major: nat, v: nat)
    requires major < 8 && v <= UINT64_MAX
    ensures IsHead(Head(major, v), major, Info(v), v)
    ensures |Head(major, v)| ==
            if v < 24 then 1 else if v < 0xFF then 2 else if v < 0xFFFF then 3 else if v < 0xFFFF_FFFF then 5 else 9
  {
    InfoFits(v);
  }

  // The kinds: simple values, floats of two, four or eight bytes, and the rest
  // by the first three bits.
  lemma KindsAre(ai: nat)
    ensures KindOf(0, ai) == UnsignedInteger && KindOf(1, ai) == NegativeInteger && KindOf(2, ai) == ByteString
    ensures KindOf(3, ai) == TextString && KindOf(4, ai) == ArrayHead && KindOf(5, ai) == MapHead && KindOf(6, ai) == Tag
    ensures KindOf(7, ai) == if ai == 25 || ai == 26 || ai == 27 then Float else if ai == 31 then Break else SimpleValue
  {
  }

  // A head that is not there in full, and one that is reserved, is not read.
  lemma PartOfHead(h: seq<byte>, major: nat, ai: nat, v: nat, k: nat)
    requires IsHead(h, major, ai, v) && k < |h|
    ensures GetHead(h[..k]) == None
  {
    if k > 0 {
      FirstByteParts(major, ai, h[0]);
      assert h[..k][0] == h[0];
    }
  }

  lemma ReservedHead(b: seq<byte>, major: nat, ai: nat)
    requires b != [] && major < 8 && b[0] == major * 32 + ai && 28 <= ai <= 30
    ensures GetHead(b) == None
  {
    FirstByteParts(major, ai, b[0]);
  }

  // An indefinite length is taken for the length 31; only the break is told
  // apart.
  lemma IndefiniteReadsAs31(b: seq<byte>, major: nat)
    requires b != [] && major < 8 && b[0] == major * 32 + 31 && major != 1
    ensures GetHead(b) == if major == 7 then Some(HeadRead(Break, 0, 1)) else Some(HeadRead(KindOf(major, 31), 31, 1))
  {
    FirstByteParts(major, 31, b[0]);
  }

  // Type and value are read back exactly when they are not the break, not the
  // simple value 255, and not a negative integer without its sign bit.
  lemma HeadRoundTripIff(k: Kind, v: nat, rest: seq<byte>)
    requires k != Float && v <= UINT64_MAX && PutHead(k, v).Some?
    ensures var b := PutHead(k, v).value;
            GetHead(b + rest) == Some(HeadRead(k, v, |b|)) <==>
            && k != Break && !(k == SimpleValue && v == 255)
            && (k == NegativeInteger ==> v >= TWO_TO_63)
  {
    if k == NegativeInteger {
      NegativeReadBackIff(v, rest);
    } else if k == Break {
      BreakReadsAsNumber(rest);
    } else {
      OtherReadBackIff(k, v, rest);
    }
  }

  // What is written for a break is the number 31.
  lemma BreakReadsAsNumber(rest: seq<byte>)
    ensures GetHead(PutHead(Break, 0).value + rest) == Some(HeadRead(UnsignedInteger, 31, 1))
  {
    assert ([31] + rest)[0] == 31;
  }

  // ----- Values -------------------------------------------------------------

  datatype Value =
    | IntegerValue(i: int)
    | UnsignedValue(u: nat)
    | BooleanValue(b: bool)
    | OpaqueValue(data: seq<byte>)
    | StringValue(data: seq<byte>)
    | CoreLinkValue(data: seq<byte>)
    | ObjectLinkValue(objectId: uint16, instanceId: uint16)
    | FloatValue(bits: nat)
    | NotSingular

  // The widths of the C fields; floats and containers are not written here.
  ghost predicate Encodable(v: Value) {
    match v
    case IntegerValue(i) => -TWO_TO_63 <= i < TWO_TO_63
    case UnsignedValue(u) => u < TWO_TO_64
    case BooleanValue(_) => true
    case OpaqueValue(data) => |data| < 0x8000_0000
    case StringValue(data) => |data| < 0x8000_0000
    case CoreLinkValue(data) => |data| < 0x8000_0000
    case ObjectLinkValue(_, _) => true
    case FloatValue(_) | NotSingular => false
  }

  function ObjLinkText(objectId: uint16, instanceId: uint16): string {
    Digits(objectId) + ":" + Digits(instanceId)
  }

  // Text as bytes, one for each character below 256.
  function ToBytes(s: string): (b: seq<byte>)
    ensures |b| == |s|
  {
    seq(|s|, i requires 0 <= i < |s| => (s[i] as int % 0x100) as byte)
  }

  function FromBytes(b: seq<byte>): (s: string)
    ensures |s| == |b|
  {
    seq(|b|, i requires 0 <= i < |b| => b[i] as char)
  }

  // What a value is written as.
  function Encoding(v: Value): seq<byte> {
    match v
    case IntegerValue(i) => if i < 0 then Head(1, -1 - i) else Head(0, i)
    case UnsignedValue(u) => Head(0, u)
    case BooleanValue(b) => Head(7, if b then 21 else 20)
    case OpaqueValue(data) => Head(2, |data|) + data
    case StringValue(data) => Head(3, |data|) + data
    case CoreLinkValue(data) => Head(3, |data|) + data
    case ObjectLinkValue(o, i) => Head(3, |ObjLinkText(o, i)|) + ToBytes(ObjLinkText(o, i))
    case FloatValue(_) | NotSingular => []
  }

  // cbor_put_singular in a buffer of `cap` bytes. For texts and byte strings
  // the source checks the room for the head only; its caller provides the
  // rest. A link needs room for a terminating null, too.
  function PutSingular(v: Value, cap: nat): Option<seq<byte>>
    requires v.OpaqueValue? || v.StringValue? || v.CoreLinkValue? ==> |Encoding(v)| <= cap || v.data == []
    requires !v.FloatValue?
  {
    match v
    case NotSingular => None
    case ObjectLinkValue(o, i) => if cap > |ObjLinkText(o, i)| + 1 then Some(Encoding(v)) else None
    case _ => if |Encoding(v)| <= cap then Some(Encoding(v)) else None
  }

  // What a value is read back as.
  function Normal(v: Value): Value {
    match v
    case IntegerValue(i) => if i < 0 then v else UnsignedValue(i)
    case CoreLinkValue(data) => StringValue(data)
    case ObjectLinkValue(o, i) => StringValue(ToBytes(ObjLinkText(o, i)))
    case _ => v
  }

  datatype ValueRead = ValueRead(value: Value, length: nat)

  // The value after a head that is not a tag.
  function ValueAfter(h: HeadRead, b: seq<byte>): Option<ValueRead> {
    match h.kind
    case UnsignedInteger => Some(ValueRead(UnsignedValue(h.value), h.length))
    case NegativeInteger => Some(ValueRead(IntegerValue(h.value - TWO_TO_64), h.length))
    case Float => Some(ValueRead(FloatValue(h.value), h.length))
    case SimpleValue =>
      if h.value == 20 then Some(ValueRead(BooleanValue(false), h.length))
      else if h.value == 21 then Some(ValueRead(BooleanValue(true), h.length))
      else None
    case ByteString =>
      if h.length + h.value > |b| then None
      else Some(ValueRead(OpaqueValue(b[h.length..h.length + h.value]), h.length + h.value))
    case TextString =>
      if h.length + h.value > |b| then None
      else Some(ValueRead(StringValue(b[h.length..h.length + h.value]), h.length + h.value))
    case ArrayHead | MapHead | Break | Tag => None
  }

  // cbor_get_singular; at most one tag is skipped.
  function GetSingular(b: seq<byte>, tagSeen: bool): Option<ValueRead>
    decreases !tagSeen
  {
    var h :- GetHead(b);
    if h.kind != Tag then ValueAfter(h, b)
    else if tagSeen then None
    else
      var r :- GetSingular(b[h.length..], true);
      Some(ValueRead(r.value, h.length + r.length))
  }

  lemma BytesAfter(h: seq<byte>, data: seq<byte>, rest: seq<byte>)
    ensures h + data + rest == h + (data + rest)
    ensures (h + (data + rest))[|h|..|h| + |data|] == data
  {
  }

  lemma StringHead(text: bool, n: nat, tail: seq<byte>)
    requires n <= UINT64_MAX
    ensures var h := Head(if text then 3 else 2, n);
            GetHead(h + tail) == Some(HeadRead(if text then TextString else ByteString, n, |h|))
  {
    GetOfHead(if text then 3 else 2, n, tail);
  }

  lemma ReadAfterHead(h: seq<byte>, text: bool, data: seq<byte>, rest: seq<byte>, tagSeen: bool)
    requires GetHead(h + (data + rest)) == Some(HeadRead(if text then TextString else ByteString, |data|, |h|))
    ensures GetSingular(h + data + rest, tagSeen) ==
            Some(ValueRead(if text then StringValue(data) else OpaqueValue(data), |h| + |data|))
  {
    BytesAfter(h, data, rest);
  }

  lemma StringReadBack(text: bool, data: seq<byte>, rest: seq<byte>, tagSeen: bool)
    requires |data| < 0x8000_0000
    ensures var h := Head(if text then 3 else 2, |data|);
            GetSingular(h + data + rest, tagSeen) ==
            Some(ValueRead(if text then StringValue(data) else OpaqueValue(data), |h| + |data|))
  {
    StringHead(text, |data|, data + rest);
    ReadAfterHead(Head(if text then 3 else 2, |data|), text, data, rest, tagSeen);
  }

  lemma IntegerReadBack(i: int, rest: seq<byte>, tagSeen: bool)
    requires -TWO_TO_63 <= i < TWO_TO_64
    ensures var h := if i < 0 then Head(1, -1 - i) else Head(0, i);
            GetSingular(h + rest, tagSeen) ==
            Some(ValueRead(if i < 0 then IntegerValue(i) else UnsignedValue(i), |h|))
  {
    GetOfHead(if i < 0 then 1 else 0, if i < 0 then -1 - i else i, rest);
  }

  lemma BooleanReadBack(b: bool, rest: seq<byte>, tagSeen: bool)
    ensures var h := Head(7, if b then 21 else 20);
            GetSingular(h + rest, tagSeen) == Some(ValueRead(BooleanValue(b), |h|))
  {
    GetOfHead(7, if b then 21 else 20, rest);
  }

  // Reading takes exactly the bytes of one value, whatever comes after it.
  lemma SingularReadBack(v: Value, rest: seq<byte>, tagSeen: bool)
    requires Encodable(v)
    ensures GetSingular(Encoding(v) + rest, tagSeen) == Some(ValueRead(Normal(v), |Encoding(v)|))
  {
    match v
    case IntegerValue(i) => IntegerReadBack(i, rest, tagSeen);
    case UnsignedValue(u) => IntegerReadBack(u, rest, tagSeen);
    case BooleanValue(b) => BooleanReadBack(b, rest, tagSeen);
    case OpaqueValue(data) => StringReadBack(false, data, rest, tagSeen);
    case StringValue(data) => StringReadBack(true, data, rest, tagSeen);
    case CoreLinkValue(data) => StringReadBack(true, data, rest, tagSeen);
    case ObjectLinkValue(o, i) =>
      LinkTextShort(o, i);
      StringReadBack(true, ToBytes(ObjLinkText(o, i)), rest, tagSeen);
  }

  lemma LinkTextShort(o: uint16, i: uint16)
    ensures |ObjLinkText(o, i)| <= 11
  {
    IdLength(o);
    IdLength(i);
  }

  lemma TagThen(tag: nat, tail: seq<byte>)
    requires tag <= UINT64_MAX
    ensures var r := GetSingular(tail, true); var h := Head(6, tag);
            GetSingular(h + tail, false) ==
            if r.Some? then Some(ValueRead(r.value.value, |h| + r.value.length)) else None
    ensures GetSingular(Head(6, tag) + tail, true) == None
  {
    var h := Head(6, tag);
    GetOfHead(6, tag, tail);
    assert (h + tail)[|h|..] == tail;
  }

  lemma TagBefore(tag: nat, tail: seq<byte>, v: Value, n: nat)
    requires tag <= UINT64_MAX && GetSingular(tail, true) == Some(ValueRead(v, n))
    ensures GetSingular(Head(6, tag) + tail, false) == Some(ValueRead(v, |Head(6, tag)| + n))
  {
    TagThen(tag, tail);
  }

  // One tag before a value is skipped.
  lemma TaggedReadBack(tag: nat, v: Value, rest: seq<byte>)
    requires tag <= UINT64_MAX && Encodable(v)
    ensures GetSingular(Head(6, tag) + (Encoding(v) + rest), false) ==
            Some(ValueRead(Normal(v), |Head(6, tag)| + |Encoding(v)|))
  {
    SingularReadBack(v, rest, true);
    TagBefore(tag, Encoding(v) + rest, Normal(v), |Encoding(v)|);
  }

  // A second one is an error.
  lemma TwoTagsRefused(tag: nat, other: nat, tail: seq<byte>)
    requires tag <= UINT64_MAX && other <= UINT64_MAX
    ensures GetSingular(Head(6, other) + (Head(6, tag) + tail), false) == None
  {
    TagThen(tag, tail);
    TagThen(other, Head(6, tag) + tail);
  }

  // What each head stands for as a single value: strings must be there in full,
  // and containers, breaks and simple values other than the booleans are
  // refused.
  lemma ValueIs(b: seq<byte>, h: HeadRead, tagSeen: bool)
    requires GetHead(b) == Some(h) && h.kind != Tag
    ensures var r := GetSingular(b, tagSeen);
            match h.kind
            case UnsignedInteger => r == Some(ValueRead(UnsignedValue(h.value), h.length))
            case NegativeInteger => r == Some(ValueRead(IntegerValue(h.value - TWO_TO_64), h.length))
            case Float => r == Some(ValueRead(FloatValue(h.value), h.length))
            case SimpleValue =>
              r == if h.value == 20 || h.value == 21 then Some(ValueRead(BooleanValue(h.value == 21), h.length)) else None
            case ByteString | TextString =>
              if h.value <= |b| - h.length then
                var data := b[h.length..h.length + h.value];
                r == Some(ValueRead(if h.kind == ByteString then OpaqueValue(data) else StringValue(data),
                                    h.length + h.value))
              else r == None
            case ArrayHead | MapHead | Break | Tag => r == None
  {
  }

  // Without a head there is no value.
  lemma NoHeadNoValue(b: seq<byte>, tagSeen: bool)
    requires GetHead(b) == None
    ensures GetSingular(b, tagSeen) == None
  {
  }

  // ----- Sequences of values ------------------------------------------------

  ghost predicate AllEncodable(vs: seq<Value>) { forall i :: 0 <= i < |vs| ==> Encodable(vs[i]) }

  // The values written back to back; None when one does not fit.
  function PutAll(vs: seq<Value>, cap: nat): Option<seq<byte>>
    requires forall v :: v in vs ==> !v.FloatValue?
    requires |Encodings(vs)| <= cap
  {
    if vs == [] then Some([])
    else
      EncodingsFirst(vs);
      var b :- PutSingular(vs[0], cap);
      if |b| != |Encoding(vs[0])| then None
      else
        var more :- PutAll(vs[1..], cap - |b|);
        Some(b + more)
  }

  lemma EncodingsFirst(vs: seq<Value>)
    requires vs != []
    ensures Encodings(vs) == Encoding(vs[0]) + Encodings(vs[1..])
  {
    var rest := Map(Encoding, vs[1..]);
    assert ([Encoding(vs[0])] + rest)[1..] == rest;
  }

  function Joined(bs: seq<seq<byte>>): seq<byte> {
    if bs == [] then [] else bs[0] + Joined(bs[1..])
  }

  function Encodings(vs: seq<Value>): seq<byte> { Joined(Map(Encoding, vs)) }

  // n values read one after the other by `read`, and how many bytes they took.
  function GetAll(read: seq<byte> -> Option<ValueRead>, b: seq<byte>, n: nat): Option<(seq<Value>, nat)> {
    if n == 0 then Some(([], 0))
    else
      var r :- read(b);
      if r.length > |b| then None
      else
        var more :- GetAll(read, b[r.length..], n - 1);
        Some(([r.value] + more.0, r.length + more.1))
  }

  const GetOne: seq<byte> -> Option<ValueRead> := b => GetSingular(b, false)

  lemma NoFloats(vs: seq<Value>)
    requires AllEncodable(vs)
    ensures forall v :: v in vs ==> !v.FloatValue?
  {
    forall v | v in vs ensures !v.FloatValue? {
      var i :| 0 <= i < |vs| && vs[i] == v;
      assert Encodable(vs[i]);
    }
  }

  lemma OneFits(v: Value, cap: nat)
    requires Encodable(v) && |Encoding(v)| < cap
    ensures PutSingular(v, cap) == Some(Encoding(v))
  {
    if v.ObjectLinkValue? { LinkTextShort(v.objectId, v.instanceId); }
  }

  lemma {:induction false} PutAllFits(vs: seq<Value>, cap: nat)
    requires AllEncodable(vs) && |Encodings(vs)| < cap
    ensures (forall v :: v in vs ==> !v.FloatValue?) && PutAll(vs, cap) == Some(Encodings(vs))
  {
    NoFloats(vs);
    if vs != [] {
      assert Encodable(vs[0]);
      assert forall i :: 0 <= i < |vs| - 1 ==> vs[1..][i] == vs[i + 1];
      EncodingsFirst(vs);
      OneFits(vs[0], cap);
      PutAllFits(vs[1..], cap - |Encoding(vs[0])|);
    }
  }

  // `read` takes exactly the bytes bs and gives v.
  ghost predicate Reads(read: seq<byte> -> Option<ValueRead>, bs: seq<byte>, v: Value) {
    forall rest {:trigger bs + rest} :: read(bs + rest) == Some(ValueRead(v, |bs|))
  }

  lemma GetOneReads(v: Value)
    requires Encodable(v)
    ensures Reads(GetOne, Encoding(v), Normal(v))
  {
    forall rest ensures GetOne(Encoding(v) + rest) == Some(ValueRead(Normal(v), |Encoding(v)|)) {
      SingularReadBack(v, rest, false);
    }
  }

  lemma GetAllNext(read: seq<byte> -> Option<ValueRead>, b: seq<byte>, v: Value, tail: seq<byte>, n: nat,
                   more: seq<Value>, length: nat)
    requires Reads(read, b, v) && GetAll(read, tail, n) == Some((more, length))
    ensures GetAll(read, b + tail, n + 1) == Some(([v] + more, |b| + length))
  {
    assert (b + tail)[|b|..] == tail;
  }

  lemma JoinedFirst(bs: seq<seq<byte>>, rest: seq<byte>)
    requires bs != []
    ensures Joined(bs) + rest == bs[0] + (Joined(bs[1..]) + rest) && |Joined(bs)| == |bs[0]| + |Joined(bs[1..])|
  {
  }

  lemma {:induction false} GetAllReadsBack(
    read: seq<byte> -> Option<ValueRead>, bs: seq<seq<byte>>, vs: seq<Value>, rest: seq<byte>)
    requires |bs| == |vs| && forall i :: 0 <= i < |vs| ==> Reads(read, bs[i], vs[i])
    ensures GetAll(read, Joined(bs) + rest, |vs|) == Some((vs, |Joined(bs)|))
  {
    if vs == [] {
      assert bs == [];
    } else {
      assert Reads(read, bs[0], vs[0]);
      assert forall i :: 0 <= i < |vs| - 1 ==> bs[1..][i] == bs[i + 1] && vs[1..][i] == vs[i + 1];
      GetAllReadsBack(read, bs[1..], vs[1..], rest);
      GetAllNext(read, bs[0], vs[0], Joined(bs[1..]) + rest, |vs| - 1, vs[1..], |Joined(bs[1..])|);
      JoinedFirst(bs, rest);
      assert vs == [vs[0]] + vs[1..];
    }
  }

  // Any list of values written back to back is read back, each read taking
  // exactly its own bytes.
  lemma SequenceRoundTrip(vs: seq<Value>, cap: nat, rest: seq<byte>)
    requires AllEncodable(vs) && |Encodings(vs)| < cap
    ensures forall v :: v in vs ==> !v.FloatValue?
    ensures var b := PutAll(vs, cap);
            b.Some? && GetAll(GetOne, b.value + rest, |vs|) == Some((Map(Normal, vs), |b.value|))
  {
    PutAllFits(vs, cap);
    var bs, outs := Map(Encoding, vs), Map(Normal, vs);
    forall i | 0 <= i < |vs| ensures Reads(GetOne, bs[i], outs[i]) {
      MapAt(Encoding, vs, i);
      MapAt(Normal, vs, i);
      assert Encodable(vs[i]);
      GetOneReads(vs[i]);
    }
    GetAllReadsBack(GetOne, bs, outs, rest);
  }

  // ----- Object links as text -----------------------------------------------

  // utils_textToObjLink
  function TextToObjLink(s: string): Option<(uint16, uint16)> {
    var sep := ScanTo(s, 0, ':');
    if sep == 0 || sep == |s| then None
    else
      var o :- TextToUInt(s[..sep]);
      var i :- TextToUInt(s[sep + 1..]);
      if o > MAX_ID as int || i > MAX_ID as int then None else Some((o, i))
  }

  // Two numerals with a colon between them are a link exactly when both fit 16
  // bits.
  lemma LinkIff(a: string, b: string)
    requires AllDigits(a) && AllDigits(b) && Numeral(a) <= UINT64_MAX && Numeral(b) <= UINT64_MAX
    ensures TextToObjLink(a + ":" + b) ==
            if a != "" && b != "" && Numeral(a) <= 0xFFFF && Numeral(b) <= 0xFFFF then Some((Numeral(a), Numeral(b)))
            else None
  {
    ObjLinkShape(a, b);
    TextToUIntIff(a);
    TextToUIntIff(b);
  }

  lemma NoLink(s: string)
    requires forall k :: 0 <= k < |s| ==> s[k] != ':'
    ensures TextToObjLink(s) == None
  {
    ScanIs(s, 0, ':', |s|);
  }

  lemma ObjLinkShape(a: string, b: string)
    requires AllDigits(a) && AllDigits(b)
    ensures var t := a + ":" + b; var n := |a|;
            && ScanTo(t, 0, ':') == n && t[..n] == a && t[n + 1..] == b
            && forall k :: 0 <= k < |t| ==> t[k] as int < 0x100
  {
    var t := a + ":" + b;
    assert t[|a|] == ':';
    assert forall k :: 0 <= k < |a| ==> t[k] == a[k] && IsDigit(a[k]);
    assert forall k :: |a| < k < |t| ==> t[k] == b[k - |a| - 1] && IsDigit(b[k - |a| - 1]);
    ScanIs(t, 0, ':', |a|);
  }

  lemma BytesBack(t: string)
    requires forall k :: 0 <= k < |t| ==> t[k] as int < 0x100
    ensures FromBytes(ToBytes(t)) == t
  {
  }

  // A link is read back as text that names the same ids.
  lemma ObjLinkRoundTrip(o: uint16, i: uint16)
    ensures var v := Normal(ObjectLinkValue(o, i));
            v.StringValue? && TextToObjLink(FromBytes(v.data)) == Some((o, i))
  {
    var t := ObjLinkText(o, i);
    NumeralOfDigits(o);
    NumeralOfDigits(i);
    ObjLinkShape(Digits(o), Digits(i));
    BytesBack(t);
    DigitsReadBack(o);
    DigitsReadBack(i);
  }
}
