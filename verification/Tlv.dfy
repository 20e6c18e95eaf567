// The TLV format (OMA LwM2M 1.0 section 6.4.3).
module Tlv {
  import opened Common
  import opened BigEndian

  // What is written and read, and that reading undoes writing
  // (wakaama/data/tlv.c, wakaama/data/data.c).

  // ----- Data ---------------------------------------------------------------

  datatype ContainerKind = ObjectInstance | MultipleResource

  // Unsupported stands for the types the writer refuses: a whole object and
  // data of undefined type.
  datatype Data =
    | Container(id: uint16, kind: ContainerKind, children: seq<Data>)
    | Leaf(id: uint16, value: Value)
    | Unsupported(id: uint16)

  datatype Value =
    | Text(bytes: seq<byte>)
    | Opaque(bytes: seq<byte>)
    | CoreLink(bytes: seq<byte>)
    | Integer(signed: int64)
    | UnsignedInteger(unsigned: uint64)
    | Boolean(flag: bool)
    | ObjectLink(objectId: uint16, instanceId: uint16)

  type int64 = x: int | -0x8000_0000_0000_0000 <= x <= 0x7FFF_FFFF_FFFF_FFFF
  type uint64 = x: int | 0 <= x <= 0xFFFF_FFFF_FFFF_FFFF

  // ----- Leaves -------------------------------------------------------------

  function IntWidth(v: int): nat {
    if -0x80 <= v <= 0x7F then 1
    else if -0x8000 <= v <= 0x7FFF then 2
    else if -0x8000_0000 <= v <= 0x7FFF_FFFF then 4
    else 8
  }

  function UIntWidth(v: int): nat {
    if v <= 0xFF then 1 else if v <= 0xFFFF then 2 else if v <= 0xFFFF_FFFF then 4 else 8
  }

  // prv_encodeInt
  function EncodeInt(v: int64): seq<byte> {
    Widths();
    Bytes(Unsigned(v, IntWidth(v)), IntWidth(v))
  }

  // prv_encodeUInt
  function EncodeUInt(v: uint64): seq<byte> {
    Bytes(v, UIntWidth(v))
  }

  predicate IntegerSize(n: nat) { n == 1 || n == 2 || n == 4 || n == 8 }

  // lwm2m_data_decode_int and lwm2m_data_decode_uint on opaque data
  function DecodeInt(b: seq<byte>): Option<int> {
    if IntegerSize(|b|) then Some(Signed(Number(b), |b|)) else None
  }

  function DecodeUInt(b: seq<byte>): Option<int> {
    if IntegerSize(|b|) then Some(Number(b)) else None
  }

  lemma IntRoundTrip(v: int64)
    ensures DecodeInt(EncodeInt(v)) == Some(v)
  {
    Widths();
    SignedRoundTrip(v, IntWidth(v));
    NumberOfBytes(Unsigned(v, IntWidth(v)), IntWidth(v));
  }

  lemma UIntRoundTrip(v: uint64)
    ensures DecodeUInt(EncodeUInt(v)) == Some(v)
  {
    Widths();
    NumberOfBytes(v, UIntWidth(v));
  }

  // An unsigned value read as signed comes back exactly when the top bit of its
  // minimal encoding is clear; otherwise it comes back negative.
  lemma UIntReadAsInt(v: uint64)
    ensures DecodeInt(EncodeUInt(v)) == Some(v) <==>
            v <= 0x7F || 0x100 <= v <= 0x7FFF || 0x1_0000 <= v <= 0x7FFF_FFFF || 0x1_0000_0000 <= v <= 0x7FFF_FFFF_FFFF_FFFF
    ensures DecodeInt(EncodeUInt(v)) != Some(v) ==>
              DecodeInt(EncodeUInt(v)) == Some(v - Pow256(UIntWidth(v)))
  {
    Widths();
    NumberOfBytes(v, UIntWidth(v));
  }

  // A signed value read as unsigned comes back exactly when it is not negative.
  lemma IntReadAsUInt(v: int64)
    ensures DecodeUInt(EncodeInt(v)) == Some(v) <==> v >= 0
  {
    Widths();
    SignedRoundTrip(v, IntWidth(v));
    NumberOfBytes(Unsigned(v, IntWidth(v)), IntWidth(v));
  }

  // Any integer of one, two, four or eight bytes is read, leading zeros
  // included, in two's complement or not; no other size is.
  lemma IntegersRead(b: seq<byte>, v: nat, n: nat)
    requires v < Pow256(n) && b == Bytes(v, n)
    ensures n in {1, 2, 4, 8} ==> DecodeUInt(b) == Some(v)
    ensures n in {1, 2, 4, 8} ==> DecodeInt(b) == Some(if 2 * v < Pow256(n) then v else v - Pow256(n))
    ensures n !in {1, 2, 4, 8} ==> DecodeUInt(b) == None && DecodeInt(b) == None
  {
    NumberOfBytes(v, n);
  }

  // ----- Headers ------------------------------------------------------------

  // prv_getHeaderLength
  function HeaderLength(id: uint16, length: nat): nat {
    2 + (if id > 0xFF then 1 else 0) +
    (if length > 0xFFFF then 3 else if length > 0xFF then 2 else if length > 7 then 1 else 0)
  }

  const INSTANCE := 0x00
  const RESOURCE_INSTANCE := 0x40
  const MULTIPLE := 0x80
  const RESOURCE := 0xC0

  ghost predicate HeaderType(t: int) { t == INSTANCE || t == RESOURCE_INSTANCE || t == MULTIPLE || t == RESOURCE }

  const MAX_LENGTH := 0x100_0000

  function FirstByte(t: int, id: uint16, length: nat): int {
    t + (if id > 0xFF then 0x20 else 0) +
    (if length <= 7 then length else if length <= 0xFF then 0x08 else if length <= 0xFFFF then 0x10 else 0x18)
  }

  function LengthSize(length: nat): nat {
    if length <= 7 then 0 else if length <= 0xFF then 1 else if length <= 0xFFFF then 2 else 3
  }

  // prv_createHeader
  function Header(t: int, id: uint16, length: nat): (h: seq<byte>)
    requires HeaderType(t) && length < MAX_LENGTH
    ensures |h| == HeaderLength(id, length)
  {
    FirstByteFields(t, id, length);
    [FirstByte(t, id, length)] +
    Bytes(id, if id > 0xFF then 2 else 1) +
    Bytes(length, LengthSize(length))
  }

  datatype Decoded = Decoded(t: int, id: uint16, index: nat, length: nat)

  // lwm2m_decode_TLV; None is its answer 0. The type byte keeps its two top
  // bits only, so the four values of `t` are the four header types.
  function Decode(b: seq<byte>): (r: Option<Decoded>)
    ensures r.Some? ==> 2 <= r.value.index && r.value.index + r.value.length <= |b|
  {
    if |b| < 2 then None
    else
      var wide := (b[0] / 0x20) % 2 == 1;
      if wide && |b| < 3 then None
      else
        var id: int := if wide then (b[1] as int) * 0x100 + b[2] else b[1];
        var at := if wide then 3 else 2;
        var n := (b[0] / 0x08) % 4;
        if |b| < at + n then None
        else
          var length := if n == 0 then b[0] % 8 else Number(b[at..at + n]);
          if at + n + length > |b| then None
          else Some(Decoded((b[0] / 0x40) * 0x40, id, at + n, length))
  }

  lemma FirstByteFields(t: int, id: uint16, length: nat)
    requires HeaderType(t) && length < MAX_LENGTH
    ensures var f := FirstByte(t, id, length);
            && 0 <= f < 0x100 && (f / 0x40) * 0x40 == t
            && ((f / 0x20) % 2 == 1 <==> id > 0xFF)
            && (f / 0x08) % 4 == LengthSize(length)
            && (length <= 7 ==> f % 8 == length)
  {
  }

  lemma BytesOne(v: byte)
    ensures Bytes(v, 1) == [v]
  {
    assert Bytes(v / 256, 0) == [];
  }

  lemma BytesTwo(v: uint16)
    ensures Bytes(v, 2) == [v / 0x100, v % 0x100]
  {
    BytesOne(v / 0x100);
  }

  // A header as it may come from any writer: the id in one or two bytes, the
  // length in the first byte or in up to three more, leading zeros included.
  ghost predicate IsHeader(h: seq<byte>, t: int, id: uint16, length: nat, wide: bool, n: nat, low: nat) {
    && HeaderType(t) && (wide || id < 0x100) && n <= 3 && low < 8 && length < Pow256(n) * (if n == 0 then 8 else 1)
    && (n == 0 ==> low == length)
    && h == [(t + (if wide then 0x20 else 0) + 8 * n + low) as byte] +
            Bytes(id, if wide then 2 else 1) + Bytes(length, n)
  }

  lemma FirstByteRead(t: int, wide: bool, n: nat, low: nat)
    requires HeaderType(t) && n <= 3 && low < 8
    ensures var f := t + (if wide then 0x20 else 0) + 8 * n + low;
            && 0 <= f < 0x100 && (f / 0x40) * 0x40 == t && ((f / 0x20) % 2 == 1 <==> wide)
            && (f / 0x08) % 4 == n && f % 8 == low
  {
  }

  // Where the fields of a header are in a buffer that starts with it.
  lemma HeaderFields(b: seq<byte>, h: seq<byte>, t: int, id: uint16, length: nat, wide: bool, n: nat, low: nat)
    requires IsHeader(h, t, id, length, wide, n, low) && h <= b
    ensures var at := if wide then 3 else 2;
            && |h| == at + n && b[0] == t + (if wide then 0x20 else 0) + 8 * n + low
            && (if wide then b[1] == id / 0x100 && b[2] == id % 0x100 else b[1] == id)
            && b[at..at + n] == Bytes(length, n)
  {
    if wide { BytesTwo(id); } else { BytesOne(id); }
    var at := if wide then 3 else 2;
    assert b[0] == h[0] && b[1] == h[1] && (wide ==> b[2] == h[2]);
    assert h[at..at + n] == Bytes(length, n);
    assert b[at..at + n] == h[at..at + n];
  }

  // The reader recovers every such header from the front of a longer buffer.
  lemma AnyHeaderRead(h: seq<byte>, t: int, id: uint16, length: nat, wide: bool, n: nat, low: nat, more: seq<byte>)
    requires IsHeader(h, t, id, length, wide, n, low)
    ensures Decode(h + more) == if length <= |more| then Some(Decoded(t, id, |h|, length)) else None
  {
    var b := h + more;
    HeaderFields(b, h, t, id, length, wide, n, low);
    FirstByteRead(t, wide, n, low);
    Widths();
    if n > 0 { NumberOfBytes(length, n); }
  }

  // A header that is not there in full is not read.
  lemma PartOfHeader(h: seq<byte>, t: int, id: uint16, length: nat, wide: bool, n: nat, low: nat, k: nat)
    requires IsHeader(h, t, id, length, wide, n, low) && k < |h|
    ensures Decode(h[..k]) == None
  {
    HeaderFields(h, h, t, id, length, wide, n, low);
    FirstByteRead(t, wide, n, low);
    if k > 0 { assert h[..k][0] == h[0]; }
  }

  lemma WrittenHeader(t: int, id: uint16, length: nat)
    requires HeaderType(t) && length < MAX_LENGTH
    ensures IsHeader(Header(t, id, length), t, id, length, id > 0xFF, LengthSize(length),
                     if length <= 7 then length else 0)
  {
    Widths();
  }

  // So every header that is written is read, with anything after its payload.
  lemma DecodeHeader(t: int, id: uint16, payload: seq<byte>, rest: seq<byte>)
    requires HeaderType(t) && |payload| < MAX_LENGTH
    ensures Decode(Header(t, id, |payload|) + payload + rest) ==
            Some(Decoded(t, id, HeaderLength(id, |payload|), |payload|))
  {
    var length := |payload|;
    var h := Header(t, id, length);
    WrittenHeader(t, id, length);
    AnyHeaderRead(h, t, id, length, id > 0xFF, LengthSize(length), if length <= 7 then length else 0, payload + rest);
    assert h + payload + rest == h + (payload + rest);
  }

  // An item cut short is not read, nor anything of it.
  lemma CutShort(t: int, id: uint16, payload: seq<byte>, k: nat)
    requires HeaderType(t) && |payload| < MAX_LENGTH && k < |Header(t, id, |payload|)| + |payload|
    ensures Decode((Header(t, id, |payload|) + payload)[..k]) == None
    ensures Parse((Header(t, id, |payload|) + payload)[..k]) == []
  {
    var length := |payload|;
    var h := Header(t, id, length);
    var low := if length <= 7 then length else 0;
    WrittenHeader(t, id, length);
    if k < |h| {
      PartOfHeader(h, t, id, length, id > 0xFF, LengthSize(length), low, k);
      assert (h + payload)[..k] == h[..k];
    } else {
      AnyHeaderRead(h, t, id, length, id > 0xFF, LengthSize(length), low, payload[..k - |h|]);
      assert (h + payload)[..k] == h + payload[..k - |h|];
    }
  }

  // ----- Writing ------------------------------------------------------------

  function LeafBytes(v: Value): seq<byte> {
    match v
    case Text(b) => b
    case Opaque(b) => b
    case CoreLink(b) => b
    case Integer(i) => EncodeInt(i)
    case UnsignedInteger(u) => EncodeUInt(u)
    case Boolean(flag) => [if flag then 1 else 0]
    case ObjectLink(o, i) => Bytes(o, 2) + Bytes(i, 2)
  }

  // prv_getLength: -1 as soon as something unsupported is met.
  function LengthOne(d: Data): (n: int)
    ensures n >= -1
    decreases d, 0
  {
    match d
    case Unsupported(_) => -1
    case Leaf(id, v) => HeaderLength(id, |LeafBytes(v)|) + |LeafBytes(v)|
    case Container(id, _, children) =>
      var sub := Length(children);
      if sub == -1 then -1 else HeaderLength(id, sub) + sub
  }

  function Length(f: seq<Data>): (n: int)
    ensures n >= -1
    decreases f, 1
  {
    if f == [] then 0
    else
      var one := LengthOne(f[0]);
      if one == -1 then -1
      else
        var rest := Length(f[1..]);
        if rest == -1 then -1 else one + rest
  }

  // Everything is supported and every payload fits a 24-bit length.
  predicate WritableOne(d: Data)
    decreases d, 0
  {
    match d
    case Unsupported(_) => false
    case Leaf(_, v) => |LeafBytes(v)| < MAX_LENGTH
    case Container(_, _, children) => Writable(children) && Length(children) < MAX_LENGTH
  }

  predicate Writable(f: seq<Data>)
    decreases f, 1
  {
    f == [] || (WritableOne(f[0]) && Writable(f[1..]))
  }

  function ContainerType(kind: ContainerKind): int {
    if kind == ObjectInstance then INSTANCE else MULTIPLE
  }

  function LeafType(inst: bool): int { if inst then RESOURCE_INSTANCE else RESOURCE }

  // tlv_serialize. `inst` is isResourceInstance: inside a multiple resource the
  // leaves are marked as resource instances.
  function EncodeOne(inst: bool, d: Data): (b: seq<byte>)
    requires WritableOne(d)
    ensures |b| == LengthOne(d)
    decreases d, 0
  {
    match d
    case Leaf(id, v) => Header(LeafType(inst), id, |LeafBytes(v)|) + LeafBytes(v)
    case Container(id, kind, children) =>
      var sub := Encode(inst || kind == MultipleResource, children);
      Header(ContainerType(kind), id, |sub|) + sub
  }

  function Encode(inst: bool, f: seq<Data>): (b: seq<byte>)
    requires Writable(f)
    ensures |b| == Length(f)
    decreases f, 1
  {
    if f == [] then [] else EncodeOne(inst, f[0]) + Encode(inst, f[1..])
  }

  // ----- Reading ------------------------------------------------------------

  // What one decoded item stands for; None for a container that yields no
  // children.
  function Item(h: Decoded, children: seq<Data>, payload: seq<byte>): Option<Data> {
    if h.t != INSTANCE && h.t != MULTIPLE then Some(Leaf(h.id, Opaque(payload)))
    else if children == [] then None
    else Some(Container(h.id, if h.t == INSTANCE then ObjectInstance else MultipleResource, children))
  }

  // The loop of tlv_parse: it stops quietly where no further item decodes, and
  // gives up altogether (None) on a container without children.
  function ParseItems(b: seq<byte>): Option<seq<Data>>
    decreases |b|, 0
  {
    match Decode(b)
    case None => Some([])
    case Some(h) =>
      var payload := b[h.index..h.index + h.length];
      var children := if h.t == INSTANCE || h.t == MULTIPLE then Parse(payload) else [];
      match Item(h, children, payload)
      case None => None
      case Some(item) =>
        match ParseItems(b[h.index + h.length..])
        case None => None
        case Some(rest) => Some([item] + rest)
  }

  // tlv_parse: a failure and an empty result are both size 0.
  function Parse(b: seq<byte>): seq<Data>
    decreases |b|, 1
  {
    match ParseItems(b)
    case None => []
    case Some(f) => f
  }

  // ----- Reading undoes writing ---------------------------------------------

  // What is left of the data: leaves lose their type and keep their bytes.
  function EraseOne(d: Data): Data
    decreases d, 0
  {
    match d
    case Unsupported(_) => d
    case Leaf(id, v) => Leaf(id, Opaque(LeafBytes(v)))
    case Container(id, kind, children) => Container(id, kind, Erase(children))
  }

  function Erase(f: seq<Data>): (r: seq<Data>)
    ensures |r| == |f|
    decreases f, 1
  {
    if f == [] then [] else [EraseOne(f[0])] + Erase(f[1..])
  }

  predicate FullOne(d: Data)
    decreases d, 0
  {
    d.Container? ==> d.children != [] && Full(d.children)
  }

  // No container is empty, at any depth.
  predicate Full(f: seq<Data>)
    decreases f, 1
  {
    f == [] || (FullOne(f[0]) && Full(f[1..]))
  }

  // An item at the front of a buffer is read back, and the rest after it.
  lemma ReadItem(t: int, id: uint16, payload: seq<byte>, rest: seq<byte>)
    requires HeaderType(t) && |payload| < MAX_LENGTH
    ensures ParseItems(Header(t, id, |payload|) + payload + rest) ==
            (match Item(Decoded(t, id, HeaderLength(id, |payload|), |payload|),
                        if t == INSTANCE || t == MULTIPLE then Parse(payload) else [], payload)
             case None => None
             case Some(item) =>
               match ParseItems(rest)
               case None => None
               case Some(items) => Some([item] + items))
  {
    DecodeHeader(t, id, payload, rest);
    var b := Header(t, id, |payload|) + payload + rest;
    var n := HeaderLength(id, |payload|);
    assert b[n..n + |payload|] == payload;
    assert b[n + |payload|..] == rest;
  }

  lemma {:induction false} ReadOne(inst: bool, d: Data, rest: seq<byte>)
    requires WritableOne(d)
    ensures ParseItems(EncodeOne(inst, d) + rest) ==
            if !FullOne(d) then None
            else (match ParseItems(rest) case None => None case Some(f) => Some([EraseOne(d)] + f))
    decreases d, 0
  {
    match d {
      case Leaf(id, v) => ReadItem(LeafType(inst), id, LeafBytes(v), rest);
      case Container(id, kind, children) =>
        ReadItem(ContainerType(kind), id, Encode(inst || kind == MultipleResource, children), rest);
        RoundTripItems(inst || kind == MultipleResource, children);
    }
  }

  lemma {:induction false} RoundTripItems(inst: bool, f: seq<Data>)
    requires Writable(f)
    ensures ParseItems(Encode(inst, f)) == if Full(f) then Some(Erase(f)) else None
    decreases f, 1
  {
    if f != [] {
      ReadOne(inst, f[0], Encode(inst, f[1..]));
      RoundTripItems(inst, f[1..]);
    }
  }

  // The type that goes before every item: resources inside a multiple resource
  // are resource instances.
  lemma LeafWritten(inst: bool, id: uint16, v: Value, rest: seq<byte>)
    requires WritableOne(Leaf(id, v))
    ensures Decode(EncodeOne(inst, Leaf(id, v)) + rest) ==
            Some(Decoded(if inst then 0x40 else 0xC0, id, |EncodeOne(inst, Leaf(id, v))| - |LeafBytes(v)|, |LeafBytes(v)|))
  {
    DecodeHeader(LeafType(inst), id, LeafBytes(v), rest);
  }

  lemma ContainerWritten(inst: bool, id: uint16, kind: ContainerKind, children: seq<Data>, rest: seq<byte>)
    requires WritableOne(Container(id, kind, children))
    ensures var sub := Encode(inst || kind == MultipleResource, children);
            var all := EncodeOne(inst, Container(id, kind, children));
            Decode(all + rest) == Some(Decoded(if kind == ObjectInstance then 0x00 else 0x80, id, |all| - |sub|, |sub|))
  {
    DecodeHeader(ContainerType(kind), id, Encode(inst || kind == MultipleResource, children), rest);
  }

  // The bytes of the values that are not integers.
  lemma BytesWritten(b: seq<byte>, flag: bool, o: uint16, i: uint16)
    ensures LeafBytes(Text(b)) == b && LeafBytes(Opaque(b)) == b && LeafBytes(CoreLink(b)) == b
    ensures LeafBytes(Boolean(flag)) == [if flag then 1 else 0]
    ensures LeafBytes(ObjectLink(o, i)) == [o / 0x100, o % 0x100, i / 0x100, i % 0x100]
  {
    BytesTwo(o);
    BytesTwo(i);
  }

  // Integers take one, two, four or eight bytes, the fewest that hold them.
  lemma FewestBytes(v: int64, u: uint64)
    ensures |EncodeInt(v)| in {1, 2, 4, 8} && |EncodeUInt(u)| in {1, 2, 4, 8}
    ensures -0x80 <= v <= 0x7F <==> |EncodeInt(v)| == 1
    ensures -0x8000 <= v <= 0x7FFF <==> |EncodeInt(v)| <= 2
    ensures -0x8000_0000 <= v <= 0x7FFF_FFFF <==> |EncodeInt(v)| <= 4
    ensures u <= 0xFF <==> |EncodeUInt(u)| == 1
    ensures u <= 0xFFFF <==> |EncodeUInt(u)| <= 2
    ensures u <= 0xFFFF_FFFF <==> |EncodeUInt(u)| <= 4
  {
  }

  // What follows a forest and is no item, such as an item cut short, is passed
  // over quietly.
  lemma {:induction false} TailPassedOver(inst: bool, f: seq<Data>, tail: seq<byte>)
    requires Writable(f) && Full(f) && Decode(tail) == None
    ensures ParseItems(Encode(inst, f) + tail) == Some(Erase(f))
    decreases f
  {
    if f == [] {
      assert Encode(inst, f) + tail == tail;
    } else {
      TailPassedOver(inst, f[1..], tail);
      OneBefore(inst, f[0], f[1..], tail);
      assert f == [f[0]] + f[1..];
    }
  }

  lemma OneBefore(inst: bool, d: Data, more: seq<Data>, tail: seq<byte>)
    requires WritableOne(d) && Writable(more) && FullOne(d)
    requires ParseItems(Encode(inst, more) + tail) == Some(Erase(more))
    ensures Writable([d] + more) && ParseItems(Encode(inst, [d] + more) + tail) == Some(Erase([d] + more))
  {
    assert ([d] + more)[1..] == more;
    var rest := Encode(inst, more) + tail;
    ReadOne(inst, d, rest);
    Glued(EncodeOne(inst, d), Encode(inst, more), tail);
  }

  lemma Glued(a: seq<byte>, b: seq<byte>, c: seq<byte>)
    ensures a + b + c == a + (b + c)
  {
  }

  // Parsing what was serialized gives back the tree with leaves as bytes
  // exactly when no container in it is empty; otherwise nothing is read.
  lemma RoundTrip(inst: bool, f: seq<Data>)
    requires Writable(f)
    ensures Parse(Encode(inst, f)) == if Full(f) then Erase(f) else []
    ensures Parse(Encode(inst, f)) == Erase(f) <==> Full(f)
  {
    RoundTripItems(inst, f);
  }

  // The length pass refuses exactly the data that contains something
  // unsupported.
  predicate SupportedOne(d: Data)
    decreases d, 0
  {
    !d.Unsupported? && (d.Container? ==> Supported(d.children))
  }

  predicate Supported(f: seq<Data>)
    decreases f, 1
  {
    f == [] || (SupportedOne(f[0]) && Supported(f[1..]))
  }

  lemma {:induction false} LengthFailsOne(d: Data)
    ensures LengthOne(d) == -1 <==> !SupportedOne(d)
    decreases d, 0
  {
    if d.Container? { LengthFailsIff(d.children); }
  }

  lemma {:induction false} LengthFailsIff(f: seq<Data>)
    ensures Length(f) == -1 <==> !Supported(f)
    decreases f, 1
  {
    if f != [] {
      LengthFailsOne(f[0]);
      LengthFailsIff(f[1..]);
    }
  }
}
