// The TLV writer and reader as written: a length pass, a buffer filled at an
// advancing index, and a reader that walks the bytes (wakaama/data/tlv.c).
module TlvCodec {
  import opened Common
  import opened BigEndian
  import opened Buffers
  import opened Tlv

  // The id field of a header: one byte, or two for ids above 255.
  method PutId(buffer: array<byte>, at: nat, id: uint16) returns (n: nat)
    requires at + (if id > 0xFF then 2 else 1) <= buffer.Length
    modifies buffer
    ensures n == if id > 0xFF then 2 else 1
    ensures buffer[..] == Over(old(buffer[..]), at, Bytes(id, n))
  {
    if id > 0xFF {
      BytesTwo(id);
      buffer[at], buffer[at + 1] := id / 0x100, id % 0x100;
      n := 2;
    } else {
      BytesOne(id);
      buffer[at] := id;
      n := 1;
    }
  }

  // The length field of a header: up to three bytes.
  method PutLength(buffer: array<byte>, at: nat, length: nat)
    requires length < MAX_LENGTH && at + LengthSize(length) <= buffer.Length
    modifies buffer
    ensures buffer[..] == Over(old(buffer[..]), at, Bytes(length, LengthSize(length)))
  {
    if length <= 7 {
    } else if length <= 0xFF {
      BytesOne(length);
      buffer[at] := length;
    } else if length <= 0xFFFF {
      BytesTwo(length);
      buffer[at], buffer[at + 1] := length / 0x100, length % 0x100;
    } else {
      BytesThree(length);
      buffer[at], buffer[at + 1], buffer[at + 2] := length / 0x1_0000, length / 0x100 % 0x100, length % 0x100;
    }
  }

  // prv_createHeader, writing at an offset of the buffer
  method CreateHeader(buffer: array<byte>, at: nat, t: int, id: uint16, length: nat) returns (n: nat)
    requires HeaderType(t) && length < MAX_LENGTH
    requires at + HeaderLength(id, length) <= buffer.Length
    modifies buffer
    ensures n == HeaderLength(id, length)
    ensures buffer[..] == Over(old(buffer[..]), at, Header(t, id, length))
  {
    n := HeaderLength(id, length);
    ghost var before := buffer[..];
    PutFirst(buffer, at, t, id, length);
    var idLen := PutId(buffer, at + 1, id);
    OverTwice(before, at, [FirstByte(t, id, length)], Bytes(id, idLen));
    PutLength(buffer, at + 1 + idLen, length);
    OverTwice(before, at, [FirstByte(t, id, length)] + Bytes(id, idLen), Bytes(length, LengthSize(length)));
  }

  // The first byte of a header: type, and how the id and the length follow.
  method PutFirst(buffer: array<byte>, at: nat, t: int, id: uint16, length: nat)
    requires HeaderType(t) && length < MAX_LENGTH && at < buffer.Length
    modifies buffer
    ensures buffer[..] == Over(old(buffer[..]), at, [FirstByte(t, id, length)])
  {
    FirstByteFields(t, id, length);
    var first := t + if id > 0xFF then 0x20 else 0;
    first := first +
      if length <= 7 then length else if length <= 0xFF then 0x08 else if length <= 0xFFFF then 0x10 else 0x18;
    buffer[at] := first;
  }

  lemma BytesThree(v: nat)
    requires v < MAX_LENGTH
    ensures Bytes(v, 3) == [v / 0x1_0000, v / 0x100 % 0x100, v % 0x100]
  {
    BytesTwo(v / 0x100);
  }

  // prv_getLength
  method GetLength(data: seq<Data>) returns (length: int)
    ensures length == Length(data)
    decreases data, 1
  {
    length := 0;
    var i := 0;
    assert data[0..] == data;
    while i < |data| && length != -1
      invariant i <= |data| && length >= -1
      invariant length != -1 ==>
                  Length(data) == (if Length(data[i..]) == -1 then -1 else length + Length(data[i..]))
      invariant length == -1 ==> Length(data) == -1
    {
      assert data[i..][0] == data[i] && data[i..][1..] == data[i + 1..];
      var one := GetLengthOne(data[i]);
      length := if one == -1 then -1 else length + one;
      i := i + 1;
    }
  }

  method GetLengthOne(d: Data) returns (length: int)
    ensures length == LengthOne(d)
    decreases d, 0
  {
    match d
    case Unsupported(_) => return -1;
    case Leaf(id, v) => return HeaderLength(id, |LeafBytes(v)|) + |LeafBytes(v)|;
    case Container(id, _, children) =>
      var sub := GetLength(children);
      return if sub == -1 then -1 else HeaderLength(id, sub) + sub;
  }

  // The items from position i on: the first one, and the others.
  lemma EncodeNext(inst: bool, f: seq<Data>, i: nat, done: seq<byte>)
    requires i < |f| && Writable(f[i..])
    ensures WritableOne(f[i]) && Writable(f[i + 1..])
    ensures done + Encode(inst, f[i..]) == done + EncodeOne(inst, f[i]) + Encode(inst, f[i + 1..])
  {
    assert f[i..][0] == f[i] && f[i..][1..] == f[i + 1..];
    Together(done, EncodeOne(inst, f[i]), Encode(inst, f[i + 1..]));
  }

  lemma Together(a: seq<byte>, b: seq<byte>, c: seq<byte>)
    ensures a + (b + c) == a + b + c
  {
  }

  // tlv_serialize: the length, which is -1 for data of an unsupported type, and
  // the buffer when there is anything to write.
  method Serialize(inst: bool, data: seq<Data>) returns (length: int, buffer: array?<byte>)
    requires Supported(data) ==> Writable(data)
    ensures length == Length(data) && (length == -1 <==> !Supported(data))
    ensures (buffer == null) == (length <= 0)
    ensures buffer != null ==> Writable(data) && fresh(buffer) && buffer[..] == Encode(inst, data)
    decreases data, 2
  {
    length := GetLength(data);
    LengthFailsIff(data);
    if length <= 0 {
      return length, null;
    }
    assert |Encode(inst, data)| == length;
    var b := new byte[length];
    Fill(inst, data, b);
    buffer := b;
  }

  // The loop of tlv_serialize
  method Fill(inst: bool, data: seq<Data>, buffer: array<byte>)
    requires Writable(data) && buffer.Length == |Encode(inst, data)|
    modifies buffer
    ensures buffer[..] == Encode(inst, data)
    decreases data, 1
  {
    var index, i := 0, 0;
    ghost var whole := Encode(inst, data);
    assert data[0..] == data && buffer[..0] == [];
    while i < |data|
      invariant i <= |data| && Writable(data[i..])
      invariant index <= buffer.Length && buffer[..index] + Encode(inst, data[i..]) == whole
    {
      ghost var done := buffer[..index];
      EncodeNext(inst, data, i, done);
      var at := index;
      index := SerializeOne(inst, data[i], buffer, at);
      assert buffer[..index] == done + EncodeOne(inst, data[i]);
      i := i + 1;
    }
    assert buffer[..index] + [] == buffer[..index] && index == buffer.Length;
  }

  // One round of the loop: header and payload at `at`, and the index after them.
  method SerializeOne(inst: bool, d: Data, buffer: array<byte>, at: nat) returns (index: nat)
    requires WritableOne(d) && at + |EncodeOne(inst, d)| <= buffer.Length
    modifies buffer
    ensures index == at + |EncodeOne(inst, d)|
    ensures buffer[..] == Over(old(buffer[..]), at, EncodeOne(inst, d))
    decreases d, 0
  {
    ghost var before := buffer[..];
    match d {
      case Leaf(id, v) =>
        index := PutItem(buffer, at, LeafType(inst), id, LeafBytes(v));
      case Container(id, kind, children) =>
        assert Writable(children);
        var res, tmpBuffer := Serialize(inst || kind == MultipleResource, children);
        index := PutItem(buffer, at, ContainerType(kind), id, if tmpBuffer == null then [] else tmpBuffer[..]);
    }
  }

  method PutItem(buffer: array<byte>, at: nat, t: int, id: uint16, payload: seq<byte>) returns (index: nat)
    requires HeaderType(t) && |payload| < MAX_LENGTH
    requires at + HeaderLength(id, |payload|) + |payload| <= buffer.Length
    modifies buffer
    ensures index == at + HeaderLength(id, |payload|) + |payload|
    ensures buffer[..] == Over(old(buffer[..]), at, Header(t, id, |payload|) + payload)
  {
    ghost var before := buffer[..];
    var headerLen := CreateHeader(buffer, at, t, id, |payload|);
    Copy(buffer, at + headerLen, payload);
    OverTwice(before, at, Header(t, id, |payload|), payload);
    index := at + headerLen + |payload|;
  }

  function Appended(data: seq<Data>, r: Option<seq<Data>>): Option<seq<Data>> {
    match r
    case None => None
    case Some(rest) => Some(data + rest)
  }

  lemma AppendedPush(data: seq<Data>, item: Data, r: Option<seq<Data>>)
    ensures Appended(data + [item], r) == Appended(data, Appended([item], r))
  {
    if r.Some? { assert (data + [item]) + r.value == data + ([item] + r.value); }
  }

  // One item at the front of the buffer.
  lemma ParseStep(b: seq<byte>, h: Decoded)
    requires Decode(b) == Some(h)
    ensures var payload := b[h.index..h.index + h.length];
            var children := if h.t == INSTANCE || h.t == MULTIPLE then Parse(payload) else [];
            ParseItems(b) ==
            match Item(h, children, payload)
            case None => None
            case Some(item) => Appended([item], ParseItems(b[h.index + h.length..]))
  {
  }

  // One round of the loop of tlv_parse; None when the item has no children.
  method ParseOneItem(buffer: seq<byte>, h: Decoded) returns (item: Option<Data>)
    requires Decode(buffer) == Some(h)
    ensures ParseItems(buffer) ==
            match item
            case None => None
            case Some(d) => Appended([d], ParseItems(buffer[h.index + h.length..]))
    decreases |buffer|, 0
  {
    ParseStep(buffer, h);
    var payload := buffer[h.index..h.index + h.length];
    var children := [];
    if h.t == INSTANCE || h.t == MULTIPLE {
      children := TlvParse(payload);
    }
    item := Item(h, children, payload);
  }

  // tlv_parse
  method TlvParse(buffer: seq<byte>) returns (data: seq<Data>)
    ensures data == Parse(buffer)
    decreases |buffer|, 1
  {
    data := [];
    var rest := buffer;
    assert ParseItems(buffer).Some? ==> [] + ParseItems(buffer).value == ParseItems(buffer).value;
    var next := Decode(rest);
    while next.Some?
      invariant next == Decode(rest) && |rest| <= |buffer|
      invariant ParseItems(buffer) == Appended(data, ParseItems(rest))
      decreases |rest|
    {
      var h := next.value;
      var item := ParseOneItem(rest, h);
      if item == None {
        return [];
      }
      rest := rest[h.index + h.length..];
      AppendedPush(data, item.value, ParseItems(rest));
      data := data + [item.value];
      next := Decode(rest);
    }
    assert data + [] == data;
  }
}
