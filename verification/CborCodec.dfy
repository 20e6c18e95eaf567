// The CBOR writer and reader as written: bytes put into a buffer at an index,
// and a loop over the heads of one value, proved against the functions that
// specify them (wakaama/data/cbor.c).
module CborCodec {
  import opened Common
  import opened BigEndian
  import opened Buffers
  import opened Decimal
  import opened Text
  import opened Cbor

  // prv_serialize_value to buffer[at .. at + length]; zero when it does not
  // fit.
  method SerializeValue(buffer: array<byte>, at: nat, length: nat, mt: nat, val: nat) returns (n: nat)
    requires at + length <= buffer.Length && mt < 8 && val <= UINT64_MAX
    modifies buffer
    ensures n == if |Head(mt, val)| <= length then |Head(mt, val)| else 0
    ensures buffer[..] == if n > 0 then Over(old(buffer[..]), at, Head(mt, val)) else old(buffer[..])
  {
    var ai := InfoThatFits(val, length);
    if ai == 28 {
      return 0;
    }
    Copy(buffer, at, [(mt * 32 + ai) as byte]);
    Copy(buffer, at + 1, Bytes(val, Width(ai)));
    OverTwice(old(buffer[..]), at, [(mt * 32 + ai) as byte], Bytes(val, Width(ai)));
    n := 1 + Width(ai);
  }

  // The choice of the width; 28 when the head does not fit.
  method InfoThatFits(val: nat, length: nat) returns (ai: nat)
    ensures ai == if 1 + Width(Info(val)) <= length then Info(val) else 28
  {
    ai := 27;
    if val < 0xFF {
      if val < 24 {
        if length < 1 {
          return 28;
        }
        ai := val;
      } else {
        if length < 2 {
          return 28;
        }
        ai := 24;
      }
    } else if val < 0xFFFF {
      if length < 3 {
        return 28;
      }
      ai := 25;
    } else if val < 0xFFFF_FFFF {
      if length < 5 {
        return 28;
      }
      ai := 26;
    } else if length < 9 {
      return 28;
    }
  }

  // A head and the bytes of a string after it.
  method SerializeBytes(buffer: array<byte>, at: nat, length: nat, mt: nat, data: seq<byte>) returns (n: nat)
    requires at + length <= buffer.Length && mt < 8 && |data| < 0x8000_0000
    requires data != [] ==> |Head(mt, |data|)| + |data| <= length
    modifies buffer
    ensures n == if |Head(mt, |data|)| <= length then |Head(mt, |data|)| + |data| else 0
    ensures buffer[..] ==
            if n > 0 then Over(old(buffer[..]), at, Head(mt, |data|) + data) else old(buffer[..])
  {
    n := SerializeValue(buffer, at, length, mt, |data|);
    if |data| > 0 {
      Copy(buffer, at + n, data);
      OverTwice(old(buffer[..]), at, Head(mt, |data|), data);
      n := n + |data|;
    } else {
      assert Head(mt, |data|) + data == Head(mt, |data|);
    }
  }

  // A link as text, which goes after the one byte its head will take.
  method SerializeObjLink(buffer: array<byte>, at: nat, length: nat, o: uint16, i: uint16) returns (n: nat)
    requires at + length <= buffer.Length
    modifies buffer
    ensures var t := ToBytes(ObjLinkText(o, i));
            if length > |t| + 1 then
              && n == |t| + 1 == |Head(3, |t|) + t|
              && buffer[..] == Over(old(buffer[..]), at, Head(3, |t|) + t)
            else n == 0
  {
    var text := ToBytes(ObjLinkText(o, i));
    LinkTextShort(o, i);
    if length <= |text| + 1 {
      return 0;
    }
    Copy(buffer, at + 1, text);
    var k := SerializeValue(buffer, at, length, 3, |text|);
    HeadFirst(old(buffer[..]), at, Head(3, |text|), text);
    n := |text| + 1;
  }

  // cbor_put_singular; zero when the value is not written.
  method CborPutSingular(buffer: array<byte>, at: nat, length: nat, v: Value) returns (n: nat)
    requires at + length <= buffer.Length && (Encodable(v) || v.NotSingular?)
    requires v.OpaqueValue? || v.StringValue? || v.CoreLinkValue? ==> |Encoding(v)| <= length || v.data == []
    modifies buffer
    ensures match PutSingular(v, length)
            case None => n == 0
            case Some(b) => n == |b| <= length && buffer[..] == Over(old(buffer[..]), at, b)
  {
    match v {
      case NotSingular => n := 0;
      case IntegerValue(i) =>
        if i < 0 {
          n := SerializeValue(buffer, at, length, 1, -1 - i);
        } else {
          n := SerializeValue(buffer, at, length, 0, i);
        }
      case UnsignedValue(u) => n := SerializeValue(buffer, at, length, 0, u);
      case BooleanValue(b) => n := SerializeValue(buffer, at, length, 7, if b then 21 else 20);
      case OpaqueValue(data) => n := SerializeBytes(buffer, at, length, 2, data);
      case StringValue(data) => n := SerializeBytes(buffer, at, length, 3, data);
      case CoreLinkValue(data) => n := SerializeBytes(buffer, at, length, 3, data);
      case ObjectLinkValue(o, i) =>
        n := SerializeObjLink(buffer, at, length, o, i);
    }
  }

  lemma HeadFirst(s: seq<byte>, at: nat, h: seq<byte>, text: seq<byte>)
    requires |h| == 1 && at + 1 + |text| <= |s|
    ensures Over(Over(s, at + 1, text), at, h) == Over(s, at, h + text)
  {
  }

  // cbor_get_type_and_value
  method GetTypeAndValue(b: seq<byte>) returns (r: Option<HeadRead>)
    ensures r == GetHead(b)
  {
    if |b| < 1 {
      return None;
    }
    var mt, ai := Top(b[0]), Low(b[0]);
    var val := ai;
    var result := 1;
    if ai == 24 || ai == 25 || ai == 26 || ai == 27 {
      if |b| < 1 + Width(ai) {
        return None;
      }
      val := Number(b[1..1 + Width(ai)]);
      result := result + Width(ai);
    } else if ai == 28 || ai == 29 || ai == 30 {
      return None;
    }
    if mt == 1 {
      if val >= TWO_TO_63 {
        return None;
      }
      r := Some(HeadRead(NegativeInteger, UINT64_MAX - val, result));
    } else if mt == 7 && ai == 31 {
      r := Some(HeadRead(Break, 0, result));
    } else {
      r := Some(HeadRead(KindOf(mt, ai), val, result));
    }
  }

  // The value after the tag, if there is one.
  lemma AfterTag(b: seq<byte>, h: HeadRead, tagSeen: bool)
    requires GetHead(b) == Some(h) && h.kind == Tag && h.length <= |b|
    ensures GetSingular(b, tagSeen) ==
            if tagSeen then None else Shifted(GetSingular(b[h.length..], true), h.length)
  {
    var got := GetHead(b);
    assert got == Some(h);
  }

  function Shifted(r: Option<ValueRead>, n: nat): Option<ValueRead> {
    if r.Some? then Some(ValueRead(r.value.value, n + r.value.length)) else None
  }

  // One round of the loop: a value, or the position after a tag.
  method Round(b: seq<byte>, tagSeen: bool) returns (r: Option<ValueRead>, tag: bool, length: nat)
    ensures tag ==> !tagSeen && length <= |b|
    ensures GetSingular(b, tagSeen) == if tag then Shifted(GetSingular(b[length..], true), length) else r
  {
    r, tag, length := None, false, 0;
    var h := GetTypeAndValue(b);
    if h == None {
      return;
    }
    if h.value.kind != Tag {
      r := ReadValue(b, h.value);
      return;
    }
    AfterTag(b, h.value, tagSeen);
    if !tagSeen {
      tag, length := true, h.value.length;
    }
  }

  lemma RoundDone(whole: Option<ValueRead>, rest: Option<ValueRead>, result: nat, inner: Option<ValueRead>, length: nat)
    requires whole == Shifted(rest, result) && rest == Shifted(inner, length)
    ensures whole == Shifted(inner, result + length)
  {
  }

  // cbor_get_singular
  method CborGetSingular(b: seq<byte>) returns (r: Option<ValueRead>)
    ensures r == GetSingular(b, false)
  {
    var result, tagSeen := 0, false;
    assert b[0..] == b;
    ghost var whole := GetSingular(b, false);
    while true
      invariant 0 <= result <= |b|
      invariant whole == Shifted(GetSingular(b[result..], tagSeen), result)
      decreases !tagSeen
    {
      var left := b[result..];
      var v, tag, length := Round(left, tagSeen);
      if !tag {
        return Shifted(v, result);
      }
      assert left[length..] == b[result + length..];
      RoundDone(whole, GetSingular(left, tagSeen), result, GetSingular(b[result + length..], true), length);
      tagSeen := true;
      result := result + length;
    }
  }

  // The switch over the kinds that are not tags.
  method ReadValue(b: seq<byte>, h: HeadRead) returns (r: Option<ValueRead>)
    requires h.length <= |b| && h.kind != Tag
    ensures r == ValueAfter(h, b)
  {
    match h.kind {
      case UnsignedInteger => r := Some(ValueRead(UnsignedValue(h.value), h.length));
      case NegativeInteger => r := Some(ValueRead(IntegerValue(h.value - TWO_TO_64), h.length));
      case Float => r := Some(ValueRead(FloatValue(h.value), h.length));
      case SimpleValue =>
        if h.value == 20 {
          r := Some(ValueRead(BooleanValue(false), h.length));
        } else if h.value == 21 {
          r := Some(ValueRead(BooleanValue(true), h.length));
        } else {
          r := None;
        }
      case ByteString =>
        if h.value > |b| - h.length {
          return None;
        }
        r := Some(ValueRead(OpaqueValue(b[h.length..h.length + h.value]), h.length + h.value));
      case TextString =>
        if h.value > |b| - h.length {
          return None;
        }
        r := Some(ValueRead(StringValue(b[h.length..h.length + h.value]), h.length + h.value));
      case ArrayHead | MapHead | Break | Tag => r := None;
    }
  }

  // utils_textToObjLink
  method ReadObjLink(s: string) returns (r: Option<(uint16, uint16)>)
    ensures r == TextToObjLink(s)
  {
    var sep := 0;
    while sep < |s| && s[sep] != ':'
      invariant sep <= |s| && ScanTo(s, sep, ':') == ScanTo(s, 0, ':')
    {
      sep := sep + 1;
    }
    if sep == 0 || sep == |s| {
      return None;
    }
    var o := ReadUInt(s[..sep]);
    if o == None {
      return None;
    }
    var i := ReadUInt(s[sep + 1..]);
    if i == None {
      return None;
    }
    if o.value > MAX_ID as int || i.value > MAX_ID as int {
      return None;
    }
    r := Some((o.value, i.value));
  }
}
