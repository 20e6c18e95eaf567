// Base64 (RFC 4648 section 4): the sizes predicted, the text and the bytes as
// functions, and the loops that write them to a buffer, proved against these
// (wakaama/core/utils.c).
module Base64 {
  import opened Common

  const PADDING: char := '='

  // b64Alphabet
  function Symbol(v: nat): (c: char)
    requires v < 64
    ensures c != PADDING
  {
    if v < 26 then (v + 'A' as int) as char
    else if v < 52 then (v - 26 + 'a' as int) as char
    else if v < 62 then (v - 52 + '0' as int) as char
    else if v == 62 then '+' else '/'
  }

  // prv_base64Value
  function ValueOf(c: char): nat {
    if 'A' <= c <= 'Z' then c as int - 'A' as int
    else if 'a' <= c <= 'z' then c as int - 'a' as int + 26
    else if '0' <= c <= '9' then c as int - '0' as int + 52
    else if c == '+' then 62 else if c == '/' then 63 else 0xFF
  }

  // What fits one byte.
  function Low8(x: nat): byte { x % 0x100 }

  // utils_base64GetSize
  function GetSize(n: nat): nat { 4 * (n / 3) + if n % 3 != 0 then 4 else 0 }

  // The four values of a group of up to three bytes, the missing ones zero.
  function V1(a: byte): nat { a / 4 }
  function V2(a: byte, b: byte): nat { (a % 4) * 16 + b / 16 }
  function V3(b: byte, c: byte): nat { (b % 16) * 4 + c / 64 }
  function V4(c: byte): nat { c % 64 }

  datatype Quad = Quad(v1: nat, v2: nat, v3: nat, v4: nat)

  ghost predicate Within(q: Quad) { q.v1 < 64 && q.v2 < 64 && q.v3 < 64 && q.v4 < 64 }

  function Sextets(a: byte, b: byte, c: byte): (q: Quad)
    ensures Within(q)
  {
    SextetsWithin(a, b, c);
    Quad(V1(a), V2(a, b), V3(b, c), V4(c))
  }

  lemma SextetsWithin(a: byte, b: byte, c: byte)
    ensures V1(a) < 64 && V2(a, b) < 64 && V3(b, c) < 64 && V4(c) < 64
  {
  }

  // The bytes of the next group, three unless fewer are left.
  function GroupSize(data: seq<byte>): (k: nat)
    ensures k <= |data| && k <= 3 && (data != [] ==> k > 0)
  {
    if |data| < 3 then |data| else 3
  }

  function GroupOf(data: seq<byte>): (q: Quad)
    requires data != []
    ensures Within(q)
  {
    Sextets(data[0], if |data| > 1 then data[1] else 0, if |data| > 2 then data[2] else 0)
  }

  // Four symbols, the last ones padding for missing bytes.
  function Group(q: Quad, k: nat): (g: string)
    requires q.v1 < 64 && q.v2 < 64 && q.v3 < 64 && q.v4 < 64
    ensures |g| == 4 && (g[2] == PADDING <==> k < 2) && (g[3] == PADDING <==> k < 3)
  {
    [Symbol(q.v1), Symbol(q.v2), if k < 2 then PADDING else Symbol(q.v3), if k < 3 then PADDING else Symbol(q.v4)]
  }

  // The text of the next group.
  function GroupText(data: seq<byte>): (g: string)
    requires data != []
    ensures |g| == 4 && (g[2] == PADDING <==> |data| == 1) && (g[3] == PADDING <==> |data| < 3)
  {
    Group(GroupOf(data), GroupSize(data))
  }

  // utils_base64Encode, when the buffer is large enough
  function Encode(data: seq<byte>): string {
    if data == [] then "" else GroupText(data) + Encode(data[GroupSize(data)..])
  }

  // utils_base64GetDecodedSize
  function GetDecodedSize(t: string): nat {
    var n := 3 * (|t| / 4);
    var left := |t| % 4;
    if left == 0 then
      if n > 0 && t[|t| - 2] == PADDING then n - 2
      else if n > 0 && t[|t| - 1] == PADDING then n - 1
      else n
    else if left == 2 then n + 1
    else if left == 3 then n + 2
    else n
  }

  function First(v1: nat, v2: nat): byte { Low8(v1 * 4 + v2 / 16) }
  function Second(v2: nat, v3: nat): byte { Low8(v2 * 16 + v3 / 4) }
  function Third(v3: nat, v4: nat): byte { Low8(v3 * 64 + v4) }

  // What follows the first byte of a group; v2 is the second symbol.
  function MoreBytes(t: string, i: nat, n: nat, size: nat, v2: nat): Option<seq<byte>>
    requires i + 2 <= |t|
  {
    if i + 2 >= |t| then Some([])
    else if t[i + 2] == PADDING then if n + 1 != size then None else Some([])
    else
      var v3 := ValueOf(t[i + 2]);
      if v3 >= 64 then None
      else if i + 3 >= |t| then Some([Second(v2, v3)])
      else if t[i + 3] == PADDING then if n + 2 != size then None else Some([Second(v2, v3)])
      else
        var v4 := ValueOf(t[i + 3]);
        if v4 >= 64 then None else Some([Second(v2, v3), Third(v3, v4)])
  }

  // One round of utils_base64Decode at position i, with `n` bytes written
  // before: one to three bytes. `size` is the predicted size; padding is
  // accepted only where it leads there.
  function GroupBytes(t: string, i: nat, n: nat, size: nat): Option<seq<byte>>
    requires i < |t|
  {
    if |t| - i < 2 || ValueOf(t[i]) >= 64 || ValueOf(t[i + 1]) >= 64 then None
    else
      var more :- MoreBytes(t, i, n, size, ValueOf(t[i + 1]));
      Some([First(ValueOf(t[i]), ValueOf(t[i + 1]))] + more)
  }

  function DecodeFrom(t: string, i: nat, n: nat, size: nat): Option<seq<byte>>
    decreases |t| - i
  {
    if i >= |t| then Some([])
    else
      var g :- GroupBytes(t, i, n, size);
      var rest :- DecodeFrom(t, i + 4, n + |g|, size);
      Some(g + rest)
  }

  // utils_base64Decode, when the buffer is large enough
  function Decode(t: string): Option<seq<byte>> { DecodeFrom(t, 0, 0, GetDecodedSize(t)) }

  // ----- Round trip ---------------------------------------------------------

  lemma FirstBack(a: byte, b: byte)
    ensures First(V1(a), V2(a, b)) == a
  {
    assert ((a % 4) * 16 + b / 16) / 16 == a % 4;
  }

  lemma SecondBack(a: byte, b: byte, c: byte)
    ensures Second(V2(a, b), V3(b, c)) == b
  {
    assert ((b % 16) * 4 + c / 64) / 4 == b % 16;
    Whole(a % 4, b);
  }

  lemma ThirdBack(b: byte, c: byte)
    ensures Third(V3(b, c), V4(c)) == c
  {
    assert V3(b, c) * 64 + V4(c) == 0x100 * (b % 16) + (c / 64 * 64 + c % 64);
    Whole(b % 16, c);
  }

  lemma Whole(high: nat, b: byte)
    ensures Low8(0x100 * high + b) == b
  {
  }

  lemma BytesBack(a: byte, b: byte, c: byte)
    ensures var q := Sextets(a, b, c); First(q.v1, q.v2) == a && Second(q.v2, q.v3) == b && Third(q.v3, q.v4) == c
  {
    FirstBack(a, b);
    SecondBack(a, b, c);
    ThirdBack(b, c);
  }

  lemma SizeStep(n: nat)
    ensures GetSize(n) == if n >= 3 then 4 + GetSize(n - 3) else if n > 0 then 4 else 0
  {
    if n >= 3 { assert n / 3 == 1 + (n - 3) / 3; }
  }

  lemma {:induction false} EncodeLength(data: seq<byte>)
    ensures |Encode(data)| == GetSize(|data|)
  {
    SizeStep(|data|);
    if data != [] {
      EncodeNext(data);
      EncodeLength(data[GroupSize(data)..]);
    }
  }

  predicate EndsLike(t: string, n: nat) {
    && |t| >= 4
    && (t[|t| - 2] == PADDING <==> n % 3 == 1) && (t[|t| - 1] == PADDING <==> n % 3 != 0)
  }

  lemma EndOfSum(g: string, rest: string, n: nat)
    requires |g| == 4 && EndsLike(rest, n)
    ensures EndsLike(g + rest, n + 3)
  {
    var t := g + rest;
    assert t[|t| - 1] == rest[|rest| - 1] && t[|t| - 2] == rest[|rest| - 2];
    assert (n + 3) % 3 == n % 3;
  }

  // The last group shows how many bytes it holds.
  lemma {:induction false} EncodeEnd(data: seq<byte>)
    requires data != []
    ensures EndsLike(Encode(data), |data|)
  {
    var k := GroupSize(data);
    var g := GroupText(data);
    EncodeNext(data);
    if k == |data| {
      assert Encode(data[k..]) == "" && g + "" == g;
      assert |data| == 3 ==> |data| % 3 == 0;
    } else {
      EncodeEnd(data[k..]);
      EndOfSum(g, Encode(data[k..]), |data| - 3);
    }
  }

  lemma DecodedSizeOf(t: string, n: nat)
    requires |t| == GetSize(n)
    requires n > 0 ==> EndsLike(t, n)
    ensures GetDecodedSize(t) == n
  {
    var m := if n % 3 != 0 then n / 3 + 1 else n / 3;
    assert |t| == 4 * m && |t| / 4 == m && |t| % 4 == 0;
  }

  // The sizes predicted before encoding and before decoding are right.
  lemma SizesAgree(data: seq<byte>)
    ensures |Encode(data)| == GetSize(|data|) && GetDecodedSize(Encode(data)) == |data|
  {
    EncodeLength(data);
    if data != [] { EncodeEnd(data); }
    DecodedSizeOf(Encode(data), |data|);
  }

  lemma Ones(q: Quad)
    requires q.v1 < 64 && q.v2 < 64 && q.v3 < 64 && q.v4 < 64
    ensures ValueOf(Symbol(q.v1)) == q.v1 && ValueOf(Symbol(q.v2)) == q.v2
    ensures ValueOf(Symbol(q.v3)) == q.v3 && ValueOf(Symbol(q.v4)) == q.v4
  {
  }

  function Three(q: Quad): seq<byte> { [First(q.v1, q.v2), Second(q.v2, q.v3), Third(q.v3, q.v4)] }

  lemma Prefixes(x: byte, y: byte, z: byte)
    ensures [x, y, z][..1] == [x] && [x, y, z][..2] == [x, y] && [x, y, z][..3] == [x, y, z]
  {
  }

  // One group, of one, two or three bytes.
  lemma DecodeGroup(t: string, i: nat, q: Quad, k: nat, n: nat, size: nat)
    requires Within(q) && 1 <= k <= 3 && i + 4 <= |t| && t[i..i + 4] == Group(q, k)
    requires k < 3 ==> n + k == size
    ensures GroupBytes(t, i, n, size) == Some(Three(q)[..k])
  {
    var w := t[i..i + 4];
    Ones(q);
    var x, y, z := First(q.v1, q.v2), Second(q.v2, q.v3), Third(q.v3, q.v4);
    Prefixes(x, y, z);
    assert [x] + [] == [x] && [x] + [y] == [x, y] && [x] + [y, z] == [x, y, z];
    assert t[i] == w[0] && t[i + 1] == w[1] && t[i + 2] == w[2] && t[i + 3] == w[3];
  }

  lemma ThreeBack(a: byte, b: byte, c: byte)
    ensures Three(Sextets(a, b, c)) == [a, b, c]
  {
    BytesBack(a, b, c);
  }

  lemma GroupBack(data: seq<byte>)
    requires data != []
    ensures Three(GroupOf(data))[..GroupSize(data)] == data[..GroupSize(data)]
  {
    var a, b, c := data[0], if |data| > 1 then data[1] else 0, if |data| > 2 then data[2] else 0;
    var three := Three(GroupOf(data));
    assert three == [a, b, c] by { ThreeBack(a, b, c); }
    TakeThree(a, b, c, data, GroupSize(data));
  }

  lemma TakeThree(a: byte, b: byte, c: byte, data: seq<byte>, k: nat)
    requires 0 < k <= 3 && k <= |data| && data[0] == a && (k > 1 ==> data[1] == b) && (k > 2 ==> data[2] == c)
    ensures [a, b, c][..k] == data[..k]
  {
  }

  lemma SliceSplit(t: string, i: nat, g: string, rest: string)
    requires i <= |t| && t[i..] == g + rest
    ensures i + |g| <= |t| && t[i..i + |g|] == g && t[i + |g|..] == rest
  {
    var u := t[i..];
    assert u[..|g|] == g && u[|g|..] == rest;
  }

  lemma EncodeNext(data: seq<byte>)
    requires data != []
    ensures Encode(data) == GroupText(data) + Encode(data[GroupSize(data)..])
    ensures |Encode(data)| == 4 + |Encode(data[GroupSize(data)..])|
  {
  }

  lemma {:induction false} DecodeFromBack(t: string, i: nat, data: seq<byte>, n: nat, size: nat)
    requires size == n + |data| && i <= |t| && t[i..] == Encode(data)
    ensures DecodeFrom(t, i, n, size) == Some(data)
    decreases data
  {
    if data != [] {
      var k := GroupSize(data);
      var more := data[k..];
      EncodeNext(data);
      SliceSplit(t, i, GroupText(data), Encode(more));
      DecodeFromBack(t, i + 4, more, n + k, size);
      DecodeGroup(t, i, GroupOf(data), k, n, size);
      GroupBack(data);
      assert data[..k] + more == data;
    }
  }

  // Decoding undoes encoding, with the predicted sizes.
  lemma RoundTrip(data: seq<byte>)
    ensures Decode(Encode(data)) == Some(data)
    ensures |Encode(data)| == GetSize(|data|) && GetDecodedSize(Encode(data)) == |data|
  {
    SizesAgree(data);
    assert Encode(data)[0..] == Encode(data);
    DecodeFromBack(Encode(data), 0, data, 0, |data|);
  }

  // ----- Without padding ----------------------------------------------------

  function Padding(n: nat): nat { if n % 3 == 0 then 0 else 3 - n % 3 }

  // The text without its padding.
  function Unpadded(data: seq<byte>): string {
    var t := Encode(data);
    if Padding(|data|) <= |t| then t[..|t| - Padding(|data|)] else ""
  }

  lemma PaddingStep(n: nat)
    ensures n >= 3 ==> Padding(n) == Padding(n - 3)
    ensures Padding(n) <= GetSize(n)
    ensures 0 < n < 3 ==> Padding(n) == 3 - n
  {
  }

  lemma UnpaddedNext(data: seq<byte>)
    requires |data| >= 3
    ensures Unpadded(data) == GroupText(data) + Unpadded(data[3..])
  {
    EncodeNext(data);
    EncodeLength(data[3..]);
    PaddingStep(|data|);
    PaddingStep(|data| - 3);
    CutEnd(GroupText(data), Encode(data[3..]), Padding(|data|));
  }

  lemma UnpaddedEnd(data: seq<byte>)
    requires 0 < |data| < 3
    ensures Unpadded(data) == GroupText(data)[..|data| + 1]
  {
    EncodeNext(data);
    PaddingStep(|data|);
    var g := GroupText(data);
    assert Encode(data) == g by {
      assert Encode(data[|data|..]) == "";
      assert g + "" == g;
    }
  }

  lemma CutEnd(g: string, rest: string, n: nat)
    requires n <= |rest|
    ensures (g + rest)[..|g + rest| - n] == g + rest[..|rest| - n]
  {
  }

  lemma ShortBytes(t: string, i: nat, q: Quad, n: nat, size: nat)
    requires Within(q) && i + 2 <= |t| <= i + 3 && t[i] == Symbol(q.v1) && t[i + 1] == Symbol(q.v2)
    requires |t| == i + 3 ==> t[i + 2] == Symbol(q.v3)
    ensures GroupBytes(t, i, n, size) ==
            Some(if |t| == i + 2 then [First(q.v1, q.v2)] else [First(q.v1, q.v2), Second(q.v2, q.v3)])
  {
    Ones(q);
    var x, y := First(q.v1, q.v2), Second(q.v2, q.v3);
    assert [x] + [] == [x] && [x] + [y] == [x, y];
  }

  lemma ShortText(data: seq<byte>)
    requires 0 < |data| < 3
    ensures var q := GroupOf(data); var g := GroupText(data);
            g[0] == Symbol(q.v1) && g[1] == Symbol(q.v2) && (|data| == 2 ==> g[2] == Symbol(q.v3))
  {
  }

  lemma ShortBack(data: seq<byte>)
    requires 0 < |data| < 3
    ensures var q := GroupOf(data);
            data == if |data| == 1 then [First(q.v1, q.v2)] else [First(q.v1, q.v2), Second(q.v2, q.v3)]
  {
    var q := GroupOf(data);
    GroupBack(data);
    Prefixes(First(q.v1, q.v2), Second(q.v2, q.v3), Third(q.v3, q.v4));
    assert data[..|data|] == data;
  }

  lemma ShortGroup(t: string, i: nat, data: seq<byte>, n: nat, size: nat)
    requires 0 < |data| < 3 && i <= |t| && t[i..] == GroupText(data)[..|data| + 1]
    ensures DecodeFrom(t, i, n, size) == Some(data)
  {
    var w := t[i..];
    assert t[i] == w[0] && t[i + 1] == w[1] && (|data| == 2 ==> t[i + 2] == w[2]);
    ShortText(data);
    ShortBytes(t, i, GroupOf(data), n, size);
    ShortBack(data);
    LastGroup(t, i, n, size, data);
  }

  lemma LastGroup(t: string, i: nat, n: nat, size: nat, g: seq<byte>)
    requires i < |t| <= i + 4 && GroupBytes(t, i, n, size) == Some(g)
    ensures DecodeFrom(t, i, n, size) == Some(g)
  {
    assert DecodeFrom(t, i + 4, n + |g|, size) == Some([]);
    assert g + [] == g;
  }

  lemma {:induction false} UnpaddedFrom(t: string, i: nat, data: seq<byte>, n: nat, size: nat)
    requires i <= |t| && t[i..] == Unpadded(data)
    ensures DecodeFrom(t, i, n, size) == Some(data)
    decreases data
  {
    if data != [] {
      if |data| < 3 {
        UnpaddedEnd(data);
        ShortGroup(t, i, data, n, size);
      } else {
        UnpaddedNext(data);
        SliceSplit(t, i, GroupText(data), Unpadded(data[3..]));
        UnpaddedFrom(t, i + 4, data[3..], n + 3, size);
        DecodeGroup(t, i, GroupOf(data), 3, n, size);
        GroupBack(data);
        assert data[..3] + data[3..] == data;
      }
    }
  }

  // The padding may be left out.
  lemma UnpaddedReadBack(data: seq<byte>)
    ensures Decode(Unpadded(data)) == Some(data)
  {
    var t := Unpadded(data);
    assert t[0..] == t;
    UnpaddedFrom(t, 0, data, 0, GetDecodedSize(t));
  }

  lemma EndOf(t: string, n: nat)
    requires if n == 0 then t == "" else EndsLike(t, n)
    ensures Padding(n) <= |t|
    ensures t == t[..|t| - Padding(n)] + if n % 3 == 0 then "" else if n % 3 == 1 then "==" else "="
  {
    assert t == t[..|t| - Padding(n)] + t[|t| - Padding(n)..];
    if n % 3 == 1 { assert t[|t| - 2..] == [t[|t| - 2], t[|t| - 1]]; }
  }

  // It is one '=' for each byte that is missing from the last group.
  lemma PaddingIs(data: seq<byte>)
    ensures Encode(data) ==
            Unpadded(data) + if |data| % 3 == 0 then "" else if |data| % 3 == 1 then "==" else "="
  {
    if data != [] { EncodeEnd(data); }
    EndOf(Encode(data), |data|);
  }

  // ----- What is refused ----------------------------------------------------

  // The value of a symbol by its place in the alphabet of RFC 4648; no other
  // character has one.
  lemma AlphabetIs(c: char)
    ensures ValueOf(c) < 64 <==> 'A' <= c <= 'Z' || 'a' <= c <= 'z' || '0' <= c <= '9' || c == '+' || c == '/'
    ensures ValueOf(c) < 64 ==> Symbol(ValueOf(c)) == c
  {
  }

  // Capitals, small letters and digits in order, then '+' and '/'.
  lemma SymbolsAre(v: nat)
    requires v < 64
    ensures Symbol(0) == 'A' && Symbol(25) == 'Z' && Symbol(26) == 'a' && Symbol(51) == 'z'
    ensures Symbol(52) == '0' && Symbol(61) == '9' && Symbol(62) == '+' && Symbol(63) == '/'
    ensures v < 62 && v !in {25, 51, 61} ==> Symbol(v + 1) as int == Symbol(v) as int + 1
  {
  }

  lemma {:induction false} ForeignRefused(t: string, i: nat, n: nat, size: nat, k: nat)
    requires i <= k < |t| && ValueOf(t[k]) >= 64 && (t[k] != PADDING || k < i + 2)
    requires forall j :: i <= j < k ==> t[j] != PADDING
    ensures DecodeFrom(t, i, n, size) == None
    decreases |t| - i
  {
    if k >= i + 4 {
      var g := GroupBytes(t, i, n, size);
      if g.Some? { ForeignRefused(t, i + 4, n + |g.value|, size, k); }
    }
  }

  // A text with a character outside the alphabet before any padding is refused.
  lemma ForeignIsRefused(t: string, k: nat)
    requires k < |t| && ValueOf(t[k]) >= 64 && t[k] != PADDING && forall j :: 0 <= j < k ==> t[j] != PADDING
    ensures Decode(t) == None
  {
    ForeignRefused(t, 0, 0, GetDecodedSize(t), k);
  }

  // One symbol is not enough for a byte.
  lemma OneSymbolRefused(t: string, i: nat, n: nat, size: nat)
    requires i + 1 == |t|
    ensures DecodeFrom(t, i, n, size) == None
  {
  }

  // ----- Sizes of what is decoded -------------------------------------------

  // How the predicted size relates to the group at position 4 * j.
  lemma SizeAt(t: string, j: nat)
    requires 4 * j < |t|
    ensures var size := GetDecodedSize(t); var left := |t| - 4 * j;
            && (left == 2 ==> size == 3 * j + 1) && (left == 3 ==> size == 3 * j + 2)
            && (left == 4 ==> size == if t[4 * j + 2] == PADDING then 3 * j + 1
                                      else if t[4 * j + 3] == PADDING then 3 * j + 2 else 3 * j + 3)
            && (left > 4 ==> size >= 3 * j + 3)
  {
    var d := |t| / 4;
    assert |t| == 4 * d + |t| % 4;
  }

  // A group has three bytes, except at the end of the text, where the size is
  // reached.
  lemma GroupWithin(t: string, j: nat)
    requires 4 * j < |t| && GroupBytes(t, 4 * j, 3 * j, GetDecodedSize(t)).Some?
    ensures var size := GetDecodedSize(t); var k := |GroupBytes(t, 4 * j, 3 * j, size).value|;
            1 <= k <= 3 && 3 * j + k <= size && (4 * j + 4 >= |t| ==> 3 * j + k == size) && (4 * j + 4 < |t| ==> k == 3)
  {
    SizeAt(t, j);
  }

  lemma {:induction false} DecodeFromSize(t: string, j: nat)
    requires 4 * j < |t| && DecodeFrom(t, 4 * j, 3 * j, GetDecodedSize(t)).Some?
    ensures 3 * j + |DecodeFrom(t, 4 * j, 3 * j, GetDecodedSize(t)).value| == GetDecodedSize(t)
    decreases |t| - 4 * j
  {
    GroupWithin(t, j);
    if 4 * j + 4 < |t| {
      DecodeFromSize(t, j + 1);
    }
  }

  // Whatever text is accepted, the bytes written are as many as predicted, so
  // a buffer of that size is never overrun.
  lemma DecodeSize(t: string)
    requires Decode(t).Some?
    ensures |Decode(t).value| == GetDecodedSize(t)
  {
    if t != "" { DecodeFromSize(t, 0); }
  }

  // ----- The loops ----------------------------------------------------------

  // One group written at the index reached.
  method PutGroup(buffer: array<char>, index: nat, g: string)
    requires |g| == 4 && index + 4 <= buffer.Length
    modifies buffer
    ensures buffer[..index + 4] == old(buffer[..index]) + g
  {
    buffer[index], buffer[index + 1], buffer[index + 2], buffer[index + 3] := g[0], g[1], g[2], g[3];
    assert buffer[index..index + 4] == g;
    assert buffer[..index + 4] == buffer[..index] + buffer[index..index + 4];
  }

  // utils_base64Encode; zero when the buffer is too small.
  method EncodeInto(data: seq<byte>, buffer: array<char>) returns (length: nat)
    modifies buffer
    ensures length == if GetSize(|data|) <= buffer.Length then GetSize(|data|) else 0
    ensures GetSize(|data|) <= buffer.Length ==> buffer[..length] == Encode(data)
  {
    length := GetSize(|data|);
    if length > buffer.Length {
      return 0;
    }
    EncodeLength(data);
    var rest := data;
    var index := 0;
    ghost var text := Encode(data);
    while rest != []
      invariant index + |Encode(rest)| == length <= buffer.Length
      invariant buffer[..index] + Encode(rest) == text
      decreases |rest|
    {
      TextBefore(buffer[..index], rest);
      PutGroup(buffer, index, GroupText(rest));
      rest := rest[GroupSize(rest)..];
      index := index + 4;
    }
    assert buffer[..index] + "" == buffer[..index];
  }

  lemma TextBefore(done: string, data: seq<byte>)
    requires data != []
    ensures var more := Encode(data[GroupSize(data)..]);
            done + Encode(data) == done + GroupText(data) + more && |Encode(data)| == 4 + |more|
  {
    EncodeNext(data);
    var more := Encode(data[GroupSize(data)..]);
    assert done + (GroupText(data) + more) == done + GroupText(data) + more;
  }

  // The third and fourth symbol of a group, in the order of the source: every
  // byte is written before the next symbol is looked at.
  method TakeMore(t: string, j: nat, buffer: array<byte>, size: nat, v2: nat) returns (ok: bool, k: nat)
    requires 4 * j + 2 <= |t| && size == GetDecodedSize(t) <= buffer.Length
    modifies buffer
    ensures k <= 2 && 3 * j + 1 + k <= buffer.Length && buffer[..3 * j + 1] == old(buffer[..3 * j + 1])
    ensures MoreBytes(t, 4 * j, 3 * j, size, v2) ==
            if ok then Some(buffer[3 * j + 1..3 * j + 1 + k]) else None
  {
    var i, n := 4 * j, 3 * j + 1;
    SizeAt(t, j);
    assert buffer[n..n] == [];
    ok, k := false, 0;
    if i + 2 >= |t| {
      return true, 0;
    }
    if t[i + 2] == PADDING {
      return n == size, 0;
    }
    var v3 := ValueOf(t[i + 2]);
    if v3 >= 64 {
      return;
    }
    buffer[n] := Second(v2, v3);
    assert buffer[n..n + 1] == [Second(v2, v3)];
    if i + 3 >= |t| {
      return true, 1;
    }
    if t[i + 3] == PADDING {
      return n + 1 == size, 1;
    }
    var v4 := ValueOf(t[i + 3]);
    if v4 >= 64 {
      return;
    }
    buffer[n + 1] := Third(v3, v4);
    assert buffer[n..n + 2] == [Second(v2, v3), Third(v3, v4)];
    ok, k := true, 2;
  }

  // One group. Zero bytes on an error.
  method TakeGroup(t: string, j: nat, buffer: array<byte>, size: nat) returns (k: nat)
    requires 4 * j < |t| && size == GetDecodedSize(t) <= buffer.Length
    modifies buffer
    ensures k <= 3 && 3 * j + k <= buffer.Length && buffer[..3 * j] == old(buffer[..3 * j])
    ensures GroupBytes(t, 4 * j, 3 * j, size) == if k == 0 then None else Some(buffer[3 * j..3 * j + k])
  {
    var i, n := 4 * j, 3 * j;
    SizeAt(t, j);
    if |t| - i < 2 {
      return 0;
    }
    var v1, v2 := ValueOf(t[i]), ValueOf(t[i + 1]);
    if v1 >= 64 || v2 >= 64 {
      return 0;
    }
    buffer[n] := First(v1, v2);
    ghost var was := buffer[..n + 1];
    var ok, more := TakeMore(t, j, buffer, size, v2);
    k := if ok then 1 + more else 0;
    assert buffer[n] == was[n] && buffer[..n] == was[..n];
    assert buffer[n..n + 1 + more] == [buffer[n]] + buffer[n + 1..n + 1 + more];
  }

  lemma DecodeStep(t: string, i: nat, n: nat, size: nat, g: seq<byte>)
    requires i < |t| && GroupBytes(t, i, n, size) == Some(g)
    ensures DecodeFrom(t, i, n, size) == After(g, DecodeFrom(t, i + 4, n + |g|, size))
  {
  }

  lemma AfterBoth(done: seq<byte>, g: seq<byte>, rest: Option<seq<byte>>)
    ensures After(done, After(g, rest)) == After(done + g, rest)
  {
    if rest.Some? { assert done + (g + rest.value) == done + g + rest.value; }
  }

  lemma DecodeNext(t: string, j: nat, n: nat, size: nat, done: seq<byte>, g: seq<byte>)
    requires 4 * j < |t| && GroupBytes(t, 4 * j, n, size) == Some(g)
    ensures Outcome(t, j, n, size, done) == Outcome(t, j + 1, n + |g|, size, done + g)
  {
    DecodeStep(t, 4 * j, n, size, g);
    AfterBoth(done, g, DecodeFrom(t, 4 * j + 4, n + |g|, size));
  }

  ghost function After(done: seq<byte>, rest: Option<seq<byte>>): Option<seq<byte>> {
    if rest.Some? then Some(done + rest.value) else None
  }

  // The result when j rounds are over, with n bytes written, `done`.
  ghost function Outcome(t: string, j: nat, n: nat, size: nat, done: seq<byte>): Option<seq<byte>> {
    After(done, DecodeFrom(t, 4 * j, n, size))
  }

  ghost predicate StandsForOutcome(f: (nat, nat, seq<byte>) -> Option<seq<byte>>, t: string, size: nat) {
    forall j, n, done {:trigger Outcome(t, j, n, size, done)} :: f(j, n, done) == Outcome(t, j, n, size, done)
  }

  lemma AtStart(f: (nat, nat, seq<byte>) -> Option<seq<byte>>, t: string, size: nat)
    requires StandsForOutcome(f, t, size)
    ensures f(0, 0, []) == DecodeFrom(t, 0, 0, size)
  {
    var whole := DecodeFrom(t, 0, 0, size);
    assert f(0, 0, []) == Outcome(t, 0, 0, size, []);
    if whole.Some? { assert [] + whole.value == whole.value; }
  }

  lemma AtEnd(f: (nat, nat, seq<byte>) -> Option<seq<byte>>, t: string, j: nat, n: nat, size: nat, done: seq<byte>)
    requires StandsForOutcome(f, t, size) && 4 * j >= |t|
    ensures f(j, n, done) == Some(done)
  {
    assert f(j, n, done) == Outcome(t, j, n, size, done);
    assert done + [] == done;
  }

  // One round of the loop; zero bytes on an error.
  method Round(t: string, j: nat, buffer: array<byte>, size: nat, ghost f: (nat, nat, seq<byte>) -> Option<seq<byte>>)
    returns (k: nat)
    requires 4 * j < |t| && size == GetDecodedSize(t) <= buffer.Length && 3 * j <= size
    requires StandsForOutcome(f, t, size)
    modifies buffer
    ensures 3 * j + k <= size && (k > 0 && 4 * (j + 1) < |t| ==> k == 3)
    ensures f(j, 3 * j, old(buffer[..3 * j])) == if k == 0 then None else f(j + 1, 3 * j + k, buffer[..3 * j + k])
  {
    ghost var done := buffer[..3 * j];
    assert f(j, 3 * j, done) == Outcome(t, j, 3 * j, size, done);
    k := TakeGroup(t, j, buffer, size);
    if k > 0 {
      GroupWithin(t, j);
      DecodeNext(t, j, 3 * j, size, done, buffer[3 * j..3 * j + k]);
      assert buffer[..3 * j + k] == done + buffer[3 * j..3 * j + k];
      assert f(j + 1, 3 * j + k, buffer[..3 * j + k]) == Outcome(t, j + 1, 3 * j + k, size, buffer[..3 * j + k]);
    }
  }

  // The loop of utils_base64Decode
  method Rounds(t: string, buffer: array<byte>, size: nat, ghost f: (nat, nat, seq<byte>) -> Option<seq<byte>>)
    returns (ok: bool)
    requires size == GetDecodedSize(t) <= buffer.Length && StandsForOutcome(f, t, size)
    requires f(0, 0, []).Some? ==> |f(0, 0, []).value| == size
    modifies buffer
    ensures f(0, 0, []) == if ok then Some(buffer[..size]) else None
  {
    var j: nat, n: nat := 0, 0;
    assert buffer[..0] == [];
    while 4 * j < |t|
      invariant n <= size <= buffer.Length && (4 * j < |t| ==> n == 3 * j)
      invariant f(0, 0, []) == f(j, n, buffer[..n])
      decreases |t| - 4 * j
    {
      var k := Round(t, j, buffer, size, f);
      if k == 0 {
        return false;
      }
      j, n := j + 1, n + k;
    }
    AtEnd(f, t, j, n, size, buffer[..n]);
    ok := true;
  }

  // utils_base64Decode; zero when the text is refused or the buffer too small.
  method DecodeInto(t: string, buffer: array<byte>) returns (length: nat)
    modifies buffer
    ensures GetDecodedSize(t) > buffer.Length || Decode(t) == None ==> length == 0
    ensures GetDecodedSize(t) <= buffer.Length && Decode(t).Some? ==>
              length == GetDecodedSize(t) && buffer[..length] == Decode(t).value
  {
    var size := GetDecodedSize(t);
    if size > buffer.Length {
      return 0;
    }
    ghost var f := (j: nat, n: nat, done: seq<byte>) => Outcome(t, j, n, size, done);
    AtStart(f, t, size);
    if Decode(t).Some? { DecodeSize(t); }
    var ok := Rounds(t, buffer, size, f);
    length := if ok then size else 0;
  }
}
