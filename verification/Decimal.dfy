// Numbers as decimal text: printed, and read by the two readers, which differ
// in what they do beyond their width (wakaama/core/utils.c, and prv_parseNumber
// of wakaama/core/uri.c). Text is a sequence of characters, one per byte.
module Decimal {
  import opened Common

  const UINT64_MAX: nat := 0xFFFF_FFFF_FFFF_FFFF

  predicate IsDigit(c: char) { '0' <= c <= '9' }

  function DigitValue(c: char): (d: nat)
    requires IsDigit(c)
    ensures d < 10
  {
    c as int - '0' as int
  }

  function DigitChar(d: nat): (c: char)
    requires d < 10
    ensures IsDigit(c) && DigitValue(c) == d
  {
    (d + '0' as int) as char
  }

  predicate AllDigits(s: string) { forall i :: 0 <= i < |s| ==> IsDigit(s[i]) }

  function Digits(n: nat): (s: string)
    ensures |s| > 0
  {
    if n < 10 then [DigitChar(n)] else Digits(n / 10) + [DigitChar(n % 10)]
  }

  function Numeral(s: string): nat
    requires AllDigits(s)
  {
    if s == "" then 0 else 10 * Numeral(s[..|s| - 1]) + DigitValue(s[|s| - 1])
  }

  lemma NumeralAppend(s: string, c: char)
    requires AllDigits(s) && IsDigit(c)
    ensures AllDigits(s + [c]) && Numeral(s + [c]) == 10 * Numeral(s) + DigitValue(c)
  {
    assert (s + [c])[..|s|] == s;
  }

  lemma {:induction false} NumeralOfDigits(n: nat)
    ensures AllDigits(Digits(n)) && Numeral(Digits(n)) == n
  {
    if n < 10 {
      NumeralAppend("", DigitChar(n));
      assert "" + [DigitChar(n)] == [DigitChar(n)];
    } else {
      NumeralOfDigits(n / 10);
      NumeralAppend(Digits(n / 10), DigitChar(n % 10));
    }
  }

  function Pow10(k: nat): (p: nat)
    ensures p > 0
  {
    if k == 0 then 1 else 10 * Pow10(k - 1)
  }

  lemma {:induction false} DigitsFit(n: nat, k: nat)
    requires k > 0
    ensures |Digits(n)| <= k <==> n < Pow10(k)
  {
    if n < 10 {
      assert Pow10(k) == 10 * Pow10(k - 1) >= 10;
    } else if k > 1 {
      DigitsFit(n / 10, k - 1);
    } else {
      assert Pow10(1) == 10 * Pow10(0);
    }
  }

  lemma IdLength(id: uint16)
    ensures |Digits(id)| <= 5
  {
    DigitsFit(id, 5);
    assert Pow10(5) == 10 * Pow10(4) && Pow10(4) == 10 * Pow10(3) && Pow10(3) == 10 * Pow10(2);
    assert Pow10(2) == 10 * Pow10(1) && Pow10(1) == 10 * Pow10(0);
  }

  lemma ByteLength(b: byte)
    ensures |Digits(b)| <= 3
  {
    DigitsFit(b, 3);
    assert Pow10(3) == 10 * Pow10(2) && Pow10(2) == 10 * Pow10(1) && Pow10(1) == 10 * Pow10(0);
  }

  // ----- Reading ------------------------------------------------------------

  // utils_textToUInt from position i on; the accumulator wraps.
  function UIntFrom(s: string, i: nat, result: nat): Option<nat>
    decreases |s| - i
  {
    if i >= |s| then Some(result)
    else if !IsDigit(s[i]) || result > UINT64_MAX / 10 then None
    else UIntFrom(s, i + 1, (result * 10 + DigitValue(s[i])) % (UINT64_MAX + 1))
  }

  function TextToUInt(s: string): Option<nat> {
    if s == "" then None else UIntFrom(s, 0, 0)
  }

  lemma NumeralStep(s: string, i: nat)
    requires AllDigits(s) && i < |s|
    ensures Numeral(s[..i + 1]) == 10 * Numeral(s[..i]) + DigitValue(s[i])
  {
    NumeralAppend(s[..i], s[i]);
    assert s[..i + 1] == s[..i] + [s[i]];
  }

  lemma {:induction false} NumeralGrows(s: string, i: nat)
    requires AllDigits(s) && i <= |s|
    ensures Numeral(s[..i]) <= Numeral(s)
    decreases |s| - i
  {
    if i < |s| {
      NumeralStep(s, i);
      NumeralGrows(s, i + 1);
    } else {
      assert s[..i] == s;
    }
  }

  lemma UIntStep(s: string, i: nat, r: nat)
    requires i < |s| && IsDigit(s[i]) && r * 10 + DigitValue(s[i]) <= UINT64_MAX
    ensures UIntFrom(s, i, r) == UIntFrom(s, i + 1, r * 10 + DigitValue(s[i]))
  {
  }

  lemma {:induction false} UIntFromSmall(s: string, i: nat)
    requires AllDigits(s) && i <= |s| && Numeral(s) <= UINT64_MAX
    ensures UIntFrom(s, i, Numeral(s[..i])) == Some(Numeral(s))
    decreases |s| - i
  {
    if i < |s| {
      NumeralStep(s, i);
      NumeralGrows(s, i + 1);
      UIntStep(s, i, Numeral(s[..i]));
      UIntFromSmall(s, i + 1);
    } else {
      assert s[..i] == s;
    }
  }

  lemma {:induction false} UIntFromBounded(s: string, i: nat, result: nat)
    requires result <= UINT64_MAX
    ensures UIntFrom(s, i, result).Some? ==> UIntFrom(s, i, result).value <= UINT64_MAX
    ensures UIntFrom(s, i, result).Some? ==> forall k :: i <= k < |s| ==> IsDigit(s[k])
    decreases |s| - i
  {
    if i < |s| && IsDigit(s[i]) && result <= UINT64_MAX / 10 {
      UIntFromBounded(s, i + 1, (result * 10 + DigitValue(s[i])) % (UINT64_MAX + 1));
    }
  }

  // A text reads as the number it denotes exactly when it is a numeral that
  // fits 64 bits.
  lemma TextToUIntIff(s: string)
    ensures TextToUInt(s).Some? ==> AllDigits(s)
    ensures AllDigits(s) ==>
              (TextToUInt(s) == Some(Numeral(s)) <==> s != "" && Numeral(s) <= UINT64_MAX)
  {
    if s != "" {
      UIntFromBounded(s, 0, 0);
      if AllDigits(s) && Numeral(s) <= UINT64_MAX {
        assert s[..0] == "";
        UIntFromSmall(s, 0);
      }
    }
  }

  // Beyond 64 bits a text may be refused or be read as something else: the
  // overflow check misses the last digit.
  lemma TwoToThe64ReadsAsZero()
    ensures TextToUInt(Digits(UINT64_MAX + 1)) == Some(0)
  {
    var n := UINT64_MAX / 10;
    var s := Digits(UINT64_MAX + 1);
    assert s == Digits(n) + [DigitChar(6)];
    NumeralOfDigits(UINT64_MAX + 1);
    NumeralOfDigits(n);
    var k := |s| - 1;
    assert s[..k] == Digits(n) && s[..0] == "";
    PrefixRead(s, 0, k);
    assert s[k] == DigitChar(6) && DigitValue(s[k]) == 6;
    assert UIntFrom(s, k + 1, 0) == Some(0);
  }

  lemma {:induction false} PrefixRead(s: string, i: nat, k: nat)
    requires AllDigits(s) && i <= k <= |s| && Numeral(s[..k]) <= UINT64_MAX
    ensures UIntFrom(s, i, Numeral(s[..i])) == UIntFrom(s, k, Numeral(s[..k]))
    decreases k - i
  {
    if i < k {
      NumeralStep(s, i);
      assert s[..k][..i + 1] == s[..i + 1];
      NumeralGrows(s[..k], i + 1);
      UIntStep(s, i, Numeral(s[..i]));
      PrefixRead(s, i + 1, k);
    }
  }

  lemma DigitsReadBack(n: nat)
    requires n <= UINT64_MAX
    ensures TextToUInt(Digits(n)) == Some(n)
  {
    NumeralOfDigits(n);
    TextToUIntIff(Digits(n));
  }

  // prv_parseNumber: digits up to a '/', with an unchecked accumulator. The
  // result is the number and the position after it.
  function ParseFrom(s: string, head: nat, result: nat): Option<(nat, nat)>
    decreases |s| - head
  {
    if head >= |s| || s[head] == '/' then Some((result, head))
    else if IsDigit(s[head]) then ParseFrom(s, head + 1, result * 10 + DigitValue(s[head]))
    else None
  }

  function ParseNumber(s: string, head: nat): Option<(nat, nat)> {
    if head < |s| && s[head] == '/' then None else ParseFrom(s, head, 0)
  }

  // uri_getNumber
  function GetNumber(s: string): Option<nat> {
    var r := ParseNumber(s, 0);
    if r.Some? then Some(r.value.0) else None
  }

  lemma {:induction false} ParseFromDigits(before: string, n: string, i: nat, rest: string)
    requires AllDigits(n) && i <= |n| && (rest == "" || rest[0] == '/')
    ensures ParseFrom(before + n + rest, |before| + i, Numeral(n[..i])) == Some((Numeral(n), |before| + |n|))
    decreases |n| - i
  {
    var s := before + n + rest;
    if i < |n| {
      assert s[|before| + i] == n[i];
      NumeralStep(n, i);
      ParseFromDigits(before, n, i + 1, rest);
    } else {
      assert n[..i] == n;
      assert rest != "" ==> s[|before| + i] == rest[0];
    }
  }

  lemma ParseDigits(before: string, n: nat, rest: string)
    requires rest == "" || rest[0] == '/'
    ensures ParseNumber(before + Digits(n) + rest, |before|) == Some((n, |before| + |Digits(n)|))
  {
    var d := Digits(n);
    NumeralOfDigits(n);
    assert d[..0] == "" && Numeral("") == 0;
    ParseFromDigits(before, d, 0, rest);
    var s := before + d + rest;
    assert s[|before|] == d[0] && IsDigit(d[0]);
  }

  lemma GetDigits(n: nat)
    ensures GetNumber(Digits(n)) == Some(n)
  {
    ParseDigits("", n, "");
    assert "" + Digits(n) + "" == Digits(n);
  }

  // A text without a '/' is a number exactly when it is a numeral, and then the
  // one it denotes.
  lemma NumberIff(s: string)
    requires s != "" && forall i :: 0 <= i < |s| ==> s[i] != '/'
    ensures GetNumber(s) == if AllDigits(s) then Some(Numeral(s)) else None
  {
    if AllDigits(s) {
      assert s[..0] == "" && "" + s + "" == s;
      ParseFromDigits("", s, 0, "");
    } else {
      var k :| 0 <= k < |s| && !IsDigit(s[k]);
      NotANumber(s, 0, 0, k);
    }
  }

  lemma {:induction false} NotANumber(s: string, i: nat, result: nat, k: nat)
    requires i <= k < |s| && !IsDigit(s[k]) && forall j :: 0 <= j < |s| ==> s[j] != '/'
    ensures ParseFrom(s, i, result) == None
    decreases |s| - i
  {
    if i < k && IsDigit(s[i]) { NotANumber(s, i + 1, result * 10 + DigitValue(s[i]), k); }
  }

  // ----- Writing ------------------------------------------------------------

  function DigitsOrNone(n: nat): string { if n == 0 then "" else Digits(n) }

  lemma DigitsBelow(n: nat, tail: string)
    ensures n > 0 ==> DigitsOrNone(n) + tail == DigitsOrNone(n / 10) + ([DigitChar(n % 10)] + tail)
    ensures Digits(n) == DigitsOrNone(n / 10) + [DigitChar(n % 10)]
  {
    assert "" + [DigitChar(n % 10)] == [DigitChar(n % 10)];
    assert DigitsOrNone(n / 10) + ([DigitChar(n % 10)] + tail) == DigitsOrNone(n / 10) + [DigitChar(n % 10)] + tail;
  }

  // The buffer outside of the part given to a callee is left alone.
  twostate predicate OnlyWithin(buffer: array<char>, at: nat, length: nat)
    requires at + length <= buffer.Length
    reads buffer
  {
    forall k :: 0 <= k < buffer.Length && !(at <= k < at + length) ==> buffer[k] == old(buffer[k])
  }

  lemma DigitsStep(whole: string, left: nat, tail: string)
    requires left > 0 && whole == DigitsOrNone(left) + tail
    ensures whole == DigitsOrNone(left / 10) + ([DigitChar(left % 10)] + tail)
  {
    DigitsBelow(left, tail);
  }

  // The loop of utils_uintToText, after the last digit was written at end - 1.
  method DigitsFromEnd(buffer: array<char>, at: nat, end: nat, leftIn: nat, ghost whole: string)
    returns (index: nat, left: nat)
    requires at < end <= buffer.Length
    requires whole == DigitsOrNone(leftIn) + buffer[end - 1..end]
    modifies buffer
    ensures OnlyWithin(buffer, at, end - at)
    ensures at <= index < end && (left > 0 ==> index == at)
    ensures whole == DigitsOrNone(left) + buffer[index..end]
  {
    left := leftIn;
    index := end - 1;
    ghost var tail := buffer[index..end];
    while index > at && left > 0
      invariant at <= index < end && buffer[index..end] == tail
      invariant whole == DigitsOrNone(left) + tail
      invariant OnlyWithin(buffer, at, end - at)
    {
      DigitsStep(whole, left, tail);
      var c := DigitChar(left % 10);
      index := index - 1;
      buffer[index] := c;
      tail := [c] + tail;
      left := left / 10;
    }
  }

  // memmove towards the start of the buffer.
  method MoveDown(buffer: array<char>, at: nat, from: nat, n: nat)
    requires at <= from && from + n <= buffer.Length
    modifies buffer
    ensures OnlyWithin(buffer, at, n)
    ensures buffer[at..at + n] == old(buffer[from..from + n])
  {
    forall k | 0 <= k < n {
      buffer[at + k] := buffer[from + k];
    }
  }

  // All digits from the end of the buffer, as far as they fit.
  method DigitsAtEnd(data: nat, buffer: array<char>, at: nat, end: nat) returns (index: nat, left: nat)
    requires at < end <= buffer.Length
    modifies buffer
    ensures OnlyWithin(buffer, at, end - at)
    ensures at <= index < end
    ensures left > 0 <==> |Digits(data)| > end - at
    ensures left == 0 ==> buffer[index..end] == Digits(data)
  {
    buffer[end - 1] := DigitChar(data % 10);
    DigitsBelow(data, "");
    assert buffer[end - 1..end] == [DigitChar(data % 10)];
    ghost var whole := Digits(data);
    index, left := DigitsFromEnd(buffer, at, end, data / 10, whole);
    assert |whole| == |DigitsOrNone(left)| + (end - index);
  }

  // utils_uintToText on buffer[at .. at + length]: the digits are moved to its
  // start. Zero when they do not fit.
  method UintToText(data: nat, buffer: array<char>, at: nat, length: nat) returns (result: nat)
    requires at + length <= buffer.Length
    modifies buffer
    ensures result == if |Digits(data)| <= length then |Digits(data)| else 0
    ensures result > 0 ==> buffer[at..at + result] == Digits(data)
    ensures OnlyWithin(buffer, at, length)
  {
    if length == 0 {
      return 0;
    }
    var index, left := DigitsAtEnd(data, buffer, at, at + length);
    if left > 0 {
      return 0;
    }
    result := at + length - index;
    if result < length {
      MoveDown(buffer, at, index, result);
      buffer[at + result] := '\0';
    }
  }

  // utils_textToUInt as written.
  method ReadUInt(s: string) returns (r: Option<nat>)
    ensures r == TextToUInt(s)
  {
    var result: nat := 0;
    if s == "" {
      return None;
    }
    var i := 0;
    while i < |s|
      invariant i <= |s| && UIntFrom(s, i, result) == UIntFrom(s, 0, 0)
    {
      if '0' <= s[i] <= '9' {
        if result > UINT64_MAX / 10 {
          return None;
        }
        result := (result * 10 + DigitValue(s[i])) % (UINT64_MAX + 1);
      } else {
        return None;
      }
      i := i + 1;
    }
    r := Some(result);
  }
}
