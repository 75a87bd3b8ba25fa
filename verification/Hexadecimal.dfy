/** Bytes, their hexadecimal text, and the search for one byte string in another. */
module Hexadecimal {
  import opened Wrappers
  import opened JsonText

  /** A Java `byte`. */
  type Byte = b: int | -128 <= b < 128

  type Bytes = seq<Byte>

  /** `b & 0xff`. */
  function Unsigned(b: Byte): int {
    if b < 0 then b + 256 else b
  }

  /** The cast of an unsigned byte to `byte`. */
  function Narrowed(n: int): Byte
    requires 0 <= n < 256
  {
    if n >= 128 then n - 256 else n
  }

  /** The digit at place k of the hexadecimal text. */
  function DigitAt(value: Bytes, k: nat): CodeUnit
    requires k < 2 * |value|
  {
    LowerHex(if k % 2 == 0 then Unsigned(value[k / 2]) / 16 else Unsigned(value[k / 2]) % 16)
  }

  function HexText(value: Bytes): (text: Text)
    ensures |text| == 2 * |value|
  {
    seq(2 * |value|, k requires 0 <= k < 2 * |value| => DigitAt(value, k))
  }

  predicate AllHex(text: Text) {
    forall k :: 0 <= k < |text| ==> HexValue(text[k]) >= 0
  }

  /** The byte two digits stand for. */
  function Pair(high: CodeUnit, low: CodeUnit): Byte
    requires HexValue(high) >= 0 && HexValue(low) >= 0
  {
    HexValueBelowSixteen(high);
    HexValueBelowSixteen(low);
    Narrowed(HexValue(high) * 16 + HexValue(low))
  }

  /** None is the exception for an odd length or a unit that is no digit. */
  function BytesOf(text: Text): Option<Bytes> {
    if |text| % 2 != 0 || !AllHex(text) then None
    else Some(seq(|text| / 2, i requires 0 <= i < |text| / 2 => Pair(text[2 * i], text[2 * i + 1])))
  }

  lemma PairsAreBytes(text: Text, bytes: Bytes)
    requires |text| == 2 * |bytes| && forall k :: 0 <= k < |text| ==> HexValue(text[k]) >= 0
    requires forall i :: 0 <= i < |bytes| ==> bytes[i] == Pair(text[2 * i], text[2 * i + 1])
    ensures BytesOf(text) == Some(bytes)
  {
    assert AllHex(text);
    assert BytesOf(text).value == bytes;
  }

  method Hex(value: array<Byte>) returns (text: Text)
    ensures text == HexText(value[..])
  {
    var digits: Text := seq(16, i requires 0 <= i < 16 => LowerHex(i));
    var out := new CodeUnit[2 * value.Length](_ => ZERO);
    for i := 0 to value.Length
      invariant forall k :: 0 <= k < 2 * i ==> out[k] == DigitAt(value[..], k)
    {
      var current := Unsigned(value[i]);
      out[i * 2] := digits[current / 16];
      out[i * 2 + 1] := digits[current % 16];
    }
    text := out[..];
  }

  method Unhex(text: Text) returns (result: Option<Bytes>)
    ensures result == BytesOf(text)
  {
    if |text| % 2 != 0 {
      return None;
    }
    var out := new Byte[|text| / 2](_ => 0);
    for i := 0 to out.Length
      invariant forall k :: 0 <= k < 2 * i ==> HexValue(text[k]) >= 0
      invariant forall k :: 0 <= k < i ==> out[k] == Pair(text[2 * k], text[2 * k + 1])
    {
      var high, low := HexValue(text[i * 2]), HexValue(text[i * 2 + 1]);
      if high < 0 || low < 0 {
        return None;
      }
      HexValueBelowSixteen(text[i * 2]);
      HexValueBelowSixteen(text[i * 2 + 1]);
      out[i] := Narrowed(high * 16 + low);
    }
    PairsAreBytes(text, out[..]);
    result := Some(out[..]);
  }

  lemma LowerHexValue(n: int)
    requires 0 <= n < 16
    ensures HexValue(LowerHex(n)) == n
  {}

  lemma NibblesOf(b: Byte)
    ensures Narrowed(Unsigned(b) / 16 * 16 + Unsigned(b) % 16) == b
  {}

  lemma PairOfDigits(value: Bytes, i: nat)
    requires i < |value|
    ensures HexValue(DigitAt(value, 2 * i)) >= 0 && HexValue(DigitAt(value, 2 * i + 1)) >= 0
    ensures Pair(DigitAt(value, 2 * i), DigitAt(value, 2 * i + 1)) == value[i]
  {
    var n := Unsigned(value[i]);
    assert (2 * i) / 2 == i && (2 * i + 1) / 2 == i;
    LowerHexValue(n / 16);
    LowerHexValue(n % 16);
    NibblesOf(value[i]);
  }

  /** Every byte string survives being written and read. */
  lemma BytesRoundTrip(value: Bytes)
    ensures BytesOf(HexText(value)) == Some(value)
  {
    var text := HexText(value);
    forall k | 0 <= k < |text| ensures HexValue(text[k]) >= 0 {
      PairOfDigits(value, k / 2);
      assert k == 2 * (k / 2) || k == 2 * (k / 2) + 1;
    }
    assert AllHex(text);
    var back := BytesOf(text).value;
    forall i | 0 <= i < |value| ensures back[i] == value[i] {
      PairOfDigits(value, i);
    }
    assert back == value;
  }

  lemma LowerHexExactly(c: CodeUnit)
    requires HexValue(c) >= 0
    ensures HexValue(c) < 16 && (LowerHex(HexValue(c)) == c <==> IsLowerHex(c))
  {
    HexValueBelowSixteen(c);
  }

  lemma DigitsOfPair(high: CodeUnit, low: CodeUnit)
    requires HexValue(high) >= 0 && HexValue(low) >= 0
    ensures HexValue(high) < 16 && HexValue(low) < 16
    ensures Unsigned(Pair(high, low)) / 16 == HexValue(high) && Unsigned(Pair(high, low)) % 16 == HexValue(low)
  {
    HexValueBelowSixteen(high);
    HexValueBelowSixteen(low);
  }

  lemma DigitWrittenBack(text: Text, k: nat)
    requires BytesOf(text).Some? && k < |text|
    ensures |HexText(BytesOf(text).value)| == |text|
    ensures HexText(BytesOf(text).value)[k] == text[k] <==> IsLowerHex(text[k])
  {
    DigitIs(text, k);
    LowerHexExactly(text[k]);
  }

  lemma DigitIs(text: Text, k: nat)
    requires BytesOf(text).Some? && k < |text|
    ensures |HexText(BytesOf(text).value)| == |text| && 0 <= HexValue(text[k]) < 16
    ensures HexText(BytesOf(text).value)[k] == LowerHex(HexValue(text[k]))
  {
    var i := k / 2;
    DigitsOfPair(text[2 * i], text[2 * i + 1]);
    assert k == if k % 2 == 0 then 2 * i else 2 * i + 1;
  }

  /** Reading accepts more spellings than writing uses: a text comes back exactly when its digits are lower-case ASCII. */
  lemma TextRoundTripsExactly(text: Text)
    requires BytesOf(text).Some?
    ensures HexText(BytesOf(text).value) == text <==> forall k :: 0 <= k < |text| ==> IsLowerHex(text[k])
  {
    var back := HexText(BytesOf(text).value);
    forall k | 0 <= k < |text| ensures |back| == |text| && (back[k] == text[k] <==> IsLowerHex(text[k])) {
      DigitWrittenBack(text, k);
    }
  }

  // ---------------------------------------------------------------- the text as a number

  /** Digits read as a number in base 16, most significant first. */
  function Base16(digits: seq<int>): int {
    if digits == [] then 0 else Base16(digits[..|digits| - 1]) * 16 + digits[|digits| - 1]
  }

  /** Bytes read as a number in base 256, most significant first. */
  function Base256(bytes: seq<int>): int {
    if bytes == [] then 0 else Base256(bytes[..|bytes| - 1]) * 256 + bytes[|bytes| - 1]
  }

  function DigitValues(text: Text): (values: seq<int>)
    ensures |values| == |text|
  {
    seq(|text|, k requires 0 <= k < |text| => HexValue(text[k]))
  }

  function ByteValues(value: Bytes): (values: seq<int>)
    ensures |values| == |value|
  {
    seq(|value|, k requires 0 <= k < |value| => Unsigned(value[k]))
  }

  lemma OneByteMore(value: Bytes)
    requires value != []
    ensures var (n, u) := (|value| - 1, Unsigned(value[|value| - 1]));
            && DigitValues(HexText(value)) == DigitValues(HexText(value[..n])) + [u / 16, u % 16]
            && ByteValues(value) == ByteValues(value[..n]) + [u]
  {
    var n, u := |value| - 1, Unsigned(value[|value| - 1]);
    LowerHexValue(u / 16);
    LowerHexValue(u % 16);
    forall k | 0 <= k < 2 * n ensures DigitAt(value, k) == DigitAt(value[..n], k) {
      assert value[..n][k / 2] == value[k / 2];
    }
    assert (2 * n) / 2 == n && (2 * n + 1) / 2 == n;
  }

  lemma Base16More(front: seq<int>, u: int)
    requires 0 <= u < 256
    ensures Base16(front + [u / 16, u % 16]) == Base16(front) * 256 + u
  {
    var all := front + [u / 16, u % 16];
    assert all[..|all| - 1] == front + [u / 16];
    assert (front + [u / 16])[..|front|] == front;
  }

  lemma Base256More(front: seq<int>, u: int)
    ensures Base256(front + [u]) == Base256(front) * 256 + u
  {
    assert (front + [u])[..|front|] == front;
  }

  /** The hexadecimal text, read as a number in base 16, is the bytes read as a number in base 256. */
  lemma {:induction false} HexIsPositional(value: Bytes)
    ensures Base16(DigitValues(HexText(value))) == Base256(ByteValues(value))
  {
    if value != [] {
      var n := |value| - 1;
      HexIsPositional(value[..n]);
      OneByteMore(value);
      Base16More(DigitValues(HexText(value[..n])), Unsigned(value[n]));
      Base256More(ByteValues(value[..n]), Unsigned(value[n]));
    }
  }

  /** The ASCII digits of either case. */
  lemma AsciiDigitValues(n: int)
    requires 0 <= n < 16
    ensures n < 10 ==> HexValue(0x30 + n) == n
    ensures n >= 10 ==> HexValue(0x61 + n - 10) == HexValue(0x41 + n - 10) == n
  {}

  function Capital(c: CodeUnit): CodeUnit {
    if 0x61 <= c <= 0x66 then c - 0x20 else c
  }

  function Capitals(text: Text): (capitals: Text)
    ensures |capitals| == |text|
  {
    seq(|text|, k requires 0 <= k < |text| => Capital(text[k]))
  }

  /** A text in capitals reads as the same bytes. */
  lemma CapitalsRead(text: Text)
    ensures BytesOf(Capitals(text)) == BytesOf(text)
  {
    forall k | 0 <= k < |text| ensures HexValue(Capitals(text)[k]) == HexValue(text[k]) {}
    if |text| % 2 == 0 && AllHex(text) {
      assert BytesOf(Capitals(text)).value == BytesOf(text).value;
    } else if |text| % 2 == 0 {
      var k :| 0 <= k < |text| && HexValue(text[k]) < 0;
      assert HexValue(Capitals(text)[k]) < 0;
    }
  }

  // ---------------------------------------------------------------- the first occurrence

  predicate OccursAt(haystack: Bytes, needle: Bytes, i: int) {
    0 <= i <= |haystack| - |needle| && haystack[i..i + |needle|] == needle
  }

  method IndexOf(haystack: array<Byte>, needle: array<Byte>) returns (index: int)
    ensures index == -1 ==> forall i :: !OccursAt(haystack[..], needle[..], i)
    ensures index != -1 ==> OccursAt(haystack[..], needle[..], index)
                            && forall i :: i < index ==> !OccursAt(haystack[..], needle[..], i)
  {
    ghost var h, n := haystack[..], needle[..];
    var i := 0;
    while i <= haystack.Length - needle.Length
      invariant 0 <= i
      invariant forall k :: k < i ==> !OccursAt(h, n, k)
    {
      var j := 0;
      while j < needle.Length && haystack[i + j] == needle[j]
        invariant 0 <= j <= needle.Length
        invariant forall k :: 0 <= k < j ==> h[i + k] == n[k]
      {
        j := j + 1;
      }
      if j == needle.Length {
        return i;
      }
      assert h[i..i + |n|][j] != n[j];
      i := i + 1;
    }
    index := -1;
  }
}
