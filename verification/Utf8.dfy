// UTF-8 as RFC 3629 defines it, in the shape the Go standard library's decoder reports it:
// the width of the scalar that starts at a position, or nothing when none does.
module Utf8 {
  type Byte = b: int | 0 <= b < 256

  // What a lenient decoder substitutes for a scalar it cannot represent.
  const RUNE_ERROR := 0xFFFD

  predicate IsScalar(v: int) {
    0 <= v < 0xD800 || 0xE000 <= v < 0x110000
  }

  predicate IsTail(b: Byte) {
    0x80 <= b < 0xC0
  }

  function Tail(v: nat): Byte {
    0x80 + v % 64
  }

  function Encode(v: int): (bytes: seq<Byte>)
    requires IsScalar(v)
    ensures 1 <= |bytes| <= 4
    ensures v < 0x80 <==> |bytes| == 1
    ensures v >= 0x80 ==> forall k :: 0 <= k < |bytes| ==> bytes[k] >= 0x80
  {
    if v < 0x80 then [v]
    else if v < 0x800 then [0xC0 + v / 64, Tail(v)]
    else if v < 0x10000 then [0xE0 + v / 64 / 64, Tail(v / 64), Tail(v)]
    else [0xF0 + v / 64 / 64 / 64, Tail(v / 64 / 64), Tail(v / 64), Tail(v)]
  }

  // The second byte of a longer form is restricted so that no scalar has two encodings,
  // no surrogate has one and nothing lies above 0x10FFFF.
  predicate SecondByte(first: Byte, second: Byte) {
    if first == 0xE0 then 0xA0 <= second < 0xC0
    else if first == 0xED then 0x80 <= second < 0xA0
    else if first == 0xF0 then 0x90 <= second < 0xC0
    else if first == 0xF4 then 0x80 <= second < 0x90
    else IsTail(second)
  }

  // The width of the scalar that starts at `i`; zero when the bytes there are not UTF-8.
  function WidthAt(raw: seq<Byte>, i: nat): (w: nat)
    ensures w <= 4 && (w > 0 ==> i + w <= |raw|)
  {
    if i >= |raw| then 0
    else if raw[i] < 0x80 then 1
    else if 0xC2 <= raw[i] < 0xE0 then
      if i + 1 < |raw| && IsTail(raw[i + 1]) then 2 else 0
    else if 0xE0 <= raw[i] < 0xF0 then
      if i + 2 < |raw| && SecondByte(raw[i], raw[i + 1]) && IsTail(raw[i + 2]) then 3 else 0
    else if 0xF0 <= raw[i] < 0xF5 then
      if i + 3 < |raw| && SecondByte(raw[i], raw[i + 1]) && IsTail(raw[i + 2]) && IsTail(raw[i + 3]) then 4 else 0
    else 0
  }

  function ScalarAt(raw: seq<Byte>, i: nat): int
    requires WidthAt(raw, i) > 0
  {
    var w := WidthAt(raw, i);
    if w == 1 then raw[i]
    else if w == 2 then Join(raw[i] - 0xC0, raw[i + 1])
    else if w == 3 then Join(Join(raw[i] - 0xE0, raw[i + 1]), raw[i + 2])
    else Join(Join(Join(raw[i] - 0xF0, raw[i + 1]), raw[i + 2]), raw[i + 3])
  }

  // Six more bits taken from a tail byte.
  function Join(high: int, tail: Byte): int {
    high * 64 + (tail - 0x80)
  }

  lemma JoinSplits(high: int, tail: Byte)
    requires high >= 0 && IsTail(tail)
    ensures Join(high, tail) / 64 == high && Join(high, tail) % 64 == tail - 0x80
  {
  }

  // Decoding reads back what encoding wrote, wherever it stands in a longer input.
  lemma EncodeThenDecode(raw: seq<Byte>, i: nat, v: int)
    requires IsScalar(v)
    requires i + |Encode(v)| <= |raw| && raw[i..i + |Encode(v)|] == Encode(v)
    ensures WidthAt(raw, i) == |Encode(v)|
    ensures ScalarAt(raw, i) == v
  {
    var bytes := Encode(v);
    assert forall k :: 0 <= k < |bytes| ==> raw[i + k] == bytes[k] by {
      forall k | 0 <= k < |bytes| ensures raw[i + k] == bytes[k] {
        assert raw[i..i + |bytes|][k] == raw[i + k];
      }
    }
    if |bytes| == 1 {
      assert raw[i + 0] == bytes[0];
    } else if |bytes| == 2 {
      assert raw[i + 0] == bytes[0] && raw[i + 1] == bytes[1];
    } else if |bytes| == 3 {
      assert raw[i + 0] == bytes[0] && raw[i + 1] == bytes[1] && raw[i + 2] == bytes[2];
    } else {
      assert raw[i + 0] == bytes[0] && raw[i + 1] == bytes[1] && raw[i + 2] == bytes[2] && raw[i + 3] == bytes[3];
    }
  }

  lemma OneByte(a: Byte)
    requires a < 0x80
    ensures IsScalar(a) && Encode(a) == [a]
  {
  }

  lemma TwoBytes(a: Byte, b: Byte)
    requires 0xC2 <= a < 0xE0 && IsTail(b)
    ensures var v := Join(a - 0xC0, b); IsScalar(v) && Encode(v) == [a, b]
  {
    JoinSplits(a - 0xC0, b);
  }

  lemma ThreeBytes(a: Byte, b: Byte, c: Byte)
    requires 0xE0 <= a < 0xF0 && SecondByte(a, b) && IsTail(c)
    ensures var v := Join(Join(a - 0xE0, b), c); IsScalar(v) && Encode(v) == [a, b, c]
  {
    var high := Join(a - 0xE0, b);
    var v := Join(high, c);
    JoinSplits(a - 0xE0, b);
    JoinSplits(high, c);
    assert 0x20 <= high < 0x400 && !(0x360 <= high < 0x380);
    assert 0x800 <= v < 0x10000 && IsScalar(v);
    assert Tail(v) == c && Tail(v / 64) == b && v / 64 / 64 == a - 0xE0;
  }

  lemma TailOf(high: int, tail: Byte)
    requires high >= 0 && IsTail(tail)
    ensures Join(high, tail) >= 0 && Tail(Join(high, tail)) == tail && Join(high, tail) / 64 == high
    ensures high * 64 <= Join(high, tail) < high * 64 + 64
  {
    JoinSplits(high, tail);
  }

  lemma TopOfFour(a: Byte, b: Byte)
    requires 0xF0 <= a < 0xF5 && SecondByte(a, b)
    ensures IsTail(b) && 0x10 <= Join(a - 0xF0, b) < 0x110
  {
  }

  lemma FourBytes(a: Byte, b: Byte, c: Byte, d: Byte)
    requires 0xF0 <= a < 0xF5 && SecondByte(a, b) && IsTail(c) && IsTail(d)
    ensures var v := Join(Join(Join(a - 0xF0, b), c), d); IsScalar(v) && Encode(v) == [a, b, c, d]
  {
    TopOfFour(a, b);
    hide Join, Tail, SecondByte, IsTail, Encode;
    var top := Join(a - 0xF0, b);
    var high := Join(top, c);
    var v := Join(high, d);
    TailOf(a - 0xF0, b);
    TailOf(top, c);
    TailOf(high, d);
    assert 0x10000 <= v < 0x110000;
    EncodeFour(v, high, top, a - 0xF0);
  }

  lemma EncodeFour(v: int, high: int, top: int, lead: int)
    requires 0x10000 <= v < 0x110000 && v / 64 == high && high / 64 == top && top / 64 == lead
    ensures IsScalar(v) && 0 <= lead < 0x10 && Encode(v) == [lead + 0xF0, Tail(top), Tail(high), Tail(v)]
  {
    hide Tail;
  }

  // Whatever decodes is a scalar, and its bytes are the only encoding of it.
  lemma DecodeThenEncode(raw: seq<Byte>, i: nat)
    requires WidthAt(raw, i) > 0
    ensures IsScalar(ScalarAt(raw, i))
    ensures raw[i..i + WidthAt(raw, i)] == Encode(ScalarAt(raw, i))
  {
    hide Encode, Join, IsScalar;
    var w := WidthAt(raw, i);
    if w == 1 {
      OneByte(raw[i]);
      assert raw[i..i + w] == [raw[i]];
    } else if w == 2 {
      TwoBytes(raw[i], raw[i + 1]);
      assert raw[i..i + w] == [raw[i], raw[i + 1]];
    } else if w == 3 {
      ThreeBytes(raw[i], raw[i + 1], raw[i + 2]);
      assert raw[i..i + w] == [raw[i], raw[i + 1], raw[i + 2]];
    } else {
      FourBytes(raw[i], raw[i + 1], raw[i + 2], raw[i + 3]);
      assert raw[i..i + w] == [raw[i], raw[i + 1], raw[i + 2], raw[i + 3]];
    }
  }

  // A byte string that is a run of scalars from `i` on.
  predicate ValidFrom(raw: seq<Byte>, i: nat)
    requires i <= |raw|
    decreases |raw| - i
  {
    i == |raw| || (WidthAt(raw, i) > 0 && ValidFrom(raw, i + WidthAt(raw, i)))
  }

  predicate Valid(raw: seq<Byte>) {
    ValidFrom(raw, 0)
  }

  // Every byte of a longer form has its high bit set; a single byte is the scalar itself.
  lemma WideBytes(raw: seq<Byte>, i: nat)
    requires WidthAt(raw, i) > 0
    ensures WidthAt(raw, i) == 1 <==> raw[i] < 0x80
    ensures WidthAt(raw, i) > 1 ==> forall k :: i <= k < i + WidthAt(raw, i) ==> raw[k] >= 0x80
    ensures ScalarAt(raw, i) < 0x80 <==> raw[i] < 0x80
  {
    DecodeThenEncode(raw, i);
    var w := WidthAt(raw, i);
    forall k | i <= k < i + w ensures raw[k] == Encode(ScalarAt(raw, i))[k - i] {
      assert raw[i..i + w][k - i] == raw[k];
    }
  }

  lemma {:induction false} ValidFromJoin(a: seq<Byte>, b: seq<Byte>, i: nat)
    requires i <= |a| && ValidFrom(a, i) && Valid(b)
    ensures ValidFrom(a + b, i)
    decreases |a| - i
  {
    if i == |a| {
      ValidFromShift(a, b, 0);
    } else {
      SameWidth(a, a + b, i, 0);
      ValidFromJoin(a, b, i + WidthAt(a, i));
    }
  }

  // Widths depend on the bytes ahead alone.
  lemma SameWidth(a: seq<Byte>, b: seq<Byte>, i: nat, shift: nat)
    requires WidthAt(a, i) > 0 && i + WidthAt(a, i) + shift <= |b|
    requires forall k :: i <= k < i + WidthAt(a, i) ==> b[k + shift] == a[k]
    ensures WidthAt(b, i + shift) == WidthAt(a, i)
  {
    assert b[i + 0 + shift] == a[i + 0];
    if WidthAt(a, i) > 1 { assert b[i + 1 + shift] == a[i + 1]; }
    if WidthAt(a, i) > 2 { assert b[i + 2 + shift] == a[i + 2]; }
    if WidthAt(a, i) > 3 { assert b[i + 3 + shift] == a[i + 3]; }
  }

  lemma {:induction false} ValidFromShift(a: seq<Byte>, b: seq<Byte>, i: nat)
    requires i <= |b| && ValidFrom(b, i)
    ensures ValidFrom(a + b, |a| + i)
    decreases |b| - i
  {
    if i < |b| {
      SameWidth(b, a + b, i, |a|);
      ValidFromShift(a, b, i + WidthAt(b, i));
    }
  }

  // Valid texts join to a valid text.
  lemma ValidJoin(a: seq<Byte>, b: seq<Byte>)
    requires Valid(a) && Valid(b)
    ensures Valid(a + b)
  {
    ValidFromJoin(a, b, 0);
  }

  lemma {:induction false} AsciiFrom(a: seq<Byte>, i: nat)
    requires i <= |a| && forall k :: i <= k < |a| ==> a[k] < 0x80
    ensures ValidFrom(a, i)
    decreases |a| - i
  {
    if i < |a| { AsciiFrom(a, i + 1); }
  }

  lemma AsciiIsValid(a: seq<Byte>)
    requires forall k :: 0 <= k < |a| ==> a[k] < 0x80
    ensures Valid(a)
  {
    AsciiFrom(a, 0);
  }
}
