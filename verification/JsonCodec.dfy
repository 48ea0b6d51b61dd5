// The two string encoders of the server, byte-wise and scalar-wise, and the decoder that reads
// them back: section 7 of RFC 8259.
module JsonCodec {
  import opened Utf8
  import opened JsonTypes
  import opened JsonGrammar
  import opened JsonString

  const QUOTE: Byte := 0x22

  function HexDigit(n: nat): (b: Byte)
    requires n < 16
    ensures IsHex(b) && Nibble(b) == n
  {
    if n < 10 then 0x30 + n else 0x61 + (n - 10)
  }

  predicate Plain(b: Byte) {
    b >= 0x20 && b != 0x22 && b != 0x5C
  }

  // How one byte is spelled between the quotes.
  function Spelling(b: Byte): (s: seq<Byte>)
    ensures 1 <= |s| <= 6
  {
    if b == 0x22 || b == 0x5C then [0x5C, b]
    else if b == 0x08 then [0x5C, 0x62]
    else if b == 0x0C then [0x5C, 0x66]
    else if b == 0x0A then [0x5C, 0x6E]
    else if b == 0x0D then [0x5C, 0x72]
    else if b == 0x09 then [0x5C, 0x74]
    else if b < 0x20 then [0x5C, 0x75, 0x30, 0x30, HexDigit(b / 16), HexDigit(b % 16)]
    else [b]
  }

  function Body(v: seq<Byte>): (s: seq<Byte>) {
    if v == [] then [] else Spelling(v[0]) + Body(v[1..])
  }

  function Quoted(v: seq<Byte>): (s: seq<Byte>) {
    [QUOTE] + Body(v) + [QUOTE]
  }

  lemma {:induction false} BodyJoin(a: seq<Byte>, b: seq<Byte>)
    ensures Body(a + b) == Body(a) + Body(b)
  {
    if a == [] {
      assert a + b == b;
    } else {
      assert (a + b)[1..] == a[1..] + b;
      BodyJoin(a[1..], b);
    }
  }

  lemma {:induction false} BodyPlain(a: seq<Byte>)
    requires forall k :: 0 <= k < |a| ==> Plain(a[k])
    ensures Body(a) == a
  {
    if a != [] {
      BodyPlain(a[1..]);
      assert a == [a[0]] + a[1..];
    }
  }

  lemma CopyRun(value: seq<Byte>, start: nat, index: nat)
    requires start <= index <= |value| && forall k :: start <= k < index ==> Plain(value[k])
    ensures Body(value[..index]) == Body(value[..start]) + value[start..index]
  {
    assert value[..index] == value[..start] + value[start..index];
    BodyJoin(value[..start], value[start..index]);
    BodyPlain(value[start..index]);
  }

  lemma RunThenByte(prefix: seq<Byte>, value: seq<Byte>, start: nat, index: nat)
    requires start <= index < |value| && forall k :: start <= k < index ==> Plain(value[k])
    ensures prefix + Body(value[..start]) + value[start..index] + Spelling(value[index]) ==
            prefix + Body(value[..index + 1])
  {
    hide Spelling, Plain;
    CopyRun(value, start, index);
    assert value[..index + 1] == value[..index] + [value[index]];
    BodyJoin(value[..index], [value[index]]);
    assert Body([value[index]]) == Spelling(value[index]);
    hide Body;
    Regroup(prefix, Body(value[..start]), value[start..index], Spelling(value[index]));
  }

  lemma Regroup(a: seq<Byte>, b: seq<Byte>, c: seq<Byte>, d: seq<Byte>)
    ensures a + b + c + d == a + (b + c + d)
  {
  }

  // The byte-wise encoder: runs of plain bytes are copied whole.
  method AppendJsonString(dst: seq<Byte>, value: seq<Byte>) returns (out: seq<Byte>)
    ensures out == dst + Quoted(value)
  {
    hide Body, Spelling;
    out := dst + [QUOTE];
    var start := 0;
    var index := 0;
    assert Body(value[..0]) == [] by {
      BodyPlain(value[..0]);
    }
    while index < |value|
      invariant 0 <= start <= index <= |value|
      invariant forall k :: start <= k < index ==> Plain(value[k])
      invariant out == dst + [QUOTE] + Body(value[..start])
    {
      if !Plain(value[index]) {
        RunThenByte(dst + [QUOTE], value, start, index);
        out := out + value[start..index] + Spelling(value[index]);
        start := index + 1;
      }
      index := index + 1;
    }
    CopyRun(value, start, |value|);
    assert value[..|value|] == value;
    out := out + value[start..] + [QUOTE];
  }

  // One scalar of a valid text: spelled out below 0x20 and for the two special bytes, copied otherwise.
  lemma ScalarBody(value: seq<Byte>, index: nat)
    requires WidthAt(value, index) > 0
    ensures
      var size, scalar := WidthAt(value, index), ScalarAt(value, index);
      Body(value[index..index + size]) ==
        if scalar < 0x80 && !Plain(scalar) then Spelling(scalar) else value[index..index + size]
  {
    hide Spelling;
    var size, scalar := WidthAt(value, index), ScalarAt(value, index);
    WideBytes(value, index);
    if scalar < 0x80 && !Plain(scalar) {
      assert value[index..index + size] == [scalar];
      assert Body([scalar]) == Spelling(scalar);
    } else {
      BodyPlain(value[index..index + size]);
    }
  }

  lemma ScalarStep(prefix: seq<Byte>, value: seq<Byte>, index: nat)
    requires WidthAt(value, index) > 0
    ensures
      var size, scalar := WidthAt(value, index), ScalarAt(value, index);
      prefix + Body(value[..index + size]) == prefix + Body(value[..index]) +
        (if scalar < 0x80 && !Plain(scalar) then Spelling(scalar) else value[index..index + size])
  {
    hide Spelling, Body, WidthAt, ScalarAt, Plain;
    var part := value[index..index + WidthAt(value, index)];
    ScalarBody(value, index);
    assert value[..index + WidthAt(value, index)] == value[..index] + part;
    BodyJoin(value[..index], part);
  }

  // The scalar-wise encoder, which refuses malformed UTF-8 before emitting anything.
  method EncodeQuotedScalar(value: seq<Byte>) returns (ok: bool, emitted: seq<Byte>)
    ensures ok <==> Valid(value)
    ensures emitted == if ok then Quoted(value) else []
  {
    hide Body, Spelling, WidthAt;
    if !Valid(value) {
      return false, [];
    }
    emitted := [QUOTE];
    var index := 0;
    assert Body(value[..0]) == [] by {
      BodyPlain(value[..0]);
    }
    while index < |value|
      invariant 0 <= index <= |value| && ValidFrom(value, index)
      invariant emitted == [QUOTE] + Body(value[..index])
    {
      var scalar := ScalarAt(value, index);
      var size := WidthAt(value, index);
      WideBytes(value, index);
      DecodeThenEncode(value, index);
      ScalarStep([QUOTE], value, index);
      if scalar == 0x22 || scalar == 0x5C || scalar < 0x20 {
        emitted := emitted + Spelling(scalar);
      } else {
        emitted := emitted + value[index..index + size];
      }
      index := index + size;
    }
    assert value[..index] == value;
    return true, emitted + [QUOTE];
  }

  lemma AsciiSpelling(b: Byte)
    requires b < 0x80
    ensures forall k :: 0 <= k < |Spelling(b)| ==> Spelling(b)[k] < 0x80
  {
  }

  lemma {:induction false} BodyIsValid(value: seq<Byte>, index: nat)
    requires index <= |value| && ValidFrom(value, index)
    ensures Valid(Body(value[index..]))
    decreases |value| - index
  {
    hide Spelling, WidthAt;
    if index == |value| {
      assert value[index..] == [];
    } else {
      var size := WidthAt(value, index);
      var part, rest := value[index..index + size], value[index + size..];
      BodyIsValid(value, index + size);
      assert value[index..] == part + rest;
      BodyJoin(part, rest);
      PartIsValid(value, index);
      ValidJoin(Body(part), Body(rest));
    }
  }

  lemma PartIsValid(value: seq<Byte>, index: nat)
    requires WidthAt(value, index) > 0
    ensures Valid(Body(value[index..index + WidthAt(value, index)]))
  {
    hide Spelling, Body;
    var size, scalar := WidthAt(value, index), ScalarAt(value, index);
    var part := value[index..index + size];
    ScalarBody(value, index);
    WideBytes(value, index);
    DecodeThenEncode(value, index);
    if scalar < 0x80 && !Plain(scalar) {
      AsciiSpelling(scalar);
      AsciiIsValid(Spelling(scalar));
    } else {
      EncodeThenDecode(part, 0, scalar);
      assert ValidFrom(part, size);
    }
  }

  // What is quoted is valid UTF-8 again.
  lemma QuotedIsValid(value: seq<Byte>)
    requires Valid(value)
    ensures Valid(Quoted(value))
  {
    hide Body;
    assert value[0..] == value;
    BodyIsValid(value, 0);
    AsciiIsValid([QUOTE]);
    ValidJoin([QUOTE], Body(value));
    ValidJoin([QUOTE] + Body(value), [QUOTE]);
  }

  // ---- Reading back ----

  // The bytes of `part` stand at `at`.
  predicate Stands(raw: seq<Byte>, at: nat, part: seq<Byte>) {
    at + |part| <= |raw| && raw[at..at + |part|] == part
  }

  lemma StandsSplit(raw: seq<Byte>, at: nat, a: seq<Byte>, b: seq<Byte>)
    requires Stands(raw, at, a + b)
    ensures Stands(raw, at, a) && Stands(raw, at + |a|, b)
  {
    var whole := raw[at..at + |a| + |b|];
    assert raw[at..at + |a|] == whole[..|a|];
    assert raw[at + |a|..at + |a| + |b|] == whole[|a|..];
  }

  lemma StandsByte(raw: seq<Byte>, at: nat, part: seq<Byte>, k: nat)
    requires Stands(raw, at, part) && k < |part|
    ensures raw[at + k] == part[k]
  {
    assert raw[at..at + |part|][k] == raw[at + k];
  }

  // A spelled byte below 0x80 is read back as itself.
  lemma SpellingReads(raw: seq<Byte>, at: nat, b: Byte, strict: bool)
    requires b < 0x80 && Stands(raw, at, Spelling(b))
    ensures at < |raw| && raw[at] != QUOTE
    ensures Piece(raw, at, strict) == Ok(Scanned([b], at + |Spelling(b)|))
  {
    var s := Spelling(b);
    StandsByte(raw, at, s, 0);
    if |s| == 2 {
      StandsByte(raw, at, s, 1);
    } else if |s| == 6 {
      ControlReads(raw, at, b, strict);
    }
  }

  lemma ControlReads(raw: seq<Byte>, at: nat, b: Byte, strict: bool)
    requires b < 0x20 && |Spelling(b)| == 6 && Stands(raw, at, Spelling(b))
    ensures Escape(raw, at, strict) == Ok(Unit(b, at + 6))
  {
    var s := Spelling(b);
    StandsByte(raw, at, s, 0);
    StandsByte(raw, at, s, 1);
    StandsByte(raw, at, s, 2);
    StandsByte(raw, at, s, 3);
    StandsByte(raw, at, s, 4);
    StandsByte(raw, at, s, 5);
    assert HexValue(raw, at + 2, 1) == 0;
    assert HexValue(raw, at + 2, 2) == 0;
    assert HexValue(raw, at + 2, 3) == b / 16;
  }

  // A longer scalar is copied as it is and read back whole.
  lemma WideReads(raw: seq<Byte>, at: nat, v: seq<Byte>, k: nat, strict: bool)
    requires k < |v| && WidthAt(v, k) > 1
    requires Stands(raw, at, v[k..k + WidthAt(v, k)])
    ensures at < |raw| && raw[at] >= 0x80 && WidthAt(raw, at) == WidthAt(v, k)
    ensures Piece(raw, at, strict) == Ok(Scanned(v[k..k + WidthAt(v, k)], at + WidthAt(v, k)))
  {
    WideBytes(v, k);
    DecodeThenEncode(v, k);
    StandsByte(raw, at, v[k..k + WidthAt(v, k)], 0);
    EncodeThenDecode(raw, at, ScalarAt(v, k));
  }

  // The first scalar of a valid text is read back first.
  lemma HeadReads(raw: seq<Byte>, at: nat, v: seq<Byte>, k: nat, strict: bool)
    requires k < |v| && WidthAt(v, k) > 0
    requires Stands(raw, at, Body(v[k..k + WidthAt(v, k)]))
    ensures
      var head := v[k..k + WidthAt(v, k)];
      |head| > 0 && at < |raw| && raw[at] != QUOTE && Piece(raw, at, strict) == Ok(Scanned(head, at + |Body(head)|))
  {
    hide Piece, Spelling;
    var w := WidthAt(v, k);
    var head := v[k..k + w];
    WideBytes(v, k);
    if w == 1 {
      assert head == [v[k]];
      assert Body(head) == Spelling(v[k]);
      SpellingReads(raw, at, v[k], strict);
    } else {
      BodyPlain(head);
      WideReads(raw, at, v, k, strict);
    }
  }

  lemma HeadThenTail(v: seq<Byte>, k: nat, n: nat, end: seq<Byte>)
    requires k <= n <= |v|
    ensures v[k..] == v[k..n] + v[n..]
    ensures Body(v[k..]) + end == Body(v[k..n]) + (Body(v[n..]) + end)
    ensures |Body(v[k..])| == |Body(v[k..n])| + |Body(v[n..])|
  {
    assert v[k..] == v[k..n] + v[n..];
    BodyJoin(v[k..n], v[n..]);
  }

  lemma {:induction false} BodyReads(raw: seq<Byte>, at: nat, v: seq<Byte>, k: nat, budget: nat, strict: bool)
    requires k <= |v| && ValidFrom(v, k) && |v| - k <= budget
    requires Stands(raw, at, Body(v[k..]) + [QUOTE])
    ensures ScanFrom(raw, at, budget, strict) == Ok(Scanned(v[k..], at + |Body(v[k..])| + 1))
    decreases |v| - k
  {
    hide Piece, Spelling, WidthAt;
    if k == |v| {
      assert v[k..] == [] && Body(v[k..]) + [QUOTE] == [QUOTE];
      StandsByte(raw, at, [QUOTE], 0);
    } else {
      var n := k + WidthAt(v, k);
      HeadThenTail(v, k, n, [QUOTE]);
      StandsSplit(raw, at, Body(v[k..n]), Body(v[n..]) + [QUOTE]);
      HeadReads(raw, at, v, k, strict);
      BodyReads(raw, at + |Body(v[k..n])|, v, n, budget - (n - k), strict);
    }
  }

  // Decoding what the server encoded gives the text back and spans the whole output, wherever
  // the output stands, for a strict reader and for every limit the text itself meets.
  lemma QuotedReads(before: seq<Byte>, v: seq<Byte>, after: seq<Byte>, limit: nat, strict: bool)
    requires Valid(v) && |v| <= limit
    ensures
      var raw := before + Quoted(v) + after;
      StringResult(raw, |before|, limit, strict) == Ok(Scanned(v, |before| + |Quoted(v)|))
  {
    hide ScanFrom;
    var raw := before + Quoted(v) + after;
    assert raw[|before|] == QUOTE;
    assert v[0..] == v;
    assert raw[|before| + 1..|before| + |Quoted(v)|] == Body(v) + [QUOTE];
    BodyReads(raw, |before| + 1, v, 0, limit, strict);
  }

  // The encoder's output is a JSON string by the grammar.
  lemma QuotedIsString(before: seq<Byte>, v: seq<Byte>, after: seq<Byte>)
    requires Valid(v)
    ensures String(before + Quoted(v) + after, |before|, |before| + |Quoted(v)|)
  {
    QuotedReads(before, v, after, |v|, true);
    StringResultMeets(before + Quoted(v) + after, |before|, |v|, true);
  }

  // No two texts share an encoding.
  lemma QuotedInjective(v: seq<Byte>, w: seq<Byte>)
    requires Valid(v) && Valid(w) && Quoted(v) == Quoted(w)
    ensures v == w
  {
    var limit := |v| + |w|;
    QuotedReads([], v, [], limit, true);
    QuotedReads([], w, [], limit, true);
  }
}
