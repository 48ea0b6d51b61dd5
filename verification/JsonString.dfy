// Decoding a JSON string: escapes, surrogate pairs, raw UTF-8 and the limit on decoded bytes.
module JsonString {
  import opened Utf8
  import opened JsonTypes
  import opened JsonGrammar

  // One decoded scalar and the position after what spelled it.
  datatype Unit = Unit(scalar: int, next: nat)

  // The decoded bytes of a string and the position after its closing quote.
  datatype Scanned = Scanned(decoded: seq<Byte>, end: nat)

  function Nibble(b: Byte): (n: nat)
    requires IsHex(b)
    ensures n < 16
  {
    if IsDigit(b) then b - 0x30 else if b >= 0x61 then b - 0x61 + 10 else b - 0x41 + 10
  }

  // The value of `n` hexadecimal digits from `i`, most significant first.
  function HexValue(raw: seq<Byte>, i: nat, n: nat): (v: nat)
    requires i + n <= |raw| && forall k :: i <= k < i + n ==> IsHex(raw[k])
  {
    if n == 0 then 0 else HexValue(raw, i, n - 1) * 16 + Nibble(raw[i + n - 1])
  }

  function Hex4(raw: seq<Byte>, i: nat): (r: Result<nat>)
    ensures r.Ok? <==> Hex4At(raw, i)
    ensures r.Ok? ==> r.value < 0x10000
    ensures r.Err? ==> r.failure.kind == Syntax
  {
    if i + 4 > |raw| then Err(Failure(Syntax, |raw|))
    else if !IsHex(raw[i]) then Err(Failure(Syntax, i))
    else if !IsHex(raw[i + 1]) then Err(Failure(Syntax, i + 1))
    else if !IsHex(raw[i + 2]) then Err(Failure(Syntax, i + 2))
    else if !IsHex(raw[i + 3]) then Err(Failure(Syntax, i + 3))
    else Hex4Bound(raw, i); Ok(HexValue(raw, i, 4))
  }

  lemma Hex4Bound(raw: seq<Byte>, i: nat)
    requires Hex4At(raw, i)
    ensures HexValue(raw, i, 4) < 0x10000
  {
    assert HexValue(raw, i, 1) < 16;
    assert HexValue(raw, i, 2) < 256;
    assert HexValue(raw, i, 3) < 4096;
  }

  method DecodeHex4(raw: seq<Byte>, start: nat) returns (r: Result<nat>)
    ensures r == Hex4(raw, start)
  {
    if start + 4 > |raw| {
      return Err(Failure(Syntax, |raw|));
    }
    var value := 0;
    var position := start;
    while position < start + 4
      invariant start <= position <= start + 4
      invariant forall k :: start <= k < position ==> IsHex(raw[k])
      invariant value == HexValue(raw, start, position - start)
    {
      if !IsHex(raw[position]) {
        return Err(Failure(Syntax, position));
      }
      value := value * 16 + Nibble(raw[position]);
      position := position + 1;
    }
    return Ok(value);
  }

  predicate IsHigh(v: int) {
    0xD800 <= v < 0xDC00
  }

  predicate IsLow(v: int) {
    0xDC00 <= v < 0xE000
  }

  function Pair(high: int, low: int): int {
    0x10000 + (high - 0xD800) * 0x400 + (low - 0xDC00)
  }

  // A six-byte escape at `slash`, or a surrogate pair of two of them. An unpaired surrogate is
  // refused by a strict reader and replaced by a lenient one.
  function UnicodeEscape(raw: seq<Byte>, slash: nat, strict: bool): (r: Result<Unit>) {
    var first := Hex4(raw, slash + 2);
    if first.Err? then Err(first.failure)
    else
      var end := slash + 6;
      var second := Hex4(raw, end + 2);
      if IsHigh(first.value) && end + 2 <= |raw| && raw[end] == 0x5C && raw[end + 1] == 0x75 then
        if second.Err? then Err(second.failure)
        else if IsLow(second.value) then Ok(Unit(Pair(first.value, second.value), end + 6))
        else Unpaired(slash, end, strict)
      else if IsHigh(first.value) || IsLow(first.value) then Unpaired(slash, end, strict)
      else Ok(Unit(first.value, end))
  }

  function Unpaired(slash: nat, end: nat, strict: bool): (r: Result<Unit>) {
    if strict then Err(Failure(Unicode, slash)) else Ok(Unit(RUNE_ERROR, end))
  }

  function Escape(raw: seq<Byte>, slash: nat, strict: bool): (r: Result<Unit>) {
    if slash + 1 >= |raw| then Err(Failure(Syntax, |raw|))
    else
      var escape := raw[slash + 1];
      if escape == 0x22 || escape == 0x5C || escape == 0x2F then Ok(Unit(escape, slash + 2))
      else if escape == 0x62 then Ok(Unit(0x08, slash + 2))
      else if escape == 0x66 then Ok(Unit(0x0C, slash + 2))
      else if escape == 0x6E then Ok(Unit(0x0A, slash + 2))
      else if escape == 0x72 then Ok(Unit(0x0D, slash + 2))
      else if escape == 0x74 then Ok(Unit(0x09, slash + 2))
      else if escape == 0x75 then UnicodeEscape(raw, slash, strict)
      else Err(Failure(Syntax, slash + 1))
  }

  // The next decoded piece of a string at a byte that is not the closing quote.
  function Piece(raw: seq<Byte>, i: nat, strict: bool): (r: Result<Scanned>)
    requires i < |raw| && raw[i] != 0x22
  {
    if raw[i] == 0x5C then
      var unit := Escape(raw, i, strict);
      EscapeIsScalar(raw, i, strict);
      if unit.Err? then Err(unit.failure) else Ok(Scanned(Encode(unit.value.scalar), unit.value.next))
    else if raw[i] < 0x20 then Err(Failure(Syntax, i))
    else if raw[i] < 0x80 then Ok(Scanned([raw[i]], i + 1))
    else if WidthAt(raw, i) == 0 then Err(Failure(Unicode, i))
    else Ok(Scanned(raw[i..i + WidthAt(raw, i)], i + WidthAt(raw, i)))
  }

  lemma EscapeIsScalar(raw: seq<Byte>, slash: nat, strict: bool)
    ensures Escape(raw, slash, strict).Ok? ==> IsScalar(Escape(raw, slash, strict).value.scalar)
  {
  }

  // The rest of a string whose characters continue at `i`, with `budget` decoded bytes allowed.
  function ScanFrom(raw: seq<Byte>, i: nat, budget: nat, strict: bool): (r: Result<Scanned>)
    decreases |raw| - i
  {
    if i >= |raw| then Err(Failure(Syntax, |raw|))
    else if raw[i] == 0x22 then Ok(Scanned([], i + 1))
    else
      var piece := Piece(raw, i, strict);
      if piece.Err? then piece
      else if |piece.value.decoded| > budget then Err(Failure(Resource, i))
      else
        PieceIsChars(raw, i, strict);
        var rest := ScanFrom(raw, piece.value.end, budget - |piece.value.decoded|, strict);
        if rest.Err? then rest else Ok(Scanned(piece.value.decoded + rest.value.decoded, rest.value.end))
  }

  function StringResult(raw: seq<Byte>, start: nat, limit: nat, strict: bool): (r: Result<Scanned>) {
    if start >= |raw| || raw[start] != 0x22 then Err(Failure(Syntax, if start < |raw| then start else |raw|))
    else ScanFrom(raw, start + 1, limit, strict)
  }

  // ---- Pieces and the grammar's characters ----

  // A piece is one character of the grammar, or two when it is a surrogate pair, and decodes
  // to no more bytes than it was spelled with.
  lemma PieceIsChars(raw: seq<Byte>, i: nat, strict: bool)
    requires i < |raw| && raw[i] != 0x22
    ensures
      var piece := Piece(raw, i, strict);
      piece.Ok? ==>
        i < piece.value.end <= |raw| && Chars(raw, i, piece.value.end) && CharWidth(raw, i) > 0 &&
        (piece.value.end == i + CharWidth(raw, i) ||
         (CharWidth(raw, i + CharWidth(raw, i)) > 0 && raw[i + CharWidth(raw, i)] == 0x5C &&
          piece.value.end == i + CharWidth(raw, i) + CharWidth(raw, i + CharWidth(raw, i)))) &&
        1 <= |piece.value.decoded| <= piece.value.end - i
  {
  }

  // A budget as large as the rest of the input is no restriction.
  lemma {:induction false} BudgetIsFree(raw: seq<Byte>, i: nat, a: nat, b: nat, strict: bool)
    requires |raw| <= i + a && |raw| <= i + b
    ensures ScanFrom(raw, i, a, strict) == ScanFrom(raw, i, b, strict)
    decreases |raw| - i
  {
    hide Piece, Chars, CharWidth;
    if i < |raw| && raw[i] != 0x22 {
      var piece := Piece(raw, i, strict);
      PieceIsChars(raw, i, strict);
      if piece.Ok? {
        BudgetIsFree(raw, piece.value.end, a - |piece.value.decoded|, b - |piece.value.decoded|, strict);
      }
    }
  }

  // When a piece cannot be read, no character of the grammar starts here, or the failure is an
  // unpaired surrogate, or the broken character is the next one.
  lemma BrokenPiece(raw: seq<Byte>, i: nat, strict: bool)
    requires i < |raw| && raw[i] != 0x22 && Piece(raw, i, strict).Err?
    ensures
      var failure := Piece(raw, i, strict).failure;
      if Malformed(raw, failure) then
        CharWidth(raw, i) == 0 ||
        (i + CharWidth(raw, i) < |raw| && raw[i + CharWidth(raw, i)] == 0x5C
          && CharWidth(raw, i + CharWidth(raw, i)) == 0)
      else strict && failure == Failure(Unicode, i)
  {
  }

  lemma {:induction false} CharsJoin(raw: seq<Byte>, i: nat, n: nat, j: nat)
    requires Chars(raw, i, n) && Chars(raw, n, j)
    ensures Chars(raw, i, j)
    decreases n - i
  {
    if i != n {
      CharsJoin(raw, i + CharWidth(raw, i), n, j);
    }
  }

  // Whatever scans is a string of the grammar.
  lemma {:induction false} ScannedIsChars(raw: seq<Byte>, i: nat, budget: nat, strict: bool)
    requires ScanFrom(raw, i, budget, strict).Ok?
    ensures
      var end := ScanFrom(raw, i, budget, strict).value.end;
      i < end <= |raw| && raw[end - 1] == 0x22 && Chars(raw, i, end - 1)
    decreases |raw| - i
  {
    hide Piece, CharWidth;
    if raw[i] != 0x22 {
      var piece := Piece(raw, i, strict).value;
      PieceIsChars(raw, i, strict);
      ScannedIsChars(raw, piece.end, budget - |piece.decoded|, strict);
      CharsJoin(raw, i, piece.end, ScanFrom(raw, i, budget, strict).value.end - 1);
    }
  }

  // A malformed string is no string of the grammar, whatever the limits were.
  lemma {:induction false} MalformedIsNoChars(raw: seq<Byte>, i: nat, budget: nat, strict: bool, j: nat)
    requires
      var result := ScanFrom(raw, i, budget, strict);
      result.Err? && Malformed(raw, result.failure)
    ensures !(Chars(raw, i, j) && j < |raw| && raw[j] == 0x22)
    decreases |raw| - i
  {
    if i < |raw| && raw[i] != 0x22 && Chars(raw, i, j) && j < |raw| && raw[j] == 0x22 {
      var piece := Piece(raw, i, strict);
      if piece.Err? {
        BrokenPiece(raw, i, strict);
      } else if |piece.value.decoded| <= budget {
        PieceIsChars(raw, i, strict);
        MalformedIsNoChars(raw, piece.value.end, budget - |piece.value.decoded|, strict, j);
      }
    }
  }

  // With nothing to limit or to check beyond the grammar, only malformed text is refused.
  lemma {:induction false} LenientRefusal(raw: seq<Byte>, i: nat, budget: nat)
    requires |raw| <= i + budget && ScanFrom(raw, i, budget, false).Err?
    ensures Malformed(raw, ScanFrom(raw, i, budget, false).failure)
    decreases |raw| - i
  {
    if i < |raw| && raw[i] != 0x22 {
      var piece := Piece(raw, i, false);
      if piece.Err? {
        BrokenPiece(raw, i, false);
      } else {
        PieceIsChars(raw, i, false);
        LenientRefusal(raw, piece.value.end, budget - |piece.value.decoded|);
      }
    }
  }

  // A string scan under any limit, strict or not, finds the grammar's string or explains why not:
  // malformed text exactly when there is none to find, unless another failure comes first.
  lemma StringResultMeets(raw: seq<Byte>, start: nat, limit: nat, strict: bool)
    ensures
      var result := StringResult(raw, start, limit, strict);
      && (result.Ok? ==> String(raw, start, result.value.end))
      && (result.Err? && Malformed(raw, result.failure) ==> forall e: nat :: !String(raw, start, e))
      && (result.Err? && !strict && |raw| <= limit ==> Malformed(raw, result.failure))
  {
    var result := StringResult(raw, start, limit, strict);
    if start < |raw| && raw[start] == 0x22 {
      if result.Ok? {
        ScannedIsChars(raw, start + 1, limit, strict);
      } else {
        if Malformed(raw, result.failure) {
          forall e: nat ensures !String(raw, start, e) {
            if e > 0 {
              MalformedIsNoChars(raw, start + 1, limit, strict, e - 1);
            }
          }
        }
        if !strict && |raw| <= limit {
          LenientRefusal(raw, start + 1, limit);
        }
      }
    }
  }

  // ---- The loop ----

  // A scan resumed after `seen` bytes were already decoded.
  function Resumed(seen: seq<Byte>, rest: Result<Scanned>): Result<Scanned> {
    if rest.Err? then rest else Ok(Scanned(seen + rest.value.decoded, rest.value.end))
  }

  lemma ResumeAfterPiece(raw: seq<Byte>, i: nat, budget: nat, strict: bool, seen: seq<Byte>)
    requires i < |raw| && raw[i] != 0x22
    ensures
      var piece := Piece(raw, i, strict);
      var whole := Resumed(seen, ScanFrom(raw, i, budget, strict));
      if piece.Err? then whole == piece
      else if |piece.value.decoded| > budget then whole == Err(Failure(Resource, i))
      else whole == Resumed(seen + piece.value.decoded,
                            ScanFrom(raw, piece.value.end, budget - |piece.value.decoded|, strict))
  {
    hide Piece;
    var piece := Piece(raw, i, strict);
    if piece.Ok? && |piece.value.decoded| <= budget {
      PieceIsChars(raw, i, strict);
      var rest := ScanFrom(raw, piece.value.end, budget - |piece.value.decoded|, strict);
      if rest.Ok? {
        assert seen + (piece.value.decoded + rest.value.decoded) == seen + piece.value.decoded + rest.value.decoded;
      }
    }
  }

  lemma ResumeAtEnd(raw: seq<Byte>, i: nat, budget: nat, strict: bool, seen: seq<Byte>)
    requires i >= |raw| || raw[i] == 0x22
    ensures Resumed(seen, ScanFrom(raw, i, budget, strict))
              == if i >= |raw| then Err(Failure(Syntax, |raw|)) else Ok(Scanned(seen, i + 1))
  {
    assert seen + [] == seen;
  }

  method ScanString(raw: seq<Byte>, start: nat, limit: nat, capture: bool, strict: bool) returns (r: Result<Scanned>)
    ensures
      var spec := StringResult(raw, start, limit, strict);
      r == if spec.Err? || capture then spec else Ok(Scanned([], spec.value.end))
  {
    hide Piece, Chars, CharWidth, ScanFrom;
    if start >= |raw| || raw[start] != 0x22 {
      return Err(Failure(Syntax, if start < |raw| then start else |raw|));
    }
    var position := start + 1;
    var decoded: seq<Byte> := [];
    var decodedBytes := 0;
    ghost var seen: seq<Byte> := [];
    ghost var spec := ScanFrom(raw, start + 1, limit, strict);
    assert spec.Ok? ==> seen + spec.value.decoded == spec.value.decoded;
    while position < |raw|
      invariant start < position <= |raw| && decodedBytes <= limit
      invariant decoded == if capture then seen else []
      invariant spec == Resumed(seen, ScanFrom(raw, position, limit - decodedBytes, strict))
      decreases |raw| - position
    {
      if raw[position] == 0x22 {
        ResumeAtEnd(raw, position, limit - decodedBytes, strict, seen);
        return Ok(Scanned(decoded, position + 1));
      }
      ResumeAfterPiece(raw, position, limit - decodedBytes, strict, seen);
      var piece := Piece(raw, position, strict);
      if piece.Err? {
        return piece;
      }
      PieceIsChars(raw, position, strict);
      if |piece.value.decoded| > limit - decodedBytes {
        return Err(Failure(Resource, position));
      }
      decodedBytes := decodedBytes + |piece.value.decoded|;
      if capture {
        decoded := decoded + piece.value.decoded;
      }
      seen := seen + piece.value.decoded;
      position := piece.value.end;
    }
    ResumeAtEnd(raw, position, limit - decodedBytes, strict, seen);
    return Err(Failure(Syntax, |raw|));
  }
}
