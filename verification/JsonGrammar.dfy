// The grammar of JSON text, sections 2 to 7 of RFC 8259, as predicates over the spans of a
// byte string. Nothing here knows about stacks, limits or scanners.
module JsonGrammar {
  import opened Utf8

  predicate IsSpace(b: Byte) {
    b == 0x20 || b == 0x09 || b == 0x0A || b == 0x0D
  }

  predicate IsDigit(b: Byte) {
    0x30 <= b <= 0x39
  }

  predicate IsHex(b: Byte) {
    IsDigit(b) || 0x41 <= b <= 0x46 || 0x61 <= b <= 0x66
  }

  // Section 2: insignificant white space.
  predicate Space(raw: seq<Byte>, i: nat, j: nat) {
    i <= j <= |raw| && forall k :: i <= k < j ==> IsSpace(raw[k])
  }

  predicate Spelled(raw: seq<Byte>, i: nat, j: nat, word: seq<Byte>) {
    i <= j <= |raw| && raw[i..j] == word
  }

  const TRUE_WORD: seq<Byte> := [0x74, 0x72, 0x75, 0x65]
  const FALSE_WORD: seq<Byte> := [0x66, 0x61, 0x6C, 0x73, 0x65]
  const NULL_WORD: seq<Byte> := [0x6E, 0x75, 0x6C, 0x6C]

  // Section 3: the three literal names.
  predicate Literal(raw: seq<Byte>, i: nat, j: nat) {
    Spelled(raw, i, j, TRUE_WORD) || Spelled(raw, i, j, FALSE_WORD) || Spelled(raw, i, j, NULL_WORD)
  }

  // Section 6: numbers.
  predicate Digits(raw: seq<Byte>, i: nat, j: nat) {
    i < j <= |raw| && forall k :: i <= k < j ==> IsDigit(raw[k])
  }

  predicate Integer(raw: seq<Byte>, i: nat, j: nat) {
    Digits(raw, i, j) && (raw[i] == 0x30 ==> j == i + 1)
  }

  predicate Fraction(raw: seq<Byte>, i: nat, j: nat) {
    i == j || (i < |raw| && raw[i] == 0x2E && Digits(raw, i + 1, j))
  }

  predicate Exponent(raw: seq<Byte>, i: nat, j: nat) {
    i == j ||
    (i < |raw| && (raw[i] == 0x65 || raw[i] == 0x45) &&
     (Digits(raw, i + 1, j) ||
      (i + 1 < |raw| && (raw[i + 1] == 0x2B || raw[i + 1] == 0x2D) && Digits(raw, i + 2, j))))
  }

  ghost predicate Unsigned(raw: seq<Byte>, i: nat, j: nat) {
    exists a: nat, b: nat :: Integer(raw, i, a) && Fraction(raw, a, b) && Exponent(raw, b, j)
  }

  ghost predicate Number(raw: seq<Byte>, i: nat, j: nat) {
    Unsigned(raw, i, j) || (i < |raw| && raw[i] == 0x2D && Unsigned(raw, i + 1, j))
  }

  // Section 7: strings. A character is an unescaped scalar or an escape of one or six bytes
  // after the backslash; `CharWidth` is its length, zero when no character starts at `i`.
  predicate ShortEscape(b: Byte) {
    b == 0x22 || b == 0x5C || b == 0x2F || b == 0x62 || b == 0x66 || b == 0x6E || b == 0x72 || b == 0x74
  }

  predicate Hex4At(raw: seq<Byte>, i: nat) {
    i + 4 <= |raw| && IsHex(raw[i]) && IsHex(raw[i + 1]) && IsHex(raw[i + 2]) && IsHex(raw[i + 3])
  }

  function CharWidth(raw: seq<Byte>, i: nat): (w: nat)
    ensures w > 0 ==> i + w <= |raw|
  {
    if i >= |raw| || raw[i] == 0x22 || raw[i] < 0x20 then 0
    else if raw[i] != 0x5C then WidthAt(raw, i)
    else if i + 1 >= |raw| then 0
    else if ShortEscape(raw[i + 1]) then 2
    else if raw[i + 1] == 0x75 && Hex4At(raw, i + 2) then 6
    else 0
  }

  predicate Chars(raw: seq<Byte>, i: nat, j: nat)
    decreases j - i
  {
    i <= j <= |raw| &&
    (i == j || (CharWidth(raw, i) > 0 && i + CharWidth(raw, i) <= j && Chars(raw, i + CharWidth(raw, i), j)))
  }

  predicate String(raw: seq<Byte>, i: nat, j: nat) {
    i + 2 <= j <= |raw| && raw[i] == 0x22 && raw[j - 1] == 0x22 && Chars(raw, i + 1, j - 1)
  }

  // Sections 3 to 5: values, objects and arrays.
  ghost predicate Value(raw: seq<Byte>, i: nat, j: nat)
    decreases if i < j then j - i else 0, 2
  {
    i < j <= |raw| &&
    (Literal(raw, i, j) || Number(raw, i, j) || String(raw, i, j) || Object(raw, i, j) || Array(raw, i, j))
  }

  // A value with the white space allowed around it.
  ghost predicate Element(raw: seq<Byte>, i: nat, j: nat)
    decreases if i < j then j - i else 0, 3
  {
    exists a: nat, b: nat :: Space(raw, i, a) && Space(raw, b, j) && a < b && Value(raw, a, b)
  }

  ghost predicate Object(raw: seq<Byte>, i: nat, j: nat)
    decreases if i < j then j - i else 0, 1
  {
    i + 2 <= j <= |raw| && raw[i] == 0x7B && raw[j - 1] == 0x7D &&
    (Space(raw, i + 1, j - 1) || Members(raw, i + 1, j - 1))
  }

  ghost predicate Members(raw: seq<Byte>, i: nat, j: nat)
    decreases if i < j then j - i else 0, 5
  {
    i < j <= |raw| &&
    (Member(raw, i, j) ||
     exists k: nat :: i < k < j && Member(raw, i, k) && raw[k] == 0x2C && Members(raw, k + 1, j))
  }

  ghost predicate Member(raw: seq<Byte>, i: nat, j: nat)
    decreases if i < j then j - i else 0, 4
  {
    i < j <= |raw| &&
    exists a: nat, b: nat, c: nat ::
      Space(raw, i, a) && String(raw, a, b) && Space(raw, b, c) && c < j && raw[c] == 0x3A && Element(raw, c + 1, j)
  }

  ghost predicate Array(raw: seq<Byte>, i: nat, j: nat)
    decreases if i < j then j - i else 0, 1
  {
    i + 2 <= j <= |raw| && raw[i] == 0x5B && raw[j - 1] == 0x5D &&
    (Space(raw, i + 1, j - 1) || Elements(raw, i + 1, j - 1))
  }

  ghost predicate Elements(raw: seq<Byte>, i: nat, j: nat)
    decreases if i < j then j - i else 0, 4
  {
    i < j <= |raw| &&
    (Element(raw, i, j) ||
     exists k: nat :: i < k < j && Element(raw, i, k) && raw[k] == 0x2C && Elements(raw, k + 1, j))
  }

  // A JSON text.
  ghost predicate IsJson(raw: seq<Byte>) {
    Element(raw, 0, |raw|)
  }
}
