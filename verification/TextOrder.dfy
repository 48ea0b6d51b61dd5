// Byte-wise comparison of texts (strings.Compare).
module TextOrder {
  import opened Utf8

  type Text = seq<Byte>

  function Sign(d: int): int {
    if d < 0 then -1 else if d > 0 then 1 else 0
  }

  function CompareText(a: Text, b: Text): (c: int)
    ensures -1 <= c <= 1
  {
    if a == [] || b == [] then Sign(|a| - |b|)
    else if a[0] != b[0] then (if a[0] < b[0] then -1 else 1)
    else CompareText(a[1..], b[1..])
  }

  lemma {:induction false} TextZero(a: Text, b: Text)
    ensures CompareText(a, b) == 0 <==> a == b
  {
    if a != [] && b != [] {
      TextZero(a[1..], b[1..]);
      assert a == [a[0]] + a[1..] && b == [b[0]] + b[1..];
    }
  }

  lemma {:induction false} TextFlips(a: Text, b: Text)
    ensures CompareText(b, a) == -CompareText(a, b)
  {
    if a != [] && b != [] {
      TextFlips(a[1..], b[1..]);
    }
  }

  lemma {:induction false} TextChains(a: Text, b: Text, c: Text)
    requires CompareText(a, b) < 0 && CompareText(b, c) < 0
    ensures CompareText(a, c) < 0
  {
    if a != [] && b != [] && c != [] && a[0] == b[0] && b[0] == c[0] {
      TextChains(a[1..], b[1..], c[1..]);
    }
  }

  // A text comes before everything longer that starts with it.
  lemma {:induction false} PrefixFirst(a: Text, b: Text)
    requires b != []
    ensures CompareText(a, a + b) < 0
  {
    if a != [] {
      assert (a + b)[1..] == a[1..] + b;
      PrefixFirst(a[1..], b);
    }
  }

  // The first comparison that tells two things apart.
  function First(a: int, b: int): int {
    if a != 0 then a else b
  }

  lemma TextsInOrder(a: Text, b: Text, c: Text)
    requires CompareText(a, b) <= 0 && CompareText(b, c) <= 0
    ensures CompareText(a, c) == First(CompareText(a, b), CompareText(b, c))
  {
    TextZero(a, b);
    TextZero(b, c);
    if CompareText(a, b) < 0 && CompareText(b, c) < 0 {
      TextChains(a, b, c);
    }
  }
}
