// Unbounded naturals written as decimal digits, most significant first, and the schoolbook
// arithmetic the decimal parser does on them.
module Magnitude {
  import opened Utf8
  import opened TextOrder
  import opened JsonGrammar

  const ZERO_TEXT: seq<Byte> := [0x30]

  predicate AllDigits(s: seq<Byte>) {
    forall k :: 0 <= k < |s| ==> IsDigit(s[k])
  }

  // The one spelling of a natural without leading zeros.
  predicate IsMagnitude(s: seq<Byte>) {
    |s| > 0 && AllDigits(s) && (s[0] == 0x30 ==> |s| == 1)
  }

  function Pow(n: nat): (p: nat)
    ensures p >= 1
  {
    if n == 0 then 1 else 10 * Pow(n - 1)
  }

  function Digit(b: Byte): (d: nat)
    requires IsDigit(b)
    ensures d < 10
  {
    b - 0x30
  }

  // The number a digit string spells.
  function Val(s: seq<Byte>): (v: nat)
    requires AllDigits(s)
  {
    if s == [] then 0 else Digit(s[0]) * Pow(|s| - 1) + Val(s[1..])
  }

  // ---- Powers and values ----

  lemma {:induction false} PowAdd(a: nat, b: nat)
    ensures Pow(a + b) == Pow(a) * Pow(b)
  {
    if a > 0 {
      PowAdd(a - 1, b);
      assert 10 * (Pow(a - 1) * Pow(b)) == (10 * Pow(a - 1)) * Pow(b);
    }
  }

  lemma {:induction false} PowMonotone(a: nat, b: nat)
    requires a <= b
    ensures Pow(a) <= Pow(b)
    decreases b
  {
    if a < b {
      PowMonotone(a, b - 1);
    }
  }

  lemma {:induction false} ValJoin(s: seq<Byte>, t: seq<Byte>)
    requires AllDigits(s) && AllDigits(t)
    ensures AllDigits(s + t) && Val(s + t) == Val(s) * Pow(|t|) + Val(t)
  {
    hide Pow, Digit;
    assert Pow(0) == 1 by {
      PowAdd(0, 0);
    }
    if s == [] {
      assert s + t == t;
    } else {
      assert (s + t)[1..] == s[1..] + t;
      ValJoin(s[1..], t);
      PowAdd(|s| - 1, |t|);
      Regroup(Digit(s[0]), Pow(|s| - 1), Pow(|t|), Val(s[1..]));
    }
  }

  lemma Regroup(d: int, p: int, q: int, v: int)
    ensures d * (p * q) + v * q == (d * p + v) * q
  {
    assert d * (p * q) == (d * p) * q;
  }

  lemma {:induction false} ValBelow(s: seq<Byte>)
    requires AllDigits(s)
    ensures Val(s) < Pow(|s|)
  {
    if s != [] {
      ValBelow(s[1..]);
      DigitTimes(Digit(s[0]), Pow(|s| - 1));
    }
  }

  lemma DigitTimes(d: nat, p: nat)
    requires d < 10
    ensures d * p <= 9 * p
    ensures d > 0 ==> d * p >= p
  {
  }

  lemma ValAtLeast(s: seq<Byte>)
    requires AllDigits(s) && s != [] && s[0] != 0x30
    ensures Val(s) >= Pow(|s| - 1)
  {
    DigitTimes(Digit(s[0]), Pow(|s| - 1));
  }

  // `value*10 + digit`, digit by digit from the left.
  lemma ValAppend(s: seq<Byte>, b: Byte)
    requires AllDigits(s) && IsDigit(b)
    ensures AllDigits(s + [b]) && Val(s + [b]) == Val(s) * 10 + Digit(b)
  {
    ValJoin(s, [b]);
    assert Val([b]) == Digit(b) * Pow(0) + Val([]);
    assert Pow(1) == 10;
  }

  function Zeros(n: nat): (s: seq<Byte>)
    ensures |s| == n && AllDigits(s) && forall k :: 0 <= k < n ==> s[k] == 0x30
  {
    seq(n, k => 0x30)
  }

  lemma {:induction false} ZerosValue(s: seq<Byte>)
    requires forall k :: 0 <= k < |s| ==> s[k] == 0x30
    ensures Val(s) == 0
  {
    if s != [] {
      ZerosValue(s[1..]);
    }
  }

  lemma ZerosLead(s: seq<Byte>, n: nat)
    requires AllDigits(s) && n <= |s| && forall k :: 0 <= k < n ==> s[k] == 0x30
    ensures Val(s) == Val(s[n..])
  {
    assert s == s[..n] + s[n..];
    ZerosValue(s[..n]);
    ValJoin(s[..n], s[n..]);
  }

  lemma ZerosTrail(s: seq<Byte>, n: nat)
    requires AllDigits(s) && n <= |s| && forall k :: n <= k < |s| ==> s[k] == 0x30
    ensures Val(s) == Val(s[..n]) * Pow(|s| - n)
  {
    assert s == s[..n] + s[n..];
    ZerosValue(s[n..]);
    ValJoin(s[..n], s[n..]);
  }

  // ---- Comparison ----

  lemma {:induction false} CompareValues(a: seq<Byte>, b: seq<Byte>)
    requires AllDigits(a) && AllDigits(b) && |a| == |b|
    ensures CompareText(a, b) == Sign(Val(a) - Val(b))
  {
    if a != [] {
      if a[0] == b[0] {
        CompareValues(a[1..], b[1..]);
      } else {
        ValBelow(a[1..]);
        ValBelow(b[1..]);
        HeadDecides(Digit(a[0]), Digit(b[0]), Pow(|a| - 1));
      }
    }
  }

  lemma HeadDecides(d: nat, e: nat, p: nat)
    ensures d < e ==> d * p + p <= e * p
    ensures e < d ==> e * p + p <= d * p
  {
    if d < e {
      assert (d + 1) * p <= e * p;
    } else if e < d {
      assert (e + 1) * p <= d * p;
    }
  }

  function CompareMagnitude(left: seq<Byte>, right: seq<Byte>): (c: int)
    requires IsMagnitude(left) && IsMagnitude(right)
    ensures c == Sign(Val(left) - Val(right))
  {
    MagnitudeOrder(left, right);
    if |left| < |right| then -1 else if |left| > |right| then 1 else CompareText(left, right)
  }

  lemma MagnitudeOrder(left: seq<Byte>, right: seq<Byte>)
    requires IsMagnitude(left) && IsMagnitude(right)
    ensures |left| < |right| ==> Val(left) < Val(right)
    ensures |right| < |left| ==> Val(right) < Val(left)
    ensures |left| == |right| ==> CompareText(left, right) == Sign(Val(left) - Val(right))
  {
    if |left| < |right| {
      ValBelow(left);
      ValAtLeast(right);
      PowMonotone(|left|, |right| - 1);
    } else if |right| < |left| {
      ValBelow(right);
      ValAtLeast(left);
      PowMonotone(|right|, |left| - 1);
    } else {
      CompareValues(left, right);
    }
  }

  lemma {:induction false} CompareEqual(a: seq<Byte>, b: seq<Byte>)
    requires |a| == |b| && CompareText(a, b) == 0
    ensures a == b
  {
    if a != [] {
      CompareEqual(a[1..], b[1..]);
      assert a == [a[0]] + a[1..] && b == [b[0]] + b[1..];
    }
  }

  // A natural has one spelling.
  lemma MagnitudeUnique(a: seq<Byte>, b: seq<Byte>)
    requires IsMagnitude(a) && IsMagnitude(b) && Val(a) == Val(b)
    ensures a == b
  {
    MagnitudeOrder(a, b);
    CompareEqual(a, b);
  }

  // ---- Arithmetic ----

  method NormalizeMagnitude(raw: seq<Byte>) returns (m: seq<Byte>)
    requires AllDigits(raw)
    ensures IsMagnitude(m) && Val(m) == Val(raw)
  {
    var first := 0;
    while first < |raw| && raw[first] == 0x30
      invariant 0 <= first <= |raw| && forall k :: 0 <= k < first ==> raw[k] == 0x30
    {
      first := first + 1;
    }
    ZerosLead(raw, first);
    if first == |raw| {
      return ZERO_TEXT;
    }
    return raw[first..];
  }

  // The decimal text of a natural.
  function FormatUint(n: nat): (m: seq<Byte>)
    ensures IsMagnitude(m) && Val(m) == n
  {
    if n < 10 then [0x30 + n]
    else
      ValAppend(FormatUint(n / 10), 0x30 + n % 10);
      FormatUint(n / 10) + [0x30 + n % 10]
  }

  // A larger number has no fewer digits.
  lemma DigitsGrow(n: nat, m: nat)
    requires n <= m
    ensures |FormatUint(n)| <= |FormatUint(m)|
  {
    MagnitudeOrder(FormatUint(n), FormatUint(m));
  }

  predicate MagnitudeIsZero(m: seq<Byte>) {
    |m| == 1 && m[0] == 0x30
  }

  lemma ZeroMagnitude(m: seq<Byte>)
    requires IsMagnitude(m)
    ensures MagnitudeIsZero(m) <==> Val(m) == 0
  {
    if m[0] != 0x30 {
      ValAtLeast(m);
    }
  }

  // One digit more on the left of a suffix.
  lemma ValSuffix(s: seq<Byte>, k: nat)
    requires k < |s| && IsDigit(s[k]) && AllDigits(s[k + 1..])
    ensures AllDigits(s[k..]) && Val(s[k..]) == Digit(s[k]) * Pow(|s| - k - 1) + Val(s[k + 1..])
  {
    assert s[k..] == [s[k]] + s[k + 1..];
  }

  // One column of a sum: the digit stays, the carry moves on.
  lemma SumColumn(carry: nat, left: nat, right: nat, p: nat)
    ensures (carry + left + right) % 10 * p + (carry + left + right) / 10 * (10 * p) == carry * p + left * p + right * p
  {
    var total := carry + left + right;
    assert total == total / 10 * 10 + total % 10;
    assert total * p == total / 10 * 10 * p + total % 10 * p;
    assert total / 10 * 10 * p == total / 10 * (10 * p);
  }

  // The digit of the column `position` of a number right-aligned in `width` columns.
  function Column(s: seq<Byte>, width: nat, position: nat): (d: nat)
    requires AllDigits(s) && |s| <= width && 0 < position <= width
    ensures d < 10
  {
    if Rest(|s|, width, position) > 0 then Digit(s[Rest(|s|, width, position) - 1]) else 0
  }

  lemma ColumnStep(s: seq<Byte>, width: nat, position: nat)
    requires AllDigits(s) && |s| <= width && 0 < position <= width
    ensures
      Val(s[Rest(|s|, width, position - 1)..]) ==
      Column(s, width, position) * Pow(width - position) + Val(s[Rest(|s|, width, position)..])
  {
    if Rest(|s|, width, position) > 0 {
      ValSuffix(s, Rest(|s|, width, position) - 1);
    }
  }

  // What the columns done so far and the carry amount to.
  function Held(low: seq<Byte>, carry: nat): nat
    requires AllDigits(low)
  {
    Val(low) + carry * Pow(|low|)
  }

  // What the columns already read of a right-aligned number amount to.
  function ReadSoFar(s: seq<Byte>, width: nat, position: nat): nat
    requires AllDigits(s) && |s| <= width && position <= width
  {
    Val(s[Rest(|s|, width, position)..])
  }

  // The digit of a number in a column, and how many of its digits are left after it.
  lemma ColumnDigit(s: seq<Byte>, width: nat, position: nat)
    requires AllDigits(s) && |s| <= width && 0 < position <= width
    ensures
      var rest := Rest(|s|, width, position);
      && rest <= |s|
      && Column(s, width, position) == (if rest > 0 then Digit(s[rest - 1]) else 0)
      && Rest(|s|, width, position - 1) == (if rest > 0 then rest - 1 else 0)
      && (|s| == width ==> rest == position)
  {
  }

  lemma MagnitudeDigits(m: seq<Byte>)
    requires IsMagnitude(m)
    ensures AllDigits(m) && |m| > 0
  {
  }

  lemma RestAtStart(length: nat, width: nat)
    requires length <= width
    ensures Rest(length, width, width) == length && AllDigits([])
  {
  }

  method AddMagnitude(left: seq<Byte>, right: seq<Byte>) returns (sum: seq<Byte>)
    requires IsMagnitude(left) && IsMagnitude(right)
    ensures IsMagnitude(sum) && Val(sum) == Val(left) + Val(right)
  {
    hide Val, Pow, Held, ReadSoFar, Column, Rest, AllDigits, IsMagnitude;
    var width := if |left| > |right| then |left| else |right|;
    MagnitudeDigits(left);
    MagnitudeDigits(right);
    RestAtStart(|left|, width);
    RestAtStart(|right|, width);
    ghost var done: seq<Byte> := [];
    var result := new Byte[width + 1];
    var leftPosition, rightPosition := |left| - 1, |right| - 1;
    var carry := 0;
    var position := width;
    SumStart(done, left, right, width);
    while position > 0
      invariant 0 <= position <= width && 0 <= carry <= 1
      invariant leftPosition == Rest(|left|, width, position) - 1
      invariant rightPosition == Rest(|right|, width, position) - 1
      invariant done == result[position + 1..] && AllDigits(done)
      invariant Held(done, carry) == ReadSoFar(left, width, position) + ReadSoFar(right, width, position)
    {
      ColumnDigit(left, width, position);
      ColumnDigit(right, width, position);
      SumStep(done, carry, left, right, width, position);
      var total := carry;
      if leftPosition >= 0 {
        total := total + Digit(left[leftPosition]);
        leftPosition := leftPosition - 1;
      }
      if rightPosition >= 0 {
        total := total + Digit(right[rightPosition]);
        rightPosition := rightPosition - 1;
      }
      result[position] := 0x30 + total % 10;
      carry := total / 10;
      assert result[position..] == [0x30 + total % 10] + done;
      done := [0x30 + total % 10] + done;
      position := position - 1;
    }
    SumLead(left, right, result[1..], carry, width);
    if carry == 0 {
      return result[1..];
    }
    result[0] := 0x30 + carry;
    assert result[..] == [0x30 + carry] + result[1..];
    return result[..];
  }

  lemma SumStart(result: seq<Byte>, left: seq<Byte>, right: seq<Byte>, width: nat)
    requires result == [] && AllDigits(left) && AllDigits(right) && |left| <= width && |right| <= width
    ensures Held(result, 0) == ReadSoFar(left, width, width) + ReadSoFar(right, width, width)
  {
  }

  lemma SumStep(done: seq<Byte>, carry: nat, left: seq<Byte>, right: seq<Byte>, width: nat, position: nat)
    requires AllDigits(left) && AllDigits(right) && |left| <= width && |right| <= width && 0 < position <= width
    requires AllDigits(done) && |done| == width - position && carry <= 1
    requires Held(done, carry) == ReadSoFar(left, width, position) + ReadSoFar(right, width, position)
    ensures
      var total := carry + Column(left, width, position) + Column(right, width, position);
      var longer := [0x30 + total % 10] + done;
      && AllDigits(longer) && total / 10 <= 1
      && Held(longer, total / 10) == ReadSoFar(left, width, position - 1) + ReadSoFar(right, width, position - 1)
  {
    var l, r := Column(left, width, position), Column(right, width, position);
    var total := carry + l + r;
    var longer := [0x30 + total % 10] + done;
    assert longer[1..] == done;
    ColumnStep(left, width, position);
    ColumnStep(right, width, position);
    SumColumn(carry, l, r, Pow(|done|));
  }

  lemma SumTotal(left: seq<Byte>, right: seq<Byte>, low: seq<Byte>, carry: nat, width: nat)
    requires AllDigits(left) && AllDigits(right) && |left| <= width && |right| <= width && AllDigits(low)
    requires Held(low, carry) == ReadSoFar(left, width, 0) + ReadSoFar(right, width, 0)
    ensures Val(low) + carry * Pow(|low|) == Val(left) + Val(right)
  {
    hide Val, Pow;
    assert left[0..] == left && right[0..] == right;
  }

  // The finished sum has no leading zero: its top digit is the carry, or stands over the top
  // digit of the longer number.
  lemma SumLead(left: seq<Byte>, right: seq<Byte>, low: seq<Byte>, carry: nat, width: nat)
    requires IsMagnitude(left) && IsMagnitude(right) && AllDigits(low) && carry <= 1
    requires |low| == width == (if |left| > |right| then |left| else |right|)
    requires Held(low, carry) == ReadSoFar(left, width, 0) + ReadSoFar(right, width, 0)
    ensures carry == 0 ==> IsMagnitude(low) && Val(low) == Val(left) + Val(right)
    ensures carry == 1 ==>
      var sum := [0x30 + carry] + low;
      IsMagnitude(sum) && Val(sum) == Val(left) + Val(right)
  {
    hide Held, ReadSoFar, Pow;
    SumTotal(left, right, low, carry, width);
    if carry == 1 {
      assert ([0x30 + carry] + low)[1..] == low;
    } else if low[0] == 0x30 && |low| > 1 {
      ValBelow(low[1..]);
      ValAtLeast(if |left| > |right| then left else right);
    }
  }

  // How many digits of a number of `length` digits are still unread when `position` columns
  // of `width` remain.
  function Rest(length: nat, width: nat, position: nat): (r: nat)
    requires length <= width && position <= width
  {
    if width - position >= length then 0 else length - (width - position)
  }

  // One column of a difference: what is borrowed comes back from the next column.
  lemma DifferenceColumn(left: int, borrow: int, right: int, next: int, p: int)
    ensures (left - borrow - right + 10 * next) * p + right * p + borrow * p == left * p + next * (10 * p)
  {
    assert (left - borrow - right + 10 * next) * p == left * p - borrow * p - right * p + 10 * next * p;
  }

  // What a difference read so far still owes.
  predicate Owes(low: seq<Byte>, borrow: nat, larger: seq<Byte>, smaller: seq<Byte>, position: nat)
    requires AllDigits(low) && AllDigits(larger) && AllDigits(smaller) && |smaller| <= |larger| && position <= |larger|
  {
    Val(low) + ReadSoFar(smaller, |larger|, position) == ReadSoFar(larger, |larger|, position) + borrow * Pow(|low|)
  }

  lemma LongerValue(d: nat, done: seq<Byte>)
    requires d < 10 && AllDigits(done)
    ensures AllDigits([0x30 + d] + done) && Val([0x30 + d] + done) == d * Pow(|done|) + Val(done)
    ensures Pow(|done| + 1) == 10 * Pow(|done|)
  {
    assert ([0x30 + d] + done)[1..] == done;
  }

  lemma ReadStep(s: seq<Byte>, width: nat, position: nat)
    requires AllDigits(s) && |s| <= width && 0 < position <= width
    ensures ReadSoFar(s, width, position - 1) ==
            Column(s, width, position) * Pow(width - position) + ReadSoFar(s, width, position)
  {
    ColumnStep(s, width, position);
  }

  lemma DifferenceStep(done: seq<Byte>, borrow: nat, larger: seq<Byte>, smaller: seq<Byte>, position: nat)
    requires AllDigits(larger) && AllDigits(smaller) && |smaller| <= |larger| && 0 < position <= |larger|
    requires AllDigits(done) && |done| == |larger| - position && borrow <= 1
    requires Owes(done, borrow, larger, smaller, position)
    ensures
      var difference := Column(larger, |larger|, position) - borrow - Column(smaller, |larger|, position);
      var next := if difference < 0 then 1 else 0;
      var longer := [0x30 + difference + 10 * next] + done;
      AllDigits(longer) && Owes(longer, next, larger, smaller, position - 1)
  {
    hide Column, Val, Pow, ReadSoFar;
    var l, r := Column(larger, |larger|, position), Column(smaller, |larger|, position);
    var next := if l - borrow - r < 0 then 1 else 0;
    ReadStep(larger, |larger|, position);
    ReadStep(smaller, |larger|, position);
    LongerValue(l - borrow - r + 10 * next, done);
    DifferenceColumn(l, borrow, r, next, Pow(|done|));
  }

  lemma DifferenceStart(done: seq<Byte>, larger: seq<Byte>, smaller: seq<Byte>)
    requires done == [] && AllDigits(larger) && AllDigits(smaller) && |smaller| <= |larger|
    ensures Owes(done, 0, larger, smaller, |larger|)
  {
  }

  lemma ReadAll(s: seq<Byte>, width: nat)
    requires AllDigits(s) && |s| <= width
    ensures ReadSoFar(s, width, 0) == Val(s)
  {
    hide Val;
    assert s[0..] == s;
  }

  lemma DifferenceDone(result: seq<Byte>, borrow: nat, larger: seq<Byte>, smaller: seq<Byte>)
    requires AllDigits(result) && AllDigits(larger) && AllDigits(smaller) && |smaller| <= |larger| == |result|
    requires borrow <= 1 && Val(smaller) <= Val(larger) && Owes(result, borrow, larger, smaller, 0)
    ensures Val(result) == Val(larger) - Val(smaller)
  {
    hide Val, Pow, ReadSoFar, AllDigits;
    ReadAll(larger, |larger|);
    ReadAll(smaller, |larger|);
    ValBelow(result);
    BorrowedValue(borrow, Pow(|result|));
  }

  lemma BorrowedValue(borrow: nat, p: nat)
    requires borrow <= 1
    ensures borrow * p == if borrow == 1 then p else 0
  {
  }

  lemma NotLonger(larger: seq<Byte>, smaller: seq<Byte>)
    requires IsMagnitude(larger) && IsMagnitude(smaller) && Val(smaller) <= Val(larger)
    ensures AllDigits(larger) && AllDigits(smaller) && 0 < |smaller| <= |larger|
  {
    MagnitudeOrder(larger, smaller);
  }

  // One column: its digit of the difference, and what is borrowed from the next column.
  method SubtractColumn(larger: seq<Byte>, smaller: seq<Byte>, position: nat, smallerPosition: int, borrow: nat)
    returns (d: nat, nextPosition: int, next: nat)
    requires AllDigits(larger) && AllDigits(smaller) && |smaller| <= |larger| && position < |larger| && borrow <= 1
    requires smallerPosition == Rest(|smaller|, |larger|, position + 1) - 1
    ensures nextPosition == Rest(|smaller|, |larger|, position) - 1
    ensures
      var difference := Column(larger, |larger|, position + 1) - borrow - Column(smaller, |larger|, position + 1);
      next == (if difference < 0 then 1 else 0) && d == difference + 10 * next && d < 10
  {
    ColumnDigit(larger, |larger|, position + 1);
    ColumnDigit(smaller, |larger|, position + 1);
    hide Column, Rest;
    var digit := Digit(larger[position]) - borrow;
    nextPosition := smallerPosition;
    if smallerPosition >= 0 {
      digit := digit - Digit(smaller[smallerPosition]);
      nextPosition := smallerPosition - 1;
    }
    if digit < 0 {
      d, next := digit + 10, 1;
    } else {
      d, next := digit, 0;
    }
  }

  method SubtractMagnitude(larger: seq<Byte>, smaller: seq<Byte>) returns (difference: seq<Byte>)
    requires IsMagnitude(larger) && IsMagnitude(smaller) && Val(smaller) <= Val(larger)
    ensures IsMagnitude(difference) && Val(difference) == Val(larger) - Val(smaller)
  {
    hide Val, Pow, Owes, Column, Rest, AllDigits, IsMagnitude;
    NotLonger(larger, smaller);
    RestAtStart(|smaller|, |larger|);
    var result := new Byte[|larger|];
    var smallerPosition := |smaller| - 1;
    var borrow := 0;
    var position := |larger| - 1;
    ghost var done: seq<Byte> := [];
    DifferenceStart(done, larger, smaller);
    while position >= 0
      invariant -1 <= position < |larger| && 0 <= borrow <= 1
      invariant smallerPosition == Rest(|smaller|, |larger|, position + 1) - 1
      invariant done == result[position + 1..] && AllDigits(done)
      invariant Owes(done, borrow, larger, smaller, position + 1)
    {
      DifferenceStep(done, borrow, larger, smaller, position + 1);
      var d;
      d, smallerPosition, borrow := SubtractColumn(larger, smaller, position, smallerPosition, borrow);
      result[position] := 0x30 + d;
      assert result[position..] == [0x30 + d] + done;
      done := [0x30 + d] + done;
      position := position - 1;
    }
    assert result[0..] == result[..];
    DifferenceDone(result[..], borrow, larger, smaller);
    difference := NormalizeMagnitude(result[..]);
  }

  // A signed number as a sign and a magnitude.
  function Signed(negative: bool, m: seq<Byte>): int
    requires AllDigits(m)
  {
    var value: int := Val(m);
    if negative then -value else value
  }

  method AddSignedMagnitude(leftNegative: bool, left: seq<Byte>, rightNegative: bool, right: seq<Byte>)
    returns (negative: bool, sum: seq<Byte>)
    requires IsMagnitude(left) && IsMagnitude(right)
    ensures IsMagnitude(sum) && Signed(negative, sum) == Signed(leftNegative, left) + Signed(rightNegative, right)
    ensures negative ==> Val(sum) > 0
  {
    ZeroMagnitude(left);
    ZeroMagnitude(right);
    var leftZero, rightZero := MagnitudeIsZero(left), MagnitudeIsZero(right);
    if leftZero && rightZero {
      return false, ZERO_TEXT;
    }
    if leftZero {
      return rightNegative, right;
    }
    if rightZero {
      return leftNegative, left;
    }
    if leftNegative == rightNegative {
      sum := AddMagnitude(left, right);
      return leftNegative, sum;
    }
    var order := CompareMagnitude(left, right);
    if order == 0 {
      return false, ZERO_TEXT;
    } else if order == 1 {
      sum := SubtractMagnitude(left, right);
      return leftNegative, sum;
    } else {
      sum := SubtractMagnitude(right, left);
      return rightNegative, sum;
    }
  }

  // The machine integer a magnitude spells; callers know it is small.
  method MagnitudeToSmallInt(m: seq<Byte>) returns (value: nat)
    requires AllDigits(m)
    ensures value == Val(m)
  {
    value := 0;
    var k := 0;
    while k < |m|
      invariant 0 <= k <= |m| && value == Val(m[..k])
    {
      assert m[..k + 1] == m[..k] + [m[k]];
      ValAppend(m[..k], m[k]);
      value := value * 10 + Digit(m[k]);
      k := k + 1;
    }
    assert m[..k] == m;
  }
}
