// Arbitrary-precision JSON numbers: a normal form that is unique for its value, exact comparison
// with machine integers, and a key that is equal exactly when the values are.
module Decimal {
  import opened Utf8
  import opened TextOrder
  import opened JsonTypes
  import opened JsonGrammar
  import opened JsonNumber
  import opened Magnitude

  datatype Decimal = Decimal(
    negative: bool, zero: bool, significand: seq<Byte>, scaleNegative: bool, scaleMagnitude: seq<Byte>)

  const ZERO := Decimal(false, true, [], false, [])

  // The normal form: no zeros at either end of the significand, one spelling of the scale.
  predicate Normal(d: Decimal) {
    d == ZERO ||
    (!d.zero && |d.significand| > 0 && AllDigits(d.significand) &&
     d.significand[0] != 0x30 && d.significand[|d.significand| - 1] != 0x30 &&
     IsMagnitude(d.scaleMagnitude) && (d.scaleNegative ==> !MagnitudeIsZero(d.scaleMagnitude)))
  }

  // ---- Values ----

  // Ten to an integer power.
  function Power(e: int): (p: real)
    ensures p > 0.0
  {
    if e >= 0 then Pow(e) as real else 1.0 / (Pow(-e) as real)
  }

  function Scale(d: Decimal): int
    requires Normal(d) && !d.zero
  {
    Signed(d.scaleNegative, d.scaleMagnitude)
  }

  function WithSign(negative: bool, x: real): real {
    if negative then -x else x
  }

  function ValueOf(d: Decimal): real
    requires Normal(d)
  {
    if d.zero then 0.0 else WithSign(d.negative, Val(d.significand) as real * Power(Scale(d)))
  }

  lemma PowerStep(e: int)
    ensures Power(e + 1) == 10.0 * Power(e)
  {
    if e < -1 {
      InverseStep(Pow(-e - 1) as real);
    }
  }

  lemma InverseStep(x: real)
    requires x > 0.0
    ensures 1.0 / x == 10.0 * (1.0 / (10.0 * x))
  {
    var y := 1.0 / (10.0 * x);
    assert y * (10.0 * x) == 1.0;
    assert (10.0 * y) * x == 1.0;
  }

  lemma {:induction false} PowerAdd(a: int, b: int)
    ensures Power(a + b) == Power(a) * Power(b)
    decreases if b < 0 then -b else b
  {
    hide Power;
    if b == 0 {
      PowerZero();
    } else if b > 0 {
      PowerAdd(a, b - 1);
      PowerStep(a + b - 1);
      PowerStep(b - 1);
      TenTimes(Power(a), Power(b - 1));
    } else {
      PowerAdd(a, b + 1);
      PowerStep(a + b);
      PowerStep(b);
      TenTimes(Power(a), Power(b));
    }
  }

  lemma PowerZero()
    ensures Power(0) == 1.0
  {
  }

  lemma TenTimes(x: real, y: real)
    ensures x * (10.0 * y) == 10.0 * (x * y)
  {
  }

  // ---- The number a text spells ----

  // The parts of a number's text: sign, digits before and after the point, exponent.
  datatype Parts = Parts(negative: bool, whole: seq<Byte>, fraction: seq<Byte>, exponentNegative: bool,
                         exponent: seq<Byte>)

  function WholeStart(raw: seq<Byte>): nat {
    if raw != [] && raw[0] == 0x2D then 1 else 0
  }

  function WholeEnd(raw: seq<Byte>): (a: nat)
    requires NumberReach(raw, 0).End?
    ensures Integer(raw, WholeStart(raw), a)
  {
    IntegerReach(raw, WholeStart(raw)).position
  }

  function FractionEnd(raw: seq<Byte>): (b: nat)
    requires NumberReach(raw, 0).End?
    ensures Fraction(raw, WholeEnd(raw), b) && WholeEnd(raw) <= b <= |raw|
  {
    FractionReach(raw, WholeEnd(raw)).position
  }

  predicate SignAt(raw: seq<Byte>, i: nat) {
    i < |raw| && (raw[i] == 0x2B || raw[i] == 0x2D)
  }

  function FractionDigits(raw: seq<Byte>): (s: seq<Byte>)
    requires NumberReach(raw, 0).End?
    ensures AllDigits(s)
  {
    if FractionEnd(raw) == WholeEnd(raw) then [] else raw[WholeEnd(raw) + 1..FractionEnd(raw)]
  }

  function ExponentDigits(raw: seq<Byte>): (s: seq<Byte>)
    requires NumberReach(raw, 0) == End(|raw|)
    ensures AllDigits(s)
  {
    var b := FractionEnd(raw);
    ExponentCut(raw, b);
    if b == |raw| then [] else if SignAt(raw, b + 1) then raw[b + 2..] else raw[b + 1..]
  }

  lemma ExponentCut(raw: seq<Byte>, b: nat)
    requires b <= |raw| && ExponentReach(raw, b) == End(|raw|)
    ensures b == |raw| || (b + 1 < |raw| && (raw[b] == 0x65 || raw[b] == 0x45) &&
                           if SignAt(raw, b + 1) then Digits(raw, b + 2, |raw|) else Digits(raw, b + 1, |raw|))
  {
  }

  // Cuts the text of a number at the point and the exponent letter.
  function PartsOf(raw: seq<Byte>): (parts: Parts)
    requires NumberReach(raw, 0) == End(|raw|)
    ensures AllDigits(parts.whole) && AllDigits(parts.fraction) && AllDigits(parts.exponent)
    ensures parts.whole != []
  {
    var b := FractionEnd(raw);
    Parts(
      WholeStart(raw) == 1, raw[WholeStart(raw)..WholeEnd(raw)], FractionDigits(raw),
      SignAt(raw, b + 1) && raw[b + 1] == 0x2D, ExponentDigits(raw))
  }

  // Section 6 of RFC 8259, read as arithmetic.
  function TextValue(raw: seq<Byte>): real
    requires NumberReach(raw, 0) == End(|raw|)
  {
    var p := PartsOf(raw);
    WithSign(p.negative,
            (Val(p.whole) as real + Val(p.fraction) as real * Power(-|p.fraction|)) *
            Power(Signed(p.exponentNegative, p.exponent)))
  }

  lemma PowerInverse(n: nat)
    ensures Power(n) == Pow(n) as real && Power(n) * Power(0 - n) == 1.0
  {
    hide Pow;
    PowerAdd(n, 0 - n);
    PowerZero();
  }

  // Digits around a point amount to the whole coefficient, scaled.
  lemma PointMoves(whole: nat, fraction: nat, n: nat)
    ensures whole as real + fraction as real * Power(0 - n) == (whole * Pow(n) + fraction) as real * Power(0 - n)
  {
    hide Pow, Power;
    PowerInverse(n);
    var w, f, p, q := whole as real, fraction as real, Pow(n) as real, Power(0 - n);
    assert (whole * Pow(n) + fraction) as real == w * p + f;
    assert (w * p + f) * q == w * (p * q) + f * q;
  }

  // Trailing zeros of the coefficient move into the scale.
  lemma ZerosMove(core: nat, zeros: nat, fraction: nat, exponent: int)
    ensures
      (core * Pow(zeros)) as real * Power(0 - fraction) * Power(exponent)
        == core as real * Power(exponent - fraction + zeros)
  {
    hide Pow, Power;
    PowerInverse(zeros);
    PowerAdd(exponent, 0 - fraction);
    PowerAdd(exponent - fraction, zeros);
    Reassociate(core as real, Power(zeros), Power(0 - fraction), Power(exponent));
    assert (core * Pow(zeros)) as real == core as real * Power(zeros);
  }

  lemma Reassociate(c: real, z: real, f: real, e: real)
    ensures c * z * f * e == c * (e * f * z)
  {
    assert c * z * f == c * (z * f);
    assert c * (z * f) * e == c * (z * f * e);
    assert z * f * e == e * f * z;
  }

  // What the normal form's fields say about the text they were taken from.
  lemma NormalValue(raw: seq<Byte>, coefficient: seq<Byte>, first: nat, last: nat, d: Decimal)
    requires NumberReach(raw, 0) == End(|raw|)
    requires
      var p := PartsOf(raw);
      && coefficient == p.whole + p.fraction
      && first <= last <= |coefficient|
      && (forall k :: 0 <= k < first ==> coefficient[k] == 0x30)
      && (forall k :: last <= k < |coefficient| ==> coefficient[k] == 0x30)
    requires
      var p := PartsOf(raw);
      if first == last then d == ZERO
      else
        Normal(d) && !d.zero && d.negative == p.negative && d.significand == coefficient[first..last] &&
        Scale(d) == Signed(p.exponentNegative, p.exponent) - |p.fraction| + (|coefficient| - last)
    ensures Normal(d) && ValueOf(d) == TextValue(raw)
  {
    hide Power, Pow, Val, NumberReach, PartsOf;
    var p := PartsOf(raw);
    var e := Signed(p.exponentNegative, p.exponent);
    ValJoin(p.whole, p.fraction);
    PointMoves(Val(p.whole), Val(p.fraction), |p.fraction|);
    if first == last {
      ZerosValue(coefficient);
    } else {
      ZerosTrail(coefficient, last);
      ZerosLead(coefficient[..last], first);
      assert coefficient[..last][first..] == coefficient[first..last];
      ZerosMove(Val(d.significand), |coefficient| - last, |p.fraction|, e);
    }
  }

  method TakeRun(raw: seq<Byte>, from: nat) returns (position: nat)
    requires from <= |raw|
    ensures position == RunEnd(raw, from)
  {
    position := from;
    while position < |raw| && IsDigit(raw[position])
      invariant from <= position <= |raw| && RunEnd(raw, position) == RunEnd(raw, from)
    {
      position := position + 1;
    }
  }

  // Drops the zeros at both ends of a coefficient.
  method TrimZeros(coefficient: seq<Byte>) returns (first: nat, last: nat)
    requires AllDigits(coefficient)
    ensures first <= last <= |coefficient|
    ensures forall k :: 0 <= k < first ==> coefficient[k] == 0x30
    ensures forall k :: last <= k < |coefficient| ==> coefficient[k] == 0x30
    ensures first == last ==> first == |coefficient|
    ensures first < last ==> coefficient[first] != 0x30 && coefficient[last - 1] != 0x30
  {
    first := 0;
    while first < |coefficient| && coefficient[first] == 0x30
      invariant first <= |coefficient| && forall k :: 0 <= k < first ==> coefficient[k] == 0x30
    {
      first := first + 1;
    }
    last := |coefficient|;
    while last > first && coefficient[last - 1] == 0x30
      invariant first <= last <= |coefficient| && forall k :: last <= k < |coefficient| ==> coefficient[k] == 0x30
    {
      last := last - 1;
    }
  }

  method CutInteger(raw: seq<Byte>, start: nat) returns (reach: Reach)
    requires start < |raw|
    ensures reach == IntegerReach(raw, start)
  {
    if raw[start] == 0x30 {
      return End(start + 1);
    }
    if !IsDigit(raw[start]) {
      return Stop(start);
    }
    var position := TakeRun(raw, start);
    return End(position);
  }

  method CutDigits(raw: seq<Byte>, start: nat) returns (reach: Reach)
    requires start <= |raw|
    ensures reach == DigitsReach(raw, start)
  {
    if start == |raw| || !IsDigit(raw[start]) {
      return Stop(start);
    }
    var position := TakeRun(raw, start);
    return End(position);
  }

  // The digits after the point, if there is one, start at `digits`.
  method CutFraction(raw: seq<Byte>, start: nat) returns (reach: Reach, digits: nat)
    requires start <= |raw|
    ensures reach == FractionReach(raw, start)
    ensures digits == if reach.position == start then start else start + 1
  {
    if start == |raw| || raw[start] != 0x2E {
      return End(start), start;
    }
    reach := CutDigits(raw, start + 1);
    return reach, start + 1;
  }

  // The digits of the exponent, if there is one, start at `digits`.
  method CutExponent(raw: seq<Byte>, start: nat) returns (reach: Reach, negative: bool, digits: nat)
    requires start <= |raw|
    ensures reach == ExponentReach(raw, start)
    ensures reach == End(|raw|) ==> (negative <==> SignAt(raw, start + 1) && raw[start + 1] == 0x2D)
    ensures reach == End(|raw|) ==>
              digits == if start == |raw| then start else if SignAt(raw, start + 1) then start + 2 else start + 1
  {
    if start == |raw| || (raw[start] != 0x65 && raw[start] != 0x45) {
      return End(start), false, start;
    }
    digits, negative := start + 1, false;
    if digits < |raw| && (raw[digits] == 0x2B || raw[digits] == 0x2D) {
      negative := raw[digits] == 0x2D;
      digits := digits + 1;
    }
    reach := CutDigits(raw, digits);
  }

  // Reads the parts of a number, or finds the position at which the text stops being one.
  method CutNumber(raw: seq<Byte>) returns (r: Result<Parts>)
    ensures r.Ok? <==> NumberReach(raw, 0) == End(|raw|)
    ensures r.Ok? ==> r.value == PartsOf(raw)
    ensures r.Err? ==> r.failure == Failure(Syntax, NumberReach(raw, 0).position)
  {
    hide IntegerReach, FractionReach, ExponentReach;
    var negative := |raw| > 0 && raw[0] == 0x2D;
    var start := if negative then 1 else 0;
    NoDigits(raw);
    if start == |raw| {
      return Err(Failure(Syntax, start));
    }
    var whole := CutInteger(raw, start);
    if whole.Stop? {
      return Err(Failure(Syntax, whole.position));
    }
    var part, fractionStart := CutFraction(raw, whole.position);
    if part.Stop? {
      return Err(Failure(Syntax, part.position));
    }
    var rest, exponentNegative, exponentStart := CutExponent(raw, part.position);
    if rest != End(|raw|) {
      return Err(Failure(Syntax, rest.position));
    }
    ExponentCut(raw, part.position);
    return Ok(Parts(negative, raw[start..whole.position], raw[fractionStart..part.position],
                    exponentNegative, raw[exponentStart..rest.position]));
  }

  lemma NoDigits(raw: seq<Byte>)
    ensures IntegerReach(raw, |raw|) == Stop(|raw|)
  {
  }

  // Parses exactly the numbers of the grammar into the normal form of their value; anything
  // else fails at the position where the longest match stops.
  method ParseDecimal(raw: seq<Byte>) returns (r: Result<Decimal>)
    ensures r.Ok? <==> NumberReach(raw, 0) == End(|raw|)
    ensures r.Ok? ==> Normal(r.value) && ValueOf(r.value) == TextValue(raw)
    ensures r.Err? ==> r.failure == Failure(Syntax, NumberReach(raw, 0).position)
  {
    hide ValueOf, TextValue, Power, Val, PartsOf, NumberReach;
    var cut := CutNumber(raw);
    if cut.Err? {
      return Err(cut.failure);
    }
    var parts := cut.value;
    var exponentMagnitude := NormalizeMagnitude(parts.exponent);
    var coefficient := parts.whole + parts.fraction;
    var first, last := TrimZeros(coefficient);
    if first == |coefficient| {
      NormalValue(raw, coefficient, first, last, ZERO);
      return Ok(ZERO);
    }
    var scaleNegative, scaleMagnitude :=
      AddSignedMagnitude(parts.exponentNegative, exponentMagnitude, true, FormatUint(|parts.fraction|));
    scaleNegative, scaleMagnitude :=
      AddSignedMagnitude(scaleNegative, scaleMagnitude, false, FormatUint(|coefficient| - last));
    ZeroMagnitude(scaleMagnitude);
    var d := Decimal(parts.negative, false, coefficient[first..last], scaleNegative, scaleMagnitude);
    NormalValue(raw, coefficient, first, last, d);
    return Ok(d);
  }

  // The texts that parse are the numbers of the grammar.
  lemma ParsesNumbers(raw: seq<Byte>)
    ensures NumberReach(raw, 0) == End(|raw|) <==> Number(raw, 0, |raw|)
  {
    hide Number, NumberReach;
    if NumberReach(raw, 0) == End(|raw|) {
      ReachIsNumber(raw, 0);
    }
    if Number(raw, 0, |raw|) {
      NumberIsReach(raw, 0, |raw|);
    }
  }

  // ---- The normal form is unique ----

  lemma LastDigit(s: seq<Byte>)
    requires AllDigits(s) && s != []
    ensures Val(s) % 10 == Digit(s[|s| - 1])
  {
    var front, last := s[..|s| - 1], s[|s| - 1];
    assert s == front + [last];
    ValAppend(front, last);
    LastOfTen(Val(front), Digit(last));
  }

  lemma LastOfTen(n: nat, d: nat)
    requires d < 10
    ensures (10 * n + d) % 10 == d
  {
  }

  // A significand is positive and not a multiple of ten.
  lemma SignificandValue(d: Decimal)
    requires Normal(d) && !d.zero
    ensures Val(d.significand) > 0 && Val(d.significand) % 10 != 0
    ensures Pow(|d.significand| - 1) <= Val(d.significand) < Pow(|d.significand|)
  {
    LastDigit(d.significand);
    ValAtLeast(d.significand);
    ValBelow(d.significand);
  }

  // s * 10^e has one such s and e.
  lemma ScaledUnique(s: nat, e: int, t: nat, f: int)
    requires s > 0 && t > 0 && s % 10 != 0 && t % 10 != 0
    requires s as real * Power(e) == t as real * Power(f)
    ensures s == t && e == f
  {
    hide Power;
    if e <= f {
      ScaledOnce(s, e, t, f);
    } else {
      ScaledOnce(t, f, s, e);
    }
  }

  lemma ScaledOnce(s: nat, e: int, t: nat, f: int)
    requires e <= f && s % 10 != 0
    requires s as real * Power(e) == t as real * Power(f)
    ensures s == t && e == f
  {
    hide Power, Pow;
    PowerAdd(f - e, e);
    PowerInverse(f - e);
    Cancel(s as real, t as real * Power(f - e), Power(e), t as real * Power(f));
    assert s == t * Pow(f - e);
    if e < f {
      MultipleOfTen(t, f - e);
    } else {
      PowerZero();
    }
  }

  lemma Cancel(x: real, y: real, p: real, z: real)
    requires p > 0.0 && x * p == z && y * p == z
    ensures x == y
  {
    assert (x - y) * p == 0.0;
  }

  lemma MultipleOfTen(t: nat, n: nat)
    requires n > 0
    ensures (t * Pow(n)) % 10 == 0
  {
    assert t * (10 * Pow(n - 1)) == 10 * (t * Pow(n - 1));
  }

  lemma ValueSign(d: Decimal)
    requires Normal(d) && !d.zero
    ensures ValueOf(d) > 0.0 <==> !d.negative
    ensures ValueOf(d) < 0.0 <==> d.negative
    ensures WithSign(d.negative, ValueOf(d)) == Val(d.significand) as real * Power(Scale(d))
  {
    hide Power, Val;
    SignificandValue(d);
    assert Val(d.significand) as real * Power(Scale(d)) > 0.0;
  }

  // Two normal forms with the same value are the same.
  lemma NormalUnique(c: Decimal, d: Decimal)
    requires Normal(c) && Normal(d) && ValueOf(c) == ValueOf(d)
    ensures c == d
  {
    hide Power, Pow, Val, ValueOf;
    ZeroIsZero();
    if !c.zero {
      ValueSign(c);
    }
    if !d.zero {
      ValueSign(d);
    }
    if !c.zero && !d.zero {
      SignificandValue(c);
      SignificandValue(d);
      ScaledUnique(Val(c.significand), Scale(c), Val(d.significand), Scale(d));
      MagnitudeUnique(c.significand, d.significand);
      ScaleUnique(c, d);
    }
  }

  lemma ScaleUnique(c: Decimal, d: Decimal)
    requires Normal(c) && Normal(d) && !c.zero && !d.zero && Scale(c) == Scale(d)
    ensures c.scaleNegative == d.scaleNegative && c.scaleMagnitude == d.scaleMagnitude
  {
    hide Val;
    ZeroMagnitude(c.scaleMagnitude);
    ZeroMagnitude(d.scaleMagnitude);
    if c.scaleNegative == d.scaleNegative {
      MagnitudeUnique(c.scaleMagnitude, d.scaleMagnitude);
    }
  }

  // ---- The key ----

  const KEY_LIMIT: nat := 65535

  // The canonical key of a number: its class, the length and digits of the significand, the
  // sign and digits of the scale. An unset decimal and an overlong significand have none.
  function SemanticKey(dst: seq<Byte>, d: Decimal): (r: Result<seq<Byte>>)
    ensures Normal(d) ==> (r.Ok? <==> |d.significand| <= KEY_LIMIT)
  {
    if d.zero then Ok(dst + [0x6E, 0])
    else if |d.significand| == 0 || |d.scaleMagnitude| == 0 then Err(Failure(Mismatch, 0))
    else if |d.significand| > KEY_LIMIT then Err(Failure(Resource, 0))
    else
      var length := |d.significand|;
      Ok(dst + [0x6E, if d.negative then 2 else 1, length / 256, length % 256] + d.significand
         + [if d.scaleNegative then 1 else 0] + d.scaleMagnitude)
  }

  lemma KeyFields(d: Decimal)
    requires Normal(d) && !d.zero && |d.significand| <= KEY_LIMIT
    ensures
      var key := SemanticKey([], d).value;
      var n := |d.significand|;
      && SemanticKey([], d).Ok? && |key| > 4 + n + 1 && key[1] == (if d.negative then 2 else 1)
      && key[2] as int * 256 + key[3] as int == n && key[4..4 + n] == d.significand
      && key[4 + n] == (if d.scaleNegative then 1 else 0) && key[5 + n..] == d.scaleMagnitude
  {
  }

  lemma KeyInjective(c: Decimal, d: Decimal)
    requires Normal(c) && Normal(d) && |c.significand| <= KEY_LIMIT && |d.significand| <= KEY_LIMIT
    requires SemanticKey([], c) == SemanticKey([], d)
    ensures c == d
  {
    if !c.zero {
      KeyFields(c);
    }
    if !d.zero {
      KeyFields(d);
    }
    assert c.zero || d.zero ==> c.zero == d.zero;
    if !c.zero && !d.zero {
      assert |c.significand| == |d.significand|;
    }
  }

  // Two numbers have the same key exactly when they have the same value.
  lemma KeyMeansValue(c: Decimal, d: Decimal)
    requires Normal(c) && Normal(d) && |c.significand| <= KEY_LIMIT && |d.significand| <= KEY_LIMIT
    ensures SemanticKey([], c) == SemanticKey([], d) <==> ValueOf(c) == ValueOf(d)
  {
    hide SemanticKey, ValueOf;
    if SemanticKey([], c) == SemanticKey([], d) {
      KeyInjective(c, d);
    }
    if ValueOf(c) == ValueOf(d) {
      NormalUnique(c, d);
    }
  }

  // ---- Integers ----

  predicate IsInteger(d: Decimal) {
    d.zero || (|d.significand| != 0 && !d.scaleNegative)
  }

  lemma WholeValue(d: Decimal)
    requires Normal(d) && !d.zero && !d.scaleNegative
    ensures ValueOf(d) == WithSign(d.negative, (Val(d.significand) * Pow(Val(d.scaleMagnitude))) as real)
  {
    hide Val, Pow;
    var s, p := Val(d.significand), Pow(Val(d.scaleMagnitude));
    assert (s * p) as real == s as real * p as real;
  }

  // The magnitude of a value with a negative scale, as a quotient.
  lemma FractionValue(d: Decimal)
    requires Normal(d) && !d.zero && d.scaleNegative
    ensures Val(d.scaleMagnitude) > 0
    ensures WithSign(d.negative, ValueOf(d)) * Pow(Val(d.scaleMagnitude)) as real == Val(d.significand) as real
  {
    hide Val, Pow;
    ZeroMagnitude(d.scaleMagnitude);
    var s, k: int := Val(d.significand) as real, Val(d.scaleMagnitude);
    PowerInverse(k);
    var p, q := Power(k), Power(-k);
    assert WithSign(d.negative, ValueOf(d)) == s * q;
    assert s * q * p == s * (p * q);
  }

  // A number is an integer exactly when its normal form says so.
  lemma IsIntegerMeans(d: Decimal)
    requires Normal(d)
    ensures IsInteger(d) <==> ValueOf(d) == ValueOf(d).Floor as real
  {
    hide Power, Pow, Val, ValueOf;
    if d.zero {
      ZeroIsZero();
    } else if !d.scaleNegative {
      WholeValue(d);
      var z: int := Val(d.significand) * Pow(Val(d.scaleMagnitude));
      assert ValueOf(d) == (if d.negative then -z else z) as real;
    } else {
      NotMultiple(d, ValueOf(d).Floor);
    }
  }

  lemma ZeroIsZero()
    ensures ValueOf(ZERO) == 0 as real
  {
  }

  lemma NotMultiple(d: Decimal, z: int)
    requires Normal(d) && !d.zero && d.scaleNegative
    ensures ValueOf(d) != z as real
  {
    hide Power, Val, ValueOf, Pow;
    FractionValue(d);
    SignificandValue(d);
    var s, k := Val(d.significand), Val(d.scaleMagnitude);
    if ValueOf(d) == z as real {
      var m := if d.negative then -z else z;
      assert (m * Pow(k)) as real == m as real * Pow(k) as real;
      assert m * Pow(k) == s;
      MultipleOfTenInt(m, k);
    }
  }

  lemma MultipleOfTenInt(m: int, n: nat)
    requires n > 0
    ensures (m * Pow(n)) % 10 == 0
  {
    assert m * (10 * Pow(n - 1)) == 10 * (m * Pow(n - 1));
  }

  // ---- Comparison with a machine integer ----

  const MAX_UINT64: nat := 0xFFFF_FFFF_FFFF_FFFF

  // A decimal that nothing was parsed into.
  const UNSET := Decimal(false, false, [], false, [])

  function SignOf(x: real): int {
    if x < 0.0 then -1 else if x > 0.0 then 1 else 0
  }

  lemma ScaleUp(a: nat, x: int, p: nat)
    requires p > 0
    ensures x < a ==> x * p + p <= a * p
    ensures a < x ==> a * p + p <= x * p
  {
    if x < a {
      assert (x + 1) * p <= a * p;
    } else if a < x {
      assert (a + 1) * p <= x * p;
    }
  }

  // The lengths alone decide a comparison with a whole number of another length.
  lemma WholeLengths(s: nat, digits: nat, k: nat, n: nat, length: nat)
    requires digits > 0 && length > 0 && Pow(digits - 1) <= s < Pow(digits) && n < Pow(length)
    requires length > 1 ==> Pow(length - 1) <= n
    ensures digits + k > length ==> s * Pow(k) > n
    ensures digits + k < length ==> s * Pow(k) < n
  {
    hide Pow;
    if digits + k > length {
      PowAdd(digits - 1, k);
      PowMonotone(length, digits - 1 + k);
      Product(Pow(digits - 1), s, Pow(k));
    } else if digits + k < length {
      PowAdd(digits, k);
      PowMonotone(digits + k, length - 1);
      ScaleUp(Pow(digits), s, Pow(k));
    }
  }

  lemma Product(a: nat, b: nat, p: nat)
    requires a <= b
    ensures a * p <= b * p
  {
  }

  lemma TargetBounds(n: nat)
    ensures n < Pow(|FormatUint(n)|)
    ensures |FormatUint(n)| > 1 ==> Pow(|FormatUint(n)| - 1) <= n
  {
    var target := FormatUint(n);
    ValBelow(target);
    if |target| > 1 {
      ValAtLeast(target);
    }
  }

  // A fraction is compared through its integer digits; what follows them is never zero.
  lemma FractionParts(d: Decimal, i: nat, n: nat)
    requires Normal(d) && !d.zero && d.scaleNegative && !d.negative
    requires i + Val(d.scaleMagnitude) == |d.significand| && i > 0
    ensures SignOf(ValueOf(d) - n as real) == if Val(d.significand[..i]) < n then -1 else 1
  {
    hide Val, Pow, Power, ValueOf;
    var k := Val(d.scaleMagnitude);
    var w, t := d.significand[..i], d.significand[i..];
    assert d.significand == w + t;
    ValJoin(w, t);
    FractionValue(d);
    LastDigit(t);
    ValBelow(t);
    ScaleUp(n, Val(w), Pow(k));
    QuotientSign(ValueOf(d), n, Pow(k), Val(d.significand));
  }

  lemma QuotientSign(v: real, n: nat, p: nat, s: nat)
    requires p > 0 && v * p as real == s as real
    ensures SignOf(v - n as real) == Sign(s - n * p)
  {
    assert (v - n as real) * p as real == (s - n * p) as real;
    SignTimes(v - n as real, p as real);
  }

  lemma SignTimes(x: real, p: real)
    requires p > 0.0
    ensures SignOf(x * p) == SignOf(x)
  {
  }

  // A fraction with no integer digit is below every positive integer.
  lemma BelowOne(d: Decimal, n: nat)
    requires Normal(d) && !d.zero && d.scaleNegative && !d.negative && n > 0
    requires Val(d.scaleMagnitude) >= |d.significand|
    ensures SignOf(ValueOf(d) - n as real) == -1
  {
    hide Val, Pow, Power, ValueOf;
    var k := Val(d.scaleMagnitude);
    FractionValue(d);
    SignificandValue(d);
    PowMonotone(|d.significand|, k);
    Product(1, n, Pow(k));
    QuotientSign(ValueOf(d), n, Pow(k), Val(d.significand));
  }

  lemma WholeSign(d: Decimal, n: nat)
    requires Normal(d) && !d.zero && !d.scaleNegative && !d.negative
    ensures SignOf(ValueOf(d) - n as real) == Sign(Val(d.significand) * Pow(Val(d.scaleMagnitude)) - n)
  {
    hide Val, Pow, ValueOf;
    WholeValue(d);
  }

  lemma PaddedValue(d: Decimal, k: nat)
    requires Normal(d) && !d.zero
    ensures AllDigits(d.significand + Zeros(k)) && Val(d.significand + Zeros(k)) == Val(d.significand) * Pow(k)
  {
    ValJoin(d.significand, Zeros(k));
    ZerosValue(Zeros(k));
  }

  // Compares digits with a target of the same length, the missing ones being zeros.
  method ComparePadded(digits: seq<Byte>, target: seq<Byte>) returns (c: int)
    requires |digits| <= |target|
    ensures c == CompareText(digits + Zeros(|target| - |digits|), target)
  {
    ghost var padded := digits + Zeros(|target| - |digits|);
    var index := 0;
    assert padded[0..] == padded && target[0..] == target;
    while index < |target|
      invariant 0 <= index <= |target|
      invariant CompareText(padded[index..], target[index..]) == CompareText(padded, target)
    {
      var digit := if index < |digits| then digits[index] else 0x30;
      assert padded[index] == digit;
      assert padded[index..][1..] == padded[index + 1..] && target[index..][1..] == target[index + 1..];
      if digit < target[index] {
        return -1;
      }
      if digit > target[index] {
        return 1;
      }
      index := index + 1;
    }
    return 0;
  }

  // The sign of the difference between a decimal and an unsigned machine integer, exactly,
  // however many digits or zeros either would need.
  method CompareUint64(d: Decimal, n: nat) returns (c: int)
    requires (Normal(d) || d == UNSET) && n <= MAX_UINT64
    ensures Normal(d) ==> c == SignOf(ValueOf(d) - n as real)
    ensures d == UNSET ==> c == -1
  {
    hide Val, Pow, ValueOf, CompareText;
    ZeroIsZero();
    if d.zero {
      return if n == 0 then 0 else -1;
    }
    if d.negative {
      ValueSign(d);
      return -1;
    }
    if |d.significand| == 0 || |d.scaleMagnitude| == 0 {
      return -1;
    }
    var target := FormatUint(n);
    TargetBounds(n);
    SignificandValue(d);
    if !d.scaleNegative {
      c := CompareWhole(d, n, target);
      return;
    }
    if n == 0 {
      ValueSign(d);
      return 1;
    }
    if CompareMagnitude(d.scaleMagnitude, FormatUint(|d.significand|)) >= 0 {
      BelowOne(d, n);
      return -1;
    }
    var fractionDigits := MagnitudeToSmallInt(d.scaleMagnitude);
    var integerDigits := |d.significand| - fractionDigits;
    c := CompareFraction(d, n, target, integerDigits);
  }

  method CompareWhole(d: Decimal, n: nat, target: seq<Byte>) returns (c: int)
    requires Normal(d) && !d.zero && !d.negative && !d.scaleNegative
    requires target == FormatUint(n)
    ensures c == SignOf(ValueOf(d) - n as real)
  {
    hide Val, Pow, ValueOf, CompareText, FormatUint;
    WholeSign(d, n);
    TargetBounds(n);
    SignificandValue(d);
    WholeLengths(Val(d.significand), |d.significand|, Val(d.scaleMagnitude), n, |target|);
    if |d.significand| > |target| {
      return 1;
    }
    var neededScale := |target| - |d.significand|;
    var order := CompareMagnitude(d.scaleMagnitude, FormatUint(neededScale));
    if order != 0 {
      return order;
    }
    PaddedValue(d, neededScale);
    CompareValues(d.significand + Zeros(neededScale), target);
    c := ComparePadded(d.significand, target);
  }

  method CompareFraction(d: Decimal, n: nat, target: seq<Byte>, integerDigits: nat) returns (c: int)
    requires Normal(d) && !d.zero && !d.negative && d.scaleNegative
    requires target == FormatUint(n) && n > 0
    requires integerDigits > 0 && integerDigits + Val(d.scaleMagnitude) == |d.significand|
    ensures c == SignOf(ValueOf(d) - n as real)
  {
    hide Val, Pow, ValueOf, CompareText, FormatUint;
    var whole := d.significand[..integerDigits];
    FractionParts(d, integerDigits, n);
    assert IsMagnitude(whole);
    MagnitudeOrder(whole, target);
    if integerDigits < |target| {
      return -1;
    }
    if integerDigits > |target| {
      return 1;
    }
    assert whole + Zeros(0) == whole;
    c := ComparePadded(whole, target);
    if c == 0 {
      c := 1;
    }
  }

  // The numbers an unsigned 64-bit integer holds.
  predicate IsUint64(x: real) {
    0.0 <= x <= MAX_UINT64 as real && x == x.Floor as real
  }

  // The machine integer a decimal is, when it is one.
  method ToUint64(d: Decimal) returns (value: nat, ok: bool)
    requires Normal(d) || d == UNSET
    ensures Normal(d) ==> (ok <==> IsUint64(ValueOf(d)))
    ensures ok ==> Normal(d) && value <= MAX_UINT64 && ValueOf(d) == value as real
    ensures !ok ==> value == 0
  {
    hide Val, Pow, ValueOf;
    ZeroIsZero();
    if d.zero {
      return 0, true;
    }
    if d.negative || !IsInteger(d) {
      if Normal(d) {
        IsIntegerMeans(d);
        ValueSign(d);
      }
      return 0, false;
    }
    var order := CompareUint64(d, MAX_UINT64);
    if order > 0 {
      return 0, false;
    }
    var zeroCount := MagnitudeToSmallInt(d.scaleMagnitude);
    PaddedValue(d, zeroCount);
    WholeSign(d, MAX_UINT64);
    WholeValue(d);
    value := MagnitudeToSmallInt(d.significand + Zeros(zeroCount));
    return value, true;
  }
}
