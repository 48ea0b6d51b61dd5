// Scanning a JSON number by taking the longest run of bytes at every part.
module JsonNumber {
  import opened Utf8
  import opened JsonTypes
  import opened JsonGrammar
  import opened JsonPending

  // Where the longest match ends, or the position at which the bytes stop being a number.
  datatype Reach = End(position: nat) | Stop(position: nat)

  function RunEnd(raw: seq<Byte>, i: nat): (e: nat)
    requires i <= |raw|
    ensures i <= e <= |raw|
    ensures i < e ==> Digits(raw, i, e)
    ensures e < |raw| ==> !IsDigit(raw[e])
    decreases |raw| - i
  {
    if i < |raw| && IsDigit(raw[i]) then RunEnd(raw, i + 1) else i
  }

  function IntegerReach(raw: seq<Byte>, i: nat): (r: Reach)
    requires i <= |raw|
    ensures i <= r.position <= |raw|
    ensures r.End? ==> Integer(raw, i, r.position)
  {
    if i == |raw| || !IsDigit(raw[i]) then Stop(i)
    else if raw[i] == 0x30 then End(i + 1)
    else End(RunEnd(raw, i))
  }

  function DigitsReach(raw: seq<Byte>, i: nat): (r: Reach)
    requires i <= |raw|
    ensures i <= r.position <= |raw|
    ensures r.End? ==> Digits(raw, i, r.position)
  {
    if i == |raw| || !IsDigit(raw[i]) then Stop(i) else End(RunEnd(raw, i))
  }

  function FractionReach(raw: seq<Byte>, i: nat): (r: Reach)
    requires i <= |raw|
    ensures i <= r.position <= |raw|
    ensures r.End? ==> Fraction(raw, i, r.position)
  {
    if i < |raw| && raw[i] == 0x2E then DigitsReach(raw, i + 1) else End(i)
  }

  function ExponentReach(raw: seq<Byte>, i: nat): (r: Reach)
    requires i <= |raw|
    ensures i <= r.position <= |raw|
    ensures r.End? ==> Exponent(raw, i, r.position)
  {
    if i < |raw| && (raw[i] == 0x65 || raw[i] == 0x45) then
      if i + 1 < |raw| && (raw[i + 1] == 0x2B || raw[i + 1] == 0x2D) then DigitsReach(raw, i + 2)
      else DigitsReach(raw, i + 1)
    else End(i)
  }

  function NumberReach(raw: seq<Byte>, i: nat): (r: Reach)
    requires i <= |raw|
    ensures i <= r.position <= |raw|
    ensures r.End? ==> i < r.position
  {
    var whole := IntegerReach(raw, if i < |raw| && raw[i] == 0x2D then i + 1 else i);
    if whole.Stop? then whole
    else
      var part := FractionReach(raw, whole.position);
      if part.Stop? then part else ExponentReach(raw, part.position)
  }

  // What scanning up to a reach reports when `limit` raw bytes may be taken from `start` on.
  function Limited(raw: seq<Byte>, start: nat, limit: nat, reach: Reach): (r: Result<nat>)
    requires start <= reach.position
  {
    if reach.position - start > limit then Err(Failure(Resource, start + limit))
    else if reach.End? then Ok(reach.position)
    else Err(InvalidAt(raw, reach.position))
  }

  function NumberResult(raw: seq<Byte>, i: nat, limit: nat): (r: Result<nat>)
    requires i <= |raw|
  {
    Limited(raw, i, limit, NumberReach(raw, i))
  }

  // Nothing that follows a complete number could have prolonged it.
  predicate Delimited(raw: seq<Byte>, j: nat) {
    j >= |raw| || !(IsDigit(raw[j]) || raw[j] == 0x2E || raw[j] == 0x65 || raw[j] == 0x45)
  }

  lemma ReachIsNumber(raw: seq<Byte>, i: nat)
    requires i <= |raw| && NumberReach(raw, i).End?
    ensures Number(raw, i, NumberReach(raw, i).position)
  {
    var start := if i < |raw| && raw[i] == 0x2D then i + 1 else i;
    var a := IntegerReach(raw, start).position;
    var b := FractionReach(raw, a).position;
    var j := ExponentReach(raw, b).position;
    assert Integer(raw, start, a) && Fraction(raw, a, b) && Exponent(raw, b, j);
    assert Unsigned(raw, start, j);
  }

  lemma RunIsWhole(raw: seq<Byte>, i: nat, j: nat)
    requires Digits(raw, i, j) && (j < |raw| ==> !IsDigit(raw[j]))
    ensures RunEnd(raw, i) == j
  {
    assert RunEnd(raw, i) < |raw| ==> !IsDigit(raw[RunEnd(raw, i)]);
  }

  lemma UnsignedIsReach(raw: seq<Byte>, i: nat, j: nat)
    requires Unsigned(raw, i, j) && Delimited(raw, j)
    ensures i < j <= |raw| && IntegerReach(raw, i).End?
    ensures FractionReach(raw, IntegerReach(raw, i).position).End?
    ensures ExponentReach(raw, FractionReach(raw, IntegerReach(raw, i).position).position) == End(j)
  {
    var a: nat, b: nat :| Integer(raw, i, a) && Fraction(raw, a, b) && Exponent(raw, b, j);
    ExponentIsReach(raw, b, j);
    FractionIsReach(raw, a, b);
    if raw[i] != 0x30 {
      RunIsWhole(raw, i, a);
    }
  }

  lemma FractionIsReach(raw: seq<Byte>, i: nat, j: nat)
    requires i <= |raw| && Fraction(raw, i, j) && (j < |raw| ==> !IsDigit(raw[j]) && raw[j] != 0x2E)
    ensures FractionReach(raw, i) == End(j)
    ensures i < |raw| ==> i == j || raw[i] == 0x2E
  {
    if i != j {
      RunIsWhole(raw, i + 1, j);
    }
  }

  lemma ExponentIsReach(raw: seq<Byte>, i: nat, j: nat)
    requires i <= |raw| && Exponent(raw, i, j) && Delimited(raw, j)
    ensures ExponentReach(raw, i) == End(j)
    ensures i < |raw| ==> i == j || raw[i] == 0x65 || raw[i] == 0x45
  {
    if i != j {
      RunIsWhole(raw, if Digits(raw, i + 1, j) then i + 1 else i + 2, j);
    }
  }

  // A number with something else after it is exactly what the greedy scan finds.
  lemma NumberIsReach(raw: seq<Byte>, i: nat, j: nat)
    requires Number(raw, i, j) && Delimited(raw, j)
    ensures i < j <= |raw| && NumberReach(raw, i) == End(j)
  {
    hide Unsigned;
    if Unsigned(raw, i, j) {
      UnsignedIsReach(raw, i, j);
    } else {
      UnsignedIsReach(raw, i + 1, j);
    }
  }

  lemma DebtDelimits(raw: seq<Byte>, k: nat, stack: seq<State>)
    requires AfterValue(stack) && Completes(raw, k, stack)
    ensures Delimited(raw, k)
  {
    if stack != [] {
      var top, below := stack[|stack| - 1], stack[..|stack| - 1];
      var j: nat :| Rest(top, raw, k, j) && Completes(raw, j, below);
    }
  }

  lemma NumberValue(raw: seq<Byte>, i: nat, stack: seq<State>)
    requires AfterValue(stack) && i < |raw| && (raw[i] == 0x2D || IsDigit(raw[i]))
    ensures NumberReach(raw, i).End? ==>
              (ValueThen(raw, i, stack) <==> Completes(raw, NumberReach(raw, i).position, stack))
    ensures NumberReach(raw, i).Stop? ==> !ValueThen(raw, i, stack)
  {
    hide Number, Completes, NumberReach;
    forall k: nat ensures Value(raw, i, k) <==> i < k <= |raw| && Number(raw, i, k) {
      LiteralStart(raw, i, k);
    }
    if NumberReach(raw, i).End? {
      ReachIsNumber(raw, i);
    }
    forall k: nat | Value(raw, i, k) && Completes(raw, k, stack) ensures NumberReach(raw, i) == End(k) {
      DebtDelimits(raw, k, stack);
      NumberIsReach(raw, i, k);
    }
  }
}
