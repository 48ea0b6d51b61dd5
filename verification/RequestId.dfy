// The key under which a request id is remembered: two accepted ids share a key exactly when they
// mean the same JSON value, however they are spelled.
module RequestId {
  import opened Utf8
  import opened JsonTypes
  import opened JsonGrammar
  import opened JsonNumber
  import opened JsonString
  import opened JsonScanner
  import opened Decimal

  datatype Meaning = Text(decoded: seq<Byte>) | Quantity(value: real)

  // What a scalar text means: its decoded characters, or its number.
  ghost predicate Means(raw: seq<Byte>, meaning: Meaning) {
    match meaning
    case Text(decoded) => StringResult(raw, 0, NO_LIMIT, true) == Ok(Scanned(decoded, |raw|))
    case Quantity(value) => NumberReach(raw, 0) == End(|raw|) && TextValue(raw) == value
  }

  // The key that a meaning has.
  ghost predicate KeyFor(key: seq<Byte>, meaning: Meaning) {
    match meaning
    case Text(decoded) => key == [0x73] + decoded
    case Quantity(value) => exists d :: Normal(d) && ValueOf(d) == value && SemanticKey([], d) == Ok(key)
  }

  // The text is a string or a number and nothing else, and the number can be keyed: it has no
  // more significant digits than a key can hold.
  ghost predicate Identifies(raw: seq<Byte>) {
    || IsText(raw, 0, NO_LIMIT, |raw|)
    || (NumberReach(raw, 0) == End(|raw|) &&
        exists d :: Normal(d) && ValueOf(d) == TextValue(raw) && |d.significand| <= KEY_LIMIT)
  }

  // An id is accepted exactly if it identifies something, and its key is that of its meaning.
  method RequestIdSemanticKey(raw: seq<Byte>) returns (r: Result<seq<Byte>>)
    requires Addressable(raw)
    ensures r.Ok? <==> Identifies(raw)
    ensures r.Ok? ==> exists meaning :: Means(raw, meaning) && KeyFor(r.value, meaning)
    ensures r.Ok? ==> IsJson(raw)
  {
    hide IsJson, StringResult, NumberReach, SemanticKey, ValueOf, TextValue, Normal;
    if |raw| == 0 {
      NothingIdentified(raw);
      return Err(Failure(Syntax, 0));
    }
    var bound := |raw| + 1;
    LimitIsFree(raw, bound);
    var outcome := ScanDocument(raw, Limits(bound, bound, bound, bound, bound, bound), ValidateAll, false);
    if outcome.error.Some? {
      return Err(outcome.error.value.failure);
    }
    match outcome.kind.value {
      case StringKind =>
        var text := ScanString(raw, 0, NO_LIMIT, true, true);
        if text.Err? {
          return Err(text.failure);
        }
        if text.value.end != |raw| {
          return Err(Failure(Syntax, text.value.end));
        }
        assert Means(raw, Text(text.value.decoded)) && KeyFor([0x73] + text.value.decoded, Text(text.value.decoded));
        return Ok([0x73] + text.value.decoded);
      case NumberKind =>
        var number := ParseDecimal(raw);
        if number.Err? {
          return Err(number.failure);
        }
        r := SemanticKey([], number.value);
        NumberIdentified(raw, number.value);
        assert r.Ok? ==> Means(raw, Quantity(TextValue(raw))) && KeyFor(r.value, Quantity(TextValue(raw)));
        return;
      case _ =>
        return Err(Failure(Mismatch, outcome.start));
    }
  }

  lemma NothingIdentified(raw: seq<Byte>)
    requires raw == []
    ensures !Identifies(raw)
  {
  }

  // A limit beyond the text is none.
  lemma LimitIsFree(raw: seq<Byte>, bound: nat)
    requires Addressable(raw) && |raw| < bound
    ensures IsText(raw, 0, bound, |raw|) <==> IsText(raw, 0, NO_LIMIT, |raw|)
    ensures NumberReach(raw, 0) == End(|raw|) && |raw| > 0 ==> IsQuantity(raw, 0, bound, |raw|)
    ensures IsText(raw, 0, NO_LIMIT, |raw|) ==> NumberReach(raw, 0) != End(|raw|)
  {
    hide NumberReach;
    if |raw| > 0 {
      BudgetIsFree(raw, 1, bound, NO_LIMIT, true);
    }
    QuoteIsNoNumber(raw);
  }

  lemma QuoteIsNoNumber(raw: seq<Byte>)
    ensures |raw| > 0 && raw[0] == 0x22 ==> NumberReach(raw, 0) != End(|raw|)
  {
  }

  // The normal form of a number is unique, so its digits decide whether it can be keyed.
  lemma NumberIdentified(raw: seq<Byte>, d: Decimal)
    requires NumberReach(raw, 0) == End(|raw|) && Normal(d) && ValueOf(d) == TextValue(raw)
    ensures SemanticKey([], d).Ok? <==>
      exists e :: Normal(e) && ValueOf(e) == TextValue(raw) && |e.significand| <= KEY_LIMIT
  {
    hide NumberReach, ValueOf, TextValue, SemanticKey, Normal;
    forall e | Normal(e) && ValueOf(e) == TextValue(raw) ensures e == d {
      NormalUnique(d, e);
    }
  }

  lemma KeyStarts(d: Decimal)
    ensures SemanticKey([], d).Ok? ==> |SemanticKey([], d).value| > 0 && SemanticKey([], d).value[0] == 0x6E
  {
  }

  // Keys tell meanings apart and nothing else.
  lemma KeysDecide(a: Meaning, keyA: seq<Byte>, b: Meaning, keyB: seq<Byte>)
    requires KeyFor(keyA, a) && KeyFor(keyB, b)
    ensures keyA == keyB <==> a == b
  {
    hide SemanticKey, ValueOf, Normal;
    if a.Quantity? {
      var c :| Normal(c) && ValueOf(c) == a.value && SemanticKey([], c) == Ok(keyA);
      KeyStarts(c);
      if b.Quantity? {
        var d :| Normal(d) && ValueOf(d) == b.value && SemanticKey([], d) == Ok(keyB);
        KeyLengths(c);
        KeyLengths(d);
        KeyMeansValue(c, d);
      }
    } else {
      assert keyA[1..] == a.decoded;
      if b.Quantity? {
        var d :| Normal(d) && ValueOf(d) == b.value && SemanticKey([], d) == Ok(keyB);
        KeyStarts(d);
      } else {
        assert keyB[1..] == b.decoded;
      }
    }
  }

  lemma KeyLengths(d: Decimal)
    requires Normal(d)
    ensures SemanticKey([], d).Ok? ==> |d.significand| <= KEY_LIMIT
  {
  }

  // Two spellings of ids that both have keys share the key exactly when they mean the same.
  lemma SameKeySameMeaning(rawA: seq<Byte>, keyA: seq<Byte>, a: Meaning, rawB: seq<Byte>, keyB: seq<Byte>, b: Meaning)
    requires Means(rawA, a) && KeyFor(keyA, a) && Means(rawB, b) && KeyFor(keyB, b)
    ensures keyA == keyB <==> a == b
    ensures keyA != keyB ==> rawA != rawB
  {
    hide KeyFor, TextValue, StringResult;
    KeysDecide(a, keyA, b, keyB);
    OneMeaning(rawA, a);
    if rawA == rawB {
      OneMeaning(rawB, b);
      MeaningUnique(rawA, a, b);
    }
  }

  lemma OneMeaning(raw: seq<Byte>, meaning: Meaning)
    requires Means(raw, meaning)
    ensures |raw| > 0 && (meaning.Text? <==> raw[0] == 0x22)
  {
  }

  lemma MeaningUnique(raw: seq<Byte>, a: Meaning, b: Meaning)
    requires Means(raw, a) && Means(raw, b)
    ensures a == b
  {
    OneMeaning(raw, a);
    OneMeaning(raw, b);
  }
}
