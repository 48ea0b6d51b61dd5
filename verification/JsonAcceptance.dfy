// Which messages the scanner accepts, said without layers: a message that keeps within the limits,
// repeats no key and leaves no surrogate alone is in order, and it is handed on with its arguments.
module JsonAcceptance {
  import opened Wrappers
  import opened Utf8
  import opened JsonTypes
  import opened JsonGrammar
  import opened JsonFrames
  import opened JsonTree
  import opened JsonFaults
  import opened JsonTracking
  import opened JsonLockstep
  import opened JsonScanner

  predicate StringWithin(raw: seq<Byte>, i: nat, j: nat, limit: nat) {
    |Text(raw, i, j)| <= limit && Whole(raw, i, j)
  }

  // Everything in the tree, which stands within `depth` containers, is within its limit; no
  // object repeats a key, and no string leaves a surrogate alone.
  predicate Within(raw: seq<Byte>, limits: Limits, t: Tree, depth: nat)
    decreases t
  {
    match t
    case Scalar(kind, i, j) =>
      && (kind == StringKind ==> StringWithin(raw, i, j, limits.maxStringBytes))
      && (kind == NumberKind ==> j - i <= limits.maxNumberRawBytes)
    case Record(_, _, fields) =>
      && depth < limits.maxDepth && |fields| <= limits.maxObjectMembers
      && (forall i, j :: 0 <= i < j < |fields| ==> KeyText(raw, fields[i]) != KeyText(raw, fields[j]))
      && forall k :: 0 <= k < |fields| ==>
           StringWithin(raw, fields[k].key, fields[k].keyEnd, limits.maxKeyBytes)
           && Within(raw, limits, fields[k].value, depth + 1)
    case List(_, _, items) =>
      depth < limits.maxDepth && forall k :: 0 <= k < |items| ==> Within(raw, limits, items[k], depth + 1)
  }

  ghost predicate Faultless(c: Setting, t: Tree, spot: Spot, depth: nat) {
    forall fault: Fault :: Free(c, t, spot, depth, fault)
  }

  lemma NoTextFaults(raw: seq<Byte>, i: nat, j: nat, limit: nat, size: Layer, text: Layer)
    ensures TextFaults(raw, i, j, limit, size, text) == {} <==> StringWithin(raw, i, j, limit)
  {
    hide Text, Whole;
    if !StringWithin(raw, i, j, limit) {
      assert Fault(size, Resource) in TextFaults(raw, i, j, limit, size, text)
        || Fault(text, Unicode) in TextFaults(raw, i, j, limit, size, text);
    }
  }

  lemma NoKeyFaults(c: Setting, fields: seq<Field>, k: nat, size: Layer, text: Layer)
    requires k < |fields|
    ensures KeyFaults(c, fields, k, size, text) == {} <==>
      k < c.limits.maxObjectMembers && StringWithin(c.raw, fields[k].key, fields[k].keyEnd, c.limits.maxKeyBytes)
      && !Repeated(c.raw, fields, k)
  {
    hide TextFaults, StringWithin, Repeated;
    NoTextFaults(c.raw, fields[k].key, fields[k].keyEnd, c.limits.maxKeyBytes, size, text);
    var faults := KeyFaults(c, fields, k, size, text);
    if k >= c.limits.maxObjectMembers {
      assert Fault(size, Resource) in faults;
    }
    if Repeated(c.raw, fields, k) {
      assert Fault(text, Duplicate) in faults;
    }
  }

  lemma {:induction false} WithinIsFree(c: Setting, t: Tree, spot: Spot, depth: nat, fault: Fault)
    requires Within(c.raw, c.limits, t, depth)
    ensures Free(c, t, spot, depth, fault)
    decreases t
  {
    hide KeyFaults, TextFaults, StringWithin, KeyText, FieldSpot;
    match t
    case Scalar(kind, i, j) =>
      NoTextFaults(c.raw, i, j, c.limits.maxStringBytes, SizeLayer(spot), TextLayer(spot));
    case Record(_, _, fields) =>
      forall k | 0 <= k < |fields|
        ensures fault !in KeyFaults(c, fields, k, SizeLayer(spot), TextLayer(spot))
          && Free(c, fields[k].value, FieldSpot(c, spot, fields[k]), depth + 1, fault) {
        NoKeyFaults(c, fields, k, SizeLayer(spot), TextLayer(spot));
        WithinIsFree(c, fields[k].value, FieldSpot(c, spot, fields[k]), depth + 1, fault);
      }
    case List(_, _, items) =>
      forall k | 0 <= k < |items| ensures Free(c, items[k], Inner(spot), depth + 1, fault) {
        WithinIsFree(c, items[k], Inner(spot), depth + 1, fault);
      }
  }

  lemma {:induction false} FaultlessIsWithin(c: Setting, t: Tree, spot: Spot, depth: nat)
    requires Faultless(c, t, spot, depth)
    ensures Within(c.raw, c.limits, t, depth)
    decreases t
  {
    hide Free, KeyFaults, TextFaults, StringWithin, KeyText, FieldSpot, Repeated;
    match t
    case Scalar(kind, i, j) =>
      NoTextFaults(c.raw, i, j, c.limits.maxStringBytes, SizeLayer(spot), TextLayer(spot));
      ScalarFaultless(c, t, spot, depth);
    case Record(_, _, fields) =>
      RecordFaultless(c, t, spot, depth);
      forall k | 0 <= k < |fields|
        ensures k < c.limits.maxObjectMembers && !Repeated(c.raw, fields, k)
          && StringWithin(c.raw, fields[k].key, fields[k].keyEnd, c.limits.maxKeyBytes)
          && Within(c.raw, c.limits, fields[k].value, depth + 1) {
        NoKeyFaults(c, fields, k, SizeLayer(spot), TextLayer(spot));
        FaultlessIsWithin(c, fields[k].value, FieldSpot(c, spot, fields[k]), depth + 1);
      }
      NoRepeatIsDistinct(c.raw, fields);
      if |fields| > 0 {
        NoKeyFaults(c, fields, |fields| - 1, SizeLayer(spot), TextLayer(spot));
      }
    case List(_, _, items) =>
      ListFaultless(c, t, spot, depth);
      forall k | 0 <= k < |items| ensures Within(c.raw, c.limits, items[k], depth + 1) {
        FaultlessIsWithin(c, items[k], Inner(spot), depth + 1);
      }
  }

  lemma ScalarFaultless(c: Setting, t: Tree, spot: Spot, depth: nat)
    requires t.Scalar? && Faultless(c, t, spot, depth)
    ensures ScalarFaults(c, t, SizeLayer(spot), TextLayer(spot)) == {}
  {
    hide ScalarFaults;
    forall fault ensures fault !in ScalarFaults(c, t, SizeLayer(spot), TextLayer(spot)) {
      assert Free(c, t, spot, depth, fault);
    }
  }

  lemma RecordFaultless(c: Setting, t: Tree, spot: Spot, depth: nat)
    requires t.Record? && Faultless(c, t, spot, depth)
    ensures depth < c.limits.maxDepth
    ensures forall k :: 0 <= k < |t.fields| ==>
      KeyFaults(c, t.fields, k, SizeLayer(spot), TextLayer(spot)) == {}
      && Faultless(c, t.fields[k].value, FieldSpot(c, spot, t.fields[k]), depth + 1)
  {
    hide KeyFaults, FieldSpot;
    assert Free(c, t, spot, depth, Fault(SizeLayer(spot), Resource));
    forall k | 0 <= k < |t.fields|
      ensures KeyFaults(c, t.fields, k, SizeLayer(spot), TextLayer(spot)) == {}
        && Faultless(c, t.fields[k].value, FieldSpot(c, spot, t.fields[k]), depth + 1) {
      forall fault: Fault
        ensures fault !in KeyFaults(c, t.fields, k, SizeLayer(spot), TextLayer(spot))
          && Free(c, t.fields[k].value, FieldSpot(c, spot, t.fields[k]), depth + 1, fault) {
        assert Free(c, t, spot, depth, fault);
      }
    }
  }

  lemma ListFaultless(c: Setting, t: Tree, spot: Spot, depth: nat)
    requires t.List? && Faultless(c, t, spot, depth)
    ensures depth < c.limits.maxDepth
    ensures forall k :: 0 <= k < |t.items| ==> Faultless(c, t.items[k], Inner(spot), depth + 1)
  {
    assert Free(c, t, spot, depth, Fault(SizeLayer(spot), Resource));
    forall k | 0 <= k < |t.items| ensures Faultless(c, t.items[k], Inner(spot), depth + 1) {
      ItemFaultless(c, t, k, spot, depth);
    }
  }

  lemma ItemFaultless(c: Setting, t: Tree, k: nat, spot: Spot, depth: nat)
    requires t.List? && k < |t.items| && Faultless(c, t, spot, depth)
    ensures Faultless(c, t.items[k], Inner(spot), depth + 1)
  {
    var inner, below, deeper := t.items[k], Inner(spot), depth + 1;
    forall fault ensures Free(c, inner, below, deeper, fault) {
      assert Free(c, t, spot, depth, fault);
    }
  }

  lemma NoRepeatIsDistinct(raw: seq<Byte>, fields: seq<Field>)
    requires forall k :: 0 <= k < |fields| ==> !Repeated(raw, fields, k)
    ensures forall i, j :: 0 <= i < j < |fields| ==> KeyText(raw, fields[i]) != KeyText(raw, fields[j])
  {
    hide KeyText;
    forall i, j | 0 <= i < j < |fields| ensures KeyText(raw, fields[i]) != KeyText(raw, fields[j]) {
      assert !Repeated(raw, fields, j);
    }
  }

  // ---- Items ----

  lemma {:induction false} OuterItemsAreItems(c: Setting, t: Tree, spot: Spot)
    ensures Items(c, t, spot, true) <= Items(c, t, spot, false)
    decreases t, t.Width() + 1
  {
    match t
    case Scalar(_, _, _) =>
    case Record(_, _, _) => OuterFieldsAreFields(c, t, 0, spot);
    case List(_, _, _) => OuterElementsAreElements(c, t, 0, spot);
  }

  lemma {:induction false} OuterFieldsAreFields(c: Setting, t: Tree, k: nat, spot: Spot)
    requires t.Record? && k <= |t.fields|
    ensures FieldItems(c, t, k, spot, true) <= FieldItems(c, t, k, spot, false)
    decreases t, |t.fields| - k
  {
    hide FieldSpot;
    if k < |t.fields| {
      OuterItemsAreItems(c, t.fields[k].value, FieldSpot(c, spot, t.fields[k]));
      OuterFieldsAreFields(c, t, k + 1, spot);
    }
  }

  lemma {:induction false} OuterElementsAreElements(c: Setting, t: Tree, k: nat, spot: Spot)
    requires t.List? && k <= |t.items|
    ensures ListItems(c, t, k, spot, true) <= ListItems(c, t, k, spot, false)
    decreases t, |t.items| - k
  {
    if k < |t.items| {
      OuterItemsAreItems(c, t.items[k], Inner(spot));
      OuterElementsAreElements(c, t, k + 1, spot);
    }
  }

  // ---- The outcome ----

  // A message that is an object within the limits, whose arguments are an object if it calls a tool.
  predicate Good(c: Setting, t: Tree) {
    && t.Kind() == ObjectKind && Within(c.raw, c.limits, t, 0)
    && Items(c, t, TopSpot, false) <= c.limits.maxContainerItems
    && (IsToolCall(c.raw, t) && MessageArguments(c, t).Some? ==> MessageArguments(c, t).value.Kind() == ObjectKind)
  }

  // A message is good exactly when its envelope and its params are in order and no fault of its
  // raw arguments is held back.
  lemma GoodIsInOrder(c: Setting, t: Tree)
    ensures Good(c, t) <==> OuterInOrder(c, t) && ParamsInOrder(c, t) && Clean(c, t, HeldLayer)
  {
    hide Free, Within, Items, MessageArguments;
    OuterItemsAreItems(c, t, TopSpot);
    LayersAreAll(c, t);
    if Faultless(c, t, TopSpot, 0) {
      FaultlessIsWithin(c, t, TopSpot, 0);
    }
    if Within(c.raw, c.limits, t, 0) {
      forall fault ensures Free(c, t, TopSpot, 0, fault) {
        WithinIsFree(c, t, TopSpot, 0, fault);
      }
    }
  }

  lemma LayersAreAll(c: Setting, t: Tree)
    ensures Faultless(c, t, TopSpot, 0) <==>
      Clean(c, t, OuterLayer) && Clean(c, t, ParamsLayer) && Clean(c, t, HeldLayer)
  {
    hide Free;
    if Clean(c, t, OuterLayer) && Clean(c, t, ParamsLayer) && Clean(c, t, HeldLayer) {
      forall fault: Fault ensures Free(c, t, TopSpot, 0, fault) {
        match fault.layer
        case OuterLayer => assert Clean(c, t, OuterLayer);
        case ParamsLayer => assert Clean(c, t, ParamsLayer);
        case HeldLayer => assert Clean(c, t, HeldLayer);
      }
    }
  }

  // A good message is accepted, and the arguments handed on are the value at `params.arguments`
  // when a tool is called.
  lemma GoodIsAccepted(c: Setting, collect: bool, t: Tree, outcome: Outcome, p: nat, q: nat, a: Tree)
    requires Verdict(c, collect, t, outcome) && Good(c, t)
    ensures outcome.error == None && outcome.kind == Some(ObjectKind) && outcome.start == t.start
            && outcome.end == t.end
    ensures c.mode == ProtocolWithRawArguments && IsToolCall(c.raw, t) && ArgumentsAre(c, t, p, q, a) ==>
      outcome.arguments == ArgumentsAt(a.Kind(), a.start, a.end)
    ensures outcome.arguments.ArgumentsAt? ==>
      IsToolCall(c.raw, t) &&
      exists i: nat, j: nat, b: Tree ::
        ArgumentsAre(c, t, i, j, b) && outcome.arguments == ArgumentsAt(b.Kind(), b.start, b.end)
  {
    hide Free, Within, Items, MessageArguments, Clean, LastField;
    GoodIsInOrder(c, t);
    ArgumentsNeedProtocol(c, t);
    if c.mode == ProtocolWithRawArguments && t.Record? {
      ArgumentsStand(c, t);
    }
    if outcome.arguments.ArgumentsAt? {
      RecordHasArguments(c, t);
      var b := MessageArguments(c, t).value;
      var i: nat, j: nat :| ArgumentsAre(c, t, i, j, b);
    }
  }

  lemma RecordHasArguments(c: Setting, t: Tree)
    ensures MessageArguments(c, t).Some? ==> t.Record?
  {
  }
}
