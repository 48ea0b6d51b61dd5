// What may be wrong with a message that is JSON, told on its syntax tree: limits exceeded,
// surrogates that stand alone and keys that repeat, each with the layer that answers for it.
module JsonFaults {
  import opened Wrappers
  import opened Utf8
  import opened JsonTypes
  import opened JsonGrammar
  import opened JsonTree

  // A message and how it is to be read.
  datatype Setting = Setting(raw: seq<Byte>, limits: Limits, mode: Mode)

  // The envelope answers for what is outside `params`, the params for what is inside; a fault of
  // the text of raw arguments is held back, as the tool may be the one to report it.
  datatype Layer = OuterLayer | ParamsLayer | HeldLayer

  datatype Fault = Fault(layer: Layer, kind: ErrorKind)

  // Where a value stands: the message, inside its envelope, its params, inside them, the raw
  // arguments, inside them.
  datatype Spot = TopSpot | OuterSpot | ParamsTop | ParamsSpot | ArgumentsTop | ArgumentsSpot

  predicate InArguments(spot: Spot) {
    spot == ArgumentsTop || spot == ArgumentsSpot
  }

  function SizeLayer(spot: Spot): (layer: Layer) {
    if spot == TopSpot || spot == OuterSpot then OuterLayer else ParamsLayer
  }

  function TextLayer(spot: Spot): (layer: Layer) {
    if InArguments(spot) then HeldLayer else SizeLayer(spot)
  }

  function Inner(spot: Spot): (inner: Spot) {
    match spot
    case TopSpot => OuterSpot
    case ParamsTop => ParamsSpot
    case ArgumentsTop => ArgumentsSpot
    case _ => spot
  }

  function KeyText(raw: seq<Byte>, f: Field): seq<Byte> {
    Text(raw, f.key, f.keyEnd)
  }

  function FieldSpot(c: Setting, spot: Spot, f: Field): (inner: Spot) {
    if c.mode != ProtocolWithRawArguments then Inner(spot)
    else if spot == TopSpot && KeyText(c.raw, f) == PARAMS_KEY then ParamsTop
    else if spot == ParamsTop && KeyText(c.raw, f) == ARGUMENTS_KEY then ArgumentsTop
    else Inner(spot)
  }

  // ---- The faults of one token ----

  function When(present: bool, fault: Fault): set<Fault> {
    if present then {fault} else {}
  }

  // A string whose text is too long, or that has a surrogate standing alone.
  function TextFaults(raw: seq<Byte>, i: nat, j: nat, limit: nat, size: Layer, text: Layer): set<Fault> {
    When(|Text(raw, i, j)| > limit, Fault(size, Resource)) + When(!Whole(raw, i, j), Fault(text, Unicode))
  }

  function ScalarFaults(c: Setting, t: Tree, size: Layer, text: Layer): set<Fault>
    requires t.Scalar?
  {
    match t.scalar
    case StringKind => TextFaults(c.raw, t.start, t.end, c.limits.maxStringBytes, size, text)
    case NumberKind => When(t.end - t.start > c.limits.maxNumberRawBytes, Fault(size, Resource))
    case _ => {}
  }

  // A container with as many around it as may nest.
  function DepthFaults(c: Setting, depth: nat, size: Layer): set<Fault> {
    When(depth >= c.limits.maxDepth, Fault(size, Resource))
  }

  // A member with as many before it as an object may have.
  function CountFaults(c: Setting, k: nat, size: Layer): set<Fault> {
    When(k >= c.limits.maxObjectMembers, Fault(size, Resource))
  }

  predicate Repeated(raw: seq<Byte>, fields: seq<Field>, k: nat)
    requires k < |fields|
  {
    exists j :: 0 <= j < k && KeyText(raw, fields[j]) == KeyText(raw, fields[k])
  }

  // The key of member number `k`: its place, its text, and whether it was there before.
  function KeyFaults(c: Setting, fields: seq<Field>, k: nat, size: Layer, text: Layer): set<Fault>
    requires k < |fields|
  {
    CountFaults(c, k, size) +
    TextFaults(c.raw, fields[k].key, fields[k].keyEnd, c.limits.maxKeyBytes, size, text) +
    When(Repeated(c.raw, fields, k), Fault(text, Duplicate))
  }

  // ---- The faults of a tree ----

  // The fault is nowhere in the tree, which stands at `spot` within `depth` containers.
  predicate Free(c: Setting, t: Tree, spot: Spot, depth: nat, fault: Fault)
    decreases t
  {
    match t
    case Scalar(_, _, _) => fault !in ScalarFaults(c, t, SizeLayer(spot), TextLayer(spot))
    case Record(_, _, fields) =>
      fault !in DepthFaults(c, depth, SizeLayer(spot)) &&
      forall k :: 0 <= k < |fields| ==>
        fault !in KeyFaults(c, fields, k, SizeLayer(spot), TextLayer(spot))
        && Free(c, fields[k].value, FieldSpot(c, spot, fields[k]), depth + 1, fault)
    case List(_, _, items) =>
      fault !in DepthFaults(c, depth, SizeLayer(spot)) &&
      forall k :: 0 <= k < |items| ==> Free(c, items[k], Inner(spot), depth + 1, fault)
  }

  // A layer that has nothing to answer for.
  ghost predicate Clean(c: Setting, t: Tree, layer: Layer) {
    forall kind: ErrorKind :: Free(c, t, TopSpot, 0, Fault(layer, kind))
  }

  // ---- Items ----

  function Own(spot: Spot, outer: bool): (n: nat) {
    if outer && SizeLayer(spot) != OuterLayer then 0 else 1
  }

  // The members and elements in a tree: all of them, or those that belong to the envelope.
  function Items(c: Setting, t: Tree, spot: Spot, outer: bool): nat
    decreases t, t.Width() + 1
  {
    match t
    case Scalar(_, _, _) => 0
    case Record(_, _, _) => FieldItems(c, t, 0, spot, outer)
    case List(_, _, _) => ListItems(c, t, 0, spot, outer)
  }

  function FieldItems(c: Setting, t: Tree, k: nat, spot: Spot, outer: bool): nat
    requires t.Record? && k <= |t.fields|
    decreases t, |t.fields| - k
  {
    if k == |t.fields| then 0
    else
      Own(spot, outer) + Items(c, t.fields[k].value, FieldSpot(c, spot, t.fields[k]), outer)
        + FieldItems(c, t, k + 1, spot, outer)
  }

  function ListItems(c: Setting, t: Tree, k: nat, spot: Spot, outer: bool): nat
    requires t.List? && k <= |t.items|
    decreases t, |t.items| - k
  {
    if k == |t.items| then 0
    else Own(spot, outer) + Items(c, t.items[k], Inner(spot), outer) + ListItems(c, t, k + 1, spot, outer)
  }

  // ---- The method and the raw arguments ----

  // The value of the last of the first `n` members that has this key.
  function LastField(raw: seq<Byte>, fields: seq<Field>, n: nat, key: seq<Byte>): Option<Tree>
    requires n <= |fields|
  {
    if n == 0 then None
    else if KeyText(raw, fields[n - 1]) == key then Some(fields[n - 1].value)
    else LastField(raw, fields, n - 1, key)
  }

  predicate IsString(m: Option<Tree>) {
    m.Some? && m.value.Kind() == StringKind
  }

  predicate IsToolCall(raw: seq<Byte>, t: Tree) {
    t.Record? &&
    var m := LastField(raw, t.fields, |t.fields|, METHOD_KEY);
    IsString(m) && Text(raw, m.value.start, m.value.end) == TOOLS_CALL
  }

  // What the value of one member of the message contributes to the raw arguments.
  function ArgumentsOf(c: Setting, f: Field): Option<Tree> {
    if c.mode == ProtocolWithRawArguments && KeyText(c.raw, f) == PARAMS_KEY && f.value.Record? then
      LastField(c.raw, f.value.fields, |f.value.fields|, ARGUMENTS_KEY)
    else None
  }

  function Later(a: Option<Tree>, b: Option<Tree>): Option<Tree> {
    if b.Some? then b else a
  }

  function ArgumentsIn(c: Setting, fields: seq<Field>, n: nat): Option<Tree>
    requires n <= |fields|
  {
    if n == 0 then None else Later(ArgumentsIn(c, fields, n - 1), ArgumentsOf(c, fields[n - 1]))
  }

  function MessageArguments(c: Setting, t: Tree): Option<Tree> {
    if t.Record? then ArgumentsIn(c, t.fields, |t.fields|) else None
  }

  // The arguments of a tool are an object; those of anything else are judged with the params.
  ghost predicate ArgumentsPlaced(c: Setting, t: Tree) {
    var a := MessageArguments(c, t);
    a.None? || if IsToolCall(c.raw, t) then a.value.Kind() == ObjectKind else Clean(c, t, HeldLayer)
  }

  // ---- The message ----

  ghost predicate OuterInOrder(c: Setting, t: Tree) {
    t.Kind() == ObjectKind && Clean(c, t, OuterLayer) && Items(c, t, TopSpot, true) <= c.limits.maxContainerItems
  }

  ghost predicate ParamsInOrder(c: Setting, t: Tree) {
    Clean(c, t, ParamsLayer) && Items(c, t, TopSpot, false) <= c.limits.maxContainerItems && ArgumentsPlaced(c, t)
  }

  // What an error of a kind, filed under a layer, says of the message.
  ghost predicate Witnessed(c: Setting, t: Tree, layer: Layer, kind: ErrorKind) {
    match kind
    case Syntax => false
    case Mismatch =>
      if layer == OuterLayer then t.Kind() != ObjectKind
      else
        var a := MessageArguments(c, t);
        a.Some? && IsToolCall(c.raw, t) && a.value.Kind() != ObjectKind
    case Resource =>
      !Free(c, t, TopSpot, 0, Fault(layer, Resource))
        || Items(c, t, TopSpot, layer == OuterLayer) > c.limits.maxContainerItems
    case _ =>
      !Free(c, t, TopSpot, 0, Fault(layer, kind))
        || (layer == ParamsLayer && MessageArguments(c, t).Some? && !IsToolCall(c.raw, t)
              && !Free(c, t, TopSpot, 0, Fault(HeldLayer, kind)))
  }

  // Tokens of a text that is JSON are not at fault for its syntax, nor for what stands where, and
  // what exceeds a limit is never held back.
  lemma {:induction false} NoSuchFault(c: Setting, t: Tree, spot: Spot, depth: nat, fault: Fault)
    requires fault.kind == Syntax || fault.kind == Mismatch || fault == Fault(HeldLayer, Resource)
    ensures Free(c, t, spot, depth, fault)
    decreases t
  {
    hide Text, Whole, Repeated, FieldSpot;
    match t
    case Scalar(_, _, _) =>
    case Record(_, _, fields) =>
      forall k | 0 <= k < |fields| ensures Free(c, fields[k].value, FieldSpot(c, spot, fields[k]), depth + 1, fault) {
        NoSuchFault(c, fields[k].value, FieldSpot(c, spot, fields[k]), depth + 1, fault);
      }
    case List(_, _, items) =>
      forall k | 0 <= k < |items| ensures Free(c, items[k], Inner(spot), depth + 1, fault) {
        NoSuchFault(c, items[k], Inner(spot), depth + 1, fault);
      }
  }

  // Only the protocol's own reading has raw arguments.
  lemma {:induction false} ArgumentsNeedProtocol(c: Setting, t: Tree)
    ensures MessageArguments(c, t).Some? ==> c.mode == ProtocolWithRawArguments
  {
    if t.Record? {
      NoArgumentsOtherwise(c, t.fields, |t.fields|);
    }
  }

  lemma {:induction false} NoArgumentsOtherwise(c: Setting, fields: seq<Field>, n: nat)
    requires n <= |fields|
    ensures c.mode != ProtocolWithRawArguments ==> ArgumentsIn(c, fields, n).None?
  {
    if n > 0 {
      NoArgumentsOtherwise(c, fields, n - 1);
    }
  }

  // ---- The arguments of a message whose keys do not repeat ----

  lemma {:induction false} OnlyField(raw: seq<Byte>, fields: seq<Field>, n: nat, k: nat)
    requires k < n <= |fields| && forall j :: 0 <= j < |fields| ==> !Repeated(raw, fields, j)
    ensures LastField(raw, fields, n, KeyText(raw, fields[k])) == Some(fields[k].value)
  {
    if n - 1 != k {
      assert !Repeated(raw, fields, n - 1);
      OnlyField(raw, fields, n - 1, k);
    }
  }

  lemma {:induction false} NoField(raw: seq<Byte>, fields: seq<Field>, n: nat, key: seq<Byte>)
    requires n <= |fields|
    ensures
      var m := LastField(raw, fields, n, key);
      if m.None? then forall k :: 0 <= k < n ==> KeyText(raw, fields[k]) != key
      else exists k :: 0 <= k < n && KeyText(raw, fields[k]) == key && m == Some(fields[k].value)
  {
    if n > 0 {
      NoField(raw, fields, n - 1, key);
    }
  }

  // The value that stands at `params.arguments`, of members number `p` and `q`.
  predicate ArgumentsAre(c: Setting, t: Tree, p: nat, q: nat, a: Tree) {
    && t.Record? && p < |t.fields| && KeyText(c.raw, t.fields[p]) == PARAMS_KEY
    && t.fields[p].value.Record? && q < |t.fields[p].value.fields|
    && KeyText(c.raw, t.fields[p].value.fields[q]) == ARGUMENTS_KEY && t.fields[p].value.fields[q].value == a
  }

  // Where no key repeats, the raw arguments are the value at `params.arguments`, if there is one.
  lemma ArgumentsStand(c: Setting, t: Tree)
    requires c.mode == ProtocolWithRawArguments
    requires t.Record? && Clean(c, t, OuterLayer) && Clean(c, t, ParamsLayer)
    ensures forall p: nat, q: nat, a: Tree :: ArgumentsAre(c, t, p, q, a) ==> MessageArguments(c, t) == Some(a)
    ensures MessageArguments(c, t).Some? ==>
      exists p: nat, q: nat :: ArgumentsAre(c, t, p, q, MessageArguments(c, t).value)
  {
    forall p: nat, q: nat, a: Tree | ArgumentsAre(c, t, p, q, a) ensures MessageArguments(c, t) == Some(a) {
      OnlyArguments(c, t, p, q, a, |t.fields|);
    }
    SomeArguments(c, t, |t.fields|);
  }

  lemma NoRepeats(c: Setting, fields: seq<Field>, k: nat, spot: Spot)
    requires k < |fields|
    requires Fault(TextLayer(spot), Duplicate) !in KeyFaults(c, fields, k, SizeLayer(spot), TextLayer(spot))
    ensures !Repeated(c.raw, fields, k)
  {
    hide Repeated;
  }

  lemma {:induction false} OnlyArguments(c: Setting, t: Tree, p: nat, q: nat, a: Tree, n: nat)
    requires c.mode == ProtocolWithRawArguments && ArgumentsAre(c, t, p, q, a) && p < n <= |t.fields|
    requires Clean(c, t, OuterLayer) && Clean(c, t, ParamsLayer)
    ensures ArgumentsIn(c, t.fields, n) == Some(a)
  {
    hide KeyFaults, KeyText, Repeated, LastField;
    var inner := t.fields[p].value;
    assert Free(c, t, TopSpot, 0, Fault(OuterLayer, Duplicate))
           && Free(c, t, TopSpot, 0, Fault(ParamsLayer, Duplicate));
    assert Free(c, inner, ParamsTop, 1, Fault(ParamsLayer, Duplicate));
    forall j | 0 <= j < |inner.fields| ensures !Repeated(c.raw, inner.fields, j) {
      NoRepeats(c, inner.fields, j, ParamsTop);
    }
    if n - 1 == p {
      OnlyField(c.raw, inner.fields, |inner.fields|, q);
    } else {
      NoRepeats(c, t.fields, n - 1, TopSpot);
      ParamsOnce(c.raw, t.fields, p, n - 1);
      OnlyArguments(c, t, p, q, a, n - 1);
    }
  }

  lemma ParamsOnce(raw: seq<Byte>, fields: seq<Field>, p: nat, k: nat)
    requires p < k < |fields| && !Repeated(raw, fields, k)
    ensures KeyText(raw, fields[k]) != KeyText(raw, fields[p])
  {
  }

  lemma {:induction false} SomeArguments(c: Setting, t: Tree, n: nat)
    requires c.mode == ProtocolWithRawArguments && t.Record? && n <= |t.fields|
    ensures ArgumentsIn(c, t.fields, n).Some? ==>
      exists p: nat, q: nat :: ArgumentsAre(c, t, p, q, ArgumentsIn(c, t.fields, n).value)
  {
    hide KeyText, LastField;
    if n > 0 {
      var own := ArgumentsOf(c, t.fields[n - 1]);
      if own.Some? {
        var inner := t.fields[n - 1].value;
        NoField(c.raw, inner.fields, |inner.fields|, ARGUMENTS_KEY);
        var q :| 0 <= q < |inner.fields| && KeyText(c.raw, inner.fields[q]) == ARGUMENTS_KEY
          && own == Some(inner.fields[q].value);
        assert ArgumentsAre(c, t, n - 1, q, own.value);
      } else {
        SomeArguments(c, t, n - 1);
      }
    }
  }
}
