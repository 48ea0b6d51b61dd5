// How far a reader has come in the syntax tree of a text: one reading for every container that
// is open, outermost first. The lemmas say how each token moves the trail and what it settles of
// the faults and items that the rest of the text may still have.
module JsonTrail {
  import opened Wrappers
  import opened Utf8
  import opened JsonTypes
  import opened JsonGrammar
  import opened JsonPending
  import opened JsonTree
  import opened JsonFaults

  // An open container: how many of its keys or elements have been begun, and what comes next.
  datatype Reading = Reading(tree: Tree, spot: Spot, read: nat, state: State)

  predicate ReadingOk(r: Reading) {
    match r.state
    case ObjectFirstKeyOrEnd => r.tree.Record? && r.read == 0
    case ObjectKey => r.tree.Record? && r.read < |r.tree.fields|
    case ObjectColon => r.tree.Record? && 0 < r.read <= |r.tree.fields|
    case ObjectValue => r.tree.Record? && 0 < r.read <= |r.tree.fields|
    case ObjectCommaOrEnd => r.tree.Record? && 0 < r.read <= |r.tree.fields|
    case ArrayFirstValueOrEnd => r.tree.List? && r.read == 0
    case ArrayValue => r.tree.List? && r.read < |r.tree.items|
    case ArrayCommaOrEnd => r.tree.List? && 0 < r.read <= |r.tree.items|
  }

  // The bytes from `i` on go on with the container where the reading stands.
  ghost predicate ReadingAt(raw: seq<Byte>, r: Reading, i: nat) {
    ReadingOk(r) &&
    match r.state
    case ObjectFirstKeyOrEnd => FirstFieldFrom(raw, r.tree, i)
    case ObjectKey => FieldsFrom(raw, r.tree, r.read, i)
    case ObjectColon => ColonFrom(raw, r.tree, r.read - 1, i)
    case ObjectValue => FieldValueFrom(raw, r.tree, r.read - 1, i)
    case ObjectCommaOrEnd => AfterFields(raw, r.tree, r.read, i)
    case ArrayFirstValueOrEnd => FirstItemFrom(raw, r.tree, i)
    case ArrayValue => ItemsFrom(raw, r.tree, r.read, i)
    case ArrayCommaOrEnd => AfterItems(raw, r.tree, r.read, i)
  }

  // A container is open inside the value that another one is reading.
  ghost predicate Nested(c: Setting, r: Reading, s: Reading) {
    && ReadingAt(c.raw, r, s.tree.end)
    && (r.state == ObjectCommaOrEnd || r.state == ArrayCommaOrEnd)
    && s.tree == Current(r) && s.spot == CurrentSpot(c, r)
  }

  function Current(r: Reading): Tree
    requires ReadingOk(r) && r.read > 0
  {
    if r.tree.Record? then r.tree.fields[r.read - 1].value else r.tree.items[r.read - 1]
  }

  function CurrentSpot(c: Setting, r: Reading): Spot
    requires ReadingOk(r) && r.read > 0
  {
    if r.tree.Record? then FieldSpot(c, r.spot, r.tree.fields[r.read - 1]) else Inner(r.spot)
  }

  // The reader stands at byte `i` of the text, inside the containers of the trail.
  ghost predicate Follows(c: Setting, text: Tree, trail: seq<Reading>, i: nat) {
    if trail == [] then i == text.end
    else
      && trail[0].tree == text && trail[0].spot == TopSpot
      && ReadingAt(c.raw, trail[|trail| - 1], i)
      && forall k :: 0 <= k < |trail| - 1 ==> Nested(c, trail[k], trail[k + 1])
  }

  // ---- What the rest of the text has ----

  predicate AwaitsValue(r: Reading) {
    r.state == ObjectColon || r.state == ObjectValue
  }

  // What is left of the container, which stands within `depth` others, is free of the fault.
  predicate RestFree(c: Setting, r: Reading, depth: nat, fault: Fault)
    requires ReadingOk(r)
  {
    if r.tree.List? then
      forall k :: r.read <= k < |r.tree.items| ==> Free(c, r.tree.items[k], Inner(r.spot), depth + 1, fault)
    else
      && (AwaitsValue(r) ==> Free(c, Current(r), CurrentSpot(c, r), depth + 1, fault))
      && FieldsFree(c, r.tree, r.read, r.spot, depth, fault)
  }

  predicate FieldsFree(c: Setting, t: Tree, n: nat, spot: Spot, depth: nat, fault: Fault)
    requires t.Record?
  {
    forall k :: n <= k < |t.fields| ==>
      fault !in KeyFaults(c, t.fields, k, SizeLayer(spot), TextLayer(spot))
      && Free(c, t.fields[k].value, FieldSpot(c, spot, t.fields[k]), depth + 1, fault)
  }

  function RestItems(c: Setting, r: Reading, outer: bool): nat
    requires ReadingOk(r)
  {
    if r.tree.List? then ListItems(c, r.tree, r.read, r.spot, outer)
    else
      (if AwaitsValue(r) then Items(c, Current(r), CurrentSpot(c, r), outer) else 0)
        + FieldItems(c, r.tree, r.read, r.spot, outer)
  }

  predicate TrailOk(trail: seq<Reading>) {
    forall k :: 0 <= k < |trail| ==> ReadingOk(trail[k])
  }

  predicate TrailFree(c: Setting, trail: seq<Reading>, fault: Fault)
    requires TrailOk(trail)
  {
    forall k :: 0 <= k < |trail| ==> RestFree(c, trail[k], k, fault)
  }

  function TrailItems(c: Setting, trail: seq<Reading>, outer: bool): nat
    requires TrailOk(trail)
  {
    if trail == [] then 0
    else TrailItems(c, trail[..|trail| - 1], outer) + RestItems(c, trail[|trail| - 1], outer)
  }

  function TrailStates(trail: seq<Reading>): (states: seq<State>)
    ensures |states| == |trail| && forall k :: 0 <= k < |trail| ==> states[k] == trail[k].state
  {
    seq(|trail|, k requires 0 <= k < |trail| => trail[k].state)
  }

  // ---- The top of the trail ----

  lemma TopFree(c: Setting, below: seq<Reading>, r: Reading, fault: Fault)
    requires TrailOk(below) && ReadingOk(r)
    ensures TrailOk(below + [r])
    ensures TrailFree(c, below + [r], fault) <==> TrailFree(c, below, fault) && RestFree(c, r, |below|, fault)
  {
    hide RestFree, ReadingOk;
    var trail := below + [r];
    assert forall k :: 0 <= k < |below| ==> trail[k] == below[k];
    assert trail[|below|] == r;
    if TrailFree(c, trail, fault) {
      assert RestFree(c, trail[|below|], |below|, fault);
      forall k | 0 <= k < |below| ensures RestFree(c, below[k], k, fault) {
        assert RestFree(c, trail[k], k, fault);
      }
    }
  }

  lemma TopItems(c: Setting, below: seq<Reading>, r: Reading, outer: bool)
    requires TrailOk(below) && ReadingOk(r) && TrailOk(below + [r])
    ensures TrailItems(c, below + [r], outer) == TrailItems(c, below, outer) + RestItems(c, r, outer)
  {
    hide RestItems, ReadingOk;
    assert (below + [r])[..|below|] == below;
  }

  // The trail of which `r` is the top, and the same with the top moved on to `s`.
  lemma TopMoves(c: Setting, text: Tree, below: seq<Reading>, r: Reading, i: nat, s: Reading, n: nat)
    requires Follows(c, text, below + [r], i)
    requires s.tree == r.tree && s.spot == r.spot && ReadingAt(c.raw, s, n)
    ensures Follows(c, text, below + [s], n)
  {
    hide ReadingAt, Nested;
    var was, now := below + [r], below + [s];
    assert was[|was| - 1] == r && now[|now| - 1] == s;
    forall k | 0 <= k < |now| - 1 ensures Nested(c, now[k], now[k + 1]) {
      assert now[k] == was[k] && Nested(c, was[k], was[k + 1]);
      assert k + 1 < |now| - 1 ==> now[k + 1] == was[k + 1];
      SameNested(c, now[k], was[k + 1], now[k + 1]);
    }
  }

  lemma SameNested(c: Setting, r: Reading, s: Reading, t: Reading)
    requires Nested(c, r, s) && t.tree == s.tree && t.spot == s.spot
    ensures Nested(c, r, t)
  {
  }

  // A container opens inside the top.
  lemma TopOpens(c: Setting, text: Tree, below: seq<Reading>, r: Reading, s: Reading, n: nat)
    requires Follows(c, text, below + [r], s.tree.end)
    requires Nested(c, r, s) && ReadingAt(c.raw, s, n)
    ensures Follows(c, text, below + [r] + [s], n)
  {
    hide ReadingAt, Nested;
    var was, now := below + [r], below + [r] + [s];
    forall k | 0 <= k < |now| - 1 ensures Nested(c, now[k], now[k + 1]) {
      assert k < |was| - 1 ==> Nested(c, was[k], was[k + 1]);
    }
  }

  // The top closes where its tree ends.
  lemma TopCloses(c: Setting, text: Tree, below: seq<Reading>, r: Reading, i: nat)
    requires Follows(c, text, below + [r], i)
    ensures Follows(c, text, below, r.tree.end)
  {
    hide ReadingAt;
    var was := below + [r];
    assert was[|was| - 1] == r;
    if below != [] {
      assert Nested(c, was[|below| - 1], was[|below|]);
      forall k | 0 <= k < |below| - 1 ensures Nested(c, below[k], below[k + 1]) {
        assert Nested(c, was[k], was[k + 1]);
      }
    }
  }

  // ---- One token ----

  // White space before the next token.
  lemma SpaceReads(raw: seq<Byte>, r: Reading, i: nat, n: nat)
    requires ReadingAt(raw, r, i) && Space(raw, i, n) && Blocked(raw, n)
    ensures ReadingAt(raw, r, n)
  {
    hide Spells, String;
    match r.state
    case ObjectFirstKeyOrEnd =>
      if r.tree.fields != [] {
        FieldsSpace(raw, r.tree, 0, i, n);
      }
    case ObjectKey =>
      FieldsSpace(raw, r.tree, r.read, i, n);
    case ObjectColon =>
      var c: nat :| Space(raw, i, c) && c < |raw| && raw[c] == 0x3A && FieldValueFrom(raw, r.tree, r.read - 1, c + 1);
      assert Space(raw, n, c);
    case ObjectValue =>
      SpellsStart(raw, Current(r));
    case ObjectCommaOrEnd =>
      AfterFieldsSpace(raw, r.tree, r.read, i, n);
    case ArrayFirstValueOrEnd =>
      if r.tree.items != [] {
        ItemsSpace(raw, r.tree, 0, i, n);
      }
    case ArrayValue =>
      ItemsSpace(raw, r.tree, r.read, i, n);
    case ArrayCommaOrEnd =>
      AfterItemsSpace(raw, r.tree, r.read, i, n);
  }

  lemma FieldsSpace(raw: seq<Byte>, t: Tree, k: nat, i: nat, n: nat)
    requires t.Record? && k < |t.fields| && FieldsFrom(raw, t, k, i) && Space(raw, i, n) && Blocked(raw, n)
    ensures FieldsFrom(raw, t, k, n) && n == t.fields[k].key && n < |raw| && raw[n] == 0x22
  {
    hide ColonFrom, Chars;
    SpaceStops(raw, i, n, t.fields[k].key);
  }

  lemma ItemsSpace(raw: seq<Byte>, t: Tree, k: nat, i: nat, n: nat)
    requires t.List? && k < |t.items| && ItemsFrom(raw, t, k, i) && Space(raw, i, n) && Blocked(raw, n)
    ensures ItemsFrom(raw, t, k, n) && n == t.items[k].start && n < |raw| && StartsValue(raw[n])
  {
    hide AfterItems, Spells;
    SpellsStart(raw, t.items[k]);
    SpaceStops(raw, i, n, t.items[k].start);
  }

  lemma AfterFieldsSpace(raw: seq<Byte>, t: Tree, m: nat, i: nat, n: nat)
    requires t.Record? && m <= |t.fields| && AfterFields(raw, t, m, i) && Space(raw, i, n) && Blocked(raw, n)
    ensures AfterFields(raw, t, m, n) && n < |raw|
    ensures if m == |t.fields| then raw[n] == 0x7D && t.end == n + 1 else raw[n] == 0x2C && FieldsFrom(raw, t, m, n + 1)
  {
    hide FieldsFrom;
    var k := NextField(raw, t, m, i);
    SpaceStops(raw, i, n, k);
    assert Space(raw, n, n);
  }

  lemma AfterItemsSpace(raw: seq<Byte>, t: Tree, m: nat, i: nat, n: nat)
    requires t.List? && m <= |t.items| && AfterItems(raw, t, m, i) && Space(raw, i, n) && Blocked(raw, n)
    ensures AfterItems(raw, t, m, n) && n < |raw|
    ensures if m == |t.items| then raw[n] == 0x5D && t.end == n + 1 else raw[n] == 0x2C && ItemsFrom(raw, t, m, n + 1)
  {
    hide ItemsFrom;
    var k := NextItem(raw, t, m, i);
    SpaceStops(raw, i, n, k);
    assert Space(raw, n, n);
  }

  lemma FirstIsThere(raw: seq<Byte>, r: Reading, i: nat)
    requires ReadingAt(raw, r, i) && (r.state == ObjectFirstKeyOrEnd || r.state == ArrayFirstValueOrEnd)
    ensures Space(raw, i, i)
  {
    hide ColonFrom, AfterItems, Spells, String;
    if r.tree.Record? && r.tree.fields != [] {
      assert FieldsFrom(raw, r.tree, 0, i);
    }
    if r.tree.List? && r.tree.items != [] {
      assert ItemsFrom(raw, r.tree, 0, i);
    }
  }

  // A container that may still be empty closes at its bracket exactly when it is.
  lemma FirstReads(raw: seq<Byte>, r: Reading, i: nat)
    requires ReadingAt(raw, r, i) && Blocked(raw, i)
    requires r.state == ObjectFirstKeyOrEnd || r.state == ArrayFirstValueOrEnd
    ensures
      i < |raw| &&
      if r.tree.Width() == 0 then raw[i] == (if r.tree.Record? then 0x7D else 0x5D) && r.tree.end == i + 1
      else if r.tree.Record? then raw[i] != 0x7D && ReadingAt(raw, r.(state := ObjectKey), i)
      else raw[i] != 0x5D && ReadingAt(raw, r.(state := ArrayValue), i)
  {
    hide FieldsFrom, ItemsFrom;
    FirstIsThere(raw, r, i);
    if r.tree.Record? && r.tree.fields != [] {
      FieldsSpace(raw, r.tree, 0, i, i);
    }
    if r.tree.List? && r.tree.items != [] {
      ItemsSpace(raw, r.tree, 0, i, i);
    }
    if r.tree.Width() == 0 {
      SpaceStops(raw, i, i, r.tree.end - 1);
    }
  }

  // After a value comes a comma exactly when the container goes on.
  lemma CommaReads(raw: seq<Byte>, r: Reading, i: nat)
    requires ReadingAt(raw, r, i) && Blocked(raw, i)
    requires r.state == ObjectCommaOrEnd || r.state == ArrayCommaOrEnd
    ensures
      i < |raw| &&
      if r.read == r.tree.Width() then raw[i] == (if r.tree.Record? then 0x7D else 0x5D) && r.tree.end == i + 1
      else raw[i] == 0x2C && ReadingAt(raw, r.(state := if r.tree.Record? then ObjectKey else ArrayValue), i + 1)
  {
    hide FieldsFrom, ItemsFrom;
    assert Space(raw, i, i);
    if r.tree.Record? {
      AfterFieldsSpace(raw, r.tree, r.read, i, i);
    } else {
      AfterItemsSpace(raw, r.tree, r.read, i, i);
    }
  }

  // A key, where one is due.
  lemma KeyReads(raw: seq<Byte>, r: Reading, i: nat)
    requires ReadingAt(raw, r, i) && Blocked(raw, i) && r.state == ObjectKey
    ensures
      var f := r.tree.fields[r.read];
      i == f.key && String(raw, i, f.keyEnd) && ReadingAt(raw, r.(read := r.read + 1, state := ObjectColon), f.keyEnd)
  {
    hide ColonFrom, Chars;
    assert Space(raw, i, i);
    FieldsSpace(raw, r.tree, r.read, i, i);
  }

  lemma ColonReads(raw: seq<Byte>, r: Reading, i: nat)
    requires ReadingAt(raw, r, i) && Blocked(raw, i) && r.state == ObjectColon
    ensures i < |raw| && raw[i] == 0x3A && ReadingAt(raw, r.(state := ObjectValue), i + 1)
  {
    hide FieldValueFrom;
    var c: nat :| Space(raw, i, c) && c < |raw| && raw[c] == 0x3A && FieldValueFrom(raw, r.tree, r.read - 1, c + 1);
    SpaceStops(raw, i, i, c);
  }

  // The reading once the value that is due has been begun.
  function Begun(r: Reading): (s: Reading)
    requires ReadingOk(r) && (r.state == ObjectValue || r.state == ArrayValue)
    ensures ReadingOk(s) && s.read > 0 && s.tree == r.tree && s.spot == r.spot
  {
    if r.state == ObjectValue then r.(state := ObjectCommaOrEnd) else r.(read := r.read + 1, state := ArrayCommaOrEnd)
  }

  // A value, where one is due: it is the tree's, and the container goes on after it.
  lemma ValueReads(raw: seq<Byte>, r: Reading, i: nat)
    requires ReadingAt(raw, r, i) && Blocked(raw, i) && (r.state == ObjectValue || r.state == ArrayValue)
    ensures
      var v := Current(Begun(r));
      i == v.start && Spells(raw, v) && ReadingAt(raw, Begun(r), v.end)
  {
    hide Spells, AfterFields, AfterItems;
    var v := Current(Begun(r));
    SpellsStart(raw, v);
    assert Space(raw, i, i);
    SpaceStops(raw, i, i, v.start);
  }

  // The reading of a container that was just opened.
  function Opened(t: Tree, spot: Spot): (r: Reading)
    requires !t.Scalar?
    ensures ReadingOk(r) && r.tree == t && r.spot == spot
  {
    Reading(t, spot, 0, if t.Record? then ObjectFirstKeyOrEnd else ArrayFirstValueOrEnd)
  }

  lemma OpenReads(raw: seq<Byte>, t: Tree, spot: Spot)
    requires Spells(raw, t) && !t.Scalar?
    ensures ReadingAt(raw, Opened(t, spot), t.start + 1)
  {
    hide FirstFieldFrom, FirstItemFrom;
  }

  // ---- What a token settles ----

  lemma KeySettles(c: Setting, r: Reading, depth: nat, fault: Fault)
    requires ReadingOk(r) && r.tree.Record? && !AwaitsValue(r) && r.read < |r.tree.fields|
    ensures
      var s := r.(read := r.read + 1, state := ObjectColon);
      RestFree(c, r, depth, fault) <==>
        fault !in KeyFaults(c, r.tree.fields, r.read, SizeLayer(r.spot), TextLayer(r.spot))
          && RestFree(c, s, depth, fault)
  {
    hide Free, KeyFaults, FieldSpot;
    var s := r.(read := r.read + 1, state := ObjectColon);
    var fields := r.tree.fields;
    FirstOfFields(c, r.tree, r.read, r.spot, depth, fault);
    assert Current(s) == fields[r.read].value;
  }

  lemma FirstOfFields(c: Setting, t: Tree, n: nat, spot: Spot, depth: nat, fault: Fault)
    requires t.Record? && n < |t.fields|
    ensures FieldsFree(c, t, n, spot, depth, fault) <==>
      fault !in KeyFaults(c, t.fields, n, SizeLayer(spot), TextLayer(spot))
      && Free(c, t.fields[n].value, FieldSpot(c, spot, t.fields[n]), depth + 1, fault)
      && FieldsFree(c, t, n + 1, spot, depth, fault)
  {
    hide Free, KeyFaults, FieldSpot;
  }

  lemma KeyCharges(c: Setting, r: Reading, outer: bool)
    requires ReadingOk(r) && r.tree.Record? && !AwaitsValue(r) && r.read < |r.tree.fields|
    ensures
      var s := r.(read := r.read + 1, state := ObjectColon);
      RestItems(c, r, outer) == Own(r.spot, outer) + RestItems(c, s, outer)
  {
    hide Items, FieldSpot, Own;
    assert Current(r.(read := r.read + 1, state := ObjectColon)) == r.tree.fields[r.read].value;
  }

  lemma ValueSettles(c: Setting, r: Reading, depth: nat, fault: Fault)
    requires ReadingOk(r) && (r.state == ObjectValue || r.state == ArrayValue)
    ensures
      var s := Begun(r);
      RestFree(c, r, depth, fault) <==>
        Free(c, Current(s), CurrentSpot(c, s), depth + 1, fault) && RestFree(c, s, depth, fault)
  {
    hide Free, KeyFaults, FieldSpot;
  }

  lemma ValueCharges(c: Setting, r: Reading, outer: bool)
    requires ReadingOk(r) && (r.state == ObjectValue || r.state == ArrayValue)
    ensures
      var s := Begun(r);
      RestItems(c, r, outer) ==
        (if r.tree.List? then Own(r.spot, outer) else 0)
          + Items(c, Current(s), CurrentSpot(c, s), outer) + RestItems(c, s, outer)
  {
    hide Items, FieldSpot, Own;
  }

  lemma OpenSettles(c: Setting, t: Tree, spot: Spot, depth: nat, fault: Fault)
    requires !t.Scalar?
    ensures Free(c, t, spot, depth, fault) <==>
      fault !in DepthFaults(c, depth, SizeLayer(spot)) && RestFree(c, Opened(t, spot), depth, fault)
  {
    hide KeyFaults, FieldSpot, DepthFaults;
  }

  lemma OpenCharges(c: Setting, t: Tree, spot: Spot, outer: bool)
    requires !t.Scalar?
    ensures Items(c, t, spot, outer) == RestItems(c, Opened(t, spot), outer)
  {
    hide FieldSpot, Own;
  }

  // A change of state that begins nothing settles nothing.
  lemma StateSettles(c: Setting, r: Reading, state: State, depth: nat, fault: Fault, outer: bool)
    requires ReadingOk(r) && ReadingOk(r.(state := state)) && AwaitsValue(r) == AwaitsValue(r.(state := state))
    ensures RestFree(c, r, depth, fault) <==> RestFree(c, r.(state := state), depth, fault)
    ensures RestItems(c, r, outer) == RestItems(c, r.(state := state), outer)
  {
    hide Free, KeyFaults, FieldSpot, Items;
  }

  // A container that was read to its end owes nothing.
  lemma EndSettles(c: Setting, r: Reading, depth: nat, fault: Fault, outer: bool)
    requires ReadingOk(r) && r.read == r.tree.Width() && !AwaitsValue(r)
    ensures RestFree(c, r, depth, fault) && RestItems(c, r, outer) == 0
  {
  }

  // ---- Items are no more than bytes ----

  lemma {:induction false} ItemsBound(c: Setting, t: Tree, spot: Spot, outer: bool)
    requires Spells(c.raw, t)
    ensures Items(c, t, spot, outer) < t.end - t.start
    decreases t, t.Width() + 1
  {
    hide FieldsFrom, ItemsFrom;
    match t
    case Scalar(_, _, _) =>
    case Record(_, _, fields) =>
      if fields != [] {
        FieldItemsBound(c, t, 0, spot, outer, t.start + 1);
      }
    case List(_, _, items) =>
      if items != [] {
        ListItemsBound(c, t, 0, spot, outer, t.start + 1);
      }
  }

  lemma {:induction false} FieldItemsBound(c: Setting, t: Tree, k: nat, spot: Spot, outer: bool, i: nat)
    requires t.Record? && k < |t.fields| && FieldsFrom(c.raw, t, k, i)
    ensures FieldItems(c, t, k, spot, outer) <= t.end - i
    decreases t, |t.fields| - k
  {
    hide Spells, AfterFields, FieldSpot, String;
    var f := t.fields[k];
    KeyAdvances(c.raw, f.key, f.keyEnd);
    var at: nat :| Space(c.raw, f.keyEnd, at) && at < |c.raw| && c.raw[at] == 0x3A
        && FieldValueFrom(c.raw, t, k, at + 1);
    ItemsBound(c, f.value, FieldSpot(c, spot, f), outer);
    var n := NextField(c.raw, t, k + 1, f.value.end);
    if k + 1 < |t.fields| {
      FieldItemsBound(c, t, k + 1, spot, outer, n + 1);
    }
  }

  lemma {:induction false} ListItemsBound(c: Setting, t: Tree, k: nat, spot: Spot, outer: bool, i: nat)
    requires t.List? && k < |t.items| && ItemsFrom(c.raw, t, k, i)
    ensures ListItems(c, t, k, spot, outer) <= t.end - i
    decreases t, |t.items| - k
  {
    hide Spells, AfterItems;
    var v := t.items[k];
    ItemsBound(c, v, Inner(spot), outer);
    var n := NextItem(c.raw, t, k + 1, v.end);
    if k + 1 < |t.items| {
      ListItemsBound(c, t, k + 1, spot, outer, n + 1);
    }
  }
}
