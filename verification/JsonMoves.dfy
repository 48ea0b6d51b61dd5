// One move of the scanner at a time: each keeps the lockstep with the syntax tree.
module JsonMoves {
  import opened Wrappers
  import opened Utf8
  import opened JsonTypes
  import opened JsonGrammar
  import opened JsonPending
  import opened JsonNumber
  import opened JsonString
  import opened JsonFrames
  import opened JsonTree
  import opened JsonFaults
  import opened JsonTrail
  import opened JsonTracking
  import opened JsonLockstep

  // In step inside a container, whose reading is on top of the trail.
  ghost predicate Inside(c: Setting, collect: bool, text: Tree, below: seq<Reading>, r: Reading, v: View) {
    InStep(c, collect, text, below + [r], v) && v.errors.outer.None? && ReadingOk(r)
    && (!collect ==> v.errors.params.None?)
  }

  lemma TopReads(c: Setting, collect: bool, text: Tree, below: seq<Reading>, r: Reading, v: View)
    requires Inside(c, collect, text, below, r, v)
    ensures ReadingAt(c.raw, r, v.position)
    ensures |v.stack| + |v.overflow| == |below| + 1
    ensures v.overflow == [] ==>
      |v.stack| == |below| + 1 && FrameAgrees(c, collect, v.stack[|below|], r, v.errors)
      && v.stack[|below|].state == r.state
    ensures v.overflow != [] ==> v.overflow[|v.overflow| - 1] == r.state
    ensures v.overflow != [] ==> v.errors.params.Some? && SizeLayer(r.spot) != OuterLayer && |v.stack| <= |below|
  {
    hide Standing, Tallied, MethodRead, ArgumentsSoFar, FrameAgrees, ReadingAt, Spells, Free;
    var trail := below + [r];
    assert trail[|below|] == r;
    assert |TrailStates(trail)| == |trail|;
    assert TrailStates(trail)[|below|] == Debt(v.stack, v.overflow)[|below|];
  }

  // White space.
  lemma SpaceMove(c: Setting, collect: bool, text: Tree, below: seq<Reading>, r: Reading, v: View, n: nat)
    requires Inside(c, collect, text, below, r, v)
    requires Space(c.raw, v.position, n) && Blocked(c.raw, n)
    ensures Inside(c, collect, text, below, r, v.(position := n)) && ReadingAt(c.raw, r, n)
  {
    hide Standing, Tallied, FramesAgree, MethodRead, ArgumentsSoFar, ReadingAt, Spells;
    TopReads(c, collect, text, below, r, v);
    SpaceReads(c.raw, r, v.position, n);
    TopMoves(c, text, below, r, v.position, r, n);
  }

  // The top of the two stacks changes to this state, and nothing else of them.
  predicate TopChanged(v: View, w: View, state: State) {
    if v.overflow == [] then
      && v.stack != [] && w.overflow == [] && |w.stack| == |v.stack|
      && w.stack[|v.stack| - 1].state == state
      && w.stack == v.stack[|v.stack| - 1 := w.stack[|v.stack| - 1]]
    else
      w.stack == v.stack && w.overflow == v.overflow[|v.overflow| - 1 := state]
  }

  lemma StateShape(c: Setting, collect: bool, text: Tree, below: seq<Reading>, r: Reading, s: Reading, v: View, w: View,
                   n: nat)
    requires Inside(c, collect, text, below, r, v) && TopChanged(v, w, s.state)
    requires s.tree == r.tree && s.spot == r.spot && ReadingAt(c.raw, s, n) && w.position == n && ReadingOk(s)
    requires Keeps(v.errors, w.errors)
    requires TrailOk(below + [s])
    ensures Shaped(c, text, below + [s], w)
  {
    hide Standing, Tallied, FramesAgree, MethodRead, ArgumentsSoFar, ReadingAt, Spells, Follows;
    TopReads(c, collect, text, below, r, v);
    TopMoves(c, text, below, r, v.position, s, n);
    if v.overflow == [] {
      StackTop(v.stack, w.stack[|below|], below, r, s);
    } else {
      OverflowTopMoves(v.stack, v.overflow, below, r, s);
    }
    forall k | |w.stack| <= k < |below + [s]| ensures SizeLayer((below + [s])[k].spot) != OuterLayer {
      assert SizeLayer((below + [r])[k].spot) != OuterLayer;
    }
  }

  lemma StateFrames(c: Setting, collect: bool, text: Tree, below: seq<Reading>, r: Reading, s: Reading, v: View,
                    w: View)
    requires Inside(c, collect, text, below, r, v) && TopChanged(v, w, s.state)
    requires TrailOk(below + [s]) && ReadingOk(s) && Keeps(v.errors, w.errors)
    requires v.overflow == [] ==> |v.stack| == |below| + 1 ==> FrameAgrees(c, collect, w.stack[|below|], s, w.errors)
    ensures FramesAgree(c, collect, w.stack, below + [s], w.errors)
  {
    hide Standing, Tallied, Shaped, MethodRead, ArgumentsSoFar, FrameAgrees, Spells;
    TopReads(c, collect, text, below, r, v);
    if v.overflow == [] {
      FramesTop(c, collect, v.stack, w.stack[|below|], below, r, s, v.errors, w.errors);
    } else {
      FramesUnder(c, collect, v.stack, below + [r], below + [s], v.errors, w.errors);
    }
  }

  // A colon, or the comma after a value.
  lemma StateMove(c: Setting, collect: bool, text: Tree, below: seq<Reading>, r: Reading, s: Reading, v: View, w: View)
    requires Inside(c, collect, text, below, r, v) && TopChanged(v, w, s.state)
    requires w == v.(position := w.position, stack := w.stack, overflow := w.overflow)
    requires s == r.(state := s.state) && ReadingAt(c.raw, s, w.position) && AwaitsValue(s) == AwaitsValue(r)
    requires v.overflow == [] ==> w.stack[|v.stack| - 1] == v.stack[|v.stack| - 1].(state := s.state)
    ensures Inside(c, collect, text, below, s, w)
  {
    hide Standing, Tallied, Shaped, FramesAgree, MethodSoFar, ArgumentsSoFar, ReadingAt, Spells, Settles;
    assert ReadingOk(s) by {
      AtOk(c.raw, s, w.position);
    }
    StateSettlesTop(c, below, r, s.state);
    StateShape(c, collect, text, below, r, s, v, w, w.position);
    TopReads(c, collect, text, below, r, v);
    if v.overflow == [] {
      SameFrame(c, collect, v.stack[|below|], r, s, v.errors);
    }
    StateFrames(c, collect, text, below, r, s, v, w);
    TallyStays(c, collect, text, below + [r], below + [s], v.tally, v.errors, w.errors);
    SameSoFar(c, text, below, r, s);
    JudgedNone(v.errors);
    Moved(c, collect, text, below + [r], {}, below + [s], v, w);
  }

  lemma AtOk(raw: seq<Byte>, r: Reading, i: nat)
    requires ReadingAt(raw, r, i)
    ensures ReadingOk(r)
  {
  }

  lemma SameFrame(c: Setting, collect: bool, f: Frame, r: Reading, s: Reading, e: Errors)
    requires ReadingOk(r) && ReadingOk(s) && s == r.(state := s.state) && FrameAgrees(c, collect, f, r, e)
    ensures FrameAgrees(c, collect, f.(state := s.state), s, e)
  {
    hide KeysRead, KeyText;
  }

  // ---- A key ----

  // A key is due, and stands at the position.
  ghost predicate KeyDue(c: Setting, r: Reading, i: nat) {
    && ReadingOk(r) && r.tree.Record? && !AwaitsValue(r) && r.read < |r.tree.fields|
    && i == r.tree.fields[r.read].key && String(c.raw, i, r.tree.fields[r.read].keyEnd)
    && ReadingAt(c.raw, Keyed(r), r.tree.fields[r.read].keyEnd)
  }

  function Keyed(r: Reading): Reading {
    r.(read := r.read + 1, state := ObjectColon)
  }

  lemma KeyComes(c: Setting, r: Reading, i: nat)
    requires ReadingAt(c.raw, r, i) && Blocked(c.raw, i)
    requires r.state == ObjectKey || (r.state == ObjectFirstKeyOrEnd && !(i < |c.raw| && c.raw[i] == 0x7D))
    ensures KeyDue(c, r, i)
  {
    hide ReadingAt, String;
    AtOk(c.raw, r, i);
    if r.state == ObjectFirstKeyOrEnd {
      FirstReads(c.raw, r, i);
      AtOk(c.raw, r.(state := ObjectKey), i);
      KeyReads(c.raw, r.(state := ObjectKey), i);
    } else {
      KeyReads(c.raw, r, i);
    }
  }

  lemma KeyMove(c: Setting, collect: bool, text: Tree, below: seq<Reading>, r: Reading, v: View, w: View)
    requires Inside(c, collect, text, below, r, v) && KeyDue(c, r, v.position)
    requires w == v.(position := w.position, stack := w.stack, overflow := w.overflow, errors := w.errors,
                     tally := w.tally)
    requires TopChanged(v, w, ObjectColon) && w.position == r.tree.fields[r.read].keyEnd
    requires !collect ==> w.errors.outer.None? && w.errors.params.None?
    requires Judged(v.errors, KeyFaults(c, r.tree.fields, r.read, SizeLayer(r.spot), TextLayer(r.spot)), w.errors)
    requires ReadingOk(Keyed(r))
    requires v.overflow == [] && w.errors.outer.None? ==>
      |v.stack| > 0 && FrameAgrees(c, collect, w.stack[|v.stack| - 1], Keyed(r), w.errors)
        && ItemCharged(c, collect, v.stack[|v.stack| - 1].scope, v.tally, w.tally)
    requires v.overflow != [] ==> w.tally == v.tally
    ensures Tracks(c, collect, text, below + [Keyed(r)], w)
  {
    hide Standing, Tallied, Shaped, FramesAgree, MethodSoFar, ArgumentsSoFar, ReadingAt, Spells, Settles, KeyFaults,
      FrameAgrees, Judged, ItemCharged;
    var s := Keyed(r);
    var faults := KeyFaults(c, r.tree.fields, r.read, SizeLayer(r.spot), TextLayer(r.spot));
    KeepsOuter(v.errors, faults, w.errors);
    TopReads(c, collect, text, below, r, v);
    KeySettlesTop(c, below, r);
    StateShape(c, collect, text, below, r, s, v, w, w.position);
    SameSoFar(c, text, below, r, s);
    if w.errors.outer.None? {
      StateFrames(c, collect, text, below, r, s, v, w);
      KeyTally(c, collect, text, below, r, v, w);
    }
    Moved(c, collect, text, below + [r], faults, below + [s], v, w);
  }

  lemma FrameScope(c: Setting, collect: bool, f: Frame, r: Reading, e: Errors)
    requires ReadingOk(r) && FrameAgrees(c, collect, f, r, e)
    ensures LayerOf(f.scope) == SizeLayer(r.spot) && (collect ==> ProtocolScope(f.scope))
  {
  }

  lemma KeyTally(c: Setting, collect: bool, text: Tree, below: seq<Reading>, r: Reading, v: View, w: View)
    requires Inside(c, collect, text, below, r, v) && KeyDue(c, r, v.position) && Keeps(v.errors, w.errors)
    requires TrailOk(below + [Keyed(r)])
    requires if v.overflow == [] then
               |v.stack| > 0 && ItemCharged(c, collect, v.stack[|v.stack| - 1].scope, v.tally, w.tally)
             else w.tally == v.tally
    ensures Tallied(c, collect, text, below + [Keyed(r)], w.tally, w.errors)
  {
    hide Standing, Tallied, Shaped, FramesAgree, MethodSoFar, ArgumentsSoFar, ReadingAt, Spells, Settles, KeyFaults,
      ItemCharged, FrameAgrees, TrailItems, Own, ReadingOk;
    TopReads(c, collect, text, below, r, v);
    KeySettlesTop(c, below, r);
    var trail, next := below + [r], below + [Keyed(r)];
    if v.overflow == [] {
      var f := v.stack[|v.stack| - 1];
      FrameScope(c, collect, f, r, v.errors);
      TallyMoves(c, collect, text, trail, next, f.scope, r.spot, v.tally, w.tally, v.errors, w.errors);
    } else {
      assert TrailItems(c, trail, true) == Own(r.spot, true) + TrailItems(c, next, true);
      TallyUnasked(c, collect, text, trail, next, r.spot, v.tally, v.errors, w.errors);
    }
  }

  // Beyond the depth limit a key is only passed over.
  lemma KeyPasses(c: Setting, collect: bool, text: Tree, below: seq<Reading>, r: Reading, v: View, w: View)
    requires Inside(c, collect, text, below, r, v) && KeyDue(c, r, v.position) && v.overflow != []
    requires w == v.(position := r.tree.fields[r.read].keyEnd,
                     overflow := v.overflow[|v.overflow| - 1 := ObjectColon])
    ensures Tracks(c, collect, text, below + [Keyed(r)], w)
  {
    hide Standing, Tallied, Shaped, FramesAgree, MethodSoFar, ArgumentsSoFar, ReadingAt, Spells, Settles,
      FrameAgrees, Judged;
    TopReads(c, collect, text, below, r, v);
    AtOk(c.raw, Keyed(r), w.position);
    var faults := KeyFaults(c, r.tree.fields, r.read, SizeLayer(r.spot), TextLayer(r.spot));
    assert NoneOf(faults, OuterLayer);
    JudgedInParams(v.errors, faults, v.errors);
    KeyMove(c, collect, text, below, r, v, w);
  }

  // Params that have an error answer for no key.
  lemma KeyUnasked(c: Setting, collect: bool, r: Reading, f: Frame, charged: Frame, now: Frame, s: Tally, t: Tally,
                   e: Errors, m: Errors, l: Errors, n: Errors, i: nat, key: seq<Byte>)
    requires ReadingOk(r) && ReadingOk(Keyed(r)) && r.tree.Record? && r.read < |r.tree.fields|
    requires FrameAgrees(c, collect, f, r, e) && !Answering(r.spot, e)
    requires MemberCharged(c, collect, f, charged, s, t, e, m, None) && Bounded(collect, f.scope, m, l)
    requires KeyNoted(c, collect, key, charged, now, l, n, i, None)
    ensures Judged(e, KeyFaults(c, r.tree.fields, r.read, SizeLayer(r.spot), TextLayer(r.spot)), n)
    ensures FrameAgrees(c, collect, now, Keyed(r), n)
  {
    hide Text, Whole, Repeated;
    JudgedInParams(e, KeyFaults(c, r.tree.fields, r.read, SizeLayer(r.spot), TextLayer(r.spot)), n);
  }

  // Where nothing was found wrong with the layer, nothing is wrong with the token.
  lemma CleanToken(collect: bool, scope: Scope, deferred: bool, mode: Mode, e: Errors, faults: set<Fault>, n: Errors)
    requires Judged(e, faults, n) && !Recovering(collect, scope, deferred, n) && Placed(mode, collect, scope, deferred)
    requires !collect ==> n.outer.None? && n.params.None?
    requires forall f :: f in faults ==> f.layer == LayerOf(scope) || f.layer == TextLayerOf(scope, deferred)
    ensures faults == {}
  {
    forall f ensures f !in faults {
      assert f == Fault(f.layer, f.kind);
    }
  }

  lemma KeysGrow(raw: seq<Byte>, fields: seq<Field>, n: nat)
    requires n < |fields|
    ensures KeysRead(raw, fields, n + 1) == KeysRead(raw, fields, n) + {KeyText(raw, fields[n])}
    ensures KeyText(raw, fields[n]) in KeysRead(raw, fields, n) <==> Repeated(raw, fields, n)
  {
    hide KeyText;
  }

  // The duplicate check, where the keys read before are known.
  lemma KeyRepeats(c: Setting, collect: bool, r: Reading, f: Frame, now: Frame, l: Errors, n: Errors, i: nat,
                   key: seq<Byte>)
    requires ReadingOk(r) && r.tree.Record? && r.read < |r.tree.fields|
    requires LayerOf(f.scope) == SizeLayer(r.spot) && f.deferred == InArguments(r.spot)
    requires Placed(c.mode, collect, f.scope, f.deferred)
    requires KeyNoted(c, collect, key, f, now, l, n, i, None)
    requires !Recovering(collect, f.scope, f.deferred, l) ==>
      key == KeyText(c.raw, r.tree.fields[r.read]) && f.seenKeys == KeysRead(c.raw, r.tree.fields, r.read)
    ensures Judged(l, When(Repeated(c.raw, r.tree.fields, r.read), Fault(TextLayer(r.spot), Duplicate)), n)
    ensures !Recovering(collect, f.scope, f.deferred, l) ==>
      now.seenKeys == KeysRead(c.raw, r.tree.fields, r.read + 1) && now.pendingKey == key
  {
    hide KeyText, KeysRead, Repeated, Judged, Files;
    KeysGrow(c.raw, r.tree.fields, r.read);
    var faults := When(Repeated(c.raw, r.tree.fields, r.read), Fault(TextLayer(r.spot), Duplicate));
    if Recovering(collect, f.scope, f.deferred, l) {
      JudgedErred(l, TextLayer(r.spot), faults);
    } else if Repeated(c.raw, r.tree.fields, r.read) {
      JudgedFiled(l, TextLayer(r.spot), Failure(Duplicate, i), n);
    } else {
      JudgedNone(l);
    }
  }

  lemma CountClean(c: Setting, collect: bool, scope: Scope, k: nat, e: Errors, m: Errors, n: Errors)
    requires Judged(e, CountFaults(c, k, LayerOf(scope)), m) && Keeps(m, n)
    requires n.outer.None? && (LayerOf(scope) == OuterLayer || n.params.None?)
    ensures k < c.limits.maxObjectMembers
  {
  }

  lemma KeyJudged(c: Setting, collect: bool, r: Reading, i: nat, f: Frame, charged: Frame, now: Frame, s: Tally,
                  t: Tally, e: Errors, m: Errors, l: Errors, n: Errors, capture: bool, read: Result<Scanned>,
                  key: seq<Byte>)
    requires KeyDue(c, r, i) && FrameAgrees(c, collect, f, r, e) && e.outer.None? && (!collect ==> e.params.None?)
    requires MemberCharged(c, collect, f, charged, s, t, e, m, None) && Answering(r.spot, e)
    requires capture == ((!f.deferred || c.mode == ProtocolWithRawArguments)
             && !Recovering(collect, f.scope, f.deferred, m))
    requires TextScanned(c, collect, f.scope, f.deferred, i, r.tree.fields[r.read].keyEnd, c.limits.maxKeyBytes,
                         capture,
                         m, l, read)
    requires read.Ok? && (read.value.decoded != [] ==> key == read.value.decoded)
    requires read.value.decoded == [] && Text(c.raw, i, r.tree.fields[r.read].keyEnd) == [] ==> key == []
    requires KeyNoted(c, collect, key, charged, now, l, n, i, None)
    requires ReadingOk(Keyed(r))
    ensures Judged(e, KeyFaults(c, r.tree.fields, r.read, SizeLayer(r.spot), TextLayer(r.spot)), n)
    ensures n.outer.None? ==> FrameAgrees(c, collect, now, Keyed(r), n)
  {
    hide ReadingAt, String, Judged, KeysRead, Repeated, Text, Whole;
    var fields, k := r.tree.fields, r.read;
    var size, text := SizeLayer(r.spot), TextLayer(r.spot);
    var texts := TextFaults(c.raw, i, fields[k].keyEnd, c.limits.maxKeyBytes, size, text);
    var clean := !Recovering(collect, f.scope, f.deferred, l);
    if clean {
      assert !Recovering(collect, f.scope, f.deferred, m);
      CleanToken(collect, f.scope, f.deferred, c.mode, e, CountFaults(c, k, size), m);
      CleanToken(collect, f.scope, f.deferred, c.mode, m, texts, l);
      assert key == KeyText(c.raw, fields[k]);
    }
    KeyRepeats(c, collect, r, charged, now, l, n, i, key);
    JudgedJoin(e, CountFaults(c, k, size), m, texts, l);
    JudgedJoin(e, CountFaults(c, k, size) + texts, l, When(Repeated(c.raw, fields, k), Fault(text, Duplicate)), n);
    if n.outer.None? && Answering(r.spot, n) && !(InArguments(r.spot) && n.held.Some?) {
      assert clean;
    }
    if n.outer.None? && Answering(r.spot, n) {
      if InArguments(r.spot) && n.held.Some? {
        CountClean(c, collect, f.scope, k, e, m, n);
      }
      assert charged == f.(members := f.members + 1);
    }
  }

  // What charging, reading and noting a key tell of its faults, and what the frame then remembers.
  lemma KeyKnown(c: Setting, collect: bool, r: Reading, i: nat, f: Frame, charged: Frame, now: Frame, s: Tally,
                 t: Tally,
                 e: Errors, m: Errors, l: Errors, n: Errors, capture: bool, read: Result<Scanned>, key: seq<Byte>)
    requires KeyDue(c, r, i) && FrameAgrees(c, collect, f, r, e) && e.outer.None? && (!collect ==> e.params.None?)
    requires MemberCharged(c, collect, f, charged, s, t, e, m, None)
    requires capture == ((!f.deferred || c.mode == ProtocolWithRawArguments)
             && !Recovering(collect, f.scope, f.deferred, m))
    requires TextScanned(c, collect, f.scope, f.deferred, i, r.tree.fields[r.read].keyEnd, c.limits.maxKeyBytes,
                         capture,
                         m, l, read)
    requires read.Ok? && (read.value.decoded != [] ==> key == read.value.decoded)
    requires read.value.decoded == [] && Text(c.raw, i, r.tree.fields[r.read].keyEnd) == [] ==> key == []
    requires KeyNoted(c, collect, key, charged, now, l, n, i, None)
    requires ReadingOk(Keyed(r))
    ensures Judged(e, KeyFaults(c, r.tree.fields, r.read, SizeLayer(r.spot), TextLayer(r.spot)), n)
    ensures n.outer.None? ==> FrameAgrees(c, collect, now, Keyed(r), n)
    ensures !collect ==> n.outer.None? && n.params.None?
  {
    hide ReadingAt, String;
    if Answering(r.spot, e) {
      KeyJudged(c, collect, r, i, f, charged, now, s, t, e, m, l, n, capture, read, key);
    } else {
      KeyUnasked(c, collect, r, f, charged, now, s, t, e, m, l, n, i, key);
    }
  }

  // ---- A value ----

  // A value is due, and stands at the position.
  ghost predicate ValueDue(c: Setting, r: Reading, i: nat) {
    && ReadingOk(r) && (r.state == ObjectValue || r.state == ArrayValue)
    && i == Current(Begun(r)).start && Spells(c.raw, Current(Begun(r))) && Delimited(c.raw, Current(Begun(r)).end)
    && ReadingAt(c.raw, Begun(r), Current(Begun(r)).end)
  }

  // The reading at its value: an array's first element is due like any other.
  function AtValue(r: Reading): (s: Reading)
    ensures s.tree == r.tree && s.spot == r.spot && s.read == r.read
  {
    if r.state == ArrayFirstValueOrEnd then r.(state := ArrayValue) else r
  }

  lemma ValueComes(c: Setting, r: Reading, i: nat)
    requires ReadingAt(c.raw, r, i) && Blocked(c.raw, i)
    requires r.state == ObjectValue || r.state == ArrayValue
      || (r.state == ArrayFirstValueOrEnd && !(i < |c.raw| && c.raw[i] == 0x5D))
    ensures ValueDue(c, AtValue(r), i)
  {
    hide ReadingAt, Spells, Delimited;
    AtOk(c.raw, r, i);
    var s := AtValue(r);
    if r.state == ArrayFirstValueOrEnd {
      FirstReads(c.raw, r, i);
      AtOk(c.raw, s, i);
    }
    ValueReads(c.raw, s, i);
    BegunDelimits(c, Begun(s), Current(Begun(s)).end);
  }

  lemma BegunDelimits(c: Setting, r: Reading, i: nat)
    requires ReadingAt(c.raw, r, i) && (r.state == ObjectCommaOrEnd || r.state == ArrayCommaOrEnd)
    ensures Delimited(c.raw, i)
  {
    hide Delimited;
    AfterDelimits(c.raw, r.tree, r.read, i);
  }

  // How a container hands its place on to a value: an object by the key, an array as it is.
  function PlaceOf(c: Setting, f: Frame, r: Reading): (Role, Scope, bool) {
    if r.tree.List? then (Generic, f.scope, f.deferred) else ValueRole(c.mode, f)
  }

  lemma ValuePlace(c: Setting, collect: bool, f: Frame, r: Reading, e: Errors)
    requires ReadingOk(r) && (r.state == ObjectValue || r.state == ArrayValue) && FrameAgrees(c, collect, f, r, e)
    ensures
      var (role, scope, deferred) := PlaceOf(c, f, r);
      var spot := CurrentSpot(c, Begun(r));
      && LayerOf(scope) == SizeLayer(spot) && Placed(c.mode, collect, scope, deferred)
      && role != Root && spot != TopSpot
      && (Answering(r.spot, e) ==> role == RoleOf(spot) && deferred == InArguments(spot))
      && (!Answering(r.spot, e) ==> scope == ScopeParams)
  {
    hide KeyText, KeysRead;
  }

  lemma ValueJudged(c: Setting, collect: bool, t: Tree, scope: Scope, deferred: bool, spot: Spot, e: Errors, n: Errors)
    requires t.Scalar? && Bounded(collect, scope, e, n) && LayerOf(scope) == SizeLayer(spot)
    requires Placed(c.mode, collect, scope, deferred)
    requires deferred == InArguments(spot) || (e.params.Some? && scope == ScopeParams)
    requires Judged(e, ScalarFaults(c, t, LayerOf(scope), TextLayerOf(scope, deferred)), n)
    ensures Judged(e, ScalarFaults(c, t, SizeLayer(spot), TextLayer(spot)), n)
  {
    hide Judged, Text, Whole;
    if deferred != InArguments(spot) {
      JudgedInParams(e, ScalarFaults(c, t, SizeLayer(spot), TextLayer(spot)), n);
    }
  }

  lemma FrameBegun(c: Setting, collect: bool, f: Frame, r: Reading, e: Errors, n: Errors)
    requires ReadingOk(r) && (r.state == ObjectValue || r.state == ArrayValue) && FrameAgrees(c, collect, f, r, e)
    requires Keeps(e, n)
    ensures FrameAgrees(c, collect, f.(state := Begun(r).state), Begun(r), n)
  {
    hide KeyText, KeysRead;
  }

  // The top of the stacks after a value was begun.
  predicate ValueBegun(v: View, w: View, r: Reading)
    requires ReadingOk(r) && (r.state == ObjectValue || r.state == ArrayValue)
  {
    TopChanged(v, w, Begun(r).state)
    && (v.overflow == [] ==> w.stack[|v.stack| - 1] == v.stack[|v.stack| - 1].(state := Begun(r).state))
  }

  // An element is charged to the document, but for those beyond the depth limit.
  predicate ElementCharged(c: Setting, collect: bool, r: Reading, v: View, w: View) {
    if r.tree.List? && v.overflow == [] then
      v.stack != [] && ItemCharged(c, collect, v.stack[|v.stack| - 1].scope, v.tally, w.tally)
    else w.tally == v.tally
  }

  lemma ValueTally(c: Setting, collect: bool, text: Tree, below: seq<Reading>, r: Reading, next: seq<Reading>, v: View,
                   w: View)
    requires Inside(c, collect, text, below, r, v) && TrailOk(next) && Keeps(v.errors, w.errors)
    requires forall outer :: TrailItems(c, below + [r], outer) == Charge(r, outer) + TrailItems(c, next, outer)
    requires ElementCharged(c, collect, r, v, w)
    ensures Tallied(c, collect, text, next, w.tally, w.errors)
  {
    hide Standing, Tallied, Shaped, FramesAgree, MethodSoFar, ArgumentsSoFar, ReadingAt, Spells, Settles,
      ItemCharged, FrameAgrees, TrailItems, Own, ReadingOk;
    TopReads(c, collect, text, below, r, v);
    var trail := below + [r];
    assert TrailItems(c, trail, true) == Charge(r, true) + TrailItems(c, next, true);
    assert TrailItems(c, trail, false) == Charge(r, false) + TrailItems(c, next, false);
    if !r.tree.List? {
      TallyStays(c, collect, text, trail, next, v.tally, v.errors, w.errors);
    } else if v.overflow == [] {
      var f := v.stack[|v.stack| - 1];
      FrameScope(c, collect, f, r, v.errors);
      TallyMoves(c, collect, text, trail, next, f.scope, r.spot, v.tally, w.tally, v.errors, w.errors);
    } else {
      TallyUnasked(c, collect, text, trail, next, r.spot, v.tally, v.errors, w.errors);
    }
  }

  // What the method and the arguments are after a value of the message or its params was begun.
  ghost predicate Noted(c: Setting, r: Reading, v: View, w: View)
    requires ReadingOk(r) && (r.state == ObjectValue || r.state == ArrayValue)
  {
    var s := Begun(r);
    && (if r.spot == TopSpot && HasKey(c, s, METHOD_KEY) then
          w.errors.outer.None? ==> MethodIs(c.raw, Some(Current(s)), w.called)
        else w.called == v.called)
    && (w.errors.params.None? ==>
          w.arguments == if Current(s).Scalar? && r.spot == ParamsTop && HasKey(c, s, ARGUMENTS_KEY) then
                           Recorded(Some(Current(s)))
                         else v.arguments)
  }

  lemma ScalarMove(c: Setting, collect: bool, text: Tree, below: seq<Reading>, r: Reading, v: View, w: View)
    requires Inside(c, collect, text, below, r, v) && ValueDue(c, r, v.position) && Current(Begun(r)).Scalar?
    requires ValueBegun(v, w, r) && w.position == Current(Begun(r)).end
    requires !collect ==> w.errors.outer.None? && w.errors.params.None?
    requires
      var spot := CurrentSpot(c, Begun(r));
      Judged(v.errors, ScalarFaults(c, Current(Begun(r)), SizeLayer(spot), TextLayer(spot)), w.errors)
    requires ElementCharged(c, collect, r, v, w) && Noted(c, r, v, w)
    ensures Tracks(c, collect, text, below + [Begun(r)], w)
  {
    hide Standing, Tallied, Shaped, FramesAgree, MethodSoFar, ArgumentsSoFar, ReadingAt, Spells, Settles,
      ScalarFaults, FrameAgrees, Judged, ElementCharged, HasKey, MethodIs, Follows, CurrentSpot, TrailItems, Delimited;
    var s := Begun(r);
    var spot := CurrentSpot(c, s);
    var faults := ScalarFaults(c, Current(s), SizeLayer(spot), TextLayer(spot));
    KeepsOuter(v.errors, faults, w.errors);
    ScalarSettlesTop(c, below, r);
    StateShape(c, collect, text, below, r, s, v, w, w.position);
    ValueFrames(c, collect, text, below, r, v, w);
    ValueTally(c, collect, text, below, r, below + [s], v, w);
    ScalarSoFar(c, text, below, r);
    TopPlaces(c, collect, text, below, r, v);
    Moved(c, collect, text, below + [r], faults, below + [s], v, w);
  }

  lemma ValueFrames(c: Setting, collect: bool, text: Tree, below: seq<Reading>, r: Reading, v: View, w: View)
    requires Inside(c, collect, text, below, r, v) && (r.state == ObjectValue || r.state == ArrayValue)
    requires ValueBegun(v, w, r) && Keeps(v.errors, w.errors) && TrailOk(below + [Begun(r)])
    ensures FramesAgree(c, collect, w.stack, below + [Begun(r)], w.errors)
  {
    hide Standing, Tallied, Shaped, FramesAgree, MethodSoFar, ArgumentsSoFar, ReadingAt, Spells, FrameAgrees;
    TopReads(c, collect, text, below, r, v);
    if v.overflow == [] {
      FrameBegun(c, collect, v.stack[|below|], r, v.errors, w.errors);
    }
    StateFrames(c, collect, text, below, r, Begun(r), v, w);
  }

  // Where the protocol's containers stand, as the trail's top sees it.
  lemma TopPlaces(c: Setting, collect: bool, text: Tree, below: seq<Reading>, r: Reading, v: View)
    requires Inside(c, collect, text, below, r, v)
    ensures r.spot == TopSpot <==> below == []
    ensures r.spot == ParamsTop ==> |below| == 1 && text.Record? && c.mode == ProtocolWithRawArguments
    ensures r.spot == ArgumentsTop ==> text.Record?
  {
    hide Standing, Tallied, FramesAgree, MethodSoFar, ArgumentsSoFar, ReadingAt, Spells, Nested;
    var trail := below + [r];
    assert trail[|below|] == r;
    SpotPlaces(c, text, trail, v.position, |below|);
    if |below| > 0 {
      assert Nested(c, trail[0], trail[1]);
      NestedSpot(c, trail[0], trail[1]);
    }
  }

  // ---- A container opens ----

  // The stacks after a container was opened on top of them.
  predicate Pushed(c: Setting, collect: bool, t: Tree, role: Role, scope: Scope, deferred: bool, u: View, w: View)
    requires !t.Scalar? && (collect ==> ProtocolScope(scope))
  {
    && w.position == t.start + 1
    && if Compact(u) then w.stack == u.stack && w.overflow == u.overflow + [FirstState(t.Kind())]
       else
         w.overflow == []
         && w.stack == u.stack + [NewFrame(t.Kind(), role, scope, deferred, |u.stack| >= c.limits.maxDepth, t.start,
                                           collect)]
  }

  lemma OpenedState(t: Tree, spot: Spot)
    requires !t.Scalar?
    ensures Opened(t, spot).state == FirstState(t.Kind())
  {
  }

  // Only frames of erred params keep their children compact.
  lemma CompactUnasked(c: Setting, collect: bool, text: Tree, below: seq<Reading>, r: Reading, v: View, u: View)
    requires Inside(c, collect, text, below, r, v) && (r.state == ObjectValue || r.state == ArrayValue)
    requires ValueBegun(v, u, r) && Compact(u)
    ensures !Answering(r.spot, v.errors) && v.errors.params.Some?
  {
    hide Standing, Tallied, Shaped, FramesAgree, MethodSoFar, ArgumentsSoFar, ReadingAt, Spells, KeysAgree;
    TopReads(c, collect, text, below, r, v);
  }

  lemma NewFrameAgrees(c: Setting, collect: bool, t: Tree, role: Role, scope: Scope, deferred: bool, spot: Spot,
                       compactChildren: bool, n: Errors)
    requires !t.Scalar? && Placed(c.mode, collect, scope, deferred) && LayerOf(scope) == SizeLayer(spot)
    requires role == Root <==> spot == TopSpot
    requires Answering(spot, n) ==> role == RoleOf(spot) && deferred == InArguments(spot) && !compactChildren
    ensures
      FrameAgrees(c, collect, NewFrame(t.Kind(), role, scope, deferred, compactChildren, t.start, collect),
                  Opened(t, spot), n)
  {
    hide KeyText;
  }

  // A value begun in the top container opens another: `u` is the view between the two changes.
  ghost predicate Opens(c: Setting, collect: bool, r: Reading, v: View, u: View, w: View, role: Role, scope: Scope,
                        deferred: bool) {
    && ValueDue(c, r, v.position) && !Current(Begun(r)).Scalar?
    && ValueBegun(v, u, r) && u.errors == v.errors && Keeps(v.errors, w.errors)
    && (collect ==> ProtocolScope(scope)) && LayerOf(scope) == SizeLayer(CurrentSpot(c, Begun(r)))
    && (v.overflow == [] ==> (role, scope, deferred) == PlaceOf(c, v.stack[|v.stack| - 1], r))
    && Pushed(c, collect, Current(Begun(r)), role, scope, deferred, u, w)
  }

  // The trail once the value has opened.
  function Deeper(c: Setting, below: seq<Reading>, r: Reading): (next: seq<Reading>)
    requires ReadingOk(r) && (r.state == ObjectValue || r.state == ArrayValue) && !Current(Begun(r)).Scalar?
  {
    below + [Begun(r)] + [Opened(Current(Begun(r)), CurrentSpot(c, Begun(r)))]
  }

  lemma OpenShape(c: Setting, collect: bool, text: Tree, below: seq<Reading>, r: Reading, v: View, u: View, w: View,
                  role: Role, scope: Scope, deferred: bool)
    requires Inside(c, collect, text, below, r, v) && Opens(c, collect, r, v, u, w, role, scope, deferred)
    requires TrailOk(below + [Begun(r)]) && TrailOk(Deeper(c, below, r))
    ensures Shaped(c, text, Deeper(c, below, r), w)
  {
    hide Standing, Tallied, Shaped, FramesAgree, MethodSoFar, ArgumentsSoFar, ReadingAt, Spells, FrameAgrees,
      CurrentSpot,
      Delimited, NewFrame, FirstState;
    var s := Begun(r);
    var t, spot := Current(s), CurrentSpot(c, s);
    var o := Opened(t, spot);
    StateShape(c, collect, text, below, r, s, v, u.(position := t.end), t.end);
    OpenReads(c.raw, t, spot);
    OpenedState(t, spot);
    InnerAnswering(c, r, v.errors);
    if Compact(u) {
      CompactUnasked(c, collect, text, below, r, v, u);
    }
    PushShape(c, text, below, s, o, u.(position := t.end), w);
  }

  lemma PushShape(c: Setting, text: Tree, below: seq<Reading>, s: Reading, o: Reading, u: View, w: View)
    requires TrailOk(below + [s]) && ReadingOk(s) && ReadingOk(o) && Shaped(c, text, below + [s], u)
    requires u.position == o.tree.end && Nested(c, s, o) && ReadingAt(c.raw, o, w.position)
    requires Keeps(u.errors, w.errors)
    requires if Compact(u) then
               w.stack == u.stack && w.overflow == u.overflow + [o.state] && SizeLayer(o.spot) != OuterLayer
                 && u.errors.params.Some?
             else
               w.overflow == [] && |w.stack| == |u.stack| + 1 && w.stack[..|u.stack|] == u.stack
                 && w.stack[|u.stack|].state == o.state
    ensures TrailOk(below + [s] + [o]) && Shaped(c, text, below + [s] + [o], w)
  {
    hide ReadingAt, Nested, ReadingOk, Follows;
    TopOpens(c, text, below, s, o, w.position);
    if Compact(u) {
      OverflowGrows(u.stack, u.overflow, below + [s], o);
    } else {
      assert w.stack == u.stack + [w.stack[|u.stack|]];
      StackGrows(u.stack, w.stack[|u.stack|], below + [s], o);
    }
  }

  lemma OpenFrames(c: Setting, collect: bool, text: Tree, below: seq<Reading>, r: Reading, v: View, u: View, w: View,
                   role: Role, scope: Scope, deferred: bool)
    requires Inside(c, collect, text, below, r, v) && Opens(c, collect, r, v, u, w, role, scope, deferred)
    requires w.errors.outer.None?
    requires Judged(v.errors, DepthFaults(c, |below| + 1, SizeLayer(CurrentSpot(c, Begun(r)))), w.errors)
    requires TrailOk(below + [Begun(r)]) && TrailOk(Deeper(c, below, r))
    ensures FramesAgree(c, collect, w.stack, Deeper(c, below, r), w.errors)
  {
    hide Standing, Tallied, Shaped, FramesAgree, MethodSoFar, ArgumentsSoFar, ReadingAt, Spells, FrameAgrees,
      CurrentSpot,
      Delimited, NewFrame, FirstState, PlaceOf;
    var s := Begun(r);
    var t, spot := Current(s), CurrentSpot(c, s);
    var o := Opened(t, spot);
    TopReads(c, collect, text, below, r, v);
    ValueFrames(c, collect, text, below, r, v, u.(errors := w.errors));
    if Compact(u) {
      UnderTop(c, collect, u.stack, below + [s], o, w.errors);
    } else {
      ValuePlace(c, collect, v.stack[|below|], r, v.errors);
      if Answering(spot, w.errors) {
        InnerAnswering(c, r, v.errors);
      }
      NewFrameAgrees(c, collect, t, role, scope, deferred, spot, |u.stack| >= c.limits.maxDepth, w.errors);
      FramesGrow(c, collect, u.stack, w.stack[|u.stack|], below + [s], o, w.errors);
    }
  }

  lemma UnderTop(c: Setting, collect: bool, stack: seq<Frame>, trail: seq<Reading>, o: Reading, e: Errors)
    requires TrailOk(trail) && TrailOk(trail + [o]) && FramesAgree(c, collect, stack, trail, e)
    ensures FramesAgree(c, collect, stack, trail + [o], e)
  {
    hide FrameAgrees, ReadingOk;
    FramesUnder(c, collect, stack, trail, trail + [o], e, e);
  }

  // A place that answers stands in one that does.
  lemma InnerAnswering(c: Setting, r: Reading, e: Errors)
    requires ReadingOk(r) && (r.state == ObjectValue || r.state == ArrayValue)
    ensures SizeLayer(r.spot) != OuterLayer ==> SizeLayer(CurrentSpot(c, Begun(r))) != OuterLayer
    ensures Answering(CurrentSpot(c, Begun(r)), e) ==> Answering(r.spot, e)
  {
    hide KeyText;
  }

  lemma OpenMove(c: Setting, collect: bool, text: Tree, below: seq<Reading>, r: Reading, v: View, u: View, w: View,
                 role: Role, scope: Scope, deferred: bool)
    requires Inside(c, collect, text, below, r, v) && Opens(c, collect, r, v, u, w, role, scope, deferred)
    requires !collect ==> w.errors.outer.None? && w.errors.params.None?
    requires Judged(v.errors, DepthFaults(c, |below| + 1, SizeLayer(CurrentSpot(c, Begun(r)))), w.errors)
    requires ElementCharged(c, collect, r, v, w) && Noted(c, r, v, w)
    ensures Tracks(c, collect, text, Deeper(c, below, r), w)
  {
    hide Standing, Tallied, Shaped, FramesAgree, MethodSoFar, ArgumentsSoFar, ReadingAt, Spells, Settles, ValueBegun,
      DepthFaults, FrameAgrees, Judged, ElementCharged, HasKey, MethodIs, Follows, CurrentSpot, TrailItems, Delimited,
        Pushed,
      PlaceOf;
    var s := Begun(r);
    var spot := CurrentSpot(c, s);
    var faults := DepthFaults(c, |below| + 1, SizeLayer(spot));
    var next := Deeper(c, below, r);
    OpenSettlesTop(c, below, r);
    OpenShape(c, collect, text, below, r, v, u, w, role, scope, deferred);
    if w.errors.outer.None? {
      OpenFrames(c, collect, text, below, r, v, u, w, role, scope, deferred);
    }
    ValueTally(c, collect, text, below, r, next, v, w);
    OpenSoFar(c, text, below, r);
    TopPlaces(c, collect, text, below, r, v);
    Moved(c, collect, text, below + [r], faults, next, v, w);
  }

  // ---- A container closes ----

  // The closing bracket is due, and stands at the position.
  ghost predicate EndDue(c: Setting, r: Reading, i: nat) {
    ReadingOk(r) && r.read == r.tree.Width() && !AwaitsValue(r) && i + 1 == r.tree.end
  }

  // The stacks without their top.
  predicate Popped(v: View, w: View) {
    if v.overflow == [] then v.stack != [] && w.overflow == [] && w.stack == v.stack[..|v.stack| - 1]
    else w.stack == v.stack && w.overflow == v.overflow[..|v.overflow| - 1]
  }

  lemma CloseShape(c: Setting, collect: bool, text: Tree, below: seq<Reading>, r: Reading, v: View, w: View)
    requires Inside(c, collect, text, below, r, v) && Popped(v, w)
    requires w.position == r.tree.end && w.errors == v.errors && TrailOk(below)
    ensures Shaped(c, text, below, w)
  {
    hide Standing, Tallied, FramesAgree, MethodSoFar, ArgumentsSoFar, ReadingAt, Spells, Follows, FrameAgrees;
    TopReads(c, collect, text, below, r, v);
    TopCloses(c, text, below, r, v.position);
    if v.overflow == [] {
      StackShrinks(v.stack, below, r);
    } else {
      OverflowShrinks(v.stack, v.overflow, below, r);
    }
    forall k | |w.stack| <= k < |below| ensures SizeLayer(below[k].spot) != OuterLayer {
      assert SizeLayer((below + [r])[k].spot) != OuterLayer;
    }
  }

  lemma CloseFrames(c: Setting, collect: bool, text: Tree, below: seq<Reading>, r: Reading, v: View, w: View)
    requires Inside(c, collect, text, below, r, v) && Popped(v, w) && TrailOk(below)
    ensures FramesAgree(c, collect, w.stack, below, v.errors)
  {
    hide Standing, Tallied, Shaped, MethodSoFar, ArgumentsSoFar, ReadingAt, Spells, FrameAgrees;
    TopReads(c, collect, text, below, r, v);
    if v.overflow == [] {
      FramesShrink(c, collect, v.stack, below, r, v.errors);
    } else {
      FramesUnder(c, collect, v.stack, below + [r], below, v.errors, v.errors);
    }
  }

  lemma CloseMove(c: Setting, collect: bool, text: Tree, below: seq<Reading>, r: Reading, v: View, w: View)
    requires Inside(c, collect, text, below, r, v) && EndDue(c, r, v.position) && Popped(v, w)
    requires w == v.(position := v.position + 1, stack := w.stack, overflow := w.overflow, arguments := w.arguments)
    requires v.errors.params.None? ==>
      w.arguments == if r.spot == ArgumentsTop then Recorded(Some(r.tree)) else v.arguments
    ensures Tracks(c, collect, text, below, w)
  {
    hide Standing, Tallied, Shaped, FramesAgree, MethodSoFar, ArgumentsSoFar, ReadingAt, Spells, Settles, Popped,
      TrailItems;
    EndSettlesTop(c, below, r);
    CloseShape(c, collect, text, below, r, v, w);
    CloseFrames(c, collect, text, below, r, v, w);
    TallyStays(c, collect, text, below + [r], below, v.tally, v.errors, v.errors);
    InsideFollows(c, collect, text, below, r, v);
    CloseSoFar(c, text, below, r, v.position);
    TopPlaces(c, collect, text, below, r, v);
    JudgedNone(v.errors);
    Moved(c, collect, text, below + [r], {}, below, v, w);
  }

  lemma InsideFollows(c: Setting, collect: bool, text: Tree, below: seq<Reading>, r: Reading, v: View)
    requires Inside(c, collect, text, below, r, v)
    ensures Follows(c, text, below + [r], v.position)
  {
    hide Standing, Tallied, FramesAgree, MethodSoFar, ArgumentsSoFar, ReadingAt, Spells, Follows;
  }
}
