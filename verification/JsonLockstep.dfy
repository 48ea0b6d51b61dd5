// The scanner moves in lockstep with a trail through the syntax tree of its text: as long as the
// envelope has no error, every field of the scanner says what the tree says of the part read.
module JsonLockstep {
  import opened Wrappers
  import opened Utf8
  import opened JsonTypes
  import opened JsonGrammar
  import opened JsonPending
  import opened JsonNumber
  import opened JsonString
  import opened JsonFrames
  import opened JsonTree
  import opened JsonFaults
  import opened JsonTrail
  import opened JsonTracking

  // ---- The tie ----

  function RoleOf(spot: Spot): Role {
    match spot
    case TopSpot => Root
    case ParamsTop => Params
    case ArgumentsTop => RawArguments
    case _ => Generic
  }

  // The layer of the spot still answers for what is wrong there.
  predicate Answering(spot: Spot, e: Errors) {
    SizeLayer(spot) == OuterLayer || e.params.None?
  }

  function KeysRead(raw: seq<Byte>, fields: seq<Field>, n: nat): set<seq<Byte>>
    requires n <= |fields|
  {
    set k | 0 <= k < n :: KeyText(raw, fields[k])
  }

  // What a frame remembers of the object it reads.
  predicate KeysAgree(c: Setting, f: Frame, r: Reading, e: Errors)
    requires ReadingOk(r) && r.tree.Record?
  {
    && f.members == r.read
    && ((InArguments(r.spot) && e.held.Some?) || f.seenKeys == KeysRead(c.raw, r.tree.fields, r.read))
    && (0 < r.read && !InArguments(r.spot) ==> f.pendingKey == KeyText(c.raw, r.tree.fields[r.read - 1]))
  }

  predicate FrameExact(c: Setting, f: Frame, r: Reading, e: Errors)
    requires ReadingOk(r)
  {
    && f.role == RoleOf(r.spot) && f.deferred == InArguments(r.spot)
    && !f.compactChildren && !f.membersExhausted
    && (r.tree.Record? ==> KeysAgree(c, f, r, e))
  }

  predicate FrameAgrees(c: Setting, collect: bool, f: Frame, r: Reading, e: Errors)
    requires ReadingOk(r)
  {
    && f.kind == r.tree.Kind() && f.start == r.tree.start
    && LayerOf(f.scope) == SizeLayer(r.spot) && Placed(c.mode, collect, f.scope, f.deferred)
    && (f.role == Root <==> r.spot == TopSpot)
    && (Answering(r.spot, e) ==> FrameExact(c, f, r, e))
  }

  predicate FramesAgree(c: Setting, collect: bool, stack: seq<Frame>, trail: seq<Reading>, e: Errors)
    requires TrailOk(trail)
  {
    |stack| <= |trail| && forall k :: 0 <= k < |stack| ==> FrameAgrees(c, collect, stack[k], trail[k], e)
  }

  ghost predicate Shaped(c: Setting, text: Tree, trail: seq<Reading>, v: View)
    requires TrailOk(trail)
  {
    && Follows(c, text, trail, v.position)
    && TrailStates(trail) == Debt(v.stack, v.overflow)
    && (forall k :: |v.stack| <= k < |trail| ==> SizeLayer(trail[k].spot) != OuterLayer)
    && (v.overflow != [] ==> v.errors.params.Some?)
  }

  predicate Tallied(c: Setting, collect: bool, text: Tree, trail: seq<Reading>, t: Tally, e: Errors)
    requires TrailOk(trail)
  {
    && (collect ==>
          && t.outer + TrailItems(c, trail, true) == Items(c, text, TopSpot, true)
          && t.outer <= t.total && (t.exhausted <==> t.total > c.limits.maxContainerItems))
    && (e.params.None? ==> t.total + TrailItems(c, trail, false) == Items(c, text, TopSpot, false))
    && (!collect ==> t.total <= c.limits.maxContainerItems && !t.exhausted)
  }

  // How many values of a container have been begun, or read to the end when one is still open.
  function Done(r: Reading, inside: bool): (n: nat)
    ensures ReadingOk(r) ==> n <= r.tree.Width()
  {
    if (AwaitsValue(r) || inside) && r.read > 0 then r.read - 1 else r.read
  }

  function MethodSoFar(c: Setting, text: Tree, trail: seq<Reading>): Option<Tree>
    requires TrailOk(trail) && (trail != [] ==> trail[0].tree == text)
  {
    if !text.Record? then None
    else LastField(c.raw, text.fields, if trail == [] then |text.fields| else Done(trail[0], false), METHOD_KEY)
  }

  ghost predicate MethodRead(c: Setting, text: Tree, trail: seq<Reading>, m: Called)
    requires TrailOk(trail) && (trail != [] ==> trail[0].tree == text)
  {
    MethodIs(c.raw, MethodSoFar(c, text, trail), m)
  }

  predicate MethodIs(raw: seq<Byte>, value: Option<Tree>, m: Called) {
    && (m.isString <==> IsString(value))
    && (m.isString ==> m.name == Text(raw, value.value.start, value.value.end))
  }

  function ArgumentsSoFar(c: Setting, text: Tree, trail: seq<Reading>): Option<Tree>
    requires TrailOk(trail) && (trail != [] ==> trail[0].tree == text)
  {
    if trail == [] then MessageArguments(c, text)
    else if !text.Record? then None
    else if |trail| > 1 && trail[1].spot == ParamsTop && trail[1].tree.Record? then
      Later(ArgumentsIn(c, text.fields, Done(trail[0], true)),
            LastField(c.raw, trail[1].tree.fields, Done(trail[1], |trail| > 2), ARGUMENTS_KEY))
    else ArgumentsIn(c, text.fields, Done(trail[0], |trail| > 1))
  }

  function Recorded(a: Option<Tree>): Arguments {
    if a.None? then NoArguments else ArgumentsAt(a.value.Kind(), a.value.start, a.value.end)
  }

  ghost predicate InStep(c: Setting, collect: bool, text: Tree, trail: seq<Reading>, v: View) {
    && Addressable(c.raw) && Parses(c.raw, text)
    && TrailOk(trail) && (trail != [] ==> trail[0].tree == text)
    && Shaped(c, text, trail, v)
    && Standing(c, text, trail, v.errors)
    && FramesAgree(c, collect, v.stack, trail, v.errors)
    && Tallied(c, collect, text, trail, v.tally, v.errors)
    && MethodRead(c, text, trail, v.called)
    && (v.errors.params.None? ==> v.arguments == Recorded(ArgumentsSoFar(c, text, trail)))
  }

  // Once the envelope has an error, that it is deserved is all there is to keep.
  ghost predicate Tracks(c: Setting, collect: bool, text: Tree, trail: seq<Reading>, v: View) {
    && (!collect ==> v.errors.outer.None? && v.errors.params.None?)
    && match v.errors.outer
       case Some(error) => Accused(c, text, OuterLayer, error.failure.kind)
       case None => InStep(c, collect, text, trail, v)
  }

  // A failure that ends a scan without collection.
  ghost predicate Deserved(c: Setting, text: Tree, failure: Failure) {
    || Accused(c, text, OuterLayer, failure.kind)
    || Accused(c, text, ParamsLayer, failure.kind)
    || (failure.kind == Resource && Items(c, text, TopSpot, false) > c.limits.maxContainerItems)
  }

  // What one step keeps: without collection it fails only deservedly.
  ghost predicate Stepped(c: Setting, collect: bool, text: Tree, next: seq<Reading>, w: View,
                          failure: Option<Failure>) {
    match failure
    case Some(f) => collect || Deserved(c, text, f)
    case None => Tracks(c, collect, text, next, w)
  }

  // ---- Every part moved ----

  lemma Moved(c: Setting, collect: bool, text: Tree, trail: seq<Reading>, faults: set<Fault>, next: seq<Reading>,
              v: View, w: View)
    requires InStep(c, collect, text, trail, v) && v.errors.outer.None?
    requires !collect ==> w.errors.outer.None? && w.errors.params.None?
    requires TrailOk(next) && (next != [] ==> next[0].tree == text)
    requires Settles(c, trail, faults, next) && Judged(v.errors, faults, w.errors)
    requires w.errors.outer.None? ==>
      && Shaped(c, text, next, w)
      && FramesAgree(c, collect, w.stack, next, w.errors)
      && Tallied(c, collect, text, next, w.tally, w.errors)
      && MethodRead(c, text, next, w.called)
      && (w.errors.params.None? ==> w.arguments == Recorded(ArgumentsSoFar(c, text, next)))
    ensures Tracks(c, collect, text, next, w)
  {
    hide Standing, Settles, Judged, Shaped, FramesAgree, Tallied, MethodRead, ArgumentsSoFar, Spells;
    assert Stays(v.errors.outer, w.errors.outer) by {
      KeepsOuter(v.errors, faults, w.errors);
    }
    StandingMoves(c, text, trail, faults, next, v.errors, w.errors);
  }

  lemma KeepsOuter(e: Errors, faults: set<Fault>, n: Errors)
    requires Judged(e, faults, n)
    ensures Keeps(e, n)
  {
  }

  lemma Refused(c: Setting, collect: bool, text: Tree, trail: seq<Reading>, faults: set<Fault>, next: seq<Reading>,
                v: View, failure: Failure)
    requires InStep(c, collect, text, trail, v) && !collect && v.errors.params.None?
    requires TrailOk(next) && Settles(c, trail, faults, next) && Blames(faults, failure)
    ensures Deserved(c, text, failure)
  {
    hide Standing, Settles, Shaped, FramesAgree, Tallied, MethodRead, ArgumentsSoFar, Spells;
    StandingBlames(c, text, trail, faults, next, v.errors, failure);
  }

  // Frames agree under later errors as well.
  lemma FramesKeep(c: Setting, collect: bool, stack: seq<Frame>, trail: seq<Reading>, e: Errors, n: Errors)
    requires TrailOk(trail) && FramesAgree(c, collect, stack, trail, e) && Keeps(e, n)
    ensures FramesAgree(c, collect, stack, trail, n)
  {
    hide KeysRead;
  }

  // ---- The stacks and the trail ----

  lemma StackTop(stack: seq<Frame>, f: Frame, below: seq<Reading>, r: Reading, s: Reading)
    requires TrailStates(below + [r]) == Debt(stack, []) && f.state == s.state
    ensures |stack| == |below| + 1
    ensures TrailStates(below + [s]) == Debt(stack[|below| := f], [])
  {
    assert Debt(stack, []) == States(stack);
  }

  lemma OverflowTopMoves(stack: seq<Frame>, overflow: seq<State>, below: seq<Reading>, r: Reading, s: Reading)
    requires TrailStates(below + [r]) == Debt(stack, overflow) && overflow != []
    ensures |stack| + |overflow| == |below| + 1
    ensures TrailStates(below + [s]) == Debt(stack, overflow[|overflow| - 1 := s.state])
  {
    var was, now := TrailStates(below + [r]), Debt(stack, overflow[|overflow| - 1 := s.state]);
    assert |was| == |below| + 1;
    forall k | 0 <= k < |below| ensures TrailStates(below + [s])[k] == now[k] {
      assert was[k] == Debt(stack, overflow)[k];
    }
  }

  lemma StackGrows(stack: seq<Frame>, f: Frame, trail: seq<Reading>, o: Reading)
    requires TrailStates(trail) == Debt(stack, []) && f.state == o.state
    ensures |stack| == |trail| && TrailStates(trail + [o]) == Debt(stack + [f], [])
  {
    assert Debt(stack, []) == States(stack);
  }

  lemma OverflowGrows(stack: seq<Frame>, overflow: seq<State>, trail: seq<Reading>, o: Reading)
    requires TrailStates(trail) == Debt(stack, overflow)
    ensures |stack| + |overflow| == |trail| && TrailStates(trail + [o]) == Debt(stack, overflow + [o.state])
  {
    assert |TrailStates(trail)| == |trail|;
  }

  lemma StackShrinks(stack: seq<Frame>, below: seq<Reading>, r: Reading)
    requires TrailStates(below + [r]) == Debt(stack, [])
    ensures |stack| == |below| + 1 && TrailStates(below) == Debt(stack[..|below|], [])
  {
    assert Debt(stack, []) == States(stack);
    assert forall k :: 0 <= k < |below| ==> TrailStates(below)[k] == TrailStates(below + [r])[k];
  }

  lemma OverflowShrinks(stack: seq<Frame>, overflow: seq<State>, below: seq<Reading>, r: Reading)
    requires TrailStates(below + [r]) == Debt(stack, overflow) && overflow != []
    ensures |stack| + |overflow| == |below| + 1 && TrailStates(below) == Debt(stack, overflow[..|overflow| - 1])
  {
    assert |TrailStates(below + [r])| == |below| + 1;
    assert forall k :: 0 <= k < |below| ==> TrailStates(below)[k] == TrailStates(below + [r])[k];
  }

  lemma FramesTop(c: Setting, collect: bool, stack: seq<Frame>, f: Frame, below: seq<Reading>, r: Reading, s: Reading,
                  e: Errors, n: Errors)
    requires TrailOk(below + [r]) && TrailOk(below + [s]) && ReadingOk(s) && |stack| == |below| + 1
    requires FramesAgree(c, collect, stack, below + [r], e) && Keeps(e, n) && FrameAgrees(c, collect, f, s, n)
    ensures FramesAgree(c, collect, stack[|below| := f], below + [s], n)
  {
    hide FrameAgrees, ReadingOk;
    var was, now := below + [r], below + [s];
    FramesKeep(c, collect, stack, was, e, n);
    forall k | 0 <= k < |stack| ensures FrameAgrees(c, collect, stack[|below| := f][k], now[k], n) {
      assert FrameAgrees(c, collect, stack[k], was[k], n);
    }
  }

  lemma FramesGrow(c: Setting, collect: bool, stack: seq<Frame>, f: Frame, trail: seq<Reading>, o: Reading, e: Errors)
    requires TrailOk(trail) && TrailOk(trail + [o]) && ReadingOk(o) && |stack| == |trail|
    requires FramesAgree(c, collect, stack, trail, e) && FrameAgrees(c, collect, f, o, e)
    ensures FramesAgree(c, collect, stack + [f], trail + [o], e)
  {
    hide FrameAgrees, ReadingOk;
    forall k | 0 <= k < |stack| + 1 ensures FrameAgrees(c, collect, (stack + [f])[k], (trail + [o])[k], e) {
      if k < |stack| {
        assert FrameAgrees(c, collect, stack[k], trail[k], e);
      }
    }
  }

  // The frames below a part of the trail that changes.
  lemma FramesUnder(c: Setting, collect: bool, stack: seq<Frame>, trail: seq<Reading>, next: seq<Reading>, e: Errors,
                    n: Errors)
    requires TrailOk(trail) && TrailOk(next) && FramesAgree(c, collect, stack, trail, e) && Keeps(e, n)
    requires |stack| <= |next| && forall k :: 0 <= k < |stack| ==> next[k] == trail[k]
    ensures FramesAgree(c, collect, stack, next, n)
  {
    hide FrameAgrees, ReadingOk;
    FramesKeep(c, collect, stack, trail, e, n);
    forall k | 0 <= k < |stack| ensures FrameAgrees(c, collect, stack[k], next[k], n) {
      assert FrameAgrees(c, collect, stack[k], trail[k], n);
    }
  }

  lemma FramesShrink(c: Setting, collect: bool, stack: seq<Frame>, below: seq<Reading>, r: Reading, e: Errors)
    requires TrailOk(below + [r]) && TrailOk(below) && |stack| == |below| + 1
    requires FramesAgree(c, collect, stack, below + [r], e)
    ensures FramesAgree(c, collect, stack[..|below|], below, e)
  {
    hide FrameAgrees, ReadingOk;
    forall k | 0 <= k < |below| ensures FrameAgrees(c, collect, stack[..|below|][k], below[k], e) {
      assert FrameAgrees(c, collect, stack[k], (below + [r])[k], e);
    }
  }

  // ---- What the trail settles ----

  lemma TopOk(below: seq<Reading>, r: Reading, s: Reading)
    requires TrailOk(below + [r]) && ReadingOk(s)
    ensures TrailOk(below) && ReadingOk(r) && TrailOk(below + [s])
  {
    hide ReadingOk;
    var was := below + [r];
    assert was[|below|] == r;
    forall k | 0 <= k < |below| ensures ReadingOk(below[k]) {
      assert below[k] == was[k];
    }
  }

  lemma KeySettlesTop(c: Setting, below: seq<Reading>, r: Reading)
    requires TrailOk(below + [r]) && ReadingOk(r)
    requires r.tree.Record? && !AwaitsValue(r) && r.read < |r.tree.fields|
    ensures
      var s := r.(read := r.read + 1, state := ObjectColon);
      && TrailOk(below) && TrailOk(below + [s])
      && Settles(c, below + [r], KeyFaults(c, r.tree.fields, r.read, SizeLayer(r.spot), TextLayer(r.spot)), below + [s])
      && forall outer :: TrailItems(c, below + [r], outer) == Own(r.spot, outer) + TrailItems(c, below + [s], outer)
  {
    hide KeyFaults, RestFree, TrailFree, RestItems, Own;
    var s := r.(read := r.read + 1, state := ObjectColon);
    TopOk(below, r, s);
    forall fault ensures TrailFree(c, below + [r], fault) <==>
      fault !in KeyFaults(c, r.tree.fields, r.read, SizeLayer(r.spot), TextLayer(r.spot))
      && TrailFree(c, below + [s], fault) {
      TopFree(c, below, r, fault);
      TopFree(c, below, s, fault);
      KeySettles(c, r, |below|, fault);
    }
    forall outer ensures TrailItems(c, below + [r], outer) == Own(r.spot, outer) + TrailItems(c, below + [s], outer) {
      TopItems(c, below, r, outer);
      TopItems(c, below, s, outer);
      KeyCharges(c, r, outer);
    }
  }

  function Charge(r: Reading, outer: bool): nat {
    if r.tree.List? then Own(r.spot, outer) else 0
  }

  lemma ScalarSettlesTop(c: Setting, below: seq<Reading>, r: Reading)
    requires TrailOk(below + [r]) && ReadingOk(r) && (r.state == ObjectValue || r.state == ArrayValue)
    requires Current(Begun(r)).Scalar?
    ensures
      var s := Begun(r);
      var spot := CurrentSpot(c, s);
      && TrailOk(below) && TrailOk(below + [s])
      && Settles(c, below + [r], ScalarFaults(c, Current(s), SizeLayer(spot), TextLayer(spot)), below + [s])
      && forall outer :: TrailItems(c, below + [r], outer) == Charge(r, outer) + TrailItems(c, below + [s], outer)
  {
    hide ScalarFaults, RestFree, TrailFree, RestItems, Own, CurrentSpot;
    var s := Begun(r);
    var spot := CurrentSpot(c, s);
    TopOk(below, r, s);
    forall fault ensures TrailFree(c, below + [r], fault) <==>
      fault !in ScalarFaults(c, Current(s), SizeLayer(spot), TextLayer(spot)) && TrailFree(c, below + [s], fault) {
      TopFree(c, below, r, fault);
      TopFree(c, below, s, fault);
      ValueSettles(c, r, |below|, fault);
    }
    forall outer ensures TrailItems(c, below + [r], outer) == Charge(r, outer) + TrailItems(c, below + [s], outer) {
      TopItems(c, below, r, outer);
      TopItems(c, below, s, outer);
      ValueCharges(c, r, outer);
    }
  }

  lemma OpenSettlesTop(c: Setting, below: seq<Reading>, r: Reading)
    requires TrailOk(below + [r]) && ReadingOk(r) && (r.state == ObjectValue || r.state == ArrayValue)
    requires !Current(Begun(r)).Scalar?
    ensures
      var s := Begun(r);
      var spot := CurrentSpot(c, s);
      var next := below + [s] + [Opened(Current(s), spot)];
      && TrailOk(below) && TrailOk(below + [s]) && TrailOk(next)
      && Settles(c, below + [r], DepthFaults(c, |below| + 1, SizeLayer(spot)), next)
      && forall outer :: TrailItems(c, below + [r], outer) == Charge(r, outer) + TrailItems(c, next, outer)
  {
    hide DepthFaults, RestFree, TrailFree, RestItems, Own, CurrentSpot;
    var s := Begun(r);
    var spot := CurrentSpot(c, s);
    var o := Opened(Current(s), spot);
    TopOk(below, r, s);
    assert TrailOk(below + [s] + [o]);
    forall fault ensures TrailFree(c, below + [r], fault) <==>
      fault !in DepthFaults(c, |below| + 1, SizeLayer(spot)) && TrailFree(c, below + [s] + [o], fault) {
      TopFree(c, below, r, fault);
      TopFree(c, below, s, fault);
      TopFree(c, below + [s], o, fault);
      ValueSettles(c, r, |below|, fault);
      OpenSettles(c, Current(s), spot, |below| + 1, fault);
    }
    forall outer ensures
      TrailItems(c, below + [r], outer) == Charge(r, outer) + TrailItems(c, below + [s] + [o], outer) {
      TopItems(c, below, r, outer);
      TopItems(c, below, s, outer);
      TopItems(c, below + [s], o, outer);
      ValueCharges(c, r, outer);
      OpenCharges(c, Current(s), spot, outer);
    }
  }

  lemma StateSettlesTop(c: Setting, below: seq<Reading>, r: Reading, state: State)
    requires TrailOk(below + [r]) && ReadingOk(r)
    requires ReadingOk(r.(state := state)) && AwaitsValue(r) == AwaitsValue(r.(state := state))
    ensures
      var s := r.(state := state);
      && TrailOk(below) && TrailOk(below + [s])
      && Settles(c, below + [r], {}, below + [s])
      && forall outer :: TrailItems(c, below + [r], outer) == TrailItems(c, below + [s], outer)
  {
    hide RestFree, TrailFree, RestItems;
    var s := r.(state := state);
    TopOk(below, r, s);
    forall fault ensures TrailFree(c, below + [r], fault) <==> TrailFree(c, below + [s], fault) {
      TopFree(c, below, r, fault);
      TopFree(c, below, s, fault);
      StateSettles(c, r, state, |below|, fault, true);
    }
    forall outer ensures TrailItems(c, below + [r], outer) == TrailItems(c, below + [s], outer) {
      TopItems(c, below, r, outer);
      TopItems(c, below, s, outer);
      StateSettles(c, r, state, |below|, Fault(OuterLayer, Syntax), outer);
    }
  }

  lemma EndSettlesTop(c: Setting, below: seq<Reading>, r: Reading)
    requires TrailOk(below + [r]) && ReadingOk(r) && r.read == r.tree.Width() && !AwaitsValue(r)
    ensures TrailOk(below) && Settles(c, below + [r], {}, below)
    ensures forall outer :: TrailItems(c, below + [r], outer) == TrailItems(c, below, outer)
  {
    hide RestFree, TrailFree, RestItems;
    TopOk(below, r, r);
    forall fault ensures TrailFree(c, below + [r], fault) <==> TrailFree(c, below, fault) {
      TopFree(c, below, r, fault);
      EndSettles(c, r, |below|, fault, true);
    }
    forall outer ensures TrailItems(c, below + [r], outer) == TrailItems(c, below, outer) {
      TopItems(c, below, r, outer);
      EndSettles(c, r, |below|, Fault(OuterLayer, Syntax), outer);
    }
  }

  // ---- Items ----

  lemma TallyStays(c: Setting, collect: bool, text: Tree, trail: seq<Reading>, next: seq<Reading>, t: Tally, e: Errors,
                   n: Errors)
    requires TrailOk(trail) && TrailOk(next) && Tallied(c, collect, text, trail, t, e) && Keeps(e, n)
    requires TrailItems(c, trail, true) == TrailItems(c, next, true)
    requires n.params.None? ==> TrailItems(c, trail, false) == TrailItems(c, next, false)
    ensures Tallied(c, collect, text, next, t, n)
  {
    hide TrailItems, Items;
  }

  // Beyond the depth limit of the params no item is charged.
  lemma TallyUnasked(c: Setting, collect: bool, text: Tree, trail: seq<Reading>, next: seq<Reading>, spot: Spot,
                     t: Tally, e: Errors, n: Errors)
    requires TrailOk(trail) && TrailOk(next) && Tallied(c, collect, text, trail, t, e) && Keeps(e, n)
    requires e.params.Some? && SizeLayer(spot) != OuterLayer
    requires TrailItems(c, trail, true) == TrailItems(c, next, true) ||
             TrailItems(c, trail, true) == Own(spot, true) + TrailItems(c, next, true)
    ensures Tallied(c, collect, text, next, t, n)
  {
    hide TrailItems, Items;
  }

  lemma TallyMoves(c: Setting, collect: bool, text: Tree, trail: seq<Reading>, next: seq<Reading>, scope: Scope,
                   spot: Spot, s: Tally, t: Tally, e: Errors, n: Errors)
    requires Addressable(c.raw) && Parses(c.raw, text)
    requires TrailOk(trail) && TrailOk(next) && Tallied(c, collect, text, trail, s, e) && Keeps(e, n)
    requires forall outer :: TrailItems(c, trail, outer) == Own(spot, outer) + TrailItems(c, next, outer)
    requires LayerOf(scope) == SizeLayer(spot) && (collect ==> ProtocolScope(scope))
    requires ItemCharged(c, collect, scope, s, t)
    ensures Tallied(c, collect, text, next, t, n)
  {
    hide TrailItems, Items, Spells;
    ItemsBound(c, text, TopSpot, true);
    ItemsBound(c, text, TopSpot, false);
    assert TrailItems(c, trail, true) == Own(spot, true) + TrailItems(c, next, true);
    assert TrailItems(c, trail, false) == Own(spot, false) + TrailItems(c, next, false);
  }

  // An item that cannot be charged is one too many.
  lemma TallyExceeds(c: Setting, text: Tree, trail: seq<Reading>, spot: Spot, next: nat, t: Tally, e: Errors)
    requires TrailOk(trail) && Tallied(c, false, text, trail, t, e) && e.params.None?
    requires TrailItems(c, trail, false) == Own(spot, false) + next
    requires t.total >= c.limits.maxContainerItems
    ensures Items(c, text, TopSpot, false) > c.limits.maxContainerItems
  {
    hide TrailItems, Items;
  }

  // ---- The method and the arguments ----

  // The protocol's own containers stand at the bottom of the trail.
  lemma SpotPlaces(c: Setting, text: Tree, trail: seq<Reading>, i: nat, k: nat)
    requires Follows(c, text, trail, i) && k < |trail|
    ensures trail[k].spot == TopSpot <==> k == 0
    ensures trail[k].spot == ParamsTop ==> k == 1
    ensures trail[k].spot == ArgumentsTop ==> k == 2 && trail[1].spot == ParamsTop
  {
    hide Nested, ReadingAt;
    if k > 0 {
      assert Nested(c, trail[k - 1], trail[k]);
      NestedSpot(c, trail[k - 1], trail[k]);
      if k > 1 {
        assert Nested(c, trail[k - 2], trail[k - 1]);
        NestedSpot(c, trail[k - 2], trail[k - 1]);
      }
      if k > 2 {
        assert Nested(c, trail[k - 3], trail[k - 2]);
        NestedSpot(c, trail[k - 3], trail[k - 2]);
      }
    }
  }

  lemma NestedSpot(c: Setting, r: Reading, s: Reading)
    requires Nested(c, r, s)
    ensures s.spot != TopSpot
    ensures s.spot == ParamsTop ==> r.spot == TopSpot && r.tree.Record? && c.mode == ProtocolWithRawArguments
    ensures s.spot == ArgumentsTop ==> r.spot == ParamsTop
  {
    hide KeyText;
  }

  lemma SameSoFar(c: Setting, text: Tree, below: seq<Reading>, r: Reading, s: Reading)
    requires TrailOk(below + [r]) && TrailOk(below + [s])
    requires (below + [r])[0].tree == text && s.tree == r.tree && s.spot == r.spot && Done(s, false) == Done(r, false)
    ensures (below + [s])[0].tree == text
    ensures MethodSoFar(c, text, below + [s]) == MethodSoFar(c, text, below + [r])
    ensures ArgumentsSoFar(c, text, below + [s]) == ArgumentsSoFar(c, text, below + [r])
  {
    hide Done, ArgumentsIn, LastField, ReadingOk;
    assert (below + [s])[|below|] == s && (below + [r])[|below|] == r;
  }

  predicate HasKey(c: Setting, s: Reading, key: seq<Byte>)
    requires ReadingOk(s) && s.read > 0
  {
    s.tree.Record? && KeyText(c.raw, s.tree.fields[s.read - 1]) == key
  }

  lemma ScalarSoFar(c: Setting, text: Tree, below: seq<Reading>, r: Reading)
    requires TrailOk(below + [r]) && ReadingOk(r) && (r.state == ObjectValue || r.state == ArrayValue)
    requires TrailOk(below + [Begun(r)]) && (below + [r])[0].tree == text && Current(Begun(r)).Scalar?
    ensures
      var s := Begun(r);
      && (below + [s])[0].tree == text
      && MethodSoFar(c, text, below + [s]) ==
           (if below == [] && HasKey(c, s, METHOD_KEY) then Some(Current(s)) else MethodSoFar(c, text, below + [r]))
      && ArgumentsSoFar(c, text, below + [s]) ==
           (if |below| == 1 && r.spot == ParamsTop && text.Record? && HasKey(c, s, ARGUMENTS_KEY) then Some(Current(s))
            else ArgumentsSoFar(c, text, below + [r]))
  {
    hide KeyText;
    var s := Begun(r);
    assert (below + [s])[|below|] == s && (below + [r])[|below|] == r;
  }

  lemma OpenSoFar(c: Setting, text: Tree, below: seq<Reading>, r: Reading)
    requires TrailOk(below + [r]) && ReadingOk(r) && (r.state == ObjectValue || r.state == ArrayValue)
    requires (below + [r])[0].tree == text && !Current(Begun(r)).Scalar?
    requires TrailOk(below + [Begun(r)] + [Opened(Current(Begun(r)), CurrentSpot(c, Begun(r)))])
    ensures
      var s := Begun(r);
      var next := below + [s] + [Opened(Current(s), CurrentSpot(c, s))];
      && next[0].tree == text
      && MethodSoFar(c, text, next) ==
           (if below == [] && HasKey(c, s, METHOD_KEY) then Some(Current(s)) else MethodSoFar(c, text, below + [r]))
      && ArgumentsSoFar(c, text, next) == ArgumentsSoFar(c, text, below + [r])
  {
    hide KeyText, CurrentSpot;
    var s := Begun(r);
    var next := below + [s] + [Opened(Current(s), CurrentSpot(c, s))];
    assert next[|below|] == s && (below + [r])[|below|] == r;
  }

  lemma CloseSoFar(c: Setting, text: Tree, below: seq<Reading>, r: Reading, i: nat)
    requires TrailOk(below + [r]) && TrailOk(below) && ReadingOk(r) && Follows(c, text, below + [r], i)
    requires r.read == r.tree.Width() && !AwaitsValue(r)
    ensures below != [] ==> below[0].tree == text
    ensures MethodSoFar(c, text, below) == MethodSoFar(c, text, below + [r])
    ensures ArgumentsSoFar(c, text, below) ==
      if r.spot == ArgumentsTop && text.Record? then Some(r.tree) else ArgumentsSoFar(c, text, below + [r])
  {
    hide KeyText, ReadingAt, LastField, ArgumentsIn;
    var was := below + [r];
    assert was[|below|] == r;
    SpotPlaces(c, text, was, i, |below|);
    if |below| >= 1 {
      assert below[0] == was[0] && Nested(c, was[|below| - 1], was[|below|]) && below[|below| - 1] == was[|below| - 1];
    }
    if |below| == 1 {
      MessageSoFar(c, text, below[0], r);
    } else if |below| == 2 {
      assert below[1] == was[1];
      assert Nested(c, was[0], was[1]);
      SpotPlaces(c, text, was, i, 1);
      ParamsSoFar(c, text, below[0], below[1], r);
    }
  }

  // What a finished member of the message adds.
  lemma MessageSoFar(c: Setting, text: Tree, m: Reading, r: Reading)
    requires ReadingOk(m) && ReadingOk(r) && m.tree == text && m.spot == TopSpot && Nested(c, m, r)
    requires r.read == r.tree.Width() && !AwaitsValue(r)
    ensures ArgumentsSoFar(c, text, [m]) == ArgumentsSoFar(c, text, [m] + [r])
    ensures r.spot != ArgumentsTop
  {
    hide KeyText, ReadingAt, LastField;
    assert ([m] + [r])[0] == m && ([m] + [r])[1] == r;
    if text.Record? {
      var f := text.fields[m.read - 1];
      assert ArgumentsIn(c, text.fields, m.read)
        == Later(ArgumentsIn(c, text.fields, m.read - 1), ArgumentsOf(c, f));
    }
  }

  // What a finished member of the params adds.
  lemma ParamsSoFar(c: Setting, text: Tree, m: Reading, p: Reading, r: Reading)
    requires ReadingOk(m) && ReadingOk(p) && ReadingOk(r) && m.tree == text && Nested(c, m, p) && Nested(c, p, r)
    requires r.spot == ArgumentsTop ==> p.spot == ParamsTop
    ensures ArgumentsSoFar(c, text, [m, p]) ==
      if r.spot == ArgumentsTop && text.Record? then Some(r.tree) else ArgumentsSoFar(c, text, [m, p] + [r])
  {
    hide KeyText, ReadingAt, ArgumentsIn;
    assert ([m, p] + [r])[0] == m && ([m, p] + [r])[1] == p;
  }
}
